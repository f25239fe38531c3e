/** What the memory instructions do to operands and bytes, stated on the operands a program lays out:
    section 4.4.7 of the WebAssembly Core Specification 2.0, where the interpreter keeps to it. */
module MemoryMeaning {
  import opened Core
  import opened RuntimeState
  import opened Spill
  import opened LinearMemory
  import opened Leb128
  import opened Decoders
  import E = Encoding

  /** An address, index or length on the operand stack. */
  function Address(is64: bool, v: nat): Value {
    if is64 then I64(v) else I32(v)
  }

  predicate InRange(is64: bool, v: nat) {
    v < if is64 then TWO_64 else TWO_32
  }

  predicate There(w: World, i: nat) {
    i < |w.memories| && i < TWO_32 && !w.memories[i].isSpilled
  }

  /** The bytes `at` up to `at + n` exist; a stretch of no bytes is anywhere in a memory that has any. */
  predicate Reaches(w: World, i: nat, at: nat, n: nat)
    requires i < |w.memories| && MemoryOk(w, i)
  {
    !w.memories[i].data.Absent? && (n == 0 || at + n <= |Contents(w, i)|)
  }

  // ---------------------------------------------------------- plumbing

  function BitsFromTop(imms: seq<Imm>): (r: seq<nat>)
    ensures |r| == |imms|
    decreases |imms|
  {
    if imms == [] then [] else [imms[|imms| - 1].bits % TWO_64] + BitsFromTop(imms[..|imms| - 1])
  }

  lemma {:induction false} PopsInOrder(stack: seq<Value>, window: seq<Imm>, imms: seq<Imm>)
    ensures PopImms(Regs(stack, window + imms), |imms|) == (Regs(stack, window), BitsFromTop(imms))
    decreases |imms|
  {
    if imms == [] {
      assert window + imms == window;
    } else {
      var rest := imms[..|imms| - 1];
      PopsInOrder(stack, window, rest);
      assert (window + imms)[..|window + imms| - 1] == window + rest;
    }
  }

  lemma PopsLast(stack: seq<Value>, window: seq<Imm>, v: Value)
    ensures Pop(Regs(stack + [v], window)) == Some((Regs(stack, window), v))
  {
    assert (stack + [v])[..|stack|] == stack;
  }

  lemma PopsAddress(stack: seq<Value>, window: seq<Imm>, is64: bool, v: nat)
    requires InRange(is64, v)
    ensures PopIndex(Regs(stack + [Address(is64, v)], window), is64) == Some((Regs(stack, window), v))
  {
    PopsLast(stack, window, Address(is64, v));
  }

  lemma {:induction false} AllThere(w: World, needs: seq<nat>, hooks: MemoryHooks)
    requires Faithful(w) && forall k :: 0 <= k < |needs| ==> There(w, needs[k])
    ensures RequireAll(w, needs, hooks) == (w, Ok)
    decreases |needs|
  {
    hide Require;
    if needs != [] {
      RequireIsInvisible(w, needs[0], hooks);
      AllThere(w, needs[1..], hooks);
    }
  }

  /** A memory argument in the window: with several memories the index comes first. */
  function ArgImms(memories: nat, i: nat, align: nat, offset: Imm): seq<Imm> {
    (if memories > 1 then [Imm(MemoryIndex, 4, i)] else []) + [Imm(Alignment, 4, align), offset]
  }

  predicate ArgOk(w: World, i: nat, align: nat, offset: Imm) {
    There(w, i) && (|w.memories| == 1 ==> i == 0) && align < TWO_32 && offset.bits < TWO_64
  }

  lemma ArgBits(memories: nat, i: nat, align: nat, offset: Imm)
    requires i < TWO_32 && align < TWO_32 && offset.bits < TWO_64
    ensures BitsFromTop(ArgImms(memories, i, align, offset)) == if memories > 1 then [offset.bits, align, i]
            else [offset.bits, align]
  {
    var al, off, mem := Imm(Alignment, 4, align), offset, Imm(MemoryIndex, 4, i);
    assert [al, off][..1] == [al] && [al][..0] == [] && [mem][..0] == [];
    assert BitsFromTop([al]) == [align] && BitsFromTop([al, off]) == [offset.bits, align] && BitsFromTop([mem]) == [i];
    if memories > 1 {
      var all := ArgImms(memories, i, align, offset);
      assert all == [mem, al, off] && all[..2] == [mem, al] && [mem, al][..1] == [mem];
      assert BitsFromTop([mem, al]) == [align, i];
    } else {
      assert ArgImms(memories, i, align, offset) == [al, off];
    }
  }

  lemma OneImm(imm: Imm)
    requires imm.bits < TWO_64
    ensures BitsFromTop([imm]) == [imm.bits]
  {
    assert [imm][..0] == [];
  }

  lemma TwoImms(a: Imm, b: Imm)
    requires a.bits < TWO_64 && b.bits < TWO_64
    ensures BitsFromTop([a, b]) == [b.bits, a.bits]
  {
    OneImm(a);
    assert [a, b][..1] == [a];
  }

  // ------------------------------------------------------ loads and stores

  /** A load takes its address, adds the offset, and puts the number its bytes stand for in place. */
  lemma LoadDoes(fl: Floats, a: Access, w: World, stack: seq<Value>, window: seq<Imm>, i: nat, align: nat, offset: Imm,
                 base: nat, hooks: MemoryHooks)
    requires AccessOk(a) && Faithful(w) && ArgOk(w, i, align, offset) && InRange(w.memories[i].is64, base)
    ensures MemoryOk(w, i)
    ensures var at, n := base + offset.bits, a.bits / 8;
            var operands := stack + [Address(w.memories[i].is64, base)];
            Handle(fl, LoadOp(a), Regs(operands, window + ArgImms(|w.memories|, i, align, offset)), w, hooks)
            == if Reaches(w, i, at, n)
               then (Regs(stack + [LoadedValue(fl, a, LittleEndian(Contents(w, i)[at..at + n]))], window), w, Ok)
               else (Regs(stack, window), w, Trap)
  {
    hide RequireAll, PopIndex, LoadedValue, LittleEndian, BitsFromTop, ArgImms, PopImms;
    assert MemoryOk(w, i);
    var operands, imms := stack + [Address(w.memories[i].is64, base)], ArgImms(|w.memories|, i, align, offset);
    PopsInOrder(operands, window, imms);
    ArgBits(|w.memories|, i, align, offset);
    AllThere(w, [i], hooks);
    PopsAddress(stack, window, w.memories[i].is64, base);
  }

  /** A store takes its value and address and writes exactly its bytes; when it cannot, the value stays. */
  lemma StoreDoes(fl: Floats, a: Access, w: World, stack: seq<Value>, window: seq<Imm>, i: nat, align: nat, offset: Imm,
                  base: nat, v: Value, hooks: MemoryHooks)
    requires AccessOk(a) && Faithful(w) && ArgOk(w, i, align, offset) && InRange(w.memories[i].is64, base)
    ensures MemoryOk(w, i)
    ensures var at, bytes := base + offset.bits, StoredBytes(fl, a, v);
            var (r, w', status) := Handle(fl, StoreOp(a), Regs(stack + [Address(w.memories[i].is64, base)] + [v],
                                          window + ArgImms(|w.memories|, i, align, offset)), w, hooks);
            if Reaches(w, i, at, a.bits / 8) && bytes.Some?
            then r == Regs(stack, window) && status == Ok && w' == Write(w, i, at, bytes.value)
                 && MemoryOk(w', i) && Contents(w', i) == Overwrite(Contents(w, i), at, bytes.value)
            else r == Regs(stack + [v], window) && w' == w && status == Trap
  {
    hide RequireAll, PopIndex, StoredBytes, BitsFromTop, ArgImms, PopImms, Write, Overwrite;
    assert MemoryOk(w, i);
    var operands, imms := stack + [Address(w.memories[i].is64, base)], ArgImms(|w.memories|, i, align, offset);
    assert (operands + [v])[..|operands|] == operands;
    PopsInOrder(operands, window, imms);
    ArgBits(|w.memories|, i, align, offset);
    AllThere(w, [i], hooks);
    PopsAddress(stack, window, w.memories[i].is64, base);
    var at, bytes := base + offset.bits, StoredBytes(fl, a, v);
    if Reaches(w, i, at, a.bits / 8) && bytes.Some? {
      WriteOverwrites(w, i, at, bytes.value);
    }
  }

  // -------------------------------------------------------- bulk instructions

  lemma ThreePops(stack: seq<Value>, window: seq<Imm>, a: Value, b: Value, c: Value)
    ensures Pop(Regs(stack + [a, b, c], window)) == Some((Regs(stack + [a, b], window), c))
    ensures Pop(Regs(stack + [a, b], window)) == Some((Regs(stack + [a], window), b))
    ensures Pop(Regs(stack + [a], window)) == Some((Regs(stack, window), a))
  {
    assert (stack + [a, b, c])[..|stack| + 2] == stack + [a, b];
    assert (stack + [a, b])[..|stack| + 1] == stack + [a];
    assert (stack + [a])[..|stack|] == stack;
  }

  /** Three addresses on the stack, the last one popped first. */
  lemma ThreeAddresses(stack: seq<Value>, window: seq<Imm>, is64A: bool, a: nat, is64B: bool, b: nat,
        is64C: bool, c: nat)
    requires InRange(is64A, a) && InRange(is64B, b) && InRange(is64C, c)
    ensures var x, y, z := Address(is64A, a), Address(is64B, b), Address(is64C, c);
            && PopIndex(Regs(stack + [x, y, z], window), is64C) == Some((Regs(stack + [x, y], window), c))
            && PopIndex(Regs(stack + [x, y], window), is64B) == Some((Regs(stack + [x], window), b))
            && PopIndex(Regs(stack + [x], window), is64A) == Some((Regs(stack, window), a))
  {
    hide Pop;
    ThreePops(stack, window, Address(is64A, a), Address(is64B, b), Address(is64C, c));
  }

  /** Fill writes `n` copies of a byte from the destination on. */
  lemma FillDoes(fl: Floats, w: World, stack: seq<Value>, window: seq<Imm>, i: nat, dst: nat, value: nat, n: nat,
        hooks: MemoryHooks)
    requires Faithful(w) && There(w, i) && value < TWO_32
    requires InRange(w.memories[i].is64, dst) && InRange(w.memories[i].is64, n)
    ensures MemoryOk(w, i)
    ensures var is64 := w.memories[i].is64;
            var (r, w', status) := Handle(fl, FillOp, Regs(stack + [Address(is64, dst), I32(value), Address(is64, n)],
                                                           window + [Imm(MemoryIndex, 4, i)]), w, hooks);
            && r == Regs(stack, window)
            && (if Reaches(w, i, dst, n)
                then status == Ok && w' == Write(w, i, dst, seq(n, _ => value % 256))
                else status == Trap && w' == w)
  {
    hide RequireAll, PopIndex, BitsFromTop, PopImms, Write;
    assert MemoryOk(w, i);
    var is64 := w.memories[i].is64;
    var operands := stack + [Address(is64, dst), I32(value), Address(is64, n)];
    PopsInOrder(operands, window, [Imm(MemoryIndex, 4, i)]);
    OneImm(Imm(MemoryIndex, 4, i));
    AllThere(w, [i], hooks);
    ThreeAddresses(stack, window, is64, dst, false, value, is64, n);
  }

  lemma CopyActs(c: Call, w: World, stack: seq<Value>, window: seq<Imm>, i: nat, j: nat, src: nat, dst: nat, n: nat)
    requires i < |w.memories| && MemoryOk(w, i) && j < |w.memories| && MemoryOk(w, j)
    requires InRange(w.memories[j].is64, dst) && InRange(w.memories[i].is64, src)
    requires InRange(w.memories[i].is64 || w.memories[j].is64, n)
    requires c.regs == Regs(stack + [Address(w.memories[j].is64, dst), Address(w.memories[i].is64, src),
                                     Address(w.memories[i].is64 || w.memories[j].is64, n)], window)
    ensures CopyAct(c, w, i, j) ==
            if Reaches(w, i, src, n) && Reaches(w, j, dst, n)
            then (Regs(stack, window), Write(w, j, dst, if n == 0 then [] else Contents(w, i)[src..src + n]), Ok)
            else (Regs(stack, window), w, Trap)
  {
    hide PopIndex, Write, Contents, MemoryOk;
    ThreeAddresses(stack, window, w.memories[j].is64, dst, w.memories[i].is64, src,
                   w.memories[i].is64 || w.memories[j].is64, n);
    BoundsAreExact(w, i, src, n);
    BoundsAreExact(w, j, dst, n);
  }

  /** Copy moves `n` bytes from memory `i` to memory `j`, reading all of them before it writes. */
  lemma CopyDoes(fl: Floats, w: World, stack: seq<Value>, window: seq<Imm>, i: nat, j: nat, src: nat, dst: nat,
        n: nat, hooks: MemoryHooks)
    requires Faithful(w) && There(w, i) && There(w, j)
    requires InRange(w.memories[j].is64, dst) && InRange(w.memories[i].is64, src)
    requires InRange(w.memories[i].is64 || w.memories[j].is64, n)
    ensures MemoryOk(w, i) && MemoryOk(w, j)
    ensures var (r, w', status) :=
              Handle(fl, CopyOp, Regs(stack + [Address(w.memories[j].is64, dst), Address(w.memories[i].is64, src),
                                               Address(w.memories[i].is64 || w.memories[j].is64, n)],
                                      window + [Imm(MemoryIndex, 4, j), Imm(SourceMemory, 4, i)]), w, hooks);
            && r == Regs(stack, window)
            && (if Reaches(w, i, src, n) && Reaches(w, j, dst, n)
                then status == Ok && w' == Write(w, j, dst, if n == 0 then [] else Contents(w, i)[src..src + n])
                else status == Trap && w' == w)
  {
    hide RequireAll, Pop, BitsFromTop, PopImms, Write, Reaches, Contents, CopyAct;
    assert MemoryOk(w, i) && MemoryOk(w, j);
    var d, s := Address(w.memories[j].is64, dst), Address(w.memories[i].is64, src);
    var len := Address(w.memories[i].is64 || w.memories[j].is64, n);
    PopsInOrder(stack + [d, s, len], window, [Imm(MemoryIndex, 4, j), Imm(SourceMemory, 4, i)]);
    TwoImms(Imm(MemoryIndex, 4, j), Imm(SourceMemory, 4, i));
    AllThere(w, [i, j], hooks);
    CopyActs(Call(Regs(stack + [d, s, len], window), None, [i, j], [i, j]), w, stack, window, i, j, src, dst, n);
  }

  lemma InitActs(c: Call, w: World, stack: seq<Value>, window: seq<Imm>, i: nat, src: nat, dst: nat, n: nat)
    requires i < |w.memories| && MemoryOk(w, i) && |c.imms| > 1
    requires c.imms[1] < |w.segments| && c.imms[1] !in w.dropped && |w.segments[c.imms[1]]| < TWO_64
    requires InRange(w.memories[i].is64, dst) && InRange(w.memories[i].is64, src) && InRange(w.memories[i].is64, n)
    requires c.regs == Regs(stack + [Address(w.memories[i].is64, dst), Address(w.memories[i].is64, src),
                                     Address(w.memories[i].is64, n)], window)
    ensures InitAct(c, w, i) ==
            if src + n <= |w.segments[c.imms[1]]| && Reaches(w, i, dst, n)
            then (Regs(stack, window), Write(w, i, dst, w.segments[c.imms[1]][src..src + n]), Ok)
            else (Regs(stack, window), w, Trap)
  {
    hide PopIndex, Write, Contents;
    var is64 := w.memories[i].is64;
    ThreeAddresses(stack, window, is64, dst, is64, src, is64, n);
    BoundsAreExact(w, i, dst, n);
  }

  /** Init copies from a data segment; one that is missing or dropped traps before any operand is taken. */
  lemma InitDoes(fl: Floats, w: World, stack: seq<Value>, window: seq<Imm>, i: nat, data: nat, src: nat, dst: nat,
        n: nat, hooks: MemoryHooks)
    requires Faithful(w) && There(w, i) && data < TWO_32 && forall k :: 0 <= k < |w.segments| ==>
             |w.segments[k]| < TWO_64
    requires InRange(w.memories[i].is64, dst) && InRange(w.memories[i].is64, src) && InRange(w.memories[i].is64, n)
    ensures MemoryOk(w, i)
    ensures var is64 := w.memories[i].is64;
            var operands := stack + [Address(is64, dst), Address(is64, src), Address(is64, n)];
            var (r, w', status) :=
                Handle(fl, InitOp, Regs(operands, window + [Imm(DataIndex, 4, data), Imm(MemoryIndex, 4, i)]),
                       w, hooks);
            var live := data < |w.segments| && data !in w.dropped;
            && r == Regs(if live then stack else operands, window)
            && (if live && src + n <= |w.segments[data]| && Reaches(w, i, dst, n)
                then status == Ok && w' == Write(w, i, dst, w.segments[data][src..src + n])
                else status == Trap && w' == w)
  {
    hide RequireAll, Pop, BitsFromTop, PopImms, Write, Reaches;
    assert MemoryOk(w, i);
    var is64 := w.memories[i].is64;
    PopsInOrder(stack + [Address(is64, dst), Address(is64, src), Address(is64, n)], window,
                [Imm(DataIndex, 4, data), Imm(MemoryIndex, 4, i)]);
    TwoImms(Imm(DataIndex, 4, data), Imm(MemoryIndex, 4, i));
    AllThere(w, [i], hooks);
    if data < |w.segments| && data !in w.dropped {
      InitActs(Call(Regs(stack + [Address(is64, dst), Address(is64, src), Address(is64, n)], window), None, [i, data],
                    [i]),
               w, stack, window, i, src, dst, n);
    }
  }

  /** Dropping a segment marks it, whatever was dropped before; there must be such a segment. */
  lemma DropDoes(fl: Floats, w: World, stack: seq<Value>, window: seq<Imm>, data: nat, hooks: MemoryHooks)
    requires Faithful(w) && data < TWO_32
    ensures var (r, w', status) := Handle(fl, DropOp, Regs(stack, window + [Imm(DataIndex, 4, data)]), w, hooks);
            && r == Regs(stack, window)
            && (if data < |w.segments| then status == Ok && w' == w.(dropped := w.dropped + {data})
                else status == Trap && w' == w)
  {
    hide BitsFromTop, PopImms;
    PopsInOrder(stack, window, [Imm(DataIndex, 4, data)]);
    OneImm(Imm(DataIndex, 4, data));
  }

  // ------------------------------------------------------------ size and growth

  /** A 32-bit memory of more pages than its address type can count. */
  predicate Uncountable(m: Memory) {
    !m.is64 && m.size / PAGE_SIZE >= TWO_32
  }

  /** Growing answers the old size in pages, or minus one when the memory stays as it is; a 32-bit memory
      whose size no 32-bit answer holds is refused, with its operand gone. */
  lemma GrowDoes(fl: Floats, w: World, stack: seq<Value>, window: seq<Imm>, i: nat, delta: nat, hooks: MemoryHooks)
    requires Faithful(w) && There(w, i) && InRange(w.memories[i].is64, delta)
    ensures var m := w.memories[i];
            var (m', pages, grew) := Grow(m, delta);
            Handle(fl, GrowOp, Regs(stack + [Address(m.is64, delta)], window + [Imm(MemoryIndex, 4, i)]), w, hooks)
            == if Uncountable(m) then (Regs(stack, window), w, Unsupported)
               else (Regs(stack + [if grew then Address(m.is64, m.size / PAGE_SIZE)
                                   else if m.is64 then I64(TWO_64 - 1) else I32(TWO_32 - 1)], window),
                     w.(memories := w.memories[i := m']), Ok)
  {
    hide RequireAll, BitsFromTop, PopImms;
    var m := w.memories[i];
    PopsInOrder(stack + [Address(m.is64, delta)], window, [Imm(MemoryIndex, 4, i)]);
    OneImm(Imm(MemoryIndex, 4, i));
    AllThere(w, [i], hooks);
    PopsLast(stack, window, Address(m.is64, delta));
  }

  /** Growing by nothing answers the size and changes nothing, in any memory. */
  lemma GrowByNothing(m: Memory)
    ensures Grow(m, 0) == (m, m.size / 0x1_0000, true)
  {
  }

  /** The size in pages, which a spilled memory answers as well. */
  lemma SizeDoes(fl: Floats, w: World, stack: seq<Value>, window: seq<Imm>, i: nat, hooks: MemoryHooks)
    requires Faithful(w) && i < |w.memories| && i < TWO_32
    ensures var m := w.memories[i];
            Handle(fl, SizeOp, Regs(stack, window + [Imm(MemoryIndex, 4, i)]), w, hooks)
            == if Uncountable(m) then (Regs(stack, window), w, Unsupported)
               else (Regs(stack + [Address(m.is64, m.size / PAGE_SIZE)], window), w, Ok)
  {
    hide BitsFromTop, PopImms;
    PopsInOrder(stack, window, [Imm(MemoryIndex, 4, i)]);
    OneImm(Imm(MemoryIndex, 4, i));
  }

  // ------------------------------------------------------ from bytes to effect

  /** The runtime's memories are those the module declares. */
  predicate Declared(env: Env, w: World) {
    |w.memories| == |env.wasm.memory64| && forall i :: 0 <= i < |w.memories| ==>
        w.memories[i].is64 == env.wasm.memory64[i]
  }

  lemma ArgIsLaidOut(env: Env, w: World, arg: E.Arg)
    requires Declared(env, w) && E.ArgOk(env, arg) && There(w, arg.memory)
    ensures var offset := Imm(Offset, if w.memories[arg.memory].is64 then 8 else 4, arg.offset);
            && ArgOk(w, arg.memory, arg.align, offset)
            && E.ArgImms(env, arg) == ArgImms(|w.memories|, arg.memory, arg.align, offset)
  {
  }

  // ----------------------------------------------- opcode by opcode

  /** How many bytes each load and store moves. */
  function Width(op: byte): (n: nat)
    requires 0x28 <= op <= 0x3E
    ensures n > 0
  {
    match op
    case 0x28 => 4  // i32.load
    case 0x29 => 8  // i64.load
    case 0x2A => 4  // f32.load
    case 0x2B => 8  // f64.load
    case 0x2C => 1  // i32.load8_s
    case 0x2D => 1  // i32.load8_u
    case 0x2E => 2  // i32.load16_s
    case 0x2F => 2  // i32.load16_u
    case 0x30 => 1  // i64.load8_s
    case 0x31 => 1  // i64.load8_u
    case 0x32 => 2  // i64.load16_s
    case 0x33 => 2  // i64.load16_u
    case 0x34 => 4  // i64.load32_s
    case 0x35 => 4  // i64.load32_u
    case 0x36 => 4  // i32.store
    case 0x37 => 8  // i64.store
    case 0x38 => 4  // f32.store
    case 0x39 => 8  // f64.store
    case 0x3A => 1  // i32.store8
    case 0x3B => 2  // i32.store16
    case 0x3C => 1  // i64.store8
    case 0x3D => 2  // i64.store16
    case _ => 4     // i64.store32
  }

  /** What each load pushes for the number `n` of its bytes: negative numbers of the signed loads fill
      the operand with ones, the unsigned loads with zeros. */
  function Loaded(fl: Floats, op: byte, n: nat): Value
    requires 0x28 <= op <= 0x35
  {
    match op
    case 0x28 => I32(n)
    case 0x29 => I64(n)
    case 0x2A => F32(fl.reload32(n))
    case 0x2B => F64(n)
    case 0x2C => I32(if n < 0x80 then n else n + 0xFFFF_FF00)
    case 0x2D => I32(n)
    case 0x2E => I32(if n < 0x8000 then n else n + 0xFFFF_0000)
    case 0x2F => I32(n)
    case 0x30 => I64(if n < 0x80 then n else n + 0xFFFF_FFFF_FFFF_FF00)
    case 0x31 => I64(n)
    case 0x32 => I64(if n < 0x8000 then n else n + 0xFFFF_FFFF_FFFF_0000)
    case 0x33 => I64(n)
    case 0x34 => I64(if n < 0x8000_0000 then n else n + 0xFFFF_FFFF_0000_0000)
    case _ => I64(n)
  }

  /** The number a store writes: the bits of a float store's operand, converted if it is of another kind;
      the low bits of an integer store's operand, a float truncated. A vector, and a reference in a float
      store, have none. */
  function Stored(fl: Floats, op: byte, v: Value): Option<nat>
    requires 0x36 <= op <= 0x3E
  {
    if op == 0x38 then
      match v
      case F32(b) => Some(b % 0x1_0000_0000)
      case V128(_) => None
      case Ref(_) => None
      case _ => Some(fl.toF32(v) % 0x1_0000_0000)
    else if op == 0x39 then
      match v
      case F64(b) => Some(b % 0x1_0000_0000_0000_0000)
      case V128(_) => None
      case Ref(_) => None
      case _ => Some(fl.toF64(v) % 0x1_0000_0000_0000_0000)
    else
      var n :- Integer(fl, v);
      Some(match Width(op)
           case 1 => n % 0x100
           case 2 => n % 0x1_0000
           case 4 => n % 0x1_0000_0000
           case _ => n)
  }

  function Integer(fl: Floats, v: Value): Option<nat> {
    match v
    case I32(b) => Some(b % 0x1_0000_0000)
    case I64(b) => Some(b % 0x1_0000_0000_0000_0000)
    case Ref(b) => Some(b % 0x1_0000_0000_0000_0000)
    case V128(_) => None
    case _ => Some(fl.truncate(v) % 0x1_0000_0000_0000_0000)
  }

  lemma LoadRows(fl: Floats, op: byte, bytes: seq<byte>)
    requires 0x28 <= op <= 0x35 && |bytes| == Width(op)
    ensures AccessOf(op).bits == 8 * Width(op)
    ensures LoadedValue(fl, AccessOf(op), LittleEndian(bytes)) == Loaded(fl, op, LittleEndian(bytes))
  {
    hide LittleEndian, Bytes, Pow256;
    ByteCounts();
    NumberThenBytes(bytes);
    var n, a := LittleEndian(bytes), AccessOf(op);
    Small(n, Modulus(a.bits));
    if !a.isFloat && a.signed {
      ExtensionKeepsNumber(n, a.bits);
      ExtendedTo32(n, a.bits);
    }
  }

  /** A sign-extended number, cut to 32 bits again. */
  lemma ExtendedTo32(n: nat, bits: nat)
    requires (bits == 8 || bits == 16 || bits == 32 || bits == 64) && n < Modulus(bits)
    ensures bits <= 32 ==>
              SignExtend(n, bits) % TWO_32 == if n < Modulus(bits) / 2 then n else n + (TWO_32 - Modulus(bits))
  {
    Small(n, Modulus(bits));
    if bits <= 32 {
      var low := if n < Modulus(bits) / 2 then n else n + (TWO_32 - Modulus(bits));
      Small(low, TWO_32);
      CutTo32(low);
    }
  }

  lemma StoreRows(fl: Floats, op: byte, v: Value)
    requires 0x36 <= op <= 0x3E
    ensures AccessOf(op).bits == 8 * Width(op)
    ensures var written := StoredBytes(fl, AccessOf(op), v);
            if Stored(fl, op, v).None? then written == None
            else written.Some? && |written.value| == Width(op) && LittleEndian(written.value) == Stored(fl, op, v).value
  {
    hide LittleEndian, Bytes, Pow256;
    ByteCounts();
    var written := StoredBytes(fl, AccessOf(op), v);
    if Stored(fl, op, v).Some? {
      LowBytes(if op == 0x38 then (if v.F32? then v.bits else fl.toF32(v))
               else if op == 0x39 then (if v.F64? then v.bits else fl.toF64(v))
               else Stored(fl, op, v).value, Width(op));
      Small(Stored(fl, op, v).value, Modulus(8 * Width(op)));
    }
  }

  /** The low `n` bytes of a number stand for its remainder. */
  lemma {:induction false} LowBytes(v: nat, n: nat)
    ensures LittleEndian(Bytes(v, n)) == v % Pow256(n)
    decreases n
  {
    if n > 0 {
      LowBytes(v / 256, n - 1);
      assert Bytes(v, n)[1..] == Bytes(v / 256, n - 1);
      RemainderSplits(v, Pow256(n - 1));
    }
  }

  lemma RemainderSplits(v: nat, p: nat)
    requires p > 0
    ensures v % 256 + 256 * (v / 256 % p) == v % (256 * p)
  {
    var q, r := v / 256 / p, v / 256 % p;
    assert v / 256 == q * p + r;
    assert v == 256 * (q * p + r) + v % 256;
    Divides(q, 256 * p, 256 * r + v % 256, v);
  }

  lemma Divides(q: nat, d: nat, r: nat, v: nat)
    requires r < d && v == q * d + r
    ensures v % d == r
  {
    var k := v / d;
    assert v == k * d + v % d;
    if k > q {
      MoreIsMore(k, q + 1, d);
    } else if k < q {
      MoreIsMore(q, k + 1, d);
    }
  }

  lemma MoreIsMore(a: nat, b: nat, d: nat)
    requires a >= b
    ensures a * d >= b * d
  {
  }

  /** The bytes of a load instruction, decoded by the loop and run by the handler on a job with an
      empty window: the value of the bytes at address plus offset, or a trap exactly out of bounds. */
  lemma EncodedLoad(env: Env, body: seq<byte>, pc: nat, op: byte, arg: E.Arg, fl: Floats, w: World, stack: seq<Value>,
        base: nat, hooks: MemoryHooks)
    requires 0x28 <= op <= 0x35 && E.ArgOk(env, arg) && LiesAt(body, pc, E.Encode(env, E.Access(op, arg)))
    requires Declared(env, w) && Faithful(w) && There(w, arg.memory) && InRange(w.memories[arg.memory].is64, base)
    ensures pc < |body| && Decode(env, body, pc).Success? && MemoryOk(w, arg.memory)
    ensures var d := Decode(env, body, pc).value;
            var i, at, n := arg.memory, base + arg.offset, Width(op);
            && d.next == pc + |E.Encode(env, E.Access(op, arg))|
            && d.instruction.Plain? && d.instruction.op == op
            && Handle(fl, LoadOp(AccessOf(op)), Regs(stack + [Address(w.memories[i].is64, base)], d.instruction.imms),
                      w,
                      hooks)
               == if Reaches(w, i, at, n)
                  then (Regs(stack + [Loaded(fl, op, LittleEndian(Contents(w, i)[at..at + n]))], []), w, Ok)
                  else (Regs(stack, []), w, Trap)
  {
    hide Decode, Handle, E.Encode, LiesAt, Contents, LoadedValue, LittleEndian, AccessOf, ArgImms, E.ArgImms, Loaded,
         Width;
    var s := E.Access(op, arg);
    E.InstructionRoundTrip(env, body, pc, s);
    ArgIsLaidOut(env, w, arg);
    var imms := E.ArgImms(env, arg);
    assert [] + imms == imms;
    LoadDoes(fl, AccessOf(op), w, stack, [], arg.memory, arg.align,
             Imm(Offset, if w.memories[arg.memory].is64 then 8 else 4, arg.offset), base, hooks);
    var at := base + arg.offset;
    LoadRows(fl, op, if Reaches(w, arg.memory, at, Width(op)) then Contents(w, arg.memory)[at..at + Width(op)]
                     else seq(Width(op), _ => 0));
  }

  /** In `after` the bytes from `at` on stand for `number`, and all others are those of `before`. */
  predicate HoldsAt(before: seq<byte>, after: seq<byte>, at: nat, width: nat, number: nat) {
    && at + width <= |before| == |after| && LittleEndian(after[at..at + width]) == number
    && forall k :: 0 <= k < |before| && !(at <= k < at + width) ==> after[k] == before[k]
  }

  /** The same for a store: exactly its bytes at address plus offset, which then stand for the low bits of
      the operand, or a trap that changes no byte. */
  lemma EncodedStore(env: Env, body: seq<byte>, pc: nat, op: byte, arg: E.Arg, fl: Floats, w: World, stack: seq<Value>,
        base: nat, v: Value, hooks: MemoryHooks)
    requires 0x36 <= op <= 0x3E && E.ArgOk(env, arg) && LiesAt(body, pc, E.Encode(env, E.Access(op, arg)))
    requires Declared(env, w) && Faithful(w) && There(w, arg.memory) && InRange(w.memories[arg.memory].is64, base)
    ensures pc < |body| && Decode(env, body, pc).Success? && MemoryOk(w, arg.memory)
    ensures var d := Decode(env, body, pc).value;
            var i, at, number := arg.memory, base + arg.offset, Stored(fl, op, v);
            && d.next == pc + |E.Encode(env, E.Access(op, arg))|
            && d.instruction.Plain? && d.instruction.op == op
            && (var (r, w', status) :=
                Handle(fl, StoreOp(AccessOf(op)),
                       Regs(stack + [Address(w.memories[i].is64, base)] + [v], d.instruction.imms), w, hooks);
                if Reaches(w, i, at, Width(op)) && number.Some? then
                  && r == Regs(stack, []) && status == Ok && i < |w'.memories| && MemoryOk(w', i)
                  && HoldsAt(Contents(w, i), Contents(w', i), at, Width(op), number.value)
                else r == Regs(stack + [v], []) && w' == w && status == Trap)
  {
    hide Decode, Handle, E.Encode, LiesAt, Contents, StoredBytes, Write, AccessOf, ArgImms, E.ArgImms, Stored, Width,
         LittleEndian, Overwrite;
    var s := E.Access(op, arg);
    E.InstructionRoundTrip(env, body, pc, s);
    ArgIsLaidOut(env, w, arg);
    var imms := E.ArgImms(env, arg);
    assert [] + imms == imms;
    StoreDoes(fl, AccessOf(op), w, stack, [], arg.memory, arg.align,
              Imm(Offset, if w.memories[arg.memory].is64 then 8 else 4, arg.offset), base, v, hooks);
    StoreRows(fl, op, v);
    var at := base + arg.offset;
    if Reaches(w, arg.memory, at, Width(op)) && Stored(fl, op, v).Some? {
      ReadBack(Contents(w, arg.memory), at, StoredBytes(fl, AccessOf(op), v).value);
    }
  }
}
