/** Linear memories: bounds, loads and stores, growth and bulk instructions, and the spilled state in
    which the bytes are with the embedder's hooks instead of in memory. */
module LinearMemory {
  import opened Core
  import opened RuntimeState
  import opened Spill

  const PAGE_SIZE: nat := 65536
  const INT_MAX: nat := 0x7FFF_FFFF

  /** Where the bytes are: nowhere, in a block the runtime allocated, or in a buffer of the host that
      several memories may share. */
  datatype Buffer = Absent | Private(bytes: seq<byte>) | Shared(id: nat)

  datatype Memory = Memory(data: Buffer, size: nat, maxSize: nat, hasMax: bool, is64: bool,
                           isSpilled: bool, isHost: bool, ownsData: bool)

  /** What the memory hooks do when called; `None` is a hook that is not installed. */
  datatype MemoryHooks = MemoryHooks(spill: Option<Status>, load: Option<Status>)

  /** The memories of a runtime, the host's buffers, the data segments, and what the spill hook holds. */
  datatype World = World(memories: seq<Memory>, host: seq<seq<byte>>, segments: seq<seq<byte>>,
                         dropped: set<nat>, saved: map<nat, seq<byte>>)

  /** Operand stack and immediate window, last element on top. */
  datatype Regs = Regs(stack: seq<Value>, window: seq<Imm>)

  predicate MemoryOk(w: World, i: nat)
    requires i < |w.memories|
  {
    var m := w.memories[i];
    && m.size < TWO_64
    && (m.isSpilled <==> m.data.Absent? && m.size > 0)
    && (m.data.Absent? && m.size > 0 ==> m.ownsData && i in w.saved && |w.saved[i]| == m.size)
    && (m.data.Private? ==> m.ownsData && |m.data.bytes| == m.size)
    && (m.data.Shared? ==> !m.ownsData && m.data.id < |w.host| && m.size <= |w.host[m.data.id]|)
  }

  /** The hooks hold the bytes of every memory that is spilled, and only those are without bytes. */
  ghost predicate Faithful(w: World) {
    forall i :: 0 <= i < |w.memories| ==> MemoryOk(w, i)
  }

  // ------------------------------------------------- spilled and loaded

  function EnsureLoaded(m: Memory, saved: Option<seq<byte>>, hooks: MemoryHooks): (Memory, Status) {
    if m.size == 0 then (m, Ok)
    else if !m.data.Absent? then (m.(isSpilled := false), Ok)
    else if !m.isSpilled then (m, Trap)
    else Reload(m, saved, hooks, Trap)
  }

  /** Calls the load hook, which hands back what was spilled last. */
  function Reload(m: Memory, saved: Option<seq<byte>>, hooks: MemoryHooks, missing: Error): (Memory, Status) {
    match hooks.load
    case None => (m, missing)
    case Some(status) =>
      if status != Ok then (m, status)
      else if saved.None? then (m, Trap)
      else (m.(data := Private(saved.value), isSpilled := false), Ok)
  }

  function Load(m: Memory, saved: Option<seq<byte>>, hooks: MemoryHooks): (Memory, Status) {
    if !m.ownsData then (m, InvalidArgument)
    else if m.size == 0 || !m.data.Absent? then (m.(isSpilled := false), Ok)
    else Reload(m, saved, hooks, InvalidArgument)
  }

  /** The memory after a spill request, and whether its bytes went to the hook. */
  function Offload(m: Memory, hooks: MemoryHooks): (Memory, bool, Status) {
    if !m.ownsData then (m, false, InvalidArgument)
    else if m.size == 0 then (m.(isSpilled := false), false, Ok)
    else if m.data.Absent? then (m.(isSpilled := true), false, Ok)
    else
      match hooks.spill
      case None => (m, false, InvalidArgument)
      case Some(status) => if status != Ok then (m, false, status)
          else (m.(data := Absent, isSpilled := true), true, Ok)
  }

  function Saved(w: World, i: nat): Option<seq<byte>> {
    if i in w.saved then Some(w.saved[i]) else None
  }

  /** The guard of every memory instruction. */
  function Require(w: World, i: nat, hooks: MemoryHooks): (World, Status) {
    if i >= |w.memories| then (w, Trap)
    else
      var (m, status) := EnsureLoaded(w.memories[i], Saved(w, i), hooks);
      (w.(memories := w.memories[i := m]), status)
  }

  function RequireAll(w: World, needs: seq<nat>, hooks: MemoryHooks): (World, Status)
    decreases |needs|
  {
    if needs == [] then (w, Ok)
    else
      var (w', status) := Require(w, needs[0], hooks);
      if status != Ok then (w', status) else RequireAll(w', needs[1..], hooks)
  }

  datatype Request = SpillMemory(i: nat) | LoadMemory(i: nat)

  function Serve(w: World, r: Request, hooks: MemoryHooks): World {
    if r.i >= |w.memories| then w
    else
      var m := w.memories[r.i];
      match r
      case SpillMemory(i) =>
        var (m', stored, _) := Offload(m, hooks);
        w.(memories := w.memories[i := m'],
           saved := if stored && m.data.Private? then w.saved[i := m.data.bytes] else w.saved)
      case LoadMemory(i) => w.(memories := w.memories[i := Load(m, Saved(w, i), hooks).0])
  }

  // ------------------------------------------------------------ the bytes

  function Contents(w: World, i: nat): (bytes: seq<byte>)
    requires i < |w.memories| && MemoryOk(w, i)
    ensures !w.memories[i].data.Absent? ==> |bytes| == w.memories[i].size
  {
    match w.memories[i].data
    case Absent => []
    case Private(bytes) => bytes
    case Shared(id) => w.host[id][..w.memories[i].size]
  }

  /** Bounds are checked on 64-bit numbers, without wrapping around. */
  predicate InBounds(m: Memory, addr: nat, n: nat) {
    && !m.data.Absent?
    && (n == 0 || (addr <= TWO_64 - 1 - n && addr + n <= m.size))
  }

  /** An access is let through exactly when the memory has bytes and every byte accessed is one of
      them; an access to nothing may be anywhere. */
  lemma BoundsAreExact(w: World, i: nat, addr: nat, n: nat)
    requires i < |w.memories| && MemoryOk(w, i)
    ensures InBounds(w.memories[i], addr, n)
            <==> !w.memories[i].data.Absent? && (n == 0 || addr + n <= |Contents(w, i)|)
  {
  }

  function Write(w: World, i: nat, addr: nat, bytes: seq<byte>): (w': World)
    requires i < |w.memories| && MemoryOk(w, i) && InBounds(w.memories[i], addr, |bytes|)
    ensures |w'.memories| == |w.memories|
  {
    if bytes == [] then w
    else
      match w.memories[i].data
      case Private(b) => w.(memories := w.memories[i := w.memories[i].(data := Private(Overwrite(b, addr, bytes)))])
      case Shared(id) => w.(host := w.host[id := Overwrite(w.host[id], addr, bytes)])
  }

  /** A write replaces the bytes at its address and no others. */
  lemma WriteOverwrites(w: World, i: nat, addr: nat, bytes: seq<byte>)
    requires i < |w.memories| && MemoryOk(w, i) && InBounds(w.memories[i], addr, |bytes|) && bytes != []
    ensures MemoryOk(Write(w, i, addr, bytes), i) && Write(w, i, addr, bytes).memories[i].size == w.memories[i].size
    ensures !Write(w, i, addr, bytes).memories[i].data.Absent?
    ensures Contents(Write(w, i, addr, bytes), i) == Overwrite(Contents(w, i), addr, bytes)
  {
    if w.memories[i].data.Shared? {
      var whole, size := w.host[w.memories[i].data.id], w.memories[i].size;
      assert Overwrite(whole, addr, bytes)[..size] == Overwrite(whole[..size], addr, bytes);
    }
  }

  lemma ReadBack(s: seq<byte>, at: nat, bs: seq<byte>)
    requires at + |bs| <= |s|
    ensures Overwrite(s, at, bs)[at..at + |bs|] == bs
    ensures forall k :: 0 <= k < |s| && !(at <= k < at + |bs|) ==> Overwrite(s, at, bs)[k] == s[k]
  {
  }

  // -------------------------------------------------- loads and stores

  /** Bits moved, and the operand type: float or integer, 8 or 4 bytes, signed. */
  datatype Access = Access(bits: nat, isFloat: bool, wide: bool, signed: bool)

  predicate AccessOk(a: Access) {
    (a.bits == 8 || a.bits == 16 || a.bits == 32 || a.bits == 64) && (a.bits == 64 ==> a.wide)
    && (a.isFloat ==> a.bits == if a.wide then 64 else 32)
  }

  /** The rows 0x28 to 0x3E of the opcode table. */
  function AccessOf(op: byte): (a: Access)
    requires 0x28 <= op <= 0x3E
    ensures AccessOk(a)
  {
    if op == 0x28 || op == 0x36 then Access(32, false, false, true)
    else if op == 0x29 || op == 0x37 then Access(64, false, true, true)
    else if op == 0x2A || op == 0x38 then Access(32, true, false, true)
    else if op == 0x2B || op == 0x39 then Access(64, true, true, true)
    else if op == 0x2C || op == 0x3A then Access(8, false, false, true)
    else if op == 0x2D then Access(8, false, false, false)
    else if op == 0x2E || op == 0x3B then Access(16, false, false, true)
    else if op == 0x2F then Access(16, false, false, false)
    else if op == 0x30 || op == 0x3C then Access(8, false, true, true)
    else if op == 0x31 then Access(8, false, true, false)
    else if op == 0x32 || op == 0x3D then Access(16, false, true, true)
    else if op == 0x33 then Access(16, false, true, false)
    else if op == 0x34 || op == 0x3E then Access(32, false, true, true)
    else Access(32, false, true, false)
  }

  /** The C conversions between floats and other kinds, and the trip of a 32-bit float through a
      double that a load takes. */
  datatype Floats = Floats(truncate: Value -> nat, toF32: Value -> nat, toF64: Value -> nat, reload32: nat -> nat)

  function Modulus(bits: nat): (p: nat)
    requires bits == 8 || bits == 16 || bits == 32 || bits == 64
    ensures p > 0 && p % 2 == 0
  {
    if bits == 8 then 0x100 else if bits == 16 then 0x1_0000 else if bits == 32 then TWO_32 else TWO_64
  }

  /** Copies the top one of the low `bits` bits upwards. */
  function SignExtend(raw: nat, bits: nat): nat
    requires bits == 8 || bits == 16 || bits == 32 || bits == 64
  {
    if bits == 64 then raw
    else
      var low := raw % Modulus(bits);
      if low >= Modulus(bits) / 2 then low + (TWO_64 - Modulus(bits)) else low
  }

  function LoadedValue(fl: Floats, a: Access, raw: nat): Value
    requires AccessOk(a)
  {
    if a.isFloat then (if a.wide then F64(raw) else F32(fl.reload32(raw % TWO_32)))
    else
      var extended := if a.signed then SignExtend(raw, a.bits) else raw % Modulus(a.bits);
      if a.wide then I64(extended) else I32(extended % TWO_32)
  }

  function ToU64(fl: Floats, v: Value): Option<nat> {
    match v
    case I32(b) => Some(b % TWO_32)
    case I64(b) => Some(b % TWO_64)
    case F32(_) => Some(fl.truncate(v) % TWO_64)
    case F64(_) => Some(fl.truncate(v) % TWO_64)
    case V128(_) => None
    case Ref(p) => Some(p % TWO_64)
  }

  /** The bytes a store writes for `v`, if it can be converted. */
  function StoredBytes(fl: Floats, a: Access, v: Value): (r: Option<seq<byte>>)
    requires AccessOk(a)
    ensures r.Some? ==> |r.value| == a.bits / 8
  {
    if a.isFloat then
      if v.V128? || v.Ref? then None
      else if a.wide then Some(Bytes(if v.F64? then v.bits else fl.toF64(v), 8))
      else Some(Bytes(if v.F32? then v.bits else fl.toF32(v), 4))
    else
      var raw :- ToU64(fl, v);
      Some(Bytes(raw % Modulus(a.bits), a.bits / 8))
  }

  /** Two's complement reading of the low `bits` bits. */
  function Signed(v: nat, bits: nat): int
    requires bits == 8 || bits == 16 || bits == 32 || bits == 64
  {
    var low := v % Modulus(bits);
    if low >= Modulus(bits) / 2 then low - Modulus(bits) else low
  }

  /** An integer load gives the number the bytes stand for, signed or unsigned, in the operand's width. */
  lemma LoadKeepsNumber(fl: Floats, a: Access, bytes: seq<byte>)
    requires AccessOk(a) && !a.isFloat && |bytes| == a.bits / 8
    ensures var v := LoadedValue(fl, a, LittleEndian(bytes)); var width := if a.wide then 64 else 32;
            && (if a.wide then v.I64? else v.I32?) && v.bits < Modulus(width)
            && (if a.signed then Signed(v.bits, width) == Signed(LittleEndian(bytes), a.bits)
                else v.bits == LittleEndian(bytes))
  {
    hide LittleEndian, Bytes, Pow256;
    ByteCounts();
    NumberThenBytes(bytes);
    ExtensionKeepsNumber(LittleEndian(bytes), a.bits);
  }

  lemma ByteCounts()
    ensures Pow256(1) == Modulus(8) && Pow256(2) == Modulus(16) && Pow256(4) == Modulus(32) && Pow256(8) == Modulus(64)
  {
    Widths();
    assert Pow256(1) == 256 * Pow256(0);
  }

  lemma ExtensionKeepsNumber(raw: nat, bits: nat)
    requires bits == 8 || bits == 16 || bits == 32 || bits == 64
    requires raw < Modulus(bits)
    ensures raw % Modulus(bits) == raw && SignExtend(raw, bits) < TWO_64
    ensures Signed(SignExtend(raw, bits), 64) == Signed(raw, bits)
    ensures bits <= 32 ==> Signed(SignExtend(raw, bits) % TWO_32, 32) == Signed(raw, bits)
  {
    Small(raw, Modulus(bits));
    Small(SignExtend(raw, bits), TWO_64);
    if bits <= 32 {
      var low := if raw >= Modulus(bits) / 2 then raw + (TWO_32 - Modulus(bits)) else raw;
      Small(low, TWO_32);
      CutTo32(low);
    }
  }

  lemma Small(x: nat, n: nat)
    requires x < n
    ensures x % n == x
  {
  }

  lemma CutTo32(low: nat)
    requires low < TWO_32
    ensures (low + (TWO_64 - TWO_32)) % TWO_32 == low
  {
    assert low + (TWO_64 - TWO_32) == low + 0xFFFF_FFFF * TWO_32;
  }

  /** What an integer store writes is read back by a load of the same width as the low bits. */
  lemma StoreThenLoad(fl: Floats, a: Access, v: Value, w: World, i: nat, addr: nat)
    requires AccessOk(a) && i < |w.memories| && MemoryOk(w, i)
    requires StoredBytes(fl, a, v).Some? && InBounds(w.memories[i], addr, a.bits / 8)
    ensures var bytes := StoredBytes(fl, a, v).value; var w' := Write(w, i, addr, bytes);
            && MemoryOk(w', i) && InBounds(w'.memories[i], addr, a.bits / 8)
            && Contents(w', i)[addr..addr + a.bits / 8] == bytes
            && |Contents(w', i)| == |Contents(w, i)|
            && (forall k :: 0 <= k < |Contents(w, i)| && !(addr <= k < addr + a.bits / 8) ==>
                  Contents(w', i)[k] == Contents(w, i)[k])
            && (!a.isFloat ==> LittleEndian(bytes) == ToU64(fl, v).value % Modulus(a.bits))
  {
    hide LittleEndian, Bytes, Pow256, ToU64, Write, Overwrite, Contents;
    var n, bytes := a.bits / 8, StoredBytes(fl, a, v).value;
    WriteOverwrites(w, i, addr, bytes);
    ReadBack(Contents(w, i), addr, bytes);
    if !a.isFloat {
      ByteCounts();
      BytesThenNumber(ToU64(fl, v).value % Modulus(a.bits), a.bits / 8);
    }
  }

  // --------------------------------------------------------------- growth

  function Zeros(n: nat): (z: seq<byte>)
    ensures |z| == n && forall k :: 0 <= k < n ==> z[k] == 0
  {
    seq(n, _ => 0)
  }

  /** Grows by `delta` pages: the memory, the old number of pages, and whether it grew. */
  function Grow(m: Memory, delta: nat): (r: (Memory, nat, bool)) {
    var pages := m.size / PAGE_SIZE;
    var newPages := pages + delta;
    if delta == 0 then (m, pages, true)
    else if !m.ownsData || newPages >= TWO_64 then (m, pages, false)
    else if m.hasMax && newPages > m.maxSize / PAGE_SIZE then (m, pages, false)
    else if newPages > (TWO_64 - 1) / PAGE_SIZE || newPages * PAGE_SIZE > INT_MAX then (m, pages, false)
    else
      var kept := if m.data.Private? then m.data.bytes else [];
      var size := newPages * PAGE_SIZE;
      (m.(data := Private(kept + Zeros(if size > |kept| then size - |kept| else 0)), size := size), pages, true)
  }

  /** A memory grows exactly when it is the runtime's own and stays within its maximum and what an
      `int` can size; it keeps its bytes and gains zeros, and is left alone otherwise. */
  lemma GrowthIsExact(w: World, i: nat, delta: nat)
    requires i < |w.memories| && MemoryOk(w, i) && !w.memories[i].isSpilled && delta > 0
    ensures var m := w.memories[i]; var (m', pages, grew) := Grow(m, delta);
            && pages == m.size / PAGE_SIZE
            && (grew <==> m.ownsData && (pages + delta) * PAGE_SIZE <= INT_MAX
                          && (m.hasMax ==> pages + delta <= m.maxSize / PAGE_SIZE))
            && (!grew ==> m' == m)
            && (grew ==> && m'.size == (pages + delta) * PAGE_SIZE
                         && MemoryOk(w.(memories := w.memories[i := m']), i)
                         && m'.data.Private? && |m'.data.bytes| == m'.size
                         && m'.data.bytes[..m.size] == Contents(w, i)
                         && (forall k :: m.size <= k < m'.size ==> m'.data.bytes[k] == 0))
  {
    var m := w.memories[i];
    var kept := if m.data.Private? then m.data.bytes else [];
    assert m.ownsData ==> |kept| == m.size && kept == Contents(w, i);
    assert m.size < (m.size / PAGE_SIZE + delta) * PAGE_SIZE;
  }

  // ------------------------------------------------------ the instructions

  datatype Op = LoadOp(a: Access) | StoreOp(a: Access) | SizeOp | GrowOp | InitOp | DropOp | CopyOp | FillOp

  predicate OpOk(op: Op) {
    op.LoadOp? || op.StoreOp? ==> AccessOk(op.a)
  }

  function PopImm(r: Regs): Option<(Regs, nat)> {
    if r.window == [] then None
    else Some((r.(window := r.window[..|r.window| - 1]), r.window[|r.window| - 1].bits % TWO_64))
  }

  /** Pops `n` immediates, or as many as there are. */
  function PopImms(r: Regs, n: nat): (p: (Regs, seq<nat>))
    ensures |p.1| <= n
    decreases n
  {
    if n == 0 || PopImm(r).None? then (r, [])
    else
      var (r1, imm) := PopImm(r).value;
      var (r2, imms) := PopImms(r1, n - 1);
      (r2, [imm] + imms)
  }

  function Push(r: Regs, v: Value): Regs {
    r.(stack := r.stack + [v])
  }

  function Pop(r: Regs): Option<(Regs, Value)> {
    if r.stack == [] then None else Some((r.(stack := r.stack[..|r.stack| - 1]), r.stack[|r.stack| - 1]))
  }

  /** An address, index or length of the memory's address type; a value of another kind stays. */
  function PopIndex(r: Regs, is64: bool): Option<(Regs, nat)> {
    var (r', v) :- Pop(r);
    if is64 && v.I64? then Some((r', v.bits % TWO_64))
    else if !is64 && v.I32? then Some((r', v.bits % TWO_32))
    else None
  }

  /** An instruction that has its immediates: those, the value a store holds, the memories it needs. */
  datatype Call = Call(regs: Regs, held: Option<Value>, imms: seq<nat>, needs: seq<nat>)

  function ImmCount(op: Op, memories: nat): nat {
    match op
    case LoadOp(_) => if memories > 1 then 3 else 2
    case StoreOp(_) => if memories > 1 then 3 else 2
    case InitOp => 2
    case CopyOp => 2
    case _ => 1
  }

  function Needs(op: Op, imms: seq<nat>): (needs: seq<nat>)
    requires |imms| > 0 && (op.LoadOp? || op.StoreOp? || op.InitOp? || op.CopyOp? ==> |imms| >= 2)
  {
    match op
    case LoadOp(_) => [if |imms| > 2 then imms[2] else 0]
    case StoreOp(_) => [if |imms| > 2 then imms[2] else 0]
    case SizeOp => []
    case DropOp => []
    case CopyOp => [imms[0], imms[1]]
    case _ => [imms[0]]
  }

  function PutBack(r: Regs, held: Option<Value>): Regs {
    if held.Some? then Push(r, held.value) else r
  }

  /** Pops the immediates; a store first takes its value, and puts it back when they run out. */
  function Begin(op: Op, memories: nat, r: Regs): (c: (Regs, Option<Call>)) {
    if (op.SizeOp? || op.GrowOp?) && memories == 0 then (r, None)
    else if op.StoreOp? && r.stack == [] then (r, None)
    else
      var held := if op.StoreOp? then Some(r.stack[|r.stack| - 1]) else None;
      var r0 := if op.StoreOp? then r.(stack := r.stack[..|r.stack| - 1]) else r;
      var n := ImmCount(op, memories);
      var (r1, imms) := PopImms(r0, n);
      if |imms| < n then (PutBack(r1, held), None)
      else (r1, Some(Call(r1, held, imms, Needs(op, imms))))
  }

  function LoadAct(fl: Floats, a: Access, c: Call, w: World, i: nat): (Regs, World, Status)
    requires AccessOk(a) && i < |w.memories| && MemoryOk(w, i) && |c.imms| > 0
  {
    var m := w.memories[i];
    match PopIndex(c.regs, m.is64)
    case None => (c.regs, w, Trap)
    case Some((r, base)) =>
      var addr, n := base + c.imms[0], a.bits / 8;
      if addr >= TWO_64 || !InBounds(m, addr, n) then (r, w, Trap)
      else (Push(r, LoadedValue(fl, a, LittleEndian(Contents(w, i)[addr..addr + n]))), w, Ok)
  }

  function StoreAct(fl: Floats, a: Access, c: Call, w: World, i: nat): (Regs, World, Status)
    requires AccessOk(a) && i < |w.memories| && MemoryOk(w, i) && |c.imms| > 0 && c.held.Some?
  {
    var m := w.memories[i];
    match PopIndex(c.regs, m.is64)
    case None => (PutBack(c.regs, c.held), w, Trap)
    case Some((r, base)) =>
      var addr := base + c.imms[0];
      if addr >= TWO_64 || !InBounds(m, addr, a.bits / 8) then (PutBack(r, c.held), w, Trap)
      else
        match StoredBytes(fl, a, c.held.value)
        case None => (PutBack(r, c.held), w, Trap)
        case Some(bytes) => (r, Write(w, i, addr, bytes), Ok)
  }

  function PagesValue(is64: bool, pages: nat): Value {
    if is64 then I64(pages) else I32(pages % TWO_32)
  }

  function GrowAct(fl: Floats, c: Call, w: World, i: nat): (Regs, World, Status)
    requires i < |w.memories|
  {
    var m := w.memories[i];
    match Pop(c.regs)
    case None => (c.regs, w, Trap)
    case Some((r, delta)) =>
      if (if m.is64 then !delta.I64? else !delta.I32?) then (r, w, Trap)
      else if !m.is64 && m.size / PAGE_SIZE >= TWO_32 then (r, w, Unsupported)
      else
        var (m', pages, grew) := Grow(m, ToU64(fl, delta).value);
        (Push(r, if grew then PagesValue(m.is64, pages) else if m.is64 then I64(TWO_64 - 1) else I32(TWO_32 - 1)),
         w.(memories := w.memories[i := m']), Ok)
  }

  function InitAct(c: Call, w: World, i: nat): (Regs, World, Status)
    requires i < |w.memories| && MemoryOk(w, i) && |c.imms| > 1
  {
    var m := w.memories[i];
    if c.imms[1] >= |w.segments| || c.imms[1] in w.dropped then (c.regs, w, Trap)
    else
      var segment := w.segments[c.imms[1]];
      match PopIndex(c.regs, m.is64)
      case None => (c.regs, w, Trap)
      case Some((r1, length)) =>
        match PopIndex(r1, m.is64)
        case None => (r1, w, Trap)
        case Some((r2, src)) =>
          match PopIndex(r2, m.is64)
          case None => (r2, w, Trap)
          case Some((r3, dst)) =>
            if src + length >= TWO_64 || src + length > |segment| || !InBounds(m, dst, length) then (r3, w, Trap)
            else (r3, Write(w, i, dst, segment[src..src + length]), Ok)
  }

  function CopyAct(c: Call, w: World, i: nat, j: nat): (Regs, World, Status)
    requires i < |w.memories| && MemoryOk(w, i) && j < |w.memories| && MemoryOk(w, j)
  {
    var from, to := w.memories[i], w.memories[j];
    match PopIndex(c.regs, from.is64 || to.is64)
    case None => (c.regs, w, Trap)
    case Some((r1, length)) =>
      match PopIndex(r1, from.is64)
      case None => (r1, w, Trap)
      case Some((r2, src)) =>
        match PopIndex(r2, to.is64)
        case None => (r2, w, Trap)
        case Some((r3, dst)) =>
          if !InBounds(from, src, length) || !InBounds(to, dst, length) then (r3, w, Trap)
          else (r3, Write(w, j, dst, if length == 0 then [] else Contents(w, i)[src..src + length]), Ok)
  }

  function FillAct(c: Call, w: World, i: nat): (Regs, World, Status)
    requires i < |w.memories| && MemoryOk(w, i)
  {
    var m := w.memories[i];
    match PopIndex(c.regs, m.is64)
    case None => (c.regs, w, Trap)
    case Some((r1, length)) =>
      match PopIndex(r1, false)
      case None => (r1, w, Trap)
      case Some((r2, value)) =>
        match PopIndex(r2, m.is64)
        case None => (r2, w, Trap)
        case Some((r3, dst)) =>
          if !InBounds(m, dst, length) then (r3, w, Trap)
          else (r3, Write(w, i, dst, seq(length, _ => value % 256)), Ok)
  }

  /** What an instruction does once the memories it needs are loaded. */
  function Act(fl: Floats, op: Op, c: Call, w: World): (Regs, World, Status)
    requires OpOk(op) && CallOk(op, c)
    requires forall k :: 0 <= k < |c.needs| ==> c.needs[k] < |w.memories| && MemoryOk(w, c.needs[k])
  {
    match op
    case LoadOp(a) => LoadAct(fl, a, c, w, c.needs[0])
    case StoreOp(a) => StoreAct(fl, a, c, w, c.needs[0])
    case SizeOp =>
      if c.imms[0] >= |w.memories| then (c.regs, w, Trap)
      else
        var m := w.memories[c.imms[0]];
        if !m.is64 && m.size / PAGE_SIZE >= TWO_32 then (c.regs, w, Unsupported)
        else (Push(c.regs, PagesValue(m.is64, m.size / PAGE_SIZE)), w, Ok)
    case GrowOp => GrowAct(fl, c, w, c.needs[0])
    case InitOp => InitAct(c, w, c.needs[0])
    case DropOp =>
      if c.imms[0] >= |w.segments| then (c.regs, w, Trap)
      else (c.regs, w.(dropped := w.dropped + {c.imms[0]}), Ok)
    case CopyOp => CopyAct(c, w, c.needs[0], c.needs[1])
    case FillOp => FillAct(c, w, c.needs[0])
  }

  predicate CallOk(op: Op, c: Call) {
    && |c.imms| > 0 && (op.LoadOp? || op.StoreOp? || op.InitOp? || op.CopyOp? ==> |c.imms| >= 2)
    && c.needs == Needs(op, c.imms) && (op.StoreOp? ==> c.held.Some?)
  }

  lemma BeginOk(op: Op, memories: nat, r: Regs)
    requires Begin(op, memories, r).1.Some?
    ensures CallOk(op, Begin(op, memories, r).1.value)
  {
  }

  /** The handler of a memory instruction. */
  function Handle(fl: Floats, op: Op, r: Regs, w: World, hooks: MemoryHooks): (Regs, World, Status)
    requires OpOk(op) && Faithful(w)
  {
    var (r1, begun) := Begin(op, |w.memories|, r);
    if begun.None? then (r1, w, Trap)
    else
      BeginOk(op, |w.memories|, r);
      RequireAllOk(w, begun.value.needs, hooks);
      var (w1, status) := RequireAll(w, begun.value.needs, hooks);
      if status != Ok then (PutBack(r1, begun.value.held), w1, status) else Act(fl, op, begun.value, w1)
  }

  // -------------------------------------------------- spills are invisible

  /** The memory as it would be had it never been spilled. */
  function Restored(w: World, i: nat): Memory
    requires i < |w.memories|
  {
    var m := w.memories[i];
    if m.isSpilled && i in w.saved then m.(data := Private(w.saved[i]), isSpilled := false) else m
  }

  /** The runtime that keeps everything in memory. */
  function Restore(w: World): (r: World)
    ensures |r.memories| == |w.memories| && r.saved == map[]
    ensures r.host == w.host && r.segments == w.segments && r.dropped == w.dropped
    ensures forall i :: 0 <= i < |w.memories| ==> r.memories[i] == Restored(w, i)
  {
    w.(memories := seq(|w.memories|, i requires 0 <= i < |w.memories| => Restored(w, i)), saved := map[])
  }

  lemma RestoredIsFaithful(w: World)
    requires Faithful(w)
    ensures Faithful(Restore(w)) && Restore(Restore(w)) == Restore(w)
    ensures forall i :: 0 <= i < |w.memories| ==> !Restore(w).memories[i].isSpilled
  {
    forall i | 0 <= i < |w.memories|
      ensures MemoryOk(Restore(w), i) && !Restore(w).memories[i].isSpilled
    {
      assert MemoryOk(w, i);
    }
  }

  predicate Works(hooks: MemoryHooks) {
    hooks.load == Some(Ok)
  }

  /** Loading succeeds exactly for memories that are there or whose load hook works, and shows nothing. */
  lemma RequireIsInvisible(w: World, i: nat, hooks: MemoryHooks)
    requires Faithful(w)
    ensures var (w', status) := Require(w, i, hooks);
            && (status == Ok <==> i < |w.memories| && (w.memories[i].isSpilled ==> Works(hooks)))
            && Faithful(w') && Restore(w') == Restore(w) && w'.saved == w.saved
            && (status == Ok ==> w'.memories[i] == Restored(w, i))
            && (forall k :: 0 <= k < |w.memories| && w.memories[k] == Restored(w, k) ==>
                w'.memories[k] == Restored(w, k))
            && (i < |w.memories| && !w.memories[i].isSpilled ==> w' == w)
  {
    if i < |w.memories| {
      assert MemoryOk(w, i);
      var w' := Require(w, i, hooks).0;
      forall k | 0 <= k < |w.memories|
        ensures MemoryOk(w', k) && Restored(w', k) == Restored(w, k)
      {
        assert MemoryOk(w, k);
      }
    }
  }

  lemma {:induction false} RequireAllOk(w: World, needs: seq<nat>, hooks: MemoryHooks)
    requires Faithful(w)
    ensures var (w', status) := RequireAll(w, needs, hooks);
            && Faithful(w') && Restore(w') == Restore(w) && w'.saved == w.saved
            && (forall k :: 0 <= k < |w.memories| && w.memories[k] == Restored(w, k) ==>
                w'.memories[k] == Restored(w, k))
            && (status == Ok ==> forall k :: 0 <= k < |needs| ==>
                  needs[k] < |w'.memories| && MemoryOk(w', needs[k]) && w'.memories[needs[k]] == Restored(w, needs[k]))
    decreases |needs|
  {
    hide Require, MemoryOk, Restored, Restore;
    if needs != [] {
      RequireIsInvisible(w, needs[0], hooks);
      var (w1, status) := Require(w, needs[0], hooks);
      assert forall k :: 0 <= k < |w.memories| ==> Restored(w1, k) == Restore(w).memories[k];
      if status == Ok {
        RequireAllOk(w1, needs[1..], hooks);
        assert forall k :: 1 <= k < |needs| ==> needs[k] == needs[1..][k - 1];
      }
    }
  }
}
