/** The memory instructions that cannot go through: too few immediates, no such memory, and operands
    that are missing or of the wrong kind. Each traps with every memory as it was. */
module MemoryFaults {
  import opened Core
  import opened RuntimeState
  import opened LinearMemory
  import opened MemoryMeaning

  // ------------------------------------------------------------ immediates

  /** How many immediates each instruction takes. */
  function Takes(op: Op, memories: nat): nat {
    match op
    case LoadOp(_) => if memories <= 1 then 2 else 3
    case StoreOp(_) => if memories <= 1 then 2 else 3
    case SizeOp => 1
    case GrowOp => 1
    case DropOp => 1
    case FillOp => 1
    case InitOp => 2
    case CopyOp => 2
  }

  /** With too few immediates in the window those there are taken, and nothing else. */
  lemma ShortWindow(fl: Floats, op: Op, w: World, r: Regs, hooks: MemoryHooks)
    requires OpOk(op) && Faithful(w) && |r.window| < Takes(op, |w.memories|)
    requires op.SizeOp? || op.GrowOp? ==> w.memories != []
    requires op.StoreOp? ==> r.stack != []
    ensures Handle(fl, op, r, w, hooks) == (Regs(r.stack, []), w, Trap)
  {
    hide RequireAll, Act;
    var n := Takes(op, |w.memories|);
    if op.StoreOp? {
      var last := |r.stack| - 1;
      AllPopped(Regs(r.stack[..last], r.window), n);
      assert r.stack[..last] + [r.stack[last]] == r.stack;
    } else {
      AllPopped(r, n);
    }
  }

  lemma {:induction false} AllPopped(r: Regs, n: nat)
    requires |r.window| < n
    ensures PopImms(r, n).0 == Regs(r.stack, []) && |PopImms(r, n).1| < n
    decreases n
  {
    if r.window != [] {
      AllPopped(r.(window := r.window[..|r.window| - 1]), n - 1);
    }
  }

  /** A store without a value, and a size or growth without any memory, do not even look at the window. */
  lemma NothingBegun(fl: Floats, op: Op, w: World, r: Regs, hooks: MemoryHooks)
    requires OpOk(op) && Faithful(w)
    requires (op.StoreOp? && r.stack == []) || ((op.SizeOp? || op.GrowOp?) && w.memories == [])
    ensures Handle(fl, op, r, w, hooks) == (r, w, Trap)
  {
  }

  // --------------------------------------------------------- no such memory

  /** A memory that does not exist: the immediates are gone, the operands stay. */
  lemma NoSuchMemory(fl: Floats, a: Access, w: World, stack: seq<Value>, window: seq<Imm>, i: nat, align: nat,
        offset: Imm, hooks: MemoryHooks)
    requires AccessOk(a) && Faithful(w) && |w.memories| <= i < TWO_32 && align < TWO_32 && offset.bits < TWO_64
    requires |w.memories| != 1
    ensures var imms := ArgImms(|w.memories|, i, align, offset);
            && Handle(fl, LoadOp(a), Regs(stack, window + imms), w, hooks) == (Regs(stack, window), w, Trap)
            && (stack != [] ==>
                Handle(fl, StoreOp(a), Regs(stack, window + imms), w, hooks) == (Regs(stack, window), w, Trap))
  {
    hide Act, BitsFromTop, ArgImms, PopImms;
    var imms := ArgImms(|w.memories|, i, align, offset);
    ArgBits(|w.memories|, i, align, offset);
    PopsInOrder(stack, window, imms);
    if stack != [] {
      var last := |stack| - 1;
      PopsInOrder(stack[..last], window, imms);
      assert stack[..last] + [stack[last]] == stack;
    }
  }

  lemma NoSuchMemoryInBulk(fl: Floats, w: World, stack: seq<Value>, window: seq<Imm>, i: nat, other: nat,
        hooks: MemoryHooks)
    requires Faithful(w) && |w.memories| <= i < TWO_32 && other < TWO_32
    ensures Handle(fl, FillOp, Regs(stack, window + [Imm(MemoryIndex, 4, i)]), w, hooks)
            == (Regs(stack, window), w, Trap)
    ensures Handle(fl, InitOp, Regs(stack, window + [Imm(DataIndex, 4, other), Imm(MemoryIndex, 4, i)]), w, hooks)
            == (Regs(stack, window), w, Trap)
    ensures Handle(fl, CopyOp, Regs(stack, window + [Imm(MemoryIndex, 4, other), Imm(SourceMemory, 4, i)]), w, hooks)
            == (Regs(stack, window), w, Trap)
    ensures There(w, other) ==>
              Handle(fl, CopyOp, Regs(stack, window + [Imm(MemoryIndex, 4, i), Imm(SourceMemory, 4, other)]), w, hooks)
              == (Regs(stack, window), w, Trap)
    ensures w.memories != [] ==>
              && Handle(fl, GrowOp, Regs(stack, window + [Imm(MemoryIndex, 4, i)]), w, hooks)
                 == (Regs(stack, window), w, Trap)
              && Handle(fl, SizeOp, Regs(stack, window + [Imm(MemoryIndex, 4, i)]), w, hooks)
                 == (Regs(stack, window), w, Trap)
  {
    hide BitsFromTop, PopImms, EnsureLoaded;
    PopsInOrder(stack, window, [Imm(MemoryIndex, 4, i)]);
    PopsInOrder(stack, window, [Imm(DataIndex, 4, other), Imm(MemoryIndex, 4, i)]);
    PopsInOrder(stack, window, [Imm(MemoryIndex, 4, other), Imm(SourceMemory, 4, i)]);
    PopsInOrder(stack, window, [Imm(MemoryIndex, 4, i), Imm(SourceMemory, 4, other)]);
    OneImm(Imm(MemoryIndex, 4, i));
    TwoImms(Imm(DataIndex, 4, other), Imm(MemoryIndex, 4, i));
    TwoImms(Imm(MemoryIndex, 4, other), Imm(SourceMemory, 4, i));
    TwoImms(Imm(MemoryIndex, 4, i), Imm(SourceMemory, 4, other));
    if There(w, other) {
      AllThere(w, [other], hooks);
      SecondMissing(w, other, i, hooks);
    }
  }

  lemma SecondMissing(w: World, there: nat, missing: nat, hooks: MemoryHooks)
    requires Faithful(w) && There(w, there) && missing >= |w.memories|
    ensures RequireAll(w, [there, missing], hooks) == (w, Trap)
  {
    RequireIsInvisible(w, there, hooks);
    assert [there, missing][1..] == [missing];
  }

  // --------------------------------------------------------------- operands

  predicate IsAddress(v: Value, is64: bool) {
    if is64 then v.I64? else v.I32?
  }

  /** Of the operands asked for, listed from the top, `k` are there, and the next is missing or is not of
      its kind. */
  predicate FailsAt(stack: seq<Value>, kinds: seq<bool>, k: nat) {
    && k < |kinds| && k <= |stack|
    && (forall j :: 0 <= j < k ==> IsAddress(stack[|stack| - 1 - j], kinds[j]))
    && (k < |stack| ==> !IsAddress(stack[|stack| - 1 - k], kinds[k]))
  }

  /** An operand that is not an address of the memory's kind stays where it is. */
  lemma WrongAddress(fl: Floats, a: Access, w: World, stack: seq<Value>, window: seq<Imm>, i: nat, align: nat,
        offset: Imm, v: Value, hooks: MemoryHooks)
    requires AccessOk(a) && Faithful(w) && ArgOk(w, i, align, offset) && FailsAt(stack, [w.memories[i].is64], 0)
    ensures var all := window + ArgImms(|w.memories|, i, align, offset);
            && Handle(fl, LoadOp(a), Regs(stack, all), w, hooks) == (Regs(stack, window), w, Trap)
            && Handle(fl, StoreOp(a), Regs(stack + [v], all), w, hooks) == (Regs(stack + [v], window), w, Trap)
  {
    hide RequireAll, BitsFromTop, ArgImms, PopImms;
    assert MemoryOk(w, i);
    var imms := ArgImms(|w.memories|, i, align, offset);
    PopsInOrder(stack, window, imms);
    ArgBits(|w.memories|, i, align, offset);
    AllThere(w, [i], hooks);
    assert (stack + [v])[..|stack|] == stack;
  }

  /** The pops of three operands, up to the one that fails. */
  lemma PopsUntil(stack: seq<Value>, window: seq<Imm>, kinds: seq<bool>, k: nat)
    requires |kinds| == 3 && FailsAt(stack, kinds, k)
    ensures k == 0 ==> PopIndex(Regs(stack, window), kinds[0]) == None
    ensures k > 0 ==> PopIndex(Regs(stack, window), kinds[0]).Some? &&
                      PopIndex(Regs(stack, window), kinds[0]).value.0 == Regs(stack[..|stack| - 1], window)
    ensures k == 1 ==> PopIndex(Regs(stack[..|stack| - 1], window), kinds[1]) == None
    ensures k == 2 ==> && PopIndex(Regs(stack[..|stack| - 1], window), kinds[1]).Some?
                       && PopIndex(Regs(stack[..|stack| - 1], window), kinds[1]).value.0
                          == Regs(stack[..|stack| - 2], window)
                       && PopIndex(Regs(stack[..|stack| - 2], window), kinds[2]) == None
    ensures k < 3 && k <= |stack| && stack[..|stack|] == stack
  {
    if k > 0 {
      assert IsAddress(stack[|stack| - 1 - 0], kinds[0]);
    }
    if k > 1 {
      assert IsAddress(stack[|stack| - 1 - 1], kinds[1]);
      assert stack[..|stack| - 1][..|stack| - 2] == stack[..|stack| - 2];
    }
  }

  /** The bulk instructions take their operands from the top up to the first that is missing or wrong. */
  lemma WrongFill(fl: Floats, w: World, stack: seq<Value>, window: seq<Imm>, i: nat, k: nat, hooks: MemoryHooks)
    requires Faithful(w) && There(w, i)
    requires var is64 := w.memories[i].is64; FailsAt(stack, [is64, false, is64], k)
    ensures Handle(fl, FillOp, Regs(stack, window + [Imm(MemoryIndex, 4, i)]), w, hooks)
            == (Regs(stack[..|stack| - k], window), w, Trap)
  {
    hide RequireAll, BitsFromTop, PopImms, PopIndex, FailsAt;
    assert MemoryOk(w, i);
    PopsInOrder(stack, window, [Imm(MemoryIndex, 4, i)]);
    OneImm(Imm(MemoryIndex, 4, i));
    AllThere(w, [i], hooks);
    PopsUntil(stack, window, [w.memories[i].is64, false, w.memories[i].is64], k);
  }

  lemma WrongCopy(fl: Floats, w: World, stack: seq<Value>, window: seq<Imm>, i: nat, j: nat, k: nat, hooks: MemoryHooks)
    requires Faithful(w) && There(w, i) && There(w, j)
    requires var from, to := w.memories[i].is64, w.memories[j].is64; FailsAt(stack, [from || to, from, to], k)
    ensures Handle(fl, CopyOp, Regs(stack, window + [Imm(MemoryIndex, 4, j), Imm(SourceMemory, 4, i)]), w, hooks)
            == (Regs(stack[..|stack| - k], window), w, Trap)
  {
    hide RequireAll, BitsFromTop, PopImms, PopIndex, FailsAt;
    assert MemoryOk(w, i) && MemoryOk(w, j);
    PopsInOrder(stack, window, [Imm(MemoryIndex, 4, j), Imm(SourceMemory, 4, i)]);
    TwoImms(Imm(MemoryIndex, 4, j), Imm(SourceMemory, 4, i));
    AllThere(w, [i, j], hooks);
    var from, to := w.memories[i].is64, w.memories[j].is64;
    PopsUntil(stack, window, [from || to, from, to], k);
  }

  lemma WrongInit(fl: Floats, w: World, stack: seq<Value>, window: seq<Imm>, i: nat, data: nat, k: nat,
        hooks: MemoryHooks)
    requires Faithful(w) && There(w, i) && data < |w.segments| && data < TWO_32 && data !in w.dropped
    requires var is64 := w.memories[i].is64; FailsAt(stack, [is64, is64, is64], k)
    ensures Handle(fl, InitOp, Regs(stack, window + [Imm(DataIndex, 4, data), Imm(MemoryIndex, 4, i)]), w, hooks)
            == (Regs(stack[..|stack| - k], window), w, Trap)
  {
    hide RequireAll, BitsFromTop, PopImms, PopIndex, FailsAt;
    assert MemoryOk(w, i);
    PopsInOrder(stack, window, [Imm(DataIndex, 4, data), Imm(MemoryIndex, 4, i)]);
    TwoImms(Imm(DataIndex, 4, data), Imm(MemoryIndex, 4, i));
    AllThere(w, [i], hooks);
    PopsUntil(stack, window, [w.memories[i].is64, w.memories[i].is64, w.memories[i].is64], k);
  }

  /** Growth takes its operand before it looks at its kind. */
  lemma WrongGrow(fl: Floats, w: World, stack: seq<Value>, window: seq<Imm>, i: nat, hooks: MemoryHooks)
    requires Faithful(w) && There(w, i) && FailsAt(stack, [w.memories[i].is64], 0)
    ensures Handle(fl, GrowOp, Regs(stack, window + [Imm(MemoryIndex, 4, i)]), w, hooks)
            == (Regs(if stack == [] then [] else stack[..|stack| - 1], window), w, Trap)
  {
    hide RequireAll, BitsFromTop, PopImms;
    PopsInOrder(stack, window, [Imm(MemoryIndex, 4, i)]);
    OneImm(Imm(MemoryIndex, 4, i));
    AllThere(w, [i], hooks);
  }
}
