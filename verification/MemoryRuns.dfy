/** Whole runs over linear memory: any program, interrupted by any spill and load requests, sees what
    it would see had nothing ever been spilled. */
module MemoryRuns {
  import opened Core
  import opened Spill
  import opened LinearMemory

  // ------------------------------------------------------ one instruction

  /** Replacing a memory by one that has its bytes. */
  lemma ReplaceIsInvisible(w: World, i: nat, m: Memory)
    requires Faithful(w) && i < |w.memories| && !m.isSpilled
    requires MemoryOk(w.(memories := w.memories[i := m]), i)
    ensures var w' := w.(memories := w.memories[i := m]);
            Faithful(w') && Restore(w') == Restore(w).(memories := Restore(w).memories[i := m])
  {
    var w' := w.(memories := w.memories[i := m]);
    forall k | 0 <= k < |w.memories|
      ensures MemoryOk(w', k) && Restored(w', k) == Restore(w).memories[i := m][k]
    {
      assert MemoryOk(w, k);
    }
    assert Restore(w').memories == Restore(w).memories[i := m];
  }

  lemma ContentsAreRestored(w: World, i: nat)
    requires Faithful(w) && i < |w.memories| && !w.memories[i].isSpilled
    ensures MemoryOk(w, i) && MemoryOk(Restore(w), i) && Restore(w).memories[i] == w.memories[i]
    ensures Contents(Restore(w), i) == Contents(w, i)
  {
    RestoredIsFaithful(w);
    assert MemoryOk(w, i);
  }

  lemma WriteIsInvisible(w: World, i: nat, addr: nat, bytes: seq<byte>)
    requires Faithful(w) && i < |w.memories| && MemoryOk(w, i) && InBounds(w.memories[i], addr, |bytes|)
    requires MemoryOk(Restore(w), i) && Restore(w).memories[i] == w.memories[i]
    ensures Faithful(Write(w, i, addr, bytes))
    ensures Restore(Write(w, i, addr, bytes)) == Write(Restore(w), i, addr, bytes)
  {
    hide Overwrite;
    if bytes != [] {
      var w' := Write(w, i, addr, bytes);
      match w.memories[i].data {
        case Private(b) =>
          ReplaceIsInvisible(w, i, w.memories[i].(data := Private(Overwrite(b, addr, bytes))));
        case Shared(_) =>
          forall k | 0 <= k < |w.memories|
            ensures MemoryOk(w', k) && Restored(w', k) == Restored(w, k)
          {
            assert MemoryOk(w, k);
          }
          assert Restore(w').memories == Restore(w).memories;
      }
    }
  }

  ghost predicate Ready(w: World, needs: seq<nat>) {
    forall k :: 0 <= k < |needs| ==> needs[k] < |w.memories| && !w.memories[needs[k]].isSpilled
  }

  /** Once the memories it needs are there, an instruction does the same with and without spills. */
  lemma ActIsInvisible(fl: Floats, op: Op, c: Call, w: World)
    requires OpOk(op) && CallOk(op, c) && Faithful(w) && Ready(w, c.needs)
    ensures Faithful(Restore(w))
    ensures var (r1, w1, s1) := Act(fl, op, c, w); var (r2, w2, s2) := Act(fl, op, c, Restore(w));
            r1 == r2 && s1 == s2 && Faithful(w1) && Restore(w1) == w2
  {
    hide Restore, MemoryOk, Faithful, InBounds, Write, Contents, PopIndex, StoredBytes, LoadedValue, LittleEndian, Grow,
         Restored;
    RestoredIsFaithful(w);
    var w' := Restore(w);
    match op {
      case LoadOp(_) => ContentsAreRestored(w, c.needs[0]);
      case StoreOp(a) => StoreIsInvisible(fl, a, c, w, c.needs[0]);
      case SizeOp => SizesAreRestored(w);
      case GrowOp => GrowIsInvisible(fl, c, w, c.needs[0]);
      case InitOp => InitIsInvisible(c, w, c.needs[0]);
      case DropOp => DropIsInvisible(w, c.imms[0]);
      case CopyOp => CopyIsInvisible(c, w, c.needs[0], c.needs[1]);
      case FillOp => FillIsInvisible(c, w, c.needs[0]);
    }
  }

  lemma StoreIsInvisible(fl: Floats, a: Access, c: Call, w: World, i: nat)
    requires AccessOk(a) && Faithful(w) && i < |w.memories| && !w.memories[i].isSpilled && |c.imms| > 0 && c.held.Some?
    ensures MemoryOk(w, i) && MemoryOk(Restore(w), i)
    ensures var (r1, w1, s1) := StoreAct(fl, a, c, w, i); var (r2, w2, s2) := StoreAct(fl, a, c, Restore(w), i);
            r1 == r2 && s1 == s2 && Faithful(w1) && Restore(w1) == w2
  {
    hide Restore, MemoryOk, Faithful, InBounds, Write, PopIndex, StoredBytes, Restored;
    ContentsAreRestored(w, i);
    var m := w.memories[i];
    if PopIndex(c.regs, m.is64).Some? {
      var addr, bytes := PopIndex(c.regs, m.is64).value.1 + c.imms[0], StoredBytes(fl, a, c.held.value);
      if addr < TWO_64 && InBounds(m, addr, a.bits / 8) && bytes.Some? {
        WriteIsInvisible(w, i, addr, bytes.value);
      }
    }
  }

  lemma SizesAreRestored(w: World)
    requires Faithful(w)
    ensures forall i :: 0 <= i < |w.memories| ==>
              Restore(w).memories[i].size == w.memories[i].size && Restore(w).memories[i].is64 == w.memories[i].is64
  {
  }

  lemma GrowIsInvisible(fl: Floats, c: Call, w: World, i: nat)
    requires Faithful(w) && i < |w.memories| && !w.memories[i].isSpilled
    ensures var (r1, w1, s1) := GrowAct(fl, c, w, i); var (r2, w2, s2) := GrowAct(fl, c, Restore(w), i);
            r1 == r2 && s1 == s2 && Faithful(w1) && Restore(w1) == w2
  {
    hide Restore, MemoryOk, Faithful, Grow, Restored;
    ContentsAreRestored(w, i);
    if Pop(c.regs).Some? && ToU64(fl, Pop(c.regs).value.1).Some? {
      var delta := ToU64(fl, Pop(c.regs).value.1).value;
      GrownIsOk(w, i, delta);
      ReplaceIsInvisible(w, i, Grow(w.memories[i], delta).0);
    }
  }

  lemma GrownIsOk(w: World, i: nat, delta: nat)
    requires i < |w.memories| && MemoryOk(w, i) && !w.memories[i].isSpilled
    ensures var m' := Grow(w.memories[i], delta).0;
            !m'.isSpilled && MemoryOk(w.(memories := w.memories[i := m']), i)
  {
    hide Grow;
    if delta > 0 {
      GrowthIsExact(w, i, delta);
    }
    GrowKeepsFlags(w.memories[i], delta);
  }

  lemma GrowKeepsFlags(m: Memory, delta: nat)
    ensures Grow(m, delta).0.isSpilled == m.isSpilled && (delta == 0 ==> Grow(m, delta).0 == m)
  {
  }

  lemma InitIsInvisible(c: Call, w: World, i: nat)
    requires Faithful(w) && i < |w.memories| && !w.memories[i].isSpilled && |c.imms| > 1
    ensures MemoryOk(w, i) && MemoryOk(Restore(w), i)
    ensures var (r1, w1, s1) := InitAct(c, w, i); var (r2, w2, s2) := InitAct(c, Restore(w), i);
            r1 == r2 && s1 == s2 && Faithful(w1) && Restore(w1) == w2
  {
    hide MemoryOk, Faithful, InBounds, Write, PopIndex, Restored;
    ContentsAreRestored(w, i);
    var m, d := w.memories[i], c.imms[1];
    if d < |w.segments| && d !in w.dropped {
      var length := PopIndex(c.regs, m.is64);
      if length.Some? {
        var src := PopIndex(length.value.0, m.is64);
        if src.Some? {
          var dst := PopIndex(src.value.0, m.is64);
          if dst.Some? && src.value.1 + length.value.1 <= |w.segments[d]| && InBounds(m, dst.value.1, length.value.1) {
            WriteIsInvisible(w, i, dst.value.1, w.segments[d][src.value.1..src.value.1 + length.value.1]);
          }
        }
      }
    }
  }

  lemma DropIsInvisible(w: World, d: nat)
    requires Faithful(w)
    ensures var w' := w.(dropped := w.dropped + {d});
            Faithful(w') && Restore(w') == Restore(w).(dropped := w.dropped + {d})
  {
    var w' := w.(dropped := w.dropped + {d});
    forall k | 0 <= k < |w.memories|
      ensures MemoryOk(w', k) && Restored(w', k) == Restored(w, k)
    {
      assert MemoryOk(w, k);
    }
    assert Restore(w').memories == Restore(w).memories;
  }

  lemma CopyIsInvisible(c: Call, w: World, i: nat, j: nat)
    requires Faithful(w) && i < |w.memories| && !w.memories[i].isSpilled && j < |w.memories| && !w.memories[j].isSpilled
    ensures MemoryOk(w, i) && MemoryOk(Restore(w), i) && MemoryOk(w, j) && MemoryOk(Restore(w), j)
    ensures var (r1, w1, s1) := CopyAct(c, w, i, j); var (r2, w2, s2) := CopyAct(c, Restore(w), i, j);
            r1 == r2 && s1 == s2 && Faithful(w1) && Restore(w1) == w2
  {
    hide Restore, MemoryOk, Faithful, Write, PopIndex, Restored;
    ContentsAreRestored(w, i);
    ContentsAreRestored(w, j);
    var from, to := w.memories[i], w.memories[j];
    var length := PopIndex(c.regs, from.is64 || to.is64);
    if length.Some? {
      var src := PopIndex(length.value.0, from.is64);
      if src.Some? {
        var dst := PopIndex(src.value.0, to.is64);
        if dst.Some? && InBounds(from, src.value.1, length.value.1) && InBounds(to, dst.value.1, length.value.1) {
          var bytes := if length.value.1 == 0 then [] else Contents(w, i)[src.value.1..src.value.1 + length.value.1];
          WriteIsInvisible(w, j, dst.value.1, bytes);
        }
      }
    }
  }

  lemma FillIsInvisible(c: Call, w: World, i: nat)
    requires Faithful(w) && i < |w.memories| && !w.memories[i].isSpilled
    ensures MemoryOk(w, i) && MemoryOk(Restore(w), i)
    ensures var (r1, w1, s1) := FillAct(c, w, i); var (r2, w2, s2) := FillAct(c, Restore(w), i);
            r1 == r2 && s1 == s2 && Faithful(w1) && Restore(w1) == w2
  {
    hide Restore, MemoryOk, Faithful, InBounds, Write, PopIndex, Restored;
    ContentsAreRestored(w, i);
    var m := w.memories[i];
    var length := PopIndex(c.regs, m.is64);
    if length.Some? {
      var value := PopIndex(length.value.0, false);
      if value.Some? {
        var dst := PopIndex(value.value.0, m.is64);
        if dst.Some? && InBounds(m, dst.value.1, length.value.1) {
          WriteIsInvisible(w, i, dst.value.1, seq(length.value.1, _ => value.value.1 % 256));
        }
      }
    }
  }

  /** A memory instruction on memories some of which are spilled, with a load hook that works, does
      what it does when none is. */
  lemma HandleIsInvisible(fl: Floats, op: Op, r: Regs, w: World, hooks: MemoryHooks)
    requires OpOk(op) && Faithful(w) && Works(hooks)
    ensures Faithful(Restore(w))
    ensures var (r1, w1, s1) := Handle(fl, op, r, w, hooks); var (r2, w2, s2) := Handle(fl, op, r, Restore(w), hooks);
            r1 == r2 && s1 == s2 && Faithful(w1) && Restore(w1) == w2
  {
    hide Act, Restore, Restored, Faithful, RequireAll;
    RestoredIsFaithful(w);
    var begun := Begin(op, |w.memories|, r).1;
    if begun.Some? {
      var c := begun.value;
      BeginOk(op, |w.memories|, r);
      RequireAllOk(w, c.needs, hooks);
      RequireAllAgrees(w, c.needs, hooks);
      var (w1, status) := RequireAll(w, c.needs, hooks);
      if status == Ok {
        LoadedIsReady(w, w1, c.needs);
        ActIsInvisible(fl, op, c, w1);
      }
    }
  }

  lemma LoadedIsReady(w: World, w1: World, needs: seq<nat>)
    requires Faithful(w1) && Restore(w1) == Restore(w)
    requires forall k :: 0 <= k < |needs| ==>
             needs[k] < |w1.memories| && w1.memories[needs[k]] == Restore(w).memories[needs[k]]
    ensures Ready(w1, needs)
  {
    hide Restore, Faithful;
    RestoredIsFaithful(w1);
  }

  /** With a hook that works, a load is refused exactly when it is refused with nothing spilled. */
  lemma {:induction false} RequireAllAgrees(w: World, needs: seq<nat>, hooks: MemoryHooks)
    requires Faithful(w) && Works(hooks)
    ensures RequireAll(Restore(w), needs, hooks) == (Restore(w), RequireAll(w, needs, hooks).1)
    decreases |needs|
  {
    hide Require, Restore, Restored, Faithful;
    if needs != [] {
      RestoredIsFaithful(w);
      RequireIsInvisible(w, needs[0], hooks);
      RequireIsInvisible(Restore(w), needs[0], hooks);
      RequireStatus(w, needs[0], hooks);
      RequireStatus(Restore(w), needs[0], hooks);
      if needs[0] < |w.memories| {
        RequireAllAgrees(Require(w, needs[0], hooks).0, needs[1..], hooks);
      }
    }
  }

  lemma RequireStatus(w: World, i: nat, hooks: MemoryHooks)
    requires Faithful(w) && Works(hooks)
    ensures Require(w, i, hooks).1 == if i < |w.memories| then Ok else Trap
    ensures i >= |w.memories| ==> Require(w, i, hooks).0 == w
  {
    hide MemoryOk;
    RequireIsInvisible(w, i, hooks);
  }

  /** A spill or load request leaves the logical state alone, whatever its hooks do. */
  lemma ServeIsInvisible(w: World, r: Request, hooks: MemoryHooks)
    requires Faithful(w)
    ensures Faithful(Serve(w, r, hooks)) && Restore(Serve(w, r, hooks)) == Restore(w)
  {
    if r.i < |w.memories| {
      assert MemoryOk(w, r.i);
      var w' := Serve(w, r, hooks);
      forall k | 0 <= k < |w.memories|
        ensures MemoryOk(w', k) && Restored(w', k) == Restored(w, k)
      {
        assert MemoryOk(w, k);
      }
      assert Restore(w').memories == Restore(w).memories;
    }
  }

  /** The memory is the runtime's own and its bytes are in memory. */
  predicate Resident(m: Memory) {
    m.ownsData && m.size > 0 && !m.data.Absent?
  }

  predicate SameElsewhere(w: World, w': World, i: nat)
    requires i < |w.memories|
  {
    && |w'.memories| == |w.memories|
       && (forall k :: 0 <= k < |w.memories| && k != i ==> w'.memories[k] == w.memories[k])
    && w'.host == w.host && w'.segments == w.segments && w'.dropped == w.dropped
    && (forall k :: k != i && k in w.saved ==> k in w'.saved && w'.saved[k] == w.saved[k])
  }

  /** What a spill request comes to. A resident memory whose hook returns `Ok` is without bytes and marked
      as spilled, and the hook holds exactly those it had. In every other case nothing changes: a host's
      memory is refused, an empty or spilled one is well as it is, and a resident one is kept, with the
      hook's status, when there is no hook or it fails. */
  ghost predicate SpillOutcome(w: World, i: nat, hooks: MemoryHooks, w': World, status: Status)
    requires Faithful(w)
  {
    if i >= |w.memories| then w' == w && status == InvalidArgument
    else
      var m := w.memories[i];
      if Resident(m) && hooks.spill == Some(Ok) then
        && status == Ok && SameElsewhere(w, w', i) && i in w'.saved && w'.saved[i] == Contents(w, i)
        && w'.memories[i].data == Absent && w'.memories[i].isSpilled && SameRecord(m, w'.memories[i])
      else
        && w' == w
        && status == if !m.ownsData then InvalidArgument
                     else if !Resident(m) then Ok
                     else if hooks.spill.None? then InvalidArgument
                     else hooks.spill.value
  }

  predicate SameRecord(m: Memory, m': Memory) {
    && m'.size == m.size && m'.maxSize == m.maxSize && m'.hasMax == m.hasMax && m'.is64 == m.is64
    && m'.isHost == m.isHost && m'.ownsData == m.ownsData
  }

  /** What a load request comes to. A spilled memory whose hook returns `Ok` has again the bytes the hook
      holds and is no longer marked. In every other case nothing changes: a host's memory is refused, one
      that is not spilled is well as it is, and a spilled one stays, with the hook's status, when there is
      no hook or it fails. */
  ghost predicate LoadOutcome(w: World, i: nat, hooks: MemoryHooks, w': World, status: Status)
    requires Faithful(w)
  {
    if i >= |w.memories| then w' == w && status == InvalidArgument
    else
      var m := w.memories[i];
      if m.isSpilled && hooks.load == Some(Ok) then
        && status == Ok && SameElsewhere(w, w', i) && w'.saved == w.saved
        && i in w.saved && w'.memories[i].data == Private(w.saved[i]) && |w.saved[i]| == m.size
        && !w'.memories[i].isSpilled && SameRecord(m, w'.memories[i])
      else
        && w' == w
        && status == if !m.ownsData then InvalidArgument
                     else if !m.isSpilled then Ok
                     else if hooks.load.None? then InvalidArgument
                     else hooks.load.value
  }

  lemma SpillDoes(w: World, i: nat, hooks: MemoryHooks)
    requires Faithful(w)
    ensures SpillOutcome(w, i, hooks, Serve(w, SpillMemory(i), hooks),
                         if i >= |w.memories| then InvalidArgument else Offload(w.memories[i], hooks).2)
  {
    if i < |w.memories| {
      assert MemoryOk(w, i);
      var m := w.memories[i];
      assert Serve(w, SpillMemory(i), hooks).memories[i] == Offload(m, hooks).0;
      if !(Resident(m) && hooks.spill == Some(Ok)) {
        assert w.memories[i := m] == w.memories;
      }
    }
  }

  lemma LoadDoes(w: World, i: nat, hooks: MemoryHooks)
    requires Faithful(w)
    ensures LoadOutcome(w, i, hooks, Serve(w, LoadMemory(i), hooks),
                        if i >= |w.memories| then InvalidArgument else Load(w.memories[i], Saved(w, i), hooks).1)
  {
    if i < |w.memories| {
      assert MemoryOk(w, i);
      var m := w.memories[i];
      assert Serve(w, LoadMemory(i), hooks).memories[i] == Load(m, Saved(w, i), hooks).0;
      if !(m.isSpilled && hooks.load == Some(Ok)) {
        assert w.memories[i := m] == w.memories;
      }
    }
  }

  /** The guard of a memory instruction: a memory that is not spilled passes as it is, a spilled one with
      the bytes the hook holds; without a hook it traps, and a hook's failure is passed on. */
  lemma GuardDoes(w: World, i: nat, hooks: MemoryHooks)
    requires Faithful(w)
    ensures var (w', status) := Require(w, i, hooks);
            if i >= |w.memories| then w' == w && status == Trap
            else if !w.memories[i].isSpilled then w' == w && status == Ok
            else if hooks.load == Some(Ok) then
              && status == Ok && SameElsewhere(w, w', i) && w'.saved == w.saved
              && i in w.saved && w'.memories[i].data == Private(w.saved[i])
              && !w'.memories[i].isSpilled && SameRecord(w.memories[i], w'.memories[i])
            else w' == w && status == if hooks.load.None? then Trap else hooks.load.value
  {
    if i < |w.memories| {
      assert MemoryOk(w, i);
      assert w.memories[i := w.memories[i]] == w.memories;
    }
  }

  /** A spill and a load with hooks that work are a round trip: the memory is as it was. */
  lemma SpillThenLoad(w: World, i: nat, spilling: MemoryHooks, loading: MemoryHooks)
    requires Faithful(w) && i < |w.memories| && Resident(w.memories[i])
    requires spilling.spill == Some(Ok) && loading.load == Some(Ok)
    ensures var w' := Serve(Serve(w, SpillMemory(i), spilling), LoadMemory(i), loading);
            w'.memories == w.memories && w'.host == w.host
                && Serve(w, SpillMemory(i), spilling).memories[i].data == Absent
  {
    hide Serve;
    assert MemoryOk(w, i);
    SpillDoes(w, i, spilling);
    var w1 := Serve(w, SpillMemory(i), spilling);
    ServeIsInvisible(w, SpillMemory(i), spilling);
    LoadDoes(w1, i, loading);
  }

  // ----------------------------------------------------------- whole runs

  /** What a program does next, from its registers and a state of its own. */
  datatype Turn<+K> = Internal(regs: Regs, next: K) | Instruction(op: Op, next: K) | Halt

  datatype Running<+K> = Running(regs: Regs, state: K, world: World) | Stopped(status: Status, regs: Regs, world: World)

  /** Requests served before one turn, each with its hooks, and the hooks during it. */
  datatype Pause = Pause(requests: seq<(Request, MemoryHooks)>, hooks: MemoryHooks)

  function ServeAll(w: World, requests: seq<(Request, MemoryHooks)>): World
    decreases |requests|
  {
    if requests == [] then w else ServeAll(Serve(w, requests[0].0, requests[0].1), requests[1..])
  }

  lemma {:induction false} ServeAllIsInvisible(w: World, requests: seq<(Request, MemoryHooks)>)
    requires Faithful(w)
    ensures Faithful(ServeAll(w, requests)) && Restore(ServeAll(w, requests)) == Restore(w)
    decreases |requests|
  {
    hide Faithful, Restore, Serve;
    if requests != [] {
      ServeIsInvisible(w, requests[0].0, requests[0].1);
      ServeAllIsInvisible(Serve(w, requests[0].0, requests[0].1), requests[1..]);
    }
  }

  ghost predicate ProgramOk<K(!new)>(program: (Regs, K) -> Turn<K>) {
    forall r, k :: program(r, k).Instruction? ==> OpOk(program(r, k).op)
  }

  function TakeTurn<K>(fl: Floats, program: (Regs, K) -> Turn<K>, s: Running<K>, hooks: MemoryHooks): Running<K>
    requires s.Running? && Faithful(s.world)
    requires program(s.regs, s.state).Instruction? ==> OpOk(program(s.regs, s.state).op)
  {
    match program(s.regs, s.state)
    case Internal(r, k) => Running(r, k, s.world)
    case Halt => Stopped(Ok, s.regs, s.world)
    case Instruction(op, k) =>
      var (r, w, status) := Handle(fl, op, s.regs, s.world, hooks);
      if status == Ok then Running(r, k, w) else Stopped(status, r, w)
  }

  ghost function Run<K(!new)>(fl: Floats, program: (Regs, K) -> Turn<K>, s: Running<K>, pauses: nat -> Pause,
        n: nat): (end: Running<K>)
    requires Faithful(s.world) && ProgramOk(program) && forall i :: Works(pauses(i).hooks)
    decreases n
  {
    if n == 0 || s.Stopped? then s
    else
      ServeAllIsInvisible(s.world, pauses(n).requests);
      var s' := Running(s.regs, s.state, ServeAll(s.world, pauses(n).requests));
      TurnIsInvisible(fl, program, s', pauses(n).hooks);
      Run(fl, program, TakeTurn(fl, program, s', pauses(n).hooks), pauses, n - 1)
  }

  lemma TurnIsInvisible<K(!new)>(fl: Floats, program: (Regs, K) -> Turn<K>, s: Running<K>, hooks: MemoryHooks)
    requires s.Running? && Faithful(s.world) && ProgramOk(program) && Works(hooks)
    ensures Faithful(Restore(s.world)) && Faithful(TakeTurn(fl, program, s, hooks).world)
    ensures RestoreRun(TakeTurn(fl, program, s, hooks)) == TakeTurn(fl, program, RestoreRun(s), hooks)
  {
    hide Faithful, Restore, Handle;
    RestoredIsFaithful(s.world);
    match program(s.regs, s.state) {
      case Instruction(op, _) => HandleIsInvisible(fl, op, s.regs, s.world, hooks);
      case _ =>
    }
  }

  function RestoreRun<K>(s: Running<K>): Running<K> {
    s.(world := Restore(s.world))
  }

  /** For any program and any run of it, spill and load requests at any points change neither its
      registers, its state, its outcome, nor the logical contents of any memory. */
  lemma {:induction false} SpillsAreInvisible<K(!new)>(fl: Floats, program: (Regs, K) -> Turn<K>, s: Running<K>,
        pauses: nat -> Pause, quiet: nat -> Pause, n: nat)
    requires Faithful(s.world) && ProgramOk(program)
    requires forall i :: Works(pauses(i).hooks)
    requires forall i :: quiet(i).requests == [] && Works(quiet(i).hooks)
    ensures Faithful(Restore(s.world))
    ensures RestoreRun(Run(fl, program, s, pauses, n)) == Run(fl, program, RestoreRun(s), quiet, n)
    decreases n
  {
    hide Faithful, Restore, TakeTurn, OpOk;
    RestoredIsFaithful(s.world);
    if n > 0 && s.Running? {
      ServeAllIsInvisible(s.world, pauses(n).requests);
      var s' := Running(s.regs, s.state, ServeAll(s.world, pauses(n).requests));
      TurnIsInvisible(fl, program, s', pauses(n).hooks);
      TurnIgnoresHooks(fl, program, RestoreRun(s'), pauses(n).hooks, quiet(n).hooks);
      SpillsAreInvisible(fl, program, TakeTurn(fl, program, s', pauses(n).hooks), pauses, quiet, n - 1);
    }
  }

  /** Two hooks that work load alike. */
  lemma TurnIgnoresHooks<K(!new)>(fl: Floats, program: (Regs, K) -> Turn<K>, s: Running<K>, a: MemoryHooks,
        b: MemoryHooks)
    requires s.Running? && Faithful(s.world) && ProgramOk(program) && Works(a) && Works(b)
    ensures TakeTurn(fl, program, s, a) == TakeTurn(fl, program, s, b)
  {
    hide Faithful, Act, Begin;
    match program(s.regs, s.state) {
      case Instruction(op, _) =>
        var begun := Begin(op, |s.world.memories|, s.regs).1;
        if begun.Some? {
          RequireIgnoresHooks(s.world, begun.value.needs, a, b);
        }
      case _ =>
    }
  }

  lemma {:induction false} RequireIgnoresHooks(w: World, needs: seq<nat>, a: MemoryHooks, b: MemoryHooks)
    requires Works(a) && Works(b)
    ensures RequireAll(w, needs, a) == RequireAll(w, needs, b)
    decreases |needs|
  {
    if needs != [] && Require(w, needs[0], a).1 == Ok {
      RequireIgnoresHooks(Require(w, needs[0], a).0, needs[1..], a, b);
    }
  }

  /** Without a load hook that works the spill shows: the guard of an instruction fails exactly when
      the memory is spilled, where with nothing spilled it never does. */
  lemma SpillShowsWithoutHook(w: World, i: nat, hooks: MemoryHooks)
    requires Faithful(w) && i < |w.memories|
    ensures Require(Restore(w), i, hooks).1 == Ok
    ensures Require(w, i, hooks).1 == Ok <==> !w.memories[i].isSpilled || Works(hooks)
  {
    hide Restore, Require, Faithful;
    RestoredIsFaithful(w);
    RequireIsInvisible(w, i, hooks);
    RequireIsInvisible(Restore(w), i, hooks);
  }
}
