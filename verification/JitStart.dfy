/** Prescanning a whole module: at attach time, or when a job starts under a forcing configuration.
    Then a body the prescan cannot walk keeps every job from starting, even where no job would get. */
module JitStart {
  import opened Core
  import opened Leb128
  import opened RuntimeState
  import opened Decoders
  import opened Machine
  import opened Nesting
  import opened Jobs
  import opened CallRuns
  import opened JitPrograms
  import opened OpcodeIndex
  import opened JitCache

  function Bodies(env: Env): seq<seq<byte>> {
    seq(|env.wasm.functions|, i requires 0 <= i < |env.wasm.functions| => env.wasm.functions[i].body)
  }

  ghost predicate Good(env: Env, c: Cache) {
    CacheOk(env, Bodies(env), c)
  }

  /** What a good cache gives about one slot. */
  lemma GoodSlot(env: Env, c: Cache, f: nat)
    requires Good(env, c) && f < |c.entries|
    ensures |c.entries| == |env.wasm.functions| && c.entries[f].bodySize == |env.wasm.functions[f].body|
    ensures IndexOk(c.entries[f].index, env.wasm.functions[f].body)
    ensures c.entries[f].index.slots == [] || |c.entries[f].index.slots| == c.entries[f].bodySize
  {
    hide SumBytes, FromPrefix, PrepareProgram;
    assert EntryOk(env, Bodies(env)[f], c.entries[f]);
    KeptShape(c.entries[f].index, Bodies(env)[f]);
  }

  lemma GoodSize(env: Env, c: Cache)
    requires Good(env, c)
    ensures |c.entries| == |env.wasm.functions|
  {
    hide EntryOk, FromPrefix, SumBytes;
  }

  lemma {:induction false} PrescanAppends(multi: bool, body: seq<byte>, cursor: nat, ix: Index)
    requires IndexOk(ix, body) && (ix.slots == [] || |ix.slots| == |body|)
    ensures ix.opcodes <= PrescanFrom(multi, body, cursor, ix).1.opcodes
    decreases |body| - cursor
  {
    hide IndexOk, PrescanSkip, Record, Recorded;
    if cursor < |body| {
      RecordKeepsIndex(ix, body, cursor);
      KeptShape(Record(ix, |body|, cursor, body[cursor]), body);
      var next := PrescanSkip(multi, body, cursor + 1, body[cursor]);
      if next.Success? {
        PrescanAppends(multi, body, next.value, Record(ix, |body|, cursor, body[cursor]));
      }
    }
  }

  lemma PrescanKeepsEntry(multi: bool, body: seq<byte>, ix: Index)
    requires IndexOk(ix, body)
    ensures (ix.slots == [] || |ix.slots| == |body|) && IndexOk(Prescan(multi, body, ix).1, body)
    ensures ix.opcodes <= Prescan(multi, body, ix).1.opcodes
  {
    hide IndexOk;
    KeptShape(ix, body);
    var start := LocalsEnd(body);
    if start.Success? {
      PrescanKeepsIndex(multi, body, start.value, ix);
      PrescanAppends(multi, body, start.value, ix);
    }
  }

  /** A slot whose index only grows stays good. */
  lemma GrowIndex(env: Env, c: Cache, f: nat, ix: Index)
    requires Good(env, c) && f < |c.entries|
    requires IndexOk(ix, Bodies(env)[f]) && c.entries[f].index.opcodes <= ix.opcodes
    ensures Good(env, Put(c, f, c.entries[f].(index := ix)))
  {
    hide IndexOk, FromPrefix, SumBytes;
    var e := c.entries[f];
    if e.program != [] {
      PrefixSurvives(env, e.index, ix, e.program);
    }
    if f in c.disk {
      PrefixSurvives(env, e.index, ix, c.disk[f]);
    }
    PutKeepsCache(env, Bodies(env), c, f, e.(index := ix), c.bytes);
  }

  // ------------------------------------------------------ whether a body walks

  /** How the prescan of a body ends, which no index can change. */
  function PrescanStatus(multi: bool, body: seq<byte>): Status {
    Prescan(multi, body, EMPTY_INDEX).0
  }

  lemma {:induction false} WalkIgnoresIndex(multi: bool, body: seq<byte>, cursor: nat, a: Index, b: Index)
    requires a.slots == [] || |a.slots| == |body|
    requires b.slots == [] || |b.slots| == |body|
    ensures PrescanFrom(multi, body, cursor, a).0 == PrescanFrom(multi, body, cursor, b).0
    decreases |body| - cursor
  {
    hide PrescanSkip;
    if cursor < |body| {
      var next := PrescanSkip(multi, body, cursor + 1, body[cursor]);
      if next.Success? {
        WalkIgnoresIndex(multi, body, next.value, Record(a, |body|, cursor, body[cursor]),
                         Record(b, |body|, cursor, body[cursor]));
      }
    }
  }

  lemma StatusIgnoresIndex(multi: bool, body: seq<byte>, ix: Index)
    requires ix.slots == [] || |ix.slots| == |body|
    ensures Prescan(multi, body, ix).0 == PrescanStatus(multi, body)
  {
    var start := LocalsEnd(body);
    if start.Success? {
      WalkIgnoresIndex(multi, body, start.value, ix, EMPTY_INDEX);
    }
  }

  /** Imported functions have no body to walk. */
  predicate Walks(env: Env, f: nat)
    requires f < |env.wasm.functions|
  {
    env.wasm.functions[f].imported || PrescanStatus(env.MultiMemory(), env.wasm.functions[f].body) == Ok
  }

  predicate AllWalk(env: Env) {
    forall f :: 0 <= f < |env.wasm.functions| ==> Walks(env, f)
  }

  /** How the first body from `f` on that does not walk ends; `Ok` when there is none. */
  function FirstFailure(env: Env, f: nat): (s: Status)
    requires f <= |env.wasm.functions|
    ensures s == Ok <==> forall k :: f <= k < |env.wasm.functions| ==> Walks(env, k)
    decreases |env.wasm.functions| - f
  {
    if f == |env.wasm.functions| then Ok
    else if !Walks(env, f) then PrescanStatus(env.MultiMemory(), env.wasm.functions[f].body)
    else FirstFailure(env, f + 1)
  }

  // ------------------------------------------------------------ the prescan

  /** What the configuration allows a prescan to prepare right away. */
  datatype Precompile = Precompile(allowed: bool, maxOps: nat, maxChunks: nat, budget: nat, hooks: Hooks)

  /** The prescan of one function: its status, the cache, and how many programs are prepared so far. */
  ghost function PrescanSlot(env: Env, c: Cache, f: nat, p: Precompile, prepared: nat): (Status, Cache, nat)
    requires Good(env, c) && f < |c.entries|
  {
    GoodSlot(env, c, f);
    var (status, index) := Prescan(env.MultiMemory(), env.wasm.functions[f].body, c.entries[f].index);
    var c' := Put(c, f, c.entries[f].(index := index));
    var n := ChunkSize(|index.opcodes|, p.maxOps);
    if status != Ok then (status, c', prepared)
    else if p.allowed && env.microcodeEnabled && n > 0 && (p.maxChunks == 0 || prepared < p.maxChunks) &&
            p.budget > 0 && Fitting(c', p.budget, ProgramBytes(n)) then
      var (c'', done) := PrepareSlot(env, c', f, n, p.budget, p.hooks);
      (Ok, c'', if done then prepared + 1 else prepared)
    else (Ok, c', prepared)
  }

  lemma PrescanSlotKeeps(env: Env, c: Cache, f: nat, p: Precompile, prepared: nat)
    requires Good(env, c) && f < |c.entries|
    ensures var (status, c', _) := PrescanSlot(env, c, f, p, prepared);
            && Good(env, c') && Capped(c.bytes, c'.bytes, p.budget)
            && status == PrescanStatus(env.MultiMemory(), env.wasm.functions[f].body)
  {
    hide CacheOk, IndexOk, Prescan, PrepareSlot, PrescanStatus;
    GoodSlot(env, c, f);
    var body := Bodies(env)[f];
    StatusIgnoresIndex(env.MultiMemory(), body, c.entries[f].index);
    PrescanKeepsEntry(env.MultiMemory(), body, c.entries[f].index);
    var index := Prescan(env.MultiMemory(), body, c.entries[f].index).1;
    GrowIndex(env, c, f, index);
    var c' := Put(c, f, c.entries[f].(index := index));
    PrepareKeepsCache(env, Bodies(env), c', f, ChunkSize(|index.opcodes|, p.maxOps), p.budget, p.hooks);
  }

  /** All internal functions from `f` on, in order, up to the first that fails. */
  ghost function PrescanFunctions(env: Env, c: Cache, f: nat, p: Precompile, prepared: nat): (Status, Cache)
    requires Good(env, c) && f <= |env.wasm.functions|
    decreases |env.wasm.functions| - f
  {
    if f == |env.wasm.functions| then (Ok, c)
    else if env.wasm.functions[f].imported then PrescanFunctions(env, c, f + 1, p, prepared)
    else
      GoodSize(env, c);
      PrescanSlotKeeps(env, c, f, p, prepared);
      var (status, c', prepared') := PrescanSlot(env, c, f, p, prepared);
      if status != Ok then (status, c') else PrescanFunctions(env, c', f + 1, p, prepared')
  }

  /** A prescan of the module succeeds exactly when every internal body walks, and otherwise ends like
      the first that does not; either way the cache stays good and under the budget. */
  lemma {:induction false} PrescanEndsLike(env: Env, c: Cache, f: nat, p: Precompile, prepared: nat)
    requires Good(env, c) && f <= |env.wasm.functions|
    ensures var (status, c') := PrescanFunctions(env, c, f, p, prepared);
            status == FirstFailure(env, f) && Good(env, c') && Capped(c.bytes, c'.bytes, p.budget)
    decreases |env.wasm.functions| - f
  {
    hide Good, PrescanSlot, PrescanStatus;
    if f < |env.wasm.functions| {
      if env.wasm.functions[f].imported {
        PrescanEndsLike(env, c, f + 1, p, prepared);
      } else {
        GoodSize(env, c);
        PrescanSlotKeeps(env, c, f, p, prepared);
        var (status, c', prepared') := PrescanSlot(env, c, f, p, prepared);
        if status == Ok {
          PrescanEndsLike(env, c', f + 1, p, prepared');
        }
      }
    }
  }

  // --------------------------------------------------- what a prescan leaves

  /** The index of function `f` knows every position that the linear decode of its body leads to. */
  ghost predicate Knows(env: Env, c: Cache, f: nat)
    requires f < |c.entries| == |env.wasm.functions|
  {
    var multi, body := env.MultiMemory(), env.wasm.functions[f].body;
    LocalsEnd(body).Success? && forall n: nat :: KnowsPlace(multi, body, c.entries[f].index, n)
  }

  ghost predicate KnowsPlace(multi: bool, body: seq<byte>, ix: Index, n: nat)
    requires LocalsEnd(body).Success?
  {
    var p := Walk(multi, body, Place(LocalsEnd(body).value, 1), n);
    p.Some? && p.value.pc < |body| ==> Recorded(ix, p.value.pc)
  }

  /** The conditions under which a prescan prepares what it has just recorded. */
  predicate Precompiles(env: Env, c: Cache, ix: Index, p: Precompile, prepared: nat) {
    var n := Chunk(|ix.opcodes|, p.maxOps);
    && p.allowed && env.microcodeEnabled && n > 0 && (p.maxChunks == 0 || prepared < p.maxChunks)
    && p.budget > 0 && c.bytes + n * 48 <= p.budget && forall k :: 0 <= k < n ==> PrepareOp(env, ix.opcodes[k]).Some?
  }

  /** The prescan of a function fills its index and no other. If it succeeds and the configuration, the
      number of programs so far and the budget allow, the slot holds the preparation of the first opcodes,
      one by one, and one program more is counted; otherwise its program is the one it had. */
  lemma PrescanSlotDoes(env: Env, c: Cache, f: nat, p: Precompile, prepared: nat)
    requires Good(env, c) && f < |c.entries| == |env.wasm.functions|
    requires c.entries[f].index.slots == [] || |c.entries[f].index.slots| == |env.wasm.functions[f].body|
    ensures var (status, c', count) := PrescanSlot(env, c, f, p, prepared);
            var (_, ix) := Prescan(env.MultiMemory(), env.wasm.functions[f].body, c.entries[f].index);
            && |c'.entries| == |c.entries| && c'.entries[f].index == ix
            && (forall i :: 0 <= i < |c.entries| && i != f ==> c'.entries[i].index == c.entries[i].index)
            && (if status == Ok && Precompiles(env, c, ix, p, prepared) then
                  && count == prepared + 1 && c'.entries[f].ready
                     && |c'.entries[f].program| == Chunk(|ix.opcodes|, p.maxOps)
                  && forall k :: 0 <= k < |c'.entries[f].program| ==>
                       PrepareOp(env, ix.opcodes[k]) == Some(c'.entries[f].program[k])
                else count == prepared && c'.entries[f].program == c.entries[f].program)
  {
    hide CacheOk, IndexOk, Prescan, PrepareSlot, PrepareOp, HasRoom;
    var body := Bodies(env)[f];
    GoodSlot(env, c, f);
    PrescanKeepsEntry(env.MultiMemory(), body, c.entries[f].index);
    var ix := Prescan(env.MultiMemory(), body, c.entries[f].index).1;
    GrowIndex(env, c, f, ix);
    var c1, n := Put(c, f, c.entries[f].(index := ix)), Chunk(|ix.opcodes|, p.maxOps);
    if n > 0 {
      PrepareSlotDoes(env, Bodies(env), c1, f, n, p.budget, p.hooks);
      PrepareExactly(env, Bodies(env), c1, f, n, p.budget, p.hooks);
      PrepareKeepsCache(env, Bodies(env), c1, f, n, p.budget, p.hooks);
      if c.bytes + n * 48 <= p.budget {
        FitHasRoom(env, c1, f, p.budget, n * 48);
      }
      EachPrepares(env, ix.opcodes[..n]);
      assert forall k :: 0 <= k < n ==> ix.opcodes[..n][k] == ix.opcodes[k];
    }
  }

  lemma FitHasRoom(env: Env, c: Cache, f: nat, budget: nat, need: nat)
    requires Good(env, c) && f < |c.entries| && c.bytes + need <= budget
    ensures HasRoom(c, budget, need, f)
  {
    hide EntryOk, FromPrefix;
    SumAtLeast(c.entries, f);
  }

  lemma EachPrepares(env: Env, opcodes: seq<byte>)
    requires opcodes != []
    ensures PrepareProgram(env, opcodes).Some? <==> forall k :: 0 <= k < |opcodes| ==> PrepareOp(env, opcodes[k]).Some?
  {
    hide PrepareOp;
  }

  lemma SlotKnows(env: Env, c: Cache, f: nat, p: Precompile, prepared: nat)
    requires Good(env, c) && f < |c.entries| == |env.wasm.functions| && PrescanSlot(env, c, f, p, prepared).0 == Ok
    ensures var c' := PrescanSlot(env, c, f, p, prepared).1;
            |c'.entries| == |c.entries| && Knows(env, c', f)
    ensures var c' := PrescanSlot(env, c, f, p, prepared).1;
            forall i :: 0 <= i < |c.entries| && i != f ==> c'.entries[i].index == c.entries[i].index
  {
    hide CacheOk, IndexOk, PrepareSlot, Precompiles, Recorded;
    GoodSlot(env, c, f);
    PrescanSlotDoes(env, c, f, p, prepared);
    var multi, body := env.MultiMemory(), env.wasm.functions[f].body;
    var ix, start := c.entries[f].index, LocalsEnd(body).value;
    forall n: nat
      ensures KnowsPlace(multi, body, Prescan(multi, body, ix).1, n)
    {
      var place := Walk(multi, body, Place(start, 1), n);
      if place.Some? && place.value.pc < |body| {
        PrescanRecordsWalk(multi, body, Place(start, 1), ix, n);
      }
    }
  }

  /** A prescan that succeeds leaves every function with a body known. */
  lemma {:induction false} PrescanFills(env: Env, c: Cache, f: nat, p: Precompile, prepared: nat)
    requires Good(env, c) && f <= |c.entries| == |env.wasm.functions|
    requires forall k :: 0 <= k < f && !env.wasm.functions[k].imported ==> Knows(env, c, k)
    requires PrescanFunctions(env, c, f, p, prepared).0 == Ok
    ensures var c' := PrescanFunctions(env, c, f, p, prepared).1;
            && |c'.entries| == |env.wasm.functions|
            && forall k :: 0 <= k < |env.wasm.functions| && !env.wasm.functions[k].imported ==> Knows(env, c', k)
    decreases |env.wasm.functions| - f
  {
    hide Good, PrescanSlot, KnowsPlace;
    if f < |env.wasm.functions| {
      if env.wasm.functions[f].imported {
        PrescanFills(env, c, f + 1, p, prepared);
      } else {
        PrescanSlotKeeps(env, c, f, p, prepared);
        var (status, c', prepared') := PrescanSlot(env, c, f, p, prepared);
        SlotKnows(env, c, f, p, prepared);
        PrescanFills(env, c', f + 1, p, prepared');
      }
    }
  }

  // -------------------------------------------------------- attach and start

  /** The cache of a freshly attached module; a prescan that fails refuses the module. */
  ghost function Attach(env: Env, prescan: bool, p: Precompile): Result<Cache> {
    FreshCacheOk(env, Bodies(env));
    if !prescan then Success(FreshCache(Bodies(env)))
    else
      var (status, c) := PrescanFunctions(env, FreshCache(Bodies(env)), 0, p, 0);
      if status != Ok then Failure(status) else Success(c)
  }

  /** Attaching under a prescan accepts exactly the modules all of whose bodies walk. */
  lemma AttachExactly(env: Env, prescan: bool, p: Precompile)
    ensures Attach(env, prescan, p).Success? <==> !prescan || AllWalk(env)
    ensures Attach(env, prescan, p).Failure? ==> Attach(env, prescan, p).error == FirstFailure(env, 0)
    ensures Attach(env, prescan, p).Success? ==>
              Good(env, Attach(env, prescan, p).value)
                  && (p.budget > 0 ==> Attach(env, prescan, p).value.bytes <= p.budget)
  {
    hide CacheOk, PrescanFunctions, FirstFailure, Walks;
    FreshCacheOk(env, Bodies(env));
    PrescanEndsLike(env, FreshCache(Bodies(env)), 0, p, 0);
  }

  /** After an attach with a prescan, every position that any job ever executes, in whatever function and
      however it got there, is already in the cache. */
  lemma AttachCoversRuns(env: Env, p: Precompile, func: nat, args: seq<Value>, store: Store, n: nat, i: nat)
    requires Attach(env, true, p).Success?
    requires var job := RunJob(env, StartJob(env, func, args, store), n); job.Executing? && i < |job.frames|
    ensures var f, c := RunJob(env, StartJob(env, func, args, store), n).frames[i], Attach(env, true, p).value;
            f.func < |c.entries| && (f.pc < |f.body| ==> Recorded(c.entries[f.func].index, f.pc))
  {
    hide StartJob, RunJob, CacheOk, Recorded, ParseLocals, LocalsEnd, Bracketed, PrescanFunctions, KnowsPlace;
    FreshCacheOk(env, Bodies(env));
    PrescanFills(env, FreshCache(Bodies(env)), 0, p, 0);
    StartJobOk(env, func, args, store);
    RunJobOk(env, StartJob(env, func, args, store), n);
    RunStaysInternal(env, func, args, store, n);
    var f, c := RunJob(env, StartJob(env, func, args, store), n).frames[i], Attach(env, true, p).value;
    assert FrameOk(env, f) && Knows(env, c, f.func);
    if f.pc < |f.body| {
      InStepLeads(env.MultiMemory(), f.body, f.codeStart, f.control, f.pc);
      var k: nat :| Walk(env.MultiMemory(), f.body, Place(f.codeStart, 1), k) == Some(Place(f.pc, |f.control|));
      LocalsEndAlike(env, f.func);
      KnownPlace(env, c, f.func, k, f.pc);
    }
  }

  lemma KnownPlace(env: Env, c: Cache, f: nat, n: nat, pc: nat)
    requires f < |c.entries| == |env.wasm.functions| && Knows(env, c, f) && pc < |env.wasm.functions[f].body|
    requires var p := Walk(env.MultiMemory(), env.wasm.functions[f].body,
                           Place(LocalsEnd(env.wasm.functions[f].body).value, 1), n);
             p.Some? && p.value.pc == pc
    ensures Recorded(c.entries[f].index, pc)
  {
    assert KnowsPlace(env.MultiMemory(), env.wasm.functions[f].body, c.entries[f].index, n);
  }

  /** A job and the cache it runs with. */
  datatype JitJob = JitJob(job: Job, cache: Cache)

  /** Starting a job: with `force` set and no prescan behind it, the module is prescanned first, and a
      failure ends the job before any frame exists. The flag says whether a prescan is now behind. */
  ghost function StartJitJob(env: Env, func: nat, args: seq<Value>, store: Store, c: Cache, force: bool,
        prescanned: bool, p: Precompile): (JitJob, bool)
    requires Good(env, c)
  {
    if Refused(env, func, args) || !force || prescanned then (JitJob(StartJob(env, func, args, store), c), prescanned)
    else
      var (status, c') := PrescanFunctions(env, c, 0, p, 0);
      if status != Ok then (JitJob(Done(status, Shared(args, [], 0, store)), c'), false)
      else (JitJob(StartJob(env, func, args, store), c'), true)
  }

  /** A start is the plain start unless it is forced to prescan a module with a body that does not
      walk; then the job is over, with the status of the first such body. */
  lemma StartExactly(env: Env, func: nat, args: seq<Value>, store: Store, c: Cache, force: bool, prescanned: bool,
        p: Precompile)
    requires Good(env, c)
    ensures var (j, scanned) := StartJitJob(env, func, args, store, c, force, prescanned, p);
            && Good(env, j.cache) && Capped(c.bytes, j.cache.bytes, p.budget)
            && j.job == (if !Refused(env, func, args) && force && !prescanned && !AllWalk(env)
                         then Done(FirstFailure(env, 0), Shared(args, [], 0, store))
                         else StartJob(env, func, args, store))
            && (scanned <==> prescanned || (!Refused(env, func, args) && force && AllWalk(env)))
  {
    hide CacheOk, PrescanFunctions, FirstFailure, Walks, StartJob, Refused;
    PrescanEndsLike(env, c, 0, p, 0);
  }

  /** For a job that a plain start gets going, a forced first start does the same if and only if every
      internal body walks, which a caller can find out beforehand. */
  lemma ForcedStartExactly(env: Env, func: nat, args: seq<Value>, store: Store, c: Cache, p: Precompile)
    requires Good(env, c) && StartJob(env, func, args, store).Executing?
    ensures StartJitJob(env, func, args, store, c, true, false, p).0.job == StartJob(env, func, args, store)
            <==> AllWalk(env)
  {
    hide CallFunction, AllWalk, FirstFailure, StartJitJob;
    StartExactly(env, func, args, store, c, true, false, p);
  }

  /** The condition is not idle: behind a `return`, where no job gets, a byte pair that is no
      instruction ends the prescan, although the function itself runs to its end. */
  lemma DeadBytesStopPrescan(env: Env, store: Store)
    requires env.wasm.types == [FuncType([], [])]
             && env.wasm.functions == [Function(0, false, [0x00, 0x0F, 0xFC, 0x12, 0x0B])]
    ensures FirstFailure(env, 0) == Unimplemented && !AllWalk(env)
    ensures RunJob(env, StartJob(env, 0, [], store), 2) == Done(Ok, Shared([], [], 0, store))
  {
    DeadBytesPrescan(env);
    DeadBytesRun(env, store);
  }

  lemma DeadBytesPrescan(env: Env)
    requires env.wasm.functions == [Function(0, false, [0x00, 0x0F, 0xFC, 0x12, 0x0B])]
    ensures !Walks(env, 0) && FirstFailure(env, 0) == Unimplemented
  {
    var multi, body := env.MultiMemory(), env.wasm.functions[0].body;
    assert LocalsEnd(body) == Success(1);
    assert ReadULeb(body, 3) == Success(Leb(18, 4));
    assert PrescanSkip(multi, body, 3, 0xFC) == Failure(Unimplemented);
    var ix := Record(EMPTY_INDEX, 5, 1, 0x0F);
    assert PrescanFrom(multi, body, 2, ix).0 == Unimplemented;
    assert PrescanFrom(multi, body, 1, EMPTY_INDEX).0 == Unimplemented;
  }

  lemma DeadBytesStart(env: Env, store: Store)
    requires env.wasm.types == [FuncType([], [])]
             && env.wasm.functions == [Function(0, false, [0x00, 0x0F, 0xFC, 0x12, 0x0B])]
    ensures var body := env.wasm.functions[0].body;
            StartJob(env, 0, [], store)
            == Executing([Frame(0, body, 1, 1, [FunctionFrame(1, body, [])], [])], Shared([], [], 0, store))
  {
    var body := env.wasm.functions[0].body;
    assert ReadULeb(body, 0) == Success(Leb(0, 1));
    assert ParseLocals(env, 0) == Success(([], 1));
  }

  lemma DeadBytesRun(env: Env, store: Store)
    requires env.wasm.types == [FuncType([], [])]
             && env.wasm.functions == [Function(0, false, [0x00, 0x0F, 0xFC, 0x12, 0x0B])]
    ensures RunJob(env, StartJob(env, 0, [], store), 2) == Done(Ok, Shared([], [], 0, store))
  {
    hide StartJob, ParseLocals, ReadULeb;
    var body := env.wasm.functions[0].body;
    var s := Shared([], [], 0, store);
    var frame := Frame(0, body, 1, 1, [FunctionFrame(1, body, [])], []);
    DeadBytesStart(env, store);
    assert Decode(env, body, 1) == Success(Decoded(Control(Return), 2));
    assert Step(env, body, 1, frame.control, MachOf(s, [])) == Finished(MachOf(s, []));
    assert JobStep(env, Executing([frame], s)) == Executing([], s);
    assert RunJob(env, Executing([], s), 1) == Done(Ok, s);
  }
}
