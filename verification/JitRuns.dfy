/** The execution loop with the program cache switched on. However programs are recorded, prepared,
    evicted, spilled and reloaded along the way, the job does what it does without them. */
module JitRuns {
  import opened Core
  import opened RuntimeState
  import opened Decoders
  import opened Machine
  import opened Nesting
  import opened Jobs
  import opened JitPrograms
  import opened OpcodeIndex
  import opened JitCache
  import opened JitStart

  /** Calls of the spill interface that may happen between instructions; a load makes room within the
      budget of that moment. */
  datatype Request = SpillProgram(f: nat) | LoadProgram(f: nat, budget: nat)

  /** The tier decision, which is taken anew again and again: microcode or not, and the limits. */
  datatype Decision = Decision(micro: bool, maxOps: nat, budget: nat)

  /** Everything the surroundings decide during one turn: requests before it, the decision in force,
      the decision after a loop branch that turns hot, and how the hooks behave. */
  datatype Choice = Choice(requests: seq<Request>, now: Decision, hot: Option<Decision>, hooks: Hooks)

  // ------------------------------------------------------------- requests

  function Serve(env: Env, c: Cache, r: Request, hooks: Hooks): Cache {
    if r.f >= |c.entries| then c
    else
      match r
      case SpillProgram(f) => if !c.entries[f].ready || c.entries[f].program == [] then c else Evict(c, f, hooks)
      case LoadProgram(f, budget) => if c.entries[f].ready then c else Load(c, f, budget, hooks).0
  }

  function ServeAll(env: Env, c: Cache, requests: seq<Request>, hooks: Hooks): Cache
    decreases |requests|
  {
    if requests == [] then c else ServeAll(env, Serve(env, c, requests[0], hooks), requests[1..], hooks)
  }

  /** Spilling only gives bytes back; loading stays within its budget; both keep the cache good. */
  lemma ServeKeepsCache(env: Env, c: Cache, r: Request, hooks: Hooks)
    requires Good(env, c)
    ensures Good(env, Serve(env, c, r, hooks))
    ensures match r
            case SpillProgram(_) => Serve(env, c, r, hooks).bytes <= c.bytes
            case LoadProgram(_, budget) => Capped(c.bytes, Serve(env, c, r, hooks).bytes, budget)
  {
    hide EntryOk, FromPrefix, SumBytes, Evict, Load;
    GoodSize(env, c);
    if r.f < |c.entries| {
      match r {
        case SpillProgram(f) => EvictKeepsCache(env, Bodies(env), c, f, hooks);
        case LoadProgram(f, budget) => LoadKeepsCache(env, Bodies(env), c, f, budget, hooks);
      }
    }
  }

  /** A spill request empties a ready slot and gives its bytes back; the slot counts as spilled, and the
      hook holds its program, exactly when there is a hook that takes it. A load request brings the program
      last spilled back into a slot without one, exactly when hook, index, program and room are there.
      Every other request leaves the slot as it was. */
  lemma ServeDoes(env: Env, c: Cache, r: Request, hooks: Hooks)
    requires Good(env, c) && r.f < |c.entries|
    ensures var before, after, c' := c.entries[r.f], Serve(env, c, r, hooks).entries[r.f], Serve(env, c, r, hooks);
            match r
            case SpillProgram(f) =>
              if !before.ready then c' == c
              else
                && !after.ready && after.program == [] && c'.bytes == c.bytes - before.bytes
                && after.spilled == (hooks.hasSpill && hooks.spillOk(f))
                && (after.spilled ==> f in c'.disk && c'.disk[f] == before.program)
            case LoadProgram(f, budget) =>
              if before.ready then c' == c
              else if hooks.hasLoad && before.index.slots != [] && f in c.disk && hooks.loadOk(f) &&
                      HasRoom(c, budget, |c.disk[f]| * 48, f)
              then after.ready && !after.spilled && after.program == c.disk[f]
              else after == before
  {
    hide CacheOk, Load, Release, HasRoom;
    GoodSize(env, c);
    var bodies := Bodies(env);
    ReadyExactly(env, c, r.f);
    match r {
      case SpillProgram(f) =>
        EvictKeepsCache(env, bodies, c, f, hooks);
        ReleaseKeepsCache(env, bodies, c, f);
        EvictDoes(env, bodies, c, f, hooks);
      case LoadProgram(f, budget) =>
        LoadExactly(env, bodies, c, f, budget, hooks);
        FailedLoadStays(env, bodies, c, f, budget, hooks);
    }
  }

  lemma ReadyExactly(env: Env, c: Cache, f: nat)
    requires Good(env, c) && f < |c.entries|
    ensures c.entries[f].ready <==> c.entries[f].program != []
  {
    hide FromPrefix, IndexOk, SumBytes;
    GoodSize(env, c);
    assert EntryOk(env, Bodies(env)[f], c.entries[f]);
  }

  lemma {:induction false} ServeAllKeepsCache(env: Env, c: Cache, requests: seq<Request>, hooks: Hooks)
    requires Good(env, c)
    ensures Good(env, ServeAll(env, c, requests, hooks))
    decreases |requests|
  {
    hide Good, Serve;
    if requests != [] {
      ServeKeepsCache(env, c, requests[0], hooks);
      ServeAllKeepsCache(env, Serve(env, c, requests[0], hooks), requests[1..], hooks);
    }
  }

  // ------------------------------------------------------------ the loop

  /** A slot brought up to date under a decision. */
  ghost function Refreshed(env: Env, c: Cache, f: nat, d: Decision, hooks: Hooks): (r: Cache)
    requires Good(env, c)
    ensures Good(env, r) && Capped(c.bytes, r.bytes, d.budget)
  {
    hide CacheOk, MaybePrepare;
    GoodSlots(env, c, f);
    MaybePrepareKeepsCache(env, Bodies(env), c, f, d.micro, d.maxOps, d.budget, hooks);
    MaybePrepare(env, c, f, d.micro, d.maxOps, d.budget, hooks)
  }

  lemma GoodSlots(env: Env, c: Cache, f: nat)
    requires Good(env, c)
    ensures f < |c.entries| ==> c.entries[f].index.slots == [] || |c.entries[f].index.slots| == c.entries[f].bodySize
  {
    if f < |c.entries| {
      GoodSlot(env, c, f);
    }
  }

  /** The opcode about to run is recorded. */
  ghost function Noted(env: Env, c: Cache, f: nat, pc: nat): (r: Cache)
    requires Good(env, c) && f < |env.wasm.functions| && pc < |env.wasm.functions[f].body|
    ensures Good(env, r) && r.bytes == c.bytes
  {
    hide CacheOk, RecordAt;
    GoodSlots(env, c, f);
    RecordKeepsCache(env, Bodies(env), c, f, pc);
    RecordAt(c, f, pc, env.wasm.functions[f].body[pc])
  }

  ghost predicate Ready(env: Env, j: JitJob) {
    JobOk(env, j.job) && Good(env, j.cache)
  }

  /** The frame that runs next and the instruction it has come to, if there is one to decode. */
  ghost predicate Decodes(env: Env, job: Job) {
    job.Executing? && job.frames != [] &&
    var top := job.frames[|job.frames| - 1];
    top.pc < |top.body| && Decode(env, top.body, top.pc).Success?
  }

  lemma TopIsKnown(env: Env, job: Job)
    requires JobOk(env, job) && Decodes(env, job)
    ensures var top := job.frames[|job.frames| - 1];
            top.func < |env.wasm.functions| && top.body == env.wasm.functions[top.func].body
  {
    hide Reachable, ParseLocals, Decode;
    assert FrameOk(env, job.frames[|job.frames| - 1]);
  }

  /** One turn with the cache: decode, record, bring the slot up to date, then run control directly
      and anything else through a prepared operation when there is one. */
  ghost function JitStep(env: Env, j: JitJob, ch: Choice): JitJob
    requires Ready(env, j)
  {
    hide JobOk, Good, Decode, Advance, Lookup;
    ServeAllKeepsCache(env, j.cache, ch.requests, ch.hooks);
    var c0 := ServeAll(env, j.cache, ch.requests, ch.hooks);
    if !Decodes(env, j.job) then JitJob(JobStep(env, j.job), c0)
    else
      TopIsKnown(env, j.job);
      var top := j.job.frames[|j.job.frames| - 1];
      var c1 := Refreshed(env, Noted(env, c0, top.func, top.pc), top.func, ch.now, ch.hooks);
      var d := Decode(env, top.body, top.pc).value;
      match d.instruction
      case Control(_) =>
        JitJob(JobStep(env, j.job), if ch.hot.Some? then Refreshed(env, c1, top.func, ch.hot.value, ch.hooks) else c1)
      case Plain(op, imms) =>
        var m := PushImms(MachOf(j.job.shared, top.locals), imms);
        if env.ops(op).operation.None? then JitJob(Advance(env, j.job, Fault(Unimplemented, m)), c1)
        else
          var (c2, hit) := Lookup(env, c1, top.func, top.pc, ch.now.micro, ch.now.budget, ch.hooks);
          var result := if hit.Some? then ExecutePrepared(env, hit.value, m) else ExecuteOp(env, op, m);
          JitJob(Advance(env, j.job, AfterPlain(op, d.next, top.control, result)), c2)
  }

  /** Every opcode's microcode, if it has any, fits a prepared operation. */
  ghost predicate AllFit(env: Env) {
    forall op: byte :: Fits(env, op)
  }

  lemma PlainOpcode(env: Env, body: seq<byte>, pc: nat)
    requires pc < |body| && Decode(env, body, pc).Success? && Decode(env, body, pc).value.instruction.Plain?
    ensures Decode(env, body, pc).value.instruction.op == body[pc]
  {
  }

  lemma PlainTurn(env: Env, op: byte, m: Mach)
    requires AllFit(env)
    ensures env.ops(op).operation.None? ==> ExecuteOp(env, op, m) == (m, Unimplemented)
    ensures env.ops(op).operation.Some? ==>
      PrepareOp(env, op).Some? && ExecutePrepared(env, PrepareOp(env, op).value, m) == ExecuteOp(env, op, m)
  {
    if env.ops(op).operation.Some? {
      PreparedIsDispatch(env, op, m);
    }
  }

  /** One turn with the cache is one turn without it, and keeps the cache good, at any budget. */
  lemma JitStepIsJobStep(env: Env, j: JitJob, ch: Choice)
    requires AllFit(env) && Ready(env, j)
    ensures JitStep(env, j, ch).job == JobStep(env, j.job)
    ensures Good(env, JitStep(env, j, ch).cache)
  {
    hide JobOk, CacheOk, Refreshed, Noted, Lookup, Decode, ExecuteControl, ExecuteOp, ExecutePrepared, PrepareOp,
         ServeAll;
    ServeAllKeepsCache(env, j.cache, ch.requests, ch.hooks);
    var c0 := ServeAll(env, j.cache, ch.requests, ch.hooks);
    if Decodes(env, j.job) {
      TopIsKnown(env, j.job);
      var top := j.job.frames[|j.job.frames| - 1];
      var c1 := Refreshed(env, Noted(env, c0, top.func, top.pc), top.func, ch.now, ch.hooks);
      match Decode(env, top.body, top.pc).value.instruction {
        case Control(_) =>
        case Plain(op, imms) =>
          PlainOpcode(env, top.body, top.pc);
          LookupFindsBody(env, Bodies(env), c1, top.func, top.pc, ch.now.micro, ch.now.budget, ch.hooks);
          PlainTurn(env, op, PushImms(MachOf(j.job.shared, top.locals), imms));
      }
    }
  }

  lemma JitStepReady(env: Env, j: JitJob, ch: Choice)
    requires AllFit(env) && Ready(env, j)
    ensures Ready(env, JitStep(env, j, ch))
  {
    hide JobOk, Good, JitStep, JobStep;
    JitStepIsJobStep(env, j, ch);
    JobStepOk(env, j.job);
  }

  ghost function JitRun(env: Env, j: JitJob, schedule: nat -> Choice, n: nat): JitJob
    requires AllFit(env) && Ready(env, j)
    decreases n
  {
    hide JobOk, Good, JitStep, AllFit;
    if n == 0 then j
    else
      JitStepReady(env, j, schedule(n));
      JitRun(env, JitStep(env, j, schedule(n)), schedule, n - 1)
  }

  /** Over whole runs: from a good cache, whatever the schedule of requests, decisions, budgets and hook
      behaviour, the job goes through exactly the states it goes through without the cache, and the
      cache stays consistent and accounts for every byte. */
  lemma {:induction false} JitTransparent(env: Env, j: JitJob, schedule: nat -> Choice, n: nat)
    requires AllFit(env) && Ready(env, j)
    ensures JitRun(env, j, schedule, n).job == RunJob(env, j.job, n)
    ensures Good(env, JitRun(env, j, schedule, n).cache)
    decreases n
  {
    hide JitStep, JobStep, JobOk, Good, AllFit;
    if n > 0 {
      JitStepReady(env, j, schedule(n));
      JitStepIsJobStep(env, j, schedule(n));
      JitTransparent(env, JitStep(env, j, schedule(n)), schedule, n - 1);
    }
  }

  // ------------------------------------------------- what the cache is for

  /** The slot of the running frame, and the position it has come to. */
  ghost function TopOf(env: Env, j: JitJob): (r: (nat, nat))
    requires Ready(env, j) && Decodes(env, j.job)
    ensures r.0 < |j.cache.entries| == |env.wasm.functions| && r.1 < |env.wasm.functions[r.0].body|
  {
    hide JobOk, Good, Decode;
    TopIsKnown(env, j.job);
    GoodSize(env, j.cache);
    var top := j.job.frames[|j.job.frames| - 1];
    (top.func, top.pc)
  }

  /** The decision in force when a turn ends: a control instruction may be a loop branch that turned hot. */
  ghost function LastDecision(env: Env, job: Job, ch: Choice): Decision
    requires Decodes(env, job)
  {
    var top := job.frames[|job.frames| - 1];
    if Decode(env, top.body, top.pc).value.instruction.Control? && ch.hot.Some? then ch.hot.value else ch.now
  }

  /** Every opcode has something to run. */
  ghost predicate AllPrepare(env: Env) {
    forall op: byte :: PrepareOp(env, op).Some?
  }

  lemma NotedDoes(env: Env, c: Cache, f: nat, pc: nat)
    requires Good(env, c) && f < |env.wasm.functions| && pc < |env.wasm.functions[f].body|
    ensures var r := Noted(env, c, f, pc);
            && f < |c.entries| == |r.entries| && Recorded(r.entries[f].index, pc) && r.entries[f].index.opcodes != []
            && r.entries[f].spilled == c.entries[f].spilled
  {
    hide CacheOk, IndexOk, Recorded;
    GoodSize(env, c);
    GoodSlot(env, c, f);
    RecordKeepsIndex(c.entries[f].index, Bodies(env)[f], pc);
    KnownIsListed(RecordAt(c, f, pc, Bodies(env)[f][pc]).entries[f].index, Bodies(env)[f], pc);
  }

  lemma KnownIsListed(ix: Index, body: seq<byte>, pc: nat)
    requires IndexOk(ix, body) && Recorded(ix, pc)
    ensures ix.slots[pc] < |ix.opcodes| && ix.opcodes != []
  {
  }

  /** Bringing a slot up to date leaves all indices alone. */
  lemma RefreshedKeepsIndex(env: Env, c: Cache, f: nat, d: Decision, hooks: Hooks)
    requires Good(env, c) && f < |c.entries|
    ensures var r := Refreshed(env, c, f, d, hooks);
            |r.entries| == |c.entries| && r.entries[f].index == c.entries[f].index
  {
    hide CacheOk, MaybePrepare;
    GoodSize(env, c);
    GoodSlots(env, c, f);
    MaybePrepareKeepsCache(env, Bodies(env), c, f, d.micro, d.maxOps, d.budget, hooks);
  }

  /** It spills nothing of the slot, and with no limits leaves everything recorded prepared. */
  lemma RefreshedDoes(env: Env, c: Cache, f: nat, d: Decision, hooks: Hooks)
    requires Good(env, c) && f < |c.entries| && c.entries[f].index.opcodes != [] && !c.entries[f].spilled
    ensures var r := Refreshed(env, c, f, d, hooks);
            && |r.entries| == |c.entries| && !r.entries[f].spilled
            && (d == Decision(true, 0, 0) && env.microcodeEnabled && AllPrepare(env) ==>
                  r.entries[f].ready && |r.entries[f].program| == |c.entries[f].index.opcodes|)
  {
    hide CacheOk, MaybePrepare, PrepareOp, HasRoom;
    GoodSize(env, c);
    GoodSlots(env, c, f);
    NoLimitIsRoom(c, |c.entries[f].index.opcodes| * 48, f);
    if d.micro && env.microcodeEnabled {
      MaybePrepareDoes(env, Bodies(env), c, f, d.maxOps, d.budget, hooks);
    } else {
      OffIsIdle(env, c, f, d, hooks);
    }
  }

  lemma NoLimitIsRoom(c: Cache, need: nat, f: nat)
    ensures HasRoom(c, 0, need, f)
  {
  }

  lemma OffIsIdle(env: Env, c: Cache, f: nat, d: Decision, hooks: Hooks)
    requires Good(env, c) && !(d.micro && env.microcodeEnabled)
    ensures Refreshed(env, c, f, d, hooks) == c
  {
    hide CacheOk;
  }

  /** The cache once the instruction is recorded and its slot brought up to date. */
  ghost function Prepared(env: Env, j: JitJob, ch: Choice): (c: Cache)
    requires Ready(env, j) && Decodes(env, j.job)
    ensures Good(env, c) && |c.entries| == |env.wasm.functions|
  {
    hide JobOk, CacheOk, ServeAll, Decode, Noted, Refreshed;
    var (f, pc) := TopOf(env, j);
    ServeAllKeepsCache(env, j.cache, ch.requests, ch.hooks);
    var c := Refreshed(env, Noted(env, ServeAll(env, j.cache, ch.requests, ch.hooks), f, pc), f, ch.now, ch.hooks);
    GoodSize(env, c);
    c
  }

  /** What a turn does to that cache: a branch that turned hot brings the slot up to date once more, and a
      plain instruction looks it up. */
  lemma TurnCache(env: Env, j: JitJob, ch: Choice)
    requires Ready(env, j) && Decodes(env, j.job)
    ensures var (f, pc), c, c' := TopOf(env, j), Prepared(env, j, ch), JitStep(env, j, ch).cache;
            || (LastDecision(env, j.job, ch) == ch.now && c' == c)
            || (ch.hot == Some(LastDecision(env, j.job, ch)) && c' == Refreshed(env, c, f, ch.hot.value, ch.hooks))
            || (LastDecision(env, j.job, ch) == ch.now &&
                c' == Lookup(env, c, f, pc, ch.now.micro, ch.now.budget, ch.hooks).0)
  {
    hide JobOk, Good, ServeAll, Decode, Noted, Refreshed, Lookup, Advance, JobStep, ExecutePrepared, ExecuteOp;
    ServeAllKeepsCache(env, j.cache, ch.requests, ch.hooks);
    TopIsKnown(env, j.job);
  }

  /** Every instruction a turn decodes is known to the cache when the turn ends. */
  lemma TurnRecords(env: Env, j: JitJob, ch: Choice)
    requires Ready(env, j) && Decodes(env, j.job)
    ensures var (f, pc), c := TopOf(env, j), JitStep(env, j, ch).cache;
            f < |c.entries| && Recorded(c.entries[f].index, pc)
  {
    hide JobOk, CacheOk, ServeAll, Decode, Noted, Refreshed, Lookup, JitStep, TopOf, LastDecision, Recorded;
    var (f, pc) := TopOf(env, j);
    ServeAllKeepsCache(env, j.cache, ch.requests, ch.hooks);
    var c0 := ServeAll(env, j.cache, ch.requests, ch.hooks);
    NotedDoes(env, c0, f, pc);
    RefreshedKeepsIndex(env, Noted(env, c0, f, pc), f, ch.now, ch.hooks);
    TurnCache(env, j, ch);
    var c := Prepared(env, j, ch);
    LookupKeepsIndices(env, Bodies(env), c, f, pc, ch.now.micro, ch.now.budget, ch.hooks);
    if ch.hot.Some? {
      RefreshedKeepsIndex(env, c, f, ch.hot.value, ch.hooks);
    }
  }

  lemma FullSlotHits(env: Env, c: Cache, f: nat, pc: nat, hooks: Hooks)
    requires Good(env, c) && f < |c.entries| && env.microcodeEnabled && Recorded(c.entries[f].index, pc)
    requires c.entries[f].ready && |c.entries[f].program| == |c.entries[f].index.opcodes|
    ensures f < |env.wasm.functions| && pc < |env.wasm.functions[f].body|
    ensures Lookup(env, c, f, pc, true, 0, hooks) == (c, PrepareOp(env, env.wasm.functions[f].body[pc]))
  {
    hide CacheOk, Lookup, IndexOk, PrepareOp;
    GoodSize(env, c);
    GoodSlot(env, c, f);
    KnownIsListed(c.entries[f].index, Bodies(env)[f], pc);
    LookupExactly(env, Bodies(env), c, f, pc, true, 0, hooks);
    LookupFindsBody(env, Bodies(env), c, f, pc, true, 0, hooks);
  }

  /** What the cache is for: where microcode is on without limits, every opcode has something to run and
      the slot is not spilled, any turn that decodes an instruction leaves it prepared, so that the next
      lookup of its position hits, whatever the slot held before. */
  lemma TurnMakesHit(env: Env, j: JitJob, ch: Choice, hooks: Hooks)
    requires Ready(env, j) && Decodes(env, j.job) && env.microcodeEnabled && AllPrepare(env)
    requires LastDecision(env, j.job, ch) == Decision(true, 0, 0)
    requires var f := TopOf(env, j).0; var c0 := ServeAll(env, j.cache, ch.requests, ch.hooks);
             f < |c0.entries| && !c0.entries[f].spilled
    ensures var (f, pc) := TopOf(env, j);
            Lookup(env, JitStep(env, j, ch).cache, f, pc, true, 0, hooks).1
            == PrepareOp(env, env.wasm.functions[f].body[pc])
  {
    hide JobOk, CacheOk, ServeAll, Decode, Noted, Refreshed, Lookup, JitStep, TopOf, LastDecision, Recorded, AllPrepare,
         PrepareOp;
    var (f, pc) := TopOf(env, j);
    ServeAllKeepsCache(env, j.cache, ch.requests, ch.hooks);
    var c0 := ServeAll(env, j.cache, ch.requests, ch.hooks);
    NotedDoes(env, c0, f, pc);
    RefreshedKeepsIndex(env, Noted(env, c0, f, pc), f, ch.now, ch.hooks);
    RefreshedDoes(env, Noted(env, c0, f, pc), f, ch.now, ch.hooks);
    var c := Prepared(env, j, ch);
    TurnCache(env, j, ch);
    if ch.now == Decision(true, 0, 0) {
      FullSlotHits(env, c, f, pc, ch.hooks);
      FullSlotHits(env, c, f, pc, hooks);
    }
    if ch.hot == Some(Decision(true, 0, 0)) {
      RefreshedKeepsIndex(env, c, f, ch.hot.value, ch.hooks);
      RefreshedDoes(env, c, f, ch.hot.value, ch.hooks);
      FullSlotHits(env, Refreshed(env, c, f, ch.hot.value, ch.hooks), f, pc, hooks);
    }
  }

  // -------------------------------------------------------------- the budget

  /** Every budget in force during a turn is positive and at most `cap`. */
  predicate UnderCap(ch: Choice, cap: nat) {
    && 0 < ch.now.budget <= cap
    && (ch.hot.Some? ==> 0 < ch.hot.value.budget <= cap)
    && forall k :: 0 <= k < |ch.requests| && ch.requests[k].LoadProgram? ==> 0 < ch.requests[k].budget <= cap
  }

  lemma {:induction false} ServeAllUnderCap(env: Env, c: Cache, requests: seq<Request>, hooks: Hooks, cap: nat)
    requires Good(env, c)
    requires forall k :: 0 <= k < |requests| && requests[k].LoadProgram? ==> 0 < requests[k].budget <= cap
    ensures Capped(c.bytes, ServeAll(env, c, requests, hooks).bytes, cap)
    decreases |requests|
  {
    hide Good, Serve;
    if requests != [] {
      ServeKeepsCache(env, c, requests[0], hooks);
      ServeAllUnderCap(env, Serve(env, c, requests[0], hooks), requests[1..], hooks, cap);
    }
  }

  lemma JitStepUnderCap(env: Env, j: JitJob, ch: Choice, cap: nat)
    requires Ready(env, j) && UnderCap(ch, cap)
    ensures Capped(j.cache.bytes, JitStep(env, j, ch).cache.bytes, cap)
  {
    hide JobOk, CacheOk, Lookup, Decode, ExecuteOp, ExecutePrepared, ServeAll, Advance, JobStep, Refreshed, Noted;
    ServeAllKeepsCache(env, j.cache, ch.requests, ch.hooks);
    ServeAllUnderCap(env, j.cache, ch.requests, ch.hooks, cap);
    var c0 := ServeAll(env, j.cache, ch.requests, ch.hooks);
    if Decodes(env, j.job) {
      TopIsKnown(env, j.job);
      var top := j.job.frames[|j.job.frames| - 1];
      var c1 := Refreshed(env, Noted(env, c0, top.func, top.pc), top.func, ch.now, ch.hooks);
      LookupFindsBody(env, Bodies(env), c1, top.func, top.pc, ch.now.micro, ch.now.budget, ch.hooks);
    }
  }

  /** While all budgets are positive and at most `cap`, the total never rises above `cap`; a cache that
      starts above it, under a budget since lowered, never grows. */
  lemma {:induction false} NeverOverBudget(env: Env, j: JitJob, schedule: nat -> Choice, cap: nat, n: nat)
    requires AllFit(env) && Ready(env, j) && forall i :: UnderCap(schedule(i), cap)
    ensures Capped(j.cache.bytes, JitRun(env, j, schedule, n).cache.bytes, cap)
    ensures j.cache.bytes <= cap ==> JitRun(env, j, schedule, n).cache.bytes <= cap
    decreases n
  {
    hide JitStep, JobOk, Good, AllFit, UnderCap;
    if n > 0 {
      JitStepReady(env, j, schedule(n));
      JitStepUnderCap(env, j, schedule(n), cap);
      CapIsPositive(schedule(n), cap);
      NeverOverBudget(env, JitStep(env, j, schedule(n)), schedule, cap, n - 1);
    }
  }

  lemma CapIsPositive(ch: Choice, cap: nat)
    requires UnderCap(ch, cap)
    ensures cap > 0
  {
  }

  // ------------------------------------------------------ from attach to end

  /** From attaching a module on, with or without prescans: a job that gets started runs as it does
      without a cache, the total is the sum over the slots, ready slots are exactly those with bytes,
      and none is both ready and spilled. */
  lemma JitJobsAreJobs(env: Env, func: nat, args: seq<Value>, store: Store, prescan: bool, force: bool, p: Precompile,
                       schedule: nat -> Choice, n: nat)
    requires AllFit(env) && Attach(env, prescan, p).Success?
    ensures Good(env, Attach(env, prescan, p).value)
    ensures var start := StartJitJob(env, func, args, store, Attach(env, prescan, p).value, force, prescan, p).0;
            && Ready(env, start)
            && (var end := JitRun(env, start, schedule, n);
                && end.job == RunJob(env, start.job, n)
                && (Refused(env, func, args) || !force || prescan || AllWalk(env) ==>
                      start.job == StartJob(env, func, args, store))
                && end.cache.bytes == SumBytes(end.cache.entries)
                && forall e :: e in end.cache.entries ==>
                     (e.ready <==> e.bytes > 0) && !(e.ready && e.spilled) && e.bytes == ProgramBytes(|e.program|))
  {
    hide StartJob, RunJob, JitRun, AllFit, JobOk, IndexOk, FromPrefix, Attach, StartJitJob, AllWalk, Refused;
    AttachExactly(env, prescan, p);
    var c := Attach(env, prescan, p).value;
    StartExactly(env, func, args, store, c, force, prescan, p);
    StartJobOk(env, func, args, store);
    DoneIsOk(env, Done(FirstFailure(env, 0), Shared(args, [], 0, store)));
    JitTransparent(env, StartJitJob(env, func, args, store, c, force, prescan, p).0, schedule, n);
  }

  lemma DoneIsOk(env: Env, job: Job)
    requires job.Done?
    ensures JobOk(env, job)
  {
  }
}
