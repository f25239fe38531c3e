/** Jobs: call frames, calls and returns, and what a job leaves on the operand stack. */
module Jobs {
  import opened Core
  import opened Leb128
  import opened RuntimeState
  import opened Decoders
  import opened Machine
  import opened Nesting

  datatype Frame = Frame(func: nat, body: seq<byte>, codeStart: nat, pc: nat, control: seq<ControlFrame>,
        locals: seq<Value>)

  /** What a job carries across frames; `target` is the callee a call handler chose. */
  datatype Shared = Shared(stack: seq<Value>, window: seq<Imm>, target: nat, store: Store)

  datatype Job =
    | Executing(frames: seq<Frame>, shared: Shared)
    | Done(status: Status, shared: Shared)

  function MachOf(s: Shared, locals: seq<Value>): Mach {
    Mach(s.stack, s.window, locals, s.target, s.store)
  }

  function SharedOf(m: Mach): Shared {
    Shared(m.stack, m.window, m.target, m.store)
  }

  // ---------------------------------------------------------------- locals

  datatype Decl = Decl(count: nat, valtype: byte)

  function ParseDecls(body: seq<byte>, c: nat, n: nat): Result<(seq<Decl>, nat)>
    decreases n
  {
    if n == 0 then Success(([], c))
    else
      var l :- ReadULeb(body, c);
      if l.next >= |body| then Failure(Stream)
      else
        var (rest, next) :- ParseDecls(body, l.next + 1, n - 1);
        Success(([Decl(l.value, body[l.next])] + rest, next))
  }

  function TotalLocals(decls: seq<Decl>): nat
    decreases |decls|
  {
    if decls == [] then 0 else decls[0].count + TotalLocals(decls[1..])
  }

  function ZeroValues(types: seq<nat>): (r: Result<seq<Value>>)
    ensures r.Success? ==> |r.value| == |types|
    decreases |types|
  {
    if types == [] then Success([])
    else
      var v :- ZeroValue(types[0]);
      var rest :- ZeroValues(types[1..]);
      Success([v] + rest)
  }

  function Repeat(v: Value, n: nat): (r: seq<Value>)
    ensures |r| == n && forall i :: 0 <= i < n ==> r[i] == v
  {
    seq(n, _ => v)
  }

  function ZeroLocals(decls: seq<Decl>): Result<seq<Value>>
    decreases |decls|
  {
    if decls == [] then Success([])
    else if decls[0].count == 0 then ZeroLocals(decls[1..])
    else
      var v :- ZeroValue(decls[0].valtype);
      var rest :- ZeroLocals(decls[1..]);
      Success(Repeat(v, decls[0].count) + rest)
  }

  /** The declared locals and where the code after them starts. */
  function ParseLocals(env: Env, func: nat): (r: Result<(seq<Value>, nat)>)
    requires func < |env.wasm.functions|
    ensures r.Success? ==> env.wasm.functions[func].typeIndex < |env.wasm.types| &&
                           |r.value.0| >= |env.wasm.types[env.wasm.functions[func].typeIndex].params|
  {
    var f := env.wasm.functions[func];
    var count :- ReadULeb(f.body, 0);
    var (decls, codeStart) :- ParseDecls(f.body, count.next, count.value);
    if f.typeIndex >= |env.wasm.types| then Failure(InvalidArgument)
    else
      var params := env.wasm.types[f.typeIndex].params;
      if |params| + TotalLocals(decls) >= TWO_32 then Failure(Unsupported)
      else
        var ps :- ZeroValues(params);
        var ls :- ZeroLocals(decls);
        Success((ps + ls, codeStart))
  }

  method ReadDecls(body: seq<byte>, cursor: nat, n: nat) returns (r: Result<(seq<Decl>, nat)>)
    ensures r == ParseDecls(body, cursor, n)
  {
    hide ReadULeb;
    var c: nat, decls: seq<Decl> := cursor, [];
    ghost var all := ParseDecls(body, cursor, n);
    assert all.Success? ==> [] + all.value.0 == all.value.0;
    for i := 0 to n
      invariant var rest := ParseDecls(body, c, n - i);
                all == if rest.Failure? then rest else Success((decls + rest.value.0, rest.value.1))
    {
      var count := ReadULeb128(body, c);
      if count.Failure? {
        return Failure(count.error);
      }
      if count.value.next >= |body| {
        return Failure(Stream);
      }
      var decl := Decl(count.value.value, body[count.value.next]);
      ghost var rest := ParseDecls(body, count.value.next + 1, n - i - 1);
      assert rest.Success? ==> decls + ([decl] + rest.value.0) == decls + [decl] + rest.value.0;
      decls := decls + [decl];
      c := count.value.next + 1;
    }
    assert decls + [] == decls;
    return Success((decls, c));
  }

  /** The number of locals, unless it leaves 32 bits on the way. */
  method CountLocals(params: nat, decls: seq<Decl>) returns (total: Option<nat>)
    ensures total == if params + TotalLocals(decls) < TWO_32 then Some(params + TotalLocals(decls)) else None
  {
    var sum := params;
    for i := 0 to |decls|
      invariant sum + TotalLocals(decls[i..]) == params + TotalLocals(decls)
    {
      if sum >= TWO_32 || decls[i].count > TWO_32 - 1 - sum {
        return None;
      }
      sum := sum + decls[i].count;
    }
    return if sum < TWO_32 then Some(sum) else None;
  }

  /** The zero of one declaration, as often as it asks. */
  method AppendZeros(locals: seq<Value>, decl: Decl) returns (r: Result<seq<Value>>)
    ensures var zero := ZeroValue(decl.valtype);
            r == if decl.count == 0 then Success(locals)
                 else if zero.Failure? then Failure(zero.error)
                 else Success(locals + Repeat(zero.value, decl.count))
  {
    var filled := locals;
    for j := 0 to decl.count
      invariant j > 0 ==> ZeroValue(decl.valtype).Success?
      invariant filled == locals + Repeat(if j > 0 then ZeroValue(decl.valtype).value else I32(0), j)
    {
      var v := ZeroValue(decl.valtype);
      if v.Failure? {
        return Failure(v.error);
      }
      filled := filled + [v.value];
      assert Repeat(v.value, j) + [v.value] == Repeat(v.value, j + 1);
    }
    return Success(filled);
  }

  method FillLocals(decls: seq<Decl>) returns (r: Result<seq<Value>>)
    ensures r == ZeroLocals(decls)
  {
    hide ZeroValue, Repeat;
    ghost var all := ZeroLocals(decls);
    var locals: seq<Value> := [];
    assert decls[0..] == decls && (all.Success? ==> [] + all.value == all.value);
    for i := 0 to |decls|
      invariant var rest := ZeroLocals(decls[i..]);
                all == if rest.Failure? then rest else Success(locals + rest.value)
    {
      assert decls[i..][1..] == decls[i + 1..];
      var more := AppendZeros(locals, decls[i]);
      if more.Failure? {
        return more;
      }
      ghost var rest, zero := ZeroLocals(decls[i + 1..]), ZeroValue(decls[i].valtype);
      assert rest.Success? && decls[i].count > 0 ==>
        more.value + rest.value == locals + (Repeat(zero.value, decls[i].count) + rest.value);
      locals := more.value;
    }
    assert locals + [] == locals;
    return Success(locals);
  }

  // ---------------------------------------------------------------- calls

  function Capacity(env: Env): nat {
    if env.maxCallDepth != 0 then env.maxCallDepth else 64
  }

  function Signature(env: Env, func: nat): FuncType
    requires func < |env.wasm.functions| && env.wasm.functions[func].typeIndex < |env.wasm.types|
  {
    env.wasm.types[env.wasm.functions[func].typeIndex]
  }

  /** Enters an internal function, moving its arguments from the operand stack into locals. The very
      first frame may start without enough of them and then keeps zeros. */
  function PushFrame(env: Env, frames: seq<Frame>, s: Shared, func: nat): Job
    requires func < |env.wasm.functions|
  {
    if |frames| >= Capacity(env) then Done(CallDepthExceeded, s)
    else
      match ParseLocals(env, func)
      case Failure(e) => Done(e, s)
      case Success((locals, codeStart)) =>
        var sig := Signature(env, func);
        var n := |sig.params|;
        if |s.stack| < n && frames != [] then Done(Trap, s)
        else
          var matched := if |s.stack| < n then 0 else MatchedFromTop(s.stack, sig.params);
          if |s.stack| >= n && matched < n then Done(Trap, s.(stack := s.stack[..|s.stack| - matched - 1]))
          else
            var taken := if |s.stack| < n then 0 else n;
            var s' := s.(stack := s.stack[..|s.stack| - taken]);
            var filled := if |s.stack| < n then locals else s.stack[|s.stack| - n..] + locals[n..];
            if ZeroValues(sig.results).Failure? then Done(Unsupported, s')
            else
              var body := env.wasm.functions[func].body;
              var frame :=
                  Frame(func, body, codeStart, codeStart, [FunctionFrame(codeStart, body, sig.results)], filled);
              Executing(frames + [frame], s')
  }

  function CallFunction(env: Env, frames: seq<Frame>, s: Shared, func: nat): Job {
    if func >= |env.wasm.functions| then Done(InvalidArgument, s)
    else if env.wasm.functions[func].imported then
      var (m, status) := env.host(func, MachOf(s, []));
      if status == Ok then Executing(frames, SharedOf(m)) else Done(status, SharedOf(m))
    else PushFrame(env, frames, s, func)
  }

  /** What becomes of the job when its running frame does `o`. */
  function Advance(env: Env, job: Job, o: Outcome): Job
    requires job.Executing? && job.frames != []
  {
    var below, top := job.frames[..|job.frames| - 1], job.frames[|job.frames| - 1];
    match o
    case Running(pc, control, m) => Executing(below + [top.(pc := pc, control := control, locals := m.locals)],
                                              SharedOf(m))
    case Finished(m) => Executing(below, SharedOf(m))
    case Fault(status, m) => Done(status, SharedOf(m))
    case Calling(pc, control, m) =>
      var frames := below + [top.(pc := pc, control := control, locals := m.locals)];
      if m.target >= TWO_32 then Done(Trap, SharedOf(m))
      else CallFunction(env, frames, SharedOf(m).(target := 0), m.target)
  }

  /** One turn of the execution loop. */
  function JobStep(env: Env, job: Job): Job {
    if job.Done? then job
    else if job.frames == [] then Done(Ok, job.shared)
    else
      var top := job.frames[|job.frames| - 1];
      Advance(env, job, Step(env, top.body, top.pc, top.control, MachOf(job.shared, top.locals)))
  }

  /** Jobs turned away before they begin: no such function, or arguments that do not fit it. */
  predicate Refused(env: Env, func: nat, args: seq<Value>) {
    func >= |env.wasm.functions| ||
    (args != [] && (env.wasm.functions[func].typeIndex >= |env.wasm.types| ||
                    |Signature(env, func).params| != |args| || !TopMatches(args, Signature(env, func).params)))
  }

  /** Starting a job on a function, with arguments checked against its signature when there are any. */
  function StartJob(env: Env, func: nat, args: seq<Value>, store: Store): Job {
    if Refused(env, func, args) then Done(InvalidArgument, Shared([], [], 0, store))
    else CallFunction(env, [], Shared(args, [], 0, store), func)
  }

  /** A call hands over exactly its arguments: with values of the parameters' kinds on top of the stack
      the callee starts behind its declarations, its first locals are those values in order, the others
      zero, and the caller is left with what lay below; any other stack, a shorter one too, traps. */
  lemma CallPassesArguments(env: Env, frames: seq<Frame>, s: Shared, func: nat)
    requires func < |env.wasm.functions| && !env.wasm.functions[func].imported && ParseLocals(env, func).Success?
    requires 0 < |frames| < Capacity(env) && ZeroValues(Signature(env, func).results).Success?
    ensures var job := CallFunction(env, frames, s, func);
            if TopMatches(s.stack, Signature(env, func).params) then Entered(env, frames, s, func, job)
            else job.Done? && job.status == Trap
  {
    hide ParseLocals, ZeroValues;
    var n := |Signature(env, func).params|;
    if TopMatches(s.stack, Signature(env, func).params) {
      var args := s.stack[|s.stack| - n..];
      assert s.stack == s.stack[..|s.stack| - n] + args;
    }
  }

  /** The callee runs on top of `frames`, with the last values of the stack as its first locals. */
  ghost predicate Entered(env: Env, frames: seq<Frame>, s: Shared, func: nat, job: Job)
    requires func < |env.wasm.functions| && ParseLocals(env, func).Success?
  {
    var (zeros, codeStart) := ParseLocals(env, func).value;
    var sig, body := Signature(env, func), env.wasm.functions[func].body;
    exists below: seq<Value>, args: seq<Value> :: |args| == |sig.params| && s.stack == below + args &&
      job == Executing(frames + [Frame(func, body, codeStart, codeStart, [FunctionFrame(codeStart, body, sig.results)],
                                       args + zeros[|args|..])], s.(stack := below))
  }

  // ------------------------------------------------------- the job invariant

  /** A frame of a known function, with its own function label at the bottom of its control stack. */
  ghost predicate FrameOk(env: Env, f: Frame) {
    && f.func < |env.wasm.functions| && f.body == env.wasm.functions[f.func].body
    && ParseLocals(env, f.func).Success? && f.codeStart == ParseLocals(env, f.func).value.1
    && Reachable(env.MultiMemory(), f.body, f.codeStart, f.control, f.pc)
    && (f.control != [] ==> f.control[0] == FunctionFrame(f.codeStart, f.body, Signature(env, f.func).results))
  }

  ghost predicate JobOk(env: Env, job: Job) {
    job.Executing? ==>
      && (forall i :: 0 <= i < |job.frames| ==> FrameOk(env, job.frames[i]))
      && (forall i :: 0 <= i < |job.frames| - 1 ==> job.frames[i].control != [])
  }

  lemma PushFrameOk(env: Env, frames: seq<Frame>, s: Shared, func: nat)
    requires func < |env.wasm.functions| && JobOk(env, Executing(frames, s))
    requires forall f :: f in frames ==> f.control != []
    ensures JobOk(env, PushFrame(env, frames, s, func))
    ensures var job := PushFrame(env, frames, s, func);
            job.Executing? ==>
                |job.frames| == |frames| + 1 && job.frames[..|frames|] == frames && job.frames[|frames|].func == func
  {
    hide Leads, InStep, MatchedFromTop, ZeroValues;
    var job := PushFrame(env, frames, s, func);
    if job.Executing? {
      var f := job.frames[|frames|];
      StartInStep(env.MultiMemory(), f.body, f.codeStart, Signature(env, func).results);
      assert job.frames[..|frames|] == frames;
    }
  }

  /** What a step does to the bottom of the control stack: it stays, unless the frame is left. */
  lemma StepKeepsLabel(env: Env, body: seq<byte>, pc: nat, control: seq<ControlFrame>, m: Mach)
    requires control != []
    ensures var o := Step(env, body, pc, control, m);
            o.Running? || o.Calling? ==> o.control == [] || o.control[0] == control[0]
    ensures var o := Step(env, body, pc, control, m);
            o.Calling? ==> o.control == control
  {
    hide Decode, Unwind, ExecuteOp, TopMatches, Scan;
  }

  lemma JobStepOk(env: Env, job: Job)
    requires JobOk(env, job)
    ensures JobOk(env, JobStep(env, job))
  {
    hide Step, Reachable, ParseLocals, PushFrame;
    var next := JobStep(env, job);
    if job.Executing? && job.frames != [] {
      var below, top := job.frames[..|job.frames| - 1], job.frames[|job.frames| - 1];
      var body, m := top.body, MachOf(job.shared, top.locals);
      StepStaysInStep(env, body, top.codeStart, top.control, top.pc, m);
      TopAfterStep(env, top, m);
      var o := Step(env, body, top.pc, top.control, m);
      if o.Calling? {
        var frames := below + [top.(pc := o.pc, control := o.control, locals := o.mach.locals)];
        assert JobOk(env, Executing(frames, SharedOf(o.mach)));
        var s := SharedOf(o.mach).(target := 0);
        if o.mach.target < |env.wasm.functions| && !env.wasm.functions[o.mach.target].imported {
          PushFrameOk(env, frames, s, o.mach.target);
        }
      }
    }
  }

  /** The running frame after its step, if it is still there. */
  lemma TopAfterStep(env: Env, top: Frame, m: Mach)
    requires FrameOk(env, top)
    ensures var o := Step(env, top.body, top.pc, top.control, m);
            && (o.Running? || o.Calling? ==>
                FrameOk(env, top.(pc := o.pc, control := o.control, locals := o.mach.locals)))
            && (o.Calling? ==> o.control != [])
  {
    hide Step, ParseLocals, Leads, Bracketed;
    StepStaysInStep(env, top.body, top.codeStart, top.control, top.pc, m);
    if top.control != [] {
      StepKeepsLabel(env, top.body, top.pc, top.control, m);
    } else {
      LeftFrameFinishes(env, top.body, m);
    }
  }

  lemma LeftFrameFinishes(env: Env, body: seq<byte>, m: Mach)
    ensures Step(env, body, |body|, [], m) == Finished(m)
  {
  }

  // ------------------------------------------- nesting over whole jobs

  function RunJob(env: Env, job: Job, n: nat): Job
    decreases n
  {
    if n == 0 then job else RunJob(env, JobStep(env, job), n - 1)
  }

  /** The execution loop, given up after `turns` turns. */
  method ExecuteJob(env: Env, func: nat, args: seq<Value>, store: Store, turns: nat) returns (job: Job)
    ensures job == RunJob(env, StartJob(env, func, args, store), turns)
  {
    job := StartJob(env, func, args, store);
    var left := turns;
    while left > 0 && job.Executing?
      invariant RunJob(env, StartJob(env, func, args, store), turns) == RunJob(env, job, left)
    {
      job, left := JobStep(env, job), left - 1;
    }
    DoneStays(env, job, left);
  }

  lemma {:induction false} DoneStays(env: Env, job: Job, n: nat)
    requires job.Done? || n == 0
    ensures RunJob(env, job, n) == job
    decreases n
  {
    if n > 0 {
      DoneStays(env, job, n - 1);
    }
  }

  lemma StartJobOk(env: Env, func: nat, args: seq<Value>, store: Store)
    ensures JobOk(env, StartJob(env, func, args, store))
  {
    hide PushFrame, TopMatches;
    if func < |env.wasm.functions| && !env.wasm.functions[func].imported {
      PushFrameOk(env, [], Shared(args, [], 0, store), func);
    }
  }

  lemma {:induction false} RunJobOk(env: Env, job: Job, n: nat)
    requires JobOk(env, job)
    ensures JobOk(env, RunJob(env, job, n))
    decreases n
  {
    hide JobStep, FrameOk;
    if n > 0 {
      JobStepOk(env, job);
      RunJobOk(env, JobStep(env, job), n - 1);
    }
  }

  /** In every state any job reaches, whatever bytes its functions hold and whatever handlers and
      callees do, every call frame whose program counter lies inside its body has exactly as many
      control frames as the static nesting depth there, with ranges nested strictly around it, all inside
      the body. */
  lemma ControlStackTracksNesting(env: Env, func: nat, args: seq<Value>, store: Store, n: nat, i: nat)
    requires var job := RunJob(env, StartJob(env, func, args, store), n);
             job.Executing? && i < |job.frames|
    ensures var f := RunJob(env, StartJob(env, func, args, store), n).frames[i];
            f.pc < |f.body| ==>
              && StaticDepth(env.MultiMemory(), f.body, f.codeStart, 1, f.pc) == Some(|f.control|)
              && (|f.control| > 1 ==> f.control[|f.control| - 1].startPc <= f.pc < f.control[|f.control| - 1].endPc)
              && (forall j :: 1 <= j < |f.control| ==> f.control[j - 1].startPc <= f.control[j].startPc)
              && (forall j :: 2 <= j < |f.control| ==> f.control[j].endPc < f.control[j - 1].endPc)
              && (forall j :: 1 <= j < |f.control| ==> f.control[j].endPc <= |f.body|)
  {
    hide InStep, StaticDepth, RunJob, StartJob, ParseLocals;
    StartJobOk(env, func, args, store);
    RunJobOk(env, StartJob(env, func, args, store), n);
    var job := RunJob(env, StartJob(env, func, args, store), n);
    var f := job.frames[i];
    assert FrameOk(env, f);
    if f.pc < |f.body| {
      InStepMeansNested(env.MultiMemory(), f.body, f.codeStart, f.control, f.pc);
    }
  }

  // ------------------------------------------------- what a job leaves behind

  /** The stack holds exactly these results, in order and of the declared kinds. */
  predicate Exactly(stack: seq<Value>, types: seq<nat>) {
    |stack| == |types| && TopMatches(stack, types)
  }

  /** The function-level `end` is the last byte: the linear decode closes every block before it. */
  ghost predicate WellBracketed(env: Env, func: nat) {
    && func < |env.wasm.functions| && ParseLocals(env, func).Success?
    && Leads(env.MultiMemory(), env.wasm.functions[func].body, Place(ParseLocals(env, func).value.1, 1),
             Place(|env.wasm.functions[func].body|, 0))
  }

  /** The block scanner itself tells: a body is well bracketed when a scan from its code ends at its end. */
  lemma ScanShowsBrackets(env: Env, func: nat)
    requires func < |env.wasm.functions| && ParseLocals(env, func).Success?
    requires var f := env.wasm.functions[func].body;
             var e := Scan(env.MultiMemory(), f, ParseLocals(env, func).value.1);
             e.Success? && e.value.endPc == |f|
    ensures WellBracketed(env, func)
  {
    hide ScanFrom, Leads, ParseLocals;
    ScanWalks(env.MultiMemory(), env.wasm.functions[func].body, ParseLocals(env, func).value.1, 1, 0);
  }

  lemma UnwindToResults(stack: seq<Value>, results: seq<nat>)
    ensures Unwind(stack, 0, results).0 == Ok ==> Exactly(Unwind(stack, 0, results).1, results)
  {
    hide Unwind, TopMatches;
    UnwindKeepsTop(stack, 0, results);
  }

  lemma BranchOutLeavesResults(control: seq<ControlFrame>, depth: nat, m: Mach)
    requires control != [] && control[0].kind == BlockFrame && control[0].height == 0
    ensures var o := BranchTo(control, depth, m);
            o.Running? && o.control == [] ==> Exactly(o.mach.stack, control[0].results)
    ensures depth == |control| - 1 && BranchTo(control, depth, m).Running? ==>
            Exactly(BranchTo(control, depth, m).mach.stack, control[0].results)
  {
    hide Exactly, Unwind;
    if depth < |control| {
      UnwindToResults(m.stack, control[0].results);
    }
  }

  /** Leaving a frame from inside its body, by `end`, `return` or a branch to its outermost label,
      leaves exactly its results on the whole operand stack. */
  lemma LeavingLeavesResults(env: Env, body: seq<byte>, pc: nat, control: seq<ControlFrame>, m: Mach)
    requires pc < |body| && control != [] && control[0].kind == BlockFrame && control[0].height == 0
    ensures var o := Step(env, body, pc, control, m);
            o.Finished? || (o.Running? && o.control == []) ==> Exactly(o.mach.stack, control[0].results)
  {
    hide Exactly, BranchTo, Decode, ExecuteOp, Enter;
    UnwindToResults(m.stack, control[0].results);
    var o := Step(env, body, pc, control, m);
    if Decode(env, body, pc).Success? {
      var d := Decode(env, body, pc).value;
      if d.instruction.Control? {
        var m' := if m.stack == [] then m else m.(stack := m.stack[..|m.stack| - 1]);
        match d.instruction.control {
          case Open(kind, blockType) => EnterLeavesNothing(env, body, kind, blockType, d.next, control, m);
          case Else => BranchOutLeavesResults(control, 0, m);
          case Br(depth) => BranchOutLeavesResults(control, depth, m);
          case BrIf(depth) => BranchOutLeavesResults(control, depth, m');
          case BrTable(depths, default) =>
            if m.stack != [] && IndexValue(env, m.stack[|m.stack| - 1]).Some? {
              var index := IndexValue(env, m.stack[|m.stack| - 1]).value;
              BranchOutLeavesResults(control, SelectLabel(depths, default, index), m');
            }
          case Return => BranchOutLeavesResults(control, |control| - 1, m);
          case _ =>
        }
      }
    }
  }

  /** A callee that leaves by `end` or `return` puts its results on top of the operands its caller still
      had, as the standard asks, if and only if there were none: its label's height is 0. */
  lemma ReturnKeepsCallerExactly(env: Env, body: seq<byte>, pc: nat, control: seq<ControlFrame>, m: Mach,
        below: seq<Value>)
    requires pc < |body| && control != [] && control[0].kind == BlockFrame && control[0].height == 0
    requires Step(env, body, pc, control, m).Finished?
    ensures var stack := Step(env, body, pc, control, m).mach.stack;
            (exists results: seq<Value> :: Exactly(results, control[0].results) && stack == below + results)
            <==> below == []
  {
    hide Step, TopMatches;
    LeavingLeavesResults(env, body, pc, control, m);
    var stack := Step(env, body, pc, control, m).mach.stack;
    assert [] + stack == stack;
  }

  /** The empty function, called with a value pending, drops it. */
  lemma EmptyCalleeDrops(env: Env, v: Value, store: Store)
    ensures Step(env, [0x0B], 0, [FunctionFrame(0, [0x0B], [])], Mach([v], [], [], 0, store))
            == Finished(Mach([], [], [], 0, store))
  {
    assert Decode(env, [0x0B], 0) == Success(Decoded(Control(End), 1));
  }

  lemma EnterLeavesNothing(env: Env, body: seq<byte>, kind: BlockKind, blockType: int, pc: nat,
        control: seq<ControlFrame>, m: Mach)
    requires control != []
    ensures var o := Enter(env, body, kind, blockType, pc, control, m); o.Running? ==> o.control != []
  {
    hide Unwind, TopMatches, Scan;
  }

  /** The bottom frame runs the job's function; once it is left or popped, its results are all there is. */
  ghost predicate ResultsOk(env: Env, func: nat, job: Job)
    requires WellBracketed(env, func)
  {
    var results := Signature(env, func).results;
    match job
    case Executing(frames, s) =>
      && (frames != [] ==> frames[0].func == func && (frames[0].control == [] ==> Exactly(s.stack, results)))
      && (frames == [] ==> Exactly(s.stack, results))
    case Done(status, s) => status == Ok ==> Exactly(s.stack, results)
  }

  /** In a well-bracketed body no position inside a block is the end of the bytes. */
  lemma InStepIsInside(env: Env, f: Frame)
    requires FrameOk(env, f) && f.control != [] && WellBracketed(env, f.func)
    ensures f.pc < |f.body|
  {
    hide Bracketed;
    var multi, body, last := env.MultiMemory(), f.body, f.control[|f.control| - 1];
    FramesAreStatic(multi, body, f.codeStart, f.control, |f.control| - 1);
    LeadsLift(multi, body, Place(last.startPc, 1), Place(f.pc, 1), |f.control| - 1);
    LeadsTrans(multi, body, Place(f.codeStart, 1), Place(last.startPc, |f.control|), Place(f.pc, |f.control|));
    InsideBeforeEnd(multi, body, f.codeStart, Place(f.pc, |f.control|), |body|);
  }

  lemma JobStepKeepsResults(env: Env, func: nat, job: Job)
    requires WellBracketed(env, func) && !env.wasm.functions[func].imported
    requires JobOk(env, job) && ResultsOk(env, func, job)
    ensures ResultsOk(env, func, JobStep(env, job))
  {
    hide Step, Reachable, ParseLocals, PushFrame, Exactly, WellBracketed;
    if job.Executing? && job.frames != [] {
      var below, top := job.frames[..|job.frames| - 1], job.frames[|job.frames| - 1];
      var m := MachOf(job.shared, top.locals);
      TopAfterStep(env, top, m);
      var o := Step(env, top.body, top.pc, top.control, m);
      if |job.frames| == 1 {
        if top.control == [] {
          LeftFrame(env, top);
          LeftFrameFinishes(env, top.body, m);
        } else {
          InStepIsInside(env, top);
          LeavingLeavesResults(env, top.body, top.pc, top.control, m);
        }
      }
      if o.Calling? {
        var frames := below + [top.(pc := o.pc, control := o.control, locals := o.mach.locals)];
        var s := SharedOf(o.mach).(target := 0);
        CalleeKeepsResults(env, func, frames, s, o.mach.target);
      }
    }
  }

  lemma LeftFrame(env: Env, f: Frame)
    requires FrameOk(env, f) && f.control == []
    ensures f.pc == |f.body|
  {
  }

  lemma CalleeKeepsResults(env: Env, func: nat, frames: seq<Frame>, s: Shared, callee: nat)
    requires WellBracketed(env, func) && frames != [] && frames[0].func == func && frames[0].control != []
    ensures ResultsOk(env, func, CallFunction(env, frames, s, callee))
  {
    hide ParseLocals, MatchedFromTop, ZeroValues, WellBracketed;
  }

  lemma StartKeepsResults(env: Env, func: nat, args: seq<Value>, store: Store)
    requires WellBracketed(env, func) && !env.wasm.functions[func].imported
    ensures ResultsOk(env, func, StartJob(env, func, args, store))
  {
    hide MatchedFromTop, ZeroValues, WellBracketed, TopMatches;
  }

  lemma {:induction false} RunKeepsResults(env: Env, func: nat, job: Job, n: nat)
    requires WellBracketed(env, func) && !env.wasm.functions[func].imported
    requires JobOk(env, job) && ResultsOk(env, func, job)
    ensures ResultsOk(env, func, RunJob(env, job, n))
    decreases n
  {
    hide JobStep, ResultsOk, WellBracketed;
    if n > 0 {
      JobStepOk(env, job);
      JobStepKeepsResults(env, func, job);
      RunKeepsResults(env, func, JobStep(env, job), n - 1);
    }
  }

  /** A job on a well-bracketed internal function that ends `Ok` leaves exactly the declared results,
      however the function was left and whatever calls it made. */
  lemma OkJobLeavesResults(env: Env, func: nat, args: seq<Value>, store: Store, n: nat)
    requires WellBracketed(env, func) && !env.wasm.functions[func].imported
    ensures var job := RunJob(env, StartJob(env, func, args, store), n);
            job.Done? && job.status == Ok ==> Exactly(job.shared.stack, Signature(env, func).results)
  {
    hide RunJob, StartJob, WellBracketed;
    StartJobOk(env, func, args, store);
    StartKeepsResults(env, func, args, store);
    RunKeepsResults(env, func, StartJob(env, func, args, store), n);
  }
}
