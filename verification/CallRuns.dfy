/** Calls and returns over whole runs: which frames a turn touches, where a callee returns to, how deep
    calls go, and what an imported function is given. */
module CallRuns {
  import opened Core
  import opened Leb128
  import opened RuntimeState
  import opened Decoders
  import opened Machine
  import opened Jobs

  // ---------------------------------------------------------- a single turn

  /** The step of the frame on top. */
  function TopStep(env: Env, frames: seq<Frame>, s: Shared): Outcome
    requires frames != []
  {
    var top := frames[|frames| - 1];
    Step(env, top.body, top.pc, top.control, MachOf(s, top.locals))
  }

  /** A frame that finishes leaves exactly the frames below it, as they were. */
  lemma FinishReturns(env: Env, below: seq<Frame>, top: Frame, s: Shared)
    requires TopStep(env, below + [top], s).Finished?
    ensures JobStep(env, Executing(below + [top], s)) == Executing(below, SharedOf(TopStep(env, below + [top], s).mach))
  {
    hide Step;
    assert (below + [top])[..|below|] == below;
  }

  /** A frame that keeps running is replaced by its next state; one that fails ends the job, with its
      status and what it left. */
  lemma RunningGoesOn(env: Env, below: seq<Frame>, top: Frame, s: Shared)
    ensures var o := TopStep(env, below + [top], s);
            && (o.Running? ==> JobStep(env, Executing(below + [top], s))
                               == Executing(below + [At(top, o)], SharedOf(o.mach)))
            && (o.Fault? ==> JobStep(env, Executing(below + [top], s)) == Done(o.status, SharedOf(o.mach)))
  {
    hide Step;
    assert (below + [top])[..|below|] == below;
  }

  /** The frame at the position an outcome has come to. */
  function At(top: Frame, o: Outcome): Frame
    requires o.Running? || o.Calling?
  {
    top.(pc := o.pc, control := o.control, locals := o.mach.locals)
  }

  /** The most frames a job may have. */
  function Limit(env: Env): nat {
    if env.maxCallDepth == 0 then 64 else env.maxCallDepth
  }

  /** A call: a target of 2^32 or more traps and one that is no function is refused; an imported function
      runs at once on the operands, the window and the store and gives back the same frames or its failure;
      any other call puts one frame on top of the caller, which waits behind the call, or ends the job. */
  lemma CallDoes(env: Env, below: seq<Frame>, top: Frame, s: Shared)
    requires TopStep(env, below + [top], s).Calling?
    ensures var o := TopStep(env, below + [top], s);
            var waiting, callee := below + [At(top, o)], o.mach.target;
            var shared := Shared(o.mach.stack, o.mach.window, 0, o.mach.store);
            var job := JobStep(env, Executing(below + [top], s));
            if callee >= 0x1_0000_0000 then job == Done(Trap, Shared(o.mach.stack, o.mach.window, callee, o.mach.store))
            else if callee >= |env.wasm.functions| then job == Done(InvalidArgument, shared)
            else if env.wasm.functions[callee].imported then
              var (m, status) := env.host(callee, Mach(o.mach.stack, o.mach.window, [], 0, o.mach.store));
              job == if status == Ok then Executing(waiting, SharedOf(m)) else Done(status, SharedOf(m))
            else if |waiting| >= Limit(env) then job == Done(CallDepthExceeded, shared)
            else job.Done? || (|job.frames| == |waiting| + 1 && job.frames[..|waiting|] == waiting &&
                               job.frames[|waiting|].func == callee)
  {
    hide Step, ParseLocals, MatchedFromTop, ZeroValues;
    assert (below + [top])[..|below|] == below;
  }

  /** A call whose operands do not fit traps; with too few nothing is taken, otherwise the operands are, from
      the top, up to and with the first that has the wrong kind. */
  lemma FailedCallTakes(env: Env, frames: seq<Frame>, s: Shared, func: nat)
    requires func < |env.wasm.functions| && !env.wasm.functions[func].imported && ParseLocals(env, func).Success?
    requires 0 < |frames| < Limit(env) && !TopMatches(s.stack, Signature(env, func).params)
    ensures var params, job := Signature(env, func).params, CallFunction(env, frames, s, func);
            if |s.stack| < |params| then job == Done(Trap, s)
            else exists k :: WrongAt(s.stack, params, k) && job == Done(Trap, s.(stack := s.stack[..|s.stack| - k - 1]))
  {
    hide ParseLocals, ZeroValues, FirstMiss, Hits;
    var params := Signature(env, func).params;
    if |params| <= |s.stack| {
      assert WrongAt(s.stack, params, MatchedFromTop(s.stack, params));
    }
  }

  /** Counted from the top, operand `k` is the first not to have its parameter's kind. */
  predicate WrongAt(stack: seq<Value>, params: seq<nat>, k: nat) {
    k < |params| <= |stack| && !Hits(stack, params, k) && forall j :: 0 <= j < k ==> Hits(stack, params, j)
  }

  /** A call leaves the caller's labels alone, and its position is right behind the call. */
  lemma CallerWaits(env: Env, body: seq<byte>, pc: nat, control: seq<ControlFrame>, m: Mach)
    requires Step(env, body, pc, control, m).Calling?
    ensures pc < |body| && Decode(env, body, pc).Success? && (body[pc] == 0x10 || body[pc] == 0x11)
    ensures var o := Step(env, body, pc, control, m); o.control == control && o.pc == Decode(env, body, pc).value.next
  {
    hide ExecuteOp, Unwind, TopMatches, Scan;
  }

  /** No turn touches a frame below the top one: it leaves them and at most one more below a new frame. */
  lemma TurnKeepsBelow(env: Env, frames: seq<Frame>, s: Shared)
    requires frames != []
    ensures var job := JobStep(env, Executing(frames, s)); var n := |frames| - 1;
            job.Executing? ==> n <= |job.frames| <= n + 2 && job.frames[..n] == frames[..n]
    ensures var job := JobStep(env, Executing(frames, s));
            job.Executing? && |job.frames| > |frames| ==>
              && TopStep(env, frames, s).Calling?
              && job.frames[|frames| - 1] == At(frames[|frames| - 1], TopStep(env, frames, s))
  {
    hide Step, ParseLocals, MatchedFromTop, ZeroValues;
    var below, top := frames[..|frames| - 1], frames[|frames| - 1];
    assert below + [top] == frames;
    match TopStep(env, frames, s) {
      case Finished(_) => FinishReturns(env, below, top, s);
      case Calling(_, _, _) => CallDoes(env, below, top, s);
      case _ => RunningGoesOn(env, below, top, s);
    }
  }

  // ------------------------------------------------------------- whole runs

  /** The job after `n` turns has more than `k` frames. */
  ghost predicate Deeper(env: Env, job: Job, k: nat, n: nat) {
    var j := RunJob(env, job, n);
    j.Executing? && |j.frames| > k
  }

  lemma {:induction false} RunTurn(env: Env, job: Job, n: nat)
    ensures RunJob(env, job, n + 1) == JobStep(env, RunJob(env, job, n))
    decreases n
  {
    hide JobStep;
    if n > 0 {
      RunTurn(env, JobStep(env, job), n - 1);
    } else {
      assert RunJob(env, JobStep(env, job), 0) == JobStep(env, job);
    }
  }

  /** As long as there are more than `k` frames, the lowest `k` stay as they are; when there are no more
      than `k` for the first time, exactly these are left. */
  lemma {:induction false} LowFramesStay(env: Env, job: Job, k: nat, n: nat)
    requires forall i :: 0 <= i < n ==> Deeper(env, job, k, i)
    requires job.Executing? && |job.frames| >= k
    ensures var j := RunJob(env, job, n);
            j.Executing? ==> |j.frames| >= k && j.frames[..k] == job.frames[..k]
    decreases n
  {
    hide JobStep;
    if n > 0 {
      LowFramesStay(env, job, k, n - 1);
      RunTurn(env, job, n - 1);
      assert Deeper(env, job, k, n - 1);
      var before := RunJob(env, job, n - 1);
      TurnKeepsBelow(env, before.frames, before.shared);
      var after := JobStep(env, before);
      if after.Executing? {
        var low := |before.frames| - 1;
        assert after.frames[..k] == after.frames[..low][..k] && before.frames[..k] == before.frames[..low][..k];
      }
    }
  }

  /** From a call on, however long the callee runs and whatever it calls: in the first state with no more
      frames than at the call, the frames are those at the call. The caller stands right behind the call,
      with the labels it had and the locals it had after the call's handler. */
  lemma CalleeReturnsToCaller(env: Env, below: seq<Frame>, caller: Frame, s: Shared, n: nat)
    requires TopStep(env, below + [caller], s).Calling?
    requires var job := JobStep(env, Executing(below + [caller], s)); var k := |below| + 1;
             && job.Executing? && |job.frames| > k
             && (forall i :: 0 <= i < n ==> Deeper(env, job, k, i)) && !Deeper(env, job, k, n)
    ensures Decode(env, caller.body, caller.pc).Success?
    ensures var end := RunJob(env, JobStep(env, Executing(below + [caller], s)), n);
            end.Executing? ==>
              end.frames == below + [caller.(pc := Decode(env, caller.body, caller.pc).value.next,
                                             locals := TopStep(env, below + [caller], s).mach.locals)]
  {
    hide JobStep, RunJob, Step, Decode;
    var frames := below + [caller];
    var job, k := JobStep(env, Executing(frames, s)), |below| + 1;
    CallerWaits(env, caller.body, caller.pc, caller.control, MachOf(s, caller.locals));
    TurnKeepsBelow(env, frames, s);
    assert job.frames[..k] == job.frames[..|below|] + [job.frames[|below|]];
    assert frames[..|below|] == below;
    LowFramesStay(env, job, k, n);
    var end := RunJob(env, job, n);
    if end.Executing? {
      assert end.frames[..k] == end.frames;
    }
  }

  /** No job ever has more frames than the limit. */
  lemma {:induction false} DepthBounded(env: Env, func: nat, args: seq<Value>, store: Store, n: nat)
    ensures var job := RunJob(env, StartJob(env, func, args, store), n);
            job.Executing? ==> |job.frames| <= Limit(env)
    decreases n
  {
    hide JobStep, StartJob;
    if n == 0 {
      StartDepth(env, func, args, store);
    } else {
      DepthBounded(env, func, args, store, n - 1);
      RunTurn(env, StartJob(env, func, args, store), n - 1);
      TurnDepth(env, RunJob(env, StartJob(env, func, args, store), n - 1));
    }
  }

  lemma StartDepth(env: Env, func: nat, args: seq<Value>, store: Store)
    ensures var job := StartJob(env, func, args, store); job.Executing? ==> |job.frames| <= 1 <= Limit(env)
  {
    hide ParseLocals, MatchedFromTop, ZeroValues, TopMatches;
  }

  lemma TurnDepth(env: Env, job: Job)
    requires job.Executing? ==> |job.frames| <= Limit(env)
    ensures JobStep(env, job).Executing? ==> |JobStep(env, job).frames| <= Limit(env)
  {
    hide Step, ParseLocals, MatchedFromTop, ZeroValues;
    if job.Executing? && job.frames != [] {
      var below, top := job.frames[..|job.frames| - 1], job.frames[|job.frames| - 1];
      assert below + [top] == job.frames;
      TurnKeepsBelow(env, job.frames, job.shared);
      if TopStep(env, job.frames, job.shared).Calling? {
        CallDoes(env, below, top, job.shared);
      }
    }
  }

  /** Frames are only ever those of functions with a body. */
  ghost predicate Internal(env: Env, job: Job) {
    job.Executing? ==> forall i :: 0 <= i < |job.frames| ==>
      job.frames[i].func < |env.wasm.functions| && !env.wasm.functions[job.frames[i].func].imported
  }

  lemma TurnStaysInternal(env: Env, job: Job)
    requires Internal(env, job)
    ensures Internal(env, JobStep(env, job))
  {
    hide Step, ParseLocals, MatchedFromTop, ZeroValues;
    if job.Executing? && job.frames != [] {
      var below, top := job.frames[..|job.frames| - 1], job.frames[|job.frames| - 1];
      assert below + [top] == job.frames;
      match TopStep(env, job.frames, job.shared) {
        case Finished(_) => FinishReturns(env, below, top, job.shared);
        case Calling(_, _, _) =>
          CallDoes(env, below, top, job.shared);
          TurnKeepsBelow(env, job.frames, job.shared);
        case _ => RunningGoesOn(env, below, top, job.shared);
      }
    }
  }

  lemma {:induction false} RunStaysInternal(env: Env, func: nat, args: seq<Value>, store: Store, n: nat)
    ensures Internal(env, RunJob(env, StartJob(env, func, args, store), n))
    decreases n
  {
    hide JobStep, StartJob, Internal;
    if n == 0 {
      StartIsInternal(env, func, args, store);
    } else {
      RunStaysInternal(env, func, args, store, n - 1);
      RunTurn(env, StartJob(env, func, args, store), n - 1);
      TurnStaysInternal(env, RunJob(env, StartJob(env, func, args, store), n - 1));
    }
  }

  lemma StartIsInternal(env: Env, func: nat, args: seq<Value>, store: Store)
    ensures Internal(env, StartJob(env, func, args, store))
  {
    hide ParseLocals, MatchedFromTop, ZeroValues, TopMatches;
  }

  /** A job is turned away at once exactly when the function does not exist, or arguments are given that
      are not, in number and kinds, what its signature asks for. */
  lemma StartChecksArguments(env: Env, func: nat, args: seq<Value>, store: Store)
    ensures Refused(env, func, args) <==>
            func >= |env.wasm.functions| ||
            (args != [] && !(env.wasm.functions[func].typeIndex < |env.wasm.types| &&
                             var params := env.wasm.types[env.wasm.functions[func].typeIndex].params;
                             |args| == |params| && forall k :: 0 <= k < |args| ==> MatchesType(args[k], params[k])))
    ensures Refused(env, func, args) ==>
              StartJob(env, func, args, store) == Done(InvalidArgument, Shared([], [], 0, store))
  {
    hide MatchesType;
    if func < |env.wasm.functions| && env.wasm.functions[func].typeIndex < |env.wasm.types| {
      var params := Signature(env, func).params;
      if |args| == |params| {
        assert forall k :: 0 <= k < |args| ==> args[|args| - |params| + k] == args[k];
      }
    }
  }

  // ------------------------------------------- locals and the first frame

  /** A value of this type with no bit set. */
  predicate ZeroOf(v: Value, code: nat) {
    MatchesType(v, code) && v in {I32(0), I64(0), F32(0), F64(0), V128(0), Ref(0)}
  }

  predicate HasValues(code: nat) {
    0x7B <= code <= 0x7F || code == 0x70 || code == 0x6F
  }

  lemma {:induction false} ZerosExactly(types: seq<nat>)
    ensures ZeroValues(types).Success? <==> forall k :: 0 <= k < |types| ==> HasValues(types[k])
    ensures ZeroValues(types).Success? ==> forall k :: 0 <= k < |types| ==> ZeroOf(ZeroValues(types).value[k], types[k])
    ensures ZeroValues(types).Failure? ==> ZeroValues(types).error == Unsupported
    decreases |types|
  {
    if types != [] {
      ZerosExactly(types[1..]);
      assert forall k :: 1 <= k < |types| ==> types[k] == types[1..][k - 1];
      assert (forall k :: 0 <= k < |types| ==> HasValues(types[k])) <==>
             HasValues(types[0]) && forall k :: 0 <= k < |types[1..]| ==> HasValues(types[1..][k]);
    }
  }

  /** The locals of declaration `k`, each a zero of its type, behind those declared before it. */
  ghost predicate Holds(locals: seq<Value>, decls: seq<Decl>, k: nat)
    requires k < |decls|
  {
    var at := TotalLocals(decls[..k]);
    at + decls[k].count <= |locals| &&
    forall j :: at <= j < at + decls[k].count ==> ZeroOf(locals[j], decls[k].valtype)
  }

  predicate Typed(d: Decl) {
    d.count > 0 ==> HasValues(d.valtype)
  }

  lemma {:induction false} ZeroLocalsExactly(decls: seq<Decl>)
    ensures ZeroLocals(decls).Success? <==> forall k :: 0 <= k < |decls| ==> Typed(decls[k])
    ensures ZeroLocals(decls).Failure? ==> ZeroLocals(decls).error == Unsupported
    ensures ZeroLocals(decls).Success? ==> var locals := ZeroLocals(decls).value;
            |locals| == TotalLocals(decls) && forall k :: 0 <= k < |decls| ==> Holds(locals, decls, k)
    decreases |decls|
  {
    hide HasValues, ZeroOf;
    if decls != [] {
      ZeroLocalsExactly(decls[1..]);
      assert (forall k :: 0 <= k < |decls| ==> Typed(decls[k])) <==>
             Typed(decls[0]) && forall k :: 0 <= k < |decls[1..]| ==> Typed(decls[1..][k]) by {
        assert forall k :: 1 <= k < |decls| ==> decls[k] == decls[1..][k - 1];
      }
      ZeroOfOne(decls[0].valtype);
      if ZeroLocals(decls).Success? {
        var rest, locals := ZeroLocals(decls[1..]).value, ZeroLocals(decls).value;
        forall k | 0 <= k < |decls|
          ensures Holds(locals, decls, k)
        {
          if k > 0 {
            assert Holds(rest, decls[1..], k - 1);
            assert decls[..k][1..] == decls[1..][..k - 1];
          }
        }
      }
    }
  }

  lemma ZeroOfOne(code: nat)
    ensures ZeroValue(code).Success? <==> HasValues(code)
    ensures ZeroValue(code).Success? ==> ZeroOf(ZeroValue(code).value, code)
    ensures ZeroValue(code).Failure? ==> ZeroValue(code).error == Unsupported
  {
  }

  /** The locals of a function: first its parameters, then the declared ones in order, each with the zero
      of its type. They are refused exactly when they are 2^32 or more, or of a type without values. */
  lemma LocalsExactly(env: Env, func: nat, count: Leb, decls: seq<Decl>, codeStart: nat)
    requires func < |env.wasm.functions| && env.wasm.functions[func].typeIndex < |env.wasm.types|
    requires var body := env.wasm.functions[func].body;
             ReadULeb(body, 0) == Success(count)
                 && ParseDecls(body, count.next, count.value) == Success((decls, codeStart))
    ensures var params, parsed := Signature(env, func).params, ParseLocals(env, func);
            && (parsed.Success? <==> |params| + TotalLocals(decls) < 0x1_0000_0000
                                     && (forall k :: 0 <= k < |params| ==> HasValues(params[k]))
                                     && (forall k :: 0 <= k < |decls| ==> Typed(decls[k])))
            && (parsed.Failure? ==> parsed.error == Unsupported)
            && (parsed.Success? ==> var (locals, start) := parsed.value;
                start == codeStart && |locals| == |params| + TotalLocals(decls)
                && (forall k :: 0 <= k < |params| ==> ZeroOf(locals[k], params[k]))
                && (forall k :: 0 <= k < |decls| ==> Holds(locals[|params|..], decls, k)))
  {
    hide ReadULeb, ParseDecls, HasValues, ZeroOf, Typed, Holds;
    var params := Signature(env, func).params;
    ZerosExactly(params);
    ZeroLocalsExactly(decls);
    if ParseLocals(env, func).Success? {
      assert ParseLocals(env, func).value.0[|params|..] == ZeroLocals(decls).value;
    }
  }

  /** The first frame, on a stack of exactly the arguments or on an empty one. */
  lemma FirstPush(env: Env, func: nat, args: seq<Value>, store: Store)
    requires func < |env.wasm.functions| && ParseLocals(env, func).Success?
    requires var params := Signature(env, func).params; args != [] ==> |args| == |params| && TopMatches(args, params)
    ensures var (zeros, codeStart) := ParseLocals(env, func).value;
            var body, results := env.wasm.functions[func].body, Signature(env, func).results;
            |zeros| >= |args| && PushFrame(env, [], Shared(args, [], 0, store), func)
            == if ZeroValues(results).Failure? then Done(Unsupported, Shared([], [], 0, store))
               else Executing([Frame(func, body, codeStart, codeStart, [FunctionFrame(codeStart, body, results)],
                                     args + zeros[|args|..])], Shared([], [], 0, store))
  {
    hide ParseLocals, FirstMiss, TopMatches, ZeroValues;
    var zeros, n := ParseLocals(env, func).value.0, |Signature(env, func).params|;
    if args != [] {
      assert args[|args| - n..] == args && args[..|args| - n] == [];
    } else {
      assert args + zeros[0..] == zeros && args[..0] == [];
    }
  }

  /** A job on an internal function starts with one frame and an empty stack. Given arguments are its first
      locals, without arguments all are zeros, even where the signature asks for some. */
  lemma FirstFrame(env: Env, func: nat, args: seq<Value>, store: Store)
    requires !Refused(env, func, args) && !env.wasm.functions[func].imported
    ensures var job, none := StartJob(env, func, args, store), Shared([], [], 0, store);
            match ParseLocals(env, func)
            case Failure(e) => job == Done(e, Shared(args, [], 0, store))
            case Success((zeros, codeStart)) =>
              var body, results := env.wasm.functions[func].body, Signature(env, func).results;
              var outer := ControlFrame(BlockFrame, codeStart, 0, |body|, [], results, 0);
              if exists k :: 0 <= k < |results| && !HasValues(results[k]) then job == Done(Unsupported, none)
              else |zeros| >= |args| && job == Executing([Frame(func, body, codeStart, codeStart, [outer],
                                                                args + zeros[|args|..])], none)
  {
    hide ParseLocals, HasValues, ZeroOf, TopMatches, ZeroValues;
    if ParseLocals(env, func).Success? {
      hide PushFrame;
      ZerosExactly(Signature(env, func).results);
      FirstPush(env, func, args, store);
    }
  }

  /** A call that gets its operands but not its frame: locals that cannot be set up end the job before an
      operand is taken, a result type without values after. */
  lemma RefusedCall(env: Env, frames: seq<Frame>, s: Shared, func: nat)
    requires func < |env.wasm.functions| && !env.wasm.functions[func].imported && 0 < |frames| < Limit(env)
    ensures ParseLocals(env, func).Failure? ==>
              CallFunction(env, frames, s, func) == Done(ParseLocals(env, func).error, s)
    ensures ParseLocals(env, func).Success? && TopMatches(s.stack, Signature(env, func).params) ==>
              var n, results := |Signature(env, func).params|, Signature(env, func).results;
              ((exists k :: 0 <= k < |results| && !HasValues(results[k])) <==>
               CallFunction(env, frames, s, func) == Done(Unsupported, s.(stack := s.stack[..|s.stack| - n])))
  {
    hide ParseLocals, HasValues, ZeroOf, Hits;
    if ParseLocals(env, func).Success? {
      ZerosExactly(Signature(env, func).results);
    }
  }
}
