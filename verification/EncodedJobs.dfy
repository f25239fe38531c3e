/** From a written function to a finished job: a job on the encoding of a function ends exactly as the
    structured semantics takes the function's tree. */
module EncodedJobs {
  import opened Core
  import opened Leb128
  import opened RuntimeState
  import opened Machine
  import opened Structured
  import opened Simulation
  import opened Jobs
  import opened LabelRules
  import E = Encoding

  // --------------------------------------------- a job that is a single frame

  /** The job of one frame without calls, in the state `o` of its machine. */
  function JobOf(func: nat, body: seq<byte>, codeStart: nat, o: Outcome): Job
    requires !o.Calling?
  {
    match o
    case Running(pc, control, m) => Executing([Frame(func, body, codeStart, pc, control, m.locals)], SharedOf(m))
    case Finished(m) => Executing([], SharedOf(m))
    case Fault(status, m) => Done(status, SharedOf(m))
  }

  /** How a job is over when its only frame has stopped. */
  function JobEnd(o: Outcome): Job
    requires o.Finished? || o.Fault?
  {
    if o.Finished? then Done(Ok, SharedOf(o.mach)) else Done(o.status, SharedOf(o.mach))
  }

  lemma FrameTurn(env: Env, func: nat, body: seq<byte>, codeStart: nat, o: Outcome)
    requires o.Running? && !Step(env, body, o.pc, o.control, o.mach).Calling?
    ensures JobStep(env, JobOf(func, body, codeStart, o))
            == JobOf(func, body, codeStart, Step(env, body, o.pc, o.control, o.mach))
  {
    hide Step;
    var top := Frame(func, body, codeStart, o.pc, o.control, o.mach.locals);
    assert [top][..0] == [];
    assert MachOf(SharedOf(o.mach), o.mach.locals) == o.mach;
  }

  lemma StoppedTurn(env: Env, func: nat, body: seq<byte>, codeStart: nat, o: Outcome, n: nat)
    requires o.Finished? || o.Fault?
    ensures RunJob(env, JobOf(func, body, codeStart, o), n + 1) == JobEnd(o)
  {
    var job := JobOf(func, body, codeStart, o);
    if o.Finished? {
      assert JobStep(env, job) == JobEnd(o);
      DoneStays(env, JobEnd(o), n);
    } else {
      DoneStays(env, job, n + 1);
    }
  }

  /** While the frame runs the job is in its state; one turn after it has stopped, the job is over. */
  lemma {:induction false} JobFollowsFrame(env: Env, func: nat, body: seq<byte>, codeStart: nat, o: Outcome, n: nat)
    requires o.Running? && forall k: nat :: !Run(env, body, o, k).Calling?
    ensures Run(env, body, o, n).Running? ==>
              RunJob(env, JobOf(func, body, codeStart, o), n) == JobOf(func, body, codeStart, Run(env, body, o, n))
    ensures !Run(env, body, o, n).Running? ==>
              RunJob(env, JobOf(func, body, codeStart, o), n + 1) == JobEnd(Run(env, body, o, n))
    decreases n
  {
    hide Step, JobStep, JobOf, JobEnd;
    if n > 0 {
      var next := Step(env, body, o.pc, o.control, o.mach);
      assert Run(env, body, o, 1) == next;
      FrameTurn(env, func, body, codeStart, o);
      if next.Running? {
        forall k: nat
          ensures !Run(env, body, next, k).Calling?
        {
          assert Run(env, body, o, k + 1) == Run(env, body, next, k);
        }
        JobFollowsFrame(env, func, body, codeStart, next, n - 1);
      } else {
        StoppedTurn(env, func, body, codeStart, next, n - 1);
      }
    }
  }

  // ------------------------------------------------------- written functions

  /** The bytes of a function: its declarations, its code, and the final `end`. */
  function FunctionBytes(env: Env, decls: seq<Decl>, t: E.Tree): seq<byte> {
    (EncodeU(|decls|) + E.EncodeDecls(decls)) + E.Closed(E.EncodeTree(env, t), 0x0B)
  }

  /** What a caller can see of a function before starting it: its type, and that its locals have zeros
      and stay within 32 bits. */
  predicate Startable(env: Env, func: nat, decls: seq<Decl>) {
    && func < |env.wasm.functions| && !env.wasm.functions[func].imported
    && env.wasm.functions[func].typeIndex < |env.wasm.types|
    && var sig := Signature(env, func);
       && |sig.params| + TotalLocals(decls) < TWO_32 && |decls| < TWO_64
       && ZeroValues(sig.params).Success? && ZeroLocals(decls).Success? && ZeroValues(sig.results).Success?
  }

  lemma {:induction false} CountsFit(decls: seq<Decl>, i: nat)
    requires i < |decls|
    ensures decls[i].count <= TotalLocals(decls)
    decreases |decls|
  {
    if i > 0 {
      CountsFit(decls[1..], i - 1);
    }
  }

  lemma LocalsOfWritten(env: Env, func: nat, decls: seq<Decl>, t: E.Tree)
    requires Startable(env, func, decls) && env.wasm.functions[func].body == FunctionBytes(env, decls, t)
    ensures ParseLocals(env, func) == Success((ZeroValues(Signature(env, func).params).value + ZeroLocals(decls).value,
                                               |EncodeU(|decls|) + E.EncodeDecls(decls)|))
  {
    hide EncodeU, ReadULeb, ZeroValues, ZeroLocals, ParseDecls, TotalLocals;
    var body, count := env.wasm.functions[func].body, EncodeU(|decls|);
    var code := E.Closed(E.EncodeTree(env, t), 0x0B);
    assert LiesAt(body, 0, count + E.EncodeDecls(decls));
    E.LiesConcat(body, 0, count, E.EncodeDecls(decls));
    ULebRoundTrip(body, 0, |decls|);
    forall i | 0 <= i < |decls|
      ensures decls[i].count < TWO_64
    {
      CountsFit(decls, i);
    }
    E.DeclsRoundTrip(body, |count|, decls);
  }

  /** The locals a job's first frame starts with: its arguments, if any, then zeros. */
  function FirstLocals(env: Env, func: nat, decls: seq<Decl>, args: seq<Value>): seq<Value>
    requires Startable(env, func, decls)
  {
    (if args == [] then ZeroValues(Signature(env, func).params).value else args) + ZeroLocals(decls).value
  }

  lemma StartOfWritten(env: Env, func: nat, decls: seq<Decl>, t: E.Tree, args: seq<Value>, store: Store)
    requires Startable(env, func, decls) && env.wasm.functions[func].body == FunctionBytes(env, decls, t)
    requires !Refused(env, func, args)
    ensures var body, codeStart := env.wasm.functions[func].body, |EncodeU(|decls|) + E.EncodeDecls(decls)|;
            var m := Mach([], [], FirstLocals(env, func, decls, args), 0, store);
            StartJob(env, func, args, store)
            == JobOf(func, body, codeStart, StartFrame(body, codeStart, Signature(env, func).results, m))
  {
    hide ParseLocals, ZeroValues, ZeroLocals, FunctionBytes;
    LocalsOfWritten(env, func, decls, t);
    var params := Signature(env, func).params;
    var zeros := ZeroValues(params).value + ZeroLocals(decls).value;
    if args != [] {
      assert zeros[|params|..] == ZeroLocals(decls).value && args[|args| - |params|..] == args;
      assert args[..0] == [];
    } else if params == [] {
      assert zeros[0..] == zeros && [] + zeros == zeros;
    }
  }

  lemma SpellsWritten(env: Env, func: nat, decls: seq<Decl>, t: E.Tree) returns (codeStart: nat)
    requires func < |env.wasm.functions| && env.wasm.functions[func].body == FunctionBytes(env, decls, t)
             && E.TreeOk(env, t)
    ensures codeStart == |EncodeU(|decls|) + E.EncodeDecls(decls)|
    ensures SpellsFunction(env, env.wasm.functions[func].body, codeStart, E.Lower(env, t))
  {
    hide EncodeU, E.EncodeDecls, E.EncodeTree, Spells, E.Lower;
    codeStart := |EncodeU(|decls|) + E.EncodeDecls(decls)|;
    E.PartRoundTrip(env, env.wasm.functions[func].body, codeStart, t, 0x0B);
  }

  lemma NeverCalls(env: Env, body: seq<byte>, codeStart: nat, c: Code, results: seq<nat>, m: Mach, n: nat)
    requires SpellsFunction(env, body, codeStart, c)
    ensures !Run(env, body, StartFrame(body, codeStart, results, m), n).Calling?
  {
    hide Run, Exec, StartFrame, SpellsFunction;
    if !Run(env, body, StartFrame(body, codeStart, results, m), n).Running? {
      StoppedIsExecuted(env, body, codeStart, c, results, m, n);
    }
  }

  /** The structured semantics of the function, with this budget, ends like the job. */
  predicate TreeEnds(env: Env, rule: LabelRule, func: nat, decls: seq<Decl>, t: E.Tree, args: seq<Value>, store: Store,
                     fuel: nat, over: Job)
    requires Startable(env, func, decls)
  {
    var m := Mach([], [], FirstLocals(env, func, decls, args), 0, store);
    var end := ExecFunction(env, rule, E.Lower(env, t), Signature(env, func).results, m, fuel);
    end.Some? && (end.value.Finished? || end.value.Fault?) && over == JobEnd(end.value)
  }

  /** A job on a written function is over, with some status and state, exactly when the structured
      semantics takes its tree there: from the arguments and zeros as locals, an empty operand stack and
      the given store, to the same status, operands, window and store. */
  lemma EncodedJobsRefine(env: Env, func: nat, decls: seq<Decl>, t: E.Tree, args: seq<Value>, store: Store, over: Job)
    requires Startable(env, func, decls) && env.wasm.functions[func].body == FunctionBytes(env, decls, t)
    requires E.TreeOk(env, t) && !Refused(env, func, args) && over.Done?
    ensures (exists n :: RunJob(env, StartJob(env, func, args, store), n) == over)
            <==> (exists fuel :: TreeEnds(env, OfCode, func, decls, t, args, store, fuel, over))
  {
    hide Run, RunJob, StartJob, ExecFunction, FirstLocals, FunctionBytes, SpellsFunction, JobOf, JobEnd;
    var body, c, results := env.wasm.functions[func].body, E.Lower(env, t), Signature(env, func).results;
    var codeStart := SpellsWritten(env, func, decls, t);
    var m := Mach([], [], FirstLocals(env, func, decls, args), 0, store);
    var o := StartFrame(body, codeStart, results, m);
    StartOfWritten(env, func, decls, t, args, store);
    forall k: nat
      ensures !Run(env, body, o, k).Calling?
    {
      NeverCalls(env, body, codeStart, c, results, m, k);
    }
    if fuel: nat :| TreeEnds(env, OfCode, func, decls, t, args, store, fuel, over) {
      var n := SimFunction(env, body, codeStart, c, results, m, fuel);
      JobFollowsFrame(env, func, body, codeStart, o, n);
      assert RunJob(env, StartJob(env, func, args, store), n + 1) == over;
    }
    if n: nat :| RunJob(env, StartJob(env, func, args, store), n) == over {
      JobFollowsFrame(env, func, body, codeStart, o, n);
      RunningIsNotOver(func, body, codeStart, Run(env, body, o, n));
      StoppedIsExecuted(env, body, codeStart, c, results, m, n);
      OverStays(env, StartJob(env, func, args, store), n);
      assert TreeEnds(env, OfCode, func, decls, t, args, store, n + 1, over);
    }
  }

  lemma RunningIsNotOver(func: nat, body: seq<byte>, codeStart: nat, o: Outcome)
    ensures o.Running? ==> JobOf(func, body, codeStart, o).Executing?
  {
  }

  lemma {:induction false} OverStays(env: Env, job: Job, n: nat)
    requires RunJob(env, job, n).Done?
    ensures RunJob(env, job, n + 1) == RunJob(env, job, n)
    decreases n
  {
    hide JobStep;
    if n > 0 {
      OverStays(env, JobStep(env, job), n - 1);
    } else {
      DoneStays(env, job, 1);
    }
  }

  /** A function without loops that have results and no parameters does what the standard's label types
      make of it. */
  lemma RegularJobsRefine(env: Env, func: nat, decls: seq<Decl>, t: E.Tree, args: seq<Value>, store: Store, over: Job)
    requires Startable(env, func, decls) && env.wasm.functions[func].body == FunctionBytes(env, decls, t)
    requires E.TreeOk(env, t) && !Refused(env, func, args) && over.Done? && Regular(env.wasm.types, E.Lower(env, t))
    ensures (exists n :: RunJob(env, StartJob(env, func, args, store), n) == over)
            <==> (exists fuel :: TreeEnds(env, OfStandard, func, decls, t, args, store, fuel, over))
  {
    hide RunJob, StartJob, Exec, FirstLocals, FunctionBytes, Regular, JobEnd;
    EncodedJobsRefine(env, func, decls, t, args, store, over);
    forall fuel: nat
      ensures TreeEnds(env, OfStandard, func, decls, t, args, store, fuel, over)
              == TreeEnds(env, OfCode, func, decls, t, args, store, fuel, over)
    {
      RulesAgree(env, E.Lower(env, t), Mach([], [], FirstLocals(env, func, decls, args), 0, store), fuel);
    }
  }
}
