/** The control machine: block scanning, the control stack of a frame, stack unwinding,
    branches, and one step of the execution loop. */
module Machine {
  import opened Core
  import opened Leb128
  import opened RuntimeState
  import opened Decoders

  // ------------------------------------------------------------ block scanning

  /** Where a block's `else` part begins (0 when it has none) and the position after its `end`. */
  datatype Extent = Extent(elsePc: nat, endPc: nat)

  /** The scan from `c` with `depth` blocks open; `elsePc` is the `else` found so far. */
  function ScanFrom(multi: bool, body: seq<byte>, c: nat, depth: nat, elsePc: nat): (r: Result<Extent>)
    requires depth > 0
    ensures r.Success? ==> c < r.value.endPc <= |body|
    decreases |body| - c
  {
    if c >= |body| then Failure(Stream)
    else
      var op := body[c];
      if IsBlock(op) then
        var l :- ReadSLeb(body, c + 1);
        ScanFrom(multi, body, l.next, depth + 1, elsePc)
      else if op == 0x05 then
        ScanFrom(multi, body, c + 1, depth, if depth == 1 && elsePc == 0 then c + 1 else elsePc)
      else if op == 0x0B then
        if depth == 1 then Success(Extent(elsePc, c + 1)) else ScanFrom(multi, body, c + 1, depth - 1, elsePc)
      else
        var next :- SkipImmediates(multi, body, c + 1, op);
        ScanFrom(multi, body, next, depth, elsePc)
  }

  function Scan(multi: bool, body: seq<byte>, start: nat): (r: Result<Extent>)
    ensures r.Success? ==> start < r.value.endPc <= |body|
  {
    ScanFrom(multi, body, start, 1, 0)
  }

  method ScanBlock(multi: bool, body: seq<byte>, start: nat) returns (r: Result<Extent>)
    ensures r == Scan(multi, body, start)
  {
    hide SkipImmediates, ReadSLeb;
    var cursor, depth, elsePc := start, 1, 0;
    while cursor < |body|
      invariant depth > 0
      invariant Scan(multi, body, start) == ScanFrom(multi, body, cursor, depth, elsePc)
      decreases |body| - cursor
    {
      var op := body[cursor];
      cursor := cursor + 1;
      if IsBlock(op) {
        var l := ReadSLeb128(body, cursor);
        if l.Failure? {
          return Failure(l.error);
        }
        cursor, depth := l.value.next, depth + 1;
      } else if op == 0x05 {
        if depth == 1 && elsePc == 0 {
          elsePc := cursor;
        }
      } else if op == 0x0B {
        depth := depth - 1;
        if depth == 0 {
          return Success(Extent(elsePc, cursor));
        }
      } else {
        var next := SkipImmediates(multi, body, cursor, op);
        if next.Failure? {
          return Failure(next.error);
        }
        cursor := next.value;
      }
    }
    return Failure(Stream);
  }

  // ------------------------------------------------------------ block signatures

  function BlockSignature(types: seq<FuncType>, blockType: int): Result<FuncType> {
    if blockType == -64 || blockType == 0x40 then Success(FuncType([], []))
    else if blockType >= 0 then
      if blockType < |types| then Success(types[blockType]) else Failure(Unsupported)
    else if blockType == -1 then Success(FuncType([], [VALTYPE_I32]))
    else if blockType == -2 then Success(FuncType([], [VALTYPE_I64]))
    else if blockType == -3 then Success(FuncType([], [VALTYPE_F32]))
    else if blockType == -4 then Success(FuncType([], [VALTYPE_F64]))
    else if blockType == -5 then Success(FuncType([], [VALTYPE_V128]))
    else Failure(Unsupported)
  }

  /** A control frame stores types in bytes, so pushing one refuses wider codes. */
  predicate Storable(sig: FuncType) {
    (forall t :: t in sig.params ==> t < 256) && (forall t :: t in sig.results ==> t < 256)
  }

  // ------------------------------------------------------------------- unwinding

  /** The `k`-th value from the top has the `k`-th type from the last. */
  predicate Hits(stack: seq<Value>, types: seq<nat>, k: nat)
    requires k < |types| <= |stack|
  {
    MatchesType(stack[|stack| - 1 - k], types[|types| - 1 - k])
  }

  function FirstMiss(stack: seq<Value>, types: seq<nat>, k: nat): (n: nat)
    requires k <= |types| <= |stack|
    ensures k <= n <= |types| && (n < |types| ==> !Hits(stack, types, n))
    ensures forall j :: k <= j < n ==> Hits(stack, types, j)
    decreases |types| - k
  {
    if k == |types| || !Hits(stack, types, k) then k else FirstMiss(stack, types, k + 1)
  }

  lemma HitsAreMatches(stack: seq<Value>, types: seq<nat>)
    requires |types| <= |stack|
    ensures TopMatches(stack, types) <==> forall j :: 0 <= j < |types| ==> Hits(stack, types, j)
  {
    if forall j :: 0 <= j < |types| ==> Hits(stack, types, j) {
      forall i | 0 <= i < |types|
        ensures MatchesType(stack[|stack| - |types| + i], types[i])
      {
        assert Hits(stack, types, |types| - 1 - i);
      }
    }
  }

  /** How many of `types`, counted from the last, the top of `stack` matches before the first mismatch. */
  function MatchedFromTop(stack: seq<Value>, types: seq<nat>): (n: nat)
    requires |types| <= |stack|
    ensures n <= |types| && (n == |types| <==> TopMatches(stack, types))
    ensures forall j :: 0 <= j < n ==> Hits(stack, types, j)
    ensures n < |types| ==> !Hits(stack, types, n)
  {
    HitsAreMatches(stack, types);
    FirstMiss(stack, types, 0)
  }

  /** Pops one value per type, checking each, then cuts the stack to `height` and puts the values
      back. The values popped before a mismatch stay popped. */
  function Unwind(stack: seq<Value>, height: nat, types: seq<nat>): (r: (Status, seq<Value>)) {
    if |stack| < height || (types != [] && |stack| < height + |types|) then
      (Trap, stack)
    else
      var n := MatchedFromTop(stack, types);
      if n < |types| then (Trap, stack[..|stack| - n - 1])
      else (Ok, stack[..height] + stack[|stack| - |types|..])
  }

  /** Unwinding succeeds exactly when enough operands of the right kinds are there; it then keeps
      the lowest `height` values and the top ones, in order. */
  lemma UnwindKeepsTop(stack: seq<Value>, height: nat, types: seq<nat>)
    ensures var (status, out) := Unwind(stack, height, types);
            && (status == Ok <==> height + |types| <= |stack| && TopMatches(stack, types))
            && (status == Ok ==> |out| == height + |types| && out[..height] == stack[..height] &&
                                 out[height..] == stack[|stack| - |types|..] && TopMatches(out, types))
            && (status != Ok ==> status == Trap && out == stack[..|out|])
  {
    var (status, out) := Unwind(stack, height, types);
    if status == Ok {
      assert out[height..] == stack[|stack| - |types|..];
      forall i | 0 <= i < |types|
        ensures MatchesType(out[|out| - |types| + i], types[i])
      {
        assert out[height + i] == stack[|stack| - |types| + i];
      }
    }
  }

  // -------------------------------------------------------------- control frames

  datatype ControlType = BlockFrame | LoopFrame | IfFrame

  datatype ControlFrame = ControlFrame(kind: ControlType, startPc: nat, elsePc: nat, endPc: nat,
                                       params: seq<nat>, results: seq<nat>, height: nat)

  /** The types a branch to this label carries: a loop that takes parameters expects those. A loop
      that takes none is left to its result types. */
  function LabelTypes(f: ControlFrame): seq<nat> {
    if f.kind == LoopFrame && f.params != [] then f.params else f.results
  }

  /** What a frame does next. `Finished` pops it; `Calling` asks for a callee. */
  datatype Outcome =
    | Running(pc: nat, control: seq<ControlFrame>, mach: Mach)
    | Calling(pc: nat, control: seq<ControlFrame>, mach: Mach)
    | Finished(mach: Mach)
    | Fault(status: Error, mach: Mach)

  function BranchTo(control: seq<ControlFrame>, depth: nat, m: Mach): (o: Outcome)
    ensures o.Running? || (o.Fault? && o.status == Trap)
  {
    if depth >= |control| then Fault(Trap, m)
    else
      var index := |control| - 1 - depth;
      var target := control[index];
      var (status, stack) := Unwind(m.stack, target.height, LabelTypes(target));
      var m' := m.(stack := stack);
      if status != Ok then Fault(status, m')
      else if target.kind == LoopFrame then Running(target.startPc, control[..index + 1], m')
      else Running(target.endPc, control[..index], m')
  }

  /** Entering a block or loop whose signature is `sig` and whose body starts at `pc`. */
  function EnterBlock(kind: ControlType, sig: FuncType, extent: Extent, pc: nat,
                      control: seq<ControlFrame>, m: Mach): (o: Outcome)
    ensures o.Running? || o.Fault?
  {
    if !TopMatches(m.stack, sig.params) then Fault(Trap, m)
    else if !Storable(sig) then Fault(Unsupported, m)
    else
      var f := ControlFrame(kind, pc, 0, extent.endPc, sig.params, sig.results, |m.stack| - |sig.params|);
      Running(pc, control + [f], m)
  }

  function EnterIf(sig: FuncType, extent: Extent, pc: nat, control: seq<ControlFrame>, m: Mach): (o: Outcome)
    ensures o.Running? || o.Fault?
  {
    if sig.results != [] && extent.elsePc == 0 then Fault(Unsupported, m)
    else if !Storable(sig) then Fault(Unsupported, m)
    else if m.stack == [] then Fault(Trap, m)
    else
      var cond := m.stack[|m.stack| - 1];
      var m' := m.(stack := m.stack[..|m.stack| - 1]);
      if !TopMatches(m'.stack, sig.params) then Fault(Trap, m')
      else
        var f := ControlFrame(IfFrame, pc, extent.elsePc, extent.endPc, sig.params, sig.results,
                              |m'.stack| - |sig.params|);
        if Truthy(cond) then Running(pc, control + [f], m')
        else if extent.elsePc != 0 then Running(extent.elsePc, control + [f], m')
        else BranchTo(control + [f], 0, m')
  }

  function Enter(env: Env, body: seq<byte>, kind: BlockKind, blockType: int, pc: nat,
                 control: seq<ControlFrame>, m: Mach): (o: Outcome)
    ensures o.Running? || o.Fault?
  {
    match BlockSignature(env.wasm.types, blockType)
    case Failure(e) => Fault(e, m)
    case Success(sig) =>
      match Scan(env.MultiMemory(), body, pc)
      case Failure(e) => Fault(e, m)
      case Success(extent) =>
        match kind
        case BlockOp => EnterBlock(BlockFrame, sig, extent, pc, control, m)
        case LoopOp => EnterBlock(LoopFrame, sig, extent, pc, control, m)
        case IfOp => EnterIf(sig, extent, pc, control, m)
  }

  /** `end`: the innermost frame is closed; closing the last one finishes the function. */
  function ExecuteEnd(pc: nat, control: seq<ControlFrame>, m: Mach): (o: Outcome)
    ensures !o.Calling?
  {
    if control == [] then Running(pc, control, m)
    else
      var f := control[|control| - 1];
      var (status, stack) := Unwind(m.stack, f.height, f.results);
      var m' := m.(stack := stack);
      if status != Ok then Fault(status, m')
      else if |control| == 1 then Finished(m')
      else Running(pc, control[..|control| - 1], m')
  }

  function ExecuteReturn(control: seq<ControlFrame>, m: Mach): (o: Outcome)
    ensures o.Finished? || o.Fault?
  {
    if control == [] then Finished(m)
    else
      match BranchTo(control, |control| - 1, m)
      case Running(_, _, m') => Finished(m')
      case other => other
  }

  /** The branch index as a 64-bit number; a vector has none. */
  function IndexValue(env: Env, v: Value): Option<nat> {
    match v
    case I32(b) => Some(b)
    case I64(b) => Some(b)
    case F32(_) => Some(env.truncate(v))
    case F64(_) => Some(env.truncate(v))
    case V128(_) => None
    case Ref(p) => Some(p)
  }

  function SelectLabel(depths: seq<nat>, default: nat, index: nat): nat {
    if index < |depths| then depths[index] else default
  }

  function ExecuteControl(env: Env, body: seq<byte>, pc: nat, control: seq<ControlFrame>, m: Mach,
                          c: Control): Outcome
  {
    match c
    case Open(kind, blockType) => Enter(env, body, kind, blockType, pc, control, m)
    case Else => BranchTo(control, 0, m)
    case End => ExecuteEnd(pc, control, m)
    case Br(depth) => BranchTo(control, depth, m)
    case BrIf(depth) =>
      if m.stack == [] then Fault(Trap, m)
      else
        var m' := m.(stack := m.stack[..|m.stack| - 1]);
        if Truthy(m.stack[|m.stack| - 1]) then BranchTo(control, depth, m') else Running(pc, control, m')
    case BrTable(depths, default) =>
      if m.stack == [] then Fault(Trap, m)
      else
        var m' := m.(stack := m.stack[..|m.stack| - 1]);
        (match IndexValue(env, m.stack[|m.stack| - 1])
         case None => Fault(Trap, m')
         case Some(index) => BranchTo(control, SelectLabel(depths, default, index), m'))
    case Unreachable => Fault(Trap, m.(stack := []))
    case Nop => Running(pc, control, m)
    case Return => ExecuteReturn(control, m)
  }

  // -------------------------------------------------------------- plain dispatch

  /** Runs handlers in order and stops at the first one that does not return `Ok`. */
  function ExecuteSteps(env: Env, op: byte, steps: seq<Option<OpId>>, m: Mach): (Mach, Status)
    decreases |steps|
  {
    if steps == [] then (m, Ok)
    else if steps[0].None? then (m, Unimplemented)
    else
      var (m', status) := env.run(steps[0].value, op, m);
      if status != Ok then (m', status) else ExecuteSteps(env, op, steps[1..], m')
  }

  /** Single-opcode dispatch: microcode first, then the table's handler. */
  function ExecuteOp(env: Env, op: byte, m: Mach): (Mach, Status) {
    var def := env.ops(op);
    if def.operation.None? then (m, Unimplemented)
    else if env.microcodeEnabled && def.microcode.Some? then ExecuteSteps(env, op, def.microcode.value, m)
    else env.run(def.operation.value, op, m)
  }

  predicate IsCall(op: byte) {
    op == 0x10 || op == 0x11
  }

  /** A plain instruction has run; calls go on to the callee. */
  function AfterPlain(op: byte, pc: nat, control: seq<ControlFrame>, result: (Mach, Status)): Outcome {
    if result.1 != Ok then Fault(result.1, result.0)
    else if IsCall(op) then Calling(pc, control, result.0)
    else Running(pc, control, result.0)
  }

  function PushImms(m: Mach, imms: seq<Imm>): Mach {
    m.(window := Trim(m.window + imms))
  }

  /** One turn of the execution loop on a frame. */
  function Step(env: Env, body: seq<byte>, pc: nat, control: seq<ControlFrame>, m: Mach): Outcome {
    if pc >= |body| then Finished(m)
    else
      match Decode(env, body, pc)
      case Failure(e) => Fault(e, m)
      case Success(d) =>
        match d.instruction
        case Control(c) => ExecuteControl(env, body, d.next, control, m, c)
        case Plain(op, imms) => AfterPlain(op, d.next, control, ExecuteOp(env, op, PushImms(m, imms)))
  }

  /** `n` turns, or fewer when the frame stops running on its own. */
  function Run(env: Env, body: seq<byte>, o: Outcome, n: nat): Outcome
    decreases n
  {
    if n == 0 || !o.Running? then o else Run(env, body, Step(env, body, o.pc, o.control, o.mach), n - 1)
  }

  lemma {:induction false} RunAdd(env: Env, body: seq<byte>, o: Outcome, a: nat, b: nat)
    ensures Run(env, body, o, a + b) == Run(env, body, Run(env, body, o, a), b)
    decreases a
  {
    hide Step;
    if a > 0 && o.Running? {
      RunAdd(env, body, Step(env, body, o.pc, o.control, o.mach), a - 1, b);
    }
  }

  /** The function-level label a call pushes. Its height is 0 whatever the caller left behind. */
  function FunctionFrame(codeStart: nat, body: seq<byte>, results: seq<nat>): ControlFrame {
    ControlFrame(BlockFrame, codeStart, 0, |body|, [], results, 0)
  }
}
