/** The control part of a call frame as the interpreter runs it: a program counter and a stack of
    labels updated in place over the linked operand stack. Every method is held to the control
    machine's function of the same name. */
module CallFrames {
  import opened Core
  import opened RuntimeState
  import opened Decoders
  import opened Machine
  import opened OperandStack

  class CallFrame {
    var pc: nat
    var control: seq<ControlFrame>

    constructor (codeStart: nat, body: seq<byte>, results: seq<nat>)
      ensures pc == codeStart && control == [FunctionFrame(codeStart, body, results)]
    {
      pc := codeStart;
      control := [FunctionFrame(codeStart, body, results)];
    }

    /** The frame, the operand stack and what the caller is told show outcome `o`. */
    ghost predicate Shows(o: Outcome, stack: JobStack, status: Status, finished: bool)
      requires stack.Valid()
      reads this, stack, stack.nodes
    {
      match o
      case Running(pc', control', m) =>
        status == Ok && !finished && pc == pc' && control == control' && stack.Contents() == m.stack
      case Finished(m) => status == Ok && finished && stack.Contents() == m.stack
      case Fault(s, m) => status == s && stack.Contents() == m.stack
      case Calling(_, _, _) => false
    }

    /** Unwinds to the label's height with the label's types, then jumps and drops labels: a loop
        keeps its own, any other target is left. */
    method BranchToLabel(stack: JobStack, depth: nat, ghost m: Mach) returns (status: Status)
      requires stack.Valid() && m.stack == stack.Contents()
      modifies this, stack, stack.nodes
      ensures stack.Valid() && (forall n :: n in stack.nodes ==> n in old(stack.nodes) || fresh(n))
      ensures Shows(BranchTo(old(control), depth, m), stack, status, false)
    {
      hide Unwind, JobStack.Valid, JobStack.Contents;
      if depth >= |control| {
        return Trap;
      }
      var index := |control| - 1 - depth;
      var target := control[index];
      var types := if target.kind == LoopFrame && |target.params| > 0 then target.params else target.results;
      status := stack.UnwindTo(target.height, types);
      if status != Ok {
        return;
      }
      if target.kind == LoopFrame {
        pc, control := target.startPc, control[..index + 1];
      } else {
        pc, control := target.endPc, control[..index];
      }
    }

    method EnterBlock(stack: JobStack, kind: ControlType, sig: FuncType, extent: Extent, ghost m: Mach)
      returns (status: Status)
      requires stack.Valid() && m.stack == stack.Contents()
      modifies this
      ensures stack.Valid()
      ensures Shows(Machine.EnterBlock(kind, sig, extent, old(pc), old(control), m), stack, status, false)
    {
      hide JobStack.Valid, JobStack.Contents, TopMatches;
      TopIsThere(m.stack, sig.params);
      status := stack.CheckTypes(sig.params);
      if status != Ok {
        return;
      }
      if !Storable(sig) {
        return Unsupported;
      }
      control :=
          control + [ControlFrame(kind, pc, 0, extent.endPc, sig.params, sig.results, stack.size - |sig.params|)];
    }

    /** The first arm, the second, or, without one, straight to the label's end. */
    method TakeArm(stack: JobStack, cond: Value, elsePc: nat, ghost m: Mach) returns (status: Status)
      requires stack.Valid() && m.stack == stack.Contents()
      modifies this, stack, stack.nodes
      ensures stack.Valid() && (forall n :: n in stack.nodes ==> n in old(stack.nodes) || fresh(n))
      requires control != [] && elsePc == control[|control| - 1].elsePc
      ensures Shows(ArmOf(cond, old(pc), old(control)[..|old(control)| - 1], old(control)[|old(control)| - 1], m),
                    stack, status, false)
    {
      hide JobStack.Valid, JobStack.Contents, BranchTo;
      assert control[..|control| - 1] + [control[|control| - 1]] == control;
      status := Ok;
      if !Truthy(cond) {
        if elsePc != 0 {
          pc := elsePc;
        } else {
          status := BranchToLabel(stack, 0, m);
        }
      }
    }

    /** With the condition off the stack: checks the operands, corrects the label's height, takes an arm. */
    method EnterArm(stack: JobStack, cond: Value, ghost below: seq<ControlFrame>, ghost entry0: ControlFrame,
          ghost m: Mach)
      returns (status: Status)
      requires stack.Valid() && m.stack == stack.Contents() && control == below + [entry0]
      modifies this, stack, stack.nodes
      ensures stack.Valid() && (forall n :: n in stack.nodes ==> n in old(stack.nodes) || fresh(n))
      ensures Shows(if !TopMatches(m.stack, entry0.params) then Fault(Trap, m)
                    else ArmOf(cond, old(pc), below, entry0.(height := |m.stack| - |entry0.params|), m),
                    stack, status, false)
    {
      hide JobStack.Valid, JobStack.Contents, TopMatches, BranchTo, Truthy;
      TopIsThere(m.stack, entry0.params);
      var entry := control[|control| - 1];
      status := stack.CheckTypes(entry.params);
      if status != Ok {
        return;
      }
      control := control[..|control| - 1] + [entry.(height := stack.size - |entry.params|)];
      assert control == below + [entry0.(height := |m.stack| - |entry0.params|)];
      status := TakeArm(stack, cond, entry.elsePc, m);
    }

    /** Pushes the label first, then takes the condition off the stack. */
    method EnterIf(stack: JobStack, sig: FuncType, extent: Extent, ghost m: Mach) returns (status: Status)
      requires stack.Valid() && m.stack == stack.Contents()
      modifies this, stack, stack.nodes
      ensures stack.Valid() && (forall n :: n in stack.nodes ==> n in old(stack.nodes) || fresh(n))
      ensures Shows(Machine.EnterIf(sig, extent, old(pc), old(control), m), stack, status, false)
    {
      hide JobStack.Valid, JobStack.Contents, TopMatches, BranchTo, Truthy, Storable;
      if |sig.results| > 0 && extent.elsePc == 0 {
        return Unsupported;
      }
      if !Storable(sig) {
        return Unsupported;
      }
      ghost var before := control;
      var entry := ControlFrame(IfFrame, pc, extent.elsePc, extent.endPc, sig.params, sig.results, stack.size);
      control := control + [entry];
      var cond := stack.Pop();
      if cond.None? {
        return Trap;
      }
      ghost var m' := m.(stack := stack.Contents());
      assert m'.stack == m.stack[..|m.stack| - 1] && cond.value == m.stack[|m.stack| - 1];
      status := EnterArm(stack, cond.value, before, entry, m');
    }

    /** Block openers: decode the signature, scan for the end, then check and push. */
    method Enter(env: Env, body: seq<byte>, kind: BlockKind, blockType: int, stack: JobStack,
          ghost m: Mach) returns (status: Status)
      requires stack.Valid() && m.stack == stack.Contents()
      modifies this, stack, stack.nodes
      ensures stack.Valid() && (forall n :: n in stack.nodes ==> n in old(stack.nodes) || fresh(n))
      ensures Shows(Machine.Enter(env, body, kind, blockType, old(pc), old(control), m), stack, status, false)
    {
      hide JobStack.Valid, JobStack.Contents, Scan, BlockSignature, Machine.EnterBlock, Machine.EnterIf;
      var sig := BlockSignature(env.wasm.types, blockType);
      if sig.Failure? {
        return sig.error;
      }
      var extent := ScanBlock(env.MultiMemory(), body, pc);
      if extent.Failure? {
        return extent.error;
      }
      match kind {
        case BlockOp => status := EnterBlock(stack, BlockFrame, sig.value, extent.value, m);
        case LoopOp => status := EnterBlock(stack, LoopFrame, sig.value, extent.value, m);
        case IfOp => status := EnterIf(stack, sig.value, extent.value, m);
      }
    }

    /** `end` unwinds to the innermost label and pops it; popping the last one finishes the frame. */
    method ExecuteEnd(stack: JobStack, ghost m: Mach) returns (status: Status, finished: bool)
      requires stack.Valid() && m.stack == stack.Contents()
      modifies this, stack, stack.nodes
      ensures stack.Valid() && (forall n :: n in stack.nodes ==> n in old(stack.nodes) || fresh(n))
      ensures Shows(Machine.ExecuteEnd(old(pc), old(control), m), stack, status, finished)
    {
      hide Unwind, JobStack.Valid, JobStack.Contents;
      finished := |control| == 1;
      if |control| == 0 {
        return Ok, finished;
      }
      var entry := control[|control| - 1];
      status := stack.UnwindTo(entry.height, entry.results);
      if status == Ok {
        control := control[..|control| - 1];
      }
    }

    method ExecuteControlOp(env: Env, body: seq<byte>, c: Control, stack: JobStack, ghost m: Mach)
      returns (status: Status, finished: bool)
      requires stack.Valid() && m.stack == stack.Contents()
      modifies this, stack, stack.nodes
      ensures stack.Valid() && (forall n :: n in stack.nodes ==> n in old(stack.nodes) || fresh(n))
      ensures Shows(ExecuteControl(env, body, old(pc), old(control), m, c), stack, status, finished)
    {
      hide JobStack.Valid, JobStack.Contents, BranchTo, Machine.Enter, Machine.ExecuteEnd;
      finished := false;
      match c {
        case Open(kind, blockType) => status := Enter(env, body, kind, blockType, stack, m);
        case Else => status := BranchToLabel(stack, 0, m);
        case End => status, finished := ExecuteEnd(stack, m);
        case Br(depth) => status := BranchToLabel(stack, depth, m);
        case BrIf(depth) =>
          var cond := stack.Pop();
          if cond.None? {
            return Trap, false;
          }
          assert stack.Contents() == m.stack[..|m.stack| - 1] && cond.value == m.stack[|m.stack| - 1];
          status := Ok;
          if Truthy(cond.value) {
            status := BranchToLabel(stack, depth, m.(stack := stack.Contents()));
          }
        case BrTable(depths, default) =>
          var value := stack.Pop();
          if value.None? {
            return Trap, false;
          }
          assert stack.Contents() == m.stack[..|m.stack| - 1] && value.value == m.stack[|m.stack| - 1];
          var index := IndexValue(env, value.value);
          if index.None? {
            return Trap, false;
          }
          var depth := default;
          if index.value < |depths| {
            depth := depths[index.value];
          }
          status := BranchToLabel(stack, depth, m.(stack := stack.Contents()));
        case Unreachable =>
          stack.Reset();
          status := Trap;
        case Nop => status := Ok;
        case Return =>
          finished := true;
          status := Ok;
          if |control| > 0 {
            status := BranchToLabel(stack, |control| - 1, m);
          }
      }
    }
  }

  /** Where an `if` goes once its label `f` is in place. */
  function ArmOf(cond: Value, pc: nat, below: seq<ControlFrame>, f: ControlFrame, m: Mach): (o: Outcome)
    ensures !o.Calling?
  {
    if Truthy(cond) then Running(pc, below + [f], m)
    else if f.elsePc != 0 then Running(f.elsePc, below + [f], m)
    else BranchTo(below + [f], 0, m)
  }

  lemma TopIsThere(stack: seq<Value>, types: seq<nat>)
    ensures TopMatches(stack, types) ==> |types| <= |stack|
  {
  }
}
