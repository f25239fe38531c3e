/** The control machine and the structured semantics agree, terminating or not. */
module Simulation {
  import opened Core
  import opened Leb128
  import opened RuntimeState
  import opened Decoders
  import opened Machine
  import opened Structured

  /** The machine's view of a flow that ends a piece of code at `q` under the frames `control`. */
  ghost function After(control: seq<ControlFrame>, q: nat, flow: Flow): Outcome
    requires !flow.Timeout?
  {
    match flow
    case Normal(m) => Running(q, control, m)
    case Jump(depth, m) => BranchTo(control, depth, m)
    case Leave(m) => ExecuteReturn(control, m)
    case Err(status, m) => Fault(status, m)
  }

  // ----------------------------------------------------------- frame bookkeeping

  lemma BranchBelow(control: seq<ControlFrame>, f: ControlFrame, depth: nat, m: Mach)
    ensures BranchTo(control + [f], depth + 1, m) == BranchTo(control, depth, m)
  {
    hide Unwind, TopMatches;
    if depth < |control| {
      var index := |control| - 1 - depth;
      assert (control + [f])[..index + 1] == control[..index + 1];
      assert (control + [f])[..index] == control[..index];
    }
  }

  lemma ReturnBelow(control: seq<ControlFrame>, f: ControlFrame, m: Mach)
    requires control != []
    ensures ExecuteReturn(control + [f], m) == ExecuteReturn(control, m)
  {
    BranchBelow(control, f, |control| - 1, m);
  }

  lemma BranchOwn(control: seq<ControlFrame>, f: ControlFrame, m: Mach)
    requires f.kind != LoopFrame
    ensures BranchTo(control + [f], 0, m) == After(control, f.endPc, Settle(m, f.height, f.results))
  {
    assert (control + [f])[..|control|] == control;
  }

  lemma EndOwn(control: seq<ControlFrame>, f: ControlFrame, pc: nat, m: Mach)
    requires control != []
    ensures ExecuteEnd(pc, control + [f], m) == After(control, pc, Settle(m, f.height, f.results))
  {
    assert (control + [f])[..|control|] == control;
  }

  lemma StepMark(env: Env, body: seq<byte>, pc: nat, control: seq<ControlFrame>, m: Mach)
    requires pc < |body|
    ensures body[pc] == 0x0B ==> Step(env, body, pc, control, m) == ExecuteEnd(pc + 1, control, m)
    ensures body[pc] == 0x05 ==> Step(env, body, pc, control, m) == BranchTo(control, 0, m)
  {
    hide ExecuteEnd, BranchTo, ExecuteOp, Enter, DecodePlain, ReadULeb, ReadSLeb;
  }

  function KindOf(op: byte): BlockKind {
    if op == 0x02 then BlockOp else if op == 0x03 then LoopOp else IfOp
  }

  lemma StepOpens(env: Env, body: seq<byte>, p: nat, op: byte, blockType: int, control: seq<ControlFrame>, m: Mach)
    requires IsBlock(op) && OpensAt(body, p, op, blockType).Some?
    ensures Step(env, body, p, control, m)
            == Enter(env, body, KindOf(op), blockType, OpensAt(body, p, op, blockType).value, control, m)
  {
  }

  lemma OneTurn(env: Env, body: seq<byte>, pc: nat, control: seq<ControlFrame>, m: Mach)
    ensures Run(env, body, Running(pc, control, m), 1) == Step(env, body, pc, control, m)
  {
    hide Step;
    assert Run(env, body, Step(env, body, pc, control, m), 0) == Step(env, body, pc, control, m);
  }

  // --------------------------------------------------------------- leaves

  lemma SimLeaf(env: Env, body: seq<byte>, p: nat, leaf: Leaf, control: seq<ControlFrame>, m: Mach)
    requires p < |body| && IsLeafOp(body[p]) && LeafAt(env, body, p) == leaf
    requires SkipImmediates(env.MultiMemory(), body, p + 1, body[p]).Success?
    ensures Step(env, body, p, control, m)
            == After(control, SkipImmediates(env.MultiMemory(), body, p + 1, body[p]).value, ExecLeaf(env, leaf, m))
  {
    hide ReadULeb, ReadSLeb, SkipImmediates, ImmediatesEnd, DecodePlain, DecodeControl, ExecuteOp, BranchTo,
         ExecuteReturn;
    if leaf.Instr? {
      DecodersAgree(env, body, p);
      SkipMeetsLayout(env.MultiMemory(), body, p + 1, body[p]);
      LeafKinds(env, body, p);
    }
  }

  lemma LeafKinds(env: Env, body: seq<byte>, p: nat)
    requires p < |body| && IsLeafOp(body[p]) && Decode(env, body, p).Success?
    ensures match Decode(env, body, p).value.instruction
            case Plain(op, _) => !IsCall(op)
            case Control(c) => !c.Open? && !c.Else? && !c.End?
  {
  }

  // --------------------------------------------------------- reaching a flow

  /** After `n` turns the machine shows `flow` at `q`; when the flow ran out of loop budget, the
      machine is still running after at least as many turns as the budget allowed. */
  ghost predicate Reaches(env: Env, body: seq<byte>, o: Outcome, n: nat, control: seq<ControlFrame>, q: nat,
        flow: Flow, fuel: nat) {
    if flow.Timeout? then n >= fuel && Run(env, body, o, n).Running?
    else Run(env, body, o, n) == After(control, q, flow) && (flow.Jump? ==> n > 0)
  }

  /** `Reaches` from a later point of a run is `Reaches` from the start of it. */
  lemma Extend(env: Env, body: seq<byte>, o: Outcome, n: nat, o': Outcome, k: nat, control: seq<ControlFrame>, q: nat,
        flow: Flow, fuel: nat)
    requires Run(env, body, o, n) == o' && Reaches(env, body, o', k, control, q, flow, fuel)
    ensures Reaches(env, body, o, n + k, control, q, flow, fuel)
  {
    hide Step;
    RunAdd(env, body, o, n, k);
  }

  /** The closing mark of a block body hands its flow to the code around it. */
  lemma CloseBlock(env: Env, body: seq<byte>, o: Outcome, n: nat, control: seq<ControlFrame>, f: ControlFrame,
        end: nat, flow: Flow, fuel: nat)
    returns (n': nat)
    requires control != [] && f.kind != LoopFrame
    requires end < |body| && (body[end] == 0x05 || (body[end] == 0x0B && f.endPc == end + 1))
    requires Reaches(env, body, o, n, control + [f], end, flow, fuel)
    ensures Reaches(env, body, o, n', control, f.endPc, LeaveBlock(flow, f.height, f.results), fuel)
  {
    hide Step, Unwind;
    n' := n;
    match flow {
      case Normal(m) =>
        n' := n + 1;
        RunAdd(env, body, o, n, 1);
        OneTurn(env, body, end, control + [f], m);
        StepMark(env, body, end, control + [f], m);
        BranchOwn(control, f, m);
        EndOwn(control, f, end + 1, m);
      case Jump(depth, m) =>
        if depth == 0 {
          BranchOwn(control, f, m);
        } else {
          BranchBelow(control, f, depth - 1, m);
        }
      case Leave(m) => ReturnBelow(control, f, m);
      case Err(_, _) =>
      case Timeout =>
    }
  }

  /** One pass over a loop body that does not jump to its own label ends the loop. */
  lemma CloseLoop(env: Env, body: seq<byte>, o: Outcome, n: nat, control: seq<ControlFrame>, f: ControlFrame,
        flow: Flow, fuel: nat)
    returns (n': nat)
    requires control != [] && 0 < f.endPc <= |body| && body[f.endPc - 1] == 0x0B
    requires flow.Jump? ==> flow.depth > 0
    requires Reaches(env, body, o, n, control + [f], f.endPc - 1, flow, fuel)
    ensures Reaches(env, body, o, n', control, f.endPc, LeaveBlock(flow, f.height, f.results), fuel)
  {
    hide Step, Unwind;
    n' := n;
    match flow {
      case Normal(m) =>
        n' := n + 1;
        RunAdd(env, body, o, n, 1);
        OneTurn(env, body, f.endPc - 1, control + [f], m);
        StepMark(env, body, f.endPc - 1, control + [f], m);
        EndOwn(control, f, f.endPc, m);
      case Jump(depth, m) => BranchBelow(control, f, depth - 1, m);
      case Leave(m) => ReturnBelow(control, f, m);
      case Err(_, _) =>
      case Timeout =>
    }
  }

  lemma BranchLoop(control: seq<ControlFrame>, f: ControlFrame, m: Mach)
    requires f.kind == LoopFrame
    ensures var types := if f.params != [] then f.params else f.results;
            BranchTo(control + [f], 0, m) == After(control + [f], f.startPc, Settle(m, f.height, types))
  {
    assert (control + [f])[..|control| + 1] == control + [f];
  }

  /** A jump to the loop's own label takes a turn and, operands permitting, is back at the start. */
  lemma LoopAgain(env: Env, body: seq<byte>, o: Outcome, n: nat, control: seq<ControlFrame>, f: ControlFrame, m: Mach,
        fuel: nat)
    requires f.kind == LoopFrame && f.endPc > 0
    requires Reaches(env, body, o, n, control + [f], f.endPc - 1, Jump(0, m), fuel)
    ensures n > 0
    ensures var types := if f.params != [] then f.params else f.results;
            Run(env, body, o, n) == After(control + [f], f.startPc, Settle(m, f.height, types))
  {
    hide Step;
    BranchLoop(control, f, m);
  }

  // ---------------------------------------------------------- the simulation

  /** A first part that ends in `flow` at `after`, then the rest. */
  lemma SimThen(env: Env, body: seq<byte>, o: Outcome, n: nat, after: nat, rest: Code, control: seq<ControlFrame>,
        flow: Flow, fuel: nat)
    returns (n': nat)
    requires control != [] && Spells(env, body, after, rest).Some?
    requires Reaches(env, body, o, n, control, after, flow, fuel)
    ensures var whole := if flow.Normal? then Exec(env, OfCode, rest, flow.mach, fuel) else flow;
            Reaches(env, body, o, n', control, Spells(env, body, after, rest).value, whole, fuel)
    decreases fuel, rest, 2
  {
    hide Run, Step, Spells;
    n' := n;
    if flow.Normal? {
      var k := SimCode(env, body, after, rest, control, flow.mach, fuel);
      Extend(env, body, o, n, Running(after, control, flow.mach), k, control, Spells(env, body, after, rest).value,
             Exec(env, OfCode, rest, flow.mach, fuel), fuel);
      n' := n + k;
    }
  }

  /** The machine reaches whatever flow the structured semantics gives a piece of spelled code. */
  lemma {:induction false} SimCode(env: Env, body: seq<byte>, p: nat, c: Code, control: seq<ControlFrame>, m: Mach,
        fuel: nat)
    returns (n: nat)
    requires control != [] && Spells(env, body, p, c).Some?
    ensures Reaches(env, body, Running(p, control, m), n, control, Spells(env, body, p, c).value,
                    Exec(env, OfCode, c, m, fuel), fuel)
    decreases fuel, c, 1
  {
    hide Step;
    var o := Running(p, control, m);
    match c {
      case Nil => n := 0;
      case Simple(leaf, rest) =>
        var next := SkipImmediates(env.MultiMemory(), body, p + 1, body[p]).value;
        SimLeaf(env, body, p, leaf, control, m);
        OneTurn(env, body, p, control, m);
        n := SimThen(env, body, o, 1, next, rest, control, ExecLeaf(env, leaf, m), fuel);
      case Block(blockType, inner, rest) =>
        var k, after := SimBlock(env, body, p, blockType, inner, control, m, fuel);
        n := SimThen(env, body, o, k, after, rest, control, ExecBlock(env, OfCode, blockType, inner, m, fuel), fuel);
      case Loop(blockType, inner, rest) =>
        var k, after := SimLoop(env, body, p, blockType, inner, control, m, fuel);
        n := SimThen(env, body, o, k, after, rest, control, ExecLoop(env, OfCode, blockType, inner, m, fuel), fuel);
      case IfThen(blockType, yes, rest) =>
        var k, after := SimIfThen(env, body, p, c, control, m, fuel);
        n := SimThen(env, body, o, k, after, rest, control, ExecIf(env, OfCode, c, m, fuel), fuel);
      case IfElse(blockType, yes, no, rest) =>
        var k, after := SimIfElse(env, body, p, c, control, m, fuel);
        n := SimThen(env, body, o, k, after, rest, control, ExecIf(env, OfCode, c, m, fuel), fuel);
    }
  }

  /** One part of a block, from the turn that entered it to the code after the block. */
  lemma {:induction false} SimPart(env: Env, body: seq<byte>, o: Outcome, from: nat, part: Code, mark: byte,
                                   control: seq<ControlFrame>, f: ControlFrame, m: Mach, fuel: nat) returns (n: nat)
    requires control != [] && f.kind != LoopFrame && Run(env, body, o, 1) == Running(from, control + [f], m)
    requires SpellsTo(env, body, from, part, mark).Some?
    requires mark == 0x05 || (mark == 0x0B && f.endPc == SpellsTo(env, body, from, part, mark).value)
    ensures Reaches(env, body, o, n, control, f.endPc,
                    LeaveBlock(Exec(env, OfCode, part, m, fuel), f.height, f.results), fuel)
    decreases fuel, part, 2
  {
    hide *;
    var end := SpellsTo(env, body, from, part, mark).value - 1;
    var k := SimCode(env, body, from, part, control + [f], m, fuel);
    Extend(env, body, o, 1, Running(from, control + [f], m), k, control + [f], end, Exec(env, OfCode, part, m, fuel),
           fuel);
    n := CloseBlock(env, body, o, 1 + k, control, f, end, Exec(env, OfCode, part, m, fuel), fuel);
  }

  lemma {:induction false} SimBlock(env: Env, body: seq<byte>, p: nat, blockType: int, inner: Code,
                                    control: seq<ControlFrame>, m: Mach, fuel: nat) returns (n: nat, after: nat)
    requires control != [] && OpensAt(body, p, 0x02, blockType).Some?
    requires SpellsTo(env, body, OpensAt(body, p, 0x02, blockType).value, inner, 0x0B).Some?
    ensures SpellsTo(env, body, OpensAt(body, p, 0x02, blockType).value, inner, 0x0B) == Some(after)
    ensures Reaches(env, body, Running(p, control, m), n, control, after,
                    ExecBlock(env, OfCode, blockType, inner, m, fuel), fuel)
    decreases fuel, inner, 3
  {
    hide Run, Step, Exec, Spells, SpellsTo, OpensAt, Scan, BlockSignature, Storable, Unwind, BranchTo,
         ExecuteReturn, LeaveBlock;
    var start := OpensAt(body, p, 0x02, blockType).value;
    after := SpellsTo(env, body, start, inner, 0x0B).value;
    StepOpens(env, body, p, 0x02, blockType, control, m);
    ScanFindsEnd(env, body, start, inner);
    OneTurn(env, body, p, control, m);
    n := 1;
    var sig := BlockSignature(env.wasm.types, blockType);
    if sig.Success? && EntryError(sig.value, m.stack).None? {
      var f :=
          ControlFrame(BlockFrame, start, 0, after, sig.value.params, sig.value.results,
                       |m.stack| - |sig.value.params|);
      n := SimPart(env, body, Running(p, control, m), start, inner, 0x0B, control, f, m, fuel);
    }
  }

  lemma LoopEnters(env: Env, body: seq<byte>, p: nat, blockType: int, inner: Code, control: seq<ControlFrame>, m: Mach)
    returns (f: ControlFrame)
    requires OpensAt(body, p, 0x03, blockType).Some?
    requires SpellsTo(env, body, OpensAt(body, p, 0x03, blockType).value, inner, 0x0B).Some?
    requires BlockSignature(env.wasm.types, blockType).Success?
    requires EntryError(BlockSignature(env.wasm.types, blockType).value, m.stack).None?
    ensures var sig := BlockSignature(env.wasm.types, blockType).value;
            var start := OpensAt(body, p, 0x03, blockType).value;
            && f == ControlFrame(LoopFrame, start, 0, SpellsTo(env, body, start, inner, 0x0B).value,
                                 sig.params, sig.results, |m.stack| - |sig.params|)
            && Run(env, body, Running(p, control, m), 1) == Running(start, control + [f], m)
  {
    hide Step;
    var sig := BlockSignature(env.wasm.types, blockType).value;
    var start := OpensAt(body, p, 0x03, blockType).value;
    StepOpens(env, body, p, 0x03, blockType, control, m);
    ScanFindsEnd(env, body, start, inner);
    OneTurn(env, body, p, control, m);
    f := ControlFrame(LoopFrame, start, 0, SpellsTo(env, body, start, inner, 0x0B).value,
                      sig.params, sig.results, |m.stack| - |sig.params|);
  }

  lemma LoopRefused(env: Env, body: seq<byte>, p: nat, blockType: int, inner: Code, control: seq<ControlFrame>,
        m: Mach, fuel: nat)
    requires OpensAt(body, p, 0x03, blockType).Some?
    requires SpellsTo(env, body, OpensAt(body, p, 0x03, blockType).value, inner, 0x0B).Some?
    requires var sig := BlockSignature(env.wasm.types, blockType);
             sig.Failure? || EntryError(sig.value, m.stack).Some?
    ensures var flow := ExecLoop(env, OfCode, blockType, inner, m, fuel);
            flow.Err? && Run(env, body, Running(p, control, m), 1) == Fault(flow.status, flow.mach)
  {
    hide Step;
    var start := OpensAt(body, p, 0x03, blockType).value;
    StepOpens(env, body, p, 0x03, blockType, control, m);
    ScanFindsEnd(env, body, start, inner);
    OneTurn(env, body, p, control, m);
  }

  lemma {:induction false} SimLoop(env: Env, body: seq<byte>, p: nat, blockType: int, inner: Code,
                                   control: seq<ControlFrame>, m: Mach, fuel: nat) returns (n: nat, after: nat)
    requires control != [] && OpensAt(body, p, 0x03, blockType).Some?
    requires SpellsTo(env, body, OpensAt(body, p, 0x03, blockType).value, inner, 0x0B).Some?
    ensures SpellsTo(env, body, OpensAt(body, p, 0x03, blockType).value, inner, 0x0B) == Some(after)
    ensures Reaches(env, body, Running(p, control, m), n, control, after,
                    ExecLoop(env, OfCode, blockType, inner, m, fuel), fuel)
    decreases fuel, inner, 3
  {
    hide Run, Step, Exec, Iterate, Spells, BranchTo, ExecuteReturn;
    var start := OpensAt(body, p, 0x03, blockType).value;
    after := SpellsTo(env, body, start, inner, 0x0B).value;
    var sig := BlockSignature(env.wasm.types, blockType);
    if sig.Success? && EntryError(sig.value, m.stack).None? {
      var f := LoopEnters(env, body, p, blockType, inner, control, m);
      var k := SimIterate(env, body, f, sig.value, inner, control, m, fuel);
      Extend(env, body, Running(p, control, m), 1, Running(start, control + [f], m), k, control, after,
             ExecLoop(env, OfCode, blockType, inner, m, fuel), fuel);
      n := 1 + k;
    } else {
      LoopRefused(env, body, p, blockType, inner, control, m, fuel);
      n := 1;
    }
  }

  /** The passes over a loop body. */
  lemma {:induction false} SimIterate(env: Env, body: seq<byte>, f: ControlFrame, sig: FuncType, inner: Code,
                                      control: seq<ControlFrame>, m: Mach, fuel: nat) returns (n: nat)
    requires control != [] && f.kind == LoopFrame && f.params == sig.params && f.results == sig.results
    requires SpellsTo(env, body, f.startPc, inner, 0x0B) == Some(f.endPc)
    ensures Reaches(env, body, Running(f.startPc, control + [f], m), n, control, f.endPc,
                    Iterate(env, OfCode, sig, f.height, inner, m, fuel), fuel)
    decreases fuel, inner, 2
  {
    hide Run, Step, Exec, Unwind, Spells, SpellsTo, BranchTo, ExecuteReturn;
    var o := Running(f.startPc, control + [f], m);
    var flow := Exec(env, OfCode, inner, m, fuel);
    n := SimCode(env, body, f.startPc, inner, control + [f], m, fuel);
    if flow.Jump? && flow.depth == 0 {
      LoopAgain(env, body, o, n, control, f, flow.mach, fuel);
      var again := Settle(flow.mach, f.height, if sig.params != [] then sig.params else sig.results);
      if again.Normal? && fuel > 0 {
        var k := SimIterate(env, body, f, sig, inner, control, again.mach, fuel - 1);
        Extend(env, body, o, n, Running(f.startPc, control + [f], again.mach), k, control, f.endPc,
               Iterate(env, OfCode, sig, f.height, inner, again.mach, fuel - 1), fuel - 1);
        n := n + k;
      }
    } else {
      n := CloseLoop(env, body, o, n, control, f, flow, fuel);
    }
  }

  /** An `if` goes on into one of its parts. */
  ghost predicate IfEnters(sig: FuncType, hasElse: bool, m: Mach) {
    && !(sig.results != [] && !hasElse) && Storable(sig) && m.stack != []
    && TopMatches(m.stack[..|m.stack| - 1], sig.params)
  }

  lemma {:induction false} SimIfThen(env: Env, body: seq<byte>, p: nat, c: Code, control: seq<ControlFrame>, m: Mach,
        fuel: nat)
    returns (n: nat, after: nat)
    requires c.IfThen? && control != [] && OpensAt(body, p, 0x04, c.blockType).Some?
    requires SpellsTo(env, body, OpensAt(body, p, 0x04, c.blockType).value, c.yes, 0x0B).Some?
    ensures SpellsTo(env, body, OpensAt(body, p, 0x04, c.blockType).value, c.yes, 0x0B) == Some(after)
    ensures Reaches(env, body, Running(p, control, m), n, control, after, ExecIf(env, OfCode, c, m, fuel), fuel)
    decreases fuel, c, 0
  {
    hide Run, Step, Exec, Spells, SpellsTo, OpensAt, Scan, BlockSignature, Storable, Unwind, Decode;
    var start := OpensAt(body, p, 0x04, c.blockType).value;
    after := SpellsTo(env, body, start, c.yes, 0x0B).value;
    StepOpens(env, body, p, 0x04, c.blockType, control, m);
    ScanFindsEnd(env, body, start, c.yes);
    OneTurn(env, body, p, control, m);
    n := 1;
    var sig := BlockSignature(env.wasm.types, c.blockType);
    if sig.Success? && IfEnters(sig.value, false, m) {
      var m' := m.(stack := m.stack[..|m.stack| - 1]);
      var f :=
          ControlFrame(IfFrame, start, 0, after, sig.value.params, sig.value.results, |m'.stack| - |sig.value.params|);
      BranchOwn(control, f, m');
      if Truthy(m.stack[|m.stack| - 1]) {
        n := SimPart(env, body, Running(p, control, m), start, c.yes, 0x0B, control, f, m', fuel);
      }
    }
  }

  lemma {:induction false} SimIfElse(env: Env, body: seq<byte>, p: nat, c: Code, control: seq<ControlFrame>, m: Mach,
        fuel: nat)
    returns (n: nat, after: nat)
    requires c.IfElse? && control != [] && OpensAt(body, p, 0x04, c.blockType).Some?
    requires SpellsTo(env, body, OpensAt(body, p, 0x04, c.blockType).value, c.yes, 0x05).Some?
    requires var middle := SpellsTo(env, body, OpensAt(body, p, 0x04, c.blockType).value, c.yes, 0x05).value;
             SpellsTo(env, body, middle, c.no, 0x0B).Some?
    ensures var middle := SpellsTo(env, body, OpensAt(body, p, 0x04, c.blockType).value, c.yes, 0x05).value;
            SpellsTo(env, body, middle, c.no, 0x0B) == Some(after)
    ensures Reaches(env, body, Running(p, control, m), n, control, after, ExecIf(env, OfCode, c, m, fuel), fuel)
    decreases fuel, c, 0
  {
    hide Run, Step, Exec, Spells, SpellsTo, OpensAt, Scan, BlockSignature, Storable, Unwind, Decode, BranchTo;
    var start := OpensAt(body, p, 0x04, c.blockType).value;
    var middle := SpellsTo(env, body, start, c.yes, 0x05).value;
    after := SpellsTo(env, body, middle, c.no, 0x0B).value;
    StepOpens(env, body, p, 0x04, c.blockType, control, m);
    ScanFindsElse(env, body, start, c.yes, c.no);
    OneTurn(env, body, p, control, m);
    n := 1;
    var sig := BlockSignature(env.wasm.types, c.blockType);
    if sig.Success? && IfEnters(sig.value, true, m) {
      var m' := m.(stack := m.stack[..|m.stack| - 1]);
      var f :=
          ControlFrame(IfFrame, start, middle, after, sig.value.params, sig.value.results,
                       |m'.stack| - |sig.value.params|);
      if Truthy(m.stack[|m.stack| - 1]) {
        n := SimPart(env, body, Running(p, control, m), start, c.yes, 0x05, control, f, m', fuel);
      } else {
        n := SimPart(env, body, Running(p, control, m), middle, c.no, 0x0B, control, f, m', fuel);
      }
    }
  }

  // ---------------------------------------------------------- whole functions

  /** A function body is itself a label: falling through, jumping to it and returning all keep
      exactly the results above an empty stack. `None` when the loop budget ran out. */
  function ExecFunction(env: Env, rule: LabelRule, c: Code, results: seq<nat>, m: Mach, fuel: nat): Option<Outcome> {
    match Exec(env, rule, c, m, fuel)
    case Normal(m') => Some(Finish(m', results))
    case Jump(depth, m') => Some(if depth == 0 then Finish(m', results) else Fault(Trap, m'))
    case Leave(m') => Some(Finish(m', results))
    case Err(status, m') => Some(Fault(status, m'))
    case Timeout => None
  }

  function Finish(m: Mach, results: seq<nat>): Outcome {
    match Settle(m, 0, results)
    case Normal(m') => Finished(m')
    case Err(status, m') => Fault(status, m')
    case _ => Finished(m)
  }

  /** The body of a function: the tree, then the final `end`. */
  predicate SpellsFunction(env: Env, body: seq<byte>, codeStart: nat, c: Code) {
    SpellsTo(env, body, codeStart, c, 0x0B).Some?
  }

  /** How a call starts a frame. */
  function StartFrame(body: seq<byte>, codeStart: nat, results: seq<nat>, m: Mach): Outcome {
    Running(codeStart, [FunctionFrame(codeStart, body, results)], m)
  }

  lemma FinishAtEnd(env: Env, body: seq<byte>, o: Outcome, n: nat, end: nat, f: ControlFrame, m: Mach)
    requires end < |body| && body[end] == 0x0B && f.height == 0
    requires Run(env, body, o, n) == Running(end, [f], m)
    ensures Run(env, body, o, n + 1) == Finish(m, f.results)
  {
    hide Step;
    RunAdd(env, body, o, n, 1);
    OneTurn(env, body, end, [f], m);
    StepMark(env, body, end, [f], m);
  }

  lemma StepPastEnd(env: Env, body: seq<byte>, control: seq<ControlFrame>, m: Mach)
    ensures Step(env, body, |body|, control, m) == Finished(m)
  {
  }

  lemma FinishByJump(env: Env, body: seq<byte>, o: Outcome, n: nat, f: ControlFrame, m: Mach)
    requires f.kind == BlockFrame && f.endPc == |body| && f.height == 0
    requires Run(env, body, o, n) == BranchTo([f], 0, m)
    ensures Run(env, body, o, n + 1) == Finish(m, f.results)
  {
    hide Step, Unwind, Decode;
    RunAdd(env, body, o, n, 1);
    var left := BranchTo([f], 0, m);
    if left.Running? {
      StepPastEnd(env, body, left.control, left.mach);
      OneTurn(env, body, left.pc, left.control, left.mach);
    }
  }

  lemma SimFunction(env: Env, body: seq<byte>, codeStart: nat, c: Code, results: seq<nat>, m: Mach, fuel: nat)
    returns (n: nat)
    requires SpellsFunction(env, body, codeStart, c)
    ensures var end := ExecFunction(env, OfCode, c, results, m, fuel);
            var r := Run(env, body, StartFrame(body, codeStart, results, m), n);
            if end.Some? then r == end.value else n >= fuel && r.Running?
  {
    hide Run, Step, Exec, Unwind, Spells, SpellsTo;
    var o := StartFrame(body, codeStart, results, m);
    var f := FunctionFrame(codeStart, body, results);
    var end := SpellsTo(env, body, codeStart, c, 0x0B).value - 1;
    n := SimCode(env, body, codeStart, c, [f], m, fuel);
    var flow := Exec(env, OfCode, c, m, fuel);
    if flow.Normal? {
      FinishAtEnd(env, body, o, n, end, f, flow.mach);
      n := n + 1;
    } else if flow.Jump? && flow.depth == 0 {
      FinishByJump(env, body, o, n, f, flow.mach);
      n := n + 1;
    }
  }

  /** Once stopped, a run stays as it is. */
  lemma StoppedForGood(env: Env, body: seq<byte>, o: Outcome, a: nat, b: nat)
    requires a <= b && !Run(env, body, o, a).Running?
    ensures Run(env, body, o, b) == Run(env, body, o, a)
  {
    hide Step;
    RunAdd(env, body, o, a, b - a);
  }

  /** A stopped machine has an outcome that the semantics finds with one more unit of budget. */
  lemma StoppedIsExecuted(env: Env, body: seq<byte>, codeStart: nat, c: Code, results: seq<nat>, m: Mach, n: nat)
    requires SpellsFunction(env, body, codeStart, c)
    requires !Run(env, body, StartFrame(body, codeStart, results, m), n).Running?
    ensures ExecFunction(env, OfCode, c, results, m, n + 1)
            == Some(Run(env, body, StartFrame(body, codeStart, results, m), n))
  {
    hide *;
    var o := StartFrame(body, codeStart, results, m);
    var k := SimFunction(env, body, codeStart, c, results, m, n + 1);
    if n <= k {
      StoppedForGood(env, body, o, n, k);
    } else {
      NeverRunningEnd(env, c, results, m, n + 1);
      StoppedForGood(env, body, o, k, n);
    }
  }

  lemma NeverRunningEnd(env: Env, c: Code, results: seq<nat>, m: Mach, fuel: nat)
    ensures var end := ExecFunction(env, OfCode, c, results, m, fuel); end.Some? ==> !end.value.Running?
  {
  }

  /** For every call-free body that spells a tree, the machine stops in an outcome, with the same
      operands, locals, store and status, exactly when the structured semantics ends in it with some
      loop budget; so one diverges exactly when the other does. */
  lemma StructuredRefinement(env: Env, body: seq<byte>, codeStart: nat, c: Code, results: seq<nat>, m: Mach,
        end: Outcome)
    requires SpellsFunction(env, body, codeStart, c) && !end.Running?
    ensures (exists n :: Run(env, body, StartFrame(body, codeStart, results, m), n) == end)
            <==> (exists fuel :: ExecFunction(env, OfCode, c, results, m, fuel) == Some(end))
  {
    hide Step;
    if fuel :| ExecFunction(env, OfCode, c, results, m, fuel) == Some(end) {
      var n := SimFunction(env, body, codeStart, c, results, m, fuel);
    }
    if n :| Run(env, body, StartFrame(body, codeStart, results, m), n) == end {
      StoppedIsExecuted(env, body, codeStart, c, results, m, n);
    }
  }
}
