/** The control stack of a frame stays in step with the static nesting of the body, for any bytes
    whatsoever, and every position the loop executes is one the prescan recorded. */
module Nesting {
  import opened Core
  import opened Leb128
  import opened RuntimeState
  import opened Decoders
  import opened Machine

  // -------------------------------------------------------------- linear walks

  datatype Place = Place(pc: nat, depth: nat)

  /** How an instruction changes the nesting depth. */
  function Delta(op: byte): int {
    if IsBlock(op) then 1 else if op == 0x0B then -1 else 0
  }

  /** `n` instructions of the linear decode from `p`, not going on after depth 0. */
  function Walk(multi: bool, body: seq<byte>, p: Place, n: nat): Option<Place>
    decreases n
  {
    if n == 0 then Some(p)
    else if p.depth == 0 || p.pc >= |body| || Next(multi, body, p.pc).Failure? then None
    else Walk(multi, body, Place(Next(multi, body, p.pc).value, p.depth + Delta(body[p.pc])), n - 1)
  }

  ghost predicate Leads(multi: bool, body: seq<byte>, p: Place, q: Place) {
    exists n: nat :: Walk(multi, body, p, n) == Some(q)
  }

  lemma {:induction false} WalkAdd(multi: bool, body: seq<byte>, p: Place, a: nat, b: nat)
    requires Walk(multi, body, p, a).Some?
    ensures Walk(multi, body, p, a + b) == Walk(multi, body, Walk(multi, body, p, a).value, b)
    decreases a
  {
    hide Next;
    if a > 0 {
      var p' := Place(Next(multi, body, p.pc).value, p.depth + Delta(body[p.pc]));
      WalkAdd(multi, body, p', a - 1, b);
    }
  }

  /** The same walk with `k` more blocks open around it. */
  lemma {:induction false} WalkLift(multi: bool, body: seq<byte>, p: Place, n: nat, k: nat)
    requires Walk(multi, body, p, n).Some?
    ensures Walk(multi, body, Place(p.pc, p.depth + k), n)
            == Some(Place(Walk(multi, body, p, n).value.pc, Walk(multi, body, p, n).value.depth + k))
    decreases n
  {
    hide Next;
    if n > 0 {
      var p' := Place(Next(multi, body, p.pc).value, p.depth + Delta(body[p.pc]));
      WalkLift(multi, body, p', n - 1, k);
    }
  }

  lemma LeadsTrans(multi: bool, body: seq<byte>, p: Place, q: Place, r: Place)
    requires Leads(multi, body, p, q) && Leads(multi, body, q, r)
    ensures Leads(multi, body, p, r)
  {
    var a: nat :| Walk(multi, body, p, a) == Some(q);
    var b: nat :| Walk(multi, body, q, b) == Some(r);
    WalkAdd(multi, body, p, a, b);
    assert Walk(multi, body, p, a + b) == Some(r);
  }

  lemma LeadsLift(multi: bool, body: seq<byte>, p: Place, q: Place, k: nat)
    requires Leads(multi, body, p, q)
    ensures Leads(multi, body, Place(p.pc, p.depth + k), Place(q.pc, q.depth + k))
  {
    var n: nat :| Walk(multi, body, p, n) == Some(q);
    WalkLift(multi, body, p, n, k);
    assert Walk(multi, body, Place(p.pc, p.depth + k), n) == Some(Place(q.pc, q.depth + k));
  }

  lemma LeadsRefl(multi: bool, body: seq<byte>, p: Place)
    ensures Leads(multi, body, p, p)
  {
    assert Walk(multi, body, p, 0) == Some(p);
  }

  lemma LeadsStep(multi: bool, body: seq<byte>, p: Place)
    requires p.depth > 0 && p.pc < |body| && Next(multi, body, p.pc).Success?
    ensures p.depth + Delta(body[p.pc]) >= 0
    ensures Leads(multi, body, p, Place(Next(multi, body, p.pc).value, p.depth + Delta(body[p.pc])))
  {
    hide Next;
    assert Walk(multi, body, p, 1) == Some(Place(Next(multi, body, p.pc).value, p.depth + Delta(body[p.pc])));
  }

  // ------------------------------------------------------- what the scan finds

  lemma ScanTurn(multi: bool, body: seq<byte>, c: nat)
    requires c < |body|
    ensures var op := body[c];
            && (IsBlock(op) && ReadSLeb(body, c + 1).Success? ==>
                  Next(multi, body, c) == Success(ReadSLeb(body, c + 1).value.next))
            && (op == 0x05 || op == 0x0B ==> Next(multi, body, c) == Success(c + 1))
            && (!IsBlock(op) && SkipImmediates(multi, body, c + 1, op).Success? ==>
                  Next(multi, body, c) == SkipImmediates(multi, body, c + 1, op))
  {
    var op := body[c];
    if IsBlock(op) {
      SkipFieldsUnfold(body, c + 1, S, U, U);
    } else {
      SkipMeetsLayout(multi, body, c + 1, op);
    }
  }

  /** A successful scan walks to the matching `end`; an `else` it reports lies one block deep. */
  lemma {:induction false} ScanWalks(multi: bool, body: seq<byte>, c: nat, depth: nat, elsePc: nat)
    requires depth > 0 && ScanFrom(multi, body, c, depth, elsePc).Success?
    ensures var e := ScanFrom(multi, body, c, depth, elsePc).value;
            && Leads(multi, body, Place(c, depth), Place(e.endPc, 0))
            && (e.elsePc != elsePc ==> Leads(multi, body, Place(c, depth), Place(e.elsePc, 1)))
    decreases |body| - c
  {
    hide Next, SkipImmediates, Leads;
    var e := ScanFrom(multi, body, c, depth, elsePc).value;
    var op := body[c];
    ScanTurn(multi, body, c);
    if op == 0x0B && depth == 1 {
      LeadsStep(multi, body, Place(c, depth));
    } else {
      var next := Next(multi, body, c).value;
      var elsePc' := if op == 0x05 && depth == 1 && elsePc == 0 then c + 1 else elsePc;
      var depth' := depth + Delta(op);
      LeadsStep(multi, body, Place(c, depth));
      ScanWalks(multi, body, next, depth', elsePc');
      LeadsTrans(multi, body, Place(c, depth), Place(next, depth'), Place(e.endPc, 0));
      if e.elsePc != elsePc && e.elsePc != elsePc' {
        LeadsTrans(multi, body, Place(c, depth), Place(next, depth'), Place(e.elsePc, 1));
      }
    }
  }

  // ------------------------------------------------------- the frame invariant

  /** Control frame `f` belongs to a block of the body: scanning it from `startPc` ends at `endPc`. */
  ghost predicate Bracketed(multi: bool, body: seq<byte>, f: ControlFrame) {
    && Leads(multi, body, Place(f.startPc, 1), Place(f.endPc, 0))
    && (f.elsePc != 0 ==> Leads(multi, body, Place(f.startPc, 1), Place(f.elsePc, 1)))
  }

  /** The frames are the blocks open at `pc`, outermost first: each begins directly inside the one
      below it, and `pc` lies directly inside the last. */
  ghost predicate InStep(multi: bool, body: seq<byte>, codeStart: nat, control: seq<ControlFrame>, pc: nat) {
    && control != []
    && control[0].startPc == codeStart && control[0].endPc == |body| && control[0].kind == BlockFrame
    && (forall j :: 1 <= j < |control| ==> Bracketed(multi, body, control[j]))
    && (forall j :: 1 <= j < |control| ==>
          Leads(multi, body, Place(control[j - 1].startPc, 1), Place(control[j].startPc, 2)))
    && Leads(multi, body, Place(control[|control| - 1].startPc, 1), Place(pc, 1))
  }

  /** A frame that may run: in step, or left through its outermost label. */
  ghost predicate Reachable(multi: bool, body: seq<byte>, codeStart: nat, control: seq<ControlFrame>, pc: nat) {
    InStep(multi, body, codeStart, control, pc) || (control == [] && pc == |body|)
  }

  /** Leaving the block of the last frame: its end is inside the frame below. */
  lemma PopFrame(multi: bool, body: seq<byte>, codeStart: nat, control: seq<ControlFrame>, pc: nat)
    requires InStep(multi, body, codeStart, control, pc) && |control| > 1
    ensures InStep(multi, body, codeStart, control[..|control| - 1], control[|control| - 1].endPc)
  {
    var f, below := control[|control| - 1], control[|control| - 2];
    LeadsLift(multi, body, Place(f.startPc, 1), Place(f.endPc, 0), 1);
    LeadsTrans(multi, body, Place(below.startPc, 1), Place(f.startPc, 2), Place(f.endPc, 1));
    var rest := control[..|control| - 1];
    forall j | 1 <= j < |rest|
      ensures Bracketed(multi, body, rest[j])
      ensures Leads(multi, body, Place(rest[j - 1].startPc, 1), Place(rest[j].startPc, 2))
    {
      assert rest[j] == control[j] && rest[j - 1] == control[j - 1];
    }
  }

  /** Dropping the frames above `index` leaves a stack that is in step somewhere. */
  lemma {:induction false} PopFrames(multi: bool, body: seq<byte>, codeStart: nat, control: seq<ControlFrame>,
        pc: nat, index: nat)
    returns (pc': nat)
    requires InStep(multi, body, codeStart, control, pc) && index < |control|
    ensures InStep(multi, body, codeStart, control[..index + 1], pc')
    decreases |control|
  {
    if index == |control| - 1 {
      assert control[..index + 1] == control;
      pc' := pc;
    } else {
      var rest := control[..|control| - 1];
      PopFrame(multi, body, codeStart, control, pc);
      pc' := PopFrames(multi, body, codeStart, rest, control[|control| - 1].endPc, index);
      assert rest[..index + 1] == control[..index + 1];
    }
  }

  /** Only the last frame constrains the program counter. */
  lemma MovePc(multi: bool, body: seq<byte>, codeStart: nat, control: seq<ControlFrame>, pc: nat, pc': nat)
    requires InStep(multi, body, codeStart, control, pc)
    requires Leads(multi, body, Place(control[|control| - 1].startPc, 1), Place(pc', 1))
    ensures InStep(multi, body, codeStart, control, pc')
  {
  }

  lemma BranchStaysInStep(multi: bool, body: seq<byte>, codeStart: nat, control: seq<ControlFrame>, pc: nat, depth: nat,
        m: Mach)
    requires InStep(multi, body, codeStart, control, pc)
    ensures var o := BranchTo(control, depth, m);
            o.Running? ==> Reachable(multi, body, codeStart, o.control, o.pc)
  {
    hide Unwind, Leads, Next;
    if depth < |control| {
      var index := |control| - 1 - depth;
      var pc' := PopFrames(multi, body, codeStart, control, pc, index);
      var kept := control[..index + 1];
      if control[index].kind == LoopFrame {
        LeadsRefl(multi, body, Place(control[index].startPc, 1));
        MovePc(multi, body, codeStart, kept, pc', control[index].startPc);
      } else if index > 0 {
        PopFrame(multi, body, codeStart, kept, pc');
        assert kept[..index] == control[..index];
      } else {
        assert control[..index] == [];
      }
    }
  }

  lemma PushFrame(multi: bool, body: seq<byte>, codeStart: nat, control: seq<ControlFrame>, pc: nat, f: ControlFrame,
        inside: nat)
    requires InStep(multi, body, codeStart, control, pc)
    requires pc < |body| && IsBlock(body[pc]) && Next(multi, body, pc) == Success(f.startPc)
    requires Bracketed(multi, body, f) && Leads(multi, body, Place(f.startPc, 1), Place(inside, 1))
    ensures InStep(multi, body, codeStart, control + [f], inside)
  {
    var last := control[|control| - 1];
    LeadsStep(multi, body, Place(pc, 1));
    LeadsTrans(multi, body, Place(last.startPc, 1), Place(pc, 1), Place(f.startPc, 2));
    var pushed := control + [f];
    forall j | 1 <= j < |pushed|
      ensures Bracketed(multi, body, pushed[j])
      ensures Leads(multi, body, Place(pushed[j - 1].startPc, 1), Place(pushed[j].startPc, 2))
    {
    }
  }

  lemma EnterStaysInStep(env: Env, body: seq<byte>, codeStart: nat, control: seq<ControlFrame>, pc: nat,
                         kind: BlockKind, blockType: int, start: nat, m: Mach)
    requires InStep(env.MultiMemory(), body, codeStart, control, pc)
    requires pc < |body| && IsBlock(body[pc]) && Next(env.MultiMemory(), body, pc) == Success(start)
    ensures var o := Enter(env, body, kind, blockType, start, control, m);
            o.Running? ==> Reachable(env.MultiMemory(), body, codeStart, o.control, o.pc)
  {
    hide Step, ScanFrom, Next, InStep, Leads, BranchTo;
    var multi := env.MultiMemory();
    var o := Enter(env, body, kind, blockType, start, control, m);
    if o.Running? {
      var sig := BlockSignature(env.wasm.types, blockType).value;
      var extent := Scan(multi, body, start).value;
      ScanWalks(multi, body, start, 1, 0);
      LeadsRefl(multi, body, Place(start, 1));
      var height := |m.stack| - |sig.params| - (if kind == IfOp then 1 else 0);
      var f := ControlFrame(if kind == IfOp then IfFrame else if kind == LoopOp then LoopFrame else BlockFrame,
                            start, if kind == IfOp then extent.elsePc else 0, extent.endPc,
                            sig.params, sig.results, height);
      PushFrame(multi, body, codeStart, control, pc, f, start);
      if kind == IfOp && extent.elsePc != 0 {
        PushFrame(multi, body, codeStart, control, pc, f, extent.elsePc);
      }
      if kind == IfOp {
        BranchStaysInStep(multi, body, codeStart, control + [f], start, 0, m.(stack := m.stack[..|m.stack| - 1]));
      }
    }
  }

  lemma EndStaysInStep(multi: bool, body: seq<byte>, codeStart: nat, control: seq<ControlFrame>, pc: nat, m: Mach)
    requires InStep(multi, body, codeStart, control, pc)
    requires pc < |body| && body[pc] == 0x0B && Next(multi, body, pc) == Success(pc + 1)
    ensures var o := ExecuteEnd(pc + 1, control, m);
            o.Running? ==> Reachable(multi, body, codeStart, o.control, o.pc)
  {
    if |control| > 1 {
      var f, below := control[|control| - 1], control[|control| - 2];
      PopFrame(multi, body, codeStart, control, pc);
      LeadsStep(multi, body, Place(pc, 1));
      LeadsTrans(multi, body, Place(f.startPc, 1), Place(pc, 1), Place(pc + 1, 0));
      LeadsLift(multi, body, Place(f.startPc, 1), Place(pc + 1, 0), 1);
      LeadsTrans(multi, body, Place(below.startPc, 1), Place(f.startPc, 2), Place(pc + 1, 1));
      MovePc(multi, body, codeStart, control[..|control| - 1], f.endPc, pc + 1);
    }
  }

  lemma FallThrough(multi: bool, body: seq<byte>, codeStart: nat, control: seq<ControlFrame>, pc: nat)
    requires InStep(multi, body, codeStart, control, pc)
    requires pc < |body| && Delta(body[pc]) == 0 && Next(multi, body, pc).Success?
    ensures InStep(multi, body, codeStart, control, Next(multi, body, pc).value)
  {
    LeadsStep(multi, body, Place(pc, 1));
    LeadsTrans(multi, body, Place(control[|control| - 1].startPc, 1), Place(pc, 1),
               Place(Next(multi, body, pc).value, 1));
  }

  /** One turn of the execution loop, on any bytes, keeps the control stack in step. */
  lemma StepStaysInStep(env: Env, body: seq<byte>, codeStart: nat, control: seq<ControlFrame>, pc: nat, m: Mach)
    requires Reachable(env.MultiMemory(), body, codeStart, control, pc)
    ensures var o := Step(env, body, pc, control, m);
            o.Running? || o.Calling? ==> Reachable(env.MultiMemory(), body, codeStart, o.control, o.pc)
  {
    hide Decode, Next, InStep, Enter, BranchTo, ExecuteEnd, ExecuteOp;
    var multi := env.MultiMemory();
    var o := Step(env, body, pc, control, m);
    if pc < |body| && (o.Running? || o.Calling?) {
      var d := Decode(env, body, pc).value;
      DecodersAgree(env, body, pc);
      ControlOfOpcode(env, body, pc);
      match d.instruction {
        case Plain(_, _) => FallThrough(multi, body, codeStart, control, pc);
        case Control(c) =>
          match c {
            case Open(kind, blockType) =>
              EnterStaysInStep(env, body, codeStart, control, pc, kind, blockType, d.next, m);
              assert o == Enter(env, body, kind, blockType, d.next, control, m);
            case End => EndStaysInStep(multi, body, codeStart, control, pc, m);
            case Else => BranchStaysInStep(multi, body, codeStart, control, pc, 0, m);
            case Br(depth) => BranchStaysInStep(multi, body, codeStart, control, pc, depth, m);
            case BrIf(depth) =>
              FallThrough(multi, body, codeStart, control, pc);
              BranchStaysInStep(multi, body, codeStart, control, pc, depth, m.(stack := m.stack[..|m.stack| - 1]));
            case BrTable(depths, default) =>
              var m' := m.(stack := m.stack[..|m.stack| - 1]);
              var index := IndexValue(env, m.stack[|m.stack| - 1]).value;
              BranchStaysInStep(multi, body, codeStart, control, pc, SelectLabel(depths, default, index), m');
            case _ => FallThrough(multi, body, codeStart, control, pc);
          }
      }
    }
  }

  lemma ControlOfOpcode(env: Env, body: seq<byte>, pc: nat)
    requires pc < |body| && Decode(env, body, pc).Success?
    ensures var i := Decode(env, body, pc).value.instruction;
            && (Delta(body[pc]) == 1 <==> i.Control? && i.control.Open?)
            && (Delta(body[pc]) == -1 <==> i.Control? && i.control.End?)
            && (i.Control? && i.control.End? ==> Decode(env, body, pc).value.next == pc + 1)
  {
  }

  // -------------------------------------------------- static depth and ranges

  /** Static nesting depth of `pc`: one for the function, plus blocks opened and minus blocks ended
      in the linear decode from `from` up to `pc`. `None` when `pc` is no instruction boundary. */
  function StaticDepth(multi: bool, body: seq<byte>, from: nat, depth: int, pc: nat): Option<int>
    decreases |body| - from
  {
    if from == pc then Some(depth)
    else if from >= |body| || from > pc || Next(multi, body, from).Failure? then None
    else StaticDepth(multi, body, Next(multi, body, from).value, depth + Delta(body[from]), pc)
  }

  lemma {:induction false} WalkIsStatic(multi: bool, body: seq<byte>, p: Place, n: nat)
    requires Walk(multi, body, p, n).Some?
    ensures var q := Walk(multi, body, p, n).value;
            p.pc <= q.pc && StaticDepth(multi, body, p.pc, p.depth, q.pc) == Some(q.depth)
    decreases n
  {
    hide Next;
    if n > 0 {
      WalkIsStatic(multi, body, Place(Next(multi, body, p.pc).value, p.depth + Delta(body[p.pc])), n - 1);
    }
  }

  lemma {:induction false} FramesAreStatic(multi: bool, body: seq<byte>, codeStart: nat, control: seq<ControlFrame>,
        j: nat)
    requires j < |control| && control[0].startPc == codeStart
    requires forall i :: 1 <= i < |control| ==>
      Leads(multi, body, Place(control[i - 1].startPc, 1), Place(control[i].startPc, 2))
    ensures Leads(multi, body, Place(codeStart, 1), Place(control[j].startPc, j + 1))
    decreases j
  {
    if j == 0 {
      LeadsRefl(multi, body, Place(codeStart, 1));
    } else {
      FramesAreStatic(multi, body, codeStart, control, j - 1);
      LeadsLift(multi, body, Place(control[j - 1].startPc, 1), Place(control[j].startPc, 2), j - 1);
      LeadsTrans(multi, body, Place(codeStart, 1), Place(control[j - 1].startPc, j), Place(control[j].startPc, j + 1));
    }
  }

  /** A walk that is still inside a block has not yet passed the end of it. */
  lemma InsideBeforeEnd(multi: bool, body: seq<byte>, start: nat, inside: Place, end: nat)
    requires Leads(multi, body, Place(start, 1), inside) && inside.depth > 0
    requires Leads(multi, body, Place(start, 1), Place(end, 0))
    ensures start <= inside.pc < end && end <= |body|
    ensures Leads(multi, body, inside, Place(end, 0))
  {
    hide Next;
    var a: nat :| Walk(multi, body, Place(start, 1), a) == Some(inside);
    var b: nat :| Walk(multi, body, Place(start, 1), b) == Some(Place(end, 0));
    WalkIsStatic(multi, body, Place(start, 1), a);
    if a <= b {
      WalkAdd(multi, body, Place(start, 1), a, b - a);
      WalkIsStatic(multi, body, inside, b - a);
      WalkBound(multi, body, inside, b - a);
    } else {
      WalkAdd(multi, body, Place(start, 1), b, a - b);
    }
  }

  lemma {:induction false} WalkBound(multi: bool, body: seq<byte>, p: Place, n: nat)
    requires Walk(multi, body, p, n).Some? && n > 0
    ensures p.pc < Walk(multi, body, p, n).value.pc <= |body|
    decreases n
  {
    hide Next;
    if n > 1 {
      WalkBound(multi, body, Place(Next(multi, body, p.pc).value, p.depth + Delta(body[p.pc])), n - 1);
    }
  }

  /** Nested blocks: the inner one begins no earlier and ends strictly earlier. */
  lemma InnerEndsFirst(multi: bool, body: seq<byte>, outer: ControlFrame, inner: ControlFrame)
    requires Bracketed(multi, body, outer) && Bracketed(multi, body, inner)
    requires Leads(multi, body, Place(outer.startPc, 1), Place(inner.startPc, 2))
    ensures outer.startPc <= inner.startPc && inner.endPc < outer.endPc
  {
    LeadsLift(multi, body, Place(inner.startPc, 1), Place(inner.endPc, 0), 1);
    LeadsTrans(multi, body, Place(outer.startPc, 1), Place(inner.startPc, 2), Place(inner.endPc, 1));
    InsideBeforeEnd(multi, body, outer.startPc, Place(inner.endPc, 1), outer.endPc);
    InsideBeforeEnd(multi, body, outer.startPc, Place(inner.startPc, 2), outer.endPc);
  }

  /** What being in step means for a reader: the number of control frames is the static nesting
      depth of the program counter, and the frames' ranges nest strictly around it. */
  lemma InStepMeansNested(multi: bool, body: seq<byte>, codeStart: nat, control: seq<ControlFrame>, pc: nat)
    requires InStep(multi, body, codeStart, control, pc)
    ensures StaticDepth(multi, body, codeStart, 1, pc) == Some(|control|)
    ensures control[|control| - 1].startPc <= pc
    ensures |control| > 1 ==> pc < control[|control| - 1].endPc
    ensures forall j :: 1 <= j < |control| ==> control[j - 1].startPc <= control[j].startPc
    ensures forall j :: 2 <= j < |control| ==> control[j].endPc < control[j - 1].endPc
    ensures forall j :: 1 <= j < |control| ==> control[j].endPc <= |body|
  {
    var last := control[|control| - 1];
    FramesAreStatic(multi, body, codeStart, control, |control| - 1);
    LeadsLift(multi, body, Place(last.startPc, 1), Place(pc, 1), |control| - 1);
    LeadsTrans(multi, body, Place(codeStart, 1), Place(last.startPc, |control|), Place(pc, |control|));
    var n: nat :| Walk(multi, body, Place(codeStart, 1), n) == Some(Place(pc, |control|));
    WalkIsStatic(multi, body, Place(codeStart, 1), n);
    var k: nat :| Walk(multi, body, Place(last.startPc, 1), k) == Some(Place(pc, 1));
    WalkIsStatic(multi, body, Place(last.startPc, 1), k);
    if |control| > 1 {
      InsideBeforeEnd(multi, body, last.startPc, Place(pc, 1), last.endPc);
    }
    forall j | 1 <= j < |control|
      ensures control[j - 1].startPc <= control[j].startPc && control[j].endPc <= |body|
    {
      var i: nat :| Walk(multi, body, Place(control[j - 1].startPc, 1), i) == Some(Place(control[j].startPc, 2));
      WalkIsStatic(multi, body, Place(control[j - 1].startPc, 1), i);
      LeadsRefl(multi, body, Place(control[j].startPc, 1));
      InsideBeforeEnd(multi, body, control[j].startPc, Place(control[j].startPc, 1), control[j].endPc);
    }
    forall j | 2 <= j < |control|
      ensures control[j].endPc < control[j - 1].endPc
    {
      InnerEndsFirst(multi, body, control[j - 1], control[j]);
    }
  }

  // ------------------------------------------------------------- fresh frames

  lemma StartInStep(multi: bool, body: seq<byte>, codeStart: nat, results: seq<nat>)
    ensures InStep(multi, body, codeStart, [FunctionFrame(codeStart, body, results)], codeStart)
  {
    LeadsRefl(multi, body, Place(codeStart, 1));
  }
}
