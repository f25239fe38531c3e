/** The interpreter never builds a tree, yet on every call-free body that spells one it computes
    what a structured big-step semantics computes (section 4.4.8 of the WebAssembly Core
    Specification 2.0, by the interpreter's label types or the standard's). */
module Structured {
  import opened Core
  import opened Leb128
  import opened RuntimeState
  import opened Decoders
  import opened Machine

  /** A leaf instruction, or bytes that the scanner passes over but the loop cannot decode. */
  datatype Leaf = Instr(instruction: Instruction) | Bad(status: Error)

  /** Instruction sequences; every node carries what follows it. */
  datatype Code =
    | Nil
    | Simple(leaf: Leaf, rest: Code)
    | Block(blockType: int, inner: Code, rest: Code)
    | Loop(blockType: int, inner: Code, rest: Code)
    | IfThen(blockType: int, yes: Code, rest: Code)
    | IfElse(blockType: int, yes: Code, no: Code, rest: Code)

  // ------------------------------------------------ bodies that spell a tree

  predicate IsLeafOp(op: byte) {
    !IsBlock(op) && op != 0x05 && op != 0x0B && !IsCall(op)
  }

  function LeafAt(env: Env, body: seq<byte>, p: nat): Leaf
    requires p < |body|
  {
    match Decode(env, body, p)
    case Success(d) => Instr(d.instruction)
    case Failure(e) => Bad(e)
  }

  /** Where the body of a block opener `op` of this type at `p` starts. */
  function OpensAt(body: seq<byte>, p: nat, op: byte, blockType: int): Option<nat> {
    if p >= |body| || body[p] != op then None
    else
      match ReadSLeb(body, p + 1)
      case Failure(_) => None
      case Success(l) => if l.value == blockType then Some(l.next) else None
  }

  /** The end of `c` if the bytes from `p` on encode it, with any LEB128 paddings. */
  function Spells(env: Env, body: seq<byte>, p: nat, c: Code): Option<nat>
    decreases c, 0
  {
    match c
    case Nil => Some(p)
    case Simple(leaf, rest) =>
      if p >= |body| || !IsLeafOp(body[p]) || LeafAt(env, body, p) != leaf then None
      else
        (match SkipImmediates(env.MultiMemory(), body, p + 1, body[p])
         case Failure(_) => None
         case Success(next) => Spells(env, body, next, rest))
    case Block(blockType, inner, rest) =>
      var start :- OpensAt(body, p, 0x02, blockType);
      var after :- SpellsTo(env, body, start, inner, 0x0B);
      Spells(env, body, after, rest)
    case Loop(blockType, inner, rest) =>
      var start :- OpensAt(body, p, 0x03, blockType);
      var after :- SpellsTo(env, body, start, inner, 0x0B);
      Spells(env, body, after, rest)
    case IfThen(blockType, yes, rest) =>
      var start :- OpensAt(body, p, 0x04, blockType);
      var after :- SpellsTo(env, body, start, yes, 0x0B);
      Spells(env, body, after, rest)
    case IfElse(blockType, yes, no, rest) =>
      var start :- OpensAt(body, p, 0x04, blockType);
      var middle :- SpellsTo(env, body, start, yes, 0x05);
      var after :- SpellsTo(env, body, middle, no, 0x0B);
      Spells(env, body, after, rest)
  }

  /** The position after `mark` if the bytes from `p` on encode `c` and then `mark`. */
  function SpellsTo(env: Env, body: seq<byte>, p: nat, c: Code, mark: byte): (r: Option<nat>)
    ensures r.Some? ==> r.value > 0 && Spells(env, body, p, c) == Some(r.value - 1)
    ensures r.Some? ==> r.value <= |body| && body[r.value - 1] == mark
    decreases c, 1
  {
    var e :- Spells(env, body, p, c);
    if e < |body| && body[e] == mark then Some(e + 1) else None
  }

  // ------------------------------------------------------- the scan on spelled code

  /** One turn of the scan on each kind of byte it can meet below the `end` it looks for. */
  lemma ScanTurn(multi: bool, body: seq<byte>, c: nat, depth: nat, elsePc: nat)
    requires depth > 0 && c < |body|
    ensures IsBlock(body[c]) && ReadSLeb(body, c + 1).Success? ==>
      ScanFrom(multi, body, c, depth, elsePc)
          == ScanFrom(multi, body, ReadSLeb(body, c + 1).value.next, depth + 1, elsePc)
    ensures depth > 1 && (body[c] == 0x05 || body[c] == 0x0B) ==>
      ScanFrom(multi, body, c, depth, elsePc)
      == ScanFrom(multi, body, c + 1, if body[c] == 0x0B then depth - 1 else depth, elsePc)
    ensures IsLeafOp(body[c]) && SkipImmediates(multi, body, c + 1, body[c]).Success? ==>
      ScanFrom(multi, body, c, depth, elsePc)
      == ScanFrom(multi, body, SkipImmediates(multi, body, c + 1, body[c]).value, depth, elsePc)
  {
    hide SkipImmediates;
  }

  /** The scan passes over spelled code without noticing it. */
  lemma {:induction false} ScanPassesOver(env: Env, body: seq<byte>, p: nat, c: Code, depth: nat, elsePc: nat)
    requires depth > 0 && Spells(env, body, p, c).Some?
    ensures ScanFrom(env.MultiMemory(), body, p, depth, elsePc)
            == ScanFrom(env.MultiMemory(), body, Spells(env, body, p, c).value, depth, elsePc)
    decreases c, 2
  {
    hide ScanFrom, SkipImmediates, LeafAt, OpensAt;
    match c {
      case Nil =>
      case Simple(leaf, rest) =>
        var next := SkipImmediates(env.MultiMemory(), body, p + 1, body[p]).value;
        ScanTurn(env.MultiMemory(), body, p, depth, elsePc);
        ScanPassesOver(env, body, next, rest, depth, elsePc);
      case Block(blockType, inner, rest) =>
        ScanPassesBlock(env, body, p, 0x02, blockType, inner, depth, elsePc);
        ScanPassesOver(env, body, SpellsTo(env, body, OpensAt(body, p, 0x02, blockType).value, inner, 0x0B).value,
                       rest, depth, elsePc);
      case Loop(blockType, inner, rest) =>
        ScanPassesBlock(env, body, p, 0x03, blockType, inner, depth, elsePc);
        ScanPassesOver(env, body, SpellsTo(env, body, OpensAt(body, p, 0x03, blockType).value, inner, 0x0B).value,
                       rest, depth, elsePc);
      case IfThen(blockType, yes, rest) =>
        ScanPassesBlock(env, body, p, 0x04, blockType, yes, depth, elsePc);
        ScanPassesOver(env, body, SpellsTo(env, body, OpensAt(body, p, 0x04, blockType).value, yes, 0x0B).value,
                       rest, depth, elsePc);
      case IfElse(blockType, yes, no, rest) =>
        var middle := SpellsTo(env, body, OpensAt(body, p, 0x04, blockType).value, yes, 0x05).value;
        ScanPassesIfElse(env, body, p, c, depth, elsePc);
        ScanPassesOver(env, body, SpellsTo(env, body, middle, no, 0x0B).value, rest, depth, elsePc);
    }
  }

  lemma {:induction false} ScanPassesBlock(env: Env, body: seq<byte>, p: nat, op: byte, blockType: int, inner: Code,
                                           depth: nat, elsePc: nat)
    requires depth > 0 && IsBlock(op) && OpensAt(body, p, op, blockType).Some?
    requires SpellsTo(env, body, OpensAt(body, p, op, blockType).value, inner, 0x0B).Some?
    ensures ScanFrom(env.MultiMemory(), body, p, depth, elsePc)
            == ScanFrom(env.MultiMemory(), body,
                        SpellsTo(env, body, OpensAt(body, p, op, blockType).value, inner, 0x0B).value,
                        depth, elsePc)
    decreases inner, 3
  {
    hide ScanFrom, Spells, SkipImmediates;
    var start := OpensAt(body, p, op, blockType).value;
    var after := SpellsTo(env, body, start, inner, 0x0B).value;
    ScanTurn(env.MultiMemory(), body, p, depth, elsePc);
    ScanPassesOver(env, body, start, inner, depth + 1, elsePc);
    ScanTurn(env.MultiMemory(), body, after - 1, depth + 1, elsePc);
  }

  lemma {:induction false} ScanPassesIfElse(env: Env, body: seq<byte>, p: nat, c: Code, depth: nat, elsePc: nat)
    requires depth > 0 && c.IfElse? && OpensAt(body, p, 0x04, c.blockType).Some?
    requires SpellsTo(env, body, OpensAt(body, p, 0x04, c.blockType).value, c.yes, 0x05).Some?
    requires SpellsTo(env, body, SpellsTo(env, body, OpensAt(body, p, 0x04, c.blockType).value, c.yes, 0x05).value,
                      c.no, 0x0B).Some?
    ensures var middle := SpellsTo(env, body, OpensAt(body, p, 0x04, c.blockType).value, c.yes, 0x05).value;
            ScanFrom(env.MultiMemory(), body, p, depth, elsePc)
            == ScanFrom(env.MultiMemory(), body, SpellsTo(env, body, middle, c.no, 0x0B).value, depth, elsePc)
    decreases c, 1
  {
    hide ScanFrom, Spells, SkipImmediates;
    var start := OpensAt(body, p, 0x04, c.blockType).value;
    var middle := SpellsTo(env, body, start, c.yes, 0x05).value;
    var after := SpellsTo(env, body, middle, c.no, 0x0B).value;
    ScanTurn(env.MultiMemory(), body, p, depth, elsePc);
    ScanPassesOver(env, body, start, c.yes, depth + 1, elsePc);
    ScanTurn(env.MultiMemory(), body, middle - 1, depth + 1, elsePc);
    ScanPassesOver(env, body, middle, c.no, depth + 1, elsePc);
    ScanTurn(env.MultiMemory(), body, after - 1, depth + 1, elsePc);
  }

  /** From the start of a block's body the scan finds exactly its own `end`, and no `else`. */
  lemma ScanFindsEnd(env: Env, body: seq<byte>, start: nat, inner: Code)
    requires SpellsTo(env, body, start, inner, 0x0B).Some?
    ensures Scan(env.MultiMemory(), body, start) == Success(Extent(0, SpellsTo(env, body, start, inner, 0x0B).value))
  {
    ScanPassesOver(env, body, start, inner, 1, 0);
  }

  lemma ScanMarks(multi: bool, body: seq<byte>, c: nat, elsePc: nat)
    requires c < |body|
    ensures body[c] == 0x0B ==> ScanFrom(multi, body, c, 1, elsePc) == Success(Extent(elsePc, c + 1))
    ensures body[c] == 0x05 ==> ScanFrom(multi, body, c, 1, 0) == ScanFrom(multi, body, c + 1, 1, c + 1)
  {
  }

  /** With an `else` part the scan also finds exactly its own `else`, whatever is nested on both sides. */
  lemma ScanFindsElse(env: Env, body: seq<byte>, start: nat, yes: Code, no: Code)
    requires SpellsTo(env, body, start, yes, 0x05).Some?
    requires SpellsTo(env, body, SpellsTo(env, body, start, yes, 0x05).value, no, 0x0B).Some?
    ensures var middle := SpellsTo(env, body, start, yes, 0x05).value;
            Scan(env.MultiMemory(), body, start)
            == Success(Extent(middle, SpellsTo(env, body, middle, no, 0x0B).value))
  {
    hide ScanFrom, Spells, SkipImmediates;
    var middle := SpellsTo(env, body, start, yes, 0x05).value;
    var end := SpellsTo(env, body, middle, no, 0x0B).value;
    ScanPassesOver(env, body, start, yes, 1, 0);
    ScanMarks(env.MultiMemory(), body, middle - 1, 0);
    ScanPassesOver(env, body, middle, no, 1, middle);
    ScanMarks(env.MultiMemory(), body, end - 1, middle);
  }

  // ------------------------------------------------------ structured semantics

  /** How a piece of code ends: it falls through, jumps to the `depth`-th label around it, leaves the
      function, fails, or uses up the loop budget. */
  datatype Flow =
    | Normal(mach: Mach)
    | Jump(depth: nat, mach: Mach)
    | Leave(mach: Mach)
    | Err(status: Error, mach: Mach)
    | Timeout

  function Settle(m: Mach, height: nat, types: seq<nat>): Flow {
    var (status, stack) := Unwind(m.stack, height, types);
    if status == Ok then Normal(m.(stack := stack)) else Err(status, m.(stack := stack))
  }

  function ExecLeaf(env: Env, leaf: Leaf, m: Mach): Flow {
    match leaf
    case Bad(e) => Err(e, m)
    case Instr(Plain(op, imms)) =>
      var (m', status) := ExecuteOp(env, op, PushImms(m, imms));
      if status == Ok then Normal(m') else Err(status, m')
    case Instr(Control(c)) =>
      var popped := if m.stack == [] then m else m.(stack := m.stack[..|m.stack| - 1]);
      match c
      case Br(depth) => Jump(depth, m)
      case BrIf(depth) =>
        if m.stack == [] then Err(Trap, m)
        else if Truthy(m.stack[|m.stack| - 1]) then Jump(depth, popped)
        else Normal(popped)
      case BrTable(depths, default) =>
        if m.stack == [] then Err(Trap, m)
        else
          (match IndexValue(env, m.stack[|m.stack| - 1])
           case None => Err(Trap, popped)
           case Some(index) => Jump(if index < |depths| then depths[index] else default, popped))
      case Unreachable => Err(Trap, m.(stack := []))
      case Return => Leave(m)
      case _ => Normal(m)
  }

  /** Leaving a block: falling through and jumping to its own label both settle the operands. */
  function LeaveBlock(flow: Flow, height: nat, results: seq<nat>): Flow {
    match flow
    case Normal(m) => Settle(m, height, results)
    case Jump(depth, m) => if depth == 0 then Settle(m, height, results) else Jump(depth - 1, m)
    case _ => flow
  }

  /** The checks on entering a block or loop: `None` when all is well. */
  function EntryError(sig: FuncType, stack: seq<Value>): Option<Error> {
    if !TopMatches(stack, sig.params) then Some(Trap)
    else if !Storable(sig) then Some(Unsupported)
    else None
  }

  /** What a jump to a loop's label carries: its parameters, by the standard; the code, finding none,
      takes the result types. */
  datatype LabelRule = OfCode | OfStandard

  function LoopTypes(rule: LabelRule, sig: FuncType): seq<nat> {
    if rule == OfStandard || sig.params != [] then sig.params else sig.results
  }

  function Exec(env: Env, rule: LabelRule, c: Code, m: Mach, fuel: nat): Flow
    decreases fuel, c, 1
  {
    match c
    case Nil => Normal(m)
    case Simple(leaf, rest) =>
      (match ExecLeaf(env, leaf, m)
       case Normal(m') => Exec(env, rule, rest, m', fuel)
       case other => other)
    case Block(blockType, inner, rest) =>
      (match ExecBlock(env, rule, blockType, inner, m, fuel)
       case Normal(m') => Exec(env, rule, rest, m', fuel)
       case other => other)
    case Loop(blockType, inner, rest) =>
      (match ExecLoop(env, rule, blockType, inner, m, fuel)
       case Normal(m') => Exec(env, rule, rest, m', fuel)
       case other => other)
    case IfThen(blockType, yes, rest) =>
      (match ExecIf(env, rule, c, m, fuel)
       case Normal(m') => Exec(env, rule, rest, m', fuel)
       case other => other)
    case IfElse(blockType, yes, no, rest) =>
      (match ExecIf(env, rule, c, m, fuel)
       case Normal(m') => Exec(env, rule, rest, m', fuel)
       case other => other)
  }

  function ExecBlock(env: Env, rule: LabelRule, blockType: int, inner: Code, m: Mach, fuel: nat): Flow
    decreases fuel, inner, 2
  {
    match BlockSignature(env.wasm.types, blockType)
    case Failure(e) => Err(e, m)
    case Success(sig) =>
      if EntryError(sig, m.stack).Some? then Err(EntryError(sig, m.stack).value, m)
      else LeaveBlock(Exec(env, rule, inner, m, fuel), |m.stack| - |sig.params|, sig.results)
  }

  function ExecLoop(env: Env, rule: LabelRule, blockType: int, inner: Code, m: Mach, fuel: nat): Flow
    decreases fuel, inner, 3
  {
    match BlockSignature(env.wasm.types, blockType)
    case Failure(e) => Err(e, m)
    case Success(sig) =>
      if EntryError(sig, m.stack).Some? then Err(EntryError(sig, m.stack).value, m)
      else Iterate(env, rule, sig, |m.stack| - |sig.params|, inner, m, fuel)
  }

  /** A loop body, again each time it jumps to its own label. */
  function Iterate(env: Env, rule: LabelRule, sig: FuncType, height: nat, inner: Code, m: Mach, fuel: nat): Flow
    decreases fuel, inner, 2
  {
    match Exec(env, rule, inner, m, fuel)
    case Normal(m') => Settle(m', height, sig.results)
    case Jump(depth, m') =>
      if depth > 0 then Jump(depth - 1, m')
      else
        (match Settle(m', height, LoopTypes(rule, sig))
         case Normal(again) => if fuel == 0 then Timeout else Iterate(env, rule, sig, height, inner, again, fuel - 1)
         case other => other)
    case other => other
  }

  /** Without an `else` part an `if` may have no results, and a false condition only settles. */
  function ExecIf(env: Env, rule: LabelRule, c: Code, m: Mach, fuel: nat): Flow
    requires c.IfThen? || c.IfElse?
    decreases fuel, c, 0
  {
    match BlockSignature(env.wasm.types, c.blockType)
    case Failure(e) => Err(e, m)
    case Success(sig) =>
      if (sig.results != [] && c.IfThen?) || !Storable(sig) then Err(Unsupported, m)
      else if m.stack == [] then Err(Trap, m)
      else
        var m' := m.(stack := m.stack[..|m.stack| - 1]);
        if !TopMatches(m'.stack, sig.params) then Err(Trap, m')
        else
          var height := |m'.stack| - |sig.params|;
          if Truthy(m.stack[|m.stack| - 1]) then LeaveBlock(Exec(env, rule, c.yes, m', fuel), height, sig.results)
          else if c.IfElse? then LeaveBlock(Exec(env, rule, c.no, m', fuel), height, sig.results)
          else Settle(m', height, sig.results)
  }
}
