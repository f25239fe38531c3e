/** Where the interpreter's label and block types are the standard's, and what that means for whole
    functions: sections 3.3.8 and 5.4.1 of the WebAssembly Core Specification 2.0. */
module LabelRules {
  import opened Core
  import opened RuntimeState
  import opened Decoders
  import opened Machine
  import opened Structured
  import opened Simulation
  import E = Encoding

  // ------------------------------------------------------------ label types

  function StandardLabel(f: ControlFrame): seq<nat> {
    if f.kind == LoopFrame then f.params else f.results
  }

  /** A label has its standard types except for a loop with results and no parameters. */
  lemma LabelTypesExactly(f: ControlFrame)
    ensures LabelTypes(f) == StandardLabel(f) <==> f.kind != LoopFrame || f.params != [] || f.results == []
  {
  }

  predicate RegularLoop(types: seq<FuncType>, blockType: int) {
    var sig := BlockSignature(types, blockType);
    sig.Success? ==> sig.value.params != [] || sig.value.results == []
  }

  /** Code without a loop that has results and no parameters. */
  predicate Regular(types: seq<FuncType>, c: Code) {
    match c
    case Nil => true
    case Simple(_, rest) => Regular(types, rest)
    case Block(_, inner, rest) => Regular(types, inner) && Regular(types, rest)
    case Loop(blockType, inner, rest) => RegularLoop(types, blockType) && Regular(types, inner) && Regular(types, rest)
    case IfThen(_, yes, rest) => Regular(types, yes) && Regular(types, rest)
    case IfElse(_, yes, no, rest) => Regular(types, yes) && Regular(types, no) && Regular(types, rest)
  }

  /** Regular code means the same under both rules. */
  lemma {:induction false} RulesAgree(env: Env, c: Code, m: Mach, fuel: nat)
    requires Regular(env.wasm.types, c)
    ensures Exec(env, OfCode, c, m, fuel) == Exec(env, OfStandard, c, m, fuel)
    decreases fuel, c, 1
  {
    hide BlockSignature, EntryError, Settle, LeaveBlock, ExecLeaf, RegularLoop, LoopTypes;
    match c {
      case Nil =>
      case Simple(leaf, rest) => ThenAgree(env, ExecLeaf(env, leaf, m), rest, fuel);
      case Block(blockType, inner, rest) =>
        RulesAgree(env, inner, m, fuel);
        ThenAgree(env, ExecBlock(env, OfCode, blockType, inner, m, fuel), rest, fuel);
      case Loop(blockType, inner, rest) =>
        LoopsAgree(env, blockType, inner, m, fuel);
        ThenAgree(env, ExecLoop(env, OfCode, blockType, inner, m, fuel), rest, fuel);
      case IfThen(_, yes, rest) =>
        RulesAgree(env, yes, m.(stack := if m.stack == [] then [] else m.stack[..|m.stack| - 1]), fuel);
        ThenAgree(env, ExecIf(env, OfCode, c, m, fuel), rest, fuel);
      case IfElse(_, yes, no, rest) =>
        RulesAgree(env, yes, m.(stack := if m.stack == [] then [] else m.stack[..|m.stack| - 1]), fuel);
        RulesAgree(env, no, m.(stack := if m.stack == [] then [] else m.stack[..|m.stack| - 1]), fuel);
        ThenAgree(env, ExecIf(env, OfCode, c, m, fuel), rest, fuel);
    }
  }

  lemma {:induction false} ThenAgree(env: Env, flow: Flow, rest: Code, fuel: nat)
    requires Regular(env.wasm.types, rest)
    ensures flow.Normal? ==> Exec(env, OfCode, rest, flow.mach, fuel) == Exec(env, OfStandard, rest, flow.mach, fuel)
    decreases fuel, rest, 2
  {
    if flow.Normal? {
      RulesAgree(env, rest, flow.mach, fuel);
    }
  }

  lemma {:induction false} LoopsAgree(env: Env, blockType: int, inner: Code, m: Mach, fuel: nat)
    requires RegularLoop(env.wasm.types, blockType) && Regular(env.wasm.types, inner)
    ensures ExecLoop(env, OfCode, blockType, inner, m, fuel) == ExecLoop(env, OfStandard, blockType, inner, m, fuel)
    decreases fuel, inner, 3
  {
    hide BlockSignature;
    var sig := BlockSignature(env.wasm.types, blockType);
    if sig.Success? && EntryError(sig.value, m.stack).None? {
      IterationsAgree(env, sig.value, |m.stack| - |sig.value.params|, inner, m, fuel);
    }
  }

  lemma {:induction false} IterationsAgree(env: Env, sig: FuncType, height: nat, inner: Code, m: Mach, fuel: nat)
    requires (sig.params != [] || sig.results == []) && Regular(env.wasm.types, inner)
    ensures Iterate(env, OfCode, sig, height, inner, m, fuel) == Iterate(env, OfStandard, sig, height, inner, m, fuel)
    decreases fuel, inner, 2
  {
    hide Exec, Settle;
    RulesAgree(env, inner, m, fuel);
    var flow := Exec(env, OfCode, inner, m, fuel);
    if flow.Jump? && flow.depth == 0 && fuel > 0 {
      var again := Settle(flow.mach, height, sig.params);
      if again.Normal? {
        IterationsAgree(env, sig, height, inner, again.mach, fuel - 1);
      }
    }
  }

  /** Regular functions refine the semantics with the standard's label types. */
  lemma StandardRefinement(env: Env, body: seq<byte>, codeStart: nat, c: Code, results: seq<nat>, m: Mach, end: Outcome)
    requires SpellsFunction(env, body, codeStart, c) && Regular(env.wasm.types, c) && !end.Running?
    ensures (exists n :: Run(env, body, StartFrame(body, codeStart, results, m), n) == end)
            <==> (exists fuel :: ExecFunction(env, OfStandard, c, results, m, fuel) == Some(end))
  {
    hide Run, StartFrame, Exec, Regular, SpellsFunction;
    StructuredRefinement(env, body, codeStart, c, results, m, end);
    forall fuel: nat
      ensures ExecFunction(env, OfStandard, c, results, m, fuel) == ExecFunction(env, OfCode, c, results, m, fuel)
    {
      RulesAgree(env, c, m, fuel);
    }
  }

  /** A loop that jumps to its own label at once. */
  function Spin(blockType: int): Code {
    Loop(blockType, Simple(Instr(Control(Br(0))), Nil), Nil)
  }

  lemma {:induction false} SpinsForever(env: Env, rule: LabelRule, sig: FuncType, m: Mach, fuel: nat)
    requires LoopTypes(rule, sig) == []
    ensures Iterate(env, rule, sig, |m.stack|, Spin(0).inner, m, fuel) == Timeout
    decreases fuel
  {
    var inner := Spin(0).inner;
    assert Exec(env, rule, inner, m, fuel) == Jump(0, m);
    assert m.stack[..|m.stack|] + [] == m.stack;
    if fuel > 0 {
      SpinsForever(env, rule, sig, m, fuel - 1);
    }
  }

  /** The condition is not idle: a parameterless loop that jumps to its own label at once runs forever by
      the standard; by the code, if it has results, it traps. */
  lemma SpinDeparts(env: Env, blockType: int, results: seq<nat>, m: Mach, fuel: nat)
    requires BlockSignature(env.wasm.types, blockType) == Success(FuncType([], results))
             && Storable(FuncType([], results))
    ensures Exec(env, OfStandard, Spin(blockType), m, fuel) == Timeout
    ensures Exec(env, OfCode, Spin(blockType), m, fuel) == if results == [] then Timeout else Err(Trap, m)
  {
    hide BlockSignature, Storable;
    var sig := FuncType([], results);
    SpinsForever(env, OfStandard, sig, m, fuel);
    if results == [] {
      SpinsForever(env, OfCode, sig, m, fuel);
    } else {
      assert Exec(env, OfCode, Spin(0).inner, m, fuel) == Jump(0, m);
      assert Iterate(env, OfCode, sig, |m.stack|, Spin(0).inner, m, fuel) == Err(Trap, m);
    }
  }

  // ------------------------------------------------------------ block types

  /** Block types by the standard: empty, one value type, or a type index. */
  function StandardSignature(types: seq<FuncType>, blockType: int): Result<FuncType> {
    if blockType >= 0 then
      if blockType < |types| then Success(types[blockType]) else Failure(Unsupported)
    else if blockType == -64 then Success(FuncType([], []))
    else if -5 <= blockType <= -1 || blockType == -16 || blockType == -17 then Success(FuncType([], [128 + blockType]))
    else Failure(Unsupported)
  }

  /** The code reads a block type as the standard does, except for references, which it refuses, and for
      type index 0x40, which it takes for the empty type. */
  lemma BlockSignatureExactly(types: seq<FuncType>, blockType: int)
    ensures BlockSignature(types, blockType) == StandardSignature(types, blockType)
            <==> blockType != -16 && blockType != -17 &&
                 (blockType == 0x40 ==> |types| > 0x40 && types[0x40] == FuncType([], []))
  {
  }
}
