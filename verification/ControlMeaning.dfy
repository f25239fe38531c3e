/** What single instructions do, on the bits they find: conditions, branch indices, operand kinds, and
    how a plain instruction is handed to its handler. */
module ControlMeaning {
  import opened Core
  import opened RuntimeState
  import opened Decoders
  import opened Machine

  // ------------------------------------------------------------- conditions

  /** The values that count as false: integer, reference and float zeros of either sign, and vectors. */
  predicate IsFalse(v: Value) {
    || v == I32(0) || v == I64(0) || v == Ref(0)
    || v == F32(0) || v == F32(0x8000_0000) || v == F64(0) || v == F64(0x8000_0000_0000_0000)
    || v.V128?
  }

  /** `br_if` takes the value off and branches exactly when it is none of these. */
  lemma BranchIfDoes(env: Env, body: seq<byte>, pc: nat, control: seq<ControlFrame>, m: Mach, d: nat, s: seq<Value>,
        v: Value)
    requires m.stack == s + [v]
    ensures ExecuteControl(env, body, pc, control, m, BrIf(d))
            == if IsFalse(v) then Running(pc, control, m.(stack := s)) else BranchTo(control, d, m.(stack := s))
  {
    hide BranchTo;
    assert m.stack[..|m.stack| - 1] == s;
  }

  /** `br_table` takes the index off as an unsigned number, a float by the C conversion, and branches to
      its label, or the default beyond the last; a vector is no index. */
  lemma BranchTableDoes(env: Env, body: seq<byte>, pc: nat, control: seq<ControlFrame>, m: Mach, depths: seq<nat>,
        default: nat, s: seq<Value>, v: Value)
    requires m.stack == s + [v]
    ensures var o := ExecuteControl(env, body, pc, control, m, BrTable(depths, default));
            var m' := m.(stack := s);
            match v
            case I32(n) => o == BranchTo(control, if n < |depths| then depths[n] else default, m')
            case I64(n) => o == BranchTo(control, if n < |depths| then depths[n] else default, m')
            case Ref(n) => o == BranchTo(control, if n < |depths| then depths[n] else default, m')
            case V128(_) => o == Fault(Trap, m')
            case _ =>
              o == BranchTo(control, if env.truncate(v) < |depths| then depths[env.truncate(v)] else default, m')
  {
    hide BranchTo;
    assert m.stack[..|m.stack| - 1] == s;
  }

  /** On an empty stack both trap and leave everything as it was. */
  lemma NoConditionTraps(env: Env, body: seq<byte>, pc: nat, control: seq<ControlFrame>, m: Mach, d: nat,
        depths: seq<nat>)
    requires m.stack == []
    ensures ExecuteControl(env, body, pc, control, m, BrIf(d)) == Fault(Trap, m)
    ensures ExecuteControl(env, body, pc, control, m, BrTable(depths, d)) == Fault(Trap, m)
  {
  }

  /** Every type code fits the byte a label keeps it in. */
  predicate InBytes(sig: FuncType) {
    && (forall k :: 0 <= k < |sig.params| ==> sig.params[k] < 0x100)
    && (forall k :: 0 <= k < |sig.results| ==> sig.results[k] < 0x100)
  }

  lemma StorableExactly(sig: FuncType)
    ensures Storable(sig) <==> InBytes(sig)
  {
    if Storable(sig) {
      assert forall k :: 0 <= k < |sig.params| ==> sig.params[k] in sig.params;
      assert forall k :: 0 <= k < |sig.results| ==> sig.results[k] in sig.results;
    }
  }

  /** An `if` whose condition and operands are there takes the first arm on a true condition; on a false
      one the second, or, having none, drops its operands and goes on behind its `end`. */
  lemma IfDoes(env: Env, body: seq<byte>, blockType: int, pc: nat, control: seq<ControlFrame>, m: Mach, sig: FuncType,
        extent: Extent, s: seq<Value>, v: Value)
    requires BlockSignature(env.wasm.types, blockType) == Success(sig)
    requires Scan(env.MultiMemory(), body, pc) == Success(extent)
    requires m.stack == s + [v] && TopMatches(s, sig.params) && InBytes(sig)
             && (sig.results != [] ==> extent.elsePc != 0)
    ensures var n := |s| - |sig.params|;
            var f := ControlFrame(IfFrame, pc, extent.elsePc, extent.endPc, sig.params, sig.results, n);
            ExecuteControl(env, body, pc, control, m, Open(IfOp, blockType))
            == if !IsFalse(v) then Running(pc, control + [f], m.(stack := s))
               else if extent.elsePc != 0 then Running(extent.elsePc, control + [f], m.(stack := s))
               else Running(extent.endPc, control, m.(stack := s[..n]))
  {
    hide Scan, BlockSignature, Storable, InBytes;
    StorableExactly(sig);
    assert m.stack[..|m.stack| - 1] == s;
    var n := |s| - |sig.params|;
    var f := ControlFrame(IfFrame, pc, extent.elsePc, extent.endPc, sig.params, sig.results, n);
    assert (control + [f])[..|control|] == control;
    assert s[..n] + s[|s|..] == s[..n];
    if sig.results == [] {
      assert Unwind(s, n, []) == (Ok, s[..n]);
    }
  }

  /** A block or loop whose operands are there opens a label below them; wrong operands trap, and a type
      code that is no byte is refused. */
  lemma BlockDoes(env: Env, body: seq<byte>, kind: BlockKind, blockType: int, pc: nat, control: seq<ControlFrame>,
        m: Mach,
        sig: FuncType, extent: Extent)
    requires kind != IfOp && BlockSignature(env.wasm.types, blockType) == Success(sig)
    requires Scan(env.MultiMemory(), body, pc) == Success(extent)
    ensures ExecuteControl(env, body, pc, control, m, Open(kind, blockType))
            == if !TopMatches(m.stack, sig.params) then Fault(Trap, m)
               else if !InBytes(sig) then Fault(Unsupported, m)
               else Running(pc, control + [ControlFrame(if kind == LoopOp then LoopFrame else BlockFrame, pc, 0,
                                                        extent.endPc, sig.params, sig.results,
                                                        |m.stack| - |sig.params|)], m)
  {
    hide Scan, BlockSignature, Storable, InBytes;
    StorableExactly(sig);
  }

  /** What keeps a block from opening, in the order it is looked at: an unknown type, bytes without a
      matching `end`; and for `if` results without a second arm, a type code that is no byte, no condition,
      and, with the condition gone, wrong operands. */
  lemma OpenFails(env: Env, body: seq<byte>, kind: BlockKind, blockType: int, pc: nat, control: seq<ControlFrame>,
        m: Mach)
    ensures var o := ExecuteControl(env, body, pc, control, m, Open(kind, blockType));
            match BlockSignature(env.wasm.types, blockType)
            case Failure(e) => o == Fault(e, m)
            case Success(sig) =>
              match Scan(env.MultiMemory(), body, pc)
              case Failure(e) => o == Fault(e, m)
              case Success(extent) =>
                kind == IfOp ==>
                  if (sig.results != [] && extent.elsePc == 0) || !InBytes(sig) then o == Fault(Unsupported, m)
                  else if m.stack == [] then o == Fault(Trap, m)
                  else !TopMatches(m.stack[..|m.stack| - 1], sig.params) ==>
                    o == Fault(Trap, m.(stack := m.stack[..|m.stack| - 1]))
  {
    hide Scan, BlockSignature, Storable, InBytes;
    if BlockSignature(env.wasm.types, blockType).Success? {
      StorableExactly(BlockSignature(env.wasm.types, blockType).value);
    }
  }

  /** Behind the last byte a frame is finished; bytes that are no instruction end the job with the decoder's
      failure; `unreachable` empties the stack and traps, and `nop` goes on. */
  lemma EdgesDo(env: Env, body: seq<byte>, pc: nat, control: seq<ControlFrame>, m: Mach)
    ensures pc >= |body| ==> Step(env, body, pc, control, m) == Finished(m)
    ensures pc < |body| && Decode(env, body, pc).Failure? ==>
              Step(env, body, pc, control, m) == Fault(Decode(env, body, pc).error, m)
    ensures pc < |body| && body[pc] == 0x00 ==> Step(env, body, pc, control, m) == Fault(Trap, m.(stack := []))
    ensures pc < |body| && body[pc] == 0x01 ==> Step(env, body, pc, control, m) == Running(pc + 1, control, m)
  {
  }

  // ------------------------------------------------------------ value types

  /** Which kind of value each type code asks for. */
  lemma MatchesExactly(v: Value, code: nat)
    ensures MatchesType(v, code) <==>
            (v.I32? && code == 0x7F) || (v.I64? && code == 0x7E) || (v.F32? && code == 0x7D) || (v.F64? && code == 0x7C)
            || (v.V128? && code == 0x7B) || (v.Ref? && (code == 0x70 || code == 0x6F))
  {
  }

  /** A type has a zero exactly when it has values, and its zero is one of them with no bit set. */
  lemma ZeroExactly(code: nat)
    ensures ZeroValue(code).Success? <==> exists v :: MatchesType(v, code)
    ensures ZeroValue(code).Success? ==> MatchesType(ZeroValue(code).value, code)
    ensures ZeroValue(code).Success? ==>
              ZeroValue(code).value in {I32(0), I64(0), F32(0), F64(0), V128(0), Ref(0)}
  {
    if v :| MatchesType(v, code) {
      assert ZeroValue(code).Success?;
    }
    if ZeroValue(code).Success? {
      assert MatchesType(ZeroValue(code).value, code);
    }
  }

  // ------------------------------------------------------ plain instructions

  /** The window an instruction leaves: what was there and its own immediates, the last four of them. */
  function LastFour(window: seq<Imm>, imms: seq<Imm>): seq<Imm> {
    var all := window + imms;
    if |all| <= 4 then all else all[|all| - 4..]
  }

  /** A decoded plain instruction is run with its immediates in the window. A failure ends the job with
      its status; a call goes on to the callee, anything else to the next instruction, the labels as
      they were. */
  lemma PlainDoes(env: Env, body: seq<byte>, pc: nat, control: seq<ControlFrame>, m: Mach, op: byte, imms: seq<Imm>,
        next: nat)
    requires pc < |body| && Decode(env, body, pc) == Success(Decoded(Plain(op, imms), next))
    ensures var (m', status) := ExecuteOp(env, op, m.(window := LastFour(m.window, imms)));
            Step(env, body, pc, control, m)
            == if status != Ok then Fault(status, m')
               else if op == 0x10 || op == 0x11 then Calling(next, control, m')
               else Running(next, control, m')
  {
    hide ExecuteOp, Decode;
  }

  /** Without microcode a row runs its handler, with the one step every microcode row has, that step;
      a row without a handler runs nothing. */
  lemma OpDoes(env: Env, op: byte, m: Mach)
    ensures env.ops(op).operation.None? ==> ExecuteOp(env, op, m) == (m, Unimplemented)
    ensures env.ops(op).operation.Some? && (env.ops(op).microcode.None? || !env.microcodeEnabled) ==>
              ExecuteOp(env, op, m) == env.run(env.ops(op).operation.value, op, m)
    ensures env.ops(op).operation.Some? && env.microcodeEnabled ==> forall h: nat ::
              env.ops(op).microcode == Some([Some(h)]) ==> ExecuteOp(env, op, m) == env.run(h, op, m)
  {
    forall h: nat | env.ops(op).microcode == Some([Some(h)])
      ensures ExecuteSteps(env, op, [Some(h)], m) == env.run(h, op, m)
    {
      assert [Some(h)][1..] == [];
      assert ExecuteSteps(env, op, [], env.run(h, op, m).0) == (env.run(h, op, m).0, Ok);
    }
  }

  /** Steps run one after the other: the second part from where the first ends, and only if it ended well. */
  lemma {:induction false} StepsCompose(env: Env, op: byte, a: seq<Option<OpId>>, b: seq<Option<OpId>>, m: Mach)
    ensures ExecuteSteps(env, op, a + b, m) ==
            var (m', status) := ExecuteSteps(env, op, a, m);
            if status != Ok then (m', status) else ExecuteSteps(env, op, b, m')
    ensures ExecuteSteps(env, op, [None], m) == (m, Unimplemented)
    decreases |a|
  {
    if a == [] {
      assert a + b == b;
    } else {
      assert (a + b)[1..] == a[1..] + b;
      if a[0].Some? {
        StepsCompose(env, op, a[1..], b, env.run(a[0].value, op, m).0);
      }
    }
  }
}
