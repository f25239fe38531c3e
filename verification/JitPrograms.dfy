/** Prepared programs: opcodes turned into handler steps ahead of time, and their spill format. */
module JitPrograms {
  import opened Core
  import opened RuntimeState
  import opened Machine
  import opened Spill

  const MAX_STEPS: nat := 4

  datatype Prepared = Prepared(descriptor: byte, steps: seq<Option<OpId>>)

  function PrepareOp(env: Env, op: byte): (r: Option<Prepared>)
    ensures r.Some? ==> r.value.descriptor == op
  {
    var def := env.ops(op);
    if env.microcodeEnabled && def.microcode.Some? && |def.microcode.value| > 0 then
      var steps := def.microcode.value;
      Some(Prepared(op, if |steps| > MAX_STEPS then steps[..MAX_STEPS] else steps))
    else if def.operation.None? then None
    else Some(Prepared(op, [def.operation]))
  }

  /** All opcodes prepared in order; nothing at all when one of them cannot be, or there are none. */
  function PrepareProgram(env: Env, opcodes: seq<byte>): (r: Option<seq<Prepared>>)
    ensures r.Some? ==> opcodes != []
  {
    if opcodes == [] then None else PrepareAll(env, opcodes)
  }

  function PrepareAll(env: Env, opcodes: seq<byte>): (r: Option<seq<Prepared>>)
    ensures r.Some? ==> |r.value| == |opcodes|
    ensures r.Some? <==> forall i :: 0 <= i < |opcodes| ==> PrepareOp(env, opcodes[i]).Some?
    ensures r.Some? ==> forall i :: 0 <= i < |opcodes| ==> PrepareOp(env, opcodes[i]) == Some(r.value[i])
    decreases |opcodes|
  {
    if opcodes == [] then Some([])
    else
      var rest := PrepareAll(env, opcodes[..|opcodes| - 1]);
      var last := PrepareOp(env, opcodes[|opcodes| - 1]);
      if rest.None? || last.None? then None else Some(rest.value + [last.value])
  }

  method PrepareFromOpcodes(env: Env, opcodes: seq<byte>) returns (program: Option<seq<Prepared>>)
    ensures program == PrepareProgram(env, opcodes)
  {
    if |opcodes| == 0 {
      return None;
    }
    var ops := [];
    for i := 0 to |opcodes|
      invariant |ops| == i && PrepareAll(env, opcodes[..i]) == Some(ops)
    {
      var prepared := PrepareOp(env, opcodes[i]);
      assert opcodes[..i + 1][..i] == opcodes[..i];
      if prepared.None? {
        assert PrepareAll(env, opcodes).None?;
        return None;
      }
      ops := ops + [prepared.value];
    }
    assert opcodes[..|opcodes|] == opcodes;
    return Some(ops);
  }

  function ExecutePrepared(env: Env, p: Prepared, m: Mach): (Mach, Status) {
    if p.steps == [] then (m, Unimplemented) else ExecuteSteps(env, p.descriptor, p.steps, m)
  }

  method ExecutePreparedOp(env: Env, p: Prepared, m: Mach) returns (m': Mach, status: Status)
    ensures (m', status) == ExecutePrepared(env, p, m)
  {
    m', status := m, Ok;
    if |p.steps| == 0 {
      return m', Unimplemented;
    }
    for i := 0 to |p.steps|
      invariant status == Ok
      invariant ExecuteSteps(env, p.descriptor, p.steps, m) == ExecuteSteps(env, p.descriptor, p.steps[i..], m')
    {
      if p.steps[i].None? {
        return m', Unimplemented;
      }
      assert p.steps[i..][1..] == p.steps[i + 1..];
      var (next, result) := env.run(p.steps[i].value, p.descriptor, m');
      m', status := next, result;
      if status != Ok {
        return;
      }
    }
  }

  // ------------------------------------------------- agreement with dispatch

  /** The microcode of `op`, if it has any, fits a prepared operation. */
  predicate Fits(env: Env, op: byte) {
    env.ops(op).microcode.Some? ==> 1 <= |env.ops(op).microcode.value| <= MAX_STEPS
  }

  /** For every opcode the loop dispatches, running its prepared form is running the opcode. */
  lemma PreparedIsDispatch(env: Env, op: byte, m: Mach)
    requires env.ops(op).operation.Some? && Fits(env, op)
    ensures PrepareOp(env, op).Some? && ExecutePrepared(env, PrepareOp(env, op).value, m) == ExecuteOp(env, op, m)
  {
    var operation := env.ops(op).operation;
    if !(env.microcodeEnabled && env.ops(op).microcode.Some?) {
      var (m', status) := env.run(operation.value, op, m);
      assert [operation][1..] == [];
      assert ExecuteSteps(env, op, [], m') == (m', Ok);
    }
  }

  function Pushing(id: OpId, op: byte, m: Mach): (Mach, Status) {
    (m.(stack := m.stack + [I32(0)]), Ok)
  }

  function Pushes(n: nat): (steps: seq<Option<OpId>>)
    ensures |steps| == n && forall i :: 0 <= i < n ==> steps[i] == Some(0)
  {
    seq(n, _ => Some(0))
  }

  /** A runtime in which every opcode has `n` microcode steps that push a zero each. */
  function PushingEnv(n: nat): Env {
    Env(WasmModule([], [], []), _ => OpDef(Some(0), Some(Pushes(n)), 0), true, Pushing, (f, m) => (m, Ok), _ => 0, 0)
  }

  /** Beyond the limit the tail of the microcode is lost: `n` pushes prepare to four. */
  lemma LongMicrocodeIsCut(n: nat, op: byte, m: Mach)
    requires n > MAX_STEPS
    ensures PrepareOp(PushingEnv(n), op).Some?
    ensures |ExecutePrepared(PushingEnv(n), PrepareOp(PushingEnv(n), op).value, m).0.stack| == |m.stack| + MAX_STEPS
    ensures |ExecuteOp(PushingEnv(n), op, m).0.stack| == |m.stack| + n
  {
    hide ExecuteSteps;
    StepsPush(n, op, Pushes(n), m);
    StepsPush(n, op, Pushes(n)[..MAX_STEPS], m);
  }

  predicate Agrees(env: Env, op: byte, m: Mach) {
    PrepareOp(env, op).Some? && ExecutePrepared(env, PrepareOp(env, op).value, m) == ExecuteOp(env, op, m)
  }

  predicate HasMicrocode(env: Env, op: byte, n: nat) {
    var def := env.ops(op);
    env.microcodeEnabled && def.operation.Some? && def.microcode.Some? && |def.microcode.value| == n
  }

  /** Microcode of `n` steps agrees with its prepared form, whatever its handlers do, exactly for one to
      four steps: with none the table's handler is prepared instead, with more the tail is lost. */
  lemma AgreementIsExact(n: nat)
    ensures (forall env: Env, op: byte, m: Mach :: HasMicrocode(env, op, n) ==> Agrees(env, op, m))
            <==> 1 <= n <= 4
  {
    hide Agrees;
    if 1 <= n <= MAX_STEPS {
      forall env: Env, op: byte, m: Mach | HasMicrocode(env, op, n)
        ensures Agrees(env, op, m)
      {
        ShortAgrees(env, op, m);
      }
    } else {
      var m := Mach([], [], [], 0, Store([], [], [], {}, {}));
      LongDisagrees(n, 0x6A, m);
      assert HasMicrocode(PushingEnv(n), 0x6A, n);
    }
  }

  lemma ShortAgrees(env: Env, op: byte, m: Mach)
    requires env.ops(op).operation.Some? && Fits(env, op)
    ensures Agrees(env, op, m)
  {
    hide ExecuteOp, ExecutePrepared, PrepareOp;
    PreparedIsDispatch(env, op, m);
  }

  lemma LongDisagrees(n: nat, op: byte, m: Mach)
    requires n == 0 || n > MAX_STEPS
    ensures !Agrees(PushingEnv(n), op, m)
  {
    if n > MAX_STEPS {
      LongMicrocodeIsCut(n, op, m);
    } else {
      StepsPush(n, op, [Some(0)], m);
      StepsPush(n, op, [], m);
    }
  }

  lemma {:induction false} StepsPush(n: nat, op: byte, steps: seq<Option<OpId>>, m: Mach)
    requires forall i :: 0 <= i < |steps| ==> steps[i] == Some(0)
    ensures |ExecuteSteps(PushingEnv(n), op, steps, m).0.stack| == |m.stack| + |steps|
    decreases |steps|
  {
    if steps != [] {
      StepsPush(n, op, steps[1..], Pushing(0, op, m).0);
    }
  }

  // ------------------------------------------------------------ spill format

  function Export(program: seq<Prepared>): (r: seq<byte>)
    ensures |r| == |program| && forall i :: 0 <= i < |program| ==> r[i] == program[i].descriptor
  {
    seq(|program|, i requires 0 <= i < |program| => program[i].descriptor)
  }

  /** The blob of a program; an empty program has none. */
  function Serialized(program: seq<Prepared>): seq<byte> {
    if program == [] then [] else Header(KIND_JIT, |program|) + Export(program)
  }

  /** A program's blob byte by byte: the envelope of kind 1, and one opcode for each operation. */
  lemma ProgramLayout(program: seq<Prepared>)
    requires 0 < |program| < TWO_64
    ensures var b := Serialized(program);
            && |b| == 16 + |program| && b[..6] == [0x46, 0x59, 0x53, 0x4D, 1, 0] && LittleEndian(b[6..8]) == 1
            && LittleEndian(b[8..16]) == |program| && forall k :: 0 <= k < |program| ==>
               b[16 + k] == program[k].descriptor
  {
    hide LittleEndian, Header;
    EnvelopeLayout(KIND_JIT, |program|);
    var b, h := Serialized(program), Header(KIND_JIT, |program|);
    assert b[..6] == h[..6] && b[6..8] == h[6..8] && b[8..16] == h[8..16];
  }

  method SerializeProgram(program: seq<Prepared>, out: array<byte>) returns (written: Option<nat>)
    modifies out
    ensures written.Some? <==> program != [] && HEADER_BYTES + |program| <= out.Length
    ensures written.Some? ==> written.value == |Serialized(program)| && out[..written.value] == Serialized(program)
    ensures written.Some? ==> out[written.value..] == old(out[..])[written.value..]
    ensures written.None? ==> out[..] == old(out[..])
  {
    hide Bytes, Header;
    var needed := if |program| == 0 then 0 else HEADER_BYTES + |program|;
    if needed == 0 || out.Length < needed {
      return None;
    }
    ghost var before := out[..];
    var header := WriteHeader(out, KIND_JIT, |program|);
    for i := 0 to |program|
      invariant out[..HEADER_BYTES] == Header(KIND_JIT, |program|)
      invariant forall k :: 0 <= k < i ==> out[HEADER_BYTES + k] == program[k].descriptor
      invariant forall k :: needed <= k < out.Length ==> out[k] == before[k]
    {
      out[HEADER_BYTES + i] := program[i].descriptor;
    }
    assert out[HEADER_BYTES..needed] == Export(program);
    assert out[..needed] == out[..HEADER_BYTES] + out[HEADER_BYTES..needed];
    return Some(needed);
  }

  /** Reads a blob back: the opcode stream is prepared again. */
  function Deserialized(env: Env, buffer: seq<byte>): Option<seq<Prepared>> {
    match ReadHeader(buffer)
    case None => None
    case Some(e) =>
      AcceptedFits(buffer);
      if e.kind != KIND_JIT || e.payload == 0 then None
      else PrepareProgram(env, buffer[HEADER_BYTES..HEADER_BYTES + e.payload])
  }

  /** A program prepared from any opcodes comes back the same from its blob, with anything after it. */
  lemma ProgramRoundTrip(env: Env, opcodes: seq<byte>, program: seq<Prepared>, tail: seq<byte>)
    requires PrepareProgram(env, opcodes) == Some(program) && |program| < TWO_64
    ensures Deserialized(env, Serialized(program) + tail) == Some(program)
  {
    hide ReadHeader, Header;
    var buffer := Serialized(program) + tail;
    assert Export(program) == opcodes;
    assert buffer[..HEADER_BYTES] == Header(KIND_JIT, |program|);
    HeaderRoundTrip(buffer, KIND_JIT, |program|);
    assert buffer[HEADER_BYTES..HEADER_BYTES + |program|] == opcodes;
  }

  /** A buffer is taken for a program of `n` operations exactly when it starts with the envelope of that many
      opcodes, holds them, and each of them has something to run. */
  lemma ProgramAccepted(env: Env, buffer: seq<byte>, n: nat)
    requires n < TWO_64
    ensures Deserialized(env, buffer).Some? && |Deserialized(env, buffer).value| == n
            <==> && 0 < n && 16 + n <= |buffer| && buffer[..16] == Header(1, n)
                 && forall k :: 16 <= k < 16 + n ==> PrepareOp(env, buffer[k]).Some?
  {
    hide ReadHeader, Header;
    HeaderRoundTrip(buffer, KIND_JIT, n);
    if ReadHeader(buffer).Some? && ReadHeader(buffer).value.kind == KIND_JIT {
      AcceptedFits(buffer);
      var payload := ReadHeader(buffer).value.payload;
      var opcodes := buffer[16..16 + payload];
      if payload == n {
        assert forall k :: 16 <= k < 16 + n ==> buffer[k] == opcodes[k - 16];
        assert forall k :: 0 <= k < n ==> opcodes[k] == buffer[k + 16];
      }
    }
  }
}
