/** The state the interpreter works on besides a frame's program counter and control stack. */
module RuntimeState {
  import opened Core

  datatype FuncType = FuncType(params: seq<nat>, results: seq<nat>)

  datatype Function = Function(typeIndex: nat, imported: bool, body: seq<byte>)

  /** A parsed module: signatures, functions, and for each memory whether it is 64-bit addressed. */
  datatype WasmModule = WasmModule(types: seq<FuncType>, functions: seq<Function>, memory64: seq<bool>)

  /** What an immediate is for; the decoder pushes it and the handler pops it in this role. */
  datatype Role =
    | FunctionIndex | TypeIndex | TableIndex | SourceTable | RefType | VariableIndex | Constant
    | MemoryIndex | SourceMemory | Alignment | Offset | DataIndex | ElementIndex | Lane | Subopcode

  /** One node of the immediate window: `size` bytes holding `bits`. */
  datatype Imm = Imm(role: Role, size: nat, bits: nat)

  const WINDOW_SIZE: nat := 4

  /** The window keeps the most recent `WINDOW_SIZE` immediates. */
  function Trim(window: seq<Imm>): (r: seq<Imm>) {
    if |window| <= WINDOW_SIZE then window else window[|window| - WINDOW_SIZE..]
  }

  /** Everything outside the frames that instruction handlers may read and write. */
  datatype Store = Store(globals: seq<Value>, memories: seq<seq<byte>>, tables: seq<seq<nat>>,
                         droppedData: set<nat>, droppedElements: set<nat>)

  /** A job together with the store and the locals of the running frame. */
  datatype Mach = Mach(stack: seq<Value>, window: seq<Imm>, locals: seq<Value>, target: nat, store: Store)

  type OpId = nat

  /** A row of the opcode table with its microcode, if any; a null step is `None`. */
  datatype OpDef = OpDef(operation: Option<OpId>, microcode: Option<seq<Option<OpId>>>, numArgs: nat)

  /** The parts of the runtime that stay fixed during a job. Handlers, imported functions and the
      C conversion of a float to an integer are deterministic but otherwise arbitrary. */
  datatype Env = Env(
    wasm: WasmModule,
    ops: byte -> OpDef,
    microcodeEnabled: bool,
    run: (OpId, byte, Mach) -> (Mach, Status),
    host: (nat, Mach) -> (Mach, Status),
    truncate: Value -> nat,
    maxCallDepth: nat)
  {
    predicate MultiMemory() {
      |wasm.memory64| > 1
    }

    predicate Memory64(index: nat) {
      index < |wasm.memory64| && wasm.memory64[index]
    }
  }
}

/** Three routines walk over instruction immediates: the block scanner, the prescan and the
    executing decoder. They are modelled one by one and compared with one layout table. */
module Decoders {
  import opened Core
  import opened Leb128
  import opened RuntimeState

  // ------------------------------------------------------- reference layouts

  /** The binary format of immediates, after section 5.4 of the WebAssembly Core Specification 2.0. */
  datatype Field = U | S | Raw(bytes: nat)

  function SkipField(body: seq<byte>, c: nat, f: Field): (r: Result<nat>)
    ensures r.Success? ==> c <= r.value && (c <= |body| ==> r.value <= |body|)
  {
    match f
    case U => var l :- ReadULeb(body, c); Success(l.next)
    case S => var l :- ReadSLeb(body, c); Success(l.next)
    case Raw(n) => if c + n > |body| then Failure(Stream) else Success(c + n)
  }

  function SkipFields(body: seq<byte>, c: nat, fs: seq<Field>): (r: Result<nat>)
    ensures r.Success? ==> c <= r.value && (c <= |body| ==> r.value <= |body|)
    decreases |fs|
  {
    if fs == [] then Success(c)
    else
      var next :- SkipField(body, c, fs[0]);
      SkipFields(body, next, fs[1..])
  }

  predicate IsBlock(op: byte) {
    op == 0x02 || op == 0x03 || op == 0x04
  }

  predicate IsMemoryAccess(op: byte) {
    0x28 <= op <= 0x3E
  }

  function MemArg(multi: bool): seq<Field> {
    if multi then [U, U, U] else [U, U]
  }

  /** Fields of every opcode that is neither `br_table` nor a prefix. */
  function Layout(multi: bool, op: byte): seq<Field> {
    if IsBlock(op) then [S]
    else if op == 0x0C || op == 0x0D || op == 0x10 || op == 0xD2 then [U]
    else if 0x20 <= op <= 0x26 || op == 0x3F || op == 0x40 then [U]
    else if op == 0x11 then [U, U]
    else if op == 0xD0 then [Raw(1)]
    else if op == 0x41 || op == 0x42 then [S]
    else if op == 0x43 then [Raw(4)]
    else if op == 0x44 then [Raw(8)]
    else if IsMemoryAccess(op) then MemArg(multi)
    else []
  }

  /** Fields after a 0xFC subopcode; there is no such instruction from 18 on. */
  function BulkLayout(sub: nat): Result<seq<Field>> {
    if sub <= 7 then Success([])
    else if sub == 8 || sub == 10 || sub == 12 || sub == 14 then Success([U, U])
    else if sub <= 17 then Success([U])
    else Failure(Unimplemented)
  }

  predicate HasBytes(sub: nat) {
    sub == 0x0C || sub == 0x0D
  }

  predicate HasMemArg(sub: nat) {
    sub <= 0x0B || 0x54 <= sub <= 0x5D
  }

  predicate HasLane(sub: nat) {
    0x15 <= sub <= 0x22 || 0x54 <= sub <= 0x5B
  }

  /** Fields after a 0xFD subopcode. */
  function SimdLayout(multi: bool, sub: nat): seq<Field> {
    if HasBytes(sub) then [Raw(16)]
    else (if HasMemArg(sub) then MemArg(multi) else []) + (if HasLane(sub) then [Raw(1)] else [])
  }

  /** `n` unsigned numbers in a row. */
  function SkipULebs(body: seq<byte>, c: nat, n: nat): (r: Result<nat>)
    ensures r.Success? ==> c <= r.value && (c <= |body| ==> r.value <= |body|)
    decreases n
  {
    if n == 0 then Success(c)
    else
      var l :- ReadULeb(body, c);
      SkipULebs(body, l.next, n - 1)
  }

  /** Where the immediates of `op` end when they start at `c`. The 0xFC subopcode is cut to 32 bits. */
  function ImmediatesEnd(multi: bool, body: seq<byte>, c: nat, op: byte): (r: Result<nat>)
    ensures r.Success? ==> c <= r.value && (c <= |body| ==> r.value <= |body|)
  {
    if op == 0x0E then
      var count :- ReadULeb(body, c);
      SkipULebs(body, count.next, count.value + 1)
    else if op == 0xFC then
      var sub :- ReadULeb(body, c);
      var fields :- BulkLayout(ToU32(sub.value));
      SkipFields(body, sub.next, fields)
    else if op == 0xFD then
      var sub :- ReadULeb(body, c);
      SkipFields(body, sub.next, SimdLayout(multi, sub.value))
    else
      SkipFields(body, c, Layout(multi, op))
  }

  /** A 0xFC prefix whose subopcode does not fit 32 bits: only the executing decoder takes it. */
  predicate WidePrefix(body: seq<byte>, c: nat, op: byte) {
    op == 0xFC && ReadULeb(body, c).Success? && ReadULeb(body, c).value.value >= TWO_32
  }

  // ----------------------------------------------------- the scanner's skipper

  /** The label loop of `br_table`: all labels, then the default. */
  method SkipLabels(body: seq<byte>, cursor: nat) returns (r: Result<nat>)
    ensures r == ImmediatesEnd(false, body, cursor, 0x0E)
  {
    var count := ReadULeb128(body, cursor);
    if count.Failure? {
      return Failure(count.error);
    }
    var c, i := count.value.next, 0;
    while i < count.value.value
      invariant 0 <= i <= count.value.value
      invariant ImmediatesEnd(false, body, cursor, 0x0E) == SkipULebs(body, c, count.value.value - i + 1)
    {
      var entry := ReadULeb128(body, c);
      if entry.Failure? {
        return Failure(entry.error);
      }
      c, i := entry.value.next, i + 1;
    }
    var last := ReadULeb128(body, c);
    if last.Failure? {
      return Failure(last.error);
    }
    return Success(last.value.next);
  }

  function SkipOne(body: seq<byte>, c: nat): (r: Result<nat>)
    ensures r.Success? ==> c <= r.value && (c <= |body| ==> r.value <= |body|)
  {
    var l :- ReadULeb(body, c);
    Success(l.next)
  }

  function SkipTwo(body: seq<byte>, c: nat): (r: Result<nat>)
    ensures r.Success? ==> c <= r.value && (c <= |body| ==> r.value <= |body|)
  {
    var next :- SkipOne(body, c);
    SkipOne(body, next)
  }

  function SkipMemArg(multi: bool, body: seq<byte>, c: nat): (r: Result<nat>)
    ensures r.Success? ==> c <= r.value && (c <= |body| ==> r.value <= |body|)
  {
    var next :- if multi then SkipOne(body, c) else Success(c);
    SkipTwo(body, next)
  }

  /** The scanner's routine; it is never asked about block openers and treats them as bare. */
  function SkipImmediates(multi: bool, body: seq<byte>, c: nat, op: byte): (r: Result<nat>)
    ensures r.Success? ==> c <= r.value && (c <= |body| ==> r.value <= |body|)
  {
    if op == 0x0C || op == 0x0D || op == 0x10 || op == 0xD2 || 0x20 <= op <= 0x24 || op == 0x3F || op == 0x40 then
      SkipOne(body, c)
    else if op == 0x0E then
      var count :- ReadULeb(body, c);
      var next :- SkipULebs(body, count.next, count.value);
      SkipOne(body, next)
    else if op == 0x11 then
      SkipTwo(body, c)
    else if op == 0xD0 then
      if c >= |body| then Failure(Stream) else Success(c + 1)
    else if op == 0x41 || op == 0x42 then
      var l :- ReadSLeb(body, c);
      Success(l.next)
    else if op == 0x43 then
      if c + 4 > |body| then Failure(Stream) else Success(c + 4)
    else if op == 0x44 then
      if c + 8 > |body| then Failure(Stream) else Success(c + 8)
    else if 0x28 <= op <= 0x3E then
      SkipMemArg(multi, body, c)
    else if op == 0x25 || op == 0x26 then
      SkipOne(body, c)
    else if op == 0xFC then
      var sub :- ReadULeb(body, c);
      SkipBulk(body, sub.next, sub.value)
    else if op == 0xFD then
      var sub :- ReadULeb(body, c);
      SkipSimd(multi, body, sub.next, sub.value)
    else
      Success(c)
  }

  function SkipBulk(body: seq<byte>, c: nat, sub: nat): (r: Result<nat>)
    ensures r.Success? ==> c <= r.value && (c <= |body| ==> r.value <= |body|)
  {
    if sub <= 7 then Success(c)
    else if sub == 8 then SkipTwo(body, c)
    else if sub == 9 then SkipOne(body, c)
    else if sub == 10 then SkipTwo(body, c)
    else if sub == 11 then SkipOne(body, c)
    else if sub == 12 then SkipTwo(body, c)
    else if sub == 13 then SkipOne(body, c)
    else if sub == 14 then SkipTwo(body, c)
    else if sub <= 17 then SkipOne(body, c)
    else Failure(Unimplemented)
  }

  function SkipSimd(multi: bool, body: seq<byte>, c: nat, sub: nat): (r: Result<nat>)
    ensures r.Success? ==> c <= r.value && (c <= |body| ==> r.value <= |body|)
  {
    if sub == 0x0C || sub == 0x0D then
      if c + 16 > |body| then Failure(Stream) else Success(c + 16)
    else
      var next :- if HasMemArg(sub) then SkipMemArg(multi, body, c) else Success(c);
      if !HasLane(sub) then Success(next)
      else if next + 1 > |body| then Failure(Stream)
      else Success(next + 1)
  }

  // ----------------------------------------------------- the prescan's skipper

  /** The prescan's routine, which knows block types as well. */
  function PrescanSkip(multi: bool, body: seq<byte>, c: nat, op: byte): (r: Result<nat>)
    ensures r.Success? ==> c <= r.value && (c <= |body| ==> r.value <= |body|)
  {
    if op == 0x02 || op == 0x03 || op == 0x04 || op == 0x41 || op == 0x42 then
      var l :- ReadSLeb(body, c);
      Success(l.next)
    else if op == 0x0C || op == 0x0D || op == 0x10 || op == 0xD2 || 0x20 <= op <= 0x26 || op == 0x3F || op == 0x40 then
      SkipOne(body, c)
    else if op == 0x0E then
      var count :- ReadULeb(body, c);
      var next :- SkipULebs(body, count.next, count.value);
      SkipOne(body, next)
    else if op == 0x11 then
      var next :- SkipOne(body, c);
      SkipOne(body, next)
    else if op == 0xD0 then
      if c >= |body| then Failure(Stream) else Success(c + 1)
    else if op == 0x43 then
      if c + 4 > |body| then Failure(Stream) else Success(c + 4)
    else if op == 0x44 then
      if c + 8 > |body| then Failure(Stream) else Success(c + 8)
    else if 0x28 <= op <= 0x3E then
      PrescanMemArg(multi, body, c)
    else if op == 0xFC then
      var sub :- ReadULeb(body, c);
      PrescanBulk(body, sub.next, sub.value)
    else if op == 0xFD then
      var sub :- ReadULeb(body, c);
      PrescanSimd(multi, body, sub.next, sub.value)
    else
      Success(c)
  }

  function PrescanBulk(body: seq<byte>, c: nat, sub: nat): (r: Result<nat>)
    ensures r.Success? ==> c <= r.value && (c <= |body| ==> r.value <= |body|)
  {
    if sub < 8 then Success(c)
    else if sub >= 18 then Failure(Unimplemented)
    else
      var next :- SkipOne(body, c);
      if sub == 8 || sub == 10 || sub == 12 || sub == 14 then SkipOne(body, next) else Success(next)
  }

  function PrescanMemArg(multi: bool, body: seq<byte>, c: nat): (r: Result<nat>)
    ensures r.Success? ==> c <= r.value && (c <= |body| ==> r.value <= |body|)
  {
    if multi then
      var next :- SkipOne(body, c);
      SkipTwo(body, next)
    else
      SkipTwo(body, c)
  }

  function PrescanSimd(multi: bool, body: seq<byte>, c: nat, sub: nat): (r: Result<nat>)
    ensures r.Success? ==> c <= r.value && (c <= |body| ==> r.value <= |body|)
  {
    if HasBytes(sub) then
      if c + 16 > |body| then Failure(Stream) else Success(c + 16)
    else
      var next :- if HasMemArg(sub) then PrescanMemArg(multi, body, c) else Success(c);
      if HasLane(sub) then
        if next >= |body| then Failure(Stream) else Success(next + 1)
      else
        Success(next)
  }

  lemma SkipFieldsUnfold(body: seq<byte>, c: nat, f: Field, g: Field, h: Field)
    ensures SkipFields(body, c, [f]) == SkipField(body, c, f)
    ensures SkipFields(body, c, [f, g]) ==
            if SkipField(body, c, f).Failure? then SkipField(body, c, f)
            else SkipField(body, SkipField(body, c, f).value, g)
    ensures SkipFields(body, c, [f, g, h]) ==
            if SkipField(body, c, f).Failure? then SkipField(body, c, f)
            else SkipFields(body, SkipField(body, c, f).value, [g, h])
  {
    assert [f, g, h][1..] == [g, h] && [f, g][1..] == [g] && [f][1..] == [] && [g][1..] == [];
    var next := SkipField(body, c, f);
    if next.Success? {
      assert SkipFields(body, next.value, [g]) == SkipField(body, next.value, g);
    }
  }

  lemma {:induction false} SkipFieldsConcat(body: seq<byte>, c: nat, fs: seq<Field>, gs: seq<Field>)
    ensures SkipFields(body, c, fs + gs) ==
            if SkipFields(body, c, fs).Failure? then SkipFields(body, c, fs)
            else SkipFields(body, SkipFields(body, c, fs).value, gs)
    decreases |fs|
  {
    if fs == [] {
      assert fs + gs == gs;
    } else {
      assert (fs + gs)[0] == fs[0] && (fs + gs)[1..] == fs[1..] + gs;
      var next := SkipField(body, c, fs[0]);
      if next.Success? {
        SkipFieldsConcat(body, next.value, fs[1..], gs);
      }
    }
  }

  lemma {:induction false} SkipLabelsThenDefault(body: seq<byte>, c: nat, n: nat)
    ensures SkipULebs(body, c, n + 1) ==
            if SkipULebs(body, c, n).Failure? then SkipULebs(body, c, n)
            else SkipOne(body, SkipULebs(body, c, n).value)
    decreases n
  {
    var l := ReadULeb(body, c);
    if n > 0 && l.Success? {
      SkipLabelsThenDefault(body, l.value.next, n - 1);
    }
  }

  lemma SkipMemArgLayout(multi: bool, body: seq<byte>, c: nat)
    ensures SkipMemArg(multi, body, c) == SkipFields(body, c, MemArg(multi))
  {
    SkipFieldsUnfold(body, c, U, U, U);
    var l := ReadULeb(body, c);
    if multi && l.Success? {
      SkipFieldsUnfold(body, l.value.next, U, U, U);
    }
  }

  lemma PrescanMemArgIsSkip(multi: bool, body: seq<byte>, c: nat)
    ensures PrescanMemArg(multi, body, c) == SkipMemArg(multi, body, c)
  {
    hide ReadULeb;
  }

  lemma SkipSimdLayout(multi: bool, body: seq<byte>, c: nat, sub: nat)
    ensures SkipSimd(multi, body, c, sub) == SkipFields(body, c, SimdLayout(multi, sub))
    ensures PrescanSimd(multi, body, c, sub) == SkipSimd(multi, body, c, sub)
  {
    hide ReadULeb, ReadSLeb, SkipMemArg, PrescanMemArg;
    if HasBytes(sub) {
      SkipFieldsUnfold(body, c, Raw(16), U, U);
    } else {
      PrescanMemArgIsSkip(multi, body, c);
      SkipMemArgLayout(multi, body, c);
      var lane := if HasLane(sub) then [Raw(1)] else [];
      SkipFieldsConcat(body, c, if HasMemArg(sub) then MemArg(multi) else [], lane);
      var next := if HasMemArg(sub) then SkipMemArg(multi, body, c) else Success(c);
      if next.Success? {
        SkipFieldsUnfold(body, next.value, Raw(1), U, U);
      }
    }
  }

  lemma SkipBulkLayout(body: seq<byte>, c: nat, sub: nat)
    ensures SkipBulk(body, c, sub) ==
            if BulkLayout(sub).Failure? then Failure(Unimplemented) else SkipFields(body, c, BulkLayout(sub).value)
    ensures PrescanBulk(body, c, sub) == SkipBulk(body, c, sub)
  {
    SkipFieldsUnfold(body, c, U, U, U);
  }

  lemma SkipPrefixedMeetsLayout(multi: bool, body: seq<byte>, c: nat, op: byte)
    requires op == 0xFC || op == 0xFD
    ensures SkipImmediates(multi, body, c, op) ==
            if WidePrefix(body, c, op) then Failure(Unimplemented) else ImmediatesEnd(multi, body, c, op)
  {
    hide ReadULeb, SkipBulk, SkipSimd, SkipFields, SimdLayout;
    var sub := ReadULeb(body, c);
    if sub.Success? {
      if op == 0xFC {
        SkipBulkLayout(body, sub.value.next, sub.value.value);
      } else {
        SkipSimdLayout(multi, body, sub.value.next, sub.value.value);
      }
    }
  }

  lemma SingleField(body: seq<byte>, c: nat)
    ensures SkipFields(body, c, [U]) == SkipOne(body, c)
    ensures SkipFields(body, c, [U, U]) == SkipTwo(body, c)
    ensures forall f :: SkipFields(body, c, [f]) == SkipField(body, c, f)
    ensures SkipFields(body, c, []) == Success(c)
  {
    SkipFieldsUnfold(body, c, U, U, U);
    forall f
      ensures SkipFields(body, c, [f]) == SkipField(body, c, f)
    {
      SkipFieldsUnfold(body, c, f, U, U);
    }
  }

  /** The scanner agrees with the layout table except on wide 0xFC prefixes, which it refuses. */
  lemma SkipMeetsLayout(multi: bool, body: seq<byte>, c: nat, op: byte)
    requires !IsBlock(op)
    ensures SkipImmediates(multi, body, c, op) ==
            if WidePrefix(body, c, op) then Failure(Unimplemented) else ImmediatesEnd(multi, body, c, op)
  {
    hide ReadULeb, ReadSLeb, SkipBulk, SkipSimd, SimdLayout, BulkLayout;
    if op == 0xFC || op == 0xFD {
      SkipPrefixedMeetsLayout(multi, body, c, op);
    } else if op == 0x0E {
      var count := ReadULeb(body, c);
      if count.Success? {
        SkipLabelsThenDefault(body, count.value.next, count.value.value);
      }
    } else if IsMemoryAccess(op) {
      SkipMemArgLayout(multi, body, c);
    } else {
      SingleField(body, c);
    }
  }

  /** So does the prescan, which also knows block types. */
  lemma PrescanMeetsLayout(multi: bool, body: seq<byte>, c: nat, op: byte)
    ensures PrescanSkip(multi, body, c, op) ==
            if WidePrefix(body, c, op) then Failure(Unimplemented) else ImmediatesEnd(multi, body, c, op)
  {
    hide ReadULeb, SkipULebs, SkipBulk, SkipSimd, PrescanSimd, PrescanBulk;
    if IsBlock(op) {
      SkipFieldsUnfold(body, c, S, U, U);
    } else {
      SkipMeetsLayout(multi, body, c, op);
      PrescanMeetsSkip(multi, body, c, op);
    }
  }

  lemma PrescanMeetsSkip(multi: bool, body: seq<byte>, c: nat, op: byte)
    requires !IsBlock(op)
    ensures PrescanSkip(multi, body, c, op) == SkipImmediates(multi, body, c, op)
  {
    hide ReadULeb, ReadSLeb, SkipSimd, SkipBulk, PrescanSimd, PrescanBulk;
    var sub := ReadULeb(body, c);
    if (op == 0xFC || op == 0xFD) && sub.Success? {
      SkipBulkLayout(body, sub.value.next, sub.value.value);
      SkipSimdLayout(multi, body, sub.value.next, sub.value.value);
    }
  }

  // ------------------------------------------------------ the executing decoder

  datatype BlockKind = BlockOp | LoopOp | IfOp

  /** Decoded control instructions; a block opener carries its block type. */
  datatype Control =
    | Open(kind: BlockKind, blockType: int)
    | Else | End
    | Br(depth: nat) | BrIf(depth: nat) | BrTable(depths: seq<nat>, default: nat)
    | Unreachable | Nop | Return

  /** A decoded instruction: control, or anything else with the immediates it pushes. */
  datatype Instruction = Control(control: Control) | Plain(op: byte, imms: seq<Imm>)

  datatype Decoded = Decoded(instruction: Instruction, next: nat)

  datatype Pushed = Pushed(imms: seq<Imm>, next: nat)

  /** An index pushed as 32 bits; wider values are cut. */
  function Index(body: seq<byte>, c: nat, role: Role): (r: Result<Pushed>) {
    var l :- ReadULeb(body, c);
    Success(Pushed([Imm(role, 4, ToU32(l.value))], l.next))
  }

  /** An index that must fit 32 bits. */
  function StrictIndex(body: seq<byte>, c: nat, role: Role): (r: Result<Pushed>) {
    var l :- ReadULeb(body, c);
    if l.value >= TWO_32 then Failure(Unsupported)
    else Success(Pushed([Imm(role, 4, l.value)], l.next))
  }

  function TwoIndices(body: seq<byte>, c: nat, first: Role, second: Role): (r: Result<Pushed>) {
    var a :- Index(body, c, first);
    var b :- Index(body, a.next, second);
    Success(Pushed(a.imms + b.imms, b.next))
  }

  function RawBytes(body: seq<byte>, c: nat, n: nat, role: Role): (r: Result<Pushed>) {
    if c + n > |body| then Failure(Stream)
    else Success(Pushed([Imm(role, n, LittleEndian(body[c..c + n]))], c + n))
  }

  /** A memory argument; the offset is 64 bits wide when the memory is. */
  function DecodeMemArg(env: Env, body: seq<byte>, c: nat): (r: Result<Pushed>) {
    var memory :- if env.MultiMemory() then Index(body, c, MemoryIndex) else Success(Pushed([], c));
    var wide := if env.MultiMemory() then env.Memory64(memory.imms[0].bits) else env.Memory64(0);
    var align :- Index(body, memory.next, Alignment);
    var offset :- ReadULeb(body, align.next);
    Success(Pushed(memory.imms + align.imms +
                   [if wide then Imm(Offset, 8, offset.value) else Imm(Offset, 4, ToU32(offset.value))],
                   offset.next))
  }

  function SubOp(sub: nat): Imm {
    Imm(Subopcode, 4, ToU32(sub))
  }

  function DecodeBulk(body: seq<byte>, c: nat, sub: nat): (r: Result<Pushed>) {
    var operands :-
      if sub <= 7 then Success(Pushed([], c))
      else if sub == 8 then TwoIndices(body, c, DataIndex, MemoryIndex)
      else if sub == 9 then Index(body, c, DataIndex)
      else if sub == 10 then TwoIndices(body, c, MemoryIndex, SourceMemory)
      else if sub == 11 then Index(body, c, MemoryIndex)
      else if sub == 12 then TwoIndices(body, c, TableIndex, ElementIndex)
      else if sub == 13 then Index(body, c, ElementIndex)
      else if sub == 14 then TwoIndices(body, c, TableIndex, SourceTable)
      else if sub <= 17 then Index(body, c, TableIndex)
      else Failure(Unimplemented);
    Success(Pushed(operands.imms + [SubOp(sub)], operands.next))
  }

  function DecodeSimd(env: Env, body: seq<byte>, c: nat, sub: nat): (r: Result<Pushed>) {
    if HasBytes(sub) then
      var raw :- RawBytes(body, c, 16, Constant);
      Success(Pushed(raw.imms + [SubOp(sub)], raw.next))
    else
      var memarg :- if HasMemArg(sub) then DecodeMemArg(env, body, c) else Success(Pushed([], c));
      var lane :- if HasLane(sub) then RawBytes(body, memarg.next, 1, Lane) else Success(Pushed([], memarg.next));
      Success(Pushed(memarg.imms + lane.imms + [SubOp(sub)], lane.next))
  }

  function DecodeLabels(body: seq<byte>, c: nat, n: nat): (r: Result<(seq<nat>, nat)>)
    ensures r.Success? ==> |r.value.0| == n
    decreases n
  {
    if n == 0 then Success(([], c))
    else
      var l :- ReadULeb(body, c);
      if l.value >= TWO_32 then Failure(Unsupported)
      else
        var (rest, next) :- DecodeLabels(body, l.next, n - 1);
        Success(([l.value] + rest, next))
  }

  function DecodeBrTable(body: seq<byte>, c: nat): (r: Result<Decoded>) {
    var count :- ReadULeb(body, c);
    if count.value >= TWO_32 then Failure(Unsupported)
    else
      var (depths, next) :- DecodeLabels(body, count.next, count.value);
      var last :- ReadULeb(body, next);
      if last.value >= TWO_32 then Failure(Unsupported)
      else Success(Decoded(Control(BrTable(depths, last.value)), last.next))
  }

  /** One label read, the others to come. */
  lemma LabelsTurn(body: seq<byte>, c: nat, n: nat, depths: seq<nat>)
    requires n > 0 && ReadULeb(body, c).Success? && ReadULeb(body, c).value.value < TWO_32
    ensures var l := ReadULeb(body, c).value;
            Behind(depths, DecodeLabels(body, c, n)) == Behind(depths + [l.value], DecodeLabels(body, l.next, n - 1))
  {
    hide ReadULeb;
    var l := ReadULeb(body, c).value;
    var rest := DecodeLabels(body, l.next, n - 1);
    assert rest.Success? ==> depths + ([l.value] + rest.value.0) == depths + [l.value] + rest.value.0;
  }

  lemma LabelsEnd(body: seq<byte>, c: nat, n: nat, depths: seq<nat>)
    ensures Behind([], DecodeLabels(body, c, n)) == DecodeLabels(body, c, n)
    ensures Behind(depths, DecodeLabels(body, c, 0)) == Success((depths, c))
    ensures n > 0 && ReadULeb(body, c).Failure? ==>
              Behind(depths, DecodeLabels(body, c, n)) == Failure(ReadULeb(body, c).error)
    ensures n > 0 && ReadULeb(body, c).Success? && ReadULeb(body, c).value.value >= TWO_32 ==>
              Behind(depths, DecodeLabels(body, c, n)) == Failure(Unsupported)
  {
    hide ReadULeb;
    var all := DecodeLabels(body, c, n);
    assert all.Success? ==> [] + all.value.0 == all.value.0;
    assert depths + [] == depths;
  }

  function Behind(depths: seq<nat>, rest: Result<(seq<nat>, nat)>): Result<(seq<nat>, nat)> {
    if rest.Failure? then rest else Success((depths + rest.value.0, rest.value.1))
  }

  /** The decoder's loop over the labels of a `br_table`. */
  method DecodeTable(body: seq<byte>, cursor: nat) returns (r: Result<Decoded>)
    ensures r == DecodeBrTable(body, cursor)
  {
    hide ReadULeb, DecodeLabels, Behind;
    var count := ReadULeb128(body, cursor);
    if count.Failure? {
      return Failure(count.error);
    }
    if count.value.value >= TWO_32 {
      return Failure(Unsupported);
    }
    ghost var all := DecodeLabels(body, count.value.next, count.value.value);
    var c, depths: seq<nat> := count.value.next, [];
    LabelsEnd(body, c, count.value.value, depths);
    for i := 0 to count.value.value
      invariant all == Behind(depths, DecodeLabels(body, c, count.value.value - i))
    {
      LabelsEnd(body, c, count.value.value - i, depths);
      var entry := ReadULeb128(body, c);
      if entry.Failure? {
        return Failure(entry.error);
      }
      if entry.value.value >= TWO_32 {
        return Failure(Unsupported);
      }
      LabelsTurn(body, c, count.value.value - i, depths);
      c, depths := entry.value.next, depths + [entry.value.value];
    }
    LabelsEnd(body, c, 0, depths);
    var last := ReadULeb128(body, c);
    if last.Failure? {
      return Failure(last.error);
    }
    if last.value.value >= TWO_32 {
      return Failure(Unsupported);
    }
    return Success(Decoded(Control(BrTable(depths, last.value.value)), last.value.next));
  }

  predicate IsControl(op: byte) {
    op <= 0x05 || op == 0x0B || 0x0C <= op <= 0x0F
  }

  function DecodeControl(body: seq<byte>, c: nat, op: byte): (r: Result<Decoded>)
    requires IsControl(op)
  {
    if IsBlock(op) then
      var l :- ReadSLeb(body, c);
      var kind := if op == 0x02 then BlockOp else if op == 0x03 then LoopOp else IfOp;
      Success(Decoded(Control(Open(kind, l.value)), l.next))
    else if op == 0x0C || op == 0x0D then
      var l :- ReadULeb(body, c);
      if l.value >= TWO_32 then Failure(Unsupported)
      else Success(Decoded(Control(if op == 0x0D then BrIf(l.value) else Br(l.value)), l.next))
    else if op == 0x0E then
      DecodeBrTable(body, c)
    else
      Success(Decoded(Control(if op == 0x00 then Unreachable
                              else if op == 0x01 then Nop
                              else if op == 0x05 then Else
                              else if op == 0x0B then End
                              else Return), c))
  }

  function DecodePrefixed(env: Env, body: seq<byte>, c: nat, op: byte): (r: Result<Pushed>) {
    var sub :- ReadULeb(body, c);
    if op == 0xFC then DecodeBulk(body, sub.next, ToU32(sub.value)) else DecodeSimd(env, body, sub.next, sub.value)
  }

  function DecodePlain(env: Env, body: seq<byte>, c: nat, op: byte): (r: Result<Pushed>) {
    if op == 0x10 then StrictIndex(body, c, FunctionIndex)
    else if op == 0x11 then
      var a :- StrictIndex(body, c, TypeIndex);
      var b :- StrictIndex(body, a.next, TableIndex);
      Success(Pushed(a.imms + b.imms, b.next))
    else if op == 0xD0 then
      if c >= |body| then Failure(Stream)
      else if body[c] != VALTYPE_FUNCREF && body[c] != VALTYPE_EXTERNREF then Failure(Unsupported)
      else Success(Pushed([Imm(RefType, 4, body[c])], c + 1))
    else if op == 0xD2 then StrictIndex(body, c, FunctionIndex)
    else if 0x20 <= op <= 0x24 then Index(body, c, VariableIndex)
    else if op == 0x25 || op == 0x26 then Index(body, c, TableIndex)
    else if op == 0x41 then
      var l :- ReadSLeb(body, c);
      Success(Pushed([Imm(Constant, 4, ToU32(l.value))], l.next))
    else if op == 0x42 then
      var l :- ReadSLeb(body, c);
      Success(Pushed([Imm(Constant, 8, l.value % TWO_64)], l.next))
    else if op == 0x43 then RawBytes(body, c, 4, Constant)
    else if op == 0x44 then RawBytes(body, c, 8, Constant)
    else if op == 0x3F || op == 0x40 then Index(body, c, MemoryIndex)
    else if IsMemoryAccess(op) then DecodeMemArg(env, body, c)
    else if op == 0xFC || op == 0xFD then DecodePrefixed(env, body, c, op)
    else if env.ops(op).operation.None? then Failure(Unimplemented)
    else if env.ops(op).numArgs == 0 then Success(Pushed([], c))
    else Failure(Unsupported)
  }

  /** The instruction at `pc` as the execution loop decodes it. */
  function Decode(env: Env, body: seq<byte>, pc: nat): (r: Result<Decoded>)
    requires pc < |body|
  {
    var op := body[pc];
    if IsControl(op) then
      DecodeControl(body, pc + 1, op)
    else
      var pushed :- DecodePlain(env, body, pc + 1, op);
      Success(Decoded(Plain(op, pushed.imms), pushed.next))
  }

  // -------------------------------------------------------------- agreement

  lemma {:induction false} DecodeLabelsMeetsSkip(body: seq<byte>, c: nat, n: nat)
    requires DecodeLabels(body, c, n).Success?
    ensures SkipULebs(body, c, n) == Success(DecodeLabels(body, c, n).value.1)
    decreases n
  {
    if n > 0 {
      DecodeLabelsMeetsSkip(body, ReadULeb(body, c).value.next, n - 1);
    }
  }

  lemma DecodeControlMeetsLayout(multi: bool, body: seq<byte>, c: nat, op: byte)
    requires IsControl(op) && DecodeControl(body, c, op).Success?
    ensures ImmediatesEnd(multi, body, c, op) == Success(DecodeControl(body, c, op).value.next)
  {
    if op == 0x0E {
      var count := ReadULeb(body, c).value;
      DecodeLabelsMeetsSkip(body, count.next, count.value);
      SkipLabelsThenDefault(body, count.next, count.value);
    } else if IsBlock(op) {
      SkipFieldsUnfold(body, c, S, U, U);
    } else {
      SkipFieldsUnfold(body, c, U, U, U);
    }
  }

  lemma DecodeMemArgMeetsLayout(env: Env, body: seq<byte>, c: nat)
    requires DecodeMemArg(env, body, c).Success?
    ensures SkipFields(body, c, MemArg(env.MultiMemory())) == Success(DecodeMemArg(env, body, c).value.next)
  {
    SkipMemArgLayout(env.MultiMemory(), body, c);
  }

  lemma DecodeBulkMeetsLayout(body: seq<byte>, c: nat, sub: nat)
    requires DecodeBulk(body, c, sub).Success?
    ensures BulkLayout(sub).Success?
    ensures SkipFields(body, c, BulkLayout(sub).value) == Success(DecodeBulk(body, c, sub).value.next)
  {
    SkipFieldsUnfold(body, c, U, U, U);
  }

  lemma DecodeSimdMeetsLayout(env: Env, body: seq<byte>, c: nat, sub: nat)
    requires DecodeSimd(env, body, c, sub).Success?
    ensures SkipFields(body, c, SimdLayout(env.MultiMemory(), sub)) == Success(DecodeSimd(env, body, c, sub).value.next)
  {
    hide ReadULeb, ReadSLeb, DecodeMemArg, LittleEndian;
    if HasBytes(sub) {
      SkipFieldsUnfold(body, c, Raw(16), U, U);
    } else {
      var memarg := if HasMemArg(sub) then MemArg(env.MultiMemory()) else [];
      var lane := if HasLane(sub) then [Raw(1)] else [];
      if HasMemArg(sub) {
        DecodeMemArgMeetsLayout(env, body, c);
      }
      SkipFieldsConcat(body, c, memarg, lane);
      SkipFieldsUnfold(body, SkipFields(body, c, memarg).value, Raw(1), U, U);
    }
  }

  lemma DecodePrefixedMeetsLayout(env: Env, body: seq<byte>, c: nat, op: byte)
    requires (op == 0xFC || op == 0xFD) && DecodePrefixed(env, body, c, op).Success?
    ensures ImmediatesEnd(env.MultiMemory(), body, c, op) == Success(DecodePrefixed(env, body, c, op).value.next)
  {
    var sub := ReadULeb(body, c).value;
    if op == 0xFC {
      DecodeBulkMeetsLayout(body, sub.next, ToU32(sub.value));
    } else {
      DecodeSimdMeetsLayout(env, body, sub.next, sub.value);
    }
  }

  lemma DecodeIndicesMeetLayout(env: Env, body: seq<byte>, c: nat, op: byte)
    requires op == 0x10 || op == 0x11 || op == 0xD2 || 0x20 <= op <= 0x26 || op == 0x3F || op == 0x40
    requires DecodePlain(env, body, c, op).Success?
    ensures SkipFields(body, c, Layout(env.MultiMemory(), op)) == Success(DecodePlain(env, body, c, op).value.next)
  {
    SingleField(body, c);
  }

  lemma DecodeConstantsMeetLayout(env: Env, body: seq<byte>, c: nat, op: byte)
    requires op == 0xD0 || 0x41 <= op <= 0x44
    requires DecodePlain(env, body, c, op).Success?
    ensures SkipFields(body, c, Layout(env.MultiMemory(), op)) == Success(DecodePlain(env, body, c, op).value.next)
  {
    hide ReadULeb, ReadSLeb, LittleEndian, DecodeMemArg, DecodePrefixed;
    SingleField(body, c);
  }

  lemma DecodePlainMeetsLayout(env: Env, body: seq<byte>, c: nat, op: byte)
    requires !IsControl(op) && DecodePlain(env, body, c, op).Success?
    ensures ImmediatesEnd(env.MultiMemory(), body, c, op) == Success(DecodePlain(env, body, c, op).value.next)
  {
    if op == 0xFC || op == 0xFD {
      DecodePrefixedMeetsLayout(env, body, c, op);
    } else if IsMemoryAccess(op) {
      DecodeMemArgMeetsLayout(env, body, c);
    } else if op == 0x10 || op == 0x11 || op == 0xD2 || 0x20 <= op <= 0x26 || op == 0x3F || op == 0x40 {
      DecodeIndicesMeetLayout(env, body, c, op);
    } else if op == 0xD0 || 0x41 <= op <= 0x44 {
      DecodeConstantsMeetLayout(env, body, c, op);
    }
  }

  /** The linear decode: where the instruction at `pc` ends. */
  function Next(multi: bool, body: seq<byte>, pc: nat): (r: Result<nat>)
    requires pc < |body|
    ensures r.Success? ==> pc < r.value <= |body|
  {
    ImmediatesEnd(multi, body, pc + 1, body[pc])
  }

  /** Whenever the execution loop decodes an instruction it stops where the layout table says,
      inside the body; and so do the prescan and, on non-blocks, the scanner, unless the
      instruction is a wide 0xFC prefix, which those two refuse. */
  lemma DecodersAgree(env: Env, body: seq<byte>, pc: nat)
    requires pc < |body| && Decode(env, body, pc).Success?
    ensures var next := Decode(env, body, pc).value.next; var multi := env.MultiMemory(); var op := body[pc];
            && pc < next <= |body|
            && Next(multi, body, pc) == Success(next)
            && (PrescanSkip(multi, body, pc + 1, op) == Success(next) <==> !WidePrefix(body, pc + 1, op))
            && (!IsBlock(op) ==>
                  (SkipImmediates(multi, body, pc + 1, op) == Success(next) <==> !WidePrefix(body, pc + 1, op)))
  {
    var op := body[pc];
    if IsControl(op) {
      DecodeControlMeetsLayout(env.MultiMemory(), body, pc + 1, op);
    } else {
      DecodePlainMeetsLayout(env, body, pc + 1, op);
    }
    PrescanMeetsLayout(env.MultiMemory(), body, pc + 1, op);
    if !IsBlock(op) {
      SkipMeetsLayout(env.MultiMemory(), body, pc + 1, op);
    }
  }
}
