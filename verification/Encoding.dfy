/** The binary format written down the other way: instructions and instruction trees to bytes, and
    the round trip through the executing decoder and the block scanner. */
module Encoding {
  import opened Core
  import opened Leb128
  import opened RuntimeState
  import opened Decoders
  import opened Machine
  import opened Structured
  import opened Simulation
  import opened Jobs
  import opened Spill

  /** An instruction other than a block marker, with the operands its text would show. */
  datatype Source =
    | Bare(op: byte)
    | Branch(op: byte, depth: nat)
    | BranchTable(depths: seq<nat>, default: nat)
    | Indexed(op: byte, index: nat)
    | CallIndirect(typeIndex: nat, table: nat)
    | RefNull(valtype: byte)
    | ConstInt(op: byte, n: int)
    | ConstFloat(op: byte, bits: nat)
    | Access(op: byte, arg: Arg)
    | Bulk(sub: nat, first: nat, second: nat)
    | Simd(sub: nat, arg: Arg, lane: byte, bits: nat)

  datatype Arg = Arg(memory: nat, align: nat, offset: nat)

  predicate Wide(env: Env, a: Arg) {
    env.Memory64(a.memory)
  }

  predicate ArgOk(env: Env, a: Arg) {
    && a.memory < TWO_32 && a.align < TWO_32 && a.offset < (if Wide(env, a) then TWO_64 else TWO_32)
    && (!env.MultiMemory() ==> a.memory == 0)
  }

  function IndexRole(op: byte): Option<Role> {
    if op == 0x10 || op == 0xD2 then Some(FunctionIndex)
    else if 0x20 <= op <= 0x24 then Some(VariableIndex)
    else if op == 0x25 || op == 0x26 then Some(TableIndex)
    else if op == 0x3F || op == 0x40 then Some(MemoryIndex)
    else None
  }

  /** The roles of the index operands of a bulk instruction, as written. */
  function BulkRoles(sub: nat): seq<Role> {
    match sub
    case 8 => [DataIndex, MemoryIndex]
    case 9 => [DataIndex]
    case 10 => [MemoryIndex, SourceMemory]
    case 11 => [MemoryIndex]
    case 12 => [TableIndex, ElementIndex]
    case 13 => [ElementIndex]
    case 14 => [TableIndex, SourceTable]
    case 15 => [TableIndex]
    case 16 => [TableIndex]
    case 17 => [TableIndex]
    case _ => []
  }

  /** Operands in range, and an opcode this form belongs to. */
  predicate Encodable(env: Env, s: Source) {
    match s
    case Bare(op) =>
      op == 0x00 || op == 0x01 || op == 0x0F ||
      (!IsControl(op) && IndexRole(op).None? && op != 0x11 && op != 0xD0 && !(0x41 <= op <= 0x44)
       && !IsMemoryAccess(op) &&
       op != 0xFC && op != 0xFD && env.ops(op).operation.Some? && env.ops(op).numArgs == 0)
    case Branch(op, depth) => (op == 0x0C || op == 0x0D) && depth < TWO_32
    case BranchTable(depths, default) => |depths| < TWO_32 && default < TWO_32 && forall i :: 0 <= i < |depths| ==>
        depths[i] < TWO_32
    case Indexed(op, index) => IndexRole(op).Some? && index < TWO_32
    case CallIndirect(typeIndex, table) => typeIndex < TWO_32 && table < TWO_32
    case RefNull(valtype) => valtype == VALTYPE_FUNCREF || valtype == VALTYPE_EXTERNREF
    case ConstInt(op, n) => if op == 0x41 then -0x8000_0000 <= n < 0x8000_0000 else op == 0x42 && -TWO_63 <= n < TWO_63
    case ConstFloat(op, bits) => if op == 0x43 then bits < TWO_32 else op == 0x44 && bits < TWO_64
    case Access(op, arg) => IsMemoryAccess(op) && ArgOk(env, arg)
    case Bulk(sub, a, b) => sub <= 17 && a < TWO_32 && b < TWO_32
    case Simd(sub, arg, _, bits) => sub < TWO_32 && ArgOk(env, arg) && bits < Pow256(16)
  }

  function OpByte(s: Source): byte {
    match s
    case Bare(op) => op
    case Branch(op, _) => op
    case BranchTable(_, _) => 0x0E
    case Indexed(op, _) => op
    case CallIndirect(_, _) => 0x11
    case RefNull(_) => 0xD0
    case ConstInt(op, _) => op
    case ConstFloat(op, _) => op
    case Access(op, _) => op
    case Bulk(_, _, _) => 0xFC
    case Simd(_, _, _, _) => 0xFD
  }

  function EncodeArg(env: Env, a: Arg): seq<byte> {
    (if env.MultiMemory() then EncodeU(a.memory) else []) + (EncodeU(a.align) + EncodeU(a.offset))
  }

  function EncodeLabels(depths: seq<nat>): seq<byte>
    decreases |depths|
  {
    if depths == [] then [] else EncodeU(depths[0]) + EncodeLabels(depths[1..])
  }

  function EncodeOperands(env: Env, s: Source): seq<byte> {
    match s
    case Bare(_) => []
    case Branch(_, depth) => EncodeU(depth)
    case BranchTable(depths, default) => EncodeU(|depths|) + (EncodeLabels(depths) + EncodeU(default))
    case Indexed(_, index) => EncodeU(index)
    case CallIndirect(typeIndex, table) => EncodeU(typeIndex) + EncodeU(table)
    case RefNull(valtype) => [valtype]
    case ConstInt(_, n) => EncodeS(n)
    case ConstFloat(op, bits) => Bytes(bits, if op == 0x43 then 4 else 8)
    case Access(_, arg) => EncodeArg(env, arg)
    case Bulk(sub, a, b) =>
      EncodeU(sub)
          + (if |BulkRoles(sub)| == 0 then [] else EncodeU(a) + (if |BulkRoles(sub)| == 1 then [] else EncodeU(b)))
    case Simd(sub, arg, lane, bits) =>
      EncodeU(sub) + (if HasBytes(sub) then Bytes(bits, 16)
                      else (if HasMemArg(sub) then EncodeArg(env, arg) else []) + (if HasLane(sub) then [lane] else []))
  }

  function Encode(env: Env, s: Source): seq<byte> {
    [OpByte(s)] + EncodeOperands(env, s)
  }

  function ArgImms(env: Env, a: Arg): seq<Imm> {
    (if env.MultiMemory() then [Imm(MemoryIndex, 4, a.memory)] else []) +
    [Imm(Alignment, 4, a.align), Imm(Offset, if Wide(env, a) then 8 else 4, a.offset)]
  }

  /** What the execution loop should make of the instruction. */
  function Meaning(env: Env, s: Source): Instruction {
    match s
    case Bare(op) =>
      if op == 0x00 then Control(Unreachable) else if op == 0x01 then Control(Nop)
      else if op == 0x0F then Control(Return) else Plain(op, [])
    case Branch(op, depth) => Control(if op == 0x0D then BrIf(depth) else Br(depth))
    case BranchTable(depths, default) => Control(BrTable(depths, default))
    case Indexed(op, index) => Plain(op, if IndexRole(op).Some? then [Imm(IndexRole(op).value, 4, index)] else [])
    case CallIndirect(typeIndex, table) => Plain(0x11, [Imm(TypeIndex, 4, typeIndex), Imm(TableIndex, 4, table)])
    case RefNull(valtype) => Plain(0xD0, [Imm(RefType, 4, valtype)])
    case ConstInt(op, n) =>
      Plain(op, [if op == 0x41 then Imm(Constant, 4, n % TWO_32) else Imm(Constant, 8, n % TWO_64)])
    case ConstFloat(op, bits) => Plain(op, [Imm(Constant, if op == 0x43 then 4 else 8, bits)])
    case Access(op, arg) => Plain(op, ArgImms(env, arg))
    case Bulk(sub, a, b) =>
      var roles := BulkRoles(sub);
      Plain(0xFC, (if |roles| == 0 then [] else if |roles| == 1 then [Imm(roles[0], 4, a)]
                   else [Imm(roles[0], 4, a), Imm(roles[1], 4, b)]) + [Imm(Subopcode, 4, sub)])
    case Simd(sub, arg, lane, bits) =>
      Plain(0xFD, (if HasBytes(sub) then [Imm(Constant, 16, bits)]
                   else
                     (if HasMemArg(sub) then ArgImms(env, arg) else []) +
                     (if HasLane(sub) then [Imm(Lane, 1, lane)] else []))
                  + [Imm(Subopcode, 4, sub)])
  }

  // ------------------------------------------------------------ round trips

  lemma LiesConcat(body: seq<byte>, at: nat, a: seq<byte>, b: seq<byte>)
    requires LiesAt(body, at, a + b)
    ensures LiesAt(body, at, a) && LiesAt(body, at + |a|, b)
  {
    var whole := body[at..at + |a + b|];
    assert body[at..at + |a|] == whole[..|a|] && body[at + |a|..at + |a| + |b|] == whole[|a|..];
  }

  lemma IndexRoundTrip(body: seq<byte>, c: nat, n: nat, role: Role)
    requires n < TWO_32 && LiesAt(body, c, EncodeU(n))
    ensures ReadULeb(body, c) == Success(Leb(n, c + |EncodeU(n)|))
    ensures Index(body, c, role) == Success(Pushed([Imm(role, 4, n)], c + |EncodeU(n)|))
    ensures StrictIndex(body, c, role) == Success(Pushed([Imm(role, 4, n)], c + |EncodeU(n)|))
  {
    hide ReadULeb, EncodeU;
    ULebRoundTrip(body, c, n);
  }

  lemma ArgRoundTrip(env: Env, body: seq<byte>, c: nat, a: Arg)
    requires ArgOk(env, a) && LiesAt(body, c, EncodeArg(env, a))
    ensures DecodeMemArg(env, body, c) == Success(Pushed(ArgImms(env, a), c + |EncodeArg(env, a)|))
  {
    hide ReadULeb, EncodeU, LiesAt;
    var mem := if env.MultiMemory() then EncodeU(a.memory) else [];
    LiesConcat(body, c, mem, EncodeU(a.align) + EncodeU(a.offset));
    LiesConcat(body, c + |mem|, EncodeU(a.align), EncodeU(a.offset));
    if env.MultiMemory() {
      IndexRoundTrip(body, c, a.memory, MemoryIndex);
    }
    IndexRoundTrip(body, c + |mem|, a.align, Alignment);
    ULebRoundTrip(body, c + |mem| + |EncodeU(a.align)|, a.offset);
    var imms := ArgImms(env, a);
    assert imms == imms[..|imms| - 2] + [imms[|imms| - 2]] + [imms[|imms| - 1]];
  }

  lemma {:induction false} LabelsRoundTrip(body: seq<byte>, c: nat, depths: seq<nat>)
    requires LiesAt(body, c, EncodeLabels(depths)) && forall i :: 0 <= i < |depths| ==> depths[i] < TWO_32
    ensures DecodeLabels(body, c, |depths|) == Success((depths, c + |EncodeLabels(depths)|))
    decreases |depths|
  {
    hide ReadULeb, EncodeU, LiesAt;
    if depths != [] {
      LiesConcat(body, c, EncodeU(depths[0]), EncodeLabels(depths[1..]));
      ULebRoundTrip(body, c, depths[0]);
      LabelsRoundTrip(body, c + |EncodeU(depths[0])|, depths[1..]);
      assert [depths[0]] + depths[1..] == depths;
    }
  }

  lemma TableRoundTrip(body: seq<byte>, c: nat, depths: seq<nat>, default: nat)
    requires |depths| < TWO_32 && default < TWO_32 && forall i :: 0 <= i < |depths| ==> depths[i] < TWO_32
    requires LiesAt(body, c, EncodeU(|depths|) + (EncodeLabels(depths) + EncodeU(default)))
    ensures DecodeBrTable(body, c) == Success(Decoded(Control(BrTable(depths, default)),
              c + |EncodeU(|depths|) + (EncodeLabels(depths) + EncodeU(default))|))
  {
    hide ReadULeb, EncodeU, LiesAt, DecodeLabels, EncodeLabels;
    var count, labels := EncodeU(|depths|), EncodeLabels(depths);
    LiesConcat(body, c, count, labels + EncodeU(default));
    LiesConcat(body, c + |count|, labels, EncodeU(default));
    ULebRoundTrip(body, c, |depths|);
    LabelsRoundTrip(body, c + |count|, depths);
    ULebRoundTrip(body, c + |count| + |labels|, default);
  }

  lemma RawRoundTrip(body: seq<byte>, c: nat, bits: nat, n: nat, role: Role)
    requires bits < Pow256(n) && LiesAt(body, c, Bytes(bits, n))
    ensures RawBytes(body, c, n, role) == Success(Pushed([Imm(role, n, bits)], c + n))
  {
    hide LittleEndian, Bytes, Pow256;
    BytesThenNumber(bits, n);
  }

  lemma BulkRoundTrip(body: seq<byte>, c: nat, sub: nat, a: nat, b: nat)
    requires sub <= 17 && a < TWO_32 && b < TWO_32
    requires var roles := BulkRoles(sub);
             LiesAt(body, c, if |roles| == 0 then [] else EncodeU(a) + (if |roles| == 1 then [] else EncodeU(b)))
    ensures var roles := BulkRoles(sub);
            DecodeBulk(body, c, sub) == Success(Pushed(
              (if |roles| == 0 then [] else if |roles| == 1 then [Imm(roles[0], 4, a)]
               else [Imm(roles[0], 4, a), Imm(roles[1], 4, b)])
              + [Imm(Subopcode, 4, sub)],
              c + |if |roles| == 0 then [] else EncodeU(a) + (if |roles| == 1 then [] else EncodeU(b))|))
  {
    hide ReadULeb, EncodeU, LiesAt, Index;
    var roles := BulkRoles(sub);
    assert |roles| <= 2;
    if |roles| > 0 {
      LiesConcat(body, c, EncodeU(a), if |roles| == 1 then [] else EncodeU(b));
      IndexRoundTrip(body, c, a, roles[0]);
      if |roles| > 1 {
        IndexRoundTrip(body, c + |EncodeU(a)|, b, roles[1]);
        assert [Imm(roles[0], 4, a)] + [Imm(roles[1], 4, b)] == [Imm(roles[0], 4, a), Imm(roles[1], 4, b)];
        assert TwoIndices(body, c, roles[0], roles[1]).Success?;
      }
    }
  }

  lemma SimdRoundTrip(env: Env, body: seq<byte>, c: nat, s: Source)
    requires s.Simd? && Encodable(env, s)
    requires LiesAt(body, c, EncodeOperands(env, s)[|EncodeU(s.sub)|..])
    ensures Meaning(env, s).Plain?
    ensures DecodeSimd(env, body, c, s.sub)
            == Success(Pushed(Meaning(env, s).imms, c + |EncodeOperands(env, s)| - |EncodeU(s.sub)|))
  {
    hide ReadULeb, EncodeU, LiesAt, RawBytes, DecodeMemArg, EncodeArg, ArgImms, Bytes, Pow256, HasBytes,
         HasMemArg, HasLane;
    var tail := EncodeOperands(env, s)[|EncodeU(s.sub)|..];
    if HasBytes(s.sub) {
      assert tail == Bytes(s.bits, 16);
      RawRoundTrip(body, c, s.bits, 16, Constant);
    } else {
      var mem := if HasMemArg(s.sub) then EncodeArg(env, s.arg) else [];
      var lane := if HasLane(s.sub) then [s.lane] else [];
      assert tail == mem + lane;
      LiesConcat(body, c, mem, lane);
      if HasMemArg(s.sub) {
        ArgRoundTrip(env, body, c, s.arg);
      }
      if HasLane(s.sub) {
        OneByte(s.lane);
        RawRoundTrip(body, c + |mem|, s.lane, 1, Lane);
      }
      var imms := (if HasMemArg(s.sub) then ArgImms(env, s.arg) else []) +
                  (if HasLane(s.sub) then [Imm(Lane, 1, s.lane)] else []);
      assert DecodeSimd(env, body, c, s.sub) == Success(Pushed(imms + [SubOp(s.sub)], c + |mem| + |lane|));
    }
  }

  lemma OneByte(b: byte)
    ensures Bytes(b, 1) == [b] && b < Pow256(1)
  {
    assert Pow256(1) == 256 * Pow256(0);
    assert Bytes(b, 1) == [b % 256] + Bytes(b / 256, 0);
  }

  lemma ConstRoundTrip(env: Env, body: seq<byte>, c: nat, s: Source)
    requires (s.ConstInt? || s.ConstFloat?) && Encodable(env, s) && LiesAt(body, c, EncodeOperands(env, s))
    ensures Meaning(env, s).Plain?
    ensures DecodePlain(env, body, c, OpByte(s)) == Success(Pushed(Meaning(env, s).imms, c + |EncodeOperands(env, s)|))
  {
    hide ReadULeb, ReadSLeb, EncodeS, LiesAt, RawBytes, Bytes, Pow256;
    Widths();
    if s.ConstInt? {
      SLebRoundTrip(body, c, s.n);
    } else {
      RawRoundTrip(body, c, s.bits, if s.op == 0x43 then 4 else 8, Constant);
    }
  }

  lemma PrefixedRoundTrip(env: Env, body: seq<byte>, c: nat, s: Source)
    requires (s.Bulk? || s.Simd?) && Encodable(env, s) && LiesAt(body, c, EncodeOperands(env, s))
    ensures Meaning(env, s).Plain?
    ensures ReadULeb(body, c) == Success(Leb(s.sub, c + |EncodeU(s.sub)|))
    ensures DecodePlain(env, body, c, OpByte(s)) == Success(Pushed(Meaning(env, s).imms, c + |EncodeOperands(env, s)|))
  {
    hide ReadULeb, EncodeU, LiesAt, DecodeBulk, DecodeSimd, ArgImms, EncodeArg, Bytes, Pow256;
    var sub := EncodeU(s.sub);
    var tail := EncodeOperands(env, s)[|sub|..];
    assert EncodeOperands(env, s) == sub + tail;
    LiesConcat(body, c, sub, tail);
    ULebRoundTrip(body, c, s.sub);
    if s.Bulk? {
      BulkRoundTrip(body, c + |sub|, s.sub, s.first, s.second);
    } else {
      SimdRoundTrip(env, body, c + |sub|, s);
    }
  }

  /** Every instruction in range decodes to what it means, and the decoder stops right behind it. */
  lemma InstructionRoundTrip(env: Env, body: seq<byte>, pc: nat, s: Source)
    requires Encodable(env, s) && LiesAt(body, pc, Encode(env, s))
    ensures pc < |body| && body[pc] == OpByte(s)
    ensures Decode(env, body, pc) == Success(Decoded(Meaning(env, s), pc + |Encode(env, s)|))
  {
    hide ReadULeb, ReadSLeb, EncodeU, EncodeS, LiesAt, DecodeBrTable, DecodeMemArg, DecodePrefixed, RawBytes, Index,
         StrictIndex;
    hide EncodeArg, ArgImms, EncodeLabels, Bytes, Pow256;
    var c, operands := pc + 1, EncodeOperands(env, s);
    LiesTail(body, pc, Encode(env, s));
    LiesInside(body, pc, Encode(env, s));
    assert Encode(env, s)[1..] == operands;
    match s {
      case Bare(_) =>
      case Branch(_, depth) => ULebRoundTrip(body, c, depth);
      case BranchTable(depths, default) => TableRoundTrip(body, c, depths, default);
      case Indexed(op, index) => IndexRoundTrip(body, c, index, IndexRole(op).value);
      case CallIndirect(typeIndex, table) =>
        LiesConcat(body, c, EncodeU(typeIndex), EncodeU(table));
        IndexRoundTrip(body, c, typeIndex, TypeIndex);
        IndexRoundTrip(body, c + |EncodeU(typeIndex)|, table, TableIndex);
        assert [Imm(TypeIndex, 4, typeIndex)] + [Imm(TableIndex, 4, table)] == Meaning(env, s).imms;
      case RefNull(_) =>
        LiesTail(body, c, operands);
        LiesInside(body, c, operands);
      case ConstInt(_, _) => ConstRoundTrip(env, body, c, s);
      case ConstFloat(_, _) => ConstRoundTrip(env, body, c, s);
      case Access(_, arg) => ArgRoundTrip(env, body, c, arg);
      case Bulk(_, _, _) => PrefixedRoundTrip(env, body, c, s);
      case Simd(_, _, _, _) => PrefixedRoundTrip(env, body, c, s);
    }
  }

  // --------------------------------------------------- local declarations

  function EncodeDecls(decls: seq<Decl>): seq<byte>
    decreases |decls|
  {
    if decls == [] then [] else EncodeU(decls[0].count) + [decls[0].valtype] + EncodeDecls(decls[1..])
  }

  /** The declarations of a body are read back as written, and its code starts right behind them. */
  lemma {:induction false} DeclsRoundTrip(body: seq<byte>, c: nat, decls: seq<Decl>)
    requires LiesAt(body, c, EncodeDecls(decls)) && forall i :: 0 <= i < |decls| ==> decls[i].count < TWO_64
    ensures ParseDecls(body, c, |decls|) == Success((decls, c + |EncodeDecls(decls)|))
    decreases |decls|
  {
    hide ReadULeb, EncodeU, LiesAt;
    if decls != [] {
      var count, rest := EncodeU(decls[0].count), EncodeDecls(decls[1..]);
      LiesConcat(body, c, count + [decls[0].valtype], rest);
      LiesConcat(body, c, count, [decls[0].valtype]);
      LiesTail(body, c + |count|, [decls[0].valtype]);
      LiesInside(body, c + |count|, [decls[0].valtype]);
      ULebRoundTrip(body, c, decls[0].count);
      DeclsRoundTrip(body, c + |count| + 1, decls[1..]);
      assert [Decl(decls[0].count, decls[0].valtype)] + decls[1..] == decls;
    }
  }

  // --------------------------------------------------------------- trees

  /** Call-free code as a tree of instructions: a block, loop or one-armed `if`, or a two-armed one. */
  datatype Tree =
    | Stop
    | One(s: Source, rest: Tree)
    | Nest(kind: BlockKind, blockType: int, inner: Tree, rest: Tree)
    | Fork(blockType: int, yes: Tree, no: Tree, rest: Tree)

  predicate TreeOk(env: Env, t: Tree) {
    match t
    case Stop => true
    case One(s, rest) => Encodable(env, s) && !IsCall(OpByte(s)) && TreeOk(env, rest)
    case Nest(_, blockType, inner, rest) => -TWO_63 <= blockType < TWO_63 && TreeOk(env, inner) && TreeOk(env, rest)
    case Fork(blockType, yes, no, rest) =>
      -TWO_63 <= blockType < TWO_63 && TreeOk(env, yes) && TreeOk(env, no) && TreeOk(env, rest)
  }

  function OpenByte(kind: BlockKind): byte {
    match kind case BlockOp => 0x02 case LoopOp => 0x03 case IfOp => 0x04
  }

  function Opening(op: byte, blockType: int): seq<byte> {
    [op] + EncodeS(blockType)
  }

  function EncodeTree(env: Env, t: Tree): seq<byte> {
    match t
    case Stop => []
    case One(s, rest) => Encode(env, s) + EncodeTree(env, rest)
    case Nest(kind, blockType, inner, rest) =>
      Opening(OpenByte(kind), blockType) + (Closed(EncodeTree(env, inner), 0x0B) + EncodeTree(env, rest))
    case Fork(blockType, yes, no, rest) =>
      Opening(0x04, blockType) +
      (Closed(EncodeTree(env, yes), 0x05) + (Closed(EncodeTree(env, no), 0x0B) + EncodeTree(env, rest)))
  }

  function Closed(part: seq<byte>, mark: byte): seq<byte> {
    part + [mark]
  }

  /** The code the structured semantics runs. */
  function Lower(env: Env, t: Tree): Code {
    match t
    case Stop => Nil
    case One(s, rest) => Simple(Instr(Meaning(env, s)), Lower(env, rest))
    case Nest(BlockOp, blockType, inner, rest) => Block(blockType, Lower(env, inner), Lower(env, rest))
    case Nest(LoopOp, blockType, inner, rest) => Loop(blockType, Lower(env, inner), Lower(env, rest))
    case Nest(IfOp, blockType, inner, rest) => IfThen(blockType, Lower(env, inner), Lower(env, rest))
    case Fork(blockType, yes, no, rest) => IfElse(blockType, Lower(env, yes), Lower(env, no), Lower(env, rest))
  }

  lemma LeafRoundTrip(env: Env, body: seq<byte>, p: nat, s: Source)
    requires Encodable(env, s) && !IsCall(OpByte(s)) && LiesAt(body, p, Encode(env, s))
    ensures p < |body| && IsLeafOp(body[p]) && LeafAt(env, body, p) == Instr(Meaning(env, s))
    ensures SkipImmediates(env.MultiMemory(), body, p + 1, body[p]) == Success(p + |Encode(env, s)|)
  {
    hide Decode, SkipImmediates, LiesAt, ReadULeb, EncodeU, Meaning, Encode;
    InstructionRoundTrip(env, body, p, s);
    DecodersAgree(env, body, p);
    if s.Bulk? {
      NotWide(env, body, p, s);
    }
  }

  lemma NotWide(env: Env, body: seq<byte>, p: nat, s: Source)
    requires s.Bulk? && Encodable(env, s) && LiesAt(body, p, Encode(env, s))
    ensures !WidePrefix(body, p + 1, 0xFC)
  {
    hide ReadULeb, EncodeU;
    LiesConcat(body, p, [OpByte(s)], EncodeOperands(env, s));
    PrefixedRoundTrip(env, body, p + 1, s);
  }

  lemma OpeningRoundTrip(body: seq<byte>, p: nat, op: byte, blockType: int)
    requires -TWO_63 <= blockType < TWO_63 && LiesAt(body, p, Opening(op, blockType))
    ensures OpensAt(body, p, op, blockType) == Some(p + |Opening(op, blockType)|)
  {
    hide ReadSLeb, EncodeS;
    LiesTail(body, p, Opening(op, blockType));
    LiesInside(body, p, Opening(op, blockType));
    assert Opening(op, blockType)[1..] == EncodeS(blockType);
    SLebRoundTrip(body, p + 1, blockType);
  }

  lemma {:induction false} PartRoundTrip(env: Env, body: seq<byte>, p: nat, t: Tree, mark: byte)
    requires TreeOk(env, t) && LiesAt(body, p, Closed(EncodeTree(env, t), mark))
    ensures SpellsTo(env, body, p, Lower(env, t), mark) == Some(p + |Closed(EncodeTree(env, t), mark)|)
    decreases t, 3
  {
    hide EncodeTree, Lower, Spells, LiesAt;
    var part := EncodeTree(env, t);
    LiesConcat(body, p, part, [mark]);
    LiesTail(body, p + |part|, [mark]);
    LiesInside(body, p + |part|, [mark]);
    TreeRoundTrip(env, body, p, t);
  }

  lemma {:induction false} NestRoundTrip(env: Env, body: seq<byte>, p: nat, t: Tree)
    requires t.Nest? && TreeOk(env, t) && LiesAt(body, p, EncodeTree(env, t))
    ensures Spells(env, body, p, Lower(env, t)) == Some(p + |EncodeTree(env, t)|)
    decreases t, 1
  {
    hide Opening, Closed, OpensAt, SpellsTo, LiesAt, EncodeTree, Lower, Spells;
    var op, start, after := NestParts(env, body, p, t);
    OpeningRoundTrip(body, p, op, t.blockType);
    PartRoundTrip(env, body, start, t.inner, 0x0B);
    TreeRoundTrip(env, body, after, t.rest);
    NestSpells(env, body, p, t, op, start, after);
  }

  lemma {:induction false} NestParts(env: Env, body: seq<byte>, p: nat, t: Tree)
    returns (op: byte, start: nat, after: nat)
    requires t.Nest? && LiesAt(body, p, EncodeTree(env, t))
    ensures op == OpenByte(t.kind) && LiesAt(body, p, Opening(op, t.blockType))
            && start == p + |Opening(op, t.blockType)|
    ensures LiesAt(body, start, Closed(EncodeTree(env, t.inner), 0x0B))
            && after == start + |Closed(EncodeTree(env, t.inner), 0x0B)|
    ensures LiesAt(body, after, EncodeTree(env, t.rest))
            && p + |EncodeTree(env, t)| == after + |EncodeTree(env, t.rest)|
  {
    hide Opening, Closed, LiesAt;
    var open, part := Opening(OpenByte(t.kind), t.blockType), Closed(EncodeTree(env, t.inner), 0x0B);
    op, start, after := OpenByte(t.kind), p + |open|, p + |open| + |part|;
    LiesConcat(body, p, open, part + EncodeTree(env, t.rest));
    LiesConcat(body, start, part, EncodeTree(env, t.rest));
  }

  lemma {:induction false} NestSpells(env: Env, body: seq<byte>, p: nat, t: Tree, op: byte, start: nat, after: nat)
    requires t.Nest? && op == OpenByte(t.kind) && OpensAt(body, p, op, t.blockType) == Some(start)
    requires SpellsTo(env, body, start, Lower(env, t.inner), 0x0B) == Some(after)
    ensures Spells(env, body, p, Lower(env, t)) == Spells(env, body, after, Lower(env, t.rest))
  {
    hide OpensAt, SpellsTo;
  }

  lemma {:induction false} ForkRoundTrip(env: Env, body: seq<byte>, p: nat, t: Tree)
    requires t.Fork? && TreeOk(env, t) && LiesAt(body, p, EncodeTree(env, t))
    ensures Spells(env, body, p, Lower(env, t)) == Some(p + |EncodeTree(env, t)|)
    decreases t, 1
  {
    hide Opening, Closed, OpensAt, SpellsTo, LiesAt, EncodeTree, Lower, Spells;
    var start, middle, after := ForkParts(env, body, p, t);
    OpeningRoundTrip(body, p, 0x04, t.blockType);
    PartRoundTrip(env, body, start, t.yes, 0x05);
    PartRoundTrip(env, body, middle, t.no, 0x0B);
    TreeRoundTrip(env, body, after, t.rest);
    ForkSpells(env, body, p, t, start, middle, after);
  }

  lemma {:induction false} ForkParts(env: Env, body: seq<byte>, p: nat, t: Tree)
    returns (start: nat, middle: nat, after: nat)
    requires t.Fork? && LiesAt(body, p, EncodeTree(env, t))
    ensures LiesAt(body, p, Opening(0x04, t.blockType)) && start == p + |Opening(0x04, t.blockType)|
    ensures LiesAt(body, start, Closed(EncodeTree(env, t.yes), 0x05))
            && middle == start + |Closed(EncodeTree(env, t.yes), 0x05)|
    ensures LiesAt(body, middle, Closed(EncodeTree(env, t.no), 0x0B))
            && after == middle + |Closed(EncodeTree(env, t.no), 0x0B)|
    ensures LiesAt(body, after, EncodeTree(env, t.rest))
            && p + |EncodeTree(env, t)| == after + |EncodeTree(env, t.rest)|
  {
    hide Opening, Closed, LiesAt;
    var open := Opening(0x04, t.blockType);
    var first, second := Closed(EncodeTree(env, t.yes), 0x05), Closed(EncodeTree(env, t.no), 0x0B);
    start := p + |open|;
    middle := start + |first|;
    after := middle + |second|;
    LiesConcat(body, p, open, first + (second + EncodeTree(env, t.rest)));
    LiesConcat(body, start, first, second + EncodeTree(env, t.rest));
    LiesConcat(body, middle, second, EncodeTree(env, t.rest));
  }

  lemma {:induction false} ForkSpells(env: Env, body: seq<byte>, p: nat, t: Tree, start: nat, middle: nat, after: nat)
    requires t.Fork? && OpensAt(body, p, 0x04, t.blockType) == Some(start)
    requires SpellsTo(env, body, start, Lower(env, t.yes), 0x05) == Some(middle)
    requires SpellsTo(env, body, middle, Lower(env, t.no), 0x0B) == Some(after)
    ensures Spells(env, body, p, Lower(env, t)) == Spells(env, body, after, Lower(env, t.rest))
  {
    hide OpensAt, SpellsTo;
  }

  /** The bytes of any tree spell that tree, wherever they lie. */
  lemma {:induction false} TreeRoundTrip(env: Env, body: seq<byte>, p: nat, t: Tree)
    requires TreeOk(env, t) && LiesAt(body, p, EncodeTree(env, t))
    ensures Spells(env, body, p, Lower(env, t)) == Some(p + |EncodeTree(env, t)|)
    decreases t, 2
  {
    hide Encode, Meaning, Encodable, LeafAt, SkipImmediates, LiesAt;
    match t {
      case Stop =>
      case One(s, rest) =>
        LiesConcat(body, p, Encode(env, s), EncodeTree(env, rest));
        LeafRoundTrip(env, body, p, s);
        TreeRoundTrip(env, body, p + |Encode(env, s)|, rest);
      case Nest(_, _, _, _) => NestRoundTrip(env, body, p, t);
      case Fork(_, _, _, _) => ForkRoundTrip(env, body, p, t);
    }
  }

  /** Started behind a block type, the scan returns exactly the place behind the matching `end`, and
      the place behind the `else` that belongs to the block, for any trees inside. */
  lemma EncodedScan(env: Env, body: seq<byte>, start: nat, yes: Tree, no: Tree)
    requires TreeOk(env, yes) && TreeOk(env, no)
    ensures LiesAt(body, start, Closed(EncodeTree(env, yes), 0x0B)) ==>
      Scan(env.MultiMemory(), body, start) == Success(Extent(0, start + |EncodeTree(env, yes)| + 1))
    ensures LiesAt(body, start, Closed(EncodeTree(env, yes), 0x05) + Closed(EncodeTree(env, no), 0x0B)) ==>
      var middle := start + |EncodeTree(env, yes)| + 1;
      Scan(env.MultiMemory(), body, start) == Success(Extent(middle, middle + |EncodeTree(env, no)| + 1))
  {
    hide Scan, LiesAt, Spells, SpellsTo, EncodeTree, Lower;
    if LiesAt(body, start, Closed(EncodeTree(env, yes), 0x0B)) {
      PartRoundTrip(env, body, start, yes, 0x0B);
      ScanFindsEnd(env, body, start, Lower(env, yes));
    }
    if LiesAt(body, start, Closed(EncodeTree(env, yes), 0x05) + Closed(EncodeTree(env, no), 0x0B)) {
      LiesConcat(body, start, Closed(EncodeTree(env, yes), 0x05), Closed(EncodeTree(env, no), 0x0B));
      PartRoundTrip(env, body, start, yes, 0x05);
      PartRoundTrip(env, body, start + |Closed(EncodeTree(env, yes), 0x05)|, no, 0x0B);
      ScanFindsElse(env, body, start, Lower(env, yes), Lower(env, no));
    }
  }

  /** The main theorem on encoded functions: any tree, behind any local declarations, runs on the
      machine to an outcome exactly when the structured semantics takes the tree to it. */
  lemma EncodedFunctionsRefine(env: Env, locals: seq<byte>, t: Tree, results: seq<nat>, m: Mach, end: Outcome)
    requires TreeOk(env, t) && !end.Running?
    ensures var body := locals + Closed(EncodeTree(env, t), 0x0B);
            (exists n :: Run(env, body, StartFrame(body, |locals|, results, m), n) == end)
            <==> (exists fuel :: ExecFunction(env, OfCode, Lower(env, t), results, m, fuel) == Some(end))
  {
    hide Run, ExecFunction, StartFrame, Spells, SpellsTo, EncodeTree, Lower;
    var body := locals + Closed(EncodeTree(env, t), 0x0B);
    assert LiesAt(body, |locals|, Closed(EncodeTree(env, t), 0x0B));
    PartRoundTrip(env, body, |locals|, t, 0x0B);
    StructuredRefinement(env, body, |locals|, Lower(env, t), results, m, end);
  }
}
