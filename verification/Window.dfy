/** The immediate window: linked nodes that carry decoded immediates to the handlers, and the
    account of what every handler takes out of it. */
module Window {
  import opened Core
  import opened Leb128
  import opened RuntimeState
  import opened Decoders

  class ImmNode {
    const imm: Imm
    var follows: ImmNode?
    var precede: ImmNode?

    constructor (imm: Imm)
      ensures this.imm == imm && follows == null && precede == null
    {
      this.imm, follows, precede := imm, null, null;
    }
  }

  ghost function At(nodes: seq<ImmNode>, i: int): ImmNode? {
    if 0 <= i < |nodes| then nodes[i] else null
  }

  class ImmediateWindow {
    var reg: ImmNode?  // the most recent node
    ghost var nodes: seq<ImmNode>

    ghost predicate Valid()
      reads this, nodes
    {
      Linked(nodes, reg) && |nodes| <= WINDOW_SIZE
    }

    ghost function Contents(): (s: seq<Imm>)
      reads this
      ensures |s| == |nodes| && forall i :: 0 <= i < |nodes| ==> s[i] == nodes[i].imm
    {
      seq(|nodes|, i requires 0 <= i < |nodes| reads this => nodes[i].imm)
    }

    constructor ()
      ensures Valid() && Contents() == [] && nodes == []
    {
      reg, nodes := null, [];
    }

    /** Links a new node after the most recent one. */
    method Append(imm: Imm)
      requires Linked(nodes, reg)
      modifies this, nodes
      ensures Linked(nodes, reg) && |nodes| == |old(nodes)| + 1
      ensures nodes[..|old(nodes)|] == old(nodes) && fresh(nodes[|old(nodes)|])
      ensures Contents() == old(Contents()) + [imm]
    {
      hide Contents;
      var node := new ImmNode(imm);
      if reg != null {
        node.precede := reg;
        reg.follows := node;
      }
      reg := node;
      nodes := nodes + [node];
    }

    /** Appends a node, then counts the chain and drops nodes from its far end beyond the limit. */
    method Push(imm: Imm)
      requires Valid()
      modifies this, nodes
      ensures Valid() && (forall n :: n in nodes ==> n in old(nodes) || fresh(n))
      ensures Contents() == Trim(old(Contents()) + [imm])
    {
      hide Contents, Linked;
      Append(imm);
      ghost var all, chain := Contents(), nodes;
      var count, head := CountBack(reg, nodes);
      while count > WINDOW_SIZE && head != null
        invariant Linked(nodes, reg) && head == At(nodes, 0) && count == |nodes| <= |chain|
        invariant nodes == chain[|chain| - count..] && Contents() == all[|all| - count..]
        invariant count == |chain| || count >= WINDOW_SIZE
        decreases count
      {
        head := DropOldest(head);
        count := count - 1;
      }
    }

    /** Cuts the oldest node off the chain; the next one is then the oldest. */
    method DropOldest(head: ImmNode) returns (next: ImmNode?)
      requires Linked(nodes, reg) && |nodes| > 0 && head == nodes[0]
      modifies this, nodes
      ensures Linked(nodes, reg) && nodes == old(nodes)[1..] && Contents() == old(Contents())[1..]
      ensures next == At(nodes, 0)
    {
      hide Contents;
      next := head.follows;
      if next != null {
        next.precede := null;
      } else {
        reg := null;
      }
      nodes := nodes[1..];
    }

    /** Takes the most recent immediate, if any. */
    method Pop() returns (out: Option<Imm>)
      requires Valid()
      modifies this, nodes
      ensures Valid() && nodes <= old(nodes)
      ensures out.None? <==> old(Contents()) == []
      ensures if out.None? then Contents() == [] else old(Contents()) == Contents() + [out.value]
    {
      hide Contents;
      var node := reg;
      if node == null {
        return None;
      }
      assert node == nodes[|nodes| - 1] && node.precede == At(nodes, |nodes| - 2);
      var newTail := node.precede;
      if newTail != null {
        newTail.follows := null;
      }
      reg := newTail;
      nodes := nodes[..|nodes| - 1];
      assert old(Contents()) == Contents() + [node.imm];
      return Some(node.imm);
    }
  }

  /** `nodes`, oldest first, are chained both ways and end at `last`. */
  ghost predicate Linked(nodes: seq<ImmNode>, last: ImmNode?)
    reads nodes
  {
    && last == At(nodes, |nodes| - 1)
    && (forall i, j :: 0 <= i < j < |nodes| ==> nodes[i] != nodes[j])
    && (forall i {:trigger nodes[i].follows} :: 0 <= i < |nodes| ==> nodes[i].follows == At(nodes, i + 1))
    && (forall i {:trigger nodes[i].precede} :: 0 <= i < |nodes| ==> nodes[i].precede == At(nodes, i - 1))
  }

  /** Walks from the last node to the first, counting. */
  method CountBack(last: ImmNode?, ghost nodes: seq<ImmNode>) returns (count: nat, head: ImmNode?)
    requires Linked(nodes, last)
    ensures count == |nodes| && head == At(nodes, 0)
  {
    var cur := last;
    count, head := 0, null;
    while cur != null
      invariant 0 <= count <= |nodes| && cur == At(nodes, |nodes| - 1 - count)
      invariant head == if count == 0 then null else nodes[|nodes| - count]
      decreases |nodes| - count
    {
      assert cur == nodes[|nodes| - 1 - count];
      head, count, cur := cur, count + 1, cur.precede;
    }
  }

  // --------------------------------------------------- pushing one by one

  function PushEach(window: seq<Imm>, imms: seq<Imm>): seq<Imm>
    decreases |imms|
  {
    if imms == [] then window else PushEach(Trim(window + [imms[0]]), imms[1..])
  }

  lemma TrimFirst(window: seq<Imm>, imm: Imm, rest: seq<Imm>)
    requires |window| <= WINDOW_SIZE
    ensures Trim(Trim(window + [imm]) + rest) == Trim(window + ([imm] + rest))
  {
    var whole := window + ([imm] + rest);
    assert (window + [imm]) + rest == whole;
    if |window| == WINDOW_SIZE {
      assert Trim(window + [imm]) + rest == whole[1..];
    }
  }

  /** Trimming after every push leaves what one trim at the end leaves. */
  lemma {:induction false} PushEachIsTrim(window: seq<Imm>, imms: seq<Imm>)
    requires |window| <= WINDOW_SIZE
    ensures PushEach(window, imms) == Trim(window + imms)
    decreases |imms|
  {
    if imms == [] {
      assert window + imms == window;
    } else {
      PushEachIsTrim(Trim(window + [imms[0]]), imms[1..]);
      TrimFirst(window, imms[0], imms[1..]);
      assert [imms[0]] + imms[1..] == imms;
    }
  }

  // ------------------------------------------------- what handlers take out

  /** The immediates a handler pops, in order. Prefixed handlers pop the subopcode first. */
  function Expected(multi: bool, op: byte, sub: nat): seq<Role> {
    var memory := MemoryRoles(multi);
    if op == 0x10 || op == 0xD2 then [FunctionIndex]
    else if op == 0x11 then [TableIndex, TypeIndex]
    else if 0x20 <= op <= 0x24 then [VariableIndex]
    else if op == 0x25 || op == 0x26 then [TableIndex]
    else if 0x28 <= op <= 0x3E then memory
    else if op == 0x3F || op == 0x40 then [MemoryIndex]
    else if 0x41 <= op <= 0x44 then [Constant]
    else if op == 0xD0 then [RefType]
    else if op == 0xFC then [Subopcode] + ExpectedBulk(sub)
    else if op == 0xFD then [Subopcode] + ExpectedSimd(sub, memory)
    else []
  }

  function ExpectedBulk(sub: nat): seq<Role> {
    match sub
    case 8 => [MemoryIndex, DataIndex]
    case 9 => [DataIndex]
    case 10 => [SourceMemory, MemoryIndex]
    case 11 => [MemoryIndex]
    case 12 => [ElementIndex, TableIndex]
    case 13 => [ElementIndex]
    case 14 => [SourceTable, TableIndex]
    case 15 => [TableIndex]
    case 16 => [TableIndex]
    case 17 => [TableIndex]
    case _ => []
  }

  function ExpectedSimd(sub: nat, memory: seq<Role>): seq<Role> {
    if sub <= 0x0B then memory
    else if sub <= 0x0D then [Constant]
    else if 0x15 <= sub <= 0x22 then [Lane]
    else if 0x54 <= sub <= 0x5B then [Lane] + memory
    else if sub == 0x5C || sub == 0x5D then memory
    else []
  }

  /** The handler of `op` pops until it has what it wants, or fails on an empty window: `None`. */
  function Drain(multi: bool, op: byte, window: seq<Imm>): Option<seq<Imm>> {
    var sub := if window == [] then 0 else window[|window| - 1].bits;
    var wanted := |Expected(multi, op, sub)|;
    if wanted > |window| then None else Some(window[..|window| - wanted])
  }

  /** What the immediates were decoded for, from the last one down. */
  function RolesFromTop(imms: seq<Imm>): (r: seq<Role>)
    ensures |r| == |imms|
    decreases |imms|
  {
    if imms == [] then [] else [imms[|imms| - 1].role] + RolesFromTop(imms[..|imms| - 1])
  }

  lemma {:induction false} RolesOfConcat(a: seq<Imm>, b: seq<Imm>)
    ensures RolesFromTop(a + b) == RolesFromTop(b) + RolesFromTop(a)
    decreases |b|
  {
    if b == [] {
      assert a + b == a;
    } else {
      var b', last := b[..|b| - 1], [b[|b| - 1].role];
      RolesOfConcat(a, b');
      assert (a + b)[..|a + b| - 1] == a + b' && (a + b)[|a + b| - 1] == b[|b| - 1];
      assert RolesFromTop(a + b) == last + (RolesFromTop(b') + RolesFromTop(a));
      assert RolesFromTop(b) == last + RolesFromTop(b');
    }
  }

  lemma RolesOfNone()
    ensures RolesFromTop([]) == []
  {
  }

  lemma RolesOfOne(a: Imm)
    ensures RolesFromTop([a]) == [a.role]
  {
    assert [a][..0] == [];
  }

  lemma RolesOfTwo(a: Imm, b: Imm)
    ensures RolesFromTop([a, b]) == [b.role, a.role]
  {
    RolesOfOne(a);
    assert [a, b][..1] == [a];
  }

  lemma RolesOfThree(a: Imm, b: Imm, c: Imm)
    ensures RolesFromTop([a, b, c]) == [c.role, b.role, a.role]
  {
    RolesOfTwo(a, b);
    assert [a, b, c][..2] == [a, b];
  }

  /** SIMD loads and stores of one lane: with several memories they carry five immediates. */
  predicate LaneAccess(sub: nat) {
    0x54 <= sub <= 0x5B
  }

  function MemoryRoles(multi: bool): seq<Role> {
    if multi then [Offset, Alignment, MemoryIndex] else [Offset, Alignment]
  }

  lemma MemArgShape(env: Env, body: seq<byte>, c: nat)
    requires DecodeMemArg(env, body, c).Success?
    ensures RolesFromTop(DecodeMemArg(env, body, c).value.imms) == MemoryRoles(env.MultiMemory())
  {
    hide RolesFromTop, ReadULeb;
    var imms := DecodeMemArg(env, body, c).value.imms;
    if env.MultiMemory() {
      assert imms == [imms[0], imms[1], imms[2]];
      RolesOfThree(imms[0], imms[1], imms[2]);
    } else {
      assert imms == [imms[0], imms[1]];
      RolesOfTwo(imms[0], imms[1]);
    }
  }

  lemma TwoIndicesShape(body: seq<byte>, c: nat, first: Role, second: Role)
    requires TwoIndices(body, c, first, second).Success?
    ensures RolesFromTop(TwoIndices(body, c, first, second).value.imms) == [second, first]
  {
    hide RolesFromTop, ReadULeb;
    var imms := TwoIndices(body, c, first, second).value.imms;
    assert imms == [imms[0], imms[1]];
    RolesOfTwo(imms[0], imms[1]);
  }

  lemma IndexShape(body: seq<byte>, c: nat, role: Role)
    requires Index(body, c, role).Success?
    ensures RolesFromTop(Index(body, c, role).value.imms) == [role]
  {
    RolesOfOne(Index(body, c, role).value.imms[0]);
  }

  /** Two prefixed instructions push the same way: the operands, then the subopcode. */
  lemma PrefixShape(operands: seq<Imm>, sub: nat)
    ensures RolesFromTop(operands + [SubOp(sub)]) == [Subopcode] + RolesFromTop(operands)
  {
    RolesOfConcat(operands, [SubOp(sub)]);
    RolesOfOne(SubOp(sub));
  }

  lemma BulkShape(body: seq<byte>, c: nat, sub: nat)
    requires DecodeBulk(body, c, sub).Success?
    ensures var imms := DecodeBulk(body, c, sub).value.imms;
            |imms| <= 3 && imms[|imms| - 1] == SubOp(sub) && RolesFromTop(imms) == [Subopcode] + ExpectedBulk(sub)
  {
    hide RolesFromTop, TwoIndices, Index;
    var imms := DecodeBulk(body, c, sub).value.imms;
    PrefixShape(imms[..|imms| - 1], sub);
    assert imms == imms[..|imms| - 1] + [SubOp(sub)];
    BulkOperands(body, c, sub);
  }

  lemma BulkOperands(body: seq<byte>, c: nat, sub: nat)
    requires DecodeBulk(body, c, sub).Success?
    ensures var imms := DecodeBulk(body, c, sub).value.imms;
            RolesFromTop(imms[..|imms| - 1]) == ExpectedBulk(sub)
  {
    hide TwoIndices, Index;
    var imms := DecodeBulk(body, c, sub).value.imms;
    var operands := imms[..|imms| - 1];
    if sub == 8 {
      TwoIndicesShape(body, c, DataIndex, MemoryIndex);
    } else if sub == 10 {
      TwoIndicesShape(body, c, MemoryIndex, SourceMemory);
    } else if sub == 12 {
      TwoIndicesShape(body, c, TableIndex, ElementIndex);
    } else if sub == 14 {
      TwoIndicesShape(body, c, TableIndex, SourceTable);
    } else if sub > 7 {
      IndexShape(body, c, if sub == 9 then DataIndex else if sub == 11 then MemoryIndex
                          else if sub == 13 then ElementIndex else TableIndex);
    }
  }

  lemma SimdShape(env: Env, body: seq<byte>, c: nat, sub: nat)
    requires DecodeSimd(env, body, c, sub).Success?
    ensures var imms := DecodeSimd(env, body, c, sub).value.imms;
            && imms != [] && imms[|imms| - 1] == SubOp(sub)
            && RolesFromTop(imms) == [Subopcode] + ExpectedSimd(sub, MemoryRoles(env.MultiMemory()))
  {
    hide RolesFromTop, DecodeMemArg;
    var imms := DecodeSimd(env, body, c, sub).value.imms;
    if HasBytes(sub) {
      var raw := RawBytes(body, c, 16, Constant).value.imms;
      PrefixShape(raw, sub);
      RolesOfOne(raw[0]);
    } else {
      var memarg := if HasMemArg(sub) then DecodeMemArg(env, body, c).value else Pushed([], c);
      var lane := if HasLane(sub) then RawBytes(body, memarg.next, 1, Lane).value.imms else [];
      PrefixShape(memarg.imms + lane, sub);
      RolesOfConcat(memarg.imms, lane);
      if HasMemArg(sub) {
        MemArgShape(env, body, c);
      }
      if HasLane(sub) {
        RolesOfOne(lane[0]);
      }
      assert lane == [] ==> memarg.imms + lane == memarg.imms;
    }
  }

  lemma OtherShape(env: Env, body: seq<byte>, c: nat, op: byte)
    requires !IsControl(op) && op != 0xFC && op != 0xFD && DecodePlain(env, body, c, op).Success?
    ensures RolesFromTop(DecodePlain(env, body, c, op).value.imms) == Expected(env.MultiMemory(), op, 0)
  {
    hide DecodeMemArg, ReadULeb, ReadSLeb, LittleEndian, RolesFromTop;
    var imms := DecodePlain(env, body, c, op).value.imms;
    RolesOfNone();
    if IsMemoryAccess(op) {
      MemArgShape(env, body, c);
    } else if op == 0x11 {
      assert imms == [imms[0], imms[1]];
      RolesOfTwo(imms[0], imms[1]);
    } else if imms != [] {
      assert imms == [imms[0]];
      RolesOfOne(imms[0]);
    }
  }

  /** A wide 0xFD subopcode is decoded as bare but dispatched by its low 32 bits. */
  predicate WideSimd(body: seq<byte>, c: nat, op: byte) {
    op == 0xFD && ReadULeb(body, c).Success? && ReadULeb(body, c).value.value >= TWO_32
  }

  /** A SIMD instruction with a constant, a memory argument or a lane. */
  predicate WantsOperands(sub: nat) {
    HasBytes(sub) || HasMemArg(sub) || HasLane(sub)
  }

  predicate OverflowsWindow(env: Env, body: seq<byte>, c: nat, op: byte) {
    op == 0xFD && env.MultiMemory() && ReadULeb(body, c).Success? && LaneAccess(ReadULeb(body, c).value.value)
  }

  /** As many immediates as the handler wants: it pops them all. */
  lemma DrainsAll(multi: bool, op: byte, imms: seq<Imm>)
    requires |imms| <= WINDOW_SIZE
    requires |Expected(multi, op, if imms == [] then 0 else imms[|imms| - 1].bits)| == |imms|
    ensures Trim(imms) == imms && Drain(multi, op, imms) == Some([])
  {
    hide Expected;
  }

  /** The same account for one SIMD instruction with subopcode `sub`. */
  lemma {:induction false} SimdCounts(multi: bool, imms: seq<Imm>, sub: nat)
    requires imms != [] && imms[|imms| - 1] == SubOp(sub)
    requires RolesFromTop(imms) == [Subopcode] + ExpectedSimd(sub, MemoryRoles(multi))
    ensures |imms| > WINDOW_SIZE <==> multi && LaneAccess(sub)
    ensures multi && LaneAccess(sub) ==> Drain(multi, 0xFD, Trim(imms)).None?
    ensures |imms| <= WINDOW_SIZE && sub < TWO_32 ==> Trim(imms) == imms && Drain(multi, 0xFD, imms) == Some([])
    ensures sub < TWO_32 ==> SubOp(sub).bits == sub && RolesFromTop(imms) == Expected(multi, 0xFD, sub)
    ensures sub >= TWO_32 ==> Drain(multi, 0xFD, Trim(imms)) == if WantsOperands(ToU32(sub)) then None else Some([])
  {
    hide RolesFromTop;
  }

  /** Starting from an empty window, decoding overflows it exactly on lane accesses with several
      memories. Everything else that its handler finds sufficient is popped in the roles it was
      decoded for and leaves the window empty; a wide 0xFD prefix leaves its handler short exactly when
      the instruction of its low 32 bits has operands. */
  lemma ImmediatesConserved(env: Env, body: seq<byte>, c: nat, op: byte)
    requires !IsControl(op) && DecodePlain(env, body, c, op).Success?
    ensures var imms := DecodePlain(env, body, c, op).value.imms;
            var sub := if imms == [] then 0 else imms[|imms| - 1].bits;
            && (|imms| > WINDOW_SIZE <==> OverflowsWindow(env, body, c, op))
            && (OverflowsWindow(env, body, c, op) ==> Drain(env.MultiMemory(), op, Trim(imms)).None?)
            && (!OverflowsWindow(env, body, c, op) && !WideSimd(body, c, op) ==>
                  && Trim(imms) == imms
                  && Drain(env.MultiMemory(), op, imms) == Some([])
                  && RolesFromTop(imms) == Expected(env.MultiMemory(), op, sub))
            && (WideSimd(body, c, op) ==>
                  Drain(env.MultiMemory(), op, Trim(imms))
                  == if WantsOperands(ToU32(ReadULeb(body, c).value.value)) then None else Some([]))
  {
    hide DecodeBulk, DecodeSimd, RolesFromTop, ReadULeb, StrictIndex, Index, RawBytes, DecodeMemArg, ReadSLeb, Drain,
         Trim;
    hide LaneAccess, ExpectedBulk, ExpectedSimd;
    var imms, multi := DecodePlain(env, body, c, op).value.imms, env.MultiMemory();
    if op == 0xFC {
      BulkShape(body, ReadULeb(body, c).value.next, ToU32(ReadULeb(body, c).value.value));
      DrainsAll(multi, op, imms);
    } else if op == 0xFD {
      SimdShape(env, body, ReadULeb(body, c).value.next, ReadULeb(body, c).value.value);
      SimdCounts(multi, imms, ReadULeb(body, c).value.value);
    } else {
      OtherShape(env, body, c, op);
      assert forall sub :: Expected(multi, op, sub) == Expected(multi, op, 0);
      DrainsAll(multi, op, imms);
    }
  }
}
