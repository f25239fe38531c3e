/** The per-function opcode index: which positions of a body have been seen, in order of first
    sight, and the prescan that fills it in one sweep. */
module OpcodeIndex {
  import opened Core
  import opened Leb128
  import opened RuntimeState
  import opened Decoders
  import opened Machine
  import opened Nesting
  import opened Jobs

  /** `slots` maps a position to its entry or -1; it stays empty until the first record. */
  datatype Index = Index(opcodes: seq<byte>, offsets: seq<nat>, slots: seq<int>)

  const EMPTY_INDEX := Index([], [], [])

  /** A partial bijection between entries and positions of `body`, and the bytes found there. */
  ghost predicate IndexOk(ix: Index, body: seq<byte>) {
    && |ix.opcodes| == |ix.offsets|
    && (if ix.slots == [] then ix.offsets == [] else |ix.slots| == |body|)
    && (forall k :: 0 <= k < |ix.offsets| ==>
          ix.offsets[k] < |ix.slots| && ix.slots[ix.offsets[k]] == k && ix.opcodes[k] == body[ix.offsets[k]])
    && (forall pc :: 0 <= pc < |ix.slots| && ix.slots[pc] != -1 ==>
          0 <= ix.slots[pc] < |ix.offsets| && ix.offsets[ix.slots[pc]] == pc)
  }

  function Blank(n: nat): seq<int> {
    seq(n, _ => -1)
  }

  /** Recording the opcode at `pc`: positions outside the body and known ones change no entry. */
  function Record(ix: Index, bodySize: nat, pc: nat, opcode: byte): Index
    requires ix.slots == [] || |ix.slots| == bodySize
  {
    if pc >= bodySize then ix
    else
      var slots := if ix.slots == [] then Blank(bodySize) else ix.slots;
      if slots[pc] >= 0 then ix.(slots := slots)
      else Index(ix.opcodes + [opcode], ix.offsets + [pc], slots[pc := |ix.offsets|])
  }

  predicate Recorded(ix: Index, pc: nat) {
    pc < |ix.slots| && ix.slots[pc] >= 0
  }

  /** Every append keeps the bijection and everything recorded so far, in the same place. */
  lemma RecordKeepsIndex(ix: Index, body: seq<byte>, pc: nat)
    requires IndexOk(ix, body) && pc < |body|
    ensures var ix' := Record(ix, |body|, pc, body[pc]);
            && IndexOk(ix', body) && Recorded(ix', pc)
            && ix.opcodes <= ix'.opcodes && ix.offsets <= ix'.offsets
            && (forall p: nat :: Recorded(ix, p) ==> Recorded(ix', p) && ix'.slots[p] == ix.slots[p])
  {
  }

  // --------------------------------------------------- the growing arrays

  const INITIAL_CAPACITY: nat := 64

  class OpcodeTable {
    const bodySize: nat
    var opcodes: array<byte>
    var offsets: array<nat>
    var count: nat
    var pcToIndex: array?<int>

    /** The table and its arrays. */
    ghost function Repr(): (r: set<object>)
      reads this
      ensures this in r && opcodes in r && offsets in r && (pcToIndex != null ==> pcToIndex in r)
    {
      if pcToIndex == null then {this, opcodes, offsets} else {this, opcodes, offsets, pcToIndex as array<int>}
    }

    ghost predicate Valid()
      reads this, Repr()
    {
      && count <= opcodes.Length && opcodes.Length == offsets.Length
      && (pcToIndex != null ==> pcToIndex.Length == bodySize && bodySize > 0)
    }

    ghost function Contents(): Index
      requires Valid()
      reads this, Repr()
    {
      Index(opcodes[..count], offsets[..count], if pcToIndex == null then [] else pcToIndex[..])
    }

    constructor (bodySize: nat)
      ensures Valid() && Contents() == EMPTY_INDEX && this.bodySize == bodySize
      ensures fresh(Repr())
    {
      this.bodySize := bodySize;
      opcodes, offsets, count, pcToIndex := new byte[0], new nat[0], 0, null;
    }

    /** Moves the entries to larger arrays. */
    method Reserve(capacity: nat)
      requires Valid()
      modifies this
      ensures Valid() && Contents() == old(Contents()) && pcToIndex == old(pcToIndex)
      ensures opcodes.Length >= capacity && count == old(count)
      ensures (opcodes == old(opcodes) && offsets == old(offsets)) || (fresh(opcodes) && fresh(offsets))
    {
      if capacity > opcodes.Length {
        var nextOps, nextOffsets := new byte[capacity], new nat[capacity];
        forall i | 0 <= i < count {
          nextOps[i] := opcodes[i];
        }
        forall i | 0 <= i < count {
          nextOffsets[i] := offsets[i];
        }
        assert nextOps[..count] == opcodes[..count] && nextOffsets[..count] == offsets[..count];
        opcodes, offsets := nextOps, nextOffsets;
      }
    }

    method EnsureSlots()
      requires Valid() && bodySize > 0
      modifies this
      ensures Valid() && pcToIndex != null && opcodes == old(opcodes) && offsets == old(offsets)
      ensures Contents()
              == (if old(pcToIndex) == null then old(Contents()).(slots := Blank(bodySize)) else old(Contents()))
      ensures pcToIndex == old(pcToIndex) || fresh(pcToIndex)
    {
      if pcToIndex == null {
        var slots := new int[bodySize];
        for i := 0 to bodySize
          invariant forall k :: 0 <= k < i ==> slots[k] == -1
          modifies slots
        {
          slots[i] := -1;
        }
        assert slots[..] == Blank(bodySize);
        pcToIndex := slots;
      }
    }

    method RecordOpcode(pc: nat, opcode: byte)
      requires Valid()
      modifies Repr()
      ensures Valid() && fresh(Repr() - old(Repr()))
      ensures Contents() == Record(old(Contents()), bodySize, pc, opcode)
    {
      if pc >= bodySize {
        return;
      }
      EnsureSlots();
      if pcToIndex[pc] >= 0 {
        return;
      }
      MakeRoom();
      Append(pc, opcode);
    }

    /** Room for one entry more: twice as much, or the first capacity. */
    method MakeRoom()
      requires Valid()
      modifies this
      ensures Valid() && Contents() == old(Contents()) && pcToIndex == old(pcToIndex) && count < opcodes.Length
      ensures (opcodes == old(opcodes) && offsets == old(offsets)) || (fresh(opcodes) && fresh(offsets))
    {
      var capacity := if opcodes.Length > 0 then opcodes.Length * 2 else INITIAL_CAPACITY;
      if count >= opcodes.Length {
        assert capacity > count;
        Reserve(capacity);
      }
      assert count == |Contents().opcodes|;
    }

    /** Writes one entry behind the others. */
    method Append(pc: nat, opcode: byte)
      requires Valid() && count < opcodes.Length && pcToIndex != null && pc < bodySize
      modifies this`count, opcodes, offsets, pcToIndex
      ensures Valid()
      ensures var ix := old(Contents());
              Contents() == Index(ix.opcodes + [opcode], ix.offsets + [pc], ix.slots[pc := |ix.opcodes|])
    {
      opcodes[count], offsets[count] := opcode, pc;
      pcToIndex[pc] := count;
      count := count + 1;
    }

    /** Records every instruction from the end of the locals on, or up to the first bad one. */
    method PrescanFunction(multi: bool, body: seq<byte>) returns (status: Status)
      requires Valid() && |body| == bodySize
      modifies Repr()
      ensures Valid() && fresh(Repr() - old(Repr()))
      ensures (status, Contents()) == Prescan(multi, body, old(Contents()))
    {
      hide Record, PrescanSkip;
      var start := SkipLocals(body);
      if start.Failure? {
        return start.error;
      }
      var cursor := start.value;
      while cursor < |body|
        invariant Valid() && fresh(Repr() - old(Repr()))
        invariant PrescanFrom(multi, body, start.value, old(Contents())) == PrescanFrom(multi, body, cursor, Contents())
        decreases |body| - cursor
      {
        var pc, opcode := cursor, body[cursor];
        RecordOpcode(pc, opcode);
        var next := PrescanSkip(multi, body, cursor + 1, opcode);
        if next.Failure? {
          return next.error;
        }
        cursor := next.value;
        if opcode == 0x0B && cursor >= |body| {
          break;
        }
      }
      return Ok;
    }
  }

  // ------------------------------------------------------------ the prescan

  function SkipDecls(body: seq<byte>, c: nat, n: nat): Result<nat>
    decreases n
  {
    if n == 0 then Success(c)
    else
      var l :- ReadULeb(body, c);
      if l.next >= |body| then Failure(Stream) else SkipDecls(body, l.next + 1, n - 1)
  }

  function LocalsEnd(body: seq<byte>): Result<nat> {
    var count :- ReadULeb(body, 0);
    SkipDecls(body, count.next, count.value)
  }

  method SkipLocals(body: seq<byte>) returns (r: Result<nat>)
    ensures r == LocalsEnd(body)
  {
    var count := ReadULeb128(body, 0);
    if count.Failure? {
      return Failure(count.error);
    }
    var cursor: nat := count.value.next;
    var i: nat := 0;
    while i < count.value.value
      invariant 0 <= i <= count.value.value
      invariant LocalsEnd(body) == SkipDecls(body, cursor, count.value.value - i)
    {
      var repeat := ReadULeb128(body, cursor);
      if repeat.Failure? {
        return Failure(repeat.error);
      }
      cursor := repeat.value.next;
      if cursor >= |body| {
        return Failure(Stream);
      }
      cursor, i := cursor + 1, i + 1;
    }
    return Success(cursor);
  }

  function PrescanFrom(multi: bool, body: seq<byte>, cursor: nat, ix: Index): (Status, Index)
    requires ix.slots == [] || |ix.slots| == |body|
    decreases |body| - cursor
  {
    if cursor >= |body| then (Ok, ix)
    else
      var ix' := Record(ix, |body|, cursor, body[cursor]);
      match PrescanSkip(multi, body, cursor + 1, body[cursor])
      case Failure(e) => (e, ix')
      case Success(next) => PrescanFrom(multi, body, next, ix')
  }

  function Prescan(multi: bool, body: seq<byte>, ix: Index): (Status, Index)
    requires ix.slots == [] || |ix.slots| == |body|
  {
    match LocalsEnd(body)
    case Failure(e) => (e, ix)
    case Success(start) => PrescanFrom(multi, body, start, ix)
  }

  /** A prescan, successful or not, keeps the bijection and what was recorded. */
  lemma {:induction false} PrescanKeepsIndex(multi: bool, body: seq<byte>, cursor: nat, ix: Index)
    requires IndexOk(ix, body)
    ensures var ix' := PrescanFrom(multi, body, cursor, ix).1;
            IndexOk(ix', body) && forall p: nat :: Recorded(ix, p) ==> Recorded(ix', p)
    decreases |body| - cursor
  {
    hide IndexOk, PrescanSkip, Recorded, Record;
    KeptShape(ix, body);
    if cursor < |body| {
      RecordKeepsIndex(ix, body, cursor);
      KeptShape(Record(ix, |body|, cursor, body[cursor]), body);
      var next := PrescanSkip(multi, body, cursor + 1, body[cursor]);
      if next.Success? {
        PrescanKeepsIndex(multi, body, next.value, Record(ix, |body|, cursor, body[cursor]));
      }
    }
  }

  lemma KeptShape(ix: Index, body: seq<byte>)
    requires IndexOk(ix, body)
    ensures ix.slots == [] || |ix.slots| == |body|
  {
  }

  /** A successful prescan records every place its linear decode leads to inside the body. */
  lemma {:induction false} PrescanRecordsWalk(multi: bool, body: seq<byte>, p: Place, ix: Index, n: nat)
    requires IndexOk(ix, body) && PrescanFrom(multi, body, p.pc, ix).0 == Ok
    requires Walk(multi, body, p, n).Some? && Walk(multi, body, p, n).value.pc < |body|
    ensures Recorded(PrescanFrom(multi, body, p.pc, ix).1, Walk(multi, body, p, n).value.pc)
    decreases n
  {
    hide IndexOk, Recorded, Record, Next, PrescanSkip;
    KeptShape(ix, body);
    if n > 0 {
      WalkBound(multi, body, p, n);
    }
    var ix' := Record(ix, |body|, p.pc, body[p.pc]);
    RecordKeepsIndex(ix, body, p.pc);
    KeptShape(ix', body);
    PrescanTurn(multi, body, p.pc);
    var next := PrescanSkip(multi, body, p.pc + 1, body[p.pc]).value;
    if n == 0 {
      PrescanKeepsIndex(multi, body, next, ix');
    } else {
      PrescanRecordsWalk(multi, body, Place(next, p.depth + Delta(body[p.pc])), ix', n - 1);
    }
  }

  lemma PrescanTurn(multi: bool, body: seq<byte>, pc: nat)
    requires pc < |body| && PrescanSkip(multi, body, pc + 1, body[pc]).Success?
    ensures Next(multi, body, pc) == PrescanSkip(multi, body, pc + 1, body[pc])
  {
    PrescanMeetsLayout(multi, body, pc + 1, body[pc]);
  }

  // -------------------------------------------------------- coverage of runs

  lemma {:induction false} DeclsEndAlike(body: seq<byte>, c: nat, n: nat)
    requires ParseDecls(body, c, n).Success?
    ensures SkipDecls(body, c, n) == Success(ParseDecls(body, c, n).value.1)
    decreases n
  {
    if n > 0 {
      DeclsEndAlike(body, ReadULeb(body, c).value.next + 1, n - 1);
    }
  }

  /** The prescan and the frame set-up agree on where the code starts. */
  lemma LocalsEndAlike(env: Env, func: nat)
    requires func < |env.wasm.functions| && ParseLocals(env, func).Success?
    ensures LocalsEnd(env.wasm.functions[func].body) == Success(ParseLocals(env, func).value.1)
  {
    var body := env.wasm.functions[func].body;
    var count := ReadULeb(body, 0).value;
    DeclsEndAlike(body, count.next, count.value);
  }

  /** If the prescan of a function succeeds, then every position that any job ever executes in it,
      reached by falling through, branching, looping, or taking an `else`, is in the index. */
  lemma PrescanCoversRuns(env: Env, ix: Index, func: nat, args: seq<Value>, store: Store, n: nat, i: nat)
    requires var job := RunJob(env, StartJob(env, func, args, store), n);
             job.Executing? && i < |job.frames|
    requires var f := RunJob(env, StartJob(env, func, args, store), n).frames[i];
             IndexOk(ix, f.body) && Prescan(env.MultiMemory(), f.body, ix).0 == Ok
    ensures var f := RunJob(env, StartJob(env, func, args, store), n).frames[i];
            f.pc < |f.body| ==> Recorded(Prescan(env.MultiMemory(), f.body, ix).1, f.pc)
  {
    hide StartJob, RunJob, IndexOk, Recorded, ParseLocals, LocalsEnd, Bracketed;
    StartJobOk(env, func, args, store);
    RunJobOk(env, StartJob(env, func, args, store), n);
    var f := RunJob(env, StartJob(env, func, args, store), n).frames[i];
    assert FrameOk(env, f);
    if f.pc < |f.body| {
      InStepLeads(env.MultiMemory(), f.body, f.codeStart, f.control, f.pc);
      var k: nat :| Walk(env.MultiMemory(), f.body, Place(f.codeStart, 1), k) == Some(Place(f.pc, |f.control|));
      LocalsEndAlike(env, f.func);
      PrescanRecordsWalk(env.MultiMemory(), f.body, Place(f.codeStart, 1), ix, k);
    }
  }

  lemma InStepLeads(multi: bool, body: seq<byte>, codeStart: nat, control: seq<ControlFrame>, pc: nat)
    requires InStep(multi, body, codeStart, control, pc)
    ensures Leads(multi, body, Place(codeStart, 1), Place(pc, |control|))
  {
    hide Bracketed, Leads;
    var last := control[|control| - 1];
    FramesAreStatic(multi, body, codeStart, control, |control| - 1);
    LeadsLift(multi, body, Place(last.startPc, 1), Place(pc, 1), |control| - 1);
    LeadsTrans(multi, body, Place(codeStart, 1), Place(last.startPc, |control|), Place(pc, |control|));
  }
}
