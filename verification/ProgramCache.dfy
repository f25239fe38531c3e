/** The program cache as the runtime keeps it: one record per function, each with its opcode index in
    growing arrays, all updated in place. */
module ProgramCache {
  import opened Core
  import opened RuntimeState
  import opened JitPrograms
  import opened OpcodeIndex
  import opened JitCache

  /** The record of one function. */
  class CacheEntry {
    const table: OpcodeTable
    var program: seq<Prepared>
    var bytes: nat
    var preparedCount: nat
    var ready: bool
    var spilled: bool

    constructor (bodySize: nat)
      ensures table.Valid() && Show() == FreshEntry(bodySize)
      ensures fresh(table.Repr()) && this !in table.Repr()
    {
      table := new OpcodeTable(bodySize);
      program, bytes, preparedCount, ready, spilled := [], 0, 0, false, false;
    }

    ghost function Show(): Entry
      requires table.Valid()
      reads this, table, table.Repr()
    {
      Entry(table.bodySize, table.Contents(), program, bytes, preparedCount, ready, spilled)
    }
  }

  ghost function TablesOf(list: seq<CacheEntry>): set<object> {
    set e | e in list :: e.table
  }

  /** Every record has its own index, and is none of the objects of an index. */
  ghost predicate Apart(list: seq<CacheEntry>)
    reads TablesOf(list)
  {
    && (forall i, j :: 0 <= i < |list| && 0 <= j < |list| ==> list[i] !in list[j].table.Repr())
    && (forall i, j :: 0 <= i < j < |list| ==> list[i] != list[j] && list[i].table.Repr() !! list[j].table.Repr())
  }

  lemma {:induction false} ApartFromMore(list: seq<CacheEntry>, entry: CacheEntry, used: set<object>)
    requires Apart(list) && forall i :: 0 <= i < |list| ==> list[i] in used && list[i].table.Repr() <= used
    requires entry !in used && entry.table.Repr() !! used && entry !in entry.table.Repr()
    ensures Apart(list + [entry])
  {
    hide OpcodeTable.Repr;
    var more := list + [entry];
    forall i, j | 0 <= i < |more| && 0 <= j < |more|
      ensures more[i] !in more[j].table.Repr()
      ensures i < j ==> more[i] != more[j] && more[i].table.Repr() !! more[j].table.Repr()
    {
    }
  }

  /** An empty record of its own for every body. */
  method EmptyRecords(bodies: seq<seq<byte>>) returns (list: seq<CacheEntry>)
    ensures |list| == |bodies| && Apart(list)
    ensures forall i :: 0 <= i < |list| ==> fresh(list[i]) && fresh(list[i].table.Repr()) && list[i].table.Valid()
    ensures forall i :: 0 <= i < |list| ==> list[i].Show() == FreshEntry(|bodies[i]|)
  {
    hide Apart, FreshEntry, CacheEntry.Show;
    list := [];
    ghost var used: set<object> := {};
    NoneApart();
    for n := 0 to |bodies|
      invariant |list| == n && fresh(used) && Apart(list)
      invariant forall i :: 0 <= i < n ==> list[i] in used && list[i].table.Repr() <= used && list[i].table.Valid()
      invariant forall i :: 0 <= i < n ==> list[i].Show() == FreshEntry(|bodies[i]|)
    {
      assert forall e :: e in TablesOf(list) ==> e in used;
      var entry := new CacheEntry(|bodies[n]|);
      ApartFromMore(list, entry, used);
      list := list + [entry];
      used := used + {entry} + entry.table.Repr();
    }
  }

  lemma NoneApart()
    ensures Apart([])
  {
  }

  class JitProgramCache {
    const entries: seq<CacheEntry>
    var bytes: nat
    var cursor: nat
    var disk: map<nat, seq<Prepared>>

    /** The cache of a freshly attached module: an empty record for every function. */
    constructor (bodies: seq<seq<byte>>, ghost env: Env)
      ensures Valid(env, bodies) && Abs() == FreshCache(bodies)
      ensures fresh(Tables()) && forall i :: 0 <= i < |entries| ==> fresh(entries[i])
    {
      hide CacheOk, Apart, FreshEntry, OpcodeTable.Contents;
      var list := EmptyRecords(bodies);
      assert forall o :: o in TablesOf(list) ==> allocated(o);
      entries, bytes, cursor, disk := list, 0, 0, map[];
      new;
      FreshCacheOk(env, bodies);
      forall i, o | 0 <= i < |entries| && o in entries[i].table.Repr()
        ensures fresh(o) && o != this
      {
        assert entries[i] in entries;
      }
      assert Shaped();
      assert Slots() == FreshCache(bodies).entries;
    }

    /** All indices with their arrays. */
    ghost function Tables(): set<object>
      reads TablesOf(entries)
    {
      set e, o | e in entries && o in e.table.Repr() :: o
    }

    /** Every function has its own record, and every record its own index. */
    ghost predicate Shaped()
      reads TablesOf(entries), Tables()
    {
      this !in Tables() && Apart(entries) && forall i :: 0 <= i < |entries| ==> entries[i].table.Valid()
    }

    ghost function Slots(): (s: seq<Entry>)
      requires Shaped()
      reads entries, TablesOf(entries), Tables()
      ensures |s| == |entries| && forall i :: 0 <= i < |entries| ==> s[i] == entries[i].Show()
    {
      seq(|entries|, i requires 0 <= i < |entries|
          && Shaped() reads entries, TablesOf(entries), Tables() => entries[i].Show())
    }

    ghost function Abs(): Cache
      requires Shaped()
      reads this, entries, TablesOf(entries), Tables()
    {
      Cache(Slots(), bytes, cursor, disk)
    }

    /** The invariant of the cache on what the records show. */
    ghost predicate Valid(env: Env, bodies: seq<seq<byte>>)
      reads this, entries, TablesOf(entries), Tables()
    {
      Shaped() && CacheOk(env, bodies, Abs())
    }

    /** What leaves the indices alone leaves them as they were. */
    twostate lemma IndicesStay()
      requires old(Shaped()) && forall o :: o in old(Tables()) ==> unchanged(o)
      ensures Shaped() && Tables() == old(Tables())
      ensures forall i :: 0 <= i < |entries| ==>
                entries[i].table.Contents() == old(entries[i].table.Contents())
    {
      forall i | 0 <= i < |entries|
        ensures entries[i].table.Repr() == old(entries[i].table.Repr())
        ensures forall o :: o in entries[i].table.Repr() ==> unchanged(o)
      {
        assert entries[i] in entries;
        assert entries[i].table in old(entries[i].table.Repr());
        assert entries[i].table in old(Tables());
        forall o | o in old(entries[i].table.Repr())
          ensures unchanged(o)
        {
          assert o in old(Tables());
        }
      }
    }

    /** A change of one record, not of its index, replaces one slot. */
    twostate lemma OneSlotChanges(f: nat)
      requires old(Shaped()) && f < |entries| && forall o :: o in old(Tables()) ==> unchanged(o)
      requires forall i :: 0 <= i < |entries| && i != f ==> unchanged(entries[i])
      ensures Shaped() && Tables() == old(Tables()) && Slots() == old(Slots())[f := entries[f].Show()]
      ensures Abs() == Cache(old(Abs()).entries[f := entries[f].Show()], bytes, cursor, disk)
      ensures entries[f].table.Contents() == old(entries[f].table.Contents())
    {
      hide Tables;
      IndicesStay();
    }

    /** What leaves records and indices alone leaves the cache as it was. */
    twostate lemma CacheStays()
      requires old(Shaped()) && unchanged(this) && forall o :: o in old(Tables()) ==> unchanged(o)
      requires forall i :: 0 <= i < |entries| ==> unchanged(entries[i])
      ensures Shaped() && Tables() == old(Tables()) && Abs() == old(Abs())
    {
      hide Tables;
      IndicesStay();
      assert Slots() == old(Slots());
    }

    lemma Separate()
      requires Shaped()
      ensures this !in Tables() && forall i :: 0 <= i < |entries| ==> entries[i] !in Tables()
      ensures forall i, j :: 0 <= i < j < |entries| ==> entries[i] != entries[j]
    {
    }

    /** Gives a slot's bytes back and empties it. */
    method ReleaseProgram(f: nat, ghost env: Env, ghost bodies: seq<seq<byte>>)
      requires Valid(env, bodies) && f < |entries|
      modifies this`bytes, entries[f]
      ensures Valid(env, bodies) && Tables() == old(Tables()) && Abs() == Release(old(Abs()), f)
      ensures bytes == old(bytes) - old(entries[f].bytes)
      ensures entries[f].program == [] && !entries[f].ready
    {
      hide Shaped, CacheOk, Tables;
      ghost var c := Abs();
      CacheSize(env, bodies, c);
      ReleaseKeepsCache(env, bodies, c, f);
      Separate();
      var entry := entries[f];
      if entry.bytes > 0 && bytes >= entry.bytes {
        bytes := bytes - entry.bytes;
      }
      entry.program, entry.bytes, entry.preparedCount, entry.ready := [], 0, 0, false;
      OneSlotChanges(f);
    }

    /** Empties a slot; the spill hook, if it takes the program, holds it from then on. */
    method EvictEntry(f: nat, hooks: Hooks, ghost env: Env, ghost bodies: seq<seq<byte>>)
      requires Valid(env, bodies) && f < |entries|
      modifies this`bytes, this`disk, entries[f]
      ensures Valid(env, bodies) && Tables() == old(Tables()) && Abs() == Evict(old(Abs()), f, hooks)
      ensures bytes == old(bytes) - old(entries[f].bytes) && entries[f].program == [] && !entries[f].ready
      ensures entries[f].spilled <==> old(entries[f].ready) && hooks.hasSpill && hooks.spillOk(f)
      ensures disk == if entries[f].spilled then old(disk)[f := old(entries[f].program)] else old(disk)
    {
      hide Shaped, CacheOk, Tables;
      ghost var c := Abs();
      CacheSize(env, bodies, c);
      ReadyHasProgram(env, bodies, f);
      EvictKeepsCache(env, bodies, c, f, hooks);
      Separate();
      var entry := entries[f];
      var kept := false;
      if entry.ready && |entry.program| > 0 && hooks.hasSpill {
        if hooks.spillOk(f) {
          SpillKeepsCache(env, bodies, c, f);
          disk := disk[f := entry.program];
          kept := true;
          IndicesStay();
          assert Slots() == c.entries;
        }
      }
      ReleaseProgram(f, env, bodies);
      label Released:
      entry.spilled := kept;
      OneSlotChanges@Released(f);
    }

    lemma ReadyHasProgram(env: Env, bodies: seq<seq<byte>>, f: nat)
      requires Valid(env, bodies) && f < |entries|
      ensures entries[f].ready <==> entries[f].program != []
      ensures entries[f].ready ==> !entries[f].spilled
    {
      hide FromPrefix, IndexOk, SumBytes;
      assert EntryOk(env, bodies[f], Abs().entries[f]);
    }

    lemma AbsShows()
      requires Shaped()
      ensures Abs().bytes == bytes && Abs().cursor == cursor && Abs().disk == disk && |Abs().entries| == |entries|
      ensures forall i :: 0 <= i < |entries| ==> Abs().entries[i] == entries[i].Show()
      ensures forall i :: 0 <= i < |entries| ==> RecordShows(entries[i], Abs().entries[i])
    {
    }

    lemma SlotShows(f: nat)
      requires Shaped() && f < |entries|
      ensures |Abs().entries| == |entries| && Abs().bytes == bytes && Abs().cursor == cursor && Abs().disk == disk
      ensures Abs().entries[f] == entries[f].Show()
    {
    }

    /** Field by field. */
    ghost predicate RecordShows(e: CacheEntry, s: Entry)
      reads e
    {
      && s.program == e.program && s.bytes == e.bytes && s.preparedCount == e.preparedCount
      && s.ready == e.ready && s.spilled == e.spilled
    }

    /** One turn of the eviction loop. */
    method VisitSlot(protect: nat, hooks: Hooks, ghost env: Env, ghost bodies: seq<seq<byte>>)
      requires Valid(env, bodies) && |entries| > 0
      modifies this`bytes, this`cursor, this`disk, entries
      ensures Valid(env, bodies) && Tables() == old(Tables()) && Abs() == EvictTurn(old(Abs()), protect, hooks)
    {
      hide Shaped, CacheOk, Tables, Evict, Abs;
      AbsShows();
      ghost var c := Abs();
      var index := MoveCursor(env, bodies);
      AbsShows();
      assert RecordShows(entries[index], c.entries[index]);
      if index == protect {
        return;
      }
      if !entries[index].ready || |entries[index].program| == 0 {
        assert !c.entries[index].ready || c.entries[index].program == [];
        return;
      }
      assert c.entries[index].program != [];
      EvictEntry(index, hooks, env, bodies);
    }

    /** Makes room by evicting around the ring: it succeeds exactly when there can be room beside the
        protected slot's own program, which it leaves alone. */
    method ReserveBytes(budget: nat, need: nat, protect: nat, hooks: Hooks, ghost env: Env,
          ghost bodies: seq<seq<byte>>)
      returns (ok: bool)
      requires Valid(env, bodies)
      modifies this`bytes, this`cursor, this`disk, entries
      ensures Valid(env, bodies) && Tables() == old(Tables())
      ensures (Abs(), ok) == Reserve(old(Abs()), budget, need, protect, hooks)
      ensures ok <==> HasRoom(old(Abs()), budget, need, protect)
      ensures ok && budget > 0 && need > 0 ==> bytes + need <= budget
      ensures protect < |entries| ==> entries[protect].Show() == old(entries[protect].Show())
    {
      hide Shaped, CacheOk, Tables, HasRoom, EvictTurn, Abs;
      ghost var c := Abs();
      ReserveExactly(env, bodies, c, budget, need, protect, hooks);
      AbsShows();
      if budget == 0 || need == 0 {
        return true;
      }
      if need > budget {
        return false;
      }
      if bytes + need <= budget {
        return true;
      }
      if |entries| == 0 {
        return false;
      }
      var attempts := |entries|;
      while bytes + need > budget && attempts > 0
        invariant 0 <= attempts && Valid(env, bodies) && Tables() == old(Tables()) && |Abs().entries| == |entries|
        invariant EvictLoop(c, budget, need, protect, hooks, |entries|)
                  == EvictLoop(Abs(), budget, need, protect, hooks, attempts)
        decreases attempts
      {
        AbsShows();
        VisitSlot(protect, hooks, env, bodies);
        AbsShows();
        attempts := attempts - 1;
      }
      AbsShows();
      return bytes + need <= budget;
    }

    /** The slot the cursor stands on; the cursor goes on to the next, around the end. */
    method MoveCursor(ghost env: Env, ghost bodies: seq<seq<byte>>) returns (index: nat)
      requires Valid(env, bodies) && |entries| > 0
      modifies this`cursor
      ensures index == old(cursor) % |entries| && index < |entries|
      ensures Valid(env, bodies) && Tables() == old(Tables())
      ensures Abs() == old(Abs()).(cursor := (index + 1) % |entries|)
    {
      hide Shaped, Tables, EntryOk, FromPrefix, SumBytes;
      ghost var c := Abs();
      Separate();
      index := cursor % |entries|;
      cursor := (index + 1) % |entries|;
      IndicesStay();
      assert Slots() == c.entries;
    }

    /** Fills an emptied slot and counts its bytes. */
    method FillSlot(f: nat, program: seq<Prepared>)
      requires Shaped() && f < |entries|
      modifies this`bytes, entries[f]
      ensures Shaped() && Tables() == old(Tables())
      ensures var c, n := old(Abs()), |program|;
              Abs() == Put(c, f, c.entries[f].(program := program, bytes := ProgramBytes(n), preparedCount := n,
                                               ready := program != [], spilled := false))
                       .(bytes := c.bytes + ProgramBytes(n))
      ensures entries[f].program == program && entries[f].ready == (program != []) && !entries[f].spilled
    {
      hide Shaped, Tables, Abs, Slots;
      SlotShows(f);
      Separate();
      var entry, size := entries[f], ProgramBytes(|program|);
      entry.program, entry.bytes, entry.preparedCount, entry.ready, entry.spilled :=
          program, size, |program|, |program| > 0, false;
      bytes := bytes + size;
      OneSlotChanges(f);
    }

    /** A program, prepared from opcodes the slot has recorded, takes its place. */
    method InstallProgram(f: nat, program: seq<Prepared>, ghost env: Env, ghost bodies: seq<seq<byte>>)
      requires Valid(env, bodies) && f < |entries| && FromPrefix(env, Abs().entries[f].index, program)
      modifies this`bytes, entries[f]
      ensures Valid(env, bodies) && Tables() == old(Tables()) && Abs() == Install(old(Abs()), f, program)
      ensures bytes == old(bytes) - old(entries[f].bytes) + ProgramBytes(|program|)
      ensures entries[f].ready && entries[f].program == program && !entries[f].spilled
    {
      hide Shaped, CacheOk, Tables, FromPrefix, Release, Abs;
      ghost var c := Abs();
      SlotShows(f);
      CacheSize(env, bodies, c);
      InstallKeepsCache(env, bodies, c, f, program);
      ReleaseProgram(f, env, bodies);
      SlotShows(f);
      FillSlot(f, program);
      SlotShows(f);
      InstallReady(env, c, f, program);
    }

    /** Reloads what the spill hook holds for a slot: exactly when the load hook is there, the slot has an
        index, the program is handed over and there is room. Each failure has its code. */
    method LoadEntry(f: nat, budget: nat, hooks: Hooks, ghost env: Env, ghost bodies: seq<seq<byte>>)
      returns (status: Status)
      requires Valid(env, bodies) && f < |entries|
      modifies this`bytes, this`cursor, this`disk, entries
      ensures Valid(env, bodies) && Tables() == old(Tables())
      ensures (Abs(), status) == Load(old(Abs()), f, budget, hooks)
      ensures status == if !hooks.hasLoad || entries[f].table.pcToIndex == null then InvalidArgument
                        else if f !in old(disk) || !hooks.loadOk(f) then hooks.loadError
                        else if !HasRoom(old(Abs()), budget, ProgramBytes(|old(disk)[f]|), f) then OutOfMemory
                        else Ok
      ensures status == Ok ==> entries[f].ready && !entries[f].spilled && entries[f].program == old(disk)[f]
    {
      hide Shaped, CacheOk, Tables, Abs, Reserve, Install, HasRoom, FromPrefix;
      ghost var c := Abs();
      AbsShows();
      CacheSize(env, bodies, c);
      LoadExactly(env, bodies, c, f, budget, hooks);
      IndexShows(f, env, bodies);
      if !hooks.hasLoad {
        return InvalidArgument;
      }
      if entries[f].table.pcToIndex == null {
        return InvalidArgument;
      }
      if f !in disk || !hooks.loadOk(f) {
        return hooks.loadError;
      }
      var loaded := disk[f];
      DiskIsPrefix(env, bodies, c, f);
      label Handed:
      var fits := ReserveBytes(budget, ProgramBytes(|loaded|), f, hooks, env, bodies);
      if !fits {
        return OutOfMemory;
      }
      AbsShows();
      assert Abs().entries[f].index == c.entries[f].index;
      InstallProgram(f, loaded, env, bodies);
      return Ok;
    }

    lemma IndexShows(f: nat, env: Env, bodies: seq<seq<byte>>)
      requires Valid(env, bodies) && f < |entries|
      ensures entries[f].table.Valid() && Abs().entries[f].index == entries[f].table.Contents()
      ensures Abs().entries[f].index.slots == [] <==> entries[f].table.pcToIndex == null
      ensures |Abs().entries[f].index.opcodes| == entries[f].table.count
      ensures Abs().entries[f].index.slots == [] || |Abs().entries[f].index.slots| == Abs().entries[f].bodySize
    {
      hide CacheOk;
    }

    /** Prepares the first `count` recorded opcodes of a slot: exactly when there are any, there is room,
        and every one of them has something to run. */
    method PrepareProgram(env: Env, f: nat, count: nat, budget: nat, hooks: Hooks, ghost bodies: seq<seq<byte>>)
      returns (done: bool)
      requires Valid(env, bodies) && f < |entries| && count <= |Abs().entries[f].index.opcodes|
      modifies this`bytes, this`cursor, this`disk, entries
      ensures Valid(env, bodies) && Tables() == old(Tables())
      ensures (Abs(), done) == PrepareSlot(env, old(Abs()), f, count, budget, hooks)
      ensures var program := JitPrograms.PrepareProgram(env, old(Abs()).entries[f].index.opcodes[..count]);
              && (done <==> count > 0 && HasRoom(old(Abs()), budget, ProgramBytes(count), f) && program.Some?)
              && (done ==> entries[f].ready && !entries[f].spilled && entries[f].program == program.value)
    {
      hide Shaped, CacheOk, Tables, Abs, Reserve, Install, HasRoom, FromPrefix, PrepareAll;
      ghost var c := Abs();
      AbsShows();
      CacheSize(env, bodies, c);
      PrepareExactly(env, bodies, c, f, count, budget, hooks);
      IndexShows(f, env, bodies);
      if count == 0 {
        return false;
      }
      assert entries[f].table.opcodes[..entries[f].table.count][..count] == entries[f].table.opcodes[..count];
      var opcodes := entries[f].table.opcodes[..count];
      var room := ReserveBytes(budget, ProgramBytes(count), f, hooks, env, bodies);
      if !room {
        return false;
      }
      assert allocated(Tables());
      label Roomy:
      var temp := PrepareFromOpcodes(env, opcodes);
      CacheStays@Roomy();
      if temp.None? {
        return false;
      }
      var still := ReserveBytes(budget, ProgramBytes(|temp.value|), f, hooks, env, bodies);
      if !still {
        return false;
      }
      AbsShows();
      assert Abs().entries[f].index == c.entries[f].index;
      PreparedIsPrefix(env, c.entries[f].index, count, temp.value);
      InstallProgram(f, temp.value, env, bodies);
      return true;
    }

    /** A slot whose objects stay stays as it was. */
    twostate lemma SlotStays(i: nat)
      requires i < |entries| && old(entries[i].table.Valid()) && unchanged(entries[i])
      requires forall o :: o in old(entries[i].table.Repr()) ==> unchanged(o)
      ensures entries[i].table.Valid() && entries[i].table.Repr() == old(entries[i].table.Repr())
      ensures entries[i].Show() == old(entries[i].Show())
    {
      assert entries[i].table in old(entries[i].table.Repr());
    }

    twostate lemma OldApart(f: nat, new i: nat)
      requires old(Shaped()) && f < |entries| && i < |entries| && i != f
      ensures old(entries[i].table.Valid()) && old(entries[i].table.Repr()) !! old(entries[f].table.Repr())
      ensures old(entries[i].table.Repr()) <= old(Tables())
    {
      hide OpcodeTable.Valid, OpcodeTable.Repr;
      assert entries[i] in entries;
    }

    twostate lemma OtherSlotStays(f: nat, new i: nat)
      requires old(Shaped()) && f < |entries| && i < |entries| && i != f && unchanged(entries[i])
      requires forall o :: o in old(Tables()) ==> o in old(entries[f].table.Repr()) || unchanged(o)
      ensures entries[i].table.Valid() && entries[i].table.Repr() == old(entries[i].table.Repr())
      ensures entries[i].Show() == old(entries[i].Show())
    {
      hide Shaped, Tables, CacheEntry.Show, OpcodeTable.Valid, OpcodeTable.Repr;
      OldApart(f, i);
      SlotStays(i);
    }

    /** One index that only gains new objects stays apart from the others. */
    twostate lemma StillApart(f: nat)
      requires f < |entries| && old(Apart(entries)) && old(allocated(entries))
      requires forall o :: o in entries[f].table.Repr() ==> o in old(entries[f].table.Repr()) || fresh(o)
      requires forall i :: 0 <= i < |entries| && i != f ==> entries[i].table.Repr() == old(entries[i].table.Repr())
      ensures Apart(entries)
    {
      hide OpcodeTable.Repr;
      assert forall i :: 0 <= i < |entries| ==> old(allocated(entries[i])) && old(allocated(entries[i].table.Repr()));
      forall i, j | 0 <= i < |entries| && 0 <= j < |entries|
        ensures entries[i] !in entries[j].table.Repr()
        ensures i < j ==> entries[i] != entries[j] && entries[i].table.Repr() !! entries[j].table.Repr()
      {
        if i < j {
          assert old(entries[i].table.Repr() !! entries[j].table.Repr());
        }
      }
    }

    /** A change of one index, into old and new arrays of its own, leaves every other slot as it was. */
    twostate lemma OthersStay(f: nat)
      requires old(Shaped()) && unchanged(this) && f < |entries|
               && (forall i :: 0 <= i < |entries| ==> unchanged(entries[i]))
      requires entries[f].table.Valid() && fresh(entries[f].table.Repr() - old(entries[f].table.Repr()))
      requires forall o :: o in old(Tables()) ==> o in old(entries[f].table.Repr()) || unchanged(o)
      ensures Shaped() && fresh(Tables() - old(Tables()))
      ensures forall i :: 0 <= i < |entries| && i != f ==> entries[i].Show() == old(entries[i].Show())
    {
      hide CacheEntry.Show, OpcodeTable.Valid, OpcodeTable.Repr, Apart;
      forall i: nat | i < |entries| && i != f
        ensures entries[i].table.Repr() == old(entries[i].table.Repr()) && entries[i].table.Valid()
        ensures entries[i].Show() == old(entries[i].Show())
      {
        OtherSlotStays(f, i);
      }
      forall i, o | 0 <= i < |entries| && o in entries[i].table.Repr()
        ensures o in old(Tables()) || fresh(o)
      {
        assert entries[i] in entries;
      }
      StillApart(f);
    }

    /** Records the opcode at a position of a function, where there are such: it is known from then on. */
    method RecordOpcode(f: nat, pc: nat, opcode: byte, ghost env: Env, ghost bodies: seq<seq<byte>>)
      requires Valid(env, bodies) && (f < |bodies| && pc < |bodies[f]| ==> opcode == bodies[f][pc])
      modifies if f < |entries| then entries[f].table.Repr() else {}
      ensures Valid(env, bodies) && fresh(Tables() - old(Tables()))
      ensures Abs() == RecordAt(old(Abs()), f, pc, opcode)
      ensures f < |bodies| && pc < |bodies[f]| ==> Recorded(Abs().entries[f].index, pc)
    {
      hide Shaped, CacheOk, Tables, Record;
      ghost var c := Abs();
      CacheSize(env, bodies, c);
      if f >= |entries| {
        return;
      }
      RecordKeepsValid(env, bodies, c, f, pc, opcode);
      IndexShows(f, env, bodies);
      assert allocated(Tables());
      entries[f].table.RecordOpcode(pc, opcode);
      OthersStay(f);
      assert Slots() == RecordAt(c, f, pc, opcode).entries;
    }

    /** Brings a slot up to date before its next instruction: where microcode is on and something is
        recorded, it is ready afterwards exactly when it was, or its program comes back, or there is
        room to prepare one. */
    method MaybePrepare(env: Env, f: nat, micro: bool, maxOps: nat, budget: nat, hooks: Hooks,
          ghost bodies: seq<seq<byte>>)
      requires Valid(env, bodies)
      modifies this`bytes, this`cursor, this`disk, entries
      ensures Valid(env, bodies) && Tables() == old(Tables()) && Capped(old(bytes), bytes, budget)
      ensures Abs() == JitCache.MaybePrepare(env, old(Abs()), f, micro, maxOps, budget, hooks)
      ensures micro && env.microcodeEnabled && f < |entries| && entries[f].table.count > 0 ==>
                (entries[f].ready <==> old(entries[f].ready) || Reloads(old(Abs()), f, budget, hooks)
                                       || Prepares(env, old(Abs()), f, maxOps, budget))
      ensures micro && env.microcodeEnabled && f < |entries| && entries[f].table.count > 0 ==>
                UpToDate(env, old(Abs()), f, maxOps, budget, hooks, Abs().entries[f])
    {
      hide Shaped, CacheOk, Tables, Abs, Load, PrepareSlot, HasRoom, Reloads, Prepares, UpToDate, CacheEntry.Show,
           OpcodeTable.Valid, OpcodeTable.Repr;
      ghost var c := Abs();
      AbsShows();
      CacheSize(env, bodies, c);
      if !micro || !env.microcodeEnabled || f >= |entries| {
        return;
      }
      IndexShows(f, env, bodies);
      if entries[f].table.count == 0 {
        return;
      }
      MaybePrepareExactly(env, bodies, c, f, maxOps, budget, hooks);
      MaybePrepareDoes(env, bodies, c, f, maxOps, budget, hooks);
      MaybePrepareKeepsCache(env, bodies, c, f, micro, maxOps, budget, hooks);
      if entries[f].spilled && hooks.hasLoad {
        var status := LoadEntry(f, budget, hooks, env, bodies);
        AbsShows();
        if status == Ok {
          return;
        }
      }
      IndexShows(f, env, bodies);
      var count := entries[f].table.count;
      if entries[f].preparedCount == count && entries[f].ready {
        return;
      }
      if maxOps > 0 && count > maxOps {
        count := maxOps;
      }
      var done := PrepareProgram(env, f, count, budget, hooks, bodies);
      AbsShows();
    }

    /** What the cache holds for the instruction at `pc`, reloaded if need be: a hit is the preparation of
        the very byte found there. */
    method LookupPrepared(env: Env, f: nat, pc: nat, micro: bool, budget: nat, hooks: Hooks,
          ghost bodies: seq<seq<byte>>)
      returns (hit: Option<Prepared>)
      requires Valid(env, bodies)
      modifies this`bytes, this`cursor, this`disk, entries
      ensures Valid(env, bodies) && Tables() == old(Tables()) && Capped(old(bytes), bytes, budget)
      ensures (Abs(), hit) == Lookup(env, old(Abs()), f, pc, micro, budget, hooks)
      ensures hit.Some? ==> f < |bodies| && pc < |bodies[f]| && PrepareOp(env, bodies[f][pc]) == hit
    {
      hide Shaped, CacheOk, Tables, Abs, Load, HasRoom, PrepareOp;
      ghost var c := Abs();
      AbsShows();
      CacheSize(env, bodies, c);
      LookupFindsBody(env, bodies, c, f, pc, micro, budget, hooks);
      if !micro || !env.microcodeEnabled || f >= |entries| {
        return None;
      }
      if !entries[f].ready && entries[f].spilled && hooks.hasLoad {
        var status := LoadEntry(f, budget, hooks, env, bodies);
        AbsShows();
        if status != Ok {
          return None;
        }
      }
      IndexShows(f, env, bodies);
      var table, program := entries[f].table, entries[f].program;
      if !entries[f].ready || table.pcToIndex == null || pc >= table.pcToIndex.Length {
        return None;
      }
      var index := table.pcToIndex[pc];
      if index < 0 || index >= |program| {
        return None;
      }
      return Some(program[index]);
    }
  }

  lemma InstallReady(env: Env, c: Cache, f: nat, program: seq<Prepared>)
    requires f < |c.entries| && FromPrefix(env, c.entries[f].index, program)
    ensures program != []
  {
  }

  lemma RecordKeepsValid(env: Env, bodies: seq<seq<byte>>, c: Cache, f: nat, pc: nat, opcode: byte)
    requires CacheOk(env, bodies, c) && f < |bodies| && (pc < |bodies[f]| ==> opcode == bodies[f][pc])
    ensures c.entries[f].bodySize == |bodies[f]| && IndexOk(c.entries[f].index, bodies[f])
    ensures c.entries[f].index.slots == [] || |c.entries[f].index.slots| == c.entries[f].bodySize
    ensures CacheOk(env, bodies, RecordAt(c, f, pc, opcode))
    ensures pc < |bodies[f]| ==> Recorded(RecordAt(c, f, pc, opcode).entries[f].index, pc)
  {
    hide FromPrefix, IndexOk, SumBytes, Recorded;
    assert EntryOk(env, bodies[f], c.entries[f]);
    KeptShape(c.entries[f].index, bodies[f]);
    if pc < |bodies[f]| {
      RecordKeepsIndex(c.entries[f].index, bodies[f], pc);
      RecordKeepsCache(env, bodies, c, f, pc);
    } else {
      assert RecordAt(c, f, pc, opcode).entries == c.entries;
    }
  }

  lemma DiskIsPrefix(env: Env, bodies: seq<seq<byte>>, c: Cache, f: nat)
    requires CacheOk(env, bodies, c) && f in c.disk
    ensures f < |c.entries| && FromPrefix(env, c.entries[f].index, c.disk[f]) && c.disk[f] != []
  {
    hide EntryOk, SumBytes;
  }

  lemma PreparedIsPrefix(env: Env, ix: Index, count: nat, program: seq<Prepared>)
    requires count <= |ix.opcodes| && JitPrograms.PrepareProgram(env, ix.opcodes[..count]) == Some(program)
    ensures |program| == count && FromPrefix(env, ix, program)
  {
  }
}
