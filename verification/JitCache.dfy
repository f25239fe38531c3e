/** The cache of prepared programs: byte accounting against a budget, round-robin eviction with a
    protected slot, spill and reload through hooks that keep what they are given. */
module JitCache {
  import opened Core
  import opened RuntimeState
  import opened JitPrograms
  import opened OpcodeIndex

  /** One slot per function. */
  datatype Entry = Entry(bodySize: nat, index: Index, program: seq<Prepared>, bytes: nat, preparedCount: nat,
                         ready: bool, spilled: bool)

  /** `disk` is what the spill hooks hold: the program last spilled for each function. */
  datatype Cache = Cache(entries: seq<Entry>, bytes: nat, cursor: nat, disk: map<nat, seq<Prepared>>)

  /** Which hooks are installed, and when they report success. */
  datatype Hooks = Hooks(hasSpill: bool, spillOk: nat -> bool, hasLoad: bool, loadOk: nat -> bool, loadError: Error)

  const OP_BYTES: nat := 48

  function ProgramBytes(count: nat): nat {
    count * OP_BYTES
  }

  function FreshEntry(bodySize: nat): Entry {
    Entry(bodySize, EMPTY_INDEX, [], 0, 0, false, false)
  }

  function FreshCache(bodies: seq<seq<byte>>): Cache {
    Cache(seq(|bodies|, i requires 0 <= i < |bodies| => FreshEntry(|bodies[i]|)), 0, 0, map[])
  }

  // ---------------------------------------------------------- the operations

  function Put(c: Cache, f: nat, e: Entry): Cache
    requires f < |c.entries|
  {
    c.(entries := c.entries[f := e])
  }

  function Release(c: Cache, f: nat): Cache
    requires f < |c.entries|
  {
    var e := c.entries[f];
    var bytes := if e.bytes > 0 && c.bytes >= e.bytes then c.bytes - e.bytes else c.bytes;
    Put(c, f, e.(program := [], bytes := 0, preparedCount := 0, ready := false)).(bytes := bytes)
  }

  function Evict(c: Cache, f: nat, hooks: Hooks): Cache
    requires f < |c.entries|
  {
    var e := c.entries[f];
    var kept := e.ready && e.program != [] && hooks.hasSpill && hooks.spillOk(f);
    var c' := Release(if kept then c.(disk := c.disk[f := e.program]) else c, f);
    Put(c', f, c'.entries[f].(spilled := kept))
  }

  predicate Fitting(c: Cache, budget: nat, need: nat) {
    c.bytes + need <= budget
  }

  /** One turn of the eviction loop: the slot at the cursor is evicted, unless protected or empty, and the
      cursor goes on, around the end. */
  function EvictTurn(c: Cache, protect: nat, hooks: Hooks): (r: Cache)
    requires |c.entries| > 0
    ensures |r.entries| == |c.entries|
  {
    var index := c.cursor % |c.entries|;
    var moved := c.(cursor := (index + 1) % |c.entries|);
    if index == protect || !c.entries[index].ready || c.entries[index].program == [] then moved
    else Evict(moved, index, hooks)
  }

  /** The eviction loop: at most `attempts` slots from the cursor on, until the request fits. */
  function EvictLoop(c: Cache, budget: nat, need: nat, protect: nat, hooks: Hooks, attempts: nat): (r: Cache)
    requires |c.entries| > 0
    ensures |r.entries| == |c.entries|
    decreases attempts
  {
    if attempts == 0 || Fitting(c, budget, need) then c
    else EvictLoop(EvictTurn(c, protect, hooks), budget, need, protect, hooks, attempts - 1)
  }

  /** Makes room for `need` bytes; a zero budget means no limit. */
  function Reserve(c: Cache, budget: nat, need: nat, protect: nat, hooks: Hooks): (r: (Cache, bool))
    ensures |r.0.entries| == |c.entries|
  {
    if budget == 0 || need == 0 then (c, true)
    else if need > budget then (c, false)
    else if Fitting(c, budget, need) then (c, true)
    else if |c.entries| == 0 then (c, false)
    else
      var c' := EvictLoop(c, budget, need, protect, hooks, |c.entries|);
      (c', Fitting(c', budget, need))
  }

  /** A program takes its place in slot `f`. */
  function Install(c: Cache, f: nat, program: seq<Prepared>): Cache
    requires f < |c.entries|
  {
    var c' := Release(c, f);
    var bytes := ProgramBytes(|program|);
    Put(c', f, c'.entries[f].(program := program, bytes := bytes, preparedCount := |program|,
                              ready := program != [], spilled := false)).(bytes := c'.bytes + bytes)
  }

  function Load(c: Cache, f: nat, budget: nat, hooks: Hooks): (r: (Cache, Status))
    requires f < |c.entries|
    ensures |r.0.entries| == |c.entries|
  {
    if !hooks.hasLoad || c.entries[f].index.slots == [] then (c, InvalidArgument)
    else if f !in c.disk || !hooks.loadOk(f) then (c, hooks.loadError)
    else
      var (c', fits) := Reserve(c, budget, ProgramBytes(|c.disk[f]|), f, hooks);
      if !fits then (c', OutOfMemory)
      else (Install(c', f, c.disk[f]), if c.disk[f] != [] then Ok else InvalidArgument)
  }

  /** Prepares the first `count` recorded opcodes of slot `f`. */
  function PrepareSlot(env: Env, c: Cache, f: nat, count: nat, budget: nat, hooks: Hooks): (r: (Cache, bool))
    requires f < |c.entries| && count <= |c.entries[f].index.opcodes|
    ensures |r.0.entries| == |c.entries|
  {
    if count == 0 then (c, false)
    else
      var (c1, room) := Reserve(c, budget, ProgramBytes(count), f, hooks);
      if !room then (c1, false)
      else
        match PrepareProgram(env, c.entries[f].index.opcodes[..count])
        case None => (c1, false)
        case Some(program) =>
          var (c2, still) := Reserve(c1, budget, ProgramBytes(|program|), f, hooks);
          if still then (Install(c2, f, program), true) else (c2, false)
  }

  function RecordAt(c: Cache, f: nat, pc: nat, opcode: byte): Cache
    requires f < |c.entries| ==> (c.entries[f].index.slots == [] || |c.entries[f].index.slots| == c.entries[f].bodySize)
  {
    if f >= |c.entries| then c
    else Put(c, f, c.entries[f].(index := Record(c.entries[f].index, c.entries[f].bodySize, pc, opcode)))
  }

  function ChunkSize(count: nat, maxOps: nat): (n: nat)
    ensures n <= count
  {
    if maxOps > 0 && count > maxOps then maxOps else count
  }

  /** Brings a slot up to date: reload what was spilled, else prepare what was recorded. */
  function MaybePrepare(env: Env, c: Cache, f: nat, micro: bool, maxOps: nat, budget: nat, hooks: Hooks): (r: Cache)
    requires f < |c.entries| ==> (c.entries[f].index.slots == [] || |c.entries[f].index.slots| == c.entries[f].bodySize)
    ensures |r.entries| == |c.entries|
  {
    if !micro || !env.microcodeEnabled || f >= |c.entries| || c.entries[f].index.opcodes == [] then c
    else
      var (c', status) := if c.entries[f].spilled && hooks.hasLoad then Load(c, f, budget, hooks)
          else (c, InvalidArgument);
      if status == Ok then c'
      else
        var e := c'.entries[f];
        if e.preparedCount == |e.index.opcodes| && e.ready then c'
        else PrepareSlot(env, c', f, ChunkSize(|e.index.opcodes|, maxOps), budget, hooks).0
  }

  function Lookup(env: Env, c: Cache, f: nat, pc: nat, micro: bool, budget: nat,
        hooks: Hooks): (r: (Cache, Option<Prepared>))
    ensures |r.0.entries| == |c.entries|
  {
    if !micro || !env.microcodeEnabled || f >= |c.entries| then (c, None)
    else
      var e := c.entries[f];
      var (c', status) := if !e.ready && e.spilled && hooks.hasLoad then Load(c, f, budget, hooks) else (c, Ok);
      if status != Ok then (c', None)
      else
        var e' := c'.entries[f];
        if !e'.ready || pc >= |e'.index.slots| then (c', None)
        else
          var k := e'.index.slots[pc];
          if k < 0 || k >= |e'.program| then (c', None) else (c', Some(e'.program[k]))
  }

  // ----------------------------------------------------------- the invariant

  function SumBytes(entries: seq<Entry>): nat
    decreases |entries|
  {
    if entries == [] then 0 else SumBytes(entries[..|entries| - 1]) + entries[|entries| - 1].bytes
  }

  /** `program` is the preparation of a non-empty prefix of what the index recorded. */
  ghost predicate FromPrefix(env: Env, ix: Index, program: seq<Prepared>) {
    0 < |program| <= |ix.opcodes| && PrepareProgram(env, ix.opcodes[..|program|]) == Some(program)
  }

  ghost predicate EntryOk(env: Env, body: seq<byte>, e: Entry) {
    && e.bodySize == |body| && IndexOk(e.index, body)
    && (e.ready <==> e.program != []) && (e.ready ==> !e.spilled)
    && e.bytes == ProgramBytes(|e.program|) && e.preparedCount == |e.program|
    && (e.program != [] ==> FromPrefix(env, e.index, e.program))
  }

  ghost predicate CacheOk(env: Env, bodies: seq<seq<byte>>, c: Cache) {
    && |c.entries| == |bodies|
    && (forall i :: 0 <= i < |bodies| ==> EntryOk(env, bodies[i], c.entries[i]))
    && (forall f :: f in c.disk ==> f < |bodies| && FromPrefix(env, c.entries[f].index, c.disk[f]))
    && c.bytes == SumBytes(c.entries)
    && (c.entries != [] ==> c.cursor < |c.entries|)
  }

  lemma {:induction false} SumAfterPut(entries: seq<Entry>, f: nat, e: Entry)
    requires f < |entries|
    ensures SumBytes(entries[f := e]) == SumBytes(entries) - entries[f].bytes + e.bytes
    decreases |entries|
  {
    var rest, last := entries[..|entries| - 1], |entries| - 1;
    if f == last {
      assert entries[f := e][..last] == rest;
    } else {
      SumAfterPut(rest, f, e);
      assert entries[f := e][..last] == rest[f := e];
    }
  }

  lemma {:induction false} SumAtLeast(entries: seq<Entry>, f: nat)
    requires f < |entries|
    ensures SumBytes(entries) >= entries[f].bytes
    decreases |entries|
  {
    if f < |entries| - 1 {
      SumAtLeast(entries[..|entries| - 1], f);
    }
  }

  /** All other slots empty: the total is what the one slot holds. */
  lemma {:induction false} SumOfOne(entries: seq<Entry>, f: nat)
    requires forall i :: 0 <= i < |entries| && i != f ==> entries[i].bytes == 0
    ensures SumBytes(entries) == if f < |entries| then entries[f].bytes else 0
    decreases |entries|
  {
    if entries != [] {
      SumOfOne(entries[..|entries| - 1], f);
    }
  }

  lemma FreshCacheOk(env: Env, bodies: seq<seq<byte>>)
    ensures CacheOk(env, bodies, FreshCache(bodies))
  {
    var c := FreshCache(bodies);
    SumOfOne(c.entries, |bodies|);
  }

  /** Replacing one slot by a good one, with the total adjusted, keeps the invariant. */
  lemma PutKeepsCache(env: Env, bodies: seq<seq<byte>>, c: Cache, f: nat, e: Entry, bytes: nat)
    requires CacheOk(env, bodies, c) && f < |bodies| && EntryOk(env, bodies[f], e)
    requires f in c.disk ==> FromPrefix(env, e.index, c.disk[f])
    requires bytes == c.bytes - c.entries[f].bytes + e.bytes
    ensures CacheOk(env, bodies, Put(c, f, e).(bytes := bytes))
  {
    hide EntryOk, FromPrefix;
    SumAfterPut(c.entries, f, e);
  }

  lemma ReleaseKeepsCache(env: Env, bodies: seq<seq<byte>>, c: Cache, f: nat)
    requires CacheOk(env, bodies, c) && f < |bodies|
    ensures var c' := Release(c, f);
            && CacheOk(env, bodies, c') && c'.bytes == c.bytes - c.entries[f].bytes && c'.disk == c.disk
            && c'.cursor == c.cursor
            && c'.entries
               == c.entries[f := c.entries[f].(program := [], bytes := 0, preparedCount := 0, ready := false)]
  {
    hide FromPrefix, IndexOk, PrepareProgram;
    SumAtLeast(c.entries, f);
    var e := c.entries[f].(program := [], bytes := 0, preparedCount := 0, ready := false);
    PutKeepsCache(env, bodies, c, f, e, c.bytes - c.entries[f].bytes);
  }

  /** The spill hook may take the program of a ready slot. */
  lemma SpillKeepsCache(env: Env, bodies: seq<seq<byte>>, c: Cache, f: nat)
    requires CacheOk(env, bodies, c) && f < |bodies| && c.entries[f].ready
    ensures CacheOk(env, bodies, c.(disk := c.disk[f := c.entries[f].program]))
  {
    hide FromPrefix, IndexOk, PrepareProgram, SumBytes;
  }

  /** Evicting empties the slot, and spills it at most; nothing else moves. */
  lemma EvictKeepsCache(env: Env, bodies: seq<seq<byte>>, c: Cache, f: nat, hooks: Hooks)
    requires CacheOk(env, bodies, c) && f < |bodies|
    ensures var c' := Evict(c, f, hooks);
            && CacheOk(env, bodies, c') && c'.bytes == c.bytes - c.entries[f].bytes && c'.cursor == c.cursor
            && c'.entries[f].program == [] && c'.entries[f].bytes == 0 && c'.entries[f].index == c.entries[f].index
            && c'.entries == c.entries[f := c'.entries[f]]
  {
    hide FromPrefix, IndexOk, PrepareProgram, SumBytes;
    var e := c.entries[f];
    var kept := e.ready && e.program != [] && hooks.hasSpill && hooks.spillOk(f);
    var c0 := if kept then c.(disk := c.disk[f := e.program]) else c;
    assert CacheOk(env, bodies, c0);
    ReleaseKeepsCache(env, bodies, c0, f);
    var c1 := Release(c0, f);
    PutKeepsCache(env, bodies, c1, f, c1.entries[f].(spilled := kept), c1.bytes);
  }

  /** The evicted slot counts as spilled, and the hook holds its program, exactly when it was ready and
      there is a hook that takes it. */
  lemma EvictDoes(env: Env, bodies: seq<seq<byte>>, c: Cache, f: nat, hooks: Hooks)
    requires CacheOk(env, bodies, c) && f < |bodies|
    ensures var e, c' := c.entries[f], Evict(c, f, hooks);
            && !c'.entries[f].ready
            && c'.entries[f].spilled == (e.ready && hooks.hasSpill && hooks.spillOk(f))
            && c'.disk == if c'.entries[f].spilled then c.disk[f := e.program] else c.disk
  {
    hide FromPrefix, IndexOk, SumBytes;
    assert EntryOk(env, bodies[f], c.entries[f]);
  }

  // -------------------------------------------------------------- eviction

  /** How many places after the cursor slot `i` comes, going around the end. */
  function Distance(cursor: nat, i: nat, n: nat): nat
    requires cursor < n && i < n
  {
    if i >= cursor then i - cursor else i + n - cursor
  }

  lemma CursorTurns(cursor: nat, n: nat)
    requires cursor < n
    ensures cursor % n == cursor && (cursor + 1) % n == if cursor + 1 == n then 0 else cursor + 1
  {
    if cursor + 1 == n {
      assert n % n == 0;
    }
  }

  lemma NotReadyIsEmpty(env: Env, body: seq<byte>, e: Entry)
    requires EntryOk(env, body, e) && (!e.ready || e.program == [])
    ensures e.bytes == 0
  {
  }

  /** One visited slot: emptied, unless protected. */
  ghost predicate Visited(before: Entry, after: Entry, protected: bool) {
    if protected then after == before else after.bytes == 0 && after.index == before.index
  }

  /** One turn of the loop moves the cursor on and empties the slot it stood on, unless protected. */
  lemma VisitOne(env: Env, bodies: seq<seq<byte>>, c: Cache, protect: nat, hooks: Hooks)
    requires CacheOk(env, bodies, c) && |c.entries| > 0
    ensures var n, index, c' := |c.entries|, c.cursor, EvictTurn(c, protect, hooks);
            && CacheOk(env, bodies, c') && c'.cursor == (if index + 1 == n then 0 else index + 1)
            && c'.bytes == c.bytes - (if index == protect then 0 else c.entries[index].bytes)
            && c'.entries == c.entries[index := c'.entries[index]]
            && Visited(c.entries[index], c'.entries[index], index == protect)
            && (protect in c'.disk <==> protect in c.disk)
            && (protect in c.disk ==> c'.disk[protect] == c.disk[protect])
  {
    hide EntryOk, FromPrefix, SumBytes;
    var n, index := |c.entries|, c.cursor;
    CursorTurns(index, n);
    if !(index == protect || !c.entries[index].ready || c.entries[index].program == []) {
      EvictKeepsCache(env, bodies, c.(cursor := (index + 1) % n), index, hooks);
    } else if index != protect {
      NotReadyIsEmpty(env, bodies[index], c.entries[index]);
    }
  }

  /** One place on, every other slot is one place nearer. */
  lemma DistanceShrinks(cursor: nat, i: nat, n: nat)
    requires cursor < n && i < n
    ensures Distance(if cursor + 1 == n then 0 else cursor + 1, i, n)
            == if i == cursor then n - 1 else Distance(cursor, i, n) - 1
    ensures Distance(cursor, i, n) < n && (Distance(cursor, i, n) == 0 <==> i == cursor)
  {
  }

  /** The loop visits `k` slots in a row from the cursor, each once: it empties every one of them but
      the protected slot, leaves that and all slots beyond alone, and stops early only on success. */
  lemma {:induction false} EvictLoopVisits(env: Env, bodies: seq<seq<byte>>, c: Cache, budget: nat, need: nat,
        protect: nat, hooks: Hooks, attempts: nat)
    returns (k: nat)
    requires CacheOk(env, bodies, c) && |c.entries| > 0 && attempts <= |c.entries|
    ensures k <= attempts
    ensures var c' := EvictLoop(c, budget, need, protect, hooks, attempts); var n := |c.entries|;
            && CacheOk(env, bodies, c')
            && Distance(c.cursor, c'.cursor, n) == (if k == n then 0 else k)
            && (forall i :: 0 <= i < n ==>
                  if Distance(c.cursor, i, n) < k then Visited(c.entries[i], c'.entries[i], i == protect)
                  else c'.entries[i] == c.entries[i])
            && (k < attempts ==> Fitting(c', budget, need))
            && c'.bytes <= c.bytes
    decreases attempts
  {
    hide EntryOk, FromPrefix, SumBytes, EvictTurn, Visited;
    var n := |c.entries|;
    if attempts == 0 || Fitting(c, budget, need) {
      k := 0;
    } else {
      VisitOne(env, bodies, c, protect, hooks);
      var c2 := EvictTurn(c, protect, hooks);
      var rest := EvictLoopVisits(env, bodies, c2, budget, need, protect, hooks, attempts - 1);
      k := rest + 1;
      DistanceShrinks(c.cursor, EvictLoop(c, budget, need, protect, hooks, attempts).cursor, n);
      forall i | 0 <= i < n
        ensures Distance(c.cursor, i, n) < k <==> i == c.cursor || Distance(c2.cursor, i, n) < rest
        ensures i == c.cursor ==> Distance(c2.cursor, i, n) >= rest
      {
        DistanceShrinks(c.cursor, i, n);
      }
    }
  }

  lemma CursorInside(env: Env, bodies: seq<seq<byte>>, c: Cache)
    requires CacheOk(env, bodies, c) && |c.entries| > 0
    ensures c.cursor < |c.entries|
  {
  }

  /** No slot is evicted needlessly: with the last one visited still there, which is the one before the
      cursor, the request would not fit. */
  lemma {:induction false} EvictsNoneNeedlessly(env: Env, bodies: seq<seq<byte>>, c: Cache, budget: nat, need: nat,
        protect: nat, hooks: Hooks, attempts: nat)
    requires CacheOk(env, bodies, c) && |c.entries| > 0 && attempts > 0 && c.bytes + need > budget
    ensures var c' := EvictLoop(c, budget, need, protect, hooks, attempts);
            var last := if c'.cursor == 0 then |c.entries| - 1 else c'.cursor - 1;
            && last < |c.entries|
            && c'.bytes + (if last == protect then 0 else c.entries[last].bytes) + need > budget
    decreases attempts
  {
    hide CacheOk, EvictTurn;
    CursorInside(env, bodies, c);
    VisitOne(env, bodies, c, protect, hooks);
    var c2 := EvictTurn(c, protect, hooks);
    if attempts > 1 && !Fitting(c2, budget, need) {
      EvictsNoneNeedlessly(env, bodies, c2, budget, need, protect, hooks, attempts - 1);
    } else {
      assert EvictLoop(c, budget, need, protect, hooks, attempts) == c2;
    }
  }

  /** Eviction is complete: with a positive budget and request, room is refused exactly when the
      request exceeds the budget, alone or with the protected slot's own program; and the protected
      slot is never touched. */
  lemma ReserveComplete(env: Env, bodies: seq<seq<byte>>, c: Cache, budget: nat, need: nat, protect: nat, hooks: Hooks)
    requires CacheOk(env, bodies, c) && budget > 0 && need > 0
    ensures var (c', fits) := Reserve(c, budget, need, protect, hooks);
            var own := if protect < |c.entries| then c.entries[protect].bytes else 0;
            && (fits <==> need <= budget && own + need <= budget)
            && (fits ==> c'.bytes + need <= budget)
            && (protect < |c.entries| ==> c'.entries[protect] == c.entries[protect])
  {
    hide EntryOk, FromPrefix, Evict;
    var n := |c.entries|;
    if protect < n {
      SumAtLeast(c.entries, protect);
    }
    if need <= budget && !Fitting(c, budget, need) {
      assert c.entries != [];
      var k := EvictLoopVisits(env, bodies, c, budget, need, protect, hooks, n);
      var c' := EvictLoop(c, budget, need, protect, hooks, n);
      if protect < n {
        SumAtLeast(c'.entries, protect);
      }
      if k == n {
        forall i | 0 <= i < n && i != protect
          ensures c'.entries[i].bytes == 0
        {
          assert Distance(c.cursor, i, n) < k;
        }
        SumOfOne(c'.entries, protect);
      }
    }
  }

  /** What making room keeps: the invariant, every index, the protected slot, and the total's bound. */
  lemma ReserveKeepsCache(env: Env, bodies: seq<seq<byte>>, c: Cache, budget: nat, need: nat, protect: nat,
        hooks: Hooks)
    requires CacheOk(env, bodies, c)
    ensures var (c', fits) := Reserve(c, budget, need, protect, hooks);
            && CacheOk(env, bodies, c') && c'.bytes <= c.bytes
            && (forall i :: 0 <= i < |c.entries| ==> c'.entries[i].index == c.entries[i].index)
            && (protect < |c.entries| ==> c'.entries[protect] == c.entries[protect])
            && (fits && budget > 0 && need > 0 ==> c'.bytes + need <= budget)
  {
    hide EntryOk, FromPrefix, Evict, SumBytes;
    if budget > 0 && need > 0 && need <= budget && !Fitting(c, budget, need) && |c.entries| > 0 {
      var k := EvictLoopVisits(env, bodies, c, budget, need, protect, hooks, |c.entries|);
    }
  }

  /** Whether room can be made for `need` bytes beside the protected slot's own program. */
  predicate HasRoom(c: Cache, budget: nat, need: nat, protect: nat) {
    var own := if protect < |c.entries| then c.entries[protect].bytes else 0;
    budget == 0 || need == 0 || (need <= budget && own + need <= budget)
  }

  lemma {:induction false} EvictLoopKeepsDisk(env: Env, bodies: seq<seq<byte>>, c: Cache, budget: nat, need: nat,
                                              protect: nat, hooks: Hooks, attempts: nat)
    requires CacheOk(env, bodies, c) && |c.entries| > 0
    ensures var c' := EvictLoop(c, budget, need, protect, hooks, attempts);
            (protect in c'.disk <==> protect in c.disk) && (protect in c.disk ==> c'.disk[protect] == c.disk[protect])
    decreases attempts
  {
    hide CacheOk, EvictTurn;
    if attempts > 0 && !Fitting(c, budget, need) {
      VisitOne(env, bodies, c, protect, hooks);
      EvictLoopKeepsDisk(env, bodies, EvictTurn(c, protect, hooks), budget, need, protect, hooks, attempts - 1);
    }
  }

  /** Room is made exactly when there can be, without touching the protected slot or what the hooks hold
      for it; afterwards the request fits. */
  lemma ReserveExactly(env: Env, bodies: seq<seq<byte>>, c: Cache, budget: nat, need: nat, protect: nat, hooks: Hooks)
    requires CacheOk(env, bodies, c)
    ensures var (c', fits) := Reserve(c, budget, need, protect, hooks);
            && (fits <==> HasRoom(c, budget, need, protect))
            && (fits && budget > 0 && need > 0 ==> c'.bytes + need <= budget)
            && CacheOk(env, bodies, c') && |c'.entries| == |c.entries|
            && (protect < |c.entries| ==> c'.entries[protect] == c.entries[protect])
            && (protect in c'.disk <==> protect in c.disk)
            && (protect in c.disk ==> c'.disk[protect] == c.disk[protect])
  {
    hide CacheOk, EvictLoop;
    ReserveKeepsCache(env, bodies, c, budget, need, protect, hooks);
    if budget > 0 && need > 0 {
      ReserveComplete(env, bodies, c, budget, need, protect, hooks);
    }
    if |c.entries| > 0 {
      EvictLoopKeepsDisk(env, bodies, c, budget, need, protect, hooks, |c.entries|);
    }
  }

  // ---------------------------------------------- what every operation keeps

  /** An operation under a positive budget raises the total at most up to it, whatever it was before. */
  predicate Capped(before: nat, after: nat, budget: nat) {
    budget > 0 ==> after <= before || after <= budget
  }

  lemma InstallKeepsCache(env: Env, bodies: seq<seq<byte>>, c: Cache, f: nat, program: seq<Prepared>)
    requires CacheOk(env, bodies, c) && f < |bodies| && FromPrefix(env, c.entries[f].index, program)
    ensures var c' := Install(c, f, program);
            && CacheOk(env, bodies, c') && c'.bytes <= c.bytes + ProgramBytes(|program|)
            && (forall i :: 0 <= i < |c.entries| ==> c'.entries[i].index == c.entries[i].index)
            && c'.entries[f].ready && c'.disk == c.disk
  {
    hide PrepareProgram, IndexOk, SumBytes;
    ReleaseKeepsCache(env, bodies, c, f);
    var c1 := Release(c, f);
    var e := c1.entries[f].(program := program, bytes := ProgramBytes(|program|), preparedCount := |program|,
                            ready := program != [], spilled := false);
    PutKeepsCache(env, bodies, c1, f, e, c1.bytes + ProgramBytes(|program|));
  }

  lemma LoadKeepsCache(env: Env, bodies: seq<seq<byte>>, c: Cache, f: nat, budget: nat, hooks: Hooks)
    requires CacheOk(env, bodies, c) && f < |bodies|
    ensures var (c', status) := Load(c, f, budget, hooks);
            && CacheOk(env, bodies, c') && Capped(c.bytes, c'.bytes, budget)
            && (forall i :: 0 <= i < |c.entries| ==> c'.entries[i].index == c.entries[i].index)
            && (status == Ok ==> c'.entries[f].ready)
  {
    hide EntryOk, IndexOk, SumBytes, Install, Reserve, PrepareProgram;
    if f in c.disk {
      var need := ProgramBytes(|c.disk[f]|);
      ReserveKeepsCache(env, bodies, c, budget, need, f, hooks);
      var c1 := Reserve(c, budget, need, f, hooks).0;
      InstallKeepsCache(env, bodies, c1, f, c.disk[f]);
    }
  }

  lemma PrepareKeepsCache(env: Env, bodies: seq<seq<byte>>, c: Cache, f: nat, count: nat, budget: nat, hooks: Hooks)
    requires CacheOk(env, bodies, c) && f < |bodies| && count <= |c.entries[f].index.opcodes|
    ensures var (c', done) := PrepareSlot(env, c, f, count, budget, hooks);
            && CacheOk(env, bodies, c') && Capped(c.bytes, c'.bytes, budget)
            && (forall i :: 0 <= i < |c.entries| ==> c'.entries[i].index == c.entries[i].index)
            && (done ==> c'.entries[f].ready)
  {
    hide EntryOk, IndexOk, SumBytes, Install, Reserve;
    if count > 0 {
      ReserveKeepsCache(env, bodies, c, budget, ProgramBytes(count), f, hooks);
      var c1 := Reserve(c, budget, ProgramBytes(count), f, hooks).0;
      var program := PrepareProgram(env, c.entries[f].index.opcodes[..count]);
      if program.Some? {
        ReserveKeepsCache(env, bodies, c1, budget, ProgramBytes(|program.value|), f, hooks);
        var c2 := Reserve(c1, budget, ProgramBytes(|program.value|), f, hooks).0;
        InstallKeepsCache(env, bodies, c2, f, program.value);
      }
    }
  }

  /** A reload succeeds exactly when the hook is there, the slot has an index, the hook hands the program
      over, and there is room; the slot then holds the program last spilled. Each failure has its code. */
  lemma LoadExactly(env: Env, bodies: seq<seq<byte>>, c: Cache, f: nat, budget: nat, hooks: Hooks)
    requires CacheOk(env, bodies, c) && f < |bodies|
    ensures var (c', status) := Load(c, f, budget, hooks);
            && status == (if !hooks.hasLoad || c.entries[f].index.slots == [] then InvalidArgument
                          else if f !in c.disk || !hooks.loadOk(f) then hooks.loadError
                          else if !HasRoom(c, budget, ProgramBytes(|c.disk[f]|), f) then OutOfMemory
                          else Ok)
            && (status == Ok ==> c'.entries[f].ready && !c'.entries[f].spilled && c'.entries[f].program == c.disk[f])
  {
    hide EntryOk, SumBytes, Reserve, PrepareProgram, HasRoom;
    if f in c.disk {
      assert FromPrefix(env, c.entries[f].index, c.disk[f]);
      ReserveExactly(env, bodies, c, budget, ProgramBytes(|c.disk[f]|), f, hooks);
    }
  }

  /** A preparation succeeds exactly when there are opcodes, room for them, and every one has something
      to run; the slot then holds the preparation of its first `count` opcodes. */
  lemma PrepareExactly(env: Env, bodies: seq<seq<byte>>, c: Cache, f: nat, count: nat, budget: nat, hooks: Hooks)
    requires CacheOk(env, bodies, c) && f < |bodies| && count <= |c.entries[f].index.opcodes|
    ensures var (c', done) := PrepareSlot(env, c, f, count, budget, hooks);
            var program := PrepareProgram(env, c.entries[f].index.opcodes[..count]);
            && (done <==> count > 0 && HasRoom(c, budget, ProgramBytes(count), f) && program.Some?)
            && (done ==> c'.entries[f].ready && !c'.entries[f].spilled && c'.entries[f].program == program.value)
  {
    hide CacheOk, Reserve, PrepareAll;
    CacheSize(env, bodies, c);
    if count > 0 {
      ReserveExactly(env, bodies, c, budget, ProgramBytes(count), f, hooks);
      var c1 := Reserve(c, budget, ProgramBytes(count), f, hooks).0;
      ReserveExactly(env, bodies, c1, budget, ProgramBytes(count), f, hooks);
    }
  }

  lemma PrefixSurvives(env: Env, ix: Index, ix': Index, program: seq<Prepared>)
    requires FromPrefix(env, ix, program) && ix.opcodes <= ix'.opcodes
    ensures FromPrefix(env, ix', program)
  {
    hide PrepareProgram;
    assert ix'.opcodes[..|program|] == ix.opcodes[..|program|];
  }

  lemma RecordKeepsCache(env: Env, bodies: seq<seq<byte>>, c: Cache, f: nat, pc: nat)
    requires CacheOk(env, bodies, c) && (f < |bodies| ==> pc < |bodies[f]|)
    ensures f < |bodies| ==> var c' := RecordAt(c, f, pc, bodies[f][pc]);
            CacheOk(env, bodies, c') && c'.bytes == c.bytes
  {
    hide IndexOk, FromPrefix, Record, SumBytes;
    if f < |bodies| {
      var e := c.entries[f];
      KeptShape(e.index, bodies[f]);
      RecordKeepsIndex(e.index, bodies[f], pc);
      var ix' := Record(e.index, e.bodySize, pc, bodies[f][pc]);
      if e.program != [] {
        PrefixSurvives(env, e.index, ix', e.program);
      }
      if f in c.disk {
        PrefixSurvives(env, e.index, ix', c.disk[f]);
      }
      PutKeepsCache(env, bodies, c, f, e.(index := ix'), c.bytes);
    }
  }

  lemma MaybePrepareKeepsCache(env: Env, bodies: seq<seq<byte>>, c: Cache, f: nat, micro: bool, maxOps: nat,
        budget: nat, hooks: Hooks)
    requires CacheOk(env, bodies, c)
    requires f < |c.entries| ==> (c.entries[f].index.slots == [] || |c.entries[f].index.slots| == c.entries[f].bodySize)
    ensures var c' := MaybePrepare(env, c, f, micro, maxOps, budget, hooks);
            && CacheOk(env, bodies, c') && Capped(c.bytes, c'.bytes, budget)
            && (forall i :: 0 <= i < |c.entries| ==> c'.entries[i].index == c.entries[i].index)
  {
    hide CacheOk, Load, PrepareSlot;
    CacheSize(env, bodies, c);
    if f < |bodies| {
      LoadKeepsCache(env, bodies, c, f, budget, hooks);
      var c' := if c.entries[f].spilled && hooks.hasLoad then Load(c, f, budget, hooks).0 else c;
      PrepareKeepsCache(env, bodies, c', f, ChunkSize(|c'.entries[f].index.opcodes|, maxOps), budget, hooks);
    }
  }

  /** Whether a slot's program comes back from the spill hooks. */
  predicate Reloads(c: Cache, f: nat, budget: nat, hooks: Hooks)
    requires f < |c.entries|
  {
    && c.entries[f].spilled && hooks.hasLoad && c.entries[f].index.slots != [] && f in c.disk && hooks.loadOk(f)
    && HasRoom(c, budget, ProgramBytes(|c.disk[f]|), f)
  }

  /** Whether the next chunk of a slot's opcodes can be prepared. */
  predicate Prepares(env: Env, c: Cache, f: nat, maxOps: nat, budget: nat)
    requires f < |c.entries|
  {
    var n := ChunkSize(|c.entries[f].index.opcodes|, maxOps);
    HasRoom(c, budget, ProgramBytes(n), f) && PrepareProgram(env, c.entries[f].index.opcodes[..n]).Some?
  }

  /** Where microcode is on and something is recorded, a slot is ready afterwards exactly when it was, or
      its program comes back, or there is room to prepare one. */
  lemma MaybePrepareExactly(env: Env, bodies: seq<seq<byte>>, c: Cache, f: nat, maxOps: nat, budget: nat, hooks: Hooks)
    requires CacheOk(env, bodies, c) && f < |bodies| && env.microcodeEnabled && c.entries[f].index.opcodes != []
    requires c.entries[f].index.slots == [] || |c.entries[f].index.slots| == c.entries[f].bodySize
    ensures MaybePrepare(env, c, f, true, maxOps, budget, hooks).entries[f].ready
            <==> c.entries[f].ready || Reloads(c, f, budget, hooks) || Prepares(env, c, f, maxOps, budget)
  {
    hide CacheOk, Load, PrepareSlot, PrepareProgram, HasRoom;
    CacheSize(env, bodies, c);
    LoadExactly(env, bodies, c, f, budget, hooks);
    LoadKeepsCache(env, bodies, c, f, budget, hooks);
    FailedLoadStays(env, bodies, c, f, budget, hooks);
    var c' := if c.entries[f].spilled && hooks.hasLoad then Load(c, f, budget, hooks).0 else c;
    var n := ChunkSize(|c.entries[f].index.opcodes|, maxOps);
    if c'.entries[f] == c.entries[f] {
      PrepareExactly(env, bodies, c', f, n, budget, hooks);
      FailedPrepareStays(env, bodies, c', f, n, budget, hooks);
      SameRoom(c, c', budget, ProgramBytes(n), f);
    }
  }

  lemma SameRoom(c: Cache, c': Cache, budget: nat, need: nat, f: nat)
    requires f < |c.entries| == |c'.entries| && c.entries[f] == c'.entries[f]
    ensures HasRoom(c, budget, need, f) == HasRoom(c', budget, need, f)
  {
  }

  lemma FailedLoadStays(env: Env, bodies: seq<seq<byte>>, c: Cache, f: nat, budget: nat, hooks: Hooks)
    requires CacheOk(env, bodies, c) && f < |c.entries|
    ensures Load(c, f, budget, hooks).1 != Ok ==> Load(c, f, budget, hooks).0.entries[f] == c.entries[f]
  {
    hide EntryOk, SumBytes, Reserve, HasRoom, Install, PrepareProgram;
    if f in c.disk {
      ReserveExactly(env, bodies, c, budget, ProgramBytes(|c.disk[f]|), f, hooks);
    }
  }

  lemma FailedPrepareStays(env: Env, bodies: seq<seq<byte>>, c: Cache, f: nat, count: nat, budget: nat, hooks: Hooks)
    requires CacheOk(env, bodies, c) && f < |c.entries| && count <= |c.entries[f].index.opcodes|
    ensures !PrepareSlot(env, c, f, count, budget, hooks).1 ==>
              PrepareSlot(env, c, f, count, budget, hooks).0.entries[f] == c.entries[f]
  {
    hide CacheOk, Reserve, HasRoom, Install, PrepareAll;
    if count > 0 {
      ReserveExactly(env, bodies, c, budget, ProgramBytes(count), f, hooks);
      ReserveExactly(env, bodies, Reserve(c, budget, ProgramBytes(count), f, hooks).0, budget, ProgramBytes(count), f,
                     hooks);
    }
  }

  /** How many opcodes a preparation takes: all, unless a limit is set and exceeded. */
  function Chunk(recorded: nat, maxOps: nat): nat {
    if 0 < maxOps < recorded then maxOps else recorded
  }

  /** What a slot holds after it was brought up to date. A program that comes back from the hooks is the
      one last spilled. Otherwise, unless everything recorded is prepared, it is the preparation of the
      first opcodes recorded, one by one, whatever was ready before; if there is no room or one of them
      has nothing to run, the slot is as it was. */
  predicate UpToDate(env: Env, c: Cache, f: nat, maxOps: nat, budget: nat, hooks: Hooks, after: Entry)
    requires f < |c.entries|
  {
    var before := c.entries[f];
    var opcodes, n := before.index.opcodes, Chunk(|before.index.opcodes|, maxOps);
    if Reloads(c, f, budget, hooks) then after.ready && !after.spilled && after.program == c.disk[f]
    else if before.ready && |before.program| == |opcodes| then after == before
    else if HasRoom(c, budget, n * 48, f) && (forall k :: 0 <= k < n ==> PrepareOp(env, opcodes[k]).Some?) then
      && after.ready && !after.spilled && |after.program| == n && after.bytes == n * 48
      && forall k :: 0 <= k < n ==> PrepareOp(env, opcodes[k]) == Some(after.program[k])
    else after == before
  }

  lemma MaybePrepareDoes(env: Env, bodies: seq<seq<byte>>, c: Cache, f: nat, maxOps: nat, budget: nat, hooks: Hooks)
    requires CacheOk(env, bodies, c) && f < |bodies| && env.microcodeEnabled && c.entries[f].index.opcodes != []
    requires c.entries[f].index.slots == [] || |c.entries[f].index.slots| == c.entries[f].bodySize
    ensures UpToDate(env, c, f, maxOps, budget, hooks, MaybePrepare(env, c, f, true, maxOps, budget, hooks).entries[f])
  {
    hide CacheOk, Load, PrepareSlot, PrepareProgram, PrepareOp, HasRoom, Reloads;
    CacheSize(env, bodies, c);
    LoadExactly(env, bodies, c, f, budget, hooks);
    LoadKeepsCache(env, bodies, c, f, budget, hooks);
    FailedLoadStays(env, bodies, c, f, budget, hooks);
    ReloadsExactly(env, bodies, c, f, budget, hooks);
    CountsAgree(env, bodies, c, f);
    var c' := if c.entries[f].spilled && hooks.hasLoad then Load(c, f, budget, hooks).0 else c;
    var n := Chunk(|c.entries[f].index.opcodes|, maxOps);
    if !Reloads(c, f, budget, hooks) {
      SameRoom(c, c', budget, ProgramBytes(n), f);
      PrepareSlotDoes(env, bodies, c', f, n, budget, hooks);
    }
  }

  lemma CountsAgree(env: Env, bodies: seq<seq<byte>>, c: Cache, f: nat)
    requires CacheOk(env, bodies, c) && f < |bodies|
    ensures |c.entries| == |bodies| && c.entries[f].preparedCount == |c.entries[f].program|
  {
    hide FromPrefix, IndexOk, SumBytes;
    assert EntryOk(env, bodies[f], c.entries[f]);
  }

  lemma ReloadsExactly(env: Env, bodies: seq<seq<byte>>, c: Cache, f: nat, budget: nat, hooks: Hooks)
    requires CacheOk(env, bodies, c) && f < |c.entries|
    ensures Reloads(c, f, budget, hooks)
            <==> c.entries[f].spilled && hooks.hasLoad && Load(c, f, budget, hooks).1 == Ok
  {
    hide CacheOk, Load, HasRoom;
    CacheSize(env, bodies, c);
    LoadExactly(env, bodies, c, f, budget, hooks);
  }

  /** A preparation puts in place, one by one, what the first `n` opcodes prepare to, or changes nothing
      about the slot. */
  lemma PrepareSlotDoes(env: Env, bodies: seq<seq<byte>>, c: Cache, f: nat, n: nat, budget: nat, hooks: Hooks)
    requires CacheOk(env, bodies, c) && f < |c.entries| && 0 < n <= |c.entries[f].index.opcodes|
    ensures var before, after := c.entries[f], PrepareSlot(env, c, f, n, budget, hooks).0.entries[f];
            var opcodes := before.index.opcodes;
            if HasRoom(c, budget, n * 48, f) && (forall k :: 0 <= k < n ==> PrepareOp(env, opcodes[k]).Some?) then
              && after.ready && !after.spilled && |after.program| == n && after.bytes == n * 48
              && forall k :: 0 <= k < n ==> PrepareOp(env, opcodes[k]) == Some(after.program[k])
            else after == before
  {
    hide CacheOk, Reserve, PrepareOp, HasRoom;
    CacheSize(env, bodies, c);
    FailedPrepareStays(env, bodies, c, f, n, budget, hooks);
    PrepareExactly(env, bodies, c, f, n, budget, hooks);
    var opcodes := c.entries[f].index.opcodes;
    assert forall k :: 0 <= k < n ==> opcodes[..n][k] == opcodes[k];
  }

  lemma LookupKeepsIndices(env: Env, bodies: seq<seq<byte>>, c: Cache, f: nat, pc: nat, micro: bool, budget: nat,
        hooks: Hooks)
    requires CacheOk(env, bodies, c)
    ensures var c' := Lookup(env, c, f, pc, micro, budget, hooks).0;
            |c'.entries| == |c.entries| && forall i :: 0 <= i < |c.entries| ==>
                c'.entries[i].index == c.entries[i].index
  {
    hide CacheOk, Load;
    CacheSize(env, bodies, c);
    if f < |bodies| {
      LoadKeepsCache(env, bodies, c, f, budget, hooks);
    }
  }

  /** When a lookup must hit, and with what: microcode is on, the position has been recorded, and its
      entry lies within the program the slot holds, or, if that was spilled, within the one that comes
      back. In every other case there is no hit. */
  lemma LookupExactly(env: Env, bodies: seq<seq<byte>>, c: Cache, f: nat, pc: nat, micro: bool, budget: nat,
        hooks: Hooks)
    requires CacheOk(env, bodies, c)
    ensures var hit := Lookup(env, c, f, pc, micro, budget, hooks).1;
            if !micro || !env.microcodeEnabled || f >= |bodies| || pc >= |c.entries[f].index.slots| then hit == None
            else
              var k, e := c.entries[f].index.slots[pc], c.entries[f];
              if e.ready then hit == if 0 <= k < |e.program| then Some(e.program[k]) else None
              else if Reloads(c, f, budget, hooks) then hit == if 0 <= k < |c.disk[f]| then Some(c.disk[f][k]) else None
              else hit == None
    ensures f < |bodies| && c.entries[f].ready ==> Lookup(env, c, f, pc, micro, budget, hooks).0 == c
  {
    hide CacheOk, Load, HasRoom;
    CacheSize(env, bodies, c);
    if f < |bodies| {
      LoadExactly(env, bodies, c, f, budget, hooks);
      LoadKeepsCache(env, bodies, c, f, budget, hooks);
    }
  }

  lemma CacheSize(env: Env, bodies: seq<seq<byte>>, c: Cache)
    requires CacheOk(env, bodies, c)
    ensures |c.entries| == |bodies|
  {
  }

  /** A hit in the cache is the preparation of the very byte the loop is about to run. */
  lemma LookupFindsBody(env: Env, bodies: seq<seq<byte>>, c: Cache, f: nat, pc: nat, micro: bool, budget: nat,
        hooks: Hooks)
    requires CacheOk(env, bodies, c)
    ensures var (c', hit) := Lookup(env, c, f, pc, micro, budget, hooks);
            && CacheOk(env, bodies, c') && Capped(c.bytes, c'.bytes, budget)
            && (hit.Some? ==> f < |bodies| && pc < |bodies[f]| && PrepareOp(env, bodies[f][pc]) == hit)
  {
    hide Load, SumBytes, PrepareOp;
    if f < |bodies| {
      LoadKeepsCache(env, bodies, c, f, budget, hooks);
      var (c', hit) := Lookup(env, c, f, pc, micro, budget, hooks);
      if hit.Some? {
        var e := c'.entries[f];
        var k := e.index.slots[pc];
        assert EntryOk(env, bodies[f], e);
        assert e.index.opcodes[..|e.program|][k] == bodies[f][pc];
      }
    }
  }
}
