/** The memory instructions as the interpreter runs them: on the linked operand stack and immediate
    window, and on memory records whose blocks come and go. Each is held to `LinearMemory.Handle`. */
module MemoryHandlers {
  import opened Core
  import opened RuntimeState
  import opened Spill
  import opened LinearMemory
  import opened MemoryObjects
  import opened OperandStack
  import opened Window
  import opened MemoryRuns

  class MemoryRuntime {
    const stack: JobStack
    const reg: ImmediateWindow
    const memories: seq<MemoryObject>
    const store: SpillStore
    const segments: seq<seq<byte>>
    const host: seq<array<byte>>
    var dropped: set<nat>

    ghost function Blocks(): set<array<byte>>
      reads this, memories
    {
      (set m | m in memories && m.data != null :: m.data as array<byte>) + (set b | b in host)
    }

    /** Every memory is its own record; a private block belongs to one of them and is no host's. */
    ghost predicate Shaped()
      reads this, memories, Blocks()
    {
      && (forall i, j :: 0 <= i < j < |memories| ==> memories[i] != memories[j])
      && (forall i, j :: 0 <= i < j < |host| ==> host[i] != host[j])
      && (forall i :: 0 <= i < |memories| ==> memories[i].Valid())
      && (forall i :: 0 <= i < |memories| && memories[i].data != null && !memories[i].ownsData ==>
            memories[i].hostId < |host| && memories[i].data == host[memories[i].hostId])
      && (forall i, k :: 0 <= i < |memories| && memories[i].data != null && memories[i].ownsData && 0 <= k < |host| ==>
            memories[i].data != host[k])
      && (forall i, j ::
          0 <= i < |memories| && 0 <= j < |memories| && i != j && memories[i].data != null && memories[i].ownsData ==>
            memories[j].data != memories[i].data)
    }

    ghost function Memories(): (s: seq<Memory>)
      reads this, memories, Blocks()
      ensures |s| == |memories| && forall i :: 0 <= i < |memories| ==> s[i] == memories[i].Snapshot()
    {
      seq(|memories|, i requires 0 <= i < |memories| reads this, memories, Blocks() => memories[i].Snapshot())
    }

    ghost function Buffers(): (s: seq<seq<byte>>)
      reads this, host
      ensures |s| == |host| && forall i :: 0 <= i < |host| ==> s[i] == host[i][..]
    {
      seq(|host|, i requires 0 <= i < |host| reads this, host => host[i][..])
    }

    ghost function WorldOf(): World
      reads this, memories, Blocks(), store
    {
      World(Memories(), Buffers(), segments, dropped, store.saved)
    }

    ghost function RegsOf(): Regs
      reads this, stack, stack.nodes, reg, reg.nodes
    {
      Regs(stack.Contents(), reg.Contents())
    }

    ghost predicate MemoriesValid()
      reads this, memories, Blocks(), store
    {
      Shaped() && Faithful(WorldOf())
    }

    ghost predicate RegsValid()
      reads this, stack, stack.nodes, reg, reg.nodes
    {
      stack.Valid() && reg.Valid()
    }

    constructor (stack: JobStack, reg: ImmediateWindow, memories: seq<MemoryObject>, store: SpillStore,
                 segments: seq<seq<byte>>, host: seq<array<byte>>)
      ensures this.stack == stack && this.reg == reg && this.memories == memories && this.store == store
      ensures this.segments == segments && this.host == host && dropped == {}
    {
      this.stack, this.reg, this.memories, this.store, this.segments, this.host :=
          stack, reg, memories, store, segments, host;
      dropped := {};
    }

    /** What does not touch records, blocks or the hooks' store does not touch the memories. */
    twostate lemma MemoriesFramed()
      requires unchanged(this) && unchanged(store)
      requires forall m :: m in memories ==> unchanged(m)
      requires forall b :: b in old(Blocks()) ==> unchanged(b)
      ensures Blocks() == old(Blocks()) && WorldOf() == old(WorldOf()) && MemoriesValid() == old(MemoriesValid())
    {
      forall i | 0 <= i < |memories|
        ensures memories[i].Snapshot() == old(memories[i].Snapshot()) && memories[i].Valid() == old(memories[i].Valid())
        ensures memories[i].data == old(memories[i].data)
      {
        assert memories[i] in memories;
        assert memories[i].data != null ==> memories[i].data in old(Blocks());
      }
      forall i | 0 <= i < |host|
        ensures host[i][..] == old(host[i][..])
      {
        assert host[i] in old(Blocks());
      }
      assert Memories() == old(Memories()) && Buffers() == old(Buffers());
      assert Shaped() == old(Shaped());
    }

    /** What touches neither stack, window nor their nodes does not touch the registers. */
    twostate lemma RegsFramed()
      requires unchanged(stack) && unchanged(reg)
      requires (forall x :: x in old(stack.nodes) ==> unchanged(x))
               && (forall x :: x in old(reg.nodes) ==> unchanged(x))
      ensures RegsOf() == old(RegsOf()) && RegsValid() == old(RegsValid())
    {
      forall i | 0 <= i < |stack.nodes|
        ensures unchanged(stack.nodes[i])
      {
        assert stack.nodes[i] in old(stack.nodes);
      }
      forall i | 0 <= i < |reg.nodes|
        ensures unchanged(reg.nodes[i])
      {
        assert reg.nodes[i] in old(reg.nodes);
      }
      assert stack.Contents() == old(stack.Contents()) && reg.Contents() == old(reg.Contents());
      assert stack.Valid() == old(stack.Valid()) && reg.Valid() == old(reg.Valid());
    }

    lemma OwnRecord(i: nat)
      requires Shaped() && i < |memories|
      ensures memories[i].Valid() && forall k :: 0 <= k < |memories| && k != i ==> memories[k] != memories[i]
    {
    }

    /** One record changes, and its block at most for a new one of its own or none. */
    twostate predicate OnlyRecord(new i: nat)
      requires i < |memories|
      reads this, memories, Blocks()
    {
      && (forall k :: 0 <= k < |memories| && k != i ==> unchanged(memories[k]))
      && memories[i].Valid() && memories[i].ownsData == old(memories[i].ownsData)
      && memories[i].hostId == old(memories[i].hostId)
      && (memories[i].data == old(memories[i].data) || memories[i].data == null
          || (memories[i].ownsData && fresh(memories[i].data)))
    }

    twostate lemma StillShaped(i: nat)
      requires i < |memories| && old(Shaped()) && unchanged(this) && OnlyRecord(i)
      requires forall b :: b in old(Blocks()) ==> unchanged(b)
      ensures Shaped() && forall b :: b in Blocks() ==> b in old(Blocks()) || (b == memories[i].data && fresh(b))
    {
      hide Memories, Buffers;
      assert forall k :: 0 <= k < |memories| ==> memories[k] in memories;
      assert forall k :: 0 <= k < |memories| && memories[k].data != null && k != i ==>
               memories[k].data in old(Blocks());
    }

    twostate lemma OneMemoryChanges(i: nat)
      requires i < |memories| && old(Shaped()) && unchanged(this) && OnlyRecord(i)
      requires forall b :: b in old(Blocks()) ==> unchanged(b)
      ensures Shaped() && Buffers() == old(Buffers())
      ensures Memories() == old(Memories())[i := memories[i].Snapshot()]
      ensures forall b :: b in Blocks() ==> b in old(Blocks()) || (b == memories[i].data && fresh(b))
    {
      hide Shaped;
      StillShaped(i);
      assert forall k :: 0 <= k < |memories| ==> memories[k] in memories;
      assert forall k :: 0 <= k < |memories| && memories[k].data != null && k != i ==>
               memories[k].data in old(Blocks());
      assert forall k :: 0 <= k < |host| ==> host[k] in old(Blocks());
    }

    /** The guard of a memory instruction: the memory exists and has its bytes. */
    method RequireAt(i: nat, hooks: MemoryHooks) returns (status: Status)
      requires MemoriesValid()
      modifies memories
      ensures MemoriesValid() && fresh(Blocks() - old(Blocks()))
      ensures (WorldOf(), status) == Require(old(WorldOf()), i, hooks)
    {
      hide Shaped, Restored, Restore, LinearMemory.EnsureLoaded, JobStack.Valid, ImmediateWindow.Valid;
      ghost var w := WorldOf();
      RequireKeepsFaithful(w, i, hooks);
      if i >= |memories| {
        return Trap;
      }
      assert MemoryOk(w, i);
      OwnRecord(i);
      status := memories[i].EnsureLoaded(i, store, hooks);
      OneMemoryChanges(i);
    }

    /** A spill request from the embedder. */
    method SpillMemory(i: nat, hooks: MemoryHooks) returns (status: Status)
      requires MemoriesValid()
      modifies memories, store
      ensures MemoriesValid() && Blocks() <= old(Blocks())
      ensures WorldOf() == Serve(old(WorldOf()), Request.SpillMemory(i), hooks)
      ensures status == if i >= |memories| then InvalidArgument else Offload(old(WorldOf()).memories[i], hooks).2
      ensures SpillOutcome(old(WorldOf()), i, hooks, WorldOf(), status)
    {
      hide Shaped, Restored, Restore, Faithful, SpillOutcome;
      ghost var w := WorldOf();
      SpillDoes(w, i, hooks);
      ServeIsInvisible(w, Request.SpillMemory(i), hooks);
      if i >= |memories| {
        return InvalidArgument;
      }
      OwnRecord(i);
      status := memories[i].Spill(i, store, hooks);
      OneMemoryChanges(i);
    }

    /** A load request from the embedder. */
    method LoadMemory(i: nat, hooks: MemoryHooks) returns (status: Status)
      requires MemoriesValid()
      modifies memories
      ensures MemoriesValid() && fresh(Blocks() - old(Blocks()))
      ensures WorldOf() == Serve(old(WorldOf()), Request.LoadMemory(i), hooks)
      ensures status == if i >= |memories| then InvalidArgument
                        else LinearMemory.Load(old(WorldOf()).memories[i], Saved(old(WorldOf()), i), hooks).1
      ensures LoadOutcome(old(WorldOf()), i, hooks, WorldOf(), status)
    {
      hide Shaped, Restored, Restore, LinearMemory.Load, LoadOutcome;
      ghost var w := WorldOf();
      LoadDoes(w, i, hooks);
      ServeIsInvisible(w, Request.LoadMemory(i), hooks);
      if i >= |memories| {
        return InvalidArgument;
      }
      assert MemoryOk(w, i);
      OwnRecord(i);
      status := memories[i].Load(i, store, hooks);
      OneMemoryChanges(i);
    }

    /** Pops `n` immediates, or as many as there are. */
    method TakeImms(n: nat) returns (imms: seq<nat>)
      requires RegsValid()
      modifies reg, reg.nodes
      ensures reg.Valid() && reg.nodes <= old(reg.nodes)
      ensures (RegsOf(), imms) == PopImms(old(RegsOf()), n)
    {
      hide ImmediateWindow.Valid, ImmediateWindow.Contents, JobStack.Valid, JobStack.Contents, PopImms;
      imms := [];
      var left := n;
      ghost var result := PopImms(RegsOf(), n);
      assert [] + result.1 == result.1;
      while left > 0
        invariant reg.Valid() && reg.nodes <= old(reg.nodes)
        invariant result == Behind(imms, PopImms(RegsOf(), left))
      {
        ghost var before := RegsOf();
        var imm := reg.Pop();
        PopImmsTurn(imms, before, left, imm, RegsOf());
        if imm.None? {
          break;
        }
        imms, left := imms + [imm.value.bits % TWO_64], left - 1;
      }
      PopImmsEnd(RegsOf(), left);
      assert imms + [] == imms;
    }

    /** Pops an address, index or length; a value of another kind goes back. */
    method TakeIndex(is64: bool) returns (out: Option<nat>)
      requires RegsValid()
      modifies stack, stack.nodes
      ensures RegsValid()
              && (forall k :: 0 <= k < |stack.nodes| ==> stack.nodes[k] in old(stack.nodes) || fresh(stack.nodes[k]))
      ensures var r := PopIndex(old(RegsOf()), is64);
              if r.None? then out.None? && RegsOf() == old(RegsOf())
                  else out == Some(r.value.1) && RegsOf() == r.value.0
    {
      hide ImmediateWindow.Valid, ImmediateWindow.Contents, JobStack.Valid, JobStack.Contents;
      ghost var before := RegsOf();
      var v := stack.Pop();
      if v.None? {
        return None;
      }
      assert before.stack == RegsOf().stack + [v.value];
      if is64 && v.value.I64? {
        return Some(v.value.bits % TWO_64);
      }
      if !is64 && v.value.I32? {
        return Some(v.value.bits % TWO_32);
      }
      stack.Push(v.value);
      return None;
    }

    /** Copies bytes into the block of a memory; no other memory sees it unless it shares the buffer. */
    method WriteAt(i: nat, addr: nat, bytes: seq<byte>)
      requires MemoriesValid() && i < |memories| && MemoryOk(WorldOf(), i)
               && InBounds(WorldOf().memories[i], addr, |bytes|)
      modifies memories[i].data
      ensures MemoriesValid() && Blocks() == old(Blocks())
      ensures WorldOf() == LinearMemory.Write(old(WorldOf()), i, addr, bytes)
    {
      hide Overwrite;
      ghost var w := WorldOf();
      var m := memories[i];
      if |bytes| == 0 {
        return;
      }
      m.Write(addr, bytes);
      if m.ownsData {
        assert Buffers() == w.host;
        assert Memories() == w.memories[i := m.Snapshot()];
      } else {
        assert Memories() == w.memories;
        assert Buffers() == w.host[m.hostId := m.data[..]];
      }
      WriteKeepsFaithful(w, i, addr, bytes);
    }

    /** The bytes of a stretch of a memory, for a move through a temporary. */
    method CopyOut(i: nat, src: nat, n: nat) returns (bytes: seq<byte>)
      requires MemoriesValid() && i < |memories| && MemoryOk(WorldOf(), i) && InBounds(WorldOf().memories[i], src, n)
               && n > 0
      ensures src + n <= |LinearMemory.Contents(WorldOf(), i)|
              && bytes == LinearMemory.Contents(WorldOf(), i)[src..src + n]
    {
      BlockIsContents(i);
      bytes := memories[i].data[src..src + n];
      assert memories[i].data[..memories[i].size][src..src + n] == bytes;
    }

    /** Grows a memory; its other fields and all other memories stay. */
    method GrowAt(i: nat, delta: nat) returns (pages: nat, grew: bool)
      requires MemoriesValid() && i < |memories| && !memories[i].isSpilled && delta < TWO_64
      modifies memories[i]
      ensures MemoriesValid() && fresh(Blocks() - old(Blocks()))
      ensures var (m, p, g) := LinearMemory.Grow(old(WorldOf()).memories[i], delta);
              WorldOf() == old(WorldOf()).(memories := old(WorldOf()).memories[i := m]) && pages == p && grew == g
    {
      hide Shaped, LinearMemory.Grow, Restored, Restore, JobStack.Valid, ImmediateWindow.Valid, JobStack.Contents;
      ghost var w := WorldOf();
      assert MemoryOk(w, i);
      OwnRecord(i);
      pages, grew := memories[i].Grow(delta);
      OneMemoryChanges(i);
      GrowKeepsFaithful(w, i, delta);
    }

    /** Pops what a store holds and the immediates; a store's value goes back when they run out. */
    method TakeOperands(op: Op) returns (ok: bool, held: Option<Value>, imms: seq<nat>)
      requires RegsValid()
      modifies stack, stack.nodes, reg, reg.nodes
      ensures RegsValid()
              && (forall k :: 0 <= k < |stack.nodes| ==> stack.nodes[k] in old(stack.nodes) || fresh(stack.nodes[k]))
              && reg.nodes <= old(reg.nodes)
      ensures var (r, c) := Begin(op, |memories|, old(RegsOf()));
              RegsOf() == r && ok == c.Some?
                  && (ok ==> CallOk(op, c.value) && c.value == Call(r, held, imms, c.value.needs))
    {
      hide JobStack.Valid, JobStack.Contents, ImmediateWindow.Valid, ImmediateWindow.Contents, PopImms;
      ghost var r := RegsOf();
      ok, held, imms := false, None, [];
      if (op.SizeOp? || op.GrowOp?) && |memories| == 0 {
        return;
      }
      if op.StoreOp? {
        held := stack.Pop();
        if held.None? {
          return;
        }
        assert r.stack == RegsOf().stack + [held.value];
        assert r.stack[..|r.stack| - 1] == RegsOf().stack;
      }
      var n := ImmCount(op, |memories|);
      imms := TakeImms(n);
      if |imms| < n {
        PutHeld(held);
        return;
      }
      ok := true;
    }

    /** Operands, then memories: from here on the instruction only acts. */
    method Start(fl: Floats, op: Op, hooks: MemoryHooks) returns (status: Status, held: Option<Value>, imms: seq<nat>)
      requires MemoriesValid() && RegsValid() && OpOk(op)
      modifies memories, stack, stack.nodes, reg, reg.nodes
      ensures MemoriesValid() && RegsValid() && fresh(Blocks() - old(Blocks()))
      ensures forall k :: 0 <= k < |stack.nodes| ==> stack.nodes[k] in old(stack.nodes) || fresh(stack.nodes[k])
      ensures if status != Ok then Handled(fl, op, hooks, old(RegsOf()), old(WorldOf()), RegsOf(), WorldOf(), status)
              else Begun(fl, op, hooks, old(RegsOf()), old(WorldOf()), RegsOf(), held, imms, WorldOf())
    {
      hide Handled, Begun, CallOk, JobStack.Valid, JobStack.Contents, ImmediateWindow.Valid, ImmediateWindow.Contents,
           Shaped, Faithful, RequireAll, Begin, RegsOf;
      ghost var w, r := WorldOf(), RegsOf();
      var ok;
      ok, held, imms := TakeOperands(op);
      MemoriesFramed();
      assert |w.memories| == |memories|;
      if !ok {
        RefusedAtOnce(fl, op, hooks, r, w);
        return Trap, held, imms;
      }
      ThenGuarded(fl, op, hooks, r, w, RegsOf(), held, imms);
      status := Guard(Needs(op, imms), held, hooks);
    }

    /** The guards; when one fails, what a store holds goes back. */
    method Guard(needs: seq<nat>, held: Option<Value>, hooks: MemoryHooks) returns (status: Status)
      requires MemoriesValid() && RegsValid()
      modifies memories, stack, stack.nodes
      ensures MemoriesValid() && RegsValid() && fresh(Blocks() - old(Blocks()))
      ensures forall k :: 0 <= k < |stack.nodes| ==> stack.nodes[k] in old(stack.nodes) || fresh(stack.nodes[k])
      ensures (WorldOf(), status) == RequireAll(old(WorldOf()), needs, hooks)
      ensures RegsOf() == if status == Ok then old(RegsOf()) else LinearMemory.PutBack(old(RegsOf()), held)
    {
      hide RequireAll, LinearMemory.PutBack, JobStack.Valid, JobStack.Contents, ImmediateWindow.Valid,
           ImmediateWindow.Contents, Shaped, Faithful, WorldOf, MemoriesValid, RegsOf;
      status := RequireEach(needs, hooks);
      RegsFramed();
      if status != Ok {
        label Refused:
        PutHeld(held);
        MemoriesFramed@Refused();
      }
    }

    method PutHeld(held: Option<Value>)
      requires stack.Valid()
      modifies stack, stack.nodes
      ensures stack.Valid()
              && (forall k :: 0 <= k < |stack.nodes| ==> stack.nodes[k] in old(stack.nodes) || fresh(stack.nodes[k]))
      ensures RegsOf() == LinearMemory.PutBack(old(RegsOf()), held)
    {
      if held.Some? {
        stack.Push(held.value);
      }
    }

    /** The guards of an instruction, one memory after the other. */
    method RequireEach(needs: seq<nat>, hooks: MemoryHooks) returns (status: Status)
      requires MemoriesValid()
      modifies memories
      ensures MemoriesValid() && fresh(Blocks() - old(Blocks()))
      ensures (WorldOf(), status) == RequireAll(old(WorldOf()), needs, hooks)
    {
      hide Require, JobStack.Valid, JobStack.Contents, ImmediateWindow.Valid, Shaped, Faithful;
      for i := 0 to |needs|
        invariant MemoriesValid() && fresh(Blocks() - old(Blocks()))
        invariant RequireAll(old(WorldOf()), needs, hooks) == RequireAll(WorldOf(), needs[i..], hooks)
      {
        assert needs[i..][1..] == needs[i + 1..];
        status := RequireAt(needs[i], hooks);
        if status != Ok {
          return;
        }
      }
      status := Ok;
    }

    // ----------------------------------------------------- what they do then

    /** The bounds check on the record itself. */
    predicate CheckBounds(i: nat, addr: nat, n: nat)
      requires i < |memories|
      reads memories
    {
      var m := memories[i];
      m.data != null && (n == 0 || (n <= TWO_64 - 1 && addr <= TWO_64 - 1 - n && addr + n <= m.size))
    }

    lemma BoundsShow(i: nat, addr: nat, n: nat)
      requires i < |memories|
      ensures CheckBounds(i, addr, n) == InBounds(WorldOf().memories[i], addr, n)
    {
    }

    /** Reads bytes of a memory as a number. */
    method ReadAt(i: nat, addr: nat, n: nat) returns (raw: nat)
      requires MemoriesValid() && i < |memories| && MemoryOk(WorldOf(), i) && InBounds(WorldOf().memories[i], addr, n)
               && n > 0
      ensures addr + n <= |LinearMemory.Contents(WorldOf(), i)|
      ensures raw == LittleEndian(LinearMemory.Contents(WorldOf(), i)[addr..addr + n])
    {
      hide LittleEndian;
      BlockIsContents(i);
      assert memories[i].data[..memories[i].size][addr..addr + n] == memories[i].data[addr..addr + n];
      raw := memories[i].Read(addr, n);
      MemoriesFramed();
    }

    lemma BlockIsContents(i: nat)
      requires MemoriesValid() && i < |memories| && MemoryOk(WorldOf(), i) && memories[i].data != null
      ensures LinearMemory.Contents(WorldOf(), i) == memories[i].data[..memories[i].size]
    {
      assert WorldOf().memories[i] == memories[i].Snapshot();
    }

    method PushValue(v: Value)
      requires RegsValid()
      modifies stack, stack.nodes
      ensures RegsValid()
              && (forall k :: 0 <= k < |stack.nodes| ==> stack.nodes[k] in old(stack.nodes) || fresh(stack.nodes[k]))
      ensures RegsOf() == LinearMemory.Push(old(RegsOf()), v)
    {
      hide JobStack.Valid, JobStack.Contents, ImmediateWindow.Valid, ImmediateWindow.Contents;
      stack.Push(v);
    }

    /** Pops an address, adds the offset, and checks the bytes there; `None` when any of it fails. */
    method Locate(i: nat, offset: nat, n: nat) returns (at: Option<nat>)
      requires MemoriesValid() && RegsValid() && i < |memories| && MemoryOk(WorldOf(), i)
      modifies stack, stack.nodes
      ensures RegsValid()
              && (forall k :: 0 <= k < |stack.nodes| ==> stack.nodes[k] in old(stack.nodes) || fresh(stack.nodes[k]))
      ensures MemoriesValid() && WorldOf() == old(WorldOf()) && Blocks() == old(Blocks())
      ensures var m, r := WorldOf().memories[i], PopIndex(old(RegsOf()), WorldOf().memories[i].is64);
              if r.None? then at.None? && RegsOf() == old(RegsOf())
              else RegsOf() == r.value.0 &&
                   at == if r.value.1 + offset >= TWO_64 || !InBounds(m, r.value.1 + offset, n) then None
                       else Some(r.value.1 + offset)
    {
      hide JobStack.Valid, JobStack.Contents, ImmediateWindow.Valid, ImmediateWindow.Contents, Shaped, Faithful,
           PopIndex, InBounds, MemoryOk, RegsOf;
      assert WorldOf().memories[i].is64 == memories[i].is64;
      var base := TakeIndex(memories[i].is64);
      MemoriesFramed();
      if base.None? {
        return None;
      }
      var addr := base.value + offset;
      if addr >= TWO_64 {
        return None;
      }
      BoundsShow(i, addr, n);
      return if CheckBounds(i, addr, n) then Some(addr) else None;
    }

    method LoadActs(fl: Floats, a: Access, i: nat, offset: nat, ghost c: Call) returns (status: Status)
      requires MemoriesValid() && RegsValid() && AccessOk(a) && i < |memories| && MemoryOk(WorldOf(), i)
      requires c.regs == RegsOf() && |c.imms| > 0 && offset == c.imms[0]
      modifies stack, stack.nodes
      ensures MemoriesValid() && RegsValid() && Blocks() == old(Blocks())
      ensures (RegsOf(), WorldOf(), status) == LoadAct(fl, a, c, old(WorldOf()), i)
    {
      hide RegsValid, MemoriesValid, PopIndex, InBounds, LoadedValue, LinearMemory.Contents, MemoryOk, RegsOf,
           WorldOf, LittleEndian;
      var at := Locate(i, offset, a.bits / 8);
      if at.None? {
        return Trap;
      }
      var raw := ReadAt(i, at.value, a.bits / 8);
      PushValue(LoadedValue(fl, a, raw));
      MemoriesFramed();
      return Ok;
    }

    method StoreActs(fl: Floats, a: Access, i: nat, offset: nat, held: Option<Value>, ghost c: Call)
      returns (status: Status)
      requires MemoriesValid() && RegsValid() && AccessOk(a) && i < |memories| && MemoryOk(WorldOf(), i)
      requires c.regs == RegsOf() && |c.imms| > 0 && offset == c.imms[0] && held.Some? && c.held == held
      modifies stack, stack.nodes, memories[i].data
      ensures MemoriesValid() && RegsValid() && Blocks() == old(Blocks())
      ensures (RegsOf(), WorldOf(), status) == StoreAct(fl, a, c, old(WorldOf()), i)
    {
      hide RegsValid, MemoriesValid, PopIndex, InBounds, LinearMemory.Contents, MemoryOk, RegsOf, WorldOf,
           LinearMemory.Write, StoredBytes;
      var at := Locate(i, offset, a.bits / 8);
      var bytes := StoredBytes(fl, a, held.value);
      if at.None? || bytes.None? {
        PushValue(held.value);
        MemoriesFramed();
        return Trap;
      }
      label Located:
      WriteAt(i, at.value, bytes.value);
      RegsFramed@Located();
      return Ok;
    }

    method SizeActs(i: nat, ghost c: Call) returns (status: Status)
      requires MemoriesValid() && RegsValid() && c.regs == RegsOf()
      modifies stack, stack.nodes
      ensures MemoriesValid() && RegsValid() && Blocks() == old(Blocks()) && WorldOf() == old(WorldOf())
      ensures if i >= |memories| then status == Trap && RegsOf() == old(RegsOf())
              else var m := WorldOf().memories[i];
                   if !m.is64 && m.size / PAGE_SIZE >= TWO_32 then status == Unsupported && RegsOf() == old(RegsOf())
                   else
                     status == Ok &&
                     RegsOf() == LinearMemory.Push(old(RegsOf()), PagesValue(m.is64, m.size / PAGE_SIZE))
    {
      hide RegsValid, MemoriesValid, RegsOf, PagesValue;
      if i >= |memories| {
        return Trap;
      }
      var m := memories[i];
      if !m.is64 && m.size / PAGE_SIZE >= TWO_32 {
        return Unsupported;
      }
      PushValue(PagesValue(m.is64, m.size / PAGE_SIZE));
      MemoriesFramed();
      return Ok;
    }

    method PopValue() returns (out: Option<Value>)
      requires RegsValid()
      modifies stack, stack.nodes
      ensures RegsValid()
              && (forall k :: 0 <= k < |stack.nodes| ==> stack.nodes[k] in old(stack.nodes) || fresh(stack.nodes[k]))
      ensures var p := LinearMemory.Pop(old(RegsOf()));
              if p.None? then out.None? && RegsOf() == old(RegsOf())
                  else out == Some(p.value.1) && RegsOf() == p.value.0
    {
      hide JobStack.Valid, JobStack.Contents, ImmediateWindow.Valid, ImmediateWindow.Contents;
      ghost var before := RegsOf();
      out := stack.Pop();
      if out.Some? {
        assert before.stack == RegsOf().stack + [out.value];
        assert before.stack[..|before.stack| - 1] == RegsOf().stack;
      }
    }

    lemma WorldShows(i: nat)
      requires i < |memories|
      ensures |WorldOf().memories| == |memories| && WorldOf().memories[i] == memories[i].Snapshot()
    {
    }

    /** Takes the page count of a grow, which is consumed even when it has the wrong kind. */
    method TakeDelta(is64: bool) returns (delta: Option<Value>)
      requires RegsValid()
      modifies stack, stack.nodes
      ensures RegsValid()
              && (forall k :: 0 <= k < |stack.nodes| ==> stack.nodes[k] in old(stack.nodes) || fresh(stack.nodes[k]))
      ensures var p := LinearMemory.Pop(old(RegsOf()));
              RegsOf() == (if p.None? then old(RegsOf()) else p.value.0) &&
              delta == if p.Some? && (if is64 then p.value.1.I64? else p.value.1.I32?) then Some(p.value.1) else None
    {
      hide RegsValid, RegsOf, LinearMemory.Pop;
      delta := PopValue();
      if delta.Some? && ((is64 && !delta.value.I64?) || (!is64 && !delta.value.I32?)) {
        return None;
      }
    }

    method GrowActs(fl: Floats, i: nat, ghost c: Call) returns (status: Status)
      requires MemoriesValid() && RegsValid() && i < |memories| && !WorldOf().memories[i].isSpilled
               && c.regs == RegsOf()
      modifies stack, stack.nodes, memories[i]
      ensures MemoriesValid() && RegsValid() && fresh(Blocks() - old(Blocks()))
      ensures (RegsOf(), WorldOf(), status) == GrowAct(fl, c, old(WorldOf()), i)
    {
      hide RegsValid, MemoriesValid, RegsOf, WorldOf, LinearMemory.Grow, LinearMemory.Pop, LinearMemory.Push,
           PagesValue;
      WorldShows(i);
      var delta := TakeDelta(memories[i].is64);
      MemoriesFramed();
      if delta.None? {
        return Trap;
      }
      if !memories[i].is64 && memories[i].size / PAGE_SIZE >= TWO_32 {
        return Unsupported;
      }
      var pages, grew := GrowAnswer(i, memories[i].is64, ToU64(fl, delta.value).value);
      return Ok;
    }

    method GrowAnswer(i: nat, is64: bool, delta: nat) returns (pages: nat, grew: bool)
      requires MemoriesValid() && RegsValid() && i < |memories| && !WorldOf().memories[i].isSpilled && delta < TWO_64
      modifies stack, stack.nodes, memories[i]
      ensures MemoriesValid() && RegsValid() && fresh(Blocks() - old(Blocks()))
      ensures var (m, p, g) := LinearMemory.Grow(old(WorldOf()).memories[i], delta);
              && WorldOf() == old(WorldOf()).(memories := old(WorldOf()).memories[i := m])
              && RegsOf() == LinearMemory.Push(old(RegsOf()),
                   if g then PagesValue(is64, p) else if is64 then I64(TWO_64 - 1) else I32(TWO_32 - 1))
    {
      hide RegsValid, MemoriesValid, RegsOf, WorldOf, LinearMemory.Grow, LinearMemory.Push, PagesValue;
      WorldShows(i);
      pages, grew := GrowAt(i, delta);
      RegsFramed();
      label Grown:
      PushValue(if grew then PagesValue(is64, pages) else if is64 then I64(TWO_64 - 1) else I32(TWO_32 - 1));
      MemoriesFramed@Grown();
    }

    /** Pops three operands of the given address types, last pushed first. */
    method TakeThree(a: bool, b: bool, c: bool) returns (out: Option<(nat, nat, nat)>)
      requires RegsValid()
      modifies stack, stack.nodes
      ensures RegsValid()
              && (forall k :: 0 <= k < |stack.nodes| ==> stack.nodes[k] in old(stack.nodes) || fresh(stack.nodes[k]))
      ensures (RegsOf(), out) == PopThree(old(RegsOf()), a, b, c)
    {
      hide RegsValid, RegsOf, PopIndex;
      var first := TakeIndex(a);
      if first.None? {
        return None;
      }
      var second := TakeIndex(b);
      if second.None? {
        return None;
      }
      var third := TakeIndex(c);
      if third.None? {
        return None;
      }
      return Some((first.value, second.value, third.value));
    }

    method InitActs(i: nat, data: nat, ghost c: Call) returns (status: Status)
      requires MemoriesValid() && RegsValid() && i < |memories| && MemoryOk(WorldOf(), i)
      requires c.regs == RegsOf() && |c.imms| > 1 && data == c.imms[1]
      modifies stack, stack.nodes, memories[i].data
      ensures MemoriesValid() && RegsValid() && Blocks() == old(Blocks())
      ensures (RegsOf(), WorldOf(), status) == InitAct(c, old(WorldOf()), i)
    {
      hide RegsValid, MemoriesValid, PopIndex, InBounds, LinearMemory.Contents, MemoryOk, RegsOf, WorldOf,
           LinearMemory.Write;
      WorldShows(i);
      SegmentsShow();
      if data >= |segments| || data in dropped {
        return Trap;
      }
      var is64 := memories[i].is64;
      var three := TakeThree(is64, is64, is64);
      MemoriesFramed();
      if three.None? {
        return Trap;
      }
      var (length, src, dst) := three.value;
      if src + length >= TWO_64 || src + length > |segments[data]| {
        return Trap;
      }
      BoundsShow(i, dst, length);
      if !CheckBounds(i, dst, length) {
        return Trap;
      }
      label Taken:
      WriteAt(i, dst, segments[data][src..src + length]);
      RegsFramed@Taken();
      return Ok;
    }

    lemma SegmentsShow()
      ensures WorldOf().segments == segments && WorldOf().dropped == dropped && |WorldOf().memories| == |memories|
    {
    }

    method FillActs(i: nat, ghost c: Call) returns (status: Status)
      requires MemoriesValid() && RegsValid() && i < |memories| && MemoryOk(WorldOf(), i) && c.regs == RegsOf()
      modifies stack, stack.nodes, memories[i].data
      ensures MemoriesValid() && RegsValid() && Blocks() == old(Blocks())
      ensures (RegsOf(), WorldOf(), status) == FillAct(c, old(WorldOf()), i)
    {
      hide RegsValid, MemoriesValid, PopIndex, InBounds, LinearMemory.Contents, MemoryOk, RegsOf, WorldOf,
           LinearMemory.Write;
      WorldShows(i);
      var three := TakeThree(memories[i].is64, false, memories[i].is64);
      MemoriesFramed();
      if three.None? {
        return Trap;
      }
      var (length, value, dst) := three.value;
      BoundsShow(i, dst, length);
      if !CheckBounds(i, dst, length) {
        return Trap;
      }
      label Taken:
      WriteAt(i, dst, seq(length, _ => value % 256));
      RegsFramed@Taken();
      return Ok;
    }

    /** Moves bytes between two memories, which may be one or share a buffer. */
    method MoveAt(i: nat, j: nat, src: nat, dst: nat, n: nat)
      requires MemoriesValid() && i < |memories| && MemoryOk(WorldOf(), i) && InBounds(WorldOf().memories[i], src, n)
      requires j < |memories| && MemoryOk(WorldOf(), j) && InBounds(WorldOf().memories[j], dst, n)
      modifies memories[j].data
      ensures MemoriesValid() && Blocks() == old(Blocks())
      ensures n > 0 ==> src + n <= |LinearMemory.Contents(old(WorldOf()), i)|
      ensures WorldOf() == LinearMemory.Write(old(WorldOf()), j, dst,
                if n == 0 then [] else LinearMemory.Contents(old(WorldOf()), i)[src..src + n])
    {
      hide MemoriesValid, LinearMemory.Contents, MemoryOk, WorldOf, LinearMemory.Write, InBounds;
      var bytes := [];
      if n > 0 {
        bytes := CopyOut(i, src, n);
        MemoriesFramed();
      }
      WriteAt(j, dst, bytes);
    }

    method CopyActs(i: nat, j: nat, ghost c: Call) returns (status: Status)
      requires MemoriesValid() && RegsValid() && i < |memories| && MemoryOk(WorldOf(), i) && c.regs == RegsOf()
      requires j < |memories| && MemoryOk(WorldOf(), j)
      modifies stack, stack.nodes, memories[j].data
      ensures MemoriesValid() && RegsValid() && Blocks() == old(Blocks())
      ensures (RegsOf(), WorldOf(), status) == CopyAct(c, old(WorldOf()), i, j)
    {
      hide RegsValid, MemoriesValid, PopIndex, InBounds, LinearMemory.Contents, MemoryOk, RegsOf, WorldOf,
           LinearMemory.Write, CopyAct, PopThree;
      WorldShows(i);
      WorldShows(j);
      CopyTakesThree(c, WorldOf(), i, j);
      var three := TakeThree(memories[i].is64 || memories[j].is64, memories[i].is64, memories[j].is64);
      MemoriesFramed();
      if three.None? {
        return Trap;
      }
      var (length, src, dst) := three.value;
      BoundsShow(i, src, length);
      BoundsShow(j, dst, length);
      if !CheckBounds(i, src, length) || !CheckBounds(j, dst, length) {
        return Trap;
      }
      label Taken:
      MoveAt(i, j, src, dst, length);
      RegsFramed@Taken();
      return Ok;
    }

    method DropActs(data: nat, ghost c: Call) returns (status: Status)
      requires MemoriesValid() && RegsValid() && c.regs == RegsOf()
      modifies this`dropped
      ensures MemoriesValid() && RegsValid() && RegsOf() == old(RegsOf()) && Blocks() == old(Blocks())
      ensures if data >= |segments| then status == Trap && WorldOf() == old(WorldOf())
              else status == Ok && WorldOf() == old(WorldOf()).(dropped := old(WorldOf()).dropped + {data})
    {
      hide Faithful;
      if data >= |segments| {
        return Trap;
      }
      ghost var w := WorldOf();
      dropped := dropped + {data};
      assert Memories() == w.memories && Buffers() == w.host;
      DropIsInvisible(w, data);
      return Ok;
    }

    lemma BlockIsListed(i: nat)
      requires i < |memories|
      ensures memories[i].data != null ==> memories[i].data in Blocks()
    {
      assert memories[i] in memories;
    }

    /** The instruction proper, on operands and memories that are there. */
    method Dispatch(fl: Floats, op: Op, held: Option<Value>, imms: seq<nat>, ghost c: Call) returns (status: Status)
      requires MemoriesValid() && RegsValid() && OpOk(op) && CallOk(op, c) && Loaded(WorldOf(), c.needs)
      requires c.regs == RegsOf() && c.held == held && c.imms == imms
      modifies this`dropped, memories, Blocks(), stack, stack.nodes
      ensures MemoriesValid() && RegsValid() && fresh(Blocks() - old(Blocks()))
      ensures (RegsOf(), WorldOf(), status) == Act(fl, op, c, old(WorldOf()))
    {
      hide RegsValid, MemoriesValid, RegsOf, WorldOf, MemoryOk, LoadAct, StoreAct, GrowAct, InitAct, CopyAct, FillAct;
      SegmentsShow();
      if op.LoadOp? || op.StoreOp? {
        var i := if |imms| > 2 then imms[2] else 0;
        assert c.needs[0] == i;
        WorldShows(i);
        BlockIsListed(i);
        if op.LoadOp? {
          status := LoadActs(fl, op.a, i, imms[0], c);
        } else {
          status := StoreActs(fl, op.a, i, imms[0], held, c);
        }
      } else if op.SizeOp? {
        status := SizeActs(imms[0], c);
      } else if op.DropOp? {
        status := DropActs(imms[0], c);
      } else {
        status := DispatchBulk(fl, op, imms, c);
      }
    }

    method DispatchBulk(fl: Floats, op: Op, imms: seq<nat>, ghost c: Call) returns (status: Status)
      requires MemoriesValid() && RegsValid() && CallOk(op, c) && Loaded(WorldOf(), c.needs)
      requires op.GrowOp? || op.InitOp? || op.CopyOp? || op.FillOp?
      requires c.regs == RegsOf() && c.imms == imms
      modifies memories, Blocks(), stack, stack.nodes
      ensures MemoriesValid() && RegsValid() && fresh(Blocks() - old(Blocks()))
      ensures (RegsOf(), WorldOf(), status) == Act(fl, op, c, old(WorldOf()))
    {
      hide RegsValid, MemoriesValid, RegsOf, WorldOf, MemoryOk, GrowAct, InitAct, CopyAct, FillAct;
      SegmentsShow();
      assert c.needs[0] == imms[0];
      BlockIsListed(imms[0]);
      match op {
        case GrowOp => status := GrowActs(fl, imms[0], c);
        case InitOp => status := InitActs(imms[0], imms[1], c);
        case FillOp => status := FillActs(imms[0], c);
        case CopyOp =>
          assert c.needs[1] == imms[1];
          BlockIsListed(imms[1]);
          status := CopyActs(imms[0], imms[1], c);
      }
    }

    /** A memory instruction from its immediates to its effect: the handler of `op`. */
    method Handle(fl: Floats, op: Op, hooks: MemoryHooks) returns (status: Status)
      requires MemoriesValid() && RegsValid() && OpOk(op)
      modifies this`dropped, memories, Blocks(), stack, stack.nodes, reg, reg.nodes
      ensures MemoriesValid() && RegsValid() && fresh(Blocks() - old(Blocks()))
      ensures Handled(fl, op, hooks, old(RegsOf()), old(WorldOf()), RegsOf(), WorldOf(), status)
    {
      hide RegsValid, MemoriesValid, RegsOf, WorldOf, Handled, Begun, Act, CallOk, Loaded;
      var held, imms;
      status, held, imms := Start(fl, op, hooks);
      if status == Ok {
        ghost var c := BegunActs(fl, op, hooks, old(RegsOf()), old(WorldOf()), RegsOf(), held, imms, WorldOf());
        status := Dispatch(fl, op, held, imms, c);
      }
    }
  }

  /** The needed memories exist and have their bytes. */
  ghost predicate Loaded(w: World, needs: seq<nat>) {
    forall k :: 0 <= k < |needs| ==> needs[k] < |w.memories| && MemoryOk(w, needs[k]) && !w.memories[needs[k]].isSpilled
  }

  /** The handler ends like this. */
  ghost predicate Handled(fl: Floats, op: Op, hooks: MemoryHooks, r: Regs, w: World, r': Regs, w': World,
        status: Status) {
    OpOk(op) && Faithful(w) && LinearMemory.Handle(fl, op, r, w, hooks) == (r', w', status)
  }

  /** The handler ends like the instruction acts on this call and these memories. */
  ghost predicate Begun(fl: Floats, op: Op, hooks: MemoryHooks, r: Regs, w: World, r': Regs, held: Option<Value>,
        imms: seq<nat>, w': World) {
    && OpOk(op) && Faithful(w)
    && |imms| > 0 && (op.LoadOp? || op.StoreOp? || op.InitOp? || op.CopyOp? ==> |imms| >= 2)
    && var c := Call(r', held, imms, Needs(op, imms));
       && CallOk(op, c) && Loaded(w', c.needs)
       && LinearMemory.Handle(fl, op, r, w, hooks) == Act(fl, op, c, w')
  }

  lemma RefusedAtOnce(fl: Floats, op: Op, hooks: MemoryHooks, r: Regs, w: World)
    requires OpOk(op) && Faithful(w) && Begin(op, |w.memories|, r).1.None?
    ensures Handled(fl, op, hooks, r, w, Begin(op, |w.memories|, r).0, w, Trap)
  {
    hide Begin, Faithful;
  }

  lemma ThenGuarded(fl: Floats, op: Op, hooks: MemoryHooks, r: Regs, w: World, r1: Regs, held: Option<Value>,
        imms: seq<nat>)
    requires OpOk(op) && Faithful(w)
    requires var c := Begin(op, |w.memories|, r);
             c.1.Some? && CallOk(op, c.1.value) && c == (r1, Some(Call(r1, held, imms, c.1.value.needs)))
    ensures |imms| > 0 && (op.LoadOp? || op.StoreOp? || op.InitOp? || op.CopyOp? ==> |imms| >= 2)
    ensures var (w1, status) := RequireAll(w, Needs(op, imms), hooks);
            if status != Ok then Handled(fl, op, hooks, r, w, LinearMemory.PutBack(r1, held), w1, status)
            else Begun(fl, op, hooks, r, w, r1, held, imms, w1)
  {
    hide Begin, Faithful, Act, RequireAll, MemoryOk;
    RequireAllOk(w, Needs(op, imms), hooks);
    if RequireAll(w, Needs(op, imms), hooks).1 == Ok {
      NeedsAreThere(w, Needs(op, imms), hooks);
    }
  }

  lemma BegunActs(fl: Floats, op: Op, hooks: MemoryHooks, r: Regs, w: World, r1: Regs, held: Option<Value>,
        imms: seq<nat>, w1: World)
    returns (c: Call)
    requires Begun(fl, op, hooks, r, w, r1, held, imms, w1)
    ensures CallOk(op, c) && c.regs == r1 && c.held == held && c.imms == imms && Loaded(w1, c.needs) && OpOk(op)
    ensures var (r2, w2, status) := Act(fl, op, c, w1); Handled(fl, op, hooks, r, w, r2, w2, status)
  {
    hide Act, LinearMemory.Handle, Faithful;
    c := Call(r1, held, imms, Needs(op, imms));
  }

  lemma NeedsAreThere(w: World, needs: seq<nat>, hooks: MemoryHooks)
    requires Faithful(w) && RequireAll(w, needs, hooks).1 == Ok
    ensures Loaded(RequireAll(w, needs, hooks).0, needs)
  {
    hide RequireAll;
    RequireAllOk(w, needs, hooks);
    RestoredIsFaithful(w);
  }

  function PopThree(r: Regs, a: bool, b: bool, c: bool): (Regs, Option<(nat, nat, nat)>) {
    match PopIndex(r, a)
    case None => (r, None)
    case Some((r1, x)) =>
      match PopIndex(r1, b)
      case None => (r1, None)
      case Some((r2, y)) =>
        match PopIndex(r2, c)
        case None => (r2, None)
        case Some((r3, z)) => (r3, Some((x, y, z)))
  }

  function Behind(imms: seq<nat>, p: (Regs, seq<nat>)): (Regs, seq<nat>) {
    (p.0, imms + p.1)
  }

  lemma PopImmsTurn(imms: seq<nat>, r: Regs, n: nat, imm: Option<Imm>, r': Regs)
    requires n > 0 && r'.stack == r.stack
    requires if imm.None? then r.window == [] && r' == r else r.window == r'.window + [imm.value]
    ensures imm.Some? ==> Behind(imms, PopImms(r, n)) == Behind(imms + [imm.value.bits % TWO_64], PopImms(r', n - 1))
  {
    if imm.Some? {
      var rest := PopImms(r', n - 1);
      assert r.window[..|r.window| - 1] == r'.window;
      assert imms + ([imm.value.bits % TWO_64] + rest.1) == imms + [imm.value.bits % TWO_64] + rest.1;
    }
  }

  lemma PopImmsEnd(r: Regs, n: nat)
    ensures n == 0 || r.window == [] ==> PopImms(r, n) == (r, [])
  {
  }

  lemma RequireKeepsFaithful(w: World, i: nat, hooks: MemoryHooks)
    requires Faithful(w)
    ensures Faithful(Require(w, i, hooks).0)
  {
    RequireIsInvisible(w, i, hooks);
  }

  lemma CopyTakesThree(c: Call, w: World, i: nat, j: nat)
    requires i < |w.memories| && MemoryOk(w, i) && j < |w.memories| && MemoryOk(w, j)
    ensures var from, to := w.memories[i], w.memories[j];
            var (r, three) := PopThree(c.regs, from.is64 || to.is64, from.is64, to.is64);
            CopyAct(c, w, i, j) ==
              match three
              case None => (r, w, Trap)
              case Some((n, src, dst)) =>
                if !InBounds(from, src, n) || !InBounds(to, dst, n) then (r, w, Trap)
                else (r, LinearMemory.Write(w, j, dst, if n == 0 then []
                                                       else LinearMemory.Contents(w, i)[src..src + n]), Ok)
  {
    hide PopIndex, LinearMemory.Write;
  }

  lemma WriteKeepsFaithful(w: World, i: nat, addr: nat, bytes: seq<byte>)
    requires Faithful(w) && i < |w.memories| && MemoryOk(w, i) && InBounds(w.memories[i], addr, |bytes|)
    ensures Faithful(LinearMemory.Write(w, i, addr, bytes))
  {
    hide Overwrite;
    var w' := LinearMemory.Write(w, i, addr, bytes);
    forall k | 0 <= k < |w.memories|
      ensures MemoryOk(w', k)
    {
      assert MemoryOk(w, k);
    }
  }

  lemma GrowKeepsFaithful(w: World, i: nat, delta: nat)
    requires Faithful(w) && i < |w.memories| && !w.memories[i].isSpilled
    ensures Faithful(w.(memories := w.memories[i := LinearMemory.Grow(w.memories[i], delta).0]))
  {
    hide LinearMemory.Grow;
    GrownIsOk(w, i, delta);
    ReplaceIsInvisible(w, i, LinearMemory.Grow(w.memories[i], delta).0);
  }
}
