/** Imported memories: the host's bindings by module and name, and the memories attached to them. */
module Imports {
  import opened Core
  import opened LinearMemory

  /** A memory as the module declares it; an import has a key. */
  datatype Declared = Declared(isImported: bool, importModule: Option<string>, importName: Option<string>,
                               is64: bool, initial: nat, hasMax: bool, maximum: nat)

  /** A buffer the host offers, by identity, and how much of it. */
  datatype HostMemory = HostMemory(data: Option<nat>, size: nat)

  datatype Binding = Binding(importModule: string, importName: string, memory: HostMemory)

  predicate HasKey(d: Declared, mod: string, name: string) {
    d.isImported && d.importModule == Some(mod) && d.importName == Some(name)
  }

  const MAX_PAGES: nat := (TWO_64 - 1) / PAGE_SIZE
  const MAX_PAGES_32: nat := TWO_32 - 1

  /** Whether a buffer will do for an import. */
  function Validate(d: Declared, h: HostMemory): Status {
    if h.data.None? && h.size > 0 then InvalidArgument
    else if h.size % PAGE_SIZE != 0 then Unsupported
    else if !d.is64 && h.size > MAX_PAGES_32 * PAGE_SIZE then Unsupported
    else if d.initial > MAX_PAGES then Unsupported
    else if h.size < d.initial * PAGE_SIZE then Trap
    else if d.hasMax && d.maximum > MAX_PAGES then Unsupported
    else if d.hasMax && h.size > d.maximum * PAGE_SIZE then Trap
    else Ok
  }

  /** A buffer will do exactly when it is whole pages within the declared limits, and is there. */
  lemma ValidateExactly(d: Declared, h: HostMemory)
    requires h.size < TWO_64
    ensures Validate(d, h) == Ok <==>
            && (h.size > 0 ==> h.data.Some?)
            && (exists pages: nat :: h.size == pages * PAGE_SIZE && d.initial <= pages
                 && (!d.is64 ==> pages < TWO_32) && (d.hasMax ==> pages <= d.maximum <= MAX_PAGES))
  {
    var pages := h.size / PAGE_SIZE;
    if Validate(d, h) == Ok {
      assert h.size == pages * PAGE_SIZE;
    }
    if exists p: nat :: h.size == p * PAGE_SIZE && d.initial <= p {
      var p: nat :| h.size == p * PAGE_SIZE && d.initial <= p;
      assert p == pages;
    }
  }

  function Rebound(m: Memory, h: HostMemory): Memory {
    m.(data := if h.data.Some? then Shared(h.data.value) else Absent, size := h.size,
       isHost := true, ownsData := false, isSpilled := false)
  }

  /** `m` is the host's buffer `h`: its bytes, all of its size, not the runtime's own. */
  predicate ShowsBuffer(m: Memory, h: HostMemory) {
    && m.data == (if h.data.None? then Absent else Shared(h.data.value)) && m.size == h.size
    && m.isHost && !m.ownsData && !m.isSpilled
  }

  predicate SameLimits(before: Memory, after: Memory) {
    after.maxSize == before.maxSize && after.hasMax == before.hasMax && after.is64 == before.is64
  }

  lemma ReboundShows(m: Memory, h: HostMemory)
    ensures ShowsBuffer(Rebound(m, h), h) && SameLimits(m, Rebound(m, h))
  {
  }

  /** The bytes of a memory that shows a buffer are the first bytes of that buffer, as many as were offered. */
  lemma ShownContents(w: World, i: nat, h: HostMemory)
    requires i < |w.memories| && MemoryOk(w, i) && ShowsBuffer(w.memories[i], h)
    ensures h.data.Some? ==>
              h.data.value < |w.host| && h.size <= |w.host[h.data.value]| &&
              Contents(w, i) == w.host[h.data.value][..h.size]
    ensures h.data.None? ==> Contents(w, i) == [] && h.size == 0
  {
  }

  // --------------------------------------------------------------- attaching

  function FreshMemory(d: Declared): Memory {
    Memory(Absent, 0, if d.hasMax then d.maximum * PAGE_SIZE else 0, d.hasMax, d.is64, false, false, false)
  }

  /** The declared limits a runtime refuses before it looks at any buffer. */
  predicate LimitsFit(d: Declared) {
    && (!d.is64 ==> d.initial < TWO_32 && (d.hasMax ==> d.maximum < TWO_32))
    && (d.hasMax ==> d.maximum <= MAX_PAGES)
  }

  /** One declared memory made ready, with the buffer bound to it if it is an import. */
  function AttachOne(d: Declared, bound: Option<HostMemory>): Result<Memory> {
    var m := FreshMemory(d);
    if !LimitsFit(d) then Failure(Unsupported)
    else if d.isImported then
      if d.importModule.None? || d.importName.None? || bound.None? then Failure(Trap)
      else
        var h := bound.value;
        if h.data.None? && h.size > 0 then Failure(InvalidArgument)
        else if h.size % PAGE_SIZE != 0 then Failure(Unsupported)
        else if !d.is64 && h.size > MAX_PAGES_32 * PAGE_SIZE then Failure(Unsupported)
        else if d.initial > MAX_PAGES then Failure(Unsupported)
        else if h.size < d.initial * PAGE_SIZE then Failure(Trap)
        else if d.hasMax && h.size > m.maxSize then Failure(Trap)
        else Success(Rebound(m, h))
    else if d.initial == 0 then Success(m.(ownsData := true))
    else if d.initial > MAX_PAGES then Failure(Unsupported)
    else if d.initial * PAGE_SIZE > INT_MAX then Failure(OutOfMemory)
    else Success(m.(ownsData := true, data := Private(Zeros(d.initial * PAGE_SIZE)), size := d.initial * PAGE_SIZE))
  }

  /** Attaching accepts a bound import exactly when rebinding would, for the same reasons; the memory then
      shows the buffer, within the declared limits. */
  lemma AttachMeetsValidate(d: Declared, h: HostMemory)
    requires d.isImported && d.importModule.Some? && d.importName.Some? && LimitsFit(d)
    ensures var r := AttachOne(d, Some(h));
            if Validate(d, h) == Ok then r.Success? && ShowsBuffer(r.value, h) && HasLimits(d, r.value)
            else r == Failure(Validate(d, h))
  {
  }

  /** The limits and the address type are those declared; without a maximum none is kept. */
  predicate HasLimits(d: Declared, m: Memory) {
    m.hasMax == d.hasMax && m.is64 == d.is64 && m.maxSize == if d.hasMax then d.maximum * 0x1_0000 else 0
  }

  /** A declaration whose limits leave its address type or 64 bits is refused; an import without a key or a
      binding traps; a memory of the module's own becomes ready exactly when an `int` can size it: the
      runtime's own, in memory, its pages all zero, within the declared limits. */
  lemma AttachExactly(d: Declared, bound: Option<HostMemory>)
    ensures var r := AttachOne(d, bound);
            var wide := !d.is64 && (d.initial >= TWO_32 || (d.hasMax && d.maximum >= TWO_32));
            if wide || (d.hasMax && d.maximum * 0x1_0000 >= TWO_64) then r == Failure(Unsupported)
            else if d.isImported && (d.importModule.None? || d.importName.None? || bound.None?) then r == Failure(Trap)
            else if d.isImported then r.Success? <==> Validate(d, bound.value) == Ok
            else if d.initial * 0x1_0000 >= TWO_64 then r == Failure(Unsupported)
            else if d.initial * 0x1_0000 > 0x7FFF_FFFF then r == Failure(OutOfMemory)
            else r.Success? && HasLimits(d, r.value) && OwnZeros(r.value, d.initial)
  {
  }

  /** A memory of the runtime's own with so many pages, all zero. */
  predicate OwnZeros(m: Memory, pages: nat) {
    && m.size == pages * 0x1_0000 && m.ownsData && !m.isHost && !m.isSpilled
    && if pages == 0 then m.data == Absent
       else m.data.Private? && |m.data.bytes| == m.size && forall k :: 0 <= k < |m.data.bytes| ==> m.data.bytes[k] == 0
  }

  // ------------------------------------------------------------ the bindings

  predicate UniqueKeys(bindings: seq<Binding>) {
    forall i, j :: 0 <= i < j < |bindings| ==>
      bindings[i].importModule != bindings[j].importModule || bindings[i].importName != bindings[j].importName
  }

  function Find(bindings: seq<Binding>, mod: string, name: string): (k: Option<nat>)
    ensures k.Some? ==>
            k.value < |bindings| && bindings[k.value].importModule == mod && bindings[k.value].importName == name
    ensures k.None? ==> forall i :: 0 <= i < |bindings| ==>
            bindings[i].importModule != mod || bindings[i].importName != name
    decreases |bindings|
  {
    if bindings == [] then None
    else
      match Find(bindings[..|bindings| - 1], mod, name)
      case Some(k) => Some(k)
      case None =>
        var b := bindings[|bindings| - 1];
        if b.importModule == mod && b.importName == name then Some(|bindings| - 1) else None
  }

  /** What a key is bound to. */
  function Bound(bindings: seq<Binding>, mod: string, name: string): Option<HostMemory> {
    var k :- Find(bindings, mod, name);
    Some(bindings[k].memory)
  }

  function Bind(bindings: seq<Binding>, mod: string, name: string, h: HostMemory): seq<Binding> {
    match Find(bindings, mod, name)
    case Some(k) => bindings[k := bindings[k].(memory := h)]
    case None => bindings + [Binding(mod, name, h)]
  }

  /** Binding a key gives it the new buffer, leaves every other key alone, and keeps keys unique. */
  lemma BindIsUpdate(bindings: seq<Binding>, mod: string, name: string, h: HostMemory, otherMod: string,
        otherName: string)
    requires UniqueKeys(bindings)
    ensures UniqueKeys(Bind(bindings, mod, name, h))
    ensures Bound(Bind(bindings, mod, name, h), otherMod, otherName)
            == if otherMod == mod && otherName == name then Some(h) else Bound(bindings, otherMod, otherName)
  {
    var after := Bind(bindings, mod, name, h);
    var k, before := Find(after, otherMod, otherName), Find(bindings, otherMod, otherName);
    match Find(bindings, mod, name) {
      case Some(i) =>
        assert after[i].importModule == mod && after[i].importName == name;
        assert before.Some? ==>
               after[before.value].importModule == otherMod && after[before.value].importName == otherName;
      case None =>
        assert after[|bindings|] == Binding(mod, name, h);
        assert before.Some? ==> after[before.value] == bindings[before.value];
    }
  }

  class ImportedMemories {
    const declared: seq<Declared>
    const memories: array<Memory>
    var bindings: seq<Binding>

    /** Every key has one binding, and every attached import shows the buffer bound to its key. */
    ghost predicate Valid()
      reads this, memories
    {
      UniqueKeys(bindings) && memories.Length == |declared| && forall i :: 0 <= i < |declared| ==> Coherent(i)
    }

    ghost predicate Coherent(i: nat)
      requires i < |declared| == memories.Length
      reads this, memories
    {
      var d := declared[i];
      d.isImported ==>
        && d.importModule.Some? && d.importName.Some?
        && Bound(bindings, d.importModule.value, d.importName.value).Some?
        && ShowsBuffer(memories[i], Bound(bindings, d.importModule.value, d.importName.value).value)
    }

    /** Attaches a module to a runtime with some bindings: all its memories, or none. */
    constructor (declared: seq<Declared>, bindings: seq<Binding>, memories: array<Memory>)
      requires UniqueKeys(bindings) && memories.Length == |declared|
      requires forall i :: 0 <= i < |declared| ==>
               AttachOne(declared[i], BoundTo(bindings, declared[i])) == Success(memories[i])
      ensures Valid() && this.declared == declared && this.bindings == bindings && this.memories == memories
    {
      this.declared, this.bindings, this.memories := declared, bindings, memories;
    }

    /** The loop over the bindings. */
    method FindBinding(mod: string, name: string) returns (k: Option<nat>)
      ensures k == Find(bindings, mod, name)
    {
      for i := 0 to |bindings|
        invariant Find(bindings[..i], mod, name) == None
      {
        assert bindings[..i + 1][..i] == bindings[..i];
        if bindings[i].importModule == mod && bindings[i].importName == name {
          FindInPrefix(bindings, i + 1, mod, name);
          return Some(i);
        }
      }
      assert bindings[..|bindings|] == bindings;
      return None;
    }

    /** Checks the buffer against every attached import of that key, then gives it to all of them. */
    method Rebind(mod: string, name: string, h: HostMemory) returns (status: Status)
      requires memories.Length == |declared|
      modifies memories
      ensures status == Ok
              <==> forall i :: 0 <= i < |declared| && HasKey(declared[i], mod, name) ==> Validate(declared[i], h) == Ok
      ensures status != Ok ==>
                exists i ::
                  && 0 <= i < |declared| && HasKey(declared[i], mod, name) && Validate(declared[i], h) == status
                  && (forall k :: 0 <= k < i && HasKey(declared[k], mod, name) ==> Validate(declared[k], h) == Ok)
      ensures forall i :: 0 <= i < |declared| ==>
                if status == Ok && HasKey(declared[i], mod, name)
                then ShowsBuffer(memories[i], h) && SameLimits(old(memories[i]), memories[i])
                else memories[i] == old(memories[i])
    {
      var matched := false;
      for i := 0 to |declared|
        invariant forall k :: 0 <= k < i && HasKey(declared[k], mod, name) ==> Validate(declared[k], h) == Ok
        invariant matched <==> exists k :: 0 <= k < i && HasKey(declared[k], mod, name)
        invariant forall k :: 0 <= k < |declared| ==> memories[k] == old(memories[k])
      {
        if HasKey(declared[i], mod, name) {
          status := Validate(declared[i], h);
          if status != Ok {
            return;
          }
          matched := true;
        }
      }
      status := Ok;
      if !matched {
        return;
      }
      for i := 0 to |declared|
        invariant forall k :: 0 <= k < |declared| ==>
                    if k < i && HasKey(declared[k], mod, name)
                    then ShowsBuffer(memories[k], h) && SameLimits(old(memories[k]), memories[k])
                    else memories[k] == old(memories[k])
      {
        if HasKey(declared[i], mod, name) {
          memories[i] := Rebound(memories[i], h);
        }
      }
    }

    /** Binds a buffer to a key. On an error neither bindings nor memories change; otherwise the key,
        every attached import of it, and nothing else has the new buffer. */
    method BindImportedMemory(mod: Option<string>, name: Option<string>, memory: Option<HostMemory>)
      returns (status: Status)
      requires Valid()
      modifies this, memories
      ensures Valid()
      ensures status == Ok <==>
                && mod.Some? && name.Some? && memory.Some? && (memory.value.size > 0 ==> memory.value.data.Some?)
                && (forall i :: 0 <= i < |declared| && HasKey(declared[i], mod.value, name.value) ==>
                      Validate(declared[i], memory.value) == Ok)
      ensures status != Ok ==> bindings == old(bindings) && memories[..] == old(memories[..])
      ensures status == Ok ==> bindings == Bind(old(bindings), mod.value, name.value, memory.value)
      ensures status == Ok ==> forall i :: 0 <= i < |declared| ==>
                if HasKey(declared[i], mod.value, name.value)
                then ShowsBuffer(memories[i], memory.value) && SameLimits(old(memories[i]), memories[i])
                else memories[i] == old(memories[i])
    {
      hide Find, UniqueKeys, Validate, Bound;
      if mod.None? || name.None? || memory.None? || (memory.value.data.None? && memory.value.size > 0) {
        return InvalidArgument;
      }
      var existing := FindBinding(mod.value, name.value);
      status := Rebind(mod.value, name.value, memory.value);
      if status != Ok {
        assert memories[..] == old(memories[..]);
        forall i | 0 <= i < |declared|
          ensures Coherent(i)
        {
          assert old(Coherent(i));
        }
        return;
      }
      if existing.Some? {
        bindings := bindings[existing.value := bindings[existing.value].(memory := memory.value)];
      } else {
        bindings := bindings + [Binding(mod.value, name.value, memory.value)];
      }
      assert bindings == Bind(old(bindings), mod.value, name.value, memory.value);
      BindIsUpdate(old(bindings), mod.value, name.value, memory.value, mod.value, name.value);
      forall i | 0 <= i < |declared|
        ensures Coherent(i)
      {
        var d := declared[i];
        assert old(Coherent(i));
        if d.isImported {
          BindIsUpdate(old(bindings), mod.value, name.value, memory.value, d.importModule.value, d.importName.value);
        }
      }
    }
  }

  function BoundTo(bindings: seq<Binding>, d: Declared): Option<HostMemory> {
    if d.importModule.Some? && d.importName.Some? then Bound(bindings, d.importModule.value, d.importName.value)
        else None
  }

  lemma {:induction false} FindInPrefix(bindings: seq<Binding>, n: nat, mod: string, name: string)
    requires n <= |bindings| && Find(bindings[..n], mod, name).Some?
    ensures Find(bindings, mod, name) == Find(bindings[..n], mod, name)
    decreases |bindings|
  {
    if n < |bindings| {
      FindInPrefix(bindings[..|bindings| - 1], n, mod, name);
      assert bindings[..|bindings| - 1][..n] == bindings[..n];
    } else {
      assert bindings[..n] == bindings;
    }
  }

  /** Makes every declared memory ready in turn; the first that cannot be stops it. */
  method AttachMemories(declared: seq<Declared>, bindings: seq<Binding>) returns (r: Result<array<Memory>>)
    ensures r.Success? ==> fresh(r.value) && r.value.Length == |declared|
    ensures r.Success? ==>
              forall i :: 0 <= i < |declared| ==>
                  AttachOne(declared[i], BoundTo(bindings, declared[i])) == Success(r.value[i])
    ensures r.Failure? ==>
              exists i ::
                && 0 <= i < |declared| && AttachOne(declared[i], BoundTo(bindings, declared[i])) == Failure(r.error)
                && (forall k :: 0 <= k < i ==> AttachOne(declared[k], BoundTo(bindings, declared[k])).Success?)
  {
    var all := new Memory[|declared|](_ => Memory(Absent, 0, 0, false, false, false, false, false));
    for i := 0 to |declared|
      invariant forall k :: 0 <= k < i ==> AttachOne(declared[k], BoundTo(bindings, declared[k])) == Success(all[k])
    {
      var m := AttachOne(declared[i], BoundTo(bindings, declared[i]));
      if m.Failure? {
        return Failure(m.error);
      }
      all[i] := m.value;
    }
    return Success(all);
  }
}
