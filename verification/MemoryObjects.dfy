/** A linear memory as the runtime keeps it: one record updated in place, its bytes in a block that
    comes and goes. Every operation is tied to the function of the same meaning in `LinearMemory`. */
module MemoryObjects {
  import opened Core
  import opened Spill
  import opened LinearMemory
  import opened MemoryBlobs

  const SIZE_MAX: nat := 0xFFFF_FFFF_FFFF_FFFF

  /** What the embedder's hooks keep, by memory index. */
  class SpillStore {
    var saved: map<nat, seq<byte>>

    constructor ()
      ensures saved == map[]
    {
      saved := map[];
    }

    function Of(i: nat): Option<seq<byte>>
      reads this
    {
      if i in saved then Some(saved[i]) else None
    }
  }

  class MemoryObject {
    var data: array?<byte>
    var size: nat
    var maxSize: nat
    var hasMax: bool
    var is64: bool
    var isSpilled: bool
    var isHost: bool
    var ownsData: bool
    ghost var hostId: nat

    ghost predicate Valid()
      reads this, data
    {
      size < TWO_64 && (data != null ==> if ownsData then data.Length == size else size <= data.Length)
    }

    /** The record as a value; the bytes of a host's buffer are the host's. */
    ghost function Snapshot(): Memory
      reads this, data
    {
      Memory(if data == null then Absent else if ownsData then Private(data[..]) else Shared(hostId),
             size, maxSize, hasMax, is64, isSpilled, isHost, ownsData)
    }

    constructor (size: nat, hasMax: bool, maxSize: nat, is64: bool)
      requires size <= INT_MAX
      ensures Valid() && (data != null ==> fresh(data))
      ensures Snapshot()
              == Memory(if size == 0 then Absent else Private(Zeros(size)), size, maxSize, hasMax, is64, false, false,
                        true)
    {
      this.size, this.hasMax, this.maxSize, this.is64 := size, hasMax, maxSize, is64;
      isSpilled, isHost, ownsData, hostId := false, false, true, 0;
      data := null;
      new;
      if size > 0 {
        data := new byte[size](_ => 0);
      }
      assert data != null ==> data[..] == Zeros(size);
    }

    /** A block holding the saved bytes. */
    method Restock(bytes: seq<byte>)
      requires ownsData && |bytes| == size < TWO_64
      modifies this`data, this`isSpilled
      ensures Valid() && fresh(data)
      ensures Snapshot() == old(Snapshot()).(data := Private(bytes), isSpilled := false)
    {
      data := new byte[|bytes|](k requires 0 <= k < |bytes| => bytes[k]);
      isSpilled := false;
      assert data[..] == bytes;
    }

    method CallLoadHook(i: nat, store: SpillStore, hooks: MemoryHooks, missing: Error) returns (status: Status)
      requires Valid() && ownsData && data == null
      requires i in store.saved ==> |store.saved[i]| == size
      modifies this`data, this`isSpilled
      ensures Valid() && (data != null ==> fresh(data))
      ensures (Snapshot(), status) == Reload(old(Snapshot()), store.Of(i), hooks, missing)
      ensures if hooks.load == Some(Ok) && i in store.saved
              then status == Ok && data != null && !isSpilled && data[..] == store.saved[i]
              else data == null
    {
      if hooks.load.None? {
        return missing;
      }
      status := hooks.load.value;
      if status != Ok {
        return;
      }
      if i !in store.saved {
        return Trap;
      }
      Restock(store.saved[i]);
    }

    method EnsureLoaded(i: nat, store: SpillStore, hooks: MemoryHooks) returns (status: Status)
      requires Valid() && (isSpilled && data == null ==> ownsData)
      requires i in store.saved && data == null && size > 0 ==> |store.saved[i]| == size
      modifies this`data, this`isSpilled
      ensures Valid() && (data == old(data) || (ownsData && fresh(data)))
      ensures (Snapshot(), status) == LinearMemory.EnsureLoaded(old(Snapshot()), store.Of(i), hooks)
    {
      if size == 0 {
        return Ok;
      }
      if data != null {
        isSpilled := false;
        return Ok;
      }
      if !isSpilled {
        return Trap;
      }
      status := CallLoadHook(i, store, hooks, Trap);
    }

    method Load(i: nat, store: SpillStore, hooks: MemoryHooks) returns (status: Status)
      requires Valid()
      requires i in store.saved && data == null && size > 0 ==> |store.saved[i]| == size
      modifies this`data, this`isSpilled
      ensures Valid() && (data == old(data) || (ownsData && fresh(data)))
      ensures (Snapshot(), status) == LinearMemory.Load(old(Snapshot()), store.Of(i), hooks)
      ensures if ownsData && size > 0 && old(data) == null && hooks.load == Some(Ok) && i in store.saved
              then status == Ok && data != null && !isSpilled && data[..] == store.saved[i]
              else data == old(data)
    {
      if !ownsData {
        return InvalidArgument;
      }
      if size == 0 || data != null {
        isSpilled := false;
        return Ok;
      }
      status := CallLoadHook(i, store, hooks, InvalidArgument);
    }

    /** Hands the bytes to the spill hook and frees the block. */
    method Spill(i: nat, store: SpillStore, hooks: MemoryHooks) returns (status: Status)
      requires Valid()
      modifies this`data, this`isSpilled, store
      ensures Valid() && (data == old(data) || data == null)
      ensures var (m, stored, s) := Offload(old(Snapshot()), hooks);
              && Snapshot() == m && status == s
              && store.saved == if stored then old(store.saved)[i := old(Snapshot()).data.bytes] else old(store.saved)
      ensures if ownsData && size > 0 && old(data) != null && hooks.spill == Some(Ok)
              then status == Ok && data == null && isSpilled && store.saved == old(store.saved)[i := old(data[..])]
              else data == old(data) && store.saved == old(store.saved)
    {
      if !ownsData {
        return InvalidArgument;
      }
      if size == 0 {
        isSpilled := false;
        return Ok;
      }
      if data == null {
        isSpilled := true;
        return Ok;
      }
      if hooks.spill.None? {
        return InvalidArgument;
      }
      status := hooks.spill.value;
      if status != Ok {
        return;
      }
      store.saved := store.saved[i := data[..]];
      data, isSpilled := null, true;
    }

    /** Grows into a new block: the old bytes, then zeros. */
    method Grow(delta: nat) returns (pages: nat, grew: bool)
      requires Valid() && !isSpilled && delta < TWO_64
      requires data == null ==> size == 0
      modifies this`data, this`size
      ensures Valid() && (data == old(data) || (ownsData && fresh(data)))
      ensures (Snapshot(), pages, grew) == LinearMemory.Grow(old(Snapshot()), delta)
    {
      pages := size / PAGE_SIZE;
      if delta == 0 {
        return pages, true;
      }
      var newPages := (pages + delta) % TWO_64;
      if !ownsData || newPages < pages {
        return pages, false;
      }
      assert newPages == pages + delta;
      if hasMax && newPages > maxSize / PAGE_SIZE {
        return pages, false;
      }
      if newPages > (TWO_64 - 1) / PAGE_SIZE || newPages * PAGE_SIZE > INT_MAX {
        return pages, false;
      }
      var newSize := newPages * PAGE_SIZE;
      var next := new byte[newSize];
      if data != null {
        forall k | 0 <= k < size {
          next[k] := data[k];
        }
      }
      forall k | size <= k < newSize {
        next[k] := 0;
      }
      ghost var kept := if data == null then [] else data[..];
      assert next[..] == kept + Zeros(newSize - |kept|);
      data, size := next, newSize;
      grew := true;
      ghost var grown := LinearMemory.Grow(old(Snapshot()), delta).0;
      assert grown.data.bytes == next[..] && Snapshot().data == Private(next[..]);
    }

    /** Copies bytes into the block. */
    method Write(addr: nat, bytes: seq<byte>)
      requires Valid() && data != null && addr + |bytes| <= size
      modifies data
      ensures Valid() && data[..] == Overwrite(old(data[..]), addr, bytes)
    {
      forall k | 0 <= k < |bytes| {
        data[addr + k] := bytes[k];
      }
    }

    /** Reads `n` bytes as a number, least significant first. */
    method Read(addr: nat, n: nat) returns (raw: nat)
      requires Valid() && data != null && addr + n <= size
      ensures raw == LittleEndian(data[addr..addr + n])
    {
      raw := 0;
      for k := 0 to n
        invariant raw == LittleEndian(data[addr..addr + k])
      {
        NumberGrows(data[addr..addr + k], data[addr + k]);
        assert data[addr..addr + k] + [data[addr + k]] == data[addr..addr + k + 1];
        raw := raw + Shift8(data[addr + k], k);
      }
    }

    /** Writes the blob, or nothing when the bytes are away or the buffer is short. */
    method Serialize(out: array<byte>) returns (written: nat)
      requires Valid() && out != data
      modifies out
      ensures written == if (data == null && size > 0) || size > SIZE_MAX - OVERHEAD || out.Length < OVERHEAD + size
              then 0
                         else OVERHEAD + size
      ensures out[..] == if written == 0 then old(out[..])
                         else Overwrite(old(out[..]), 0, Blob(is64, if data == null then [] else data[..size]))
    {
      if (data == null && size != 0) || size > SIZE_MAX - OVERHEAD || out.Length < OVERHEAD + size {
        return 0;
      }
      PutBlob(out);
      written := OVERHEAD + size;
    }

    method PutBlob(out: array<byte>)
      requires Valid() && out.Length >= OVERHEAD + size && out != data && (data == null ==> size == 0)
      modifies out
      ensures out[..] == Overwrite(old(out[..]), 0, Blob(is64, if data == null then [] else data[..size]))
    {
      hide Bytes, Header, Overwrite, SubHeader;
      ghost var before := out[..];
      PutHeaders(out);
      PutData(out);
      OverwriteTwice(before, 0, Header(KIND_MEMORY, BODY_HEADER_BYTES + size) + SubHeader(is64, size),
                     if data == null then [] else data[..size]);
    }

    method PutHeaders(out: array<byte>)
      requires Valid() && out.Length >= OVERHEAD && out != data
      modifies out
      ensures out[..]
              == Overwrite(old(out[..]), 0, Header(KIND_MEMORY, BODY_HEADER_BYTES + size) + SubHeader(is64, size))
    {
      hide Bytes, Header, Overwrite;
      ghost var before, head := out[..], Header(KIND_MEMORY, BODY_HEADER_BYTES + size);
      ghost var flags := [Flags(is64), 0, 0, 0, 0, 0, 0, 0];
      var n := WriteHeader(out, KIND_MEMORY, BODY_HEADER_BYTES + size);
      PutFlags(out);
      OverwriteTwice(before, 0, head, flags);
      PutU64(out, 24, size);
      OverwriteTwice(before, 0, head + flags, Bytes(size, 8));
      assert head + SubHeader(is64, size) == head + flags + Bytes(size, 8);
    }

    method PutFlags(out: array<byte>)
      requires out.Length >= OVERHEAD && out != data
      modifies out
      ensures out[..] == Overwrite(old(out[..]), 16, [Flags(is64), 0, 0, 0, 0, 0, 0, 0])
    {
      forall k | 16 <= k < 24 {
        out[k] := 0;
      }
      out[16] := Flags(is64);
    }

    method PutData(out: array<byte>)
      requires Valid() && out.Length >= OVERHEAD + size && out != data && (data == null ==> size == 0)
      modifies out
      ensures out[..] == Overwrite(old(out[..]), OVERHEAD, if data == null then [] else data[..size])
    {
      if data != null {
        forall k | 0 <= k < size {
          out[OVERHEAD + k] := data[k];
        }
      }
    }

    /** Takes its bytes, size and address type from a blob, or refuses and stays as it is. */
    method Deserialize(buffer: seq<byte>) returns (accepted: bool)
      requires Valid()
      modifies this`data, this`size, this`is64, this`ownsData, this`isSpilled
      ensures Valid() && (data == null || data == old(data) || fresh(data))
      ensures (Snapshot(), accepted) == MemoryBlobs.Deserialize(old(Snapshot()), buffer)
    {
      var envelope := ReadHeader(buffer);
      if envelope.None? || envelope.value.kind != KIND_MEMORY || envelope.value.payload < BODY_HEADER_BYTES {
        return false;
      }
      AcceptedFits(buffer);
      var newSize := GetU64(buffer, 24);
      if newSize != envelope.value.payload - BODY_HEADER_BYTES || newSize > INT_MAX {
        return false;
      }
      if !ownsData && data != null {
        return false;
      }
      if newSize == 0 {
        data := null;
      } else {
        data := new byte[newSize](k requires 0 <= k < newSize => buffer[OVERHEAD + k]);
        assert data[..] == buffer[OVERHEAD..OVERHEAD + newSize];
      }
      size, is64, ownsData, isSpilled := newSize, buffer[16] % 2 == 1, true, false;
      return true;
    }
  }
}
