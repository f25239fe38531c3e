/** Linear memory as a spill blob: the envelope, a sub-header with flags and size, and the raw bytes. */
module MemoryBlobs {
  import opened Core
  import opened Spill
  import opened LinearMemory

  const BODY_HEADER_BYTES: nat := 16
  const OVERHEAD: nat := HEADER_BYTES + BODY_HEADER_BYTES

  function Flags(is64: bool): byte {
    if is64 then 1 else 0
  }

  function SubHeader(is64: bool, size: nat): (h: seq<byte>)
    ensures |h| == BODY_HEADER_BYTES
  {
    [Flags(is64), 0, 0, 0, 0, 0, 0, 0] + Bytes(size, 8)
  }

  function Blob(is64: bool, bytes: seq<byte>): (b: seq<byte>)
    ensures |b| == OVERHEAD + |bytes|
  {
    Header(KIND_MEMORY, BODY_HEADER_BYTES + |bytes|) + SubHeader(is64, |bytes|) + bytes
  }

  /** A memory's blob byte by byte: the envelope of kind 2, a flag for 64-bit addresses in eight bytes, the
      size, and the bytes. */
  lemma BlobLayout(is64: bool, bytes: seq<byte>)
    requires |bytes| < TWO_64 - 16
    ensures var b := Blob(is64, bytes);
            && |b| == 32 + |bytes| && b[..6] == [0x46, 0x59, 0x53, 0x4D, 1, 0] && LittleEndian(b[6..8]) == 2
            && LittleEndian(b[8..16]) == 16 + |bytes| && b[16..24] == [if is64 then 1 else 0, 0, 0, 0, 0, 0, 0, 0]
            && LittleEndian(b[24..32]) == |bytes| && b[32..] == bytes
  {
    hide LittleEndian, Bytes, Pow256, Header;
    Widths();
    BytesThenNumber(|bytes|, 8);
    EnvelopeLayout(KIND_MEMORY, BODY_HEADER_BYTES + |bytes|);
    var b, h := Blob(is64, bytes), Header(KIND_MEMORY, BODY_HEADER_BYTES + |bytes|);
    assert b[..6] == h[..6] && b[6..8] == h[6..8] && b[8..16] == h[8..16];
    assert b[24..32] == Bytes(|bytes|, 8);
  }

  /** The memory a buffer describes, if it is refused nowhere, and whether it was accepted. */
  function Deserialize(m: Memory, buffer: seq<byte>): (r: (Memory, bool)) {
    var envelope := ReadHeader(buffer);
    if envelope.None? || envelope.value.kind != KIND_MEMORY || envelope.value.payload < BODY_HEADER_BYTES
        then (m, false)
    else
      AcceptedFits(buffer);
      var size := LittleEndian(buffer[24..32]);
      if size != envelope.value.payload - BODY_HEADER_BYTES || size > INT_MAX then (m, false)
      else if !m.ownsData && !m.data.Absent? then (m, false)
      else (m.(data := if size == 0 then Absent else Private(buffer[OVERHEAD..OVERHEAD + size]),
               size := size, is64 := buffer[16] % 2 == 1, ownsData := true, isSpilled := false), true)
  }

  /** A buffer is accepted as `size` bytes exactly when it starts with the envelope and sub-header of
      that many, holds them, an `int` can size them, and the memory is not a host's. It may be longer. */
  lemma AcceptedExactly(m: Memory, buffer: seq<byte>, size: nat)
    requires size < TWO_64 - BODY_HEADER_BYTES
    ensures Deserialize(m, buffer).1 && Deserialize(m, buffer).0.size == size
            <==> && OVERHEAD + size <= |buffer|
                 && buffer[..HEADER_BYTES] == Header(KIND_MEMORY, BODY_HEADER_BYTES + size)
                 && buffer[24..32] == Bytes(size, 8)
                 && size <= INT_MAX && (m.ownsData || m.data.Absent?)
    ensures !Deserialize(m, buffer).1 ==> Deserialize(m, buffer).0 == m
  {
    hide Bytes, LittleEndian, ReadHeader, Header;
    HeaderRoundTrip(buffer, KIND_MEMORY, BODY_HEADER_BYTES + size);
    Widths();
    BytesThenNumber(size, 8);
    if ReadHeader(buffer).Some? {
      AcceptedFits(buffer);
      if ReadHeader(buffer).value.payload >= BODY_HEADER_BYTES {
        NumberThenBytes(buffer[24..32]);
      }
    }
  }

  /** Restoring a serialized memory gives back bytes, size and address type, for any memory of at most
      `INT_MAX` bytes and any target the runtime owns; the limits are exact and a refusal changes
      nothing. */
  lemma MemoryRoundTrip(target: Memory, is64: bool, bytes: seq<byte>, rest: seq<byte>)
    requires |bytes| < TWO_64 - OVERHEAD
    ensures var (m, accepted) := Deserialize(target, Blob(is64, bytes) + rest);
            && (accepted <==> |bytes| <= INT_MAX && (target.ownsData || target.data.Absent?))
            && m == if accepted
                    then target.(data := if bytes == [] then Absent else Private(bytes), size := |bytes|,
                                 is64 := is64, ownsData := true, isSpilled := false)
                    else target
  {
    hide Bytes, Header;
    var buffer, size := Blob(is64, bytes) + rest, |bytes|;
    assert buffer == Header(KIND_MEMORY, BODY_HEADER_BYTES + size) + SubHeader(is64, size) + bytes + rest;
    assert buffer[24..32] == Bytes(size, 8) && buffer[16] == Flags(is64);
    assert buffer[OVERHEAD..OVERHEAD + size] == bytes;
    AcceptedExactly(target, buffer, size);
    BlobIsSized(target, is64, bytes, rest);
  }

  lemma BlobIsSized(target: Memory, is64: bool, bytes: seq<byte>, rest: seq<byte>)
    requires |bytes| < TWO_64 - OVERHEAD
    ensures var (m, accepted) := Deserialize(target, Blob(is64, bytes) + rest); accepted ==> m.size == |bytes|
  {
    hide Bytes, Header, LittleEndian, ReadHeader;
    var buffer, size := Blob(is64, bytes) + rest, |bytes|;
    assert buffer[..HEADER_BYTES] == Header(KIND_MEMORY, BODY_HEADER_BYTES + size);
    HeaderRoundTrip(buffer, KIND_MEMORY, BODY_HEADER_BYTES + size);
    assert ReadHeader(buffer).value.payload == BODY_HEADER_BYTES + size;
  }

  /** Hooks that store the blob and deserialize it again are faithful: the memory comes back whole. */
  lemma BlobHooksAreFaithful(w: World, i: nat, hooks: MemoryHooks)
    requires i < |w.memories| && MemoryOk(w, i) && w.memories[i].data.Private? && 0 < w.memories[i].size <= INT_MAX
    requires hooks.spill == Some(Ok)
    ensures var m := w.memories[i]; var (spilled, stored, _) := Offload(m, hooks);
            stored && Deserialize(spilled, Blob(m.is64, m.data.bytes)) == (m, true)
  {
    var m := w.memories[i];
    MemoryRoundTrip(Offload(m, hooks).0, m.is64, m.data.bytes, []);
    assert Blob(m.is64, m.data.bytes) + [] == Blob(m.is64, m.data.bytes);
  }
}
