/** The versioned little-endian envelope around every spill blob. */
module Spill {
  import opened Core

  const MAGIC: nat := 0x4D53_5946
  const VERSION: nat := 1
  const HEADER_BYTES: nat := 16
  const KIND_JIT: nat := 1
  const KIND_MEMORY: nat := 2

  // -------------------------------------------------- little-endian numbers

  /** The low `n` bytes of `v`, least significant first. */
  function Bytes(v: nat, n: nat): (bs: seq<byte>)
    ensures |bs| == n
    decreases n
  {
    if n == 0 then [] else [v % 256] + Bytes(v / 256, n - 1)
  }

  function Pow256(n: nat): (p: nat)
    ensures p > 0
  {
    if n == 0 then 1 else 256 * Pow256(n - 1)
  }

  lemma {:induction false} BytesThenNumber(v: nat, n: nat)
    requires v < Pow256(n)
    ensures LittleEndian(Bytes(v, n)) == v
    decreases n
  {
    if n > 0 {
      BytesThenNumber(v / 256, n - 1);
      assert Bytes(v, n)[1..] == Bytes(v / 256, n - 1);
    }
  }

  lemma LowAndRest(low: byte, rest: nat)
    ensures (low + 256 * rest) % 256 == low && (low + 256 * rest) / 256 == rest
  {
  }

  lemma {:induction false} NumberThenBytes(bs: seq<byte>)
    ensures LittleEndian(bs) < Pow256(|bs|) && Bytes(LittleEndian(bs), |bs|) == bs
    decreases |bs|
  {
    if bs != [] {
      NumberThenBytes(bs[1..]);
      LowAndRest(bs[0], LittleEndian(bs[1..]));
      assert bs == [bs[0]] + bs[1..];
    }
  }

  /** A byte stands for itself, and bytes further on count 256 times as much for every byte before them. */
  lemma {:induction false} NumbersConcatenate(a: seq<byte>, b: seq<byte>)
    ensures LittleEndian(a + b) == LittleEndian(a) + Pow256(|a|) * LittleEndian(b)
    ensures |a| == 1 ==> LittleEndian(a) == a[0]
    decreases |a|
  {
    if a == [] {
      assert a + b == b;
    } else {
      assert (a + b)[1..] == a[1..] + b;
      NumbersConcatenate(a[1..], b);
      Distributes(a[0], LittleEndian(a[1..]), Pow256(|a| - 1), LittleEndian(b));
    }
  }

  lemma Distributes(low: nat, x: nat, p: nat, y: nat)
    ensures low + 256 * (x + p * y) == low + 256 * x + (256 * p) * y
  {
  }

  lemma Widths()
    ensures Pow256(2) == 0x1_0000 && Pow256(4) == TWO_32 && Pow256(8) == TWO_64
  {
    assert Pow256(3) == 0x100_0000 && Pow256(4) == 256 * Pow256(3) && Pow256(5) == 256 * Pow256(4);
    assert Pow256(6) == 256 * Pow256(5) && Pow256(7) == 256 * Pow256(6) && Pow256(8) == 256 * Pow256(7);
  }

  /** `s` with `bs` written over it at `at`. */
  function Overwrite(s: seq<byte>, at: nat, bs: seq<byte>): (r: seq<byte>)
    requires at + |bs| <= |s|
    ensures |r| == |s|
  {
    s[..at] + bs + s[at + |bs|..]
  }

  lemma NothingOver(s: seq<byte>, at: nat)
    requires at <= |s|
    ensures Overwrite(s, at, []) == s
  {
  }

  lemma OneMore(s: seq<byte>, at: nat, bs: seq<byte>, b: byte)
    requires at + |bs| < |s|
    ensures Overwrite(s, at, bs)[at + |bs| := b] == Overwrite(s, at, bs + [b])
  {
  }

  lemma OverwriteTwice(s: seq<byte>, at: nat, a: seq<byte>, b: seq<byte>)
    requires at + |a| + |b| <= |s|
    ensures Overwrite(Overwrite(s, at, a), at + |a|, b) == Overwrite(s, at, a + b)
  {
  }

  method PutU16(p: array<byte>, at: nat, v: nat)
    requires at + 2 <= p.Length
    modifies p
    ensures p[..] == Overwrite(old(p[..]), at, Bytes(v, 2))
  {
    assert Bytes(v, 2) == [v % 256, v / 256 % 256];
    p[at], p[at + 1] := v % 256, v / 256 % 256;
  }

  lemma FourBytes(v: nat)
    ensures Bytes(v, 4) == [v % 256, v / 0x100 % 256, v / 0x1_0000 % 256, v / 0x100_0000 % 256]
  {
    assert v / 256 / 256 == v / 0x1_0000 && v / 0x1_0000 / 256 == v / 0x100_0000;
    assert Bytes(v / 0x100_0000, 1) == [v / 0x100_0000 % 256];
    assert Bytes(v / 0x1_0000, 2) == [v / 0x1_0000 % 256] + Bytes(v / 0x100_0000, 1);
    assert Bytes(v / 0x100, 3) == [v / 0x100 % 256] + Bytes(v / 0x1_0000, 2);
  }

  method PutU32(p: array<byte>, at: nat, v: nat)
    requires at + 4 <= p.Length
    modifies p
    ensures p[..] == Overwrite(old(p[..]), at, Bytes(v, 4))
  {
    FourBytes(v);
    p[at], p[at + 1] := v % 256, v / 0x100 % 256;
    p[at + 2], p[at + 3] := v / 0x1_0000 % 256, v / 0x100_0000 % 256;
  }

  lemma FirstByte(v: nat, n: nat)
    requires n > 0
    ensures Bytes(v, n)[0] == v % 256 && Bytes(v, n)[1..] == Bytes(v / 256, n - 1)
  {
  }

  /** One byte a turn, like the shifts by 8 it stands for. */
  method PutU64(p: array<byte>, at: nat, v: nat)
    requires at + 8 <= p.Length
    modifies p
    ensures p[..] == Overwrite(old(p[..]), at, Bytes(v, 8))
  {
    hide Bytes, Overwrite;
    var rest: nat := v;
    ghost var all := Bytes(v, 8);
    NothingOver(p[..], at);
    for i := 0 to 8
      invariant all[i..] == Bytes(rest, 8 - i)
      invariant p[..] == Overwrite(old(p[..]), at, all[..i])
    {
      FirstByte(rest, 8 - i);
      assert all[i] == rest % 256 && all[i + 1..] == Bytes(rest / 256, 7 - i);
      OneMore(old(p[..]), at, all[..i], rest % 256);
      p[at + i] := rest % 256;
      rest := rest / 256;
      assert all[..i + 1] == all[..i] + [all[i]];
    }
    assert all[..8] == all;
  }

  /** The C shift `x << (8 * k)`. */
  function Shift8(x: nat, k: nat): nat {
    if k == 0 then x else 256 * Shift8(x, k - 1)
  }

  lemma {:induction false} NumberGrows(bs: seq<byte>, b: byte)
    ensures LittleEndian(bs + [b]) == LittleEndian(bs) + Shift8(b, |bs|)
    decreases |bs|
  {
    if bs == [] {
      assert bs + [b] == [b] && [b][1..] == [];
    } else {
      NumberGrows(bs[1..], b);
      assert (bs + [b])[1..] == bs[1..] + [b];
    }
  }

  method GetU64(p: seq<byte>, at: nat) returns (v: nat)
    requires at + 8 <= |p|
    ensures v == LittleEndian(p[at..at + 8])
  {
    v := 0;
    for i := 0 to 8
      invariant v == LittleEndian(p[at..at + i])
    {
      NumberGrows(p[at..at + i], p[at + i]);
      assert p[at..at + i] + [p[at + i]] == p[at..at + i + 1];
      v := v + Shift8(p[at + i], i);
    }
  }

  // ----------------------------------------------------------- the envelope

  function Header(kind: nat, payload: nat): (h: seq<byte>)
    ensures |h| == HEADER_BYTES
  {
    Bytes(MAGIC, 4) + Bytes(VERSION, 2) + Bytes(kind, 2) + Bytes(payload, 8)
  }

  /** The envelope byte by byte: the letters FYSM, version 1, the kind, and the payload's length. */
  lemma EnvelopeLayout(kind: nat, payload: nat)
    requires kind < 0x1_0000 && payload < 0x1_0000_0000_0000_0000
    ensures var h := Header(kind, payload);
            && |h| == 16 && h[..6] == [0x46, 0x59, 0x53, 0x4D, 1, 0]
            && LittleEndian(h[6..8]) == kind && LittleEndian(h[8..16]) == payload
  {
    hide LittleEndian, Pow256;
    Widths();
    BytesThenNumber(kind, 2);
    BytesThenNumber(payload, 8);
    Literals();
    var h := Header(kind, payload);
    assert h[..6] == Bytes(MAGIC, 4) + Bytes(VERSION, 2);
    assert h[6..8] == Bytes(kind, 2) && h[8..16] == Bytes(payload, 8);
  }

  lemma Literals()
    ensures Bytes(MAGIC, 4) == [0x46, 0x59, 0x53, 0x4D] && Bytes(VERSION, 2) == [1, 0]
  {
    assert Bytes(0x4D, 1) == [0x4D] + Bytes(0, 0);
    assert Bytes(0x4D53, 2) == [0x53] + Bytes(0x4D, 1);
    assert Bytes(0x4D_5359, 3) == [0x59] + Bytes(0x4D53, 2);
    assert Bytes(0, 1) == [0] + Bytes(0, 0);
  }

  /** Writes the envelope and reports its size, or 0 and nothing written when it does not fit. */
  method WriteHeader(out: array<byte>, kind: nat, payload: nat) returns (written: nat)
    modifies out
    ensures written == if out.Length < HEADER_BYTES then 0 else HEADER_BYTES
    ensures out[..] == if written == 0 then old(out[..]) else Overwrite(old(out[..]), 0, Header(kind, payload))
  {
    if out.Length < HEADER_BYTES {
      return 0;
    }
    hide Bytes, Overwrite;
    ghost var before := out[..];
    PutU32(out, 0, MAGIC);
    PutU16(out, 4, VERSION);
    OverwriteTwice(before, 0, Bytes(MAGIC, 4), Bytes(VERSION, 2));
    PutU16(out, 6, kind);
    OverwriteTwice(before, 0, Bytes(MAGIC, 4) + Bytes(VERSION, 2), Bytes(kind, 2));
    PutU64(out, 8, payload);
    OverwriteTwice(before, 0, Bytes(MAGIC, 4) + Bytes(VERSION, 2) + Bytes(kind, 2), Bytes(payload, 8));
    return HEADER_BYTES;
  }

  datatype Envelope = Envelope(kind: nat, payload: nat)

  /** Checks magic, version, and that the declared payload fits behind the header. */
  function ReadHeader(s: seq<byte>): Option<Envelope> {
    if |s| < HEADER_BYTES then None
    else if LittleEndian(s[0..4]) != MAGIC then None
    else if LittleEndian(s[4..6]) != VERSION then None
    else if LittleEndian(s[8..16]) > |s| - HEADER_BYTES then None
    else Some(Envelope(LittleEndian(s[6..8]), LittleEndian(s[8..16])))
  }

  /** A buffer is accepted exactly when it begins with the header of some kind and payload size and
      that payload fits inside it; kind and size are then the ones written. */
  lemma HeaderRoundTrip(s: seq<byte>, kind: nat, payload: nat)
    requires kind < 0x1_0000 && payload < TWO_64
    ensures ReadHeader(s) == Some(Envelope(kind, payload))
            <==> HEADER_BYTES + payload <= |s| && s[..HEADER_BYTES] == Header(kind, payload)
  {
    Widths();
    if |s| >= HEADER_BYTES {
      BytesThenNumber(MAGIC, 4);
      BytesThenNumber(VERSION, 2);
      BytesThenNumber(kind, 2);
      BytesThenNumber(payload, 8);
      NumberThenBytes(s[0..4]);
      NumberThenBytes(s[4..6]);
      NumberThenBytes(s[6..8]);
      NumberThenBytes(s[8..16]);
      HeaderParts(s, kind, payload);
    }
  }

  lemma HeaderParts(s: seq<byte>, kind: nat, payload: nat)
    requires |s| >= HEADER_BYTES
    ensures s[..HEADER_BYTES] == Header(kind, payload)
            <==> s[0..4] == Bytes(MAGIC, 4) && s[4..6] == Bytes(VERSION, 2) &&
                 s[6..8] == Bytes(kind, 2) && s[8..16] == Bytes(payload, 8)
  {
    hide Bytes;
    var h := Header(kind, payload);
    assert h[0..4] == Bytes(MAGIC, 4) && h[4..6] == Bytes(VERSION, 2) && h[6..8] == Bytes(kind, 2)
           && h[8..16] == Bytes(payload, 8);
    assert s[..HEADER_BYTES] == s[0..4] + s[4..6] + s[6..8] + s[8..16];
    if s[..HEADER_BYTES] == h {
      assert s[0..4] == h[0..4] && s[4..6] == h[4..6] && s[6..8] == h[6..8] && s[8..16] == h[8..16];
    }
  }

  /** Whatever is accepted declares a payload that fits. */
  lemma AcceptedFits(s: seq<byte>)
    requires ReadHeader(s).Some?
    ensures HEADER_BYTES + ReadHeader(s).value.payload <= |s|
    ensures ReadHeader(s).value.kind < 0x1_0000 && ReadHeader(s).value.payload < TWO_64
  {
    Widths();
    NumberThenBytes(s[6..8]);
    NumberThenBytes(s[8..16]);
  }
}
