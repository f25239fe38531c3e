/** The two LEB128 readers of the interpreter and the canonical encodings they invert
    (section 5.2.2 of the WebAssembly Core Specification 2.0). */
module Leb128 {
  import opened Core

  datatype Leb = Leb(value: int, next: nat)

  // ---------------------------------------------------------------- unsigned

  /** Groups `k`, `k + 1`, ... of an unsigned number whose next byte is `body[i]`, weighted from
      group `k`; the reader gives up after ten groups and at the end of the buffer. */
  function ULebGroups(body: seq<byte>, i: nat, k: nat): (r: Result<Leb>)
    ensures r.Success? ==> i < r.value.next <= |body| && r.value.value >= 0
    decreases |body| - i
  {
    if i >= |body| || k >= 10 then
      Failure(Stream)
    else if body[i] < 128 then
      Success(Leb(body[i], i + 1))
    else
      var rest :- ULebGroups(body, i + 1, k + 1);
      Success(Leb(body[i] - 128 + 128 * rest.value, rest.next))
  }

  /** The unsigned reader: the groups, cut to 64 bits. */
  function ReadULeb(body: seq<byte>, cursor: nat): (r: Result<Leb>)
    ensures r.Success? ==> cursor < r.value.next <= |body| && 0 <= r.value.value < TWO_64
  {
    var l :- ULebGroups(body, cursor, 0);
    Success(Leb(l.value % TWO_64, l.next))
  }

  /** The C shift `x << (7 * k)`, before it is cut to 64 bits. */
  function Shift(x: int, k: nat): int {
    if k == 0 then x else 128 * Shift(x, k - 1)
  }

  lemma {:induction false} ShiftAdds(x: int, y: int, k: nat)
    ensures Shift(x + y, k) == Shift(x, k) + Shift(y, k)
  {
    if k > 0 {
      ShiftAdds(x, y, k - 1);
    }
  }

  lemma {:induction false} ShiftAgain(x: int, k: nat)
    ensures Shift(128 * x, k) == Shift(x, k + 1)
  {
    if k > 0 {
      ShiftAgain(x, k - 1);
    }
  }

  /** Adding a reduced and an unreduced term gives the same residue. */
  lemma AddModulo(x: int, y: int)
    ensures (x % TWO_64 + y) % TWO_64 == (x + y) % TWO_64
  {
    var q := x / TWO_64;
    assert x + y == (x % TWO_64 + y) + q * TWO_64;
    ModuloShift(x % TWO_64 + y, q);
  }

  lemma ModuloShift(x: int, q: int)
    ensures (x + q * TWO_64) % TWO_64 == x % TWO_64
  {
  }

  /** One group taken into a 64-bit accumulator leaves the same final number to reach. */
  lemma TakeGroup(acc: int, k: nat, low: int, v: int)
    ensures (acc + Shift(low + 128 * v, k)) % TWO_64 == ((acc + Shift(low, k)) % TWO_64 + Shift(v, k + 1)) % TWO_64
  {
    ShiftAdds(low, 128 * v, k);
    ShiftAgain(v, k);
    AddModulo(acc + Shift(low, k), Shift(v, k + 1));
  }

  /** What is read when `acc` holds the groups before `k`. */
  ghost function Resume(groups: Result<Leb>, acc: int, k: nat): Result<Leb> {
    var l :- groups;
    Success(Leb((acc + Shift(l.value, k)) % TWO_64, l.next))
  }

  lemma ResumeGroup(rest: Result<Leb>, acc: int, k: nat, low: int)
    ensures var groups := if rest.Failure? then rest
                          else Success(Leb(low + 128 * rest.value.value, rest.value.next));
            Resume(groups, acc, k) == Resume(rest, (acc + Shift(low, k)) % TWO_64, k + 1)
  {
    hide Shift;
    if rest.Success? {
      TakeGroup(acc, k, low, rest.value.value);
    }
  }

  lemma UnsignedStart(body: seq<byte>, cursor: nat)
    ensures ReadULeb(body, cursor) == Resume(ULebGroups(body, cursor, 0), 0, 0)
  {
    hide ULebGroups;
  }

  lemma UnsignedOut(body: seq<byte>, i: nat, k: nat)
    requires i >= |body|
    ensures ULebGroups(body, i, k) == Failure(Stream)
  {
  }

  /** One turn of the unsigned reader. */
  lemma UnsignedTurn(body: seq<byte>, i: nat, k: nat, acc: int)
    requires i < |body| && k < 10
    ensures var b := body[i]; var acc' := (acc + Shift(b % 128, k)) % TWO_64;
            Resume(ULebGroups(body, i, k), acc, k)
            == if b < 128 then Success(Leb(acc', i + 1))
               else if k == 9 then Failure(Stream)
               else Resume(ULebGroups(body, i + 1, k + 1), acc', k + 1)
  {
    hide Shift;
    ResumeGroup(ULebGroups(body, i + 1, k + 1), acc, k, body[i] % 128);
  }

  method ReadULeb128(body: seq<byte>, cursor: nat) returns (r: Result<Leb>)
    ensures r == ReadULeb(body, cursor)
  {
    hide Shift, ULebGroups;
    UnsignedStart(body, cursor);
    var result, k, index := 0, 0, cursor;
    while index < |body|
      invariant cursor <= index && 0 <= k < 10
      invariant ReadULeb(body, cursor) == Resume(ULebGroups(body, index, k), result, k)
      decreases |body| - index
    {
      var b := body[index];
      UnsignedTurn(body, index, k, result);
      result, index := (result + Shift(b % 128, k)) % TWO_64, index + 1;
      if b < 128 {
        return Success(Leb(result, index));
      }
      k := k + 1;
      if k >= 10 {
        return Failure(Stream);
      }
    }
    UnsignedOut(body, index, k);
    return Failure(Stream);
  }

  function EncodeU(n: nat): seq<byte> {
    if n < 128 then [n] else [n % 128 + 128] + EncodeU(n / 128)
  }

  /** One more than the largest number that fits in the groups from `k` on. */
  function URoom(k: nat): int
    requires k <= 9
    decreases 9 - k
  {
    if k == 9 then 2 else 128 * URoom(k + 1)
  }

  /** `piece` lies in `body` at `at`. */
  predicate LiesAt(body: seq<byte>, at: nat, piece: seq<byte>) {
    at + |piece| <= |body| && body[at..at + |piece|] == piece
  }

  lemma LiesInside(body: seq<byte>, at: nat, piece: seq<byte>)
    requires LiesAt(body, at, piece)
    ensures at + |piece| <= |body|
  {
  }

  lemma LiesTail(body: seq<byte>, at: nat, piece: seq<byte>)
    requires LiesAt(body, at, piece) && piece != []
    ensures body[at] == piece[0] && LiesAt(body, at + 1, piece[1..])
  {
    assert body[at] == body[at..at + |piece|][0];
    assert body[at + 1..at + |piece|] == body[at..at + |piece|][1..];
  }

  lemma {:induction false} UGroupsOfEncoding(body: seq<byte>, at: nat, n: nat, k: nat)
    requires k <= 9 && n < URoom(k) && LiesAt(body, at, EncodeU(n))
    ensures ULebGroups(body, at, k) == Success(Leb(n, at + |EncodeU(n)|))
    decreases n
  {
    LiesTail(body, at, EncodeU(n));
    if n >= 128 {
      assert k < 9;
      assert EncodeU(n)[1..] == EncodeU(n / 128);
      UGroupsOfEncoding(body, at + 1, n / 128, k + 1);
    }
  }

  /** Any 64-bit unsigned number survives encode and decode, in any surrounding buffer. */
  lemma {:induction false} ULebRoundTrip(body: seq<byte>, at: nat, n: nat)
    requires n < TWO_64 && LiesAt(body, at, EncodeU(n))
    ensures ReadULeb(body, at) == Success(Leb(n, at + |EncodeU(n)|))
  {
    assert URoom(5) == 2 * 128 * 128 * 128 * 128 by {
      assert URoom(8) == 256 && URoom(7) == 128 * 256 && URoom(6) == 128 * 128 * 256;
    }
    assert URoom(4) == 128 * URoom(5) && URoom(3) == 128 * URoom(4);
    assert URoom(2) == 128 * URoom(3) && URoom(1) == 128 * URoom(2) && URoom(0) == TWO_64;
    UGroupsOfEncoding(body, at, n, 0);
  }

  lemma {:induction false} ULebGroupsAccept(body: seq<byte>, i: nat, k: nat)
    requires k <= 10
    ensures ULebGroups(body, i, k).Success? <==>
            exists j :: i <= j < |body| && j - i < 10 - k && body[j] < 128
    decreases |body| - i
  {
    if i < |body| && k < 10 && body[i] >= 128 {
      ULebGroupsAccept(body, i + 1, k + 1);
      if j :| i <= j < |body| && j - i < 10 - k && body[j] < 128 {
        assert i + 1 <= j;
      }
    } else if i < |body| && k < 10 {
      assert i <= i < |body| && body[i] < 128;
    }
  }

  /** The unsigned reader succeeds exactly when one of the next ten bytes ends the number. */
  lemma ULebAccepts(body: seq<byte>, cursor: nat)
    ensures ReadULeb(body, cursor).Success? <==>
            exists j :: cursor <= j < |body| && j < cursor + 10 && body[j] < 128
  {
    ULebGroupsAccept(body, cursor, 0);
    if j :| cursor <= j < |body| && j < cursor + 10 && body[j] < 128 {
      assert j - cursor < 10 - 0;
    }
  }

  // ------------------------------------------------------------------ signed

  /** As `ULebGroups`, with the sign carried by bit 6 of the last byte read. A number cut off by
      the end of the buffer is accepted as it stands. */
  function SLebGroups(body: seq<byte>, i: nat, k: nat): (r: Result<Leb>)
    ensures r.Success? ==> i < r.value.next <= |body|
    decreases |body| - i
  {
    if i >= |body| || k >= 10 then
      Failure(Stream)
    else
      var low := body[i] % 128;
      if body[i] < 128 || (k < 9 && i + 1 == |body|) then
        Success(Leb(if k < 9 && low >= 64 then low - 128 else low, i + 1))
      else
        var rest :- SLebGroups(body, i + 1, k + 1);
        Success(Leb(low + 128 * rest.value, rest.next))
  }

  /** Two's complement reading of the low 64 bits. */
  function ToI64(x: int): (r: int)
    ensures -TWO_63 <= r < TWO_63
  {
    var u := x % TWO_64;
    if u < TWO_63 then u else u - TWO_64
  }

  function ReadSLeb(body: seq<byte>, cursor: nat): (r: Result<Leb>)
    ensures r.Success? ==> cursor < r.value.next <= |body| && -TWO_63 <= r.value.value < TWO_63
  {
    var l :- SLebGroups(body, cursor, 0);
    Success(Leb(ToI64(l.value), l.next))
  }

  ghost function Signed(r: Result<Leb>): Result<Leb> {
    var l :- r;
    Success(Leb(ToI64(l.value), l.next))
  }

  /** The result once the last group is in: `k` groups taken, bit 6 of the last one is the
      sign unless all 64 bits are already filled. */
  ghost function Closed(result: int, k: nat, last: byte, next: nat): Result<Leb> {
    Success(Leb(ToI64(if k < 10 && (last / 64) % 2 == 1 then result - Shift(1, k) else result), next))
  }

  lemma CloseGroup(acc: int, k: nat, b: byte, next: nat)
    requires k < 10
    ensures var low := b % 128;
            var sign := if k < 9 && low >= 64 then low - 128 else low;
            Signed(Resume(Success(Leb(sign, next)), acc, k))
            == Closed((acc + Shift(low, k)) % TWO_64, k + 1, b, next)
  {
    hide Shift;
    var low := b % 128;
    assert (b / 64) % 2 == 1 <==> low >= 64;
    if k < 9 && low >= 64 {
      ShiftAdds(low - 128, 128, k);
      ShiftAgain(1, k);
      AddModulo(acc + Shift(low, k), -Shift(1, k + 1));
    }
  }

  /** One turn of the signed reader. */
  lemma SignedTurn(body: seq<byte>, i: nat, k: nat, acc: int)
    requires i < |body| && k < 10
    ensures var b := body[i]; var acc' := (acc + Shift(b % 128, k)) % TWO_64;
            Signed(Resume(SLebGroups(body, i, k), acc, k))
            == if b < 128 || (k < 9 && i + 1 == |body|) then Closed(acc', k + 1, b, i + 1)
               else if k == 9 then Failure(Stream)
               else Signed(Resume(SLebGroups(body, i + 1, k + 1), acc', k + 1))
  {
    hide Shift, Closed;
    CloseGroup(acc, k, body[i], i + 1);
    ResumeGroup(SLebGroups(body, i + 1, k + 1), acc, k, body[i] % 128);
  }

  lemma SignedStart(body: seq<byte>, cursor: nat)
    ensures ReadSLeb(body, cursor) == Signed(Resume(SLebGroups(body, cursor, 0), 0, 0))
  {
    hide SLebGroups;
  }

  method ReadSLeb128(body: seq<byte>, cursor: nat) returns (r: Result<Leb>)
    ensures r == ReadSLeb(body, cursor)
  {
    hide Shift;
    if cursor >= |body| {
      return Failure(Stream);
    }
    SignedStart(body, cursor);
    var result, k, index: nat := 0, 0, cursor;
    var b: byte := 0;
    while index < |body|
      invariant cursor <= index <= |body| && 0 <= k < 10
      invariant index < |body| ==> ReadSLeb(body, cursor) == Signed(Resume(SLebGroups(body, index, k), result, k))
      invariant index == |body| ==> ReadSLeb(body, cursor) == Closed(result, k, b, index)
    {
      b := body[index];
      SignedTurn(body, index, k, result);
      result, index := (result + Shift(b % 128, k)) % TWO_64, index + 1;
      k := k + 1;
      if b < 128 {
        break;
      }
      if k >= 10 {
        return Failure(Stream);
      }
    }
    if k < 10 && (b / 64) % 2 == 1 {
      result := result - Shift(1, k);
    }
    return Success(Leb(ToI64(result), index));
  }

  function EncodeS(n: int): (r: seq<byte>)
    ensures r != []
    decreases if n < 0 then -n else n
  {
    if -64 <= n < 64 then [n % 128] else [n % 128 + 128] + EncodeS(n / 128)
  }

  /** Half the signed range of the groups from `k` on: group 9 holds only the sign. */
  function SRoom(k: nat): int
    requires k <= 9
    decreases 9 - k
  {
    if k == 9 then 1 else 128 * SRoom(k + 1)
  }

  /** What a negative tenth group adds too much: 128 in units of group 9. */
  function Excess(k: nat): int
    requires k <= 9
    decreases 9 - k
  {
    if k == 9 then 128 else 128 * Excess(k + 1)
  }

  lemma EncodeSStep(n: int, room: int)
    requires -(128 * room) <= n < 128 * room && !(-64 <= n < 64)
    ensures -room <= n / 128 < room
    ensures (if n / 128 < 0 then -(n / 128) else n / 128) < (if n < 0 then -n else n)
    ensures EncodeS(n)[0] == n % 128 + 128 && EncodeS(n)[1..] == EncodeS(n / 128) && |EncodeS(n)| > 1
  {
  }

  lemma EncodeSBase(n: int)
    requires -64 <= n < 64
    ensures EncodeS(n) == [n % 128]
  {
  }

  lemma SGroupStep(body: seq<byte>, at: nat, k: nat, rest: Leb)
    requires at + 1 < |body| && body[at] >= 128 && k < 10
    requires SLebGroups(body, at + 1, k + 1) == Success(rest)
    ensures SLebGroups(body, at, k) == Success(Leb(body[at] - 128 + 128 * rest.value, rest.next))
  {
  }

  lemma SGroupEnd(body: seq<byte>, at: nat, n: int, k: nat) returns (l: Leb)
    requires k <= 9 && at < |body| && body[at] == n % 128 && -64 <= n < 64 && (k == 9 ==> n == 0 || n == -1)
    ensures SLebGroups(body, at, k) == Success(l) && l.next == at + 1
    ensures l.value == if k == 9 && n < 0 then n + 128 else n
  {
    l := Leb(if k < 9 && n % 128 >= 64 then n % 128 - 128 else n % 128, at + 1);
  }

  lemma {:induction false} SGroupsOfEncoding(body: seq<byte>, at: nat, n: int, k: nat) returns (l: Leb)
    requires k <= 9 && -SRoom(k) <= n < SRoom(k) && LiesAt(body, at, EncodeS(n))
    ensures SLebGroups(body, at, k) == Success(l) && l.next == at + |EncodeS(n)|
    ensures l.value == n || l.value == n + Excess(k)
    decreases if n < 0 then -n else n
  {
    hide SLebGroups, EncodeS, LiesAt;
    LiesTail(body, at, EncodeS(n));
    LiesInside(body, at, EncodeS(n));
    if -64 <= n < 64 {
      EncodeSBase(n);
      l := SGroupEnd(body, at, n, k);
    } else {
      EncodeSStep(n, SRoom(k + 1));
      var rest := SGroupsOfEncoding(body, at + 1, n / 128, k + 1);
      SGroupStep(body, at, k, rest);
      l := Leb(n % 128 + 128 * rest.value, rest.next);
    }
  }

  lemma SignedRooms()
    ensures SRoom(0) == TWO_63 && Excess(0) == 64 * TWO_64
  {
    assert SRoom(8) == 128 && SRoom(7) == 128 * 128 && SRoom(6) == 128 * 128 * 128;
    assert SRoom(5) == 128 * SRoom(6) && SRoom(4) == 128 * SRoom(5) && SRoom(3) == 128 * SRoom(4);
    assert SRoom(2) == 128 * SRoom(3) && SRoom(1) == 128 * SRoom(2) && SRoom(0) == 128 * SRoom(1);
    assert Excess(8) == 128 * 128 && Excess(7) == 128 * Excess(8) && Excess(6) == 128 * Excess(7);
    assert Excess(5) == 128 * Excess(6) && Excess(4) == 128 * Excess(5) && Excess(3) == 128 * Excess(4);
    assert Excess(2) == 128 * Excess(3) && Excess(1) == 128 * Excess(2) && Excess(0) == 128 * Excess(1);
  }

  /** Any 64-bit signed number survives encode and decode, in any surrounding buffer. */
  lemma {:induction false} SLebRoundTrip(body: seq<byte>, at: nat, n: int)
    requires -TWO_63 <= n < TWO_63 && LiesAt(body, at, EncodeS(n))
    ensures ReadSLeb(body, at) == Success(Leb(n, at + |EncodeS(n)|))
  {
    hide SLebGroups, EncodeS, LiesAt;
    SignedRooms();
    var l := SGroupsOfEncoding(body, at, n, 0);
    ModuloShift(n, 64);
  }

  lemma {:induction false} SLebGroupsAccept(body: seq<byte>, i: nat, k: nat)
    requires k <= 10
    ensures SLebGroups(body, i, k).Success? <==>
            (exists j :: i <= j < |body| && j - i < 10 - k && body[j] < 128) || 1 <= |body| - i <= 9 - k
    decreases |body| - i
  {
    if i < |body| && k < 10 && body[i] >= 128 {
      SLebGroupsAccept(body, i + 1, k + 1);
      if j :| i <= j < |body| && j - i < 10 - k && body[j] < 128 {
        assert i + 1 <= j;
      }
    } else if i < |body| && k < 10 {
      assert i <= i < |body| && body[i] < 128;
    }
  }

  /** The signed reader succeeds exactly when one of the next ten bytes ends the number, or the buffer
      ends within the next nine: an unterminated tail is refused only if it is empty or has ten bytes
      or more. */
  lemma SLebAccepts(body: seq<byte>, cursor: nat)
    ensures ReadSLeb(body, cursor).Success? <==>
            (exists j :: cursor <= j < |body| && j < cursor + 10 && body[j] < 128) || 1 <= |body| - cursor <= 9
  {
    SLebGroupsAccept(body, cursor, 0);
    if j :| cursor <= j < |body| && j < cursor + 10 && body[j] < 128 {
      assert j - cursor < 10 - 0;
    }
  }

  /** The two readers part on exactly the numbers cut off by the end of the buffer within nine bytes:
      the signed one takes them. */
  lemma SLebTakesTruncated(body: seq<byte>, cursor: nat)
    ensures ReadSLeb(body, cursor).Success? && ReadULeb(body, cursor).Failure? <==>
            1 <= |body| - cursor <= 9 && forall j :: cursor <= j < |body| ==> body[j] >= 128
    ensures ReadULeb(body, cursor).Success? ==> ReadSLeb(body, cursor).Success?
  {
    SLebAccepts(body, cursor);
    ULebAccepts(body, cursor);
  }

  /** Such a number and its value. */
  lemma TruncatedWitness()
    ensures ReadSLeb([0x80, 0x81], 0) == Success(Leb(128, 2))
    ensures ReadULeb([0x80, 0x81], 0) == Failure(Stream)
  {
    assert SLebGroups([0x80, 0x81], 1, 1) == Success(Leb(1, 2));
    assert ULebGroups([0x80, 0x81], 2, 2) == Failure(Stream);
    assert ULebGroups([0x80, 0x81], 1, 1) == Failure(Stream);
  }
}
