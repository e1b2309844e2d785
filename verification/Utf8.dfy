/** Bytes, and which byte strings are UTF-8 (The Unicode Standard, table 3-7). */
module Utf8 {
  type Byte = b: int | 0 <= b < 256
  type Bytes = seq<Byte>

  predicate InRange(b: Bytes, i: nat, lo: int, hi: int) {
    i < |b| && lo <= b[i] <= hi
  }

  function SecondLow(first: Byte): int {
    if first == 0xE0 then 0xA0 else if first == 0xF0 then 0x90 else 0x80
  }

  function SecondHigh(first: Byte): int {
    if first == 0xED then 0x9F else if first == 0xF4 then 0x8F else 0xBF
  }

  /** How many bytes the decoder takes for the character, or the replacement character, at the front. */
  function Taken(b: Bytes): (n: nat)
    requires b != []
    ensures 1 <= n <= |b| && n <= 4
    ensures b[0] < 128 ==> n == 1
  {
    if !(0xC2 <= b[0] <= 0xF4) || !InRange(b, 1, SecondLow(b[0]), SecondHigh(b[0])) then 1
    else if b[0] < 0xE0 || !InRange(b, 2, 0x80, 0xBF) then 2
    else if b[0] < 0xF0 || !InRange(b, 3, 0x80, 0xBF) then 3
    else 4
  }

  /** The bytes that a character starting with `first` must have; 0 if none can start so. */
  function Needed(first: Byte): nat {
    if first < 0x80 then 1
    else if first < 0xC2 then 0
    else if first < 0xE0 then 2
    else if first < 0xF0 then 3
    else if first <= 0xF4 then 4
    else 0
  }

  predicate Valid(b: Bytes)
    decreases |b|
  {
    b == [] || (Taken(b) == Needed(b[0]) && Valid(b[Taken(b)..]))
  }

  /** The `length` of the decoded string in UTF-16 units: a four-byte character is a surrogate pair. */
  function DecodedLength(b: Bytes): (n: nat)
    ensures n <= |b|
  {
    if b == [] then 0
    else (if Taken(b) == 4 then 2 else 1) + DecodedLength(b[Taken(b)..])
  }

  lemma {:induction false} AsciiLength(b: Bytes)
    requires forall i :: 0 <= i < |b| ==> b[i] < 128
    ensures DecodedLength(b) == |b|
  {
    if b != [] { AsciiLength(b[1..]); }
  }

  lemma {:induction false} AsciiPrefix(a: Bytes, b: Bytes)
    requires forall i :: 0 <= i < |a| ==> a[i] < 128
    ensures DecodedLength(a + b) == |a| + DecodedLength(b)
  {
    if a == [] {
      assert a + b == b;
    } else {
      AsciiPrefix(a[1..], b);
      assert (a + b)[1..] == a[1..] + b;
    }
  }

  lemma TakenStopsAtAscii(b: Bytes, k: nat)
    requires 0 < k < |b| && b[k] < 128
    ensures Taken(b) <= k && Taken(b[..k]) == Taken(b)
  {
    var a := b[..k];
    assert a[0] == b[0] && |a| == k;
    assert forall i :: 0 <= i < k ==> a[i] == b[i];
  }

  /** No character reaches across an ASCII byte, so the length is the sum of the lengths before and from it. */
  lemma {:induction false} LengthSplits(b: Bytes, k: nat)
    requires k < |b| && b[k] < 128
    ensures DecodedLength(b) == DecodedLength(b[..k]) + DecodedLength(b[k..])
    ensures k > 0 ==> DecodedLength(b[..k]) > 0
    decreases |b|
  {
    if k == 0 {
      assert b[..0] == [] && b[0..] == b;
    } else {
      TakenStopsAtAscii(b, k);
      hide Taken;
      var n := Taken(b);
      LengthSplits(b[n..], k - n);
      assert b[n..][..k - n] == b[..k][n..] && b[n..][k - n..] == b[k..];
    }
  }

  lemma {:induction false} ValidThenAscii(b: Bytes, last: Byte)
    requires Valid(b) && last < 128
    ensures Valid(b + [last])
    decreases |b|
  {
    if b == [] {
      assert (b + [last])[1..] == [];
    } else {
      var n := Taken(b);
      assert Taken(b + [last]) == n;
      assert (b + [last])[n..] == b[n..] + [last];
      ValidThenAscii(b[n..], last);
    }
  }

  // ---- which bytes the encoding makes ----

  predicate Scalar(u: int) {
    0 <= u < 0xD800 || 0xE000 <= u < 0x11_0000
  }

  /** The UTF-8 encoding of one Unicode scalar value. */
  function Encode(u: int): Bytes
    requires Scalar(u)
  {
    if u < 0x80 then [u]
    else if u < 0x800 then [0xC0 + u / 64, 0x80 + u % 64]
    else if u < 0x1_0000 then [0xE0 + u / 64 / 64, 0x80 + u / 64 % 64, 0x80 + u % 64]
    else [0xF0 + u / 64 / 64 / 64, 0x80 + u / 64 / 64 % 64, 0x80 + u / 64 % 64, 0x80 + u % 64]
  }

  function EncodeAll(us: seq<int>): Bytes
    requires forall u <- us :: Scalar(u)
  {
    if us == [] then [] else Encode(us[0]) + EncodeAll(us[1..])
  }

  /** UTF-16 units: two for a scalar value beyond the first plane. */
  function Units(us: seq<int>): nat {
    if us == [] then 0 else (if us[0] < 0x1_0000 then 1 else 2) + Units(us[1..])
  }

  lemma EncodedIsTaken(u: int, rest: Bytes)
    requires Scalar(u)
    ensures var b := Encode(u) + rest; Taken(b) == |Encode(u)| == Needed(b[0])
    ensures (Encode(u) + rest)[|Encode(u)|..] == rest
  {
    var b := Encode(u) + rest;
    assert forall i :: 0 <= i < |Encode(u)| ==> b[i] == Encode(u)[i];
  }

  lemma {:induction false} EncodedIsValid(us: seq<int>)
    requires forall u <- us :: Scalar(u)
    ensures Valid(EncodeAll(us)) && DecodedLength(EncodeAll(us)) == Units(us)
  {
    hide Taken, Encode, Needed;
    if us != [] {
      EncodedIsValid(us[1..]);
      EncodedIsTaken(us[0], EncodeAll(us[1..]));
      FourBytesBeyondFirstPlane(us[0]);
    }
  }

  lemma FourBytesBeyondFirstPlane(u: int)
    requires Scalar(u)
    ensures 1 <= |Encode(u)| <= 4 && (|Encode(u)| == 4 <==> u >= 0x1_0000)
  {
  }

  /** The scalar values that two, three and four bytes stand for. */
  function Two(a: int, b: int): int {
    (a - 0xC0) * 64 + (b - 0x80)
  }

  function Three(a: int, b: int, c: int): int {
    ((a - 0xE0) * 64 + (b - 0x80)) * 64 + (c - 0x80)
  }

  function Four(a: int, b: int, c: int, d: int): int {
    (((a - 0xF0) * 64 + (b - 0x80)) * 64 + (c - 0x80)) * 64 + (d - 0x80)
  }

  lemma TwoIsEncoded(a: Byte, b: Byte)
    requires 0xC2 <= a < 0xE0 && 0x80 <= b <= 0xBF
    ensures Scalar(Two(a, b)) && Encode(Two(a, b)) == [a, b]
  {
  }

  lemma ThreeIsEncoded(a: Byte, b: Byte, c: Byte)
    requires 0xE0 <= a < 0xF0 && SecondLow(a) <= b <= SecondHigh(a) && 0x80 <= c <= 0xBF
    ensures Scalar(Three(a, b, c)) && Encode(Three(a, b, c)) == [a, b, c]
  {
    var u := Three(a, b, c);
    assert u / 64 == (a - 0xE0) * 64 + (b - 0x80);
  }

  lemma FourIsEncoded(a: Byte, b: Byte, c: Byte, d: Byte)
    requires 0xF0 <= a <= 0xF4 && SecondLow(a) <= b <= SecondHigh(a) && 0x80 <= c <= 0xBF && 0x80 <= d <= 0xBF
    ensures Scalar(Four(a, b, c, d)) && Encode(Four(a, b, c, d)) == [a, b, c, d]
  {
    var u := Four(a, b, c, d);
    assert u / 64 == ((a - 0xF0) * 64 + (b - 0x80)) * 64 + (c - 0x80);
    assert u / 64 / 64 == (a - 0xF0) * 64 + (b - 0x80);
  }

  /** The byte at `i` if it is among the `n` taken, and else the smallest that may follow. */
  function Following(b: Bytes, i: nat, n: nat): Byte
    requires n <= |b|
  {
    if i < n then b[i] else 0x80
  }

  /** The scalar value whose encoding begins with what is taken of `b`. */
  function Begun(b: Bytes): int
    requires b != [] && b[0] <= 0xF4 && (b[0] < 0x80 || Taken(b) > 1)
  {
    var n := Taken(b);
    if b[0] < 0x80 then b[0]
    else if b[0] < 0xE0 then Two(b[0], b[1])
    else if b[0] < 0xF0 then Three(b[0], b[1], Following(b, 2, n))
    else Four(b[0], b[1], Following(b, 2, n), Following(b, 3, n))
  }

  /** What is taken beyond one byte: a lead, a fitting second, and continuation bytes. */
  lemma TakenFits(b: Bytes)
    requires b != [] && Taken(b) > 1
    ensures 0xC2 <= b[0] <= 0xF4 && |b| >= 2 && SecondLow(b[0]) <= b[1] <= SecondHigh(b[0])
    ensures forall i :: 2 <= i < Taken(b) ==> 0x80 <= b[i] <= 0xBF
    ensures Taken(b) <= Needed(b[0])
  {
  }

  lemma BegunIsEncoded(b: Bytes)
    requires b != [] && b[0] <= 0xF4 && (b[0] < 0x80 || Taken(b) > 1)
    ensures Scalar(Begun(b)) && Taken(b) <= |Encode(Begun(b))| && |Encode(Begun(b))| == Needed(b[0])
    ensures Encode(Begun(b))[..Taken(b)] == b[..Taken(b)]
  {
    if b[0] >= 0x80 {
      TakenFits(b);
      hide Taken, Two, Three, Four, Encode;
      var n := Taken(b);
      if b[0] < 0xE0 {
        TwoIsEncoded(b[0], b[1]);
      } else if b[0] < 0xF0 {
        ThreeIsEncoded(b[0], b[1], Following(b, 2, n));
      } else {
        FourIsEncoded(b[0], b[1], Following(b, 2, n), Following(b, 3, n));
      }
    }
  }

  /** A byte string is valid exactly when it is the encoding of scalar values. */
  lemma ValidExactlyIfEncoded(b: Bytes)
    ensures Valid(b) <==> exists us :: (forall u <- us :: Scalar(u)) && b == EncodeAll(us)
  {
    hide Encode, EncodeAll;
    if Valid(b) {
      var us := Decoded(b);
    } else {
      forall us | forall u <- us :: Scalar(u) ensures b != EncodeAll(us) { EncodedIsValid(us); }
    }
  }

  lemma {:induction false} Decoded(b: Bytes) returns (us: seq<int>)
    requires Valid(b)
    ensures (forall u <- us :: Scalar(u)) && b == EncodeAll(us)
    decreases |b|
  {
    hide Encode, Taken, Begun;
    if b == [] {
      us := [];
    } else {
      var n := Taken(b);
      NeededMeansBegun(b);
      BegunIsEncoded(b);
      var rest := Decoded(b[n..]);
      us := [Begun(b)] + rest;
      assert b == b[..n] + b[n..];
    }
  }

  lemma NeededMeansBegun(b: Bytes)
    requires b != [] && Taken(b) == Needed(b[0])
    ensures b[0] <= 0xF4 && (b[0] < 0x80 || Taken(b) > 1)
  {
  }

  /**
   * What the decoder takes at once, also of an ill-formed string, is the longest beginning of an encoded scalar value,
   * and at least one byte.
   */
  lemma TakenIsMaximal(b: Bytes)
    requires b != []
    ensures Taken(b) > 1 ==> exists u :: Scalar(u) && b[..Taken(b)] <= Encode(u)
    ensures forall u, k | Scalar(u) && Taken(b) < k <= |b| :: !(b[..k] <= Encode(u))
  {
    hide Begun, Encode, Taken;
    if Taken(b) > 1 {
      LongTakesAreLeads(b);
      BegunIsEncoded(b);
      assert b[..Taken(b)] <= Encode(Begun(b));
    }
    forall u, k | Scalar(u) && Taken(b) < k <= |b| ensures !(b[..k] <= Encode(u)) {
      if b[..k] <= Encode(u) { PrefixIsTaken(b, u, k); }
    }
  }

  lemma LongTakesAreLeads(b: Bytes)
    requires b != [] && Taken(b) > 1
    ensures b[0] <= 0xF4
  {
  }

  lemma PrefixIsTaken(b: Bytes, u: int, k: nat)
    requires Scalar(u) && 0 < k <= |b| && b[..k] <= Encode(u)
    ensures k <= Taken(b)
  {
    var e := Encode(u);
    assert k <= |e| && forall i :: 0 <= i < k ==> b[i] == e[i] by {
      assert forall i :: 0 <= i < k ==> b[..k][i] == b[i];
    }
  }
}
