/** Rune decoding over arbitrary bytes, as section 4 of RFC 3629 defines well-formed UTF-8:
    an ill-formed position decodes to U+FFFD and consumes one byte. */
module Utf8 {
  import opened Prelude

  datatype Decoded = Decoded(rune: int, size: nat)

  const RUNE_ERROR := 0xFFFD

  predicate Continues(s: Bytes, i: nat, low: int, high: int) {
    i < |s| && low <= s[i] <= high
  }

  /** The payload bits of the continuation byte at i. */
  function Payload(s: Bytes, i: nat): int
    requires i < |s|
  {
    (s[i] as int) - 0x80
  }

  function DecodeAt(s: Bytes, i: nat): (d: Decoded)
    requires i < |s|
    ensures 1 <= d.size <= 4 && i + d.size <= |s|
    ensures s[i] < 0x80 ==> d == Decoded(s[i], 1)
    ensures s[i] >= 0x80 ==> d.rune >= 0x80
    ensures forall k :: i <= k < i + d.size && s[i] >= 0x80 ==> s[k] >= 0x80
  {
    var b: int := s[i];
    if b < 0x80 then Decoded(b, 1)
    else if 0xC2 <= b <= 0xDF && Continues(s, i + 1, 0x80, 0xBF) then
      Decoded((b - 0xC0) * 0x40 + Payload(s, i + 1), 2)
    else if 0xE0 <= b <= 0xEF
            && Continues(s, i + 1, if b == 0xE0 then 0xA0 else 0x80, if b == 0xED then 0x9F else 0xBF)
            && Continues(s, i + 2, 0x80, 0xBF) then
      Decoded((b - 0xE0) * 0x1000 + Payload(s, i + 1) * 0x40 + Payload(s, i + 2), 3)
    else if 0xF0 <= b <= 0xF4
            && Continues(s, i + 1, if b == 0xF0 then 0x90 else 0x80, if b == 0xF4 then 0x8F else 0xBF)
            && Continues(s, i + 2, 0x80, 0xBF) && Continues(s, i + 3, 0x80, 0xBF) then
      Decoded((b - 0xF0) * 0x40000 + Payload(s, i + 1) * 0x1000 + Payload(s, i + 2) * 0x40 + Payload(s, i + 3), 4)
    else Decoded(RUNE_ERROR, 1)
  }

  // ---- decoding is the inverse of the encoding of section 3 of RFC 3629 ----

  /** Unicode scalar values: no surrogates, nothing above U+10FFFF. */
  predicate Scalar(r: int) {
    0 <= r < 0xD800 || 0xE000 <= r <= 0x10FFFF
  }

  function Tail(r: int, shift: int): byte
    requires 0 <= r && 0 < shift
  {
    0x80 + r / shift % 0x40
  }

  function Encode(r: int): Bytes
    requires Scalar(r)
  {
    if r < 0x80 then [r]
    else if r < 0x800 then [0xC0 + r / 0x40, Tail(r, 1)]
    else if r < 0x10000 then [0xE0 + r / 0x1000, Tail(r, 0x40), Tail(r, 1)]
    else [0xF0 + r / 0x40000, Tail(r, 0x1000), Tail(r, 0x40), Tail(r, 1)]
  }

  predicate EncodedAt(s: Bytes, i: nat, r: int)
    requires Scalar(r)
  {
    i + |Encode(r)| <= |s| && forall k :: 0 <= k < |Encode(r)| ==> s[i + k] == Encode(r)[k]
  }

  lemma SplitTwo(r: int)
    requires 0x80 <= r < 0x800
    ensures 2 <= r / 0x40 < 0x20 && r / 0x40 * 0x40 + r / 1 % 0x40 == r
  {
  }

  lemma SplitThree(r: int)
    requires 0x800 <= r < 0x10000
    ensures 0 <= r / 0x1000 < 0x10 && r / 0x1000 * 0x1000 + r / 0x40 % 0x40 * 0x40 + r / 1 % 0x40 == r
    ensures r / 0x1000 == 0 ==> 0x20 <= r / 0x40 % 0x40
    ensures r < 0xD800 || r >= 0xE000 ==> (r / 0x1000 == 0xD ==> r / 0x40 % 0x40 < 0x20)
  {
  }

  lemma SplitFour(r: int)
    requires 0x10000 <= r <= 0x10FFFF
    ensures 0 <= r / 0x40000 < 5
    ensures r / 0x40000 * 0x40000 + r / 0x1000 % 0x40 * 0x1000 + r / 0x40 % 0x40 * 0x40 + r / 1 % 0x40 == r
    ensures r / 0x40000 == 0 ==> 0x10 <= r / 0x1000 % 0x40
    ensures r / 0x40000 == 4 ==> r / 0x1000 % 0x40 < 0x10
  {
    var q, p := r / 0x40, r / 0x1000;
    assert q / 0x40 == p;
    assert p / 0x40 == r / 0x40000;
    assert r == q * 0x40 + r / 1 % 0x40;
    assert q == p * 0x40 + q % 0x40;
  }

  /** An encoded scalar value decodes to itself, in any context. */
  lemma EncodedDecodes(s: Bytes, i: nat, r: int)
    requires Scalar(r) && EncodedAt(s, i, r)
    ensures i < |s| && DecodeAt(s, i) == Decoded(r, |Encode(r)|)
  {
    assert s[i + 0] == Encode(r)[0];
    if r < 0x80 {
    } else if r < 0x800 {
      SplitTwo(r);
      assert s[i + 1] == Encode(r)[1];
    } else if r < 0x10000 {
      SplitThree(r);
      assert s[i + 1] == Encode(r)[1] && s[i + 2] == Encode(r)[2];
    } else {
      SplitFour(r);
      assert s[i + 1] == Encode(r)[1] && s[i + 2] == Encode(r)[2] && s[i + 3] == Encode(r)[3];
    }
  }

  lemma JoinTwo(a: int, b: int)
    requires 0 <= b < 0x40
    ensures (a * 0x40 + b) / 0x40 == a && (a * 0x40 + b) / 1 % 0x40 == b
  {
  }

  lemma JoinThree(a: int, b: int, c: int)
    requires 0 <= b < 0x40 && 0 <= c < 0x40
    ensures var r := a * 0x1000 + b * 0x40 + c; r / 0x1000 == a && r / 0x40 % 0x40 == b && r / 1 % 0x40 == c
  {
    JoinTwo(a * 0x40 + b, c);
  }

  lemma JoinFour(a: int, b: int, c: int, d: int)
    requires 0 <= b < 0x40 && 0 <= c < 0x40 && 0 <= d < 0x40
    ensures var r := a * 0x40000 + b * 0x1000 + c * 0x40 + d;
            r / 0x40000 == a && r / 0x1000 % 0x40 == b && r / 0x40 % 0x40 == c && r / 1 % 0x40 == d
  {
    JoinThree(a * 0x40 + b, c, d);
  }

  predicate DecodesWell(s: Bytes, i: nat)
    requires i < |s|
  {
    var d := DecodeAt(s, i);
    Scalar(d.rune) && EncodedAt(s, i, d.rune) && d.size == |Encode(d.rune)|
  }

  lemma TwoBytesWell(s: Bytes, i: nat)
    requires i < |s| && DecodeAt(s, i).size == 2
    ensures DecodesWell(s, i)
  {
    JoinTwo(s[i] - 0xC0, Payload(s, i + 1));
  }

  lemma ThreeBytesWell(s: Bytes, i: nat)
    requires i < |s| && DecodeAt(s, i).size == 3
    ensures DecodesWell(s, i)
  {
    JoinThree(s[i] - 0xE0, Payload(s, i + 1), Payload(s, i + 2));
  }

  lemma FourBytesWell(s: Bytes, i: nat)
    requires i < |s| && DecodeAt(s, i).size == 4
    ensures DecodesWell(s, i)
  {
    JoinFour(s[i] - 0xF0, Payload(s, i + 1), Payload(s, i + 2), Payload(s, i + 3));
  }

  /** A position decodes either to the scalar value encoded there or to a one-byte error. */
  lemma DecodedIsEncoded(s: Bytes, i: nat)
    requires i < |s|
    ensures var d := DecodeAt(s, i);
            || (Scalar(d.rune) && EncodedAt(s, i, d.rune) && d.size == |Encode(d.rune)|)
            || (d == Decoded(RUNE_ERROR, 1) && forall r :: Scalar(r) ==> !EncodedAt(s, i, r))
  {
    var d := DecodeAt(s, i);
    if d == Decoded(RUNE_ERROR, 1) {
      forall r | Scalar(r) ensures !EncodedAt(s, i, r) {
        if EncodedAt(s, i, r) { EncodedDecodes(s, i, r); }
      }
    } else if d.size == 2 {
      TwoBytesWell(s, i);
    } else if d.size == 3 {
      ThreeBytesWell(s, i);
    } else if d.size == 4 {
      FourBytesWell(s, i);
    }
  }

  // ---- what section 1 of RFC 3629 says of the encoding ----

  /** One byte below 0x80, two below 0x800, three below 0x10000, else four; the first byte tells how
      many, the others are 0x80 to 0xBF, and 0xC0, 0xC1 and 0xF5 to 0xFF never appear. */
  lemma EncodedBytes(r: int)
    requires Scalar(r)
    ensures var e := Encode(r);
            && |e| == (if r < 0x80 then 1 else if r < 0x800 then 2 else if r < 0x10000 then 3 else 4)
            && (r < 0x80 ==> e[0] == r)
            && (|e| == 2 ==> 0xC2 <= e[0] <= 0xDF) && (|e| == 3 ==> 0xE0 <= e[0] <= 0xEF) && (|e| == 4 ==> 0xF0 <= e[0] <= 0xF4)
            && (forall k :: 1 <= k < |e| ==> 0x80 <= e[k] < 0xC0)
  {
    if 0x80 <= r < 0x800 { SplitTwo(r); } else if 0x800 <= r < 0x10000 { SplitThree(r); } else if r >= 0x10000 { SplitFour(r); }
  }

  /** The first byte in which the two differ is smaller in a. */
  predicate Before(a: Bytes, b: Bytes, k: nat) {
    k < |a| && k < |b| && a[..k] == b[..k] && a[k] < b[k]
  }

  lemma ShorterIsBefore(r: int, q: int)
    requires Scalar(r) && Scalar(q) && r < q && |Encode(r)| != |Encode(q)|
    ensures Before(Encode(r), Encode(q), 0)
  {
    EncodedBytes(r);
    EncodedBytes(q);
  }

  /** The first of the leading parts and the continuation parts that differs is smaller. */
  lemma PartsKeepOrder(a: int, b: int, c: int, d: int, a': int, b': int, c': int, d': int)
    requires 0 <= b < 0x40 && 0 <= c < 0x40 && 0 <= d < 0x40 && 0 <= b' < 0x40 && 0 <= c' < 0x40 && 0 <= d' < 0x40
    requires a * 0x40000 + b * 0x1000 + c * 0x40 + d < a' * 0x40000 + b' * 0x1000 + c' * 0x40 + d'
    ensures a < a' || (a == a' && (b < b' || (b == b' && (c < c' || (c == c' && d < d')))))
  {
  }

  lemma TwoInOrder(r: int, q: int) returns (k: nat)
    requires 0x80 <= r < q < 0x800
    ensures Before(Encode(r), Encode(q), k)
  {
    SplitTwo(r);
    SplitTwo(q);
    k := if r / 0x40 < q / 0x40 then 0 else 1;
  }

  lemma ThreeInOrder(r: int, q: int) returns (k: nat)
    requires 0x800 <= r < q < 0x10000 && Scalar(r) && Scalar(q)
    ensures Before(Encode(r), Encode(q), k)
  {
    SplitThree(r);
    SplitThree(q);
    PartsKeepOrder(0, r / 0x1000, r / 0x40 % 0x40, r / 1 % 0x40, 0, q / 0x1000, q / 0x40 % 0x40, q / 1 % 0x40);
    k := if r / 0x1000 < q / 0x1000 then 0 else if r / 0x40 % 0x40 < q / 0x40 % 0x40 then 1 else 2;
  }

  lemma FourInOrder(r: int, q: int) returns (k: nat)
    requires 0x10000 <= r < q <= 0x10FFFF
    ensures Before(Encode(r), Encode(q), k)
  {
    SplitFour(r);
    SplitFour(q);
    PartsKeepOrder(r / 0x40000, r / 0x1000 % 0x40, r / 0x40 % 0x40, r / 1 % 0x40,
                   q / 0x40000, q / 0x1000 % 0x40, q / 0x40 % 0x40, q / 1 % 0x40);
    k := if r / 0x40000 < q / 0x40000 then 0
         else if r / 0x1000 % 0x40 < q / 0x1000 % 0x40 then 1
         else if r / 0x40 % 0x40 < q / 0x40 % 0x40 then 2 else 3;
  }

  /** Encodings are ordered, byte by byte, as the values they encode. */
  lemma EncodingKeepsOrder(r: int, q: int) returns (k: nat)
    requires Scalar(r) && Scalar(q) && r < q
    ensures Before(Encode(r), Encode(q), k)
  {
    EncodedBytes(r);
    EncodedBytes(q);
    if |Encode(r)| != |Encode(q)| {
      ShorterIsBefore(r, q);
      k := 0;
    } else if q < 0x80 {
      k := 0;
    } else if q < 0x800 {
      k := TwoInOrder(r, q);
    } else if q < 0x10000 {
      k := ThreeInOrder(r, q);
    } else {
      k := FourInOrder(r, q);
    }
  }

  /** The sequences of section 7 of RFC 3629: U+0391, U+2262, U+D55C and U+233B4. */
  lemma EncodedExamples()
    ensures Encode(0x0391) == [0xCE, 0x91] && Encode(0x2262) == [0xE2, 0x89, 0xA2]
    ensures Encode(0xD55C) == [0xED, 0x95, 0x9C] && Encode(0x233B4) == [0xF0, 0xA3, 0x8E, 0xB4]
  {
  }

  // ---- boundaries ----

  function RuneAt(s: Bytes, i: nat): int
    requires i < |s|
  {
    DecodeAt(s, i).rune
  }

  function Next(s: Bytes, i: nat): (n: nat)
    requires i < |s|
    ensures i < n <= |s|
  {
    i + DecodeAt(s, i).size
  }

  /** Decoding from a reaches b: b is a rune boundary relative to a. */
  predicate Reaches(s: Bytes, a: nat, b: nat)
    decreases |s| - a
  {
    a == b || (a < b && a < |s| && Reaches(s, Next(s, a), b))
  }

  lemma {:induction false} ReachesNext(s: Bytes, a: nat, p: nat)
    requires a <= p < |s| && Reaches(s, a, p)
    ensures Reaches(s, a, Next(s, p))
    decreases |s| - a
  {
    if a < p { ReachesNext(s, Next(s, a), p); }
  }

  /** There is no boundary strictly inside a rune. */
  lemma {:induction false} NoBoundaryInside(s: Bytes, a: nat, p: nat, q: nat)
    requires a <= p < |s| && Reaches(s, a, p) && Reaches(s, a, q) && p < q
    ensures Next(s, p) <= q
    decreases |s| - a
  {
    if a < p { NoBoundaryInside(s, Next(s, a), p, q); }
  }

  lemma {:induction false} ReachesTransitively(s: Bytes, a: nat, b: nat, c: nat)
    requires Reaches(s, a, b) && Reaches(s, b, c)
    ensures Reaches(s, a, c)
    decreases |s| - a
  {
    if a < b { ReachesForward(s, Next(s, a), b); ReachesForward(s, b, c); ReachesTransitively(s, Next(s, a), b, c); }
  }

  lemma ReachesForward(s: Bytes, a: nat, b: nat)
    requires Reaches(s, a, b)
    ensures a <= b
  {
  }
}
