/** The phone matcher's language written out: Format 1 by digit count and place of the plus, Format 2
    as two shapes between white space. */
module PhoneForms {
  import opened Prelude
  import opened Utf8
  import opened RuneFilter
  import opened Phone
  import TokenBytes

  // ---- Format 1 ----

  predicate Separator(b: int) {
    b == ' ' as int || b == '-' as int || b == '.' as int || b == '*' as int || b == '(' as int || b == ')' as int
  }

  predicate Digit(b: int) { '0' as int <= b <= '9' as int }

  /** How many bytes are digits. */
  function DigitCount(s: Bytes): nat {
    if s == [] then 0 else (if Digit(s[0]) then 1 else 0) + DigitCount(s[1..])
  }

  /** From i on only separators and digits. */
  predicate DigitsFrom(s: Bytes, i: nat) {
    forall j :: i <= j < |s| ==> Separator(s[j]) || Digit(s[j])
  }

  /** A plus at k, only separators before it, separators and ten to thirteen digits after it. */
  predicate International(s: Bytes, k: nat) {
    && k < |s| && s[k] == '+' as int && (forall j :: 0 <= j < k ==> Separator(s[j])) && DigitsFrom(s, k + 1)
    && 10 <= DigitCount(s) <= 13
  }

  /** Separators and exactly ten digits. */
  predicate Domestic(s: Bytes) {
    DigitsFrom(s, 0) && DigitCount(s) == 10
  }

  lemma KeptIsNoSeparator(b: byte)
    ensures KEPT(b) <==> !Separator(b)
  {
  }

  lemma DigitsInFront(s: Bytes)
    requires s != []
    ensures DigitsFrom(s, 0) <==> (Separator(s[0]) || Digit(s[0])) && DigitsFrom(s[1..], 0)
  {
    assert forall j :: 1 <= j < |s| ==> s[j] == s[1..][j - 1];
    assert forall j :: 0 <= j < |s| - 1 ==> s[1..][j] == s[j + 1];
  }

  lemma DigitInFront(b: byte, rest: Bytes)
    ensures AllDigitBytes([b] + rest) <==> IsDigit(b) && AllDigitBytes(rest)
  {
    var all := [b] + rest;
    assert all[0] == b && forall j :: 0 <= j < |rest| ==> rest[j] == all[j + 1];
  }

  /** The kept bytes are digits exactly when all bytes are separators or digits, and then they are
      the digits. */
  lemma {:induction false} KeptDigits(s: Bytes)
    ensures AllDigitBytes(Filter(s, KEPT)) <==> DigitsFrom(s, 0)
    ensures DigitsFrom(s, 0) ==> |Filter(s, KEPT)| == DigitCount(s)
  {
    if s != [] {
      KeptDigits(s[1..]);
      KeptIsNoSeparator(s[0]);
      DigitsInFront(s);
      DigitInFront(s[0], Filter(s[1..], KEPT));
    }
  }

  /** The first byte that is kept. */
  lemma {:induction false} FirstKept(s: Bytes) returns (k: nat)
    requires Filter(s, KEPT) != []
    ensures k < |s| && KEPT(s[k]) && (forall j :: 0 <= j < k ==> Separator(s[j]))
    ensures Filter(s, KEPT) == [s[k]] + Filter(s[k + 1..], KEPT)
    ensures DigitCount(s) == (if Digit(s[k]) then 1 else 0) + DigitCount(s[k + 1..])
  {
    KeptIsNoSeparator(s[0]);
    if KEPT(s[0]) {
      k := 0;
    } else {
      var i := FirstKept(s[1..]);
      k := i + 1;
      assert s[1..][i + 1..] == s[k + 1..];
    }
  }

  /** What the stripped form says, on ASCII inputs. */
  predicate Stripped(kept: Bytes) {
    kept != [] && if kept[0] == PLUS then AllDigitBytes(kept[1..]) && 10 <= |kept| - 1 <= 13
                  else PLUS !in kept && AllDigitBytes(kept) && |kept| == 10
  }

  lemma PlusForm(s: Bytes, k: nat, rest: Bytes)
    requires k < |s| && s[k] == PLUS && (forall j :: 0 <= j < k ==> Separator(s[j]))
    requires rest == s[k + 1..] && Filter(s, KEPT) == [PLUS] + Filter(rest, KEPT) && DigitCount(s) == DigitCount(rest)
    ensures Stripped(Filter(s, KEPT)) <==> International(s, k)
  {
    KeptDigits(rest);
    assert ([PLUS] + Filter(rest, KEPT))[1..] == Filter(rest, KEPT);
    assert DigitsFrom(s, k + 1) <==> DigitsFrom(rest, 0) by {
      assert forall j :: k + 1 <= j < |s| ==> s[j] == rest[j - k - 1];
      assert forall j :: 0 <= j < |rest| ==> rest[j] == s[k + 1 + j];
    }
  }

  lemma {:induction false} PlusIsFirst(s: Bytes, k: nat)
    requires k < |s| && s[k] == PLUS && forall j :: 0 <= j < k ==> Separator(s[j])
    ensures DigitCount(s) == DigitCount(s[k + 1..])
    ensures Filter(s, KEPT) == [PLUS] + Filter(s[k + 1..], KEPT)
    decreases k
  {
    KeptIsNoSeparator(s[0]);
    if k > 0 {
      assert s[1..][k..] == s[k + 1..];
      PlusIsFirst(s[1..], k - 1);
    }
  }

  lemma StrippedIsForm(s: Bytes)
    ensures Stripped(Filter(s, KEPT)) <==> Domestic(s) || exists k :: International(s, k)
  {
    KeptDigits(s);
    if k :| International(s, k) {
      PlusIsFirst(s, k);
      PlusForm(s, k, s[k + 1..]);
    } else if Filter(s, KEPT) != [] && Filter(s, KEPT)[0] == PLUS {
      var k := FirstKept(s);
      PlusForm(s, k, s[k + 1..]);
      assert !Domestic(s);
    }
  }

  lemma FormsAreAscii(s: Bytes)
    requires Domestic(s) || exists k :: International(s, k)
    ensures Ascii(s)
  {
  }

  lemma Format1IsStripped(s: Bytes)
    requires StripChars(s, 0) == Filter(s, KEPT)
    ensures Format1(s) <==> Stripped(Filter(s, KEPT))
  {
  }

  /** Format 1 accepts exactly the domestic and the international form, on every byte string. */
  lemma Format1Exactly(s: Bytes)
    ensures Format1(s) <==> Domestic(s) || exists k :: International(s, k)
  {
    StrippedIsForm(s);
    if Format1(s) {
      AcceptedIsAscii(s);
      Format1IsStripped(s);
    }
    if Domestic(s) || exists k :: International(s, k) {
      FormsAreAscii(s);
      assert s[0..] == s;
      StripIsFilter(s, 0);
      Format1IsStripped(s);
    }
  }

  // ---- white space ----

  predicate Space(r: int) { 0x09 <= r <= 0x0D || r == 0x20 || TokenBytes.WideSpace(r) }

  lemma SpaceIsSpace(r: int)
    ensures Space(r) <==> Tokenizer.IsSpace(r)
    ensures Space(r) ==> Scalar(r) && r != RUNE_ERROR
  {
  }

  predicate Spaces(rs: seq<int>) { forall i :: 0 <= i < |rs| ==> Space(rs[i]) }

  function EncodeAll(rs: seq<int>): Bytes
    requires Spaces(rs)
  {
    if rs == [] then []
    else
      SpaceIsSpace(rs[0]);
      Encode(rs[0]) + EncodeAll(rs[1..])
  }

  ghost predicate BlankBy(a: Bytes, rs: seq<int>) { Spaces(rs) && a == EncodeAll(rs) }

  /** Nothing but encoded white space. */
  ghost predicate Blank(a: Bytes) { exists rs :: BlankBy(a, rs) }

  lemma BlankInFront(r: int, a: Bytes)
    requires Space(r) && Scalar(r) && Blank(a)
    ensures Blank(Encode(r) + a)
  {
    var rs :| BlankBy(a, rs);
    assert ([r] + rs)[1..] == rs;
    assert BlankBy(Encode(r) + a, [r] + rs);
  }

  lemma {:induction false} EncodeSnoc(rs: seq<int>, r: int)
    requires Spaces(rs) && Space(r) && Scalar(r)
    ensures Spaces(rs + [r]) && EncodeAll(rs + [r]) == EncodeAll(rs) + Encode(r)
  {
    if rs == [] {
      assert EncodeAll([r][1..]) == [];
    } else {
      EncodeSnoc(rs[1..], r);
      assert (rs + [r])[1..] == rs[1..] + [r];
    }
  }

  lemma BlankBehind(a: Bytes, r: int)
    requires Space(r) && Scalar(r) && Blank(a)
    ensures Blank(a + Encode(r))
  {
    var rs :| BlankBy(a, rs);
    EncodeSnoc(rs, r);
    assert BlankBy(a + Encode(r), rs + [r]);
  }

  lemma NothingIsBlank()
    ensures Blank([])
  {
    assert BlankBy([], []);
  }

  // ---- what trimming removes is white space ----

  /** A space decoded at i is encoded there. */
  lemma SpaceAt(s: Bytes, i: nat)
    requires i < |s| && Tokenizer.IsSpace(RuneAt(s, i))
    ensures var r := RuneAt(s, i); Space(r) && Scalar(r) && s[i..Next(s, i)] == Encode(r)
  {
    SpaceIsSpace(RuneAt(s, i));
    DecodedIsEncoded(s, i);
  }

  lemma Slices(s: Bytes, i: nat, n: nat, end: nat)
    requires i <= n <= end <= |s|
    ensures s[i..end] == s[i..n] + s[n..end]
  {
  }

  lemma {:induction false} LeftIsBlank(s: Bytes, i: nat)
    requires i <= |s|
    ensures Blank(s[i..TrimLeft(s, i)])
    decreases |s| - i
  {
    if i < |s| && Tokenizer.IsSpace(RuneAt(s, i)) {
      var n, end := Next(s, i), TrimLeft(s, i);
      SpaceAt(s, i);
      LeftIsBlank(s, n);
      BlankInFront(RuneAt(s, i), s[n..end]);
      Slices(s, i, n, end);
    } else {
      NothingIsBlank();
      assert s[i..i] == [];
    }
  }

  /** A space that starts at the last rune's start ends the input. */
  lemma LastSpaceEnds(s: Bytes, back: nat)
    requires 1 <= back <= 4 && |s| > 0 && Tokenizer.IsSpace(RuneAt(s, LastStart(s, back)))
    ensures Next(s, LastStart(s, back)) == |s|
    decreases 4 - back
  {
    if back <= |s| && Continuation(s[|s| - back]) && back < 4 { LastSpaceEnds(s, back + 1); }
  }

  lemma EndSlices(s: Bytes, p: nat, q: nat)
    requires q <= p <= |s|
    ensures s[q..] == s[..p][q..] + s[p..|s|]
  {
  }

  lemma {:induction false} RightIsBlank(s: Bytes)
    ensures Blank(s[TrimRight(s)..])
  {
    if s != [] && Tokenizer.IsSpace(RuneAt(s, LastStart(s, 1))) {
      var p := LastStart(s, 1);
      LastSpaceEnds(s, 1);
      SpaceAt(s, p);
      RightIsBlank(s[..p]);
      var q := TrimRight(s[..p]);
      BlankBehind(s[..p][q..], RuneAt(s, p));
      EndSlices(s, p, q);
    } else {
      NothingIsBlank();
      assert s[|s|..] == [];
    }
  }

  lemma Cuts(s: Bytes, i: nat, n: nat)
    requires i <= |s| && n <= |s[i..]|
    ensures s == s[0..i] + s[i..][..n] + s[i..][n..]
  {
  }

  /** White space, the trimmed text, white space. */
  lemma TrimmedOff(s: Bytes) returns (a: Bytes, b: Bytes)
    ensures s == a + TrimSpace(s) + b && Blank(a) && Blank(b)
  {
    var i := TrimLeft(s, 0);
    var n := TrimRight(s[i..]);
    a, b := s[0..i], s[i..][n..];
    LeftIsBlank(s, 0);
    RightIsBlank(s[i..]);
    Cuts(s, i, n);
  }

  // ---- and all of it ----

  lemma Associates(p: Bytes, e: Bytes, tail: Bytes, x: Bytes)
    ensures p + (e + tail) + x == (p + e) + tail + x
    ensures forall k :: 0 <= k < |e| ==> (p + (e + tail) + x)[|p| + k] == e[k]
  {
  }

  lemma SpaceIsSkipped(s: Bytes, i: nat, r: int)
    requires Space(r) && Scalar(r) && EncodedAt(s, i, r)
    ensures TrimLeft(s, i) == TrimLeft(s, i + |Encode(r)|)
  {
    SpaceIsSpace(r);
    EncodedDecodes(s, i, r);
  }

  lemma FirstIsSkipped(p: Bytes, r: int, tail: Bytes, x: Bytes)
    requires Space(r) && Scalar(r)
    ensures var s := p + (Encode(r) + tail) + x;
            s == (p + Encode(r)) + tail + x && TrimLeft(s, |p|) == TrimLeft(s, |p + Encode(r)|)
  {
    Associates(p, Encode(r), tail, x);
    SpaceIsSkipped(p + (Encode(r) + tail) + x, |p|, r);
  }

  lemma {:induction false} BlankIsSkipped(p: Bytes, rs: seq<int>, x: Bytes)
    requires Spaces(rs)
    ensures TrimLeft(p + EncodeAll(rs) + x, |p|) == TrimLeft(p + EncodeAll(rs) + x, |p + EncodeAll(rs)|)
    decreases |rs|
  {
    if rs != [] {
      SpaceIsSpace(rs[0]);
      var e, tail := Encode(rs[0]), EncodeAll(rs[1..]);
      FirstIsSkipped(p, rs[0], tail, x);
      BlankIsSkipped(p + e, rs[1..], x);
      assert |p + e + tail| == |p + EncodeAll(rs)|;
    }
  }

  /** An encoded rune at the end is the last rune. */
  lemma LastIsEncoded(y: Bytes, r: int)
    requires Scalar(r)
    ensures var s := y + Encode(r); LastStart(s, 1) == |y| && DecodeAt(s, |y|) == Decoded(r, |Encode(r)|)
  {
    var s, e := y + Encode(r), Encode(r);
    EncodedBytes(r);
    assert EncodedAt(s, |y|, r);
    EncodedDecodes(s, |y|, r);
    assert forall k :: 0 <= k < |e| ==> s[|y| + k] == e[k];
    StepsBack(s, |y|, 1);
  }

  /** From the end back over continuation bytes to the rune that starts at p. */
  lemma StepsBack(s: Bytes, p: nat, back: nat)
    requires p < |s| && |s| - p <= 4 && 1 <= back <= |s| - p
    requires !Continuation(s[p]) && Next(s, p) == |s| && forall k :: p < k < |s| ==> Continuation(s[k])
    ensures LastStart(s, back) == p
    decreases 4 - back
  {
    if back < |s| - p { StepsBack(s, p, back + 1); }
  }

  lemma {:induction false} BlankIsCut(x: Bytes, rs: seq<int>)
    requires Spaces(rs)
    ensures TrimRight(x + EncodeAll(rs)) == TrimRight(x)
  {
    if rs == [] {
      assert x + EncodeAll(rs) == x;
    } else {
      var front, r := rs[..|rs| - 1], rs[|rs| - 1];
      SpaceIsSpace(r);
      EncodeSnoc(front, r);
      assert front + [r] == rs;
      var y := x + EncodeAll(front);
      assert x + EncodeAll(rs) == y + Encode(r);
      LastIsEncoded(y, r);
      assert (y + Encode(r))[..|y|] == y;
      BlankIsCut(x, front);
    }
  }

  lemma Parts(a: Bytes, t: Bytes, b: Bytes)
    ensures (a + t + b)[|a|..] == t + b && (t + b)[..|t|] == t && a + (t + b) == a + t + b
    ensures t != [] ==> (a + t + b)[|a|] == t[0]
  {
  }

  lemma NoTrimming(s: Bytes, i: nat)
    requires i < |s| && s[i] < 0x80 && !Space(s[i])
    ensures TrimLeft(s, i) == i
  {
    SpaceIsSpace(s[i]);
  }

  lemma FirstStays(a: Bytes, rest: Bytes)
    requires Blank(a) && rest != [] && rest[0] < 0x80 && !Space(rest[0])
    ensures TrimLeft(a + rest, 0) == |a|
  {
    var rs :| BlankBy(a, rs);
    BlankIsSkipped([], rs, rest);
    assert [] + a == a;
    NoTrimming(a + rest, |a|);
  }

  /** A text whose first and last bytes are ASCII and no white space stays whole. */
  lemma TextStays(a: Bytes, t: Bytes, b: Bytes)
    requires Blank(a) && Blank(b) && t != []
    requires t[0] < 0x80 && !Space(t[0]) && t[|t| - 1] < 0x80 && !Space(t[|t| - 1])
    ensures TrimSpace(a + t + b) == t
  {
    Parts(a, t, b);
    FirstStays(a, t + b);
    LastStays(t, b);
  }

  lemma LastStays(t: Bytes, b: Bytes)
    requires Blank(b) && t != [] && t[|t| - 1] < 0x80 && !Space(t[|t| - 1])
    ensures TrimRight(t + b) == |t|
  {
    var rs :| BlankBy(b, rs);
    BlankIsCut(t, rs);
    SpaceIsSpace(t[|t| - 1]);
    assert LastStart(t, 1) == |t| - 1;
  }

  // ---- Format 2 ----

  /** The text follows the template: a digit wherever it has a d, and its own character elsewhere. */
  predicate Follows(t: Bytes, template: string) {
    |t| == |template| && forall i :: 0 <= i < |t| ==> if template[i] == 'd' then Digit(t[i]) else t[i] == template[i] as int
  }

  const PLUS_TEMPLATE := "+dd dd ddd dddd"
  const PARENTHESIS_TEMPLATE := "(+dd) dd ddd dddd"

  lemma DigitsAt(t: Bytes, i: nat, n: nat)
    requires i + n <= |t|
    ensures AllDigitBytes(t[i..i + n]) <==> forall k :: i <= k < i + n ==> Digit(t[k])
  {
    var part := t[i..i + n];
    assert forall k :: i <= k < i + n ==> t[k] == part[k - i];
  }

  /** Two, three and four digits with single spaces between them. */
  lemma GroupsWritten(t: Bytes, i: nat)
    ensures Grouped(t, i, [2, 3, 4]) <==>
              && |t| == i + 11 && t[i + 2] == SPACE && t[i + 6] == SPACE
              && forall k :: i <= k < i + 11 && k != i + 2 && k != i + 6 ==> Digit(t[k])
  {
    assert [2, 3, 4][1..] == [3, 4] && [3, 4][1..] == [4];
    if i + 2 <= |t| { DigitsAt(t, i, 2); }
    if i + 6 <= |t| { DigitsAt(t, i + 3, 3); }
    if i + 11 <= |t| { DigitsAt(t, i + 7, 4); }
  }

  lemma PlusShapeWritten(t: Bytes)
    ensures PlusShape(t) <==> Follows(t, PLUS_TEMPLATE)
  {
    GroupsWritten(t, 4);
    if |t| == 15 { DigitsAt(t, 1, 2); assert t[..3][1..] == t[1..3]; }
  }

  lemma ParentheticalShapeWritten(t: Bytes)
    ensures ParentheticalShape(t) <==> Follows(t, PARENTHESIS_TEMPLATE)
  {
    GroupsWritten(t, 6);
    if |t| == 17 { DigitsAt(t, 2, 2); assert t[1..4][1..] == t[2..4]; }
  }

  predicate European(t: Bytes) { Follows(t, PLUS_TEMPLATE) || Follows(t, PARENTHESIS_TEMPLATE) }

  /** White space, one of the two templates, white space. */
  ghost predicate Padded(s: Bytes, a: Bytes, t: Bytes, b: Bytes) {
    s == a + t + b && Blank(a) && Blank(b) && European(t)
  }

  lemma EuropeanIsShape(t: Bytes)
    ensures PlusShape(t) || ParentheticalShape(t) <==> European(t)
  {
    PlusShapeWritten(t);
    ParentheticalShapeWritten(t);
  }

  /** A template has neither white space nor anything beyond ASCII at its ends. */
  lemma EuropeanStays(a: Bytes, t: Bytes, b: Bytes)
    requires Blank(a) && Blank(b) && European(t)
    ensures TrimSpace(a + t + b) == t
  {
    TextStays(a, t, b);
  }

  /** Format 2 accepts exactly the two templates between any white space. */
  lemma Format2Exactly(s: Bytes)
    ensures Format2(s) <==> exists a, t, b :: Padded(s, a, t, b)
  {
    var t := TrimSpace(s);
    Format2IsShape(s);
    EuropeanIsShape(t);
    if Format2(s) {
      var a, b := TrimmedOff(s);
      assert Padded(s, a, t, b);
    }
    if a, u, b :| Padded(s, a, u, b) { EuropeanStays(a, u, b); }
  }

  /** The whole matcher, on every byte string. */
  lemma PhoneExactly(s: Bytes)
    ensures MatchPhoneV2(s) <==> Domestic(s) || (exists k :: International(s, k)) || exists a, t, b :: Padded(s, a, t, b)
  {
    Format1Exactly(s);
    Format2Exactly(s);
  }
}
