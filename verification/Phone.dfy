/** The two phone formats: what the split-based one accepts, position by position, and that it
    accepts nothing the separator-stripping one would not accept after trimming. */
module Phone {
  import opened Prelude
  import opened Utf8
  import opened RuneFilter
  import Tokenizer

  const SPACE := ' ' as int
  const PLUS := '+' as int
  const SEPARATORS: set<int> := {' ' as int, '-' as int, '.' as int, '*' as int, '(' as int, ')' as int}
  const KEPT: byte -> bool := Except(SEPARATORS)

  method IsAllDigits(b: Bytes) returns (ok: bool)
    ensures ok == AllDigitBytes(b)
  {
    for i := 0 to |b|
      invariant forall k :: 0 <= k < i ==> IsDigit(b[k])
    {
      if b[i] < '0' as int || b[i] > '9' as int {
        return false;
      }
    }
    return true;
  }

  predicate AllDigitBytes(b: Bytes) {
    forall k :: 0 <= k < |b| ==> IsDigit(b[k])
  }

  // ---- Format 1 ----

  /** Dropping separator runes; an ill-formed byte comes back as the encoding of U+FFFD. */
  function StripChars(s: Bytes, i: nat): Bytes
    requires i <= |s|
    decreases |s| - i
  {
    if i == |s| then []
    else
      DecodedIsEncoded(s, i);
      if RuneAt(s, i) in SEPARATORS then StripChars(s, Next(s, i))
      else Encode(RuneAt(s, i)) + StripChars(s, Next(s, i))
  }

  predicate Format1(s: Bytes) {
    var sanitized := StripChars(s, 0);
    if sanitized == [] then false
    else if sanitized[0] == PLUS then AllDigitBytes(sanitized[1..]) && 10 <= |sanitized| - 1 <= 13
    else PLUS !in sanitized && AllDigitBytes(sanitized) && |sanitized| == 10
  }

  // ---- Format 2 ----

  function TrimLeft(s: Bytes, i: nat): (p: nat)
    requires i <= |s|
    ensures i <= p <= |s|
    decreases |s| - i
  {
    if i < |s| && Tokenizer.IsSpace(RuneAt(s, i)) then TrimLeft(s, Next(s, i)) else i
  }

  predicate Continuation(b: byte) { 0x80 <= b < 0xC0 }

  /** Start of the last rune of s: at most four bytes back, and one byte when nothing there decodes
      exactly to the end. */
  function LastStart(s: Bytes, back: nat): (p: nat)
    requires 1 <= back <= 4 && |s| > 0
    ensures p < |s|
    decreases 4 - back
  {
    if back > |s| then |s| - 1
    else if !Continuation(s[|s| - back]) then
      if DecodeAt(s, |s| - back).size == back then |s| - back else |s| - 1
    else if back < 4 then LastStart(s, back + 1)
    else |s| - 1
  }

  function TrimRight(s: Bytes): (p: nat)
    ensures p <= |s|
  {
    if s == [] then 0
    else
      var p := LastStart(s, 1);
      if Tokenizer.IsSpace(RuneAt(s, p)) then TrimRight(s[..p]) else |s|
  }

  function TrimSpace(s: Bytes): Bytes {
    var rest := s[TrimLeft(s, 0)..];
    rest[..TrimRight(rest)]
  }

  function Find(s: Bytes, i: nat, b: int): (k: nat)
    requires i <= |s|
    ensures i <= k <= |s|
    ensures k < |s| ==> s[k] == b
    ensures forall j :: i <= j < k ==> s[j] != b
    decreases |s| - i
  {
    if i == |s| || s[i] == b then i else Find(s, i + 1, b)
  }

  /** The fields of s from i on, separated by single spaces. */
  function SplitFrom(s: Bytes, i: nat): (parts: seq<Bytes>)
    requires i <= |s|
    ensures |parts| > 0
    decreases |s| - i
  {
    var k := Find(s, i, SPACE);
    if k == |s| then [s[i..]] else [s[i..k]] + SplitFrom(s, k + 1)
  }

  predicate CountryCode(b: Bytes) {
    |b| == 3 && b[0] == PLUS && AllDigitBytes(b[1..])
  }

  predicate Sized(parts: seq<Bytes>, widths: seq<nat>) {
    |parts| == |widths| && forall j :: 0 <= j < |parts| ==> |parts[j]| == widths[j] && AllDigitBytes(parts[j])
  }

  predicate ValidateParenthetical(s: Bytes)
    requires s != []
  {
    var closing := Find(s, 0, ')' as int);
    && closing < |s| && closing >= 1
    && CountryCode(s[1..closing])
    && closing + 1 < |s| && s[closing + 1] == SPACE
    && Sized(SplitFrom(s, closing + 2), [2, 3, 4])
  }

  predicate ValidatePlus(s: Bytes) {
    var parts := SplitFrom(s, 0);
    |parts| == 4 && CountryCode(parts[0]) && Sized(parts[1..], [2, 3, 4])
  }

  predicate Format2(s: Bytes) {
    var trimmed := TrimSpace(s);
    if |trimmed| >= 2 && trimmed[0] == '(' as int && trimmed[1] == PLUS then ValidateParenthetical(trimmed)
    else |trimmed| >= 1 && trimmed[0] == PLUS && ValidatePlus(trimmed)
  }

  predicate MatchPhoneV2(s: Bytes) {
    s != [] && (Format1(s) || Format2(s))
  }

  // ---- Format 2, position by position ----

  /** Groups of digits of the given widths, one space between groups, and then the end. */
  predicate Grouped(s: Bytes, i: nat, widths: seq<nat>)
    decreases |widths|
  {
    widths != [] && i + widths[0] <= |s| && AllDigitBytes(s[i..i + widths[0]])
    && if |widths| == 1 then i + widths[0] == |s|
       else i + widths[0] < |s| && s[i + widths[0]] == SPACE && Grouped(s, i + widths[0] + 1, widths[1..])
  }

  lemma SizedHead(first: Bytes, rest: seq<Bytes>, widths: seq<nat>)
    requires widths != []
    ensures Sized([first] + rest, widths) <==> |first| == widths[0] && AllDigitBytes(first) && Sized(rest, widths[1..])
  {
    var parts := [first] + rest;
    if Sized(parts, widths) {
      assert parts[0] == first && forall j :: 0 <= j < |rest| ==> rest[j] == parts[j + 1];
    }
  }

  lemma NoSpaceInGroup(s: Bytes, i: nat, end: nat)
    requires i <= end <= |s| && AllDigitBytes(s[i..end])
    ensures Find(s, i, SPACE) >= end
  {
    forall j | i <= j < end ensures s[j] != SPACE { assert s[j] == s[i..end][j - i]; }
  }

  lemma {:induction false} FieldsAreGroups(s: Bytes, i: nat, widths: seq<nat>)
    requires i <= |s| && widths != []
    ensures Sized(SplitFrom(s, i), widths) <==> Grouped(s, i, widths)
    decreases |widths|
  {
    var k := Find(s, i, SPACE);
    if k == |s| {
      LastField(s, i, widths);
    } else {
      if |widths| > 1 { FieldsAreGroups(s, k + 1, widths[1..]); }
      FirstField(s, i, k, widths);
      LaterFields(s, i, k, widths);
    }
  }

  /** Splitting off the first field. */
  lemma LaterFields(s: Bytes, i: nat, k: nat, widths: seq<nat>)
    requires i <= k < |s| && widths != [] && k == Find(s, i, SPACE)
    ensures |widths| > 1 ==>
              (Sized(SplitFrom(s, i), widths)
               <==> k == i + widths[0] && AllDigitBytes(s[i..k]) && Sized(SplitFrom(s, k + 1), widths[1..]))
    ensures |widths| == 1 ==> !Sized(SplitFrom(s, i), widths)
  {
    assert SplitFrom(s, i) == [s[i..k]] + SplitFrom(s, k + 1);
    SizedHead(s[i..k], SplitFrom(s, k + 1), widths);
  }

  lemma LastField(s: Bytes, i: nat, widths: seq<nat>)
    requires i <= |s| && widths != [] && Find(s, i, SPACE) == |s|
    ensures Sized(SplitFrom(s, i), widths) <==> Grouped(s, i, widths)
  {
    assert SplitFrom(s, i) == [s[i..]];
    if Grouped(s, i, widths) { NoSpaceInGroup(s, i, i + widths[0]); }
    if |widths| == 1 && |s| - i == widths[0] { assert s[i..] == s[i..i + widths[0]]; }
  }

  /** A first field of the right width is the first group. */
  lemma FirstField(s: Bytes, i: nat, k: nat, widths: seq<nat>)
    requires i <= k < |s| && widths != [] && k == Find(s, i, SPACE)
    ensures |widths| > 1 ==>
              (Grouped(s, i, widths) <==> k == i + widths[0] && AllDigitBytes(s[i..k]) && Grouped(s, k + 1, widths[1..]))
    ensures |widths| == 1 ==> !Grouped(s, i, widths)
  {
    if Grouped(s, i, widths) { NoSpaceInGroup(s, i, i + widths[0]); }
  }

  /** +dd dd ddd dddd */
  predicate PlusShape(t: Bytes) {
    |t| > 3 && CountryCode(t[..3]) && t[3] == SPACE && Grouped(t, 4, [2, 3, 4])
  }

  /** (+dd) dd ddd dddd */
  predicate ParentheticalShape(t: Bytes) {
    |t| > 5 && t[0] == '(' as int && CountryCode(t[1..4]) && t[4] == ')' as int && t[5] == SPACE && Grouped(t, 6, [2, 3, 4])
  }

  lemma PlusIsShape(t: Bytes)
    ensures t != [] && t[0] == PLUS && ValidatePlus(t) <==> PlusShape(t)
  {
    var k, parts := Find(t, 0, SPACE), SplitFrom(t, 0);
    if k < |t| {
      assert parts[0] == t[0..k] && parts[1..] == SplitFrom(t, k + 1);
      FieldsAreGroups(t, k + 1, [2, 3, 4]);
    }
    if PlusShape(t) {
      forall j | 0 <= j < 3 ensures t[j] != SPACE { assert t[..3][1..][1] == t[2] && t[..3][1..][0] == t[1]; }
    }
  }

  lemma ParentheticalIsShape(t: Bytes)
    ensures |t| >= 2 && t[0] == '(' as int && t[1] == PLUS && ValidateParenthetical(t) <==> ParentheticalShape(t)
  {
    if |t| >= 2 && t[0] == '(' as int && t[1] == PLUS {
      var k := Find(t, 0, ')' as int);
      if k + 2 <= |t| { FieldsAreGroups(t, k + 2, [2, 3, 4]); }
      if ParentheticalShape(t) {
        assert t[1..4][1..][0] == t[2] && t[1..4][1..][1] == t[3];
      }
    }
  }

  /** Splitting, finding the parenthesis and checking the parts accept exactly the two shapes. */
  lemma Format2IsShape(s: Bytes)
    ensures Format2(s) <==> PlusShape(TrimSpace(s)) || ParentheticalShape(TrimSpace(s))
  {
    PlusIsShape(TrimSpace(s));
    ParentheticalIsShape(TrimSpace(s));
  }

  // ---- every shape passes Format 1 ----

  predicate Ascii(s: Bytes) { forall k :: 0 <= k < |s| ==> s[k] < 0x80 }

  lemma StripAscii(s: Bytes, i: nat)
    requires i < |s| && s[i] < 0x80
    ensures StripChars(s, i) == if KEPT(s[i]) then [s[i]] + StripChars(s, i + 1) else StripChars(s, i + 1)
  {
    assert Next(s, i) == i + 1 && RuneAt(s, i) == s[i];
  }

  lemma FilterHead(s: Bytes, i: nat)
    requires i < |s|
    ensures Filter(s[i..], KEPT) == if KEPT(s[i]) then [s[i]] + Filter(s[i + 1..], KEPT) else Filter(s[i + 1..], KEPT)
  {
    assert s[i..][0] == s[i] && s[i..][1..] == s[i + 1..];
  }

  lemma {:induction false} StripIsFilter(s: Bytes, i: nat)
    requires i <= |s| && Ascii(s)
    ensures StripChars(s, i) == Filter(s[i..], KEPT)
    decreases |s| - i
  {
    if i < |s| {
      StripAscii(s, i);
      FilterHead(s, i);
      StripIsFilter(s, i + 1);
    }
  }

  function Total(widths: seq<nat>): nat { if widths == [] then 0 else widths[0] + Total(widths[1..]) }

  lemma DigitsAreKept(b: Bytes)
    requires AllDigitBytes(b)
    ensures Filter(b, KEPT) == b && Ascii(b)
  {
    FilterEverything(b, KEPT);
  }

  /** A group of digits and a space in front of digits that strip well. */
  lemma GroupInFront(group: Bytes, rest: Bytes)
    requires AllDigitBytes(group) && Ascii(rest) && AllDigitBytes(Filter(rest, KEPT))
    ensures var s := group + ([SPACE] + rest);
            Ascii(s) && AllDigitBytes(Filter(s, KEPT)) && |Filter(s, KEPT)| == |group| + |Filter(rest, KEPT)|
  {
    DigitsAreKept(group);
    FilterAppend(group, [SPACE] + rest, KEPT);
    assert ([SPACE] + rest)[1..] == rest;
  }

  lemma {:induction false} GroupsStrip(s: Bytes, i: nat, widths: seq<nat>)
    requires i <= |s| && Grouped(s, i, widths)
    ensures Ascii(s[i..]) && AllDigitBytes(Filter(s[i..], KEPT)) && |Filter(s[i..], KEPT)| == Total(widths)
    decreases |widths|
  {
    var end := i + widths[0];
    var group := s[i..end];
    if |widths| == 1 {
      assert s[i..] == group;
      DigitsAreKept(group);
    } else {
      GroupsStrip(s, end + 1, widths[1..]);
      assert s[i..] == group + ([SPACE] + s[end + 1..]);
      GroupInFront(group, s[end + 1..]);
    }
  }

  predicate AllSeparators(s: Bytes) { forall k :: 0 <= k < |s| ==> !KEPT(s[k]) && s[k] < 0x80 }

  lemma CodeIsKept(code: Bytes)
    requires CountryCode(code)
    ensures Filter(code, KEPT) == code && Ascii(code)
  {
    assert forall k :: 1 <= k < 3 ==> code[k] == code[1..][k - 1];
    FilterEverything(code, KEPT);
  }

  lemma FilterPieces(before: Bytes, code: Bytes, after: Bytes, rest: Bytes)
    requires AllSeparators(before) && AllSeparators(after) && CountryCode(code)
    ensures Filter(before + (code + (after + rest)), KEPT) == code + Filter(rest, KEPT)
  {
    FilterAppend(before, code + (after + rest), KEPT);
    FilterAppend(code, after + rest, KEPT);
    FilterAppend(after, rest, KEPT);
    FilterNothing(before, KEPT);
    FilterNothing(after, KEPT);
    CodeIsKept(code);
  }

  /** A country code and nine digits make a Format 1 number. */
  lemma CodeAndDigits(s: Bytes, code: Bytes, digits: Bytes)
    requires CountryCode(code) && AllDigitBytes(digits) && |digits| == 9 && StripChars(s, 0) == code + digits
    ensures Format1(s)
  {
    assert (code + digits)[1..] == code[1..] + digits;
  }

  /** A country code with separators around it and nine grouped digits pass Format 1. */
  lemma ShapeStrips(before: Bytes, code: Bytes, after: Bytes, t: Bytes, i: nat)
    requires CountryCode(code) && i <= |t| && t == before + (code + (after + t[i..])) && Grouped(t, i, [2, 3, 4])
    requires AllSeparators(before) && AllSeparators(after)
    ensures Format1(t)
  {
    GroupsStrip(t, i, [2, 3, 4]);
    CodeIsKept(code);
    FilterPieces(before, code, after, t[i..]);
    assert t[0..] == t;
    StripIsFilter(t, 0);
    assert Total([2, 3, 4]) == 9;
    CodeAndDigits(t, code, Filter(t[i..], KEPT));
  }

  /** Every input Format 2 accepts is, after trimming, accepted by Format 1. */
  lemma Format2IsFormat1Trimmed(s: Bytes)
    requires Format2(s)
    ensures Format1(TrimSpace(s))
  {
    var t := TrimSpace(s);
    Format2IsShape(s);
    if PlusShape(t) {
      assert t == [] + (t[..3] + (t[3..4] + t[4..]));
      ShapeStrips([], t[..3], t[3..4], t, 4);
    } else {
      assert t == t[..1] + (t[1..4] + (t[4..6] + t[6..]));
      ShapeStrips(t[..1], t[1..4], t[4..6], t, 6);
    }
  }

  // ---- trimming never hurts ----

  lemma {:induction false} StripKeepsNonAscii(s: Bytes, i: nat)
    requires i <= |s| && Ascii(StripChars(s, i))
    ensures Ascii(s[i..])
    decreases |s| - i
  {
    if i < |s| {
      var n, stripped := Next(s, i), StripChars(s, i);
      DecodedIsEncoded(s, i);
      var rest := StripChars(s, n);
      if RuneAt(s, i) !in SEPARATORS {
        var kept := Encode(RuneAt(s, i));
        assert kept[0] == stripped[0] < 0x80;
        assert forall k :: 0 <= k < |rest| ==> rest[k] == stripped[|kept| + k];
      }
      StripKeepsNonAscii(s, n);
      assert n == i + 1;
      assert s[i..] == [s[i]] + s[n..];
    }
  }

  lemma {:induction false} LeftIsSpace(s: Bytes, i: nat)
    requires i <= |s| && Ascii(s)
    ensures forall k :: i <= k < TrimLeft(s, i) ==> Tokenizer.IsSpace(s[k])
    decreases |s| - i
  {
    if i < |s| { LeftIsSpace(s, i + 1); }
  }

  lemma {:induction false} RightIsSpace(s: Bytes)
    requires Ascii(s)
    ensures forall k :: TrimRight(s) <= k < |s| ==> Tokenizer.IsSpace(s[k])
  {
    if s != [] {
      assert LastStart(s, 1) == |s| - 1;
      RightIsSpace(s[..|s| - 1]);
      assert forall k :: 0 <= k < |s| - 1 ==> s[..|s| - 1][k] == s[k];
    }
  }

  lemma {:induction false} KeptStays(s: Bytes, k: nat)
    requires k < |s| && KEPT(s[k])
    ensures s[k] in Filter(s, KEPT)
  {
    if k > 0 {
      KeptStays(s[1..], k - 1);
      assert s[k] == s[1..][k - 1];
    }
  }

  lemma AcceptedBytes(s: Bytes)
    requires Format1(s)
    ensures forall b :: b in StripChars(s, 0) ==> b == PLUS || IsDigit(b)
  {
    var sanitized := StripChars(s, 0);
    forall j | 0 <= j < |sanitized| ensures sanitized[j] == PLUS || IsDigit(sanitized[j]) {
      if sanitized[0] == PLUS && j > 0 { assert sanitized[1..][j - 1] == sanitized[j]; }
    }
  }

  lemma AcceptedIsAscii(s: Bytes)
    requires Format1(s)
    ensures Ascii(s) && StripChars(s, 0) == Filter(s, KEPT)
  {
    AcceptedBytes(s);
    StripKeepsNonAscii(s, 0);
    assert s[0..] == s;
    StripIsFilter(s, 0);
  }

  /** White space in an accepted number is separators only. */
  lemma SpacesAreSeparators(s: Bytes, k: nat)
    requires k < |s| && Tokenizer.IsSpace(s[k]) && Format1(s)
    ensures !KEPT(s[k])
  {
    AcceptedIsAscii(s);
    AcceptedBytes(s);
    if KEPT(s[k]) { KeptStays(s, k); }
  }

  lemma DroppedEnds(before: Bytes, t: Bytes, after: Bytes)
    requires (forall k :: 0 <= k < |before| ==> !KEPT(before[k])) && (forall k :: 0 <= k < |after| ==> !KEPT(after[k]))
    ensures Filter(before + (t + after), KEPT) == Filter(t, KEPT)
  {
    FilterAppend(before, t + after, KEPT);
    FilterAppend(t, after, KEPT);
    FilterNothing(before, KEPT);
    FilterNothing(after, KEPT);
  }

  lemma Cut(s: Bytes, a: nat, n: nat)
    requires a + n <= |s|
    ensures s == s[..a] + (s[a..][..n] + s[a..][n..])
  {
    assert s[a..] == s[a..][..n] + s[a..][n..];
  }

  lemma TrimmedFilter(s: Bytes)
    requires Format1(s) && Ascii(s)
    ensures Filter(TrimSpace(s), KEPT) == Filter(s, KEPT) && Ascii(TrimSpace(s))
  {
    TrimmedPieces(s);
    var a, t := TrimLeft(s, 0), TrimSpace(s);
    Cut(s, a, |t|);
    DroppedEnds(s[..a], t, s[a..][|t|..]);
  }

  lemma Format1SurvivesTrimming(s: Bytes)
    requires Format1(s)
    ensures Format1(TrimSpace(s))
  {
    var t := TrimSpace(s);
    AcceptedIsAscii(s);
    TrimmedFilter(s);
    StripIsFilter(t, 0);
    assert t[0..] == t;
    SameVerdict(s, t);
  }

  lemma SameVerdict(s: Bytes, t: Bytes)
    requires StripChars(s, 0) == StripChars(t, 0)
    ensures Format1(s) <==> Format1(t)
  {
  }

  lemma RightDropped(s: Bytes, a: nat)
    requires a <= |s| && Format1(s) && Ascii(s)
    ensures forall k :: TrimRight(s[a..]) <= k < |s[a..]| ==> !KEPT(s[a..][k])
  {
    var rest := s[a..];
    RightIsSpace(rest);
    forall k | TrimRight(rest) <= k < |rest| ensures !KEPT(rest[k]) {
      SpacesAreSeparators(s, a + k);
    }
  }

  lemma TrimmedPieces(s: Bytes)
    requires Ascii(s) && Format1(s)
    ensures var a := TrimLeft(s, 0);
            var rest := s[a..];
            var t := TrimSpace(s);
            && |t| <= |rest| && Ascii(t)
            && (forall k :: 0 <= k < a ==> !KEPT(s[k]))
            && (forall k :: |t| <= k < |rest| ==> !KEPT(rest[k]))
  {
    var a := TrimLeft(s, 0);
    LeftIsSpace(s, 0);
    forall k | 0 <= k < a ensures !KEPT(s[k]) { SpacesAreSeparators(s, k); }
    RightDropped(s, a);
  }

  /** The matcher accepts nothing beyond Format 1 up to surrounding white space. */
  lemma PhoneIsFormat1Trimmed(s: Bytes)
    requires MatchPhoneV2(s)
    ensures Format1(TrimSpace(s))
  {
    if Format1(s) { Format1SurvivesTrimming(s); } else { Format2IsFormat1Trimmed(s); }
  }
}
