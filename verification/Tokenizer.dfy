/** The tokeniser: the nested-loop scanner with its escape flag and backtracking branch, a
    one-pass automaton it is equivalent to, and what its tokens and gaps contain. */
module Tokenizer {
  import opened Prelude
  import opened Utf8

  datatype Token = Token(start: nat, end: nat) {
    predicate Fits(s: Bytes) { start < end <= |s| }

    function Content(s: Bytes): Bytes
      requires Fits(s)
    {
      s[start..end]
    }
  }

  const BACKSLASH := '\\' as int

  /** The Unicode white-space property. */
  predicate IsSpace(r: int) {
    r in {0x09, 0x0A, 0x0B, 0x0C, 0x0D, 0x20, 0x85, 0xA0, 0x1680, 0x2028, 0x2029, 0x202F, 0x205F, 0x3000}
    || 0x2000 <= r <= 0x200A
  }

  predicate IsDelimiter(r: int) {
    IsSpace(r)
    || r in {',' as int, ';' as int, '!' as int, '?' as int, '(' as int, ')' as int, '[' as int, ']' as int,
             '{' as int, '}' as int, '\"' as int, '\'' as int, '/' as int, '\\' as int,
             '\n' as int, '\t' as int, '\r' as int}
  }

  predicate IsControl(r: int) {
    r == 'n' as int || r == 't' as int || r == 'r' as int
  }

  // ---- the nested loops as functions ----

  function SkipFrom(s: Bytes, pos: nat, escaping: bool): (p: nat)
    requires pos <= |s|
    ensures pos <= p <= |s|
    decreases |s| - pos
  {
    if pos == |s| then pos
    else
      var r := RuneAt(s, pos);
      if r == BACKSLASH then SkipFrom(s, Next(s, pos), true)
      else if escaping && IsControl(r) then SkipFrom(s, Next(s, pos), false)
      else if IsDelimiter(r) then SkipFrom(s, Next(s, pos), escaping)
      else pos
  }

  function EndFrom(s: Bytes, pos: nat): (p: nat)
    requires pos <= |s|
    ensures pos <= p <= |s|
    ensures pos < |s| && !IsDelimiter(RuneAt(s, pos)) ==> pos < p
    decreases |s| - pos
  {
    if pos == |s| || IsDelimiter(RuneAt(s, pos)) then pos else EndFrom(s, Next(s, pos))
  }

  lemma {:induction false} SkipStops(s: Bytes, pos: nat, escaping: bool)
    requires pos <= |s|
    ensures var p := SkipFrom(s, pos, escaping); p < |s| ==> !IsDelimiter(RuneAt(s, p))
    decreases |s| - pos
  {
    if pos < |s| {
      SkipStops(s, Next(s, pos), true);
      SkipStops(s, Next(s, pos), false);
      SkipStops(s, Next(s, pos), escaping);
    }
  }

  function TokensFrom(s: Bytes, pos: nat): seq<Token>
    requires pos <= |s|
    decreases |s| - pos
  {
    var start := SkipFrom(s, pos, false);
    SkipStops(s, pos, false);
    if start == |s| then [] else [Token(start, EndFrom(s, start))] + TokensFrom(s, EndFrom(s, start))
  }

  function Tokens(s: Bytes): seq<Token> { TokensFrom(s, 0) }

  // ---- the scanner as written ----

  method SkipDelimiters(s: Bytes, from: nat) returns (start: nat)
    requires from <= |s|
    ensures start == SkipFrom(s, from, false)
  {
    var isEscaping := false;
    start := from;
    while start < |s|
      invariant from <= start <= |s|
      invariant SkipFrom(s, start, isEscaping) == SkipFrom(s, from, false)
      decreases |s| - start
    {
      var d := DecodeAt(s, start);
      if d.rune == BACKSLASH {
        start := start + d.size;
        isEscaping := true;
        continue;
      }
      if isEscaping {
        if IsControl(d.rune) {
          isEscaping := false;
          start := start + d.size;
          continue;
        }
      }
      if !IsDelimiter(d.rune) {
        break;
      }
      start := start + d.size;
    }
  }

  /** Backslash is itself a delimiter, so the escape flag never rises inside a token and the
      backtracking branch never runs: the end is the next delimiter. */
  method FindTokenEnd(s: Bytes, start: nat) returns (result: nat)
    requires start <= |s|
    ensures result == EndFrom(s, start)
  {
    var isEscaping := false;
    var end: int := start;
    while end < |s|
      invariant start <= end <= |s|
      invariant EndFrom(s, end) == EndFrom(s, start)
      invariant !isEscaping
      decreases |s| - end
    {
      var d := DecodeAt(s, end);
      if IsDelimiter(d.rune) {
        break;
      }
      if isEscaping {
        if IsControl(d.rune) {
          end := end - 1;
          break;
        }
      }
      isEscaping := d.rune == BACKSLASH;
      end := end + d.size;
    }
    return end;
  }

  method TokenIterator(s: Bytes) returns (tokens: seq<Token>)
    ensures tokens == Tokens(s)
  {
    tokens := [];
    var start := 0;
    while start < |s|
      invariant start <= |s|
      invariant tokens + TokensFrom(s, start) == Tokens(s)
      decreases |s| - start
    {
      SkipStops(s, start, false);
      var from := SkipDelimiters(s, start);
      if from >= |s| {
        return;
      }
      var end := FindTokenEnd(s, from);
      tokens := tokens + [Token(from, end)];
      start := end;
    }
  }

  // ---- one pass ----

  datatype Mode = Gap(escaped: bool) | InToken(start: nat)

  /** A three-mode automaton that looks at every rune once. */
  function Scan(s: Bytes, pos: nat, mode: Mode): seq<Token>
    requires pos <= |s|
    decreases |s| - pos
  {
    if pos == |s| then (if mode.InToken? then [Token(mode.start, pos)] else [])
    else
      var r, next := RuneAt(s, pos), Next(s, pos);
      match mode
      case Gap(escaped) =>
        if r == BACKSLASH then Scan(s, next, Gap(true))
        else if escaped && IsControl(r) then Scan(s, next, Gap(false))
        else if IsDelimiter(r) then Scan(s, next, mode)
        else Scan(s, next, InToken(pos))
      case InToken(start) =>
        if IsDelimiter(r) then [Token(start, pos)] + Scan(s, next, Gap(r == BACKSLASH))
        else Scan(s, next, mode)
  }

  lemma {:induction false} ScanGap(s: Bytes, pos: nat, escaped: bool)
    requires pos <= |s|
    ensures var start := SkipFrom(s, pos, escaped);
            Scan(s, pos, Gap(escaped)) == if start == |s| then [] else Scan(s, Next(s, start), InToken(start))
    decreases |s| - pos
  {
    if pos < |s| {
      ScanGap(s, Next(s, pos), true);
      ScanGap(s, Next(s, pos), false);
      ScanGap(s, Next(s, pos), escaped);
    }
  }

  lemma {:induction false} ScanToken(s: Bytes, pos: nat, start: nat)
    requires pos <= |s|
    ensures var end := EndFrom(s, pos);
            Scan(s, pos, InToken(start))
            == [Token(start, end)]
               + if end == |s| then [] else Scan(s, Next(s, end), Gap(RuneAt(s, end) == BACKSLASH))
    decreases |s| - pos
  {
    if pos < |s| && !IsDelimiter(RuneAt(s, pos)) { ScanToken(s, Next(s, pos), start); }
  }

  /** Entering a gap at a delimiter is entering it after that delimiter. */
  lemma GapAtDelimiter(s: Bytes, pos: nat)
    requires pos < |s| && IsDelimiter(RuneAt(s, pos))
    ensures Scan(s, pos, Gap(false)) == Scan(s, Next(s, pos), Gap(RuneAt(s, pos) == BACKSLASH))
  {
  }

  /** On every byte string, well-formed or not, the nested loops yield the automaton's tokens. */
  lemma {:induction false} NestedIsOnePass(s: Bytes, pos: nat)
    requires pos <= |s|
    ensures TokensFrom(s, pos) == Scan(s, pos, Gap(false))
    decreases |s| - pos
  {
    ScanGap(s, pos, false);
    SkipStops(s, pos, false);
    var start := SkipFrom(s, pos, false);
    if start < |s| {
      ScanToken(s, Next(s, start), start);
      var end := EndFrom(s, start);
      NestedIsOnePass(s, end);
      EndStops(s, start);
      if end < |s| { GapAtDelimiter(s, end); }
    }
  }

  lemma {:induction false} EndStops(s: Bytes, pos: nat)
    requires pos <= |s|
    ensures var end := EndFrom(s, pos);
            && (end < |s| ==> IsDelimiter(RuneAt(s, end)))
            && Reaches(s, pos, end)
            && (forall p :: pos <= p < end && Reaches(s, pos, p) ==> !IsDelimiter(RuneAt(s, p)))
    decreases |s| - pos
  {
    if pos < |s| && !IsDelimiter(RuneAt(s, pos)) { EndStops(s, Next(s, pos)); }
  }

  // ---- what gaps contain ----

  /** A backslash stands earlier in the gap that began at a, with no control letter since. */
  ghost predicate Escaped(s: Bytes, a: nat, p: nat)
    requires p <= |s|
  {
    exists q: nat :: EscapedBy(s, a, q, p)
  }

  ghost predicate EscapedBy(s: Bytes, a: nat, q: nat, p: nat)
    requires p <= |s|
  {
    a <= q < p && Reaches(s, a, q) && RuneAt(s, q) == BACKSLASH && Quiet(s, a, q, p)
  }

  ghost predicate Quiet(s: Bytes, a: nat, q: nat, p: nat)
    requires p <= |s|
  {
    forall t: nat :: q < t < p && Reaches(s, a, t) ==> !IsControl(RuneAt(s, t))
  }

  /** What may be skipped at p in the gap that began at a. */
  ghost predicate Skippable(s: Bytes, a: nat, p: nat)
    requires p < |s|
  {
    IsDelimiter(RuneAt(s, p)) || (IsControl(RuneAt(s, p)) && Escaped(s, a, p))
  }

  /** The run [a, b) is a complete gap: all skippable, and it ends where skipping must stop. */
  ghost predicate IsGap(s: Bytes, a: nat, b: nat)
    requires a <= b <= |s|
  {
    && Reaches(s, a, b)
    && (forall p: nat :: a <= p < b && Reaches(s, a, p) ==> Skippable(s, a, p))
    && (b < |s| ==> !Skippable(s, a, b))
  }

  lemma QuietStep(s: Bytes, a: nat, q: nat, p: nat)
    requires a <= q <= p < |s| && Reaches(s, a, p)
    ensures Quiet(s, a, q, Next(s, p)) <==> Quiet(s, a, q, p) && (q == p || !IsControl(RuneAt(s, p)))
  {
    forall t: nat | p < t < Next(s, p) ensures !Reaches(s, a, t) {
      if Reaches(s, a, t) { NoBoundaryInside(s, a, p, t); }
    }
  }

  lemma EscapedStep(s: Bytes, a: nat, p: nat)
    requires a <= p < |s| && Reaches(s, a, p)
    ensures Escaped(s, a, Next(s, p)) <==>
            RuneAt(s, p) == BACKSLASH || (Escaped(s, a, p) && !IsControl(RuneAt(s, p)))
  {
    var n := Next(s, p);
    QuietStep(s, a, p, p);
    if RuneAt(s, p) == BACKSLASH {
      assert EscapedBy(s, a, p, n);
    } else {
      forall q: nat | q < p && (EscapedBy(s, a, q, p) || EscapedBy(s, a, q, n))
        ensures EscapedBy(s, a, q, n) <==> EscapedBy(s, a, q, p) && !IsControl(RuneAt(s, p))
      {
        QuietStep(s, a, q, p);
      }
      if q: nat :| EscapedBy(s, a, q, n) {
        if p < q { NoBoundaryInside(s, a, p, q); }
      }
    }
  }

  lemma {:induction false} SkipIsGap(s: Bytes, a: nat, pos: nat, escaping: bool)
    requires a <= pos <= |s| && Reaches(s, a, pos) && (escaping <==> Escaped(s, a, pos))
    requires forall p: nat :: a <= p < pos && Reaches(s, a, p) ==> Skippable(s, a, p)
    ensures IsGap(s, a, SkipFrom(s, pos, escaping))
    decreases |s| - pos
  {
    if pos < |s| && Skippable(s, a, pos) {
      var r, n := RuneAt(s, pos), Next(s, pos);
      EscapedStep(s, a, pos);
      ReachesNext(s, a, pos);
      forall p: nat | a <= p < n && Reaches(s, a, p) ensures Skippable(s, a, p) {
        if pos < p { NoBoundaryInside(s, a, pos, p); }
      }
      SkipIsGap(s, a, n, r == BACKSLASH || (escaping && !IsControl(r)));
    }
  }

  /** What every token is: non-empty, whole runes, free of delimiters, ended by a delimiter or the input. */
  ghost predicate IsToken(s: Bytes, t: Token) {
    && t.Fits(s) && Reaches(s, t.start, t.end)
    && (forall p: nat :: t.start <= p < t.end && Reaches(s, t.start, p) ==> !IsDelimiter(RuneAt(s, p)))
    && (t.end < |s| ==> IsDelimiter(RuneAt(s, t.end)))
  }

  /** The input from pos on is gap, token, gap, token, ..., gap. */
  ghost predicate Alternates(s: Bytes, pos: nat, tokens: seq<Token>)
    decreases |tokens|
  {
    pos <= |s| &&
    if tokens == [] then IsGap(s, pos, |s|)
    else
      && IsToken(s, tokens[0]) && pos <= tokens[0].start && IsGap(s, pos, tokens[0].start)
      && Alternates(s, tokens[0].end, tokens[1..])
  }

  /** The tokens cut every input into complete gaps and delimiter-free tokens. */
  lemma {:induction false} TokensAlternate(s: Bytes, pos: nat)
    requires pos <= |s|
    ensures Alternates(s, pos, TokensFrom(s, pos))
    decreases |s| - pos
  {
    SkipIsGap(s, pos, pos, false);
    SkipStops(s, pos, false);
    var start := SkipFrom(s, pos, false);
    if start < |s| {
      EndStops(s, start);
      TokensAlternate(s, EndFrom(s, start));
    }
  }

  /** Ordered, in range, on boundaries of the input, and at least one byte apart. */
  ghost predicate Separated(s: Bytes, pos: nat, tokens: seq<Token>) {
    && (forall i :: 0 <= i < |tokens| ==>
          tokens[i].Fits(s) && pos <= tokens[i].start && Reaches(s, 0, tokens[i].start) && Reaches(s, 0, tokens[i].end))
    && (forall i, j :: 0 <= i < j < |tokens| ==> tokens[i].end < tokens[j].start)
  }

  lemma {:induction false} AlternatingIsSeparated(s: Bytes, pos: nat, tokens: seq<Token>)
    requires Alternates(s, pos, tokens) && Reaches(s, 0, pos)
    ensures Separated(s, pos, tokens)
    ensures tokens != [] && pos < |s| && IsDelimiter(RuneAt(s, pos)) ==> pos < tokens[0].start
    decreases |tokens|
  {
    if tokens != [] {
      var t := tokens[0];
      ReachesTransitively(s, 0, pos, t.start);
      ReachesTransitively(s, 0, t.start, t.end);
      AlternatingIsSeparated(s, t.end, tokens[1..]);
      assert forall i :: 0 < i < |tokens| ==> tokens[i] == tokens[1..][i - 1];
    }
  }

  /** The tokeniser's tokens are non-empty, on decode boundaries and strictly separated. */
  lemma TokensAreSeparated(s: Bytes)
    ensures Separated(s, 0, Tokens(s))
  {
    TokensAlternate(s, 0);
    AlternatingIsSeparated(s, 0, Tokens(s));
  }

  /** The gap-token cut is unique: any other alternating list is the tokeniser's. */
  lemma {:induction false} AlternationIsUnique(s: Bytes, pos: nat, a: seq<Token>, b: seq<Token>)
    requires Alternates(s, pos, a) && Alternates(s, pos, b)
    ensures a == b
    decreases |a|
  {
    var p, q := if a == [] then |s| else a[0].start, if b == [] then |s| else b[0].start;
    GapEndIsUnique(s, pos, p, q);
    if a != [] {
      assert b != [];
      TokenEndIsUnique(s, a[0], b[0]);
      AlternationIsUnique(s, a[0].end, a[1..], b[1..]);
    }
  }

  lemma GapEndIsUnique(s: Bytes, a: nat, p: nat, q: nat)
    requires a <= p <= |s| && a <= q <= |s| && IsGap(s, a, p) && IsGap(s, a, q)
    ensures p == q
  {
  }

  lemma TokenEndIsUnique(s: Bytes, t: Token, u: Token)
    requires IsToken(s, t) && IsToken(s, u) && t.start == u.start
    ensures t == u
  {
  }

  /** The tokeniser's answer, characterised without its loops or flag. */
  lemma TokensCharacterised(s: Bytes, tokens: seq<Token>)
    ensures Alternates(s, 0, tokens) <==> tokens == Tokens(s)
  {
    TokensAlternate(s, 0);
    if Alternates(s, 0, tokens) { AlternationIsUnique(s, 0, tokens, Tokens(s)); }
  }
}
