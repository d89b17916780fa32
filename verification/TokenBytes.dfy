/** What tokens are made of, byte by byte: which ASCII bytes can stand in one, and how words,
    delimiters and escaped control letters are cut. */
module TokenBytes {
  import opened Prelude
  import opened Utf8
  import opened Tokenizer

  /** An ASCII byte that can stand in a token: not white space, a comma, a semicolon, an exclamation
      or question mark, a parenthesis, a bracket, a brace, a quote, a slash or a backslash. */
  predicate WordByte(b: int) {
    && 0 <= b < 0x80
    && !(0x09 <= b <= 0x0D) && b != ' ' as int
    && b != ',' as int && b != ';' as int && b != '!' as int && b != '?' as int
    && b != '(' as int && b != ')' as int && b != '[' as int && b != ']' as int && b != '{' as int && b != '}' as int
    && b != '\"' as int && b != '\'' as int && b != '/' as int && b != '\\' as int
  }

  predicate Word(x: Bytes) { x != [] && forall k :: 0 <= k < |x| ==> WordByte(x[k]) }

  lemma WordBytesAreNoDelimiters(b: int)
    requires 0 <= b < 0x80
    ensures WordByte(b) <==> !IsDelimiter(b)
  {
  }

  // ---- no token holds any other ASCII byte ----

  /** An ASCII byte is a rune of its own wherever decoding starts before it. */
  lemma {:induction false} AsciiIsBoundary(s: Bytes, a: nat, p: nat, b: nat)
    requires a <= p < b <= |s| && Reaches(s, a, b) && s[p] < 0x80
    ensures Reaches(s, a, p)
    decreases |s| - a
  {
    if a < p {
      ReachesForward(s, Next(s, a), b);
      if Next(s, a) <= p { AsciiIsBoundary(s, Next(s, a), p, b); }
    }
  }

  lemma {:induction false} AlternatingTokens(s: Bytes, pos: nat, tokens: seq<Token>, i: nat)
    requires Alternates(s, pos, tokens) && i < |tokens|
    ensures IsToken(s, tokens[i])
    decreases |tokens|
  {
    if i > 0 { AlternatingTokens(s, tokens[0].end, tokens[1..], i - 1); }
  }

  /** Every ASCII byte of every token of every input is a word byte: no token holds a slash, so a
      punctuated CNPJ is always cut. */
  lemma TokensHoldWordBytes(s: Bytes, i: nat, p: nat)
    requires i < |Tokens(s)| && Tokens(s)[i].Fits(s) && Tokens(s)[i].start <= p < Tokens(s)[i].end && s[p] < 0x80
    ensures WordByte(s[p])
  {
    TokensAlternate(s, 0);
    AlternatingTokens(s, 0, Tokens(s), i);
    AsciiIsBoundary(s, Tokens(s)[i].start, p, Tokens(s)[i].end);
    WordBytesAreNoDelimiters(s[p]);
  }

  // ---- how ASCII words are cut ----

  /** A run of word bytes up to the end of the input or an ASCII delimiter is one token. */
  lemma {:induction false} WordEnds(s: Bytes, i: nat, j: nat)
    requires i <= j <= |s| && forall k :: i <= k < j ==> WordByte(s[k])
    requires j < |s| ==> s[j] < 0x80 && !WordByte(s[j])
    ensures EndFrom(s, i) == j
    decreases j - i
  {
    if i < j {
      WordBytesAreNoDelimiters(s[i]);
      assert Next(s, i) == i + 1;
      WordEnds(s, i + 1, j);
    } else if j < |s| {
      WordBytesAreNoDelimiters(s[j]);
    }
  }

  /** Nothing is skipped in front of a word, and it is the next token. */
  lemma WordIsNext(s: Bytes, i: nat, j: nat)
    requires i < j <= |s| && forall k :: i <= k < j ==> WordByte(s[k])
    requires j < |s| ==> s[j] < 0x80 && !WordByte(s[j])
    ensures SkipFrom(s, i, false) == i
    ensures TokensFrom(s, i) == [Token(i, j)] + TokensFrom(s, j)
  {
    WordBytesAreNoDelimiters(s[i]);
    WordEnds(s, i, j);
  }

  lemma EndOfInput(s: Bytes)
    ensures TokensFrom(s, |s|) == []
  {
  }

  /** A word is one token, whole. */
  lemma WordIsToken(x: Bytes)
    requires Word(x)
    ensures Tokens(x) == [Token(0, |x|)]
  {
    WordIsNext(x, 0, |x|);
    EndOfInput(x);
  }

  /** A word up to a delimiter at g, and word bytes from the end p of the gap on. */
  lemma CutAt(s: Bytes, g: nat, p: nat)
    requires 0 < g < p <= |s| && s[g] < 0x80 && !WordByte(s[g]) && SkipFrom(s, g, false) == p
    requires (forall k :: 0 <= k < g ==> WordByte(s[k])) && (forall k :: p <= k < |s| ==> WordByte(s[k]))
    ensures Tokens(s) == [Token(0, g)] + if p == |s| then [] else [Token(p, |s|)]
  {
    WordIsNext(s, 0, g);
    SkipStops(s, g, false);
    if p < |s| {
      WordEnds(s, p, |s|);
      EndOfInput(s);
    }
  }

  lemma SkipsDelimiter(s: Bytes, g: nat)
    requires g + 1 < |s| && s[g] < 0x80 && !WordByte(s[g]) && s[g] != '\\' as int && WordByte(s[g + 1])
    ensures SkipFrom(s, g, false) == g + 1
  {
    WordBytesAreNoDelimiters(s[g]);
    WordBytesAreNoDelimiters(s[g + 1]);
    assert Next(s, g) == g + 1;
  }

  lemma SkipsEscape(s: Bytes, g: nat)
    requires g + 1 < |s| && s[g] == '\\' as int && WordByte(s[g + 1]) && (g + 2 < |s| ==> WordByte(s[g + 2]))
    ensures SkipFrom(s, g, false) == if s[g + 1] in {'n' as int, 't' as int, 'r' as int} then g + 2 else g + 1
  {
    WordBytesAreNoDelimiters(s[g + 1]);
    assert Next(s, g) == g + 1 && Next(s, g + 1) == g + 2;
    assert SkipFrom(s, g, false) == SkipFrom(s, g + 1, true);
    if IsControl(s[g + 1]) {
      assert SkipFrom(s, g + 1, true) == SkipFrom(s, g + 2, false);
      if g + 2 < |s| { WordBytesAreNoDelimiters(s[g + 2]); }
    }
  }

  /** Two words with an ASCII delimiter other than the backslash between them, a slash for instance,
      are two tokens, and the delimiter belongs to neither. */
  lemma DelimiterCuts(x: Bytes, delimiter: byte, y: Bytes)
    requires Word(x) && Word(y) && delimiter < 0x80 && !WordByte(delimiter) && delimiter != '\\' as int
    ensures Tokens(x + [delimiter] + y) == [Token(0, |x|), Token(|x| + 1, |x| + 1 + |y|)]
  {
    var s, g := x + [delimiter] + y, |x|;
    assert s[g + 1] == y[0];
    SkipsDelimiter(s, g);
    CutAt(s, g, g + 1);
  }

  /** A backslash between words cuts them as well, and the letter n, t or r right after it goes with
      it; any other letter starts the next token. */
  lemma EscapeCuts(x: Bytes, letter: byte, y: Bytes)
    requires Word(x) && WordByte(letter) && (y == [] || Word(y))
    ensures Tokens(x + ['\\' as int, letter] + y)
         == if letter in {'n' as int, 't' as int, 'r' as int}
            then [Token(0, |x|)] + (if y == [] then [] else [Token(|x| + 2, |x| + 2 + |y|)])
            else [Token(0, |x|), Token(|x| + 1, |x| + 2 + |y|)]
  {
    var s, g := x + ['\\' as int, letter] + y, |x|;
    assert forall k :: g + 2 <= k < |s| ==> s[k] == y[k - g - 2];
    SkipsEscape(s, g);
    CutAt(s, g, SkipFrom(s, g, false));
  }

  // ---- runes beyond ASCII ----

  /** White space beyond ASCII. */
  predicate WideSpace(r: int) {
    r == 0x85 || r == 0xA0 || r == 0x1680 || 0x2000 <= r <= 0x200A || r == 0x2028 || r == 0x2029 || r == 0x202F
    || r == 0x205F || r == 0x3000
  }

  lemma {:induction false} WordContinues(s: Bytes, i: nat, j: nat)
    requires i <= j <= |s| && forall k :: i <= k < j ==> WordByte(s[k])
    ensures EndFrom(s, i) == EndFrom(s, j)
    decreases j - i
  {
    if i < j {
      WordBytesAreNoDelimiters(s[i]);
      assert Next(s, i) == i + 1;
      WordContinues(s, i + 1, j);
    }
  }

  /** The rune encoded at g, with word bytes around it. */
  lemma RuneAmongWords(s: Bytes, g: nat, r: int)
    requires Scalar(r) && r >= 0x80 && EncodedAt(s, g, r) && 0 < g && g + |Encode(r)| < |s|
    requires forall k :: 0 <= k < |s| && (k < g || g + |Encode(r)| <= k) ==> WordByte(s[k])
    ensures Tokens(s) == if WideSpace(r) then [Token(0, g), Token(g + |Encode(r)|, |s|)] else [Token(0, |s|)]
  {
    var n := g + |Encode(r)|;
    EncodedDecodes(s, g, r);
    WordBytesAreNoDelimiters(s[0]);
    WordBytesAreNoDelimiters(s[n]);
    WordContinues(s, 0, g);
    WordEnds(s, n, |s|);
    EndOfInput(s);
    assert RuneAt(s, g) == r && Next(s, g) == n;
    if WideSpace(r) {
      assert EndFrom(s, g) == g;
      assert SkipFrom(s, g, false) == SkipFrom(s, n, false) == n;
      assert TokensFrom(s, g) == [Token(n, |s|)] + TokensFrom(s, |s|);
    } else {
      assert EndFrom(s, g) == EndFrom(s, n);
    }
  }

  lemma PiecesOf(x: Bytes, e: Bytes, y: Bytes)
    requires Word(x) && Word(y)
    ensures var s := x + e + y;
            && (forall k :: 0 <= k < |e| ==> s[|x| + k] == e[k])
            && (forall k :: 0 <= k < |s| && (k < |x| || |x| + |e| <= k) ==> WordByte(s[k]))
  {
    var s, n := x + e + y, |x| + |e|;
    assert forall k :: n <= k < |s| ==> s[k] == y[k - n];
  }

  /** Between two words a rune beyond ASCII cuts exactly when it is white space; any other belongs to
      the one token around it. */
  lemma WideRuneCuts(x: Bytes, r: int, y: Bytes)
    requires Word(x) && Word(y) && Scalar(r) && r >= 0x80
    ensures var n := |x| + |Encode(r)|;
            Tokens(x + Encode(r) + y) == if WideSpace(r) then [Token(0, |x|), Token(n, n + |y|)] else [Token(0, n + |y|)]
  {
    PiecesOf(x, Encode(r), y);
    RuneAmongWords(x + Encode(r) + y, |x|, r);
  }
}
