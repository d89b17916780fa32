/** What the output shows of a replaced token, in the fields of its settings alone, and what it
    cannot show: contents that differ only in hidden bytes have one output. */
module Redaction {
  import opened Prelude
  import opened Rules
  import opened Tokenizer
  import opened Rewriting

  // ---- what stands at a replaced token's place ----

  /** Where the replacement of action k starts in the output. */
  ghost function Place(content: Bytes, actions: seq<Action>, k: nat): int
    requires Applicable(content, actions) && k < |actions|
  {
    actions[k].token.start + GrowthBefore(content, actions, 0, actions[k].token.start)
  }

  /** Strategy zero: exactly the placeholder stands there. */
  lemma RedactedToken(content: Bytes, actions: seq<Action>, k: nat)
    requires Due(content, actions, 0, 0) && k < |actions| && actions[k].settings.strategy == 0
    ensures var action := actions[k];
            && StandsAt(Rewrite(content, actions, 0, 0), Place(content, actions, k), action.settings.redact.value)
            && Growth(content, actions, k) == |action.settings.redact.value| - (action.token.end - action.token.start)
  {
    RenderedToken(content, actions, 0, 0, k);
  }

  /** A mask of this size covers n bytes of a token of this length: the size, but at least one byte
      and at most all. */
  predicate Covers(size: int, length: nat, n: nat) {
    1 <= n <= length && (n == size || (size < 1 && n == 1) || (size > length && n == length))
  }

  /** At q stand n copies of the symbol and then the token from its byte n on. */
  predicate MaskStandsAt(output: Bytes, q: int, symbol: Bytes, original: Bytes, n: nat)
    requires n <= |original|
  {
    && (forall j: nat :: j < n ==> StandsAt(output, q + CopiesLength(|symbol|, j), symbol))
    && StandsAt(output, q + CopiesLength(|symbol|, n), original[n..])
  }

  lemma PartStands(output: Bytes, q: int, whole: Bytes, p: nat, part: Bytes)
    requires StandsAt(output, q, whole) && StandsAt(whole, p, part)
    ensures StandsAt(output, q + p, part)
  {
    forall k | q + p <= k < q + p + |part| ensures output[k] == part[k - (q + p)] {
      assert output[k] == whole[k - q];
    }
  }

  /** What a mask shows, wherever its rendering stands. */
  lemma MaskStands(output: Bytes, q: int, original: Bytes, settings: RuleSettings) returns (n: nat)
    requires Renderable(settings) && settings.strategy == MASK && original != []
    requires StandsAt(output, q, Rendering(original, settings))
    ensures Covers(settings.mask.value.maxSize, |original|, n)
    ensures MaskStandsAt(output, q, settings.mask.value.maskingChar, original, n)
    ensures |Rendering(original, settings)| == CopiesLength(|settings.mask.value.maskingChar|, n) + |original| - n
  {
    var symbol, shown := settings.mask.value.maskingChar, Rendering(original, settings);
    n := MaskCoversPrefix(original, settings);
    forall j: nat | j < n ensures StandsAt(output, q + CopiesLength(|symbol|, j), symbol) {
      assert CopyAt(shown, symbol, j);
      PartStands(output, q, shown, CopiesLength(|symbol|, j), symbol);
    }
    SuffixStands(shown, CopiesLength(|symbol|, n), original[n..]);
    PartStands(output, q, shown, CopiesLength(|symbol|, n), original[n..]);
  }

  lemma SuffixStands(whole: Bytes, p: nat, part: Bytes)
    requires p <= |whole| && whole[p..] == part
    ensures StandsAt(whole, p, part)
  {
  }

  lemma OneCopyEach(size: nat, n: nat)
    ensures CopiesLength(size, n) - n == (size - 1) * n
  {
    CopiesLengthIsProduct(size, n);
  }

  /** Strategy one: the symbol once for every covered byte, and the rest of the token. */
  lemma MaskedToken(content: Bytes, actions: seq<Action>, k: nat) returns (n: nat)
    requires Due(content, actions, 0, 0) && k < |actions| && actions[k].settings.strategy == 1
    ensures var token, mask := actions[k].token, actions[k].settings.mask.value;
            && Covers(mask.maxSize, token.end - token.start, n)
            && MaskStandsAt(Rewrite(content, actions, 0, 0), Place(content, actions, k), mask.maskingChar,
                            content[token.start..token.end], n)
            && Growth(content, actions, k) == (|mask.maskingChar| - 1) * n
  {
    var token, settings := actions[k].token, actions[k].settings;
    RenderedToken(content, actions, 0, 0, k);
    n := MaskStands(Rewrite(content, actions, 0, 0), Place(content, actions, k), token.Content(content), settings);
    OneCopyEach(|settings.mask.value.maskingChar|, n);
  }

  /** Any other strategy: nothing stands there. */
  lemma DroppedToken(content: Bytes, actions: seq<Action>, k: nat)
    requires Due(content, actions, 0, 0) && k < |actions| && actions[k].settings.strategy !in {0, 1}
    ensures Growth(content, actions, k) == -(actions[k].token.end - actions[k].token.start)
  {
  }

  /** The actions of the sequential path. */
  ghost function ActionsOf(rules: seq<Rule>, content: Bytes): seq<Action>
    requires Ordered(content, Tokens(content))
  {
    MatchedActions(FirstMatches(rules, content, Tokens(content)), Tokens(content), |Tokens(content)|)
  }

  /** Action k of the list replaces token i, and the output is the list applied. */
  ghost predicate ReplacedBy(rules: seq<Rule>, content: Bytes, i: nat, k: nat)
    requires AllRenderable(rules) && Ordered(content, Tokens(content)) && i < |Tokens(content)|
  {
    var actions, decision := ActionsOf(rules, content), FirstMatch(rules, Tokens(content)[i].Content(content));
    && k < |actions| && Due(content, actions, 0, 0) && Rewrite(content, actions, 0, 0) == Anonymized(rules, content)
    && decision.Some? && actions[k] == Action(Tokens(content)[i], decision.value.settings)
  }

  lemma ActionOfToken(rules: seq<Rule>, content: Bytes, i: nat) returns (k: nat)
    requires AllRenderable(rules) && Ordered(content, Tokens(content)) && i < |Tokens(content)|
    requires FirstMatch(rules, Tokens(content)[i].Content(content)).Some?
    ensures ReplacedBy(rules, content, i, k)
  {
    var tokens := Tokens(content);
    var answers := FirstMatches(rules, content, tokens);
    FirstMatchesAnswer(rules, content, tokens);
    RewriteIsReference(answers, content, tokens, 0, 0);
    MatchedActionsNext(answers, tokens, i);
    k := |MatchedActions(answers, tokens, i)|;
  }

  /** In the output of a whole content, at the shifted place of a token whose first match redacts,
      stands exactly the placeholder. */
  lemma PlaceholderStands(rules: seq<Rule>, content: Bytes, i: nat) returns (k: nat)
    requires AllRenderable(rules) && Ordered(content, Tokens(content)) && i < |Tokens(content)|
    requires var decision := FirstMatch(rules, Tokens(content)[i].Content(content));
             decision.Some? && decision.value.settings.strategy == 0
    ensures ReplacedBy(rules, content, i, k)
    ensures var actions := ActionsOf(rules, content);
            StandsAt(Anonymized(rules, content), Place(content, actions, k), actions[k].settings.redact.value)
  {
    k := ActionOfToken(rules, content, i);
    RedactedToken(content, ActionsOf(rules, content), k);
  }

  // ---- what the output cannot show ----

  /** The input between token i - 1 and token i. */
  ghost function GapBefore(content: Bytes, tokens: seq<Token>, i: nat): Bytes
    requires Ordered(content, tokens) && i <= |tokens|
  {
    content[if i == 0 then 0 else tokens[i - 1].end..if i == |tokens| then |content| else tokens[i].start]
  }

  /** The settings hide how these two differ: a redaction and an unknown strategy hide all of a token,
      a mask its covered bytes. */
  predicate Hides(settings: RuleSettings, x: Bytes, y: Bytes)
    requires Renderable(settings)
  {
    settings.strategy == 1 ==>
      |x| == |y| && forall j :: 0 <= j < |x| && 1 <= j && settings.mask.value.maxSize <= j ==> x[j] == y[j]
  }

  /** Equal tokens, or both hidden by rules with the same settings. */
  ghost predicate Alike(a: Option<Rule>, x: Bytes, b: Option<Rule>, y: Bytes) {
    || (a == b && x == y)
    || (a.Some? && b.Some? && a.value.settings == b.value.settings && Renderable(a.value.settings) && Hides(a.value.settings, x, y))
  }

  /** The same gaps, and tokens alike one by one. */
  ghost predicate Conceals(a: Answers, c: Bytes, ts: seq<Token>, b: Answers, d: Bytes, us: seq<Token>)
    requires Ordered(c, ts) && Ordered(d, us)
  {
    && |ts| == |us| == |a| == |b|
    && (forall i :: 0 <= i <= |ts| ==> GapBefore(c, ts, i) == GapBefore(d, us, i))
    && (forall i :: 0 <= i < |ts| ==> Alike(a[i], ts[i].Content(c), b[i], us[i].Content(d)))
  }

  lemma AlikeAreDecidedAlike(a: Option<Rule>, x: Bytes, b: Option<Rule>, y: Bytes)
    requires RenderableAnswer(a) && RenderableAnswer(b) && x != [] && y != [] && Alike(a, x, b, y)
    ensures Decided(a, x) == Decided(b, y)
  {
    if !(a == b && x == y) && a.value.settings.strategy == MASK {
      var n := MaskLength(a.value.settings.mask.value, |x|);
      assert x[n..] == y[n..];
    }
  }

  ghost function From(a: Answers, c: Bytes, ts: seq<Token>, i: nat): Bytes
    requires Ordered(c, ts) && AllAnswered(ts, a) && i <= |ts|
  {
    Reference(a, c, ts, i, if i == 0 then 0 else ts[i - 1].end)
  }

  lemma FromToken(a: Answers, c: Bytes, ts: seq<Token>, i: nat)
    requires Ordered(c, ts) && AllAnswered(ts, a) && i <= |ts|
    ensures From(a, c, ts, i) == if i == |ts| then GapBefore(c, ts, i)
                                 else GapBefore(c, ts, i) + (Decided(a[i], ts[i].Content(c)) + From(a, c, ts, i + 1))
  {
  }

  ghost predicate BothAnswered(a: Answers, c: Bytes, ts: seq<Token>, b: Answers, d: Bytes, us: seq<Token>) {
    Ordered(c, ts) && Ordered(d, us) && AllAnswered(ts, a) && AllAnswered(us, b)
  }

  lemma SamePieces(a: Answers, c: Bytes, ts: seq<Token>, b: Answers, d: Bytes, us: seq<Token>, i: nat)
    requires BothAnswered(a, c, ts, b, d, us) && Conceals(a, c, ts, b, d, us) && i <= |ts|
    ensures GapBefore(c, ts, i) == GapBefore(d, us, i)
    ensures i < |ts| ==> Decided(a[i], ts[i].Content(c)) == Decided(b[i], us[i].Content(d))
  {
    if i < |ts| {
      assert RenderableAnswer(a[i]) && RenderableAnswer(b[i]);
      AlikeAreDecidedAlike(a[i], ts[i].Content(c), b[i], us[i].Content(d));
    }
  }

  lemma SameFrom(a: Answers, c: Bytes, ts: seq<Token>, b: Answers, d: Bytes, us: seq<Token>, i: nat)
    requires BothAnswered(a, c, ts, b, d, us) && i <= |ts| == |us|
    requires GapBefore(c, ts, i) == GapBefore(d, us, i)
    requires i < |ts| ==> Decided(a[i], ts[i].Content(c)) == Decided(b[i], us[i].Content(d))
                          && From(a, c, ts, i + 1) == From(b, d, us, i + 1)
    ensures From(a, c, ts, i) == From(b, d, us, i)
  {
    FromToken(a, c, ts, i);
    FromToken(b, d, us, i);
  }

  /** From any token on, the two outputs are the same. */
  lemma {:induction false} ConcealedOutput(
    a: Answers, c: Bytes, ts: seq<Token>, b: Answers, d: Bytes, us: seq<Token>, i: nat)
    requires BothAnswered(a, c, ts, b, d, us) && Conceals(a, c, ts, b, d, us) && i <= |ts|
    ensures From(a, c, ts, i) == From(b, d, us, i)
    decreases |ts| - i
  {
    SamePieces(a, c, ts, b, d, us, i);
    if i < |ts| { ConcealedOutput(a, c, ts, b, d, us, i + 1); }
    SameFrom(a, c, ts, b, d, us, i);
  }

  /** Two contents with the same gaps, whose tokens are equal or hidden by the same settings, have one
      output: it tells nothing of a redacted token, not even its length, and of a masked one only its
      length and its uncovered end. */
  lemma HiddenBytesDoNotShow(rules: seq<Rule>, c: Bytes, d: Bytes)
    requires AllRenderable(rules) && Ordered(c, Tokens(c)) && Ordered(d, Tokens(d))
    requires Conceals(FirstMatches(rules, c, Tokens(c)), c, Tokens(c), FirstMatches(rules, d, Tokens(d)), d, Tokens(d))
    ensures Anonymized(rules, c) == Anonymized(rules, d)
  {
    FirstMatchesAnswer(rules, c, Tokens(c));
    FirstMatchesAnswer(rules, d, Tokens(d));
    ConcealedOutput(FirstMatches(rules, c, Tokens(c)), c, Tokens(c), FirstMatches(rules, d, Tokens(d)), d, Tokens(d), 0);
  }
}
