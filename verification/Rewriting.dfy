/** Output rewriting: what one action writes, the output of an action list, and the reference
    output decided token by token. */
module Rewriting {
  import opened Prelude
  import opened Rules
  import opened Tokenizer

  const REDACT := 0
  const MASK := 1

  datatype Action = Action(token: Token, settings: RuleSettings)

  /** The settings its strategy selects are present; the source dereferences them unchecked. */
  predicate Renderable(settings: RuleSettings) {
    && (settings.strategy == REDACT ==> settings.redact.Some?)
    && (settings.strategy == MASK ==> settings.mask.Some?)
  }

  /** Length of n copies of something this long. */
  function CopiesLength(size: nat, n: nat): nat {
    if n == 0 then 0 else size + CopiesLength(size, n - 1)
  }

  lemma {:induction false} CopiesLengthIsProduct(size: nat, n: nat)
    ensures CopiesLength(size, n) == size * n
  {
    if n > 0 {
      CopiesLengthIsProduct(size, n - 1);
      assert size * n == size + size * (n - 1);
    }
  }

  function Repeat(x: Bytes, n: nat): (r: Bytes)
    ensures |r| == CopiesLength(|x|, n)
  {
    if n == 0 then [] else x + Repeat(x, n - 1)
  }

  /** How many leading bytes of a token of this length a mask covers. */
  function MaskLength(mask: MaskSettings, length: nat): (n: nat)
    ensures n <= length
  {
    var wanted := if mask.maxSize <= 0 then 1 else mask.maxSize;
    if wanted > length then length else wanted
  }

  /** What replaces a token; a strategy that is neither REDACT nor MASK writes nothing. */
  function Rendering(content: Bytes, settings: RuleSettings): Bytes
    requires Renderable(settings)
  {
    if settings.strategy == REDACT then settings.redact.value
    else if settings.strategy == MASK then
      var mask := settings.mask.value;
      var n := MaskLength(mask, |content|);
      Repeat(mask.maskingChar, n) + content[n..]
    else []
  }

  /** Actions in input order, each within the content. */
  ghost predicate Applicable(content: Bytes, actions: seq<Action>) {
    && (forall i :: 0 <= i < |actions| ==> actions[i].token.Fits(content) && Renderable(actions[i].settings))
    && (forall i, j :: 0 <= i < j < |actions| ==> actions[i].token.end <= actions[j].token.start)
  }

  /** Everything before pos was written, and action i comes next. */
  ghost predicate Due(content: Bytes, actions: seq<Action>, i: nat, pos: nat) {
    && Applicable(content, actions) && i <= |actions|
    && pos <= (if i < |actions| then actions[i].token.start else |content|)
  }

  ghost function Shown(content: Bytes, actions: seq<Action>, i: nat): Bytes
    requires Applicable(content, actions) && i < |actions|
  {
    Rendering(actions[i].token.Content(content), actions[i].settings)
  }

  /** What is still to be written from pos on when action i comes next. */
  ghost function Rewrite(content: Bytes, actions: seq<Action>, i: nat, pos: nat): Bytes
    requires Due(content, actions, i, pos)
    decreases |actions| - i
  {
    if i == |actions| then content[pos..]
    else content[pos..actions[i].token.start]
         + (Shown(content, actions, i) + Rewrite(content, actions, i + 1, actions[i].token.end))
  }

  // ---- where every byte of the output comes from ----

  /** How much longer action i makes the output. */
  ghost function Growth(content: Bytes, actions: seq<Action>, i: nat): int
    requires Applicable(content, actions) && i < |actions|
  {
    |Shown(content, actions, i)| - (actions[i].token.end - actions[i].token.start)
  }

  /** Total growth of the actions from i on that end at or before p. */
  ghost function GrowthBefore(content: Bytes, actions: seq<Action>, i: nat, p: nat): int
    requires Applicable(content, actions) && i <= |actions|
    decreases |actions| - i
  {
    if i == |actions| || p < actions[i].token.end then 0
    else Growth(content, actions, i) + GrowthBefore(content, actions, i + 1, p)
  }

  predicate Outside(actions: seq<Action>, p: nat) {
    forall i :: 0 <= i < |actions| ==> !(actions[i].token.start <= p < actions[i].token.end)
  }

  predicate StandsAt(output: Bytes, q: int, piece: Bytes) {
    0 <= q && q + |piece| <= |output| && forall k :: q <= k < q + |piece| ==> output[k] == piece[k - q]
  }

  /** The q-th copy of x, counted from the start of the output. */
  predicate CopyAt(output: Bytes, x: Bytes, q: nat) {
    StandsAt(output, CopiesLength(|x|, q), x)
  }

  lemma {:induction false} RepeatCopies(x: Bytes, n: nat, q: nat)
    requires q < n
    ensures CopyAt(Repeat(x, n), x, q)
  {
    if q == 0 {
      StandsBefore(x, Repeat(x, n - 1), 0, x);
    } else {
      RepeatCopies(x, n - 1, q - 1);
      StandsAfter(x, Repeat(x, n - 1), CopiesLength(|x|, q - 1), x);
    }
  }

  lemma StandsAfter(a: Bytes, b: Bytes, q: int, piece: Bytes)
    requires StandsAt(b, q, piece)
    ensures StandsAt(a + b, |a| + q, piece)
  {
    forall k | |a| + q <= k < |a| + q + |piece| ensures (a + b)[k] == piece[k - (|a| + q)] {
      assert (a + b)[k] == b[k - |a|];
    }
  }

  lemma StandsBefore(a: Bytes, b: Bytes, q: int, piece: Bytes)
    requires StandsAt(a, q, piece)
    ensures StandsAt(a + b, q, piece)
  {
    forall k | q <= k < q + |piece| ensures (a + b)[k] == piece[k - q] {
      assert (a + b)[k] == a[k];
    }
  }

  /** A mask covers the first maxSize bytes of a non-empty token, at least one and at most all,
      each by one copy of the masking character, and leaves the rest of the token at its end. */
  lemma MaskCoversPrefix(content: Bytes, settings: RuleSettings) returns (n: nat)
    requires Renderable(settings) && settings.strategy == MASK && content != []
    ensures 1 <= n <= |content|
    ensures var size := settings.mask.value.maxSize;
            n == size || (size < 1 && n == 1) || (size > |content| && n == |content|)
    ensures var output, symbol := Rendering(content, settings), settings.mask.value.maskingChar;
            && |output| == CopiesLength(|symbol|, n) + (|content| - n) && output[CopiesLength(|symbol|, n)..] == content[n..]
            && (forall q: nat :: q < n ==> CopyAt(output, symbol, q))
  {
    var symbol := settings.mask.value.maskingChar;
    n := MaskLength(settings.mask.value, |content|);
    var covered := Repeat(symbol, n);
    forall q: nat | q < n ensures CopyAt(covered + content[n..], symbol, q) {
      RepeatCopies(symbol, n, q);
      StandsBefore(covered, content[n..], CopiesLength(|symbol|, q), symbol);
    }
  }

  /** What stands in the rewriting of the rest stands, shifted, in the whole. */
  lemma StandsLater(content: Bytes, actions: seq<Action>, i: nat, pos: nat, q: int, piece: Bytes)
    requires Due(content, actions, i, pos) && i < |actions|
    requires StandsAt(Rewrite(content, actions, i + 1, actions[i].token.end), q, piece)
    ensures StandsAt(Rewrite(content, actions, i, pos), actions[i].token.start - pos + |Shown(content, actions, i)| + q, piece)
  {
    var gap, shown, rest := content[pos..actions[i].token.start], Shown(content, actions, i),
                            Rewrite(content, actions, i + 1, actions[i].token.end);
    LaterPieceStands(gap, shown, rest, q, piece);
  }

  lemma LaterPieceStands(a: Bytes, b: Bytes, c: Bytes, q: int, piece: Bytes)
    requires StandsAt(c, q, piece)
    ensures StandsAt(a + (b + c), |a| + |b| + q, piece)
  {
    StandsAfter(b, c, q, piece);
    StandsAfter(a, b + c, |b| + q, piece);
  }

  lemma PiecesStand(a: Bytes, b: Bytes, c: Bytes)
    ensures StandsAt(a + (b + c), |a|, b)
  {
    StandsBefore(b, c, 0, b);
    StandsAfter(a, b + c, 0, b);
  }

  /** The same for what belongs at input position p, past the next token. */
  lemma StandsShifted(content: Bytes, actions: seq<Action>, i: nat, pos: nat, p: nat, piece: Bytes)
    requires Due(content, actions, i, pos) && i < |actions| && actions[i].token.end <= p
    requires StandsAt(Rewrite(content, actions, i + 1, actions[i].token.end),
                      p - actions[i].token.end + GrowthBefore(content, actions, i + 1, p), piece)
    ensures StandsAt(Rewrite(content, actions, i, pos), p - pos + GrowthBefore(content, actions, i, p), piece)
  {
    StandsLater(content, actions, i, pos, p - actions[i].token.end + GrowthBefore(content, actions, i + 1, p), piece);
  }

  /** The next replacement stands after the gap. */
  lemma StandsNext(content: Bytes, actions: seq<Action>, i: nat, pos: nat)
    requires Due(content, actions, i, pos) && i < |actions|
    ensures StandsAt(Rewrite(content, actions, i, pos), actions[i].token.start - pos, Shown(content, actions, i))
  {
    var gap, shown, rest := content[pos..actions[i].token.start], Shown(content, actions, i),
                            Rewrite(content, actions, i + 1, actions[i].token.end);
    PiecesStand(gap, shown, rest);
  }

  /** The gap is copied at the front. */
  lemma StandsInGap(content: Bytes, actions: seq<Action>, i: nat, pos: nat, p: nat)
    requires Due(content, actions, i, pos)
    requires pos <= p < if i < |actions| then actions[i].token.start else |content|
    ensures StandsAt(Rewrite(content, actions, i, pos), p - pos, [content[p]])
  {
    if i == |actions| {
      ByteInSlice(content, pos, |content|, p);
      assert content[pos..] == content[pos..|content|];
    } else {
      ByteInSlice(content, pos, actions[i].token.start, p);
      StandsBefore(content[pos..actions[i].token.start],
                   Shown(content, actions, i) + Rewrite(content, actions, i + 1, actions[i].token.end), p - pos, [content[p]]);
    }
  }

  lemma ByteInSlice(content: Bytes, from: nat, to: nat, p: nat)
    requires from <= p < to <= |content|
    ensures StandsAt(content[from..to], p - from, [content[p]])
  {
  }

  /** Every byte outside the replaced tokens is copied, at its place shifted by the growth before it. */
  lemma {:induction false} CopiedByte(content: Bytes, actions: seq<Action>, i: nat, pos: nat, p: nat)
    requires Due(content, actions, i, pos) && pos <= p < |content| && Outside(actions, p)
    ensures StandsAt(Rewrite(content, actions, i, pos), p - pos + GrowthBefore(content, actions, i, p), [content[p]])
    decreases |actions| - i
  {
    if i < |actions| && actions[i].token.end <= p {
      CopiedByte(content, actions, i + 1, actions[i].token.end, p);
      StandsShifted(content, actions, i, pos, p, [content[p]]);
    } else {
      StandsInGap(content, actions, i, pos, p);
    }
  }

  /** Each replaced token's rendering stands, whole, at the token's shifted place. */
  lemma {:induction false} RenderedToken(content: Bytes, actions: seq<Action>, i: nat, pos: nat, k: nat)
    requires Due(content, actions, i, pos) && i <= k < |actions|
    ensures var start := actions[k].token.start;
            StandsAt(Rewrite(content, actions, i, pos), start - pos + GrowthBefore(content, actions, i, start),
                     Shown(content, actions, k))
    decreases k - i
  {
    if i == k {
      StandsNext(content, actions, i, pos);
    } else {
      RenderedToken(content, actions, i + 1, actions[i].token.end, k);
      StandsShifted(content, actions, i, pos, actions[k].token.start, Shown(content, actions, k));
    }
  }

  /** The output is as long as the input plus the growth of all actions. */
  lemma {:induction false} OutputLength(content: Bytes, actions: seq<Action>, i: nat, pos: nat)
    requires Due(content, actions, i, pos)
    ensures |Rewrite(content, actions, i, pos)| == |content| - pos + GrowthBefore(content, actions, i, |content|)
    decreases |actions| - i
  {
    if i < |actions| { OutputLength(content, actions, i + 1, actions[i].token.end); }
  }

  /** Copied bytes keep their order. */
  lemma {:induction false} CopiesKeepOrder(content: Bytes, actions: seq<Action>, i: nat, pos: nat, p: nat, q: nat)
    requires Due(content, actions, i, pos) && pos <= p < q <= |content| && Outside(actions, p) && Outside(actions, q)
    ensures p + GrowthBefore(content, actions, i, p) < q + GrowthBefore(content, actions, i, q)
    decreases |actions| - i
  {
    if i < |actions| {
      var token := actions[i].token;
      assert !(token.start <= p < token.end) && !(token.start <= q < token.end);
      if token.end <= p {
        CopiesKeepOrder(content, actions, i + 1, token.end, p, q);
      } else if token.end <= q {
        GrowthIsBounded(content, actions, i + 1, token.end, q);
      }
    }
  }

  lemma {:induction false} GrowthIsBounded(content: Bytes, actions: seq<Action>, i: nat, pos: nat, q: nat)
    requires Due(content, actions, i, pos) && pos <= q <= |content| && Outside(actions, q)
    ensures pos <= q + GrowthBefore(content, actions, i, q)
    decreases |actions| - i
  {
    if i < |actions| && actions[i].token.end <= q {
      GrowthIsBounded(content, actions, i + 1, actions[i].token.end, q);
    }
  }

  /** Masking with a single byte preserves length, token by token and so overall. */
  lemma {:induction false} SingleByteMaskKeepsLength(content: Bytes, actions: seq<Action>, i: nat, pos: nat)
    requires Due(content, actions, i, pos)
    requires forall k :: 0 <= k < |actions| ==>
               actions[k].settings.strategy == MASK && |actions[k].settings.mask.value.maskingChar| == 1
    ensures |Rewrite(content, actions, i, pos)| == |content| - pos
    decreases |actions| - i
  {
    if i < |actions| {
      var token := actions[i].token;
      SingleByteMaskKeepsLength(content, actions, i + 1, token.end);
      CopiesLengthIsProduct(1, MaskLength(actions[i].settings.mask.value, |token.Content(content)|));
      assert |Shown(content, actions, i)| == token.end - token.start;
    }
  }

  // ---- the reference: every token decided by what the runner answered for it ----

  /** Tokens in input order and apart, each within the content. */
  ghost predicate Ordered(content: Bytes, tokens: seq<Token>) {
    && (forall i :: 0 <= i < |tokens| ==> tokens[i].Fits(content))
    && (forall i, j :: 0 <= i < j < |tokens| ==> tokens[i].end < tokens[j].start)
  }

  /** One answer per token: the rule reported for it, if any. */
  type Answers = seq<Option<Rule>>

  predicate RenderableAnswer(answer: Option<Rule>) {
    answer.Some? ==> Renderable(answer.value.settings)
  }

  ghost predicate AllAnswered(tokens: seq<Token>, answers: Answers) {
    |answers| == |tokens| && forall i :: 0 <= i < |answers| ==> RenderableAnswer(answers[i])
  }

  /** A token replaced by the rendering of its answer, or kept. */
  function Decided(answer: Option<Rule>, content: Bytes): Bytes
    requires RenderableAnswer(answer)
  {
    match answer
    case None => content
    case Some(rule) => Rendering(content, rule.settings)
  }

  /** Gaps copied, tokens from i on decided. */
  ghost function Reference(answers: Answers, content: Bytes, tokens: seq<Token>, i: nat, pos: nat): Bytes
    requires Ordered(content, tokens) && AllAnswered(tokens, answers) && i <= |tokens|
    requires pos <= if i < |tokens| then tokens[i].start else |content|
    decreases |tokens| - i
  {
    if i == |tokens| then content[pos..]
    else content[pos..tokens[i].start]
         + (Decided(answers[i], tokens[i].Content(content)) + Reference(answers, content, tokens, i + 1, tokens[i].end))
  }

  function ActionOf(answer: Option<Rule>, token: Token): Option<Action> {
    match answer
    case None => None
    case Some(rule) => Some(Action(token, rule.settings))
  }

  /** The actions of the matched ones among the first n tokens, in token order. */
  function MatchedActions(answers: Answers, tokens: seq<Token>, n: nat): (actions: seq<Action>)
    requires n <= |tokens| == |answers|
  {
    if n == 0 then []
    else
      var before, action := MatchedActions(answers, tokens, n - 1), ActionOf(answers[n - 1], tokens[n - 1]);
      if action.None? then before else before + [action.value]
  }

  function MatchedEntities(answers: Answers, n: nat): set<Entity>
    requires n <= |answers|
  {
    set i | 0 <= i < n && answers[i].Some? :: answers[i].value.Entity()
  }

  lemma MatchedEntitiesNext(answers: Answers, i: nat)
    requires i < |answers|
    ensures MatchedEntities(answers, i + 1)
         == MatchedEntities(answers, i) + (if answers[i].Some? then {answers[i].value.Entity()} else {})
  {
  }

  lemma {:induction false} MatchedActionsApply(answers: Answers, content: Bytes, tokens: seq<Token>, n: nat)
    requires Ordered(content, tokens) && AllAnswered(tokens, answers) && n <= |tokens|
    ensures var actions := MatchedActions(answers, tokens, n);
            && Applicable(content, actions)
            && (n > 0 ==> forall k :: 0 <= k < |actions| ==> actions[k].token.end <= tokens[n - 1].end)
            && (n == 0 ==> actions == [])
  {
    if n > 0 {
      MatchedActionsApply(answers, content, tokens, n - 1);
      assert RenderableAnswer(answers[n - 1]);
    }
  }

  /** The first actions come from the first tokens. */
  lemma {:induction false} MatchedActionsPrefix(answers: Answers, tokens: seq<Token>, i: nat, n: nat)
    requires i <= n <= |tokens| == |answers|
    ensures var first, all := MatchedActions(answers, tokens, i), MatchedActions(answers, tokens, n);
            |first| <= |all| && forall k :: 0 <= k < |first| ==> all[k] == first[k]
    decreases n
  {
    if i < n { MatchedActionsPrefix(answers, tokens, i, n - 1); }
  }

  /** The first n tokens have all the actions exactly when no later token is matched. */
  lemma {:induction false} PrefixIsAll(answers: Answers, tokens: seq<Token>, n: nat, m: nat)
    requires n <= m <= |tokens| == |answers|
    ensures MatchedActions(answers, tokens, n) == MatchedActions(answers, tokens, m)
       <==> forall i :: n <= i < m ==> answers[i].None?
    decreases m
  {
    if n < m {
      if answers[m - 1].Some? {
        MatchedActionsPrefix(answers, tokens, n, m - 1);
        assert |MatchedActions(answers, tokens, m)| == |MatchedActions(answers, tokens, m - 1)| + 1;
      } else {
        PrefixIsAll(answers, tokens, n, m - 1);
        assert MatchedActions(answers, tokens, m) == MatchedActions(answers, tokens, m - 1);
      }
    }
  }

  lemma {:induction false} SamePrefix(a: Answers, b: Answers, tokens: seq<Token>, n: nat)
    requires |a| == |b| == |tokens| && n <= |tokens| && forall i :: 0 <= i < n ==> a[i] == b[i]
    ensures MatchedActions(a, tokens, n) == MatchedActions(b, tokens, n)
    ensures MatchedEntities(a, n) == MatchedEntities(b, n)
  {
    if n > 0 {
      SamePrefix(a, b, tokens, n - 1);
      MatchedEntitiesNext(a, n - 1);
      MatchedEntitiesNext(b, n - 1);
    }
  }

  /** The answers of the found tokens only; every other token is kept as it is. */
  function Kept(answers: Answers, found: set<nat>): (kept: Answers)
    ensures |kept| == |answers|
    ensures forall i :: 0 <= i < |kept| ==> kept[i] == if i in found then answers[i] else None
  {
    seq(|answers|, i requires 0 <= i < |answers| => if i in found then answers[i] else None)
  }

  /** Dropping tokens loses actions exactly when a dropped one was matched. */
  lemma {:induction false} KeptIsAll(answers: Answers, tokens: seq<Token>, found: set<nat>, n: nat)
    requires n <= |tokens| == |answers|
    ensures |MatchedActions(Kept(answers, found), tokens, n)| <= |MatchedActions(answers, tokens, n)|
    ensures MatchedActions(Kept(answers, found), tokens, n) == MatchedActions(answers, tokens, n)
       <==> forall i :: 0 <= i < n && answers[i].Some? ==> i in found
    ensures MatchedActions(Kept(answers, found), tokens, n) != MatchedActions(answers, tokens, n)
        ==> |MatchedActions(Kept(answers, found), tokens, n)| < |MatchedActions(answers, tokens, n)|
  {
    if n > 0 { KeptIsAll(answers, tokens, found, n - 1); }
  }

  /** Starting the rewriting later copies what lies between. */
  lemma RewriteLater(content: Bytes, actions: seq<Action>, i: nat, pos: nat, start: nat, end: nat)
    requires Due(content, actions, i, end) && pos <= start <= end <= |content|
    ensures Rewrite(content, actions, i, pos) == content[pos..start] + (content[start..end] + Rewrite(content, actions, i, end))
  {
    var next := if i < |actions| then actions[i].token.start else |content|;
    assert content[pos..next] == content[pos..start] + (content[start..end] + content[end..next]);
    if i < |actions| {
      var rest := Shown(content, actions, i) + Rewrite(content, actions, i + 1, actions[i].token.end);
      Regroup(content[pos..start], content[start..end], content[end..next], rest);
    } else {
      assert content[pos..] == content[pos..next] && content[end..] == content[end..next];
    }
  }

  lemma Regroup(a: Bytes, b: Bytes, c: Bytes, d: Bytes)
    ensures (a + (b + c)) + d == a + (b + (c + d))
  {
  }

  /** A token without a match is kept: no action, and its bytes are copied. */
  lemma KeptToken(answers: Answers, content: Bytes, tokens: seq<Token>, i: nat, pos: nat, actions: seq<Action>, done: nat)
    requires Ordered(content, tokens) && AllAnswered(tokens, answers) && i < |tokens| && pos <= tokens[i].start
    requires answers[i] == None
    requires Due(content, actions, done, tokens[i].end)
    requires Rewrite(content, actions, done, tokens[i].end) == Reference(answers, content, tokens, i + 1, tokens[i].end)
    ensures Due(content, actions, done, pos)
    ensures Rewrite(content, actions, done, pos) == Reference(answers, content, tokens, i, pos)
  {
    RewriteLater(content, actions, done, pos, tokens[i].start, tokens[i].end);
  }

  /** A matched token is replaced by its action's rendering. */
  lemma ReplacedToken(answers: Answers, content: Bytes, tokens: seq<Token>, i: nat, pos: nat, actions: seq<Action>, done: nat)
    requires Ordered(content, tokens) && AllAnswered(tokens, answers) && i < |tokens| && pos <= tokens[i].start
    requires done < |actions| && ActionOf(answers[i], tokens[i]) == Some(actions[done])
    requires Due(content, actions, done + 1, tokens[i].end)
    requires Rewrite(content, actions, done + 1, tokens[i].end) == Reference(answers, content, tokens, i + 1, tokens[i].end)
    ensures Due(content, actions, done, pos)
    ensures Rewrite(content, actions, done, pos) == Reference(answers, content, tokens, i, pos)
  {
    assert Shown(content, actions, done) == Decided(answers[i], tokens[i].Content(content));
  }

  lemma MatchedActionsNext(answers: Answers, tokens: seq<Token>, i: nat)
    requires i < |tokens| == |answers|
    ensures var action := ActionOf(answers[i], tokens[i]);
            var all, done := MatchedActions(answers, tokens, |tokens|), |MatchedActions(answers, tokens, i)|;
            && |MatchedActions(answers, tokens, i + 1)| == done + (if action.None? then 0 else 1)
            && (action.Some? ==> done < |all| && all[done] == action.value)
  {
    MatchedActionsPrefix(answers, tokens, i + 1, |tokens|);
  }

  /** Applying the matched actions from token i on gives the reference output from token i on. */
  lemma {:induction false} RewriteIsReference(answers: Answers, content: Bytes, tokens: seq<Token>, i: nat, pos: nat)
    requires Ordered(content, tokens) && AllAnswered(tokens, answers) && i <= |tokens|
    requires pos <= if i < |tokens| then tokens[i].start else |content|
    ensures var actions := MatchedActions(answers, tokens, |tokens|);
            var done := |MatchedActions(answers, tokens, i)|;
            Due(content, actions, done, pos)
            && Rewrite(content, actions, done, pos) == Reference(answers, content, tokens, i, pos)
    decreases |tokens| - i
  {
    if i == |tokens| {
      MatchedActionsApply(answers, content, tokens, |tokens|);
    } else {
      RewriteIsReference(answers, content, tokens, i + 1, tokens[i].end);
      RewriteToken(answers, content, tokens, i, pos);
    }
  }

  /** One token earlier. */
  lemma RewriteToken(answers: Answers, content: Bytes, tokens: seq<Token>, i: nat, pos: nat)
    requires Ordered(content, tokens) && AllAnswered(tokens, answers) && i < |tokens| && pos <= tokens[i].start
    requires var actions := MatchedActions(answers, tokens, |tokens|);
             var done := |MatchedActions(answers, tokens, i + 1)|;
             Due(content, actions, done, tokens[i].end)
             && Rewrite(content, actions, done, tokens[i].end) == Reference(answers, content, tokens, i + 1, tokens[i].end)
    ensures var actions := MatchedActions(answers, tokens, |tokens|);
            var done := |MatchedActions(answers, tokens, i)|;
            Due(content, actions, done, pos)
            && Rewrite(content, actions, done, pos) == Reference(answers, content, tokens, i, pos)
  {
    var actions := MatchedActions(answers, tokens, |tokens|);
    var done := |MatchedActions(answers, tokens, i)|;
    MatchedActionsNext(answers, tokens, i);
    if answers[i].None? {
      KeptToken(answers, content, tokens, i, pos, actions, done);
    } else {
      ReplacedToken(answers, content, tokens, i, pos, actions, done);
    }
  }

  /** Something is reported exactly when some token was matched. */
  lemma {:induction false} FindingsIffMatch(answers: Answers, tokens: seq<Token>, n: nat)
    requires n <= |tokens| == |answers|
    ensures MatchedActions(answers, tokens, n) != [] <==> exists i :: 0 <= i < n && answers[i].Some?
  {
    if n > 0 { FindingsIffMatch(answers, tokens, n - 1); }
  }

  lemma TokensAreOrdered(content: Bytes)
    ensures Ordered(content, Tokens(content))
  {
    TokensAreSeparated(content);
  }

  // ---- the answers every token should get ----

  ghost predicate AllRenderable(rules: seq<Rule>) {
    forall i :: 0 <= i < |rules| ==> Renderable(rules[i].settings)
  }

  /** The first match of every token. */
  function FirstMatches(rules: seq<Rule>, content: Bytes, tokens: seq<Token>): (answers: Answers)
    requires forall i :: 0 <= i < |tokens| ==> tokens[i].Fits(content)
    ensures |answers| == |tokens|
    ensures forall i :: 0 <= i < |tokens| ==> answers[i] == FirstMatch(rules, tokens[i].Content(content))
  {
    seq(|tokens|, i requires 0 <= i < |tokens| => FirstMatch(rules, tokens[i].Content(content)))
  }

  lemma {:induction false} MatchIsRenderable(rules: seq<Rule>, data: Bytes)
    requires AllRenderable(rules)
    ensures RenderableAnswer(FirstMatch(rules, data))
  {
    if FirstMatch(rules, data).Some? { var i := FirstMatchWitness(rules, data); }
  }

  lemma FirstMatchesAnswer(rules: seq<Rule>, content: Bytes, tokens: seq<Token>)
    requires AllRenderable(rules) && Ordered(content, tokens)
    ensures AllAnswered(tokens, FirstMatches(rules, content, tokens))
  {
    forall i | 0 <= i < |tokens| ensures RenderableAnswer(FirstMatches(rules, content, tokens)[i]) {
      MatchIsRenderable(rules, tokens[i].Content(content));
    }
  }

  /** The whole reference output: every token decided by its first match. */
  ghost function Anonymized(rules: seq<Rule>, content: Bytes): Bytes
    requires AllRenderable(rules)
  {
    TokensAreOrdered(content);
    FirstMatchesAnswer(rules, content, Tokens(content));
    Reference(FirstMatches(rules, content, Tokens(content)), content, Tokens(content), 0, 0)
  }
}
