/** The analyser over the runner protocol: the answers its tokens get are those of Process calls in
    one schedule of a runner, serial or concurrent, shared with any other callers. */
module AnalyzerRuns {
  import opened Prelude
  import opened Rules
  import opened Tokenizer
  import opened Rewriting
  import opened Protocol
  import opened ProtocolInvariant
  import opened ProtocolSafety
  import opened ProtocolAnswers
  import opened ProtocolProgress
  import opened ProtocolOrder
  import opened ProtocolRuns
  import TokenPool

  /** One Anonymize call's use of a runner: a schedule, which call of it was made per token, and
      the slots of the token pool. */
  datatype Run = Run(world: World, start: State, steps: seq<Step>, calls: seq<nat>, slots: nat)

  ghost predicate ValidRun(run: Run) {
    Initial(run.world, run.start) && Schedule(run.world, run.start, run.steps)
  }

  ghost function End(run: Run): State
    requires ValidRun(run)
  {
    After(run.world, run.start, run.steps)
  }

  /** Call c of the run is a Process call on this token's content, and has returned. */
  ghost predicate Replied(run: Run, rules: seq<Rule>, data: Bytes, c: nat)
    requires ValidRun(run)
  {
    c < |End(run).calls| && End(run).calls[c].rules == rules && End(run).calls[c].data == data
    && End(run).calls[c].phase.Returned?
  }

  ghost function ReplyOf(run: Run, rules: seq<Rule>, data: Bytes, c: nat): TokenPool.Reply
    requires ValidRun(run)
  {
    if Replied(run, rules, data, c) then TokenPool.Answered(End(run).calls[c].phase.outcome) else TokenPool.Unanswered
  }

  /** The pooled job whose replies are those of the run. */
  ghost function JobOf(run: Run, rules: seq<Rule>, content: Bytes): (job: TokenPool.Job)
    requires ValidRun(run) && |run.calls| == |Tokens(content)|
    ensures TokenPool.ValidJob(job)
  {
    TokensAreOrdered(content);
    var tokens := Tokens(content);
    TokenPool.Job(content, tokens,
                  seq(|tokens|, i requires 0 <= i < |tokens| => ReplyOf(run, rules, tokens[i].Content(content), run.calls[i])),
                  run.slots)
  }

  /** The calls share the context of the Anonymize call, which nobody cancelled. */
  ghost predicate Uncancelled(run: Run)
    requires ValidRun(run)
  {
    forall i :: 0 <= i < |run.calls| ==> run.calls[i] !in End(run).cancelled
  }

  /** The call is not cancelled, or its runner shares no flights: it never gives up waiting. */
  ghost predicate NeverGivesUp(run: Run, i: nat)
    requires ValidRun(run) && i < |run.calls|
  {
    run.calls[i] !in End(run).cancelled || !run.world.coalesce
  }

  // ---- one reply ----

  lemma SerialReply(run: Run, rules: seq<Rule>, data: Bytes, c: nat)
    requires ValidRun(run) && !run.world.concurrent && Replied(run, rules, data, c)
    ensures var outcome := End(run).calls[c].phase.outcome;
            && outcome in {None, FirstMatch(rules, data)}
            && (c !in End(run).cancelled || !run.world.coalesce ==> outcome == FirstMatch(rules, data))
  {
    SerialAnswers(run.world, run.start, run.steps, c);
  }

  /** A pooled task whose uncancelled serial call has answered can finish, whatever else is running,
      and appends the first match's action. */
  lemma TaskFinishes(run: Run, rules: seq<Rule>, content: Bytes, s: TokenPool.State, i: nat)
    requires ValidRun(run) && !run.world.concurrent && |run.calls| == |Tokens(content)| && i < |run.calls|
    requires i in s.running && run.calls[i] !in End(run).cancelled && Ordered(content, Tokens(content))
    requires Replied(run, rules, Tokens(content)[i].Content(content), run.calls[i])
    ensures var job, expected := JobOf(run, rules, content), FirstMatch(rules, Tokens(content)[i].Content(content));
            && TokenPool.Enabled(job, s, TokenPool.Finish(i))
            && TokenPool.Apply(job, s, TokenPool.Finish(i)).actions
               == s.actions + if expected.Some? then [Action(Tokens(content)[i], expected.value.settings)] else []
  {
    SerialReply(run, rules, Tokens(content)[i].Content(content), run.calls[i]);
  }

  // ---- the pooled path over a serial runner ----

  /** The answers the run gave: none where the call did not return. */
  ghost function RunAnswers(run: Run, rules: seq<Rule>, content: Bytes): (answers: Answers)
    requires ValidRun(run) && |run.calls| == |Tokens(content)|
    ensures |answers| == |Tokens(content)|
  {
    TokenPool.JobAnswers(JobOf(run, rules, content))
  }

  /** The pooled schedule has ended, and this is its sorted result. */
  ghost predicate PooledTo(
    run: Run, rules: seq<Rule>, content: Bytes, steps: seq<TokenPool.Step>, end: TokenPool.State, sorted: seq<Action>)
    requires ValidRun(run) && |run.calls| == |Tokens(content)|
  {
    var job := JobOf(run, rules, content);
    && TokenPool.Schedule(job, TokenPool.INITIAL, steps) && end == TokenPool.After(job, TokenPool.INITIAL, steps)
    && TokenPool.Finished(job, end) && TokenPool.SortedByStart(end.actions, sorted)
  }

  /** A serial runner answers a token's first match or nothing; its first match if uncancelled. */
  lemma SerialAnswer(run: Run, rules: seq<Rule>, content: Bytes, i: nat)
    requires ValidRun(run) && !run.world.concurrent && |run.calls| == |Tokens(content)| && i < |run.calls|
    requires Ordered(content, Tokens(content))
    ensures var answer, first := RunAnswers(run, rules, content)[i], FirstMatch(rules, Tokens(content)[i].Content(content));
            && answer in {None, first}
            && (JobOf(run, rules, content).replies[i].Answered? && NeverGivesUp(run, i) ==> answer == first)
  {
    var data := Tokens(content)[i].Content(content);
    if Replied(run, rules, data, run.calls[i]) { SerialReply(run, rules, data, run.calls[i]); }
  }

  lemma SerialKept(run: Run, rules: seq<Rule>, content: Bytes, found: set<nat>)
    requires ValidRun(run) && !run.world.concurrent && |run.calls| == |Tokens(content)| && Ordered(content, Tokens(content))
    requires forall i :: i in found ==> i < |run.calls| && RunAnswers(run, rules, content)[i].Some?
    ensures Kept(RunAnswers(run, rules, content), found) == Kept(FirstMatches(rules, content, Tokens(content)), found)
    ensures forall i :: i in found ==> FirstMatches(rules, content, Tokens(content))[i].Some?
  {
    forall i | i in found
      ensures RunAnswers(run, rules, content)[i] == FirstMatches(rules, content, Tokens(content))[i]
    {
      SerialAnswer(run, rules, content, i);
    }
  }

  lemma CalledIsFound(answers: Answers, called: set<nat>, found: set<nat>)
    requires forall i :: 0 <= i < |answers| ==> (i in found <==> i in called && answers[i].Some?)
    ensures Kept(answers, called) == Kept(answers, found)
  {
  }

  /** Over a pool schedule and a serial runner schedule together, with any cancellation, refusal and
      completion order: the pooled result and its entities are those of the found tokens' first
      matches, in token order. It is the sequential result exactly when every matched token was
      found. Found are the matched ones among the called, save those whose own call was cancelled
      in a shared flight; and without cancellation every submitted token is called. */
  lemma PooledResult(
    run: Run, rules: seq<Rule>, content: Bytes, steps: seq<TokenPool.Step>, end: TokenPool.State, sorted: seq<Action>)
    requires ValidRun(run) && !run.world.concurrent && |run.calls| == |Tokens(content)| && Ordered(content, Tokens(content))
    requires PooledTo(run, rules, content, steps, end, sorted)
    ensures var tokens, first := Tokens(content), FirstMatches(rules, content, Tokens(content));
            && end.submitted <= |tokens| && (!end.stopped ==> end.submitted == |tokens|)
            && (forall i :: i in end.found ==> i in end.called && i < end.submitted && first[i].Some?)
            && (forall i :: i in end.called ==> i < end.submitted && (NeverGivesUp(run, i) && first[i].Some? ==> i in end.found))
            && (!end.cancelled ==> forall i :: 0 <= i < end.submitted ==> i in end.called)
            && sorted == MatchedActions(Kept(first, end.found), tokens, |tokens|)
            && end.entities == MatchedEntities(Kept(first, end.found), |tokens|)
            && (sorted == MatchedActions(first, tokens, |tokens|)
                <==> forall i :: 0 <= i < |tokens| && first[i].Some? ==> i in end.found)
  {
    var job, tokens, first := JobOf(run, rules, content), Tokens(content), FirstMatches(rules, content, Tokens(content));
    TokenPool.PooledActions(job, steps, sorted);
    TokenPool.ReachableInv(job, steps);
    SerialKept(run, rules, content, end.found);
    CalledIsFound(RunAnswers(run, rules, content), end.called, end.found);
    KeptIsAll(first, tokens, end.found, |tokens|);
    forall i | i in end.called && NeverGivesUp(run, i) && first[i].Some?
      ensures i in end.found
    {
      SerialAnswer(run, rules, content, i);
    }
  }

  /** The output replaces exactly the found tokens, each by the rendering of its first match. */
  lemma PooledOutput(
    run: Run, rules: seq<Rule>, content: Bytes, steps: seq<TokenPool.Step>, end: TokenPool.State, sorted: seq<Action>)
    requires ValidRun(run) && !run.world.concurrent && |run.calls| == |Tokens(content)| && Ordered(content, Tokens(content))
    requires PooledTo(run, rules, content, steps, end, sorted) && AllRenderable(rules)
    ensures var kept := Kept(FirstMatches(rules, content, Tokens(content)), end.found);
            && AllAnswered(Tokens(content), kept) && Due(content, sorted, 0, 0)
            && Rewrite(content, sorted, 0, 0) == Reference(kept, content, Tokens(content), 0, 0)
    ensures Uncancelled(run) && !end.cancelled && !end.stopped ==> Rewrite(content, sorted, 0, 0) == Anonymized(rules, content)
  {
    var tokens, first := Tokens(content), FirstMatches(rules, content, Tokens(content));
    PooledResult(run, rules, content, steps, end, sorted);
    FirstMatchesAnswer(rules, content, tokens);
    KeptAnswers(first, tokens, end.found);
    if Uncancelled(run) && !end.cancelled && !end.stopped {
      forall i | 0 <= i < |tokens| && first[i].Some? ensures i in end.found { assert i in end.called && NeverGivesUp(run, i); }
    }
    RewriteIsReference(Kept(first, end.found), content, tokens, 0, 0);
  }

  /** Keeping answers stays renderable, and keeping every matched one changes nothing. */
  lemma KeptAnswers(answers: Answers, tokens: seq<Token>, found: set<nat>)
    requires AllAnswered(tokens, answers)
    ensures AllAnswered(tokens, Kept(answers, found))
    ensures (forall i :: 0 <= i < |answers| && answers[i].Some? ==> i in found) ==> Kept(answers, found) == answers
  {
  }

  /** Without cancellation: the pooled result is the sequential list of the submitted tokens, and of
      all tokens exactly when no token the pool refused has a match. */
  lemma PooledIsSequential(
    run: Run, rules: seq<Rule>, content: Bytes, steps: seq<TokenPool.Step>, end: TokenPool.State, sorted: seq<Action>)
    requires ValidRun(run) && !run.world.concurrent && |run.calls| == |Tokens(content)| && Ordered(content, Tokens(content))
    requires PooledTo(run, rules, content, steps, end, sorted) && Uncancelled(run) && !end.cancelled
    ensures var tokens, first := Tokens(content), FirstMatches(rules, content, Tokens(content));
            && end.submitted <= |tokens| && (!end.stopped ==> end.submitted == |tokens|)
            && sorted == MatchedActions(first, tokens, end.submitted)
            && end.entities == MatchedEntities(first, end.submitted)
            && (sorted == MatchedActions(first, tokens, |tokens|)
                <==> forall i :: end.submitted <= i < |tokens| ==> FirstMatch(rules, tokens[i].Content(content)).None?)
  {
    var tokens, first := Tokens(content), FirstMatches(rules, content, Tokens(content));
    TokenPool.PooledIsLoop(JobOf(run, rules, content), steps, sorted);
    forall i | 0 <= i < end.submitted ensures RunAnswers(run, rules, content)[i] == first[i] {
      assert JobOf(run, rules, content).replies[i].Answered?;
      SerialAnswer(run, rules, content, i);
    }
    SamePrefix(RunAnswers(run, rules, content), first, tokens, end.submitted);
    PrefixIsAll(first, tokens, end.submitted, |tokens|);
  }

  /** With a context done from the start, an open pool that refuses nothing and any runner: the
      content goes out unchanged, which differs from the sequential result whenever a token has a
      match. */
  lemma CancelledPoolCopiesInput(run: Run, rules: seq<Rule>, content: Bytes)
    returns (steps: seq<TokenPool.Step>, end: TokenPool.State)
    requires ValidRun(run) && |run.calls| == |Tokens(content)| && run.slots > 0 && Ordered(content, Tokens(content))
    ensures PooledTo(run, rules, content, steps, end, []) && end.poolOpen && !end.stopped
    ensures Due(content, [], 0, 0) && Rewrite(content, [], 0, 0) == content
    ensures var tokens, first := Tokens(content), FirstMatches(rules, content, Tokens(content));
            [] != MatchedActions(first, tokens, |tokens|) <==> exists i :: 0 <= i < |tokens| && first[i].Some?
  {
    var job := JobOf(run, rules, content);
    steps := TokenPool.CancelledFindsNothing(job);
    end := TokenPool.After(job, TokenPool.INITIAL, steps);
    FindingsIffMatch(FirstMatches(rules, content, Tokens(content)), Tokens(content), |Tokens(content)|);
  }

  // ---- both paths over a concurrent runner ----

  lemma SoundIsRenderable(rules: seq<Rule>, data: Bytes, rule: Rule)
    requires AllRenderable(rules) && Sound(rules, data, rule)
    ensures Renderable(rule.settings)
  {
  }

  /** What the call's answer must be: sound always; nothing when the runner's pool was closed on its
      flight; and otherwise, uncancelled, a match exactly when one exists, and the first one when
      the pool has one slot or one entity fires. */
  ghost predicate GoodAnswer(run: Run, rules: seq<Rule>, data: Bytes, c: nat, answer: Option<Rule>)
    requires ValidRun(run) && c < |End(run).calls|
  {
    && RenderableAnswer(answer)
    && (answer.Some? ==> Sound(rules, data, answer.value))
    && (c !in End(run).cancelled ==>
          if Rejected(End(run), End(run).calls[c]) then answer == None
          else
            && (answer.Some? <==> FirstMatch(rules, data).Some?)
            && (run.world.poolSize == 1 || OneEntityFires(rules, data) ==> answer == FirstMatch(rules, data)))
  }

  lemma ConcurrentReply(run: Run, rules: seq<Rule>, data: Bytes, c: nat)
    requires ValidRun(run) && run.world.concurrent && AllRenderable(rules) && Replied(run, rules, data, c)
    ensures GoodAnswer(run, rules, data, c, End(run).calls[c].phase.outcome)
  {
    var outcome := End(run).calls[c].phase.outcome;
    ConcurrentAnswers(run.world, run.start, run.steps, c);
    if outcome.Some? { SoundIsRenderable(rules, data, outcome.value); }
    if run.world.poolSize == 1 && c !in End(run).cancelled && !Rejected(End(run), End(run).calls[c]) {
      SingleSlotAnswers(run.world, run.start, run.steps, c);
    }
  }

  /** Answer i is that of its call, or nothing where the call did not return. */
  ghost predicate TokenAnswered(run: Run, rules: seq<Rule>, content: Bytes, i: nat)
    requires ValidRun(run) && |run.calls| == |Tokens(content)| && Ordered(content, Tokens(content)) && i < |run.calls|
  {
    var data, answer := Tokens(content)[i].Content(content), RunAnswers(run, rules, content)[i];
    if Replied(run, rules, data, run.calls[i]) then GoodAnswer(run, rules, data, run.calls[i], answer) else answer == None
  }

  lemma ConcurrentTokens(run: Run, rules: seq<Rule>, content: Bytes)
    requires ValidRun(run) && run.world.concurrent && |run.calls| == |Tokens(content)|
    requires AllRenderable(rules) && Ordered(content, Tokens(content))
    ensures AllAnswered(Tokens(content), RunAnswers(run, rules, content))
    ensures forall i :: 0 <= i < |run.calls| ==> TokenAnswered(run, rules, content, i)
  {
    forall i | 0 <= i < |run.calls|
      ensures TokenAnswered(run, rules, content, i) && RenderableAnswer(RunAnswers(run, rules, content)[i])
    {
      var data := Tokens(content)[i].Content(content);
      if Replied(run, rules, data, run.calls[i]) { ConcurrentReply(run, rules, data, run.calls[i]); }
    }
  }

  /** Every token's call returned uncancelled, with the runner's pool not closed on its flight. */
  ghost predicate Served(run: Run, rules: seq<Rule>, content: Bytes)
    requires ValidRun(run) && |run.calls| == |Tokens(content)| && Ordered(content, Tokens(content))
  {
    forall i :: 0 <= i < |run.calls| ==>
      && Replied(run, rules, Tokens(content)[i].Content(content), run.calls[i])
      && run.calls[i] !in End(run).cancelled && !Rejected(End(run), End(run).calls[run.calls[i]])
  }

  /** The condition of FirstMatchOrderIff, for every token. */
  ghost predicate OrderPromised(run: Run, rules: seq<Rule>, content: Bytes)
    requires Ordered(content, Tokens(content))
  {
    run.world.poolSize == 1 || forall i :: 0 <= i < |Tokens(content)| ==> OneEntityFires(rules, Tokens(content)[i].Content(content))
  }

  lemma ServedInOrder(run: Run, rules: seq<Rule>, content: Bytes)
    requires ValidRun(run) && run.world.concurrent && |run.calls| == |Tokens(content)| && AllRenderable(rules)
    requires Ordered(content, Tokens(content)) && Served(run, rules, content) && OrderPromised(run, rules, content)
    ensures RunAnswers(run, rules, content) == FirstMatches(rules, content, Tokens(content))
  {
    ConcurrentTokens(run, rules, content);
    forall i | 0 <= i < |run.calls| ensures RunAnswers(run, rules, content)[i] == FirstMatches(rules, content, Tokens(content))[i] {
      assert TokenAnswered(run, rules, content, i);
    }
  }

  /** Whatever was cancelled or rejected, the sequential path's output over a concurrent runner
      replaces exactly the tokens whose call answered, each by the rendering of a live, truly
      matching first claimant, and it keeps those whose flight was rejected. With every token
      served it replaces exactly those that have a match, and with the order promised as well it
      is the reference output. */
  lemma ConcurrentOutput(run: Run, rules: seq<Rule>, content: Bytes)
    requires ValidRun(run) && run.world.concurrent && |run.calls| == |Tokens(content)|
    requires AllRenderable(rules) && Ordered(content, Tokens(content))
    ensures var answers, tokens := RunAnswers(run, rules, content), Tokens(content);
            var actions := MatchedActions(answers, tokens, |tokens|);
            && AllAnswered(tokens, answers) && Due(content, actions, 0, 0)
            && Rewrite(content, actions, 0, 0) == Reference(answers, content, tokens, 0, 0)
            && (forall i :: 0 <= i < |tokens| ==> TokenAnswered(run, rules, content, i))
            && (Served(run, rules, content) && OrderPromised(run, rules, content) ==>
                  && Rewrite(content, actions, 0, 0) == Anonymized(rules, content)
                  && MatchedEntities(answers, |tokens|) == MatchedEntities(FirstMatches(rules, content, tokens), |tokens|))
  {
    ConcurrentTokens(run, rules, content);
    RewriteIsReference(RunAnswers(run, rules, content), content, Tokens(content), 0, 0);
    if Served(run, rules, content) && OrderPromised(run, rules, content) { ServedInOrder(run, rules, content); }
  }

  /** The pooled path over a concurrent runner: the same for the called tokens, under any
      cancellation, refusal and completion order; and the reference output when the pool refused
      nothing, nothing was cancelled, every token was served and the order is promised. */
  lemma PooledConcurrentOutput(
    run: Run, rules: seq<Rule>, content: Bytes, steps: seq<TokenPool.Step>, end: TokenPool.State, sorted: seq<Action>)
    requires ValidRun(run) && run.world.concurrent && |run.calls| == |Tokens(content)|
    requires AllRenderable(rules) && Ordered(content, Tokens(content)) && PooledTo(run, rules, content, steps, end, sorted)
    ensures var tokens, kept := Tokens(content), Kept(RunAnswers(run, rules, content), end.called);
            && AllAnswered(tokens, kept) && Due(content, sorted, 0, 0)
            && sorted == MatchedActions(kept, tokens, |tokens|) && end.entities == MatchedEntities(kept, |tokens|)
            && Rewrite(content, sorted, 0, 0) == Reference(kept, content, tokens, 0, 0)
            && (forall i :: 0 <= i < |tokens| ==> TokenAnswered(run, rules, content, i))
            && (!end.cancelled && !end.stopped && Served(run, rules, content) && OrderPromised(run, rules, content) ==>
                  && Rewrite(content, sorted, 0, 0) == Anonymized(rules, content)
                  && end.entities == MatchedEntities(FirstMatches(rules, content, tokens), |tokens|))
  {
    var job, answers := JobOf(run, rules, content), RunAnswers(run, rules, content);
    ConcurrentTokens(run, rules, content);
    TokenPool.PooledActions(job, steps, sorted);
    TokenPool.PooledRewrite(job, steps, sorted);
    if !end.cancelled && !end.stopped && Served(run, rules, content) && OrderPromised(run, rules, content) {
      TokenPool.PooledIsLoop(job, steps, sorted);
      assert Kept(answers, end.called) == answers;
      ServedInOrder(run, rules, content);
    }
  }

  // ---- such runs exist ----

  ghost predicate Requested(s: State, rules: seq<Rule>, datas: seq<Bytes>, n: nat) {
    && n <= |datas| && |s.calls| == n && s.cancelled == {} && s.poolOpen
    && forall c :: 0 <= c < n ==> s.calls[c].rules == rules && s.calls[c].data == datas[c]
  }

  lemma StartsOne(w: World, s: State, rules: seq<Rule>, datas: seq<Bytes>, n: nat)
    requires Requested(s, rules, datas, n) && n < |datas|
    ensures Requested(Apply(w, s, Start(rules, datas[n])), rules, datas, n + 1)
  {
  }

  /** Starting a call for each of the first n tokens of an idle runner. */
  lemma {:induction false} StartAll(w: World, s: State, rules: seq<Rule>, datas: seq<Bytes>, n: nat) returns (steps: seq<Step>)
    requires Coherent(w.truth, rules) && Requested(s, rules, datas, 0) && n <= |datas|
    ensures Schedule(w, s, steps) && Requested(After(w, s, steps), rules, datas, n)
  {
    if n == 0 {
      steps := [];
    } else {
      var first := StartAll(w, s, rules, datas, n - 1);
      var s' := After(w, s, first);
      var step := Start(rules, datas[n - 1]);
      StartsOne(w, s', rules, datas, n - 1);
      Then(w, s', step, []);
      ScheduleAppend(w, s, first, [step] + []);
      steps := first + ([step] + []);
    }
  }

  lemma IdleRunner(w: World) returns (s: State)
    ensures Initial(w, s)
  {
    s := State(map[], [], [], map[], {}, true);
  }

  /** Every request in a quiescent open system was answered and not rejected. */
  lemma AllServed(w: World, s: State, rules: seq<Rule>, datas: seq<Bytes>, end: State, c: nat)
    requires Inv(w, end) && Requested(s, rules, datas, |datas|) && Remembers(s, end) && Quiescent(end)
    requires end.cancelled == {} && end.poolOpen && |end.calls| == |s.calls| && c < |datas|
    ensures end.calls[c].rules == rules && end.calls[c].data == datas[c] && end.calls[c].phase.Returned?
    ensures !Rejected(end, end.calls[c])
  {
    assert CallRemembers(s.calls[c], end.calls[c]);
    CallIsAttached(w, end, c);
    if end.calls[c].flight.Some? { FlightOfInv(w, end, end.calls[c].flight.value); }
  }

  /** Every runner has a run that answers all requests of a list, uncancelled on an open pool. */
  lemma AnswersAll(w: World, rules: seq<Rule>, datas: seq<Bytes>, slots: nat) returns (run: Run)
    requires Coherent(w.truth, rules) && (w.concurrent ==> w.poolSize > 0)
    ensures ValidRun(run) && run.world == w && run.slots == slots && run.calls == seq(|datas|, i => i) && Uncancelled(run)
    ensures forall c :: 0 <= c < |datas| ==> Replied(run, rules, datas[c], c) && !Rejected(End(run), End(run).calls[c])
  {
    var start := IdleRunner(w);
    var begin := StartAll(w, start, rules, datas, |datas|);
    var begun := After(w, start, begin);
    ReachableInv(w, start, begin);
    var finish := CompletesQuietly(w, begun);
    ScheduleAppend(w, start, begin, finish);
    ReachableInv(w, start, begin + finish);
    run := Run(w, start, begin + finish, seq(|datas|, i => i), slots);
    forall c | 0 <= c < |datas| ensures Replied(run, rules, datas[c], c) && !Rejected(End(run), End(run).calls[c]) {
      AllServed(w, begun, rules, datas, End(run), c);
    }
  }

  /** So every content can be served. */
  lemma SomeRunServes(w: World, rules: seq<Rule>, content: Bytes, slots: nat) returns (run: Run)
    requires Coherent(w.truth, rules) && (w.concurrent ==> w.poolSize > 0) && Ordered(content, Tokens(content))
    ensures ValidRun(run) && run.world == w && run.slots == slots && |run.calls| == |Tokens(content)|
    ensures Uncancelled(run) && Served(run, rules, content)
  {
    var tokens := Tokens(content);
    var datas := seq(|tokens|, i requires 0 <= i < |tokens| => tokens[i].Content(content));
    run := AnswersAll(w, rules, datas, slots);
    forall i | 0 <= i < |run.calls|
      ensures Replied(run, rules, tokens[i].Content(content), run.calls[i])
              && run.calls[i] !in End(run).cancelled && !Rejected(End(run), End(run).calls[run.calls[i]])
    {
      assert Replied(run, rules, datas[i], i);
    }
  }
}
