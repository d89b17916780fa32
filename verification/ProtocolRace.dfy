/** The other half: with two slots and two firing entities some schedule reports a later match
    than the first, for every such rule list and token. */
module ProtocolRace {
  import opened Prelude
  import opened Rules
  import opened Classification
  import opened Protocol
  import opened ProtocolInvariant
  import opened ProtocolSafety
  import opened ProtocolAnswers
  import opened ProtocolOrder
  import opened ProtocolRuns

  /** Receiving the other tasks' messages in order stops at the first match among them. */
  lemma {:induction false} ReceiveOvertaker(w: World, s: State, fl: Flight, i: nat, k: nat, now: Flight) returns (steps: seq<Step>)
    requires Alone(s, fl) && i < k < |fl.missing| && fl.missing[k].rule.matcher.matches(fl.key)
    requires forall n :: 0 <= n < k && n != i ==> !fl.missing[n].rule.matcher.matches(fl.key)
    requires now.received < k
    requires now == fl.(stage := Collecting, workers := now.workers, received := now.received, results := now.results,
                        channel := Others(fl, i, |fl.missing|)[now.received..])
    requires |now.workers| == |fl.missing|
    ensures Schedule(w, With(s, now), steps)
    ensures var end := After(w, With(s, now), steps);
            |end.flights| == 1 && end.flights[0].winner == Some(fl.missing[k].rule) && end == With(s, end.flights[0])
    ensures SystemOnly(steps)
    decreases k - now.received
  {
    var t := now.received;
    var others := Others(fl, i, |fl.missing|);
    assert others[t..][0] == others[t] && others[t..][1..] == others[t + 1..];
    var next := Collected(now);
    assert Apply(w, With(s, now), Receive(0)) == With(s, next);
    if t == k - 1 {
      steps := [Receive(0)];
      assert steps[1..] == [];
    } else {
      var rest := ReceiveOvertaker(w, s, fl, i, k, next);
      steps := [Receive(0)] + rest;
      assert steps[1..] == rest;
    }
  }

  /** Two firing entities give the missing set two matching entries: the first, and one after it. */
  lemma TwoMatching(w: World, rules: seq<Rule>, data: Bytes) returns (i: nat, k: nat)
    requires Coherent(w.truth, rules) && !OneEntityFires(rules, data)
    ensures var missing := MissingSet(rules, data, map[]);
            && FirstMatching(missing, data, i) && i < k < |missing| && missing[k].rule.matcher.matches(data)
            && (forall n :: 0 <= n < k && n != i ==> !missing[n].rule.matcher.matches(data))
  {
    var missing := MissingSet(rules, data, map[]);
    var a, b :| 0 <= a < |rules| && 0 <= b < |rules| && rules[a].Fires(data) && rules[b].Fires(data)
                && rules[a].Entity() != rules[b].Entity();
    var p := MatchingEntry(w, rules, data, a);
    var q := MatchingEntry(w, rules, data, b);
    i := LeastMatching(missing, data, 0, p);
    k := LeastMatching(missing, data, i + 1, if p == i then q else p);
  }

  lemma MatchingEntry(w: World, rules: seq<Rule>, data: Bytes, a: nat) returns (p: nat)
    requires Coherent(w.truth, rules) && a < |rules| && rules[a].Fires(data)
    ensures var missing := MissingSet(rules, data, map[]);
            p < |missing| && missing[p].entity == rules[a].Entity() && missing[p].rule.matcher.matches(data)
  {
    LiveRuleIsQueued(rules, data, map[], {}, a);
    var missing := MissingSet(rules, data, map[]);
    p :| 0 <= p < |missing| && missing[p].entity == rules[a].Entity();
    MissingSetOk(w.truth, rules, data, map[]);
    assert rules[a].matcher.matches(data) == w.truth(rules[a].Entity(), data);
  }

  lemma {:induction false} LeastMatching(missing: seq<Missing>, data: Bytes, from: nat, p: nat) returns (k: nat)
    requires from <= p < |missing| && missing[p].rule.matcher.matches(data)
    ensures from <= k <= p && missing[k].rule.matcher.matches(data)
    ensures forall n :: from <= n < k ==> !missing[n].rule.matcher.matches(data)
    decreases p - from
  {
    if missing[from].rule.matcher.matches(data) { k := from; } else { k := LeastMatching(missing, data, from + 1, p); }
  }

  // ---- the characterisation ----

  /** Some schedule from an initial state has an uncancelled call with this request, whose flight
      the pool did not reject, answer this outcome. */
  ghost predicate Observed(w: World, s: State, steps: seq<Step>, c: nat, rules: seq<Rule>, data: Bytes, outcome: Option<Rule>) {
    && Initial(w, s) && Schedule(w, s, steps)
    && var end := After(w, s, steps);
       c < |end.calls| && end.calls[c].rules == rules && end.calls[c].data == data
       && end.calls[c].phase == Returned(outcome) && c !in end.cancelled && !Rejected(end, end.calls[c])
  }

  /** The documented promise: the call returns the first matching rule. */
  ghost predicate ReturnsFirstMatch(w: World, rules: seq<Rule>, data: Bytes) {
    forall s, steps, c: nat, outcome :: Observed(w, s, steps, c, rules, data, outcome) ==> outcome == FirstMatch(rules, data)
  }

  /** Up to the collected later match: task i keeps its slot while the others finish. */
  lemma Overtaken(w: World, rules: seq<Rule>, data: Bytes, i: nat, k: nat) returns (s: State, steps: seq<Step>)
    requires w.concurrent && w.poolSize >= 2 && Coherent(w.truth, rules)
    requires var missing := MissingSet(rules, data, map[]);
             && i < k < |missing| && missing[k].rule.matcher.matches(data)
             && (forall n :: 0 <= n < k && n != i ==> !missing[n].rule.matcher.matches(data))
    ensures Initial(w, s) && Schedule(w, s, steps)
    ensures LedAndWon(After(w, s, steps), rules, data, MissingSet(rules, data, map[])[k].rule)
  {
    var led: seq<Step>;
    s, led := LeadFresh(w, rules, data);
    var s1 := After(w, s, led);
    var fl := s1.flights[0];
    assert With(s1, Overtaking(fl, i, 0)) == s1 by { assert Overtaking(fl, i, 0) == fl; assert s1.flights == [fl]; }
    var submit := SubmitAll(w, s1, fl, i, 0);
    var full := Overtaking(fl, i, |fl.missing|);
    assert full.channel[0..] == full.channel;
    var receive := ReceiveOvertaker(w, s1, fl, i, k, full);
    ScheduleAppend(w, s, led, submit);
    ScheduleAppend(w, s, led + submit, receive);
    steps := led + submit + receive;
  }

  /** The only call leads the only flight, uncancelled on an open pool, and this rule won it. */
  ghost predicate LedAndWon(s: State, rules: seq<Rule>, data: Bytes, rule: Rule) {
    && |s.calls| == 1 && |s.flights| == 1 && s.calls[0].leads && s.calls[0].flight == Some(0)
    && s.calls[0].rules == rules && s.calls[0].data == data
    && s.flights[0].winner == Some(rule) && s.cancelled == {} && s.poolOpen
  }

  /** Once the flight of the only call has a winner, an undisturbed completion answers it. */
  lemma WinnerIsAnswered(w: World, s: State, before: seq<Step>, rules: seq<Rule>, data: Bytes, rule: Rule)
    returns (steps: seq<Step>)
    requires Initial(w, s) && w.concurrent && w.poolSize > 0 && Schedule(w, s, before)
    requires LedAndWon(After(w, s, before), rules, data, rule)
    ensures Observed(w, s, steps, 0, rules, data, Some(rule))
  {
    var won := After(w, s, before);
    ReachableInv(w, s, before);
    var finish := CompletesQuietly(w, won);
    var end := After(w, won, finish);
    ScheduleAppend(w, s, before, finish);
    steps := before + finish;
    ReachableInv(w, s, steps);
    ReachableAnswers(w, s, steps);
    assert CallRemembers(won.calls[0], end.calls[0]) && FlightRemembers(won.flights[0], end.flights[0]);
    FlightOfInv(w, end, 0);
    assert AnswerOk(end, 0);
  }

  /** A match that overtakes the first one is answered. */
  lemma LaterMatchWins(w: World, rules: seq<Rule>, data: Bytes)
    returns (s: State, steps: seq<Step>, outcome: Option<Rule>)
    requires w.concurrent && w.poolSize >= 2 && Coherent(w.truth, rules) && !OneEntityFires(rules, data)
    ensures Observed(w, s, steps, 0, rules, data, outcome) && outcome != FirstMatch(rules, data)
  {
    var i, k := TwoMatching(w, rules, data);
    var before: seq<Step>;
    s, before := Overtaken(w, rules, data, i, k);
    var missing := MissingSet(rules, data, map[]);
    steps := WinnerIsAnswered(w, s, before, rules, data, missing[k].rule);
    outcome := Some(missing[k].rule);
    FirstMatchingIsFirstMatch(w.truth, rules, data, map[], {}, i);
    MissingSetIsGood(rules, data, map[]);
  }

  /** The concurrent runner returns the first match in every schedule exactly when the pool has
      one slot or a single entity fires on the token. */
  lemma FirstMatchOrderIff(w: World, rules: seq<Rule>, data: Bytes)
    requires w.concurrent && w.poolSize > 0 && Coherent(w.truth, rules)
    ensures ReturnsFirstMatch(w, rules, data) <==> w.poolSize == 1 || OneEntityFires(rules, data)
  {
    if w.poolSize == 1 || OneEntityFires(rules, data) {
      forall s, steps, c: nat, outcome | Observed(w, s, steps, c, rules, data, outcome)
        ensures outcome == FirstMatch(rules, data)
      {
        ConcurrentAnswers(w, s, steps, c);
        if w.poolSize == 1 { SingleSlotAnswers(w, s, steps, c); }
      }
    } else {
      var s, steps, outcome := LaterMatchWins(w, rules, data);
      assert Observed(w, s, steps, 0, rules, data, outcome);
    }
  }
}
