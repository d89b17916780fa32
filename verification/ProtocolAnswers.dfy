/** What every uncancelled call answers, by what became of its flight, and what that means for a
    runner that was stopped. */
module ProtocolAnswers {
  import opened Prelude
  import opened Rules
  import opened Classification
  import opened TokenCache
  import opened Protocol
  import opened ProtocolInvariant
  import opened ProtocolSafety
  import opened ProtocolProgress
  import opened ProtocolRuns

  /** The answer a published flight gives an uncancelled call: nothing from a body the pool
      rejected, the collected match to the call that led it, and otherwise the first match. */
  ghost predicate Settled(fl: Flight, call: Call, outcome: Option<Rule>) {
    && fl.stage.Published?
    && outcome == (if fl.stage.value.None? then None
                   else if call.leads && fl.winner.Some? then fl.winner
                   else FirstMatch(call.rules, call.data))
  }

  ghost predicate AnswerOk(s: State, c: int)
    requires 0 <= c < |s.calls|
  {
    var call := s.calls[c];
    && (call.phase.SavingResidual? ==>
          && call.flight.Some? && call.flight.value < |s.flights|
          && s.flights[call.flight.value].stage.Published? && s.flights[call.flight.value].stage.value.Some?)
    && (call.phase.Returned? && c !in s.cancelled ==>
          if call.flight.None? then call.phase.outcome == FirstMatch(call.rules, call.data)
          else call.flight.value < |s.flights| && Settled(s.flights[call.flight.value], call, call.phase.outcome))
  }

  ghost predicate AnswersOk(s: State) {
    forall c :: 0 <= c < |s.calls| ==> AnswerOk(s, c)
  }

  // ---- the steps that answer ----

  lemma StartAnswers(w: World, s: State, step: Step)
    requires Enabled(w, s, step) && step.Start?
    ensures AnswerOk(Apply(w, s, step), |s.calls|)
  {
  }

  lemma ReadAnswers(w: World, s: State, c: nat, fails: bool)
    requires Inv(w, s) && Enabled(w, s, Read(c, fails))
    ensures AnswerOk(Apply(w, s, Read(c, fails)), c)
  {
    var call := s.calls[c];
    CallIsAttached(w, s, c);
    var cached := if fails then map[] else Lookup(s.hashes, call.data);
    LookupIsTrue(w.truth, s.hashes, call.data);
    PartialAnswer(w, call.(cached := cached), map[]);
  }

  lemma ResumeAnswers(w: World, s: State, c: nat)
    requires Inv(w, s) && Enabled(w, s, Resume(c))
    ensures AnswerOk(Apply(w, s, Resume(c)), c)
  {
    var call := s.calls[c];
    CallIsAttached(w, s, c);
    var fl := s.flights[call.flight.value];
    FlightOfInv(w, s, call.flight.value);
    PartialAnswer(w, call, map[]);
    if fl.stage.value.Some? { ResumedSettles(w, s, c); }
  }

  lemma ResumedSettles(w: World, s: State, c: nat)
    requires Inv(w, s) && Enabled(w, s, Resume(c)) && s.flights[s.calls[c].flight.value].stage.value.Some?
    ensures var call, fl := s.calls[c], s.flights[s.calls[c].flight.value];
            var phase := Resumed(w, call, fl, c in s.cancelled);
            phase.Returned? && c !in s.cancelled ==> Settled(fl, call, phase.outcome)
  {
    var call := s.calls[c];
    CallIsAttached(w, s, c);
    var fl := s.flights[call.flight.value];
    FlightOfInv(w, s, call.flight.value);
    PartialAnswer(w, call, fl.results);
    if Residual(call.Missing(), fl.results) == [] {
      NoResidualIsCovered(call.Missing(), fl.results);
    } else if call.leads && fl.winner == None && c !in s.cancelled {
      CoveredHasNoResidual(call.Missing(), fl.results);
    }
  }

  lemma SaveResidualAnswers(w: World, s: State, c: nat, persisted: bool)
    requires Inv(w, s) && Enabled(w, s, SaveResidual(c, persisted)) && AnswerOk(s, c)
    ensures AnswerOk(Apply(w, s, SaveResidual(c, persisted)), c)
  {
    CallIsAttached(w, s, c);
    ResidualCompletes(w, s.calls[c], s.calls[c].phase.shared);
  }

  // ---- every other step leaves the answers ----

  predicate Answers(step: Step, c: nat) {
    (step.Read? || step.Resume? || step.SaveResidual?) && step.call == c
  }

  /** A call neither answers nor prepares its residual by any other step, unless it is cancelled. */
  lemma NoOtherAnswers(w: World, s: State, step: Step, c: nat)
    requires Enabled(w, s, step) && c < |s.calls| && !Answers(step, c)
    ensures var s' := Apply(w, s, step);
            c < |s'.calls|
            && (s'.calls[c] == s.calls[c] || c in s'.cancelled || !s'.calls[c].phase.Returned?)
            && (s'.calls[c] == s.calls[c] || !s'.calls[c].phase.SavingResidual?)
  {
  }

  lemma AnswerStays(s: State, s': State, c: nat)
    requires c < |s.calls| && c < |s'.calls| && AnswerOk(s, c) && Remembers(s, s')
    requires s'.calls[c] == s.calls[c] || c in s'.cancelled || !s'.calls[c].phase.Returned?
    requires s'.calls[c] == s.calls[c] || !s'.calls[c].phase.SavingResidual?
    ensures AnswerOk(s', c)
  {
    var call := s.calls[c];
    if call.flight.Some? && call.flight.value < |s.flights| {
      assert FlightRemembers(s.flights[call.flight.value], s'.flights[call.flight.value]);
    }
  }

  lemma OnlyStartAddsCalls(w: World, s: State, step: Step)
    requires Enabled(w, s, step) && !step.Start?
    ensures |Apply(w, s, step).calls| == |s.calls|
  {
  }

  lemma StepKeepsAnswer(w: World, s: State, step: Step, c: nat)
    requires Inv(w, s) && Enabled(w, s, step) && AnswersOk(s) && c < |Apply(w, s, step).calls|
    ensures AnswerOk(Apply(w, s, step), c)
  {
    if c >= |s.calls| {
      if !step.Start? { OnlyStartAddsCalls(w, s, step); }
      StartAnswers(w, s, step);
    } else if !Answers(step, c) {
      StepRemembers(w, s, step);
      NoOtherAnswers(w, s, step, c);
      AnswerStays(s, Apply(w, s, step), c);
    } else {
      match step {
        case Read(_, fails) => ReadAnswers(w, s, c, fails);
        case Resume(_) => ResumeAnswers(w, s, c);
        case SaveResidual(_, persisted) => SaveResidualAnswers(w, s, c, persisted);
      }
    }
  }

  lemma {:induction false} ScheduleKeepsAnswers(w: World, s: State, steps: seq<Step>)
    requires Inv(w, s) && AnswersOk(s) && Schedule(w, s, steps)
    ensures AnswersOk(After(w, s, steps))
    decreases |steps|
  {
    if steps != [] {
      var s' := Apply(w, s, steps[0]);
      StepKeepsInv(w, s, steps[0]);
      forall c | 0 <= c < |s'.calls| ensures AnswerOk(s', c) { StepKeepsAnswer(w, s, steps[0], c); }
      ScheduleKeepsAnswers(w, s', steps[1..]);
    }
  }

  lemma ReachableAnswers(w: World, s: State, steps: seq<Step>)
    requires Initial(w, s) && Schedule(w, s, steps)
    ensures AnswersOk(After(w, s, steps))
  {
    ScheduleKeepsAnswers(w, s, steps);
  }

  // ---- what a call of the concurrent runner reports ----

  /** The pool closed on the call's flight before it had submitted every task. */
  ghost predicate Rejected(s: State, call: Call) {
    && call.flight.Some? && call.flight.value < |s.flights|
    && BodyOver(s.flights[call.flight.value].stage) && s.flights[call.flight.value].stage.value.None?
  }

  /** Any reported rule is live, truly matching and the first claimant of its entity, even after
      closure or cancellation. An uncancelled call whose flight was rejected reports nothing; any
      other reports a match exactly when one exists, and the first match itself unless it led the
      flight and several entities fire. On an open pool no flight is rejected. */
  lemma ConcurrentAnswers(w: World, s: State, steps: seq<Step>, c: nat)
    requires Initial(w, s) && Schedule(w, s, steps) && w.concurrent
    requires c < |After(w, s, steps).calls| && After(w, s, steps).calls[c].phase.Returned?
    ensures var end := After(w, s, steps);
            var call := end.calls[c];
            var outcome, expected := call.phase.outcome, FirstMatch(call.rules, call.data);
            && (outcome.Some? ==> Sound(call.rules, call.data, outcome.value))
            && (outcome.Some? && OneEntityFires(call.rules, call.data) ==> outcome == expected)
            && (end.poolOpen ==> !Rejected(end, call))
            && (c !in end.cancelled && Rejected(end, call) ==> outcome == None)
            && (c !in end.cancelled && !Rejected(end, call) ==>
                  && (outcome.Some? <==> expected.Some?)
                  && (!call.leads || OneEntityFires(call.rules, call.data) ==> outcome == expected))
  {
    ReachableInv(w, s, steps);
    ReachableAnswers(w, s, steps);
    var end := After(w, s, steps);
    var call := end.calls[c];
    CallIsAttached(w, end, c);
    assert AnswerOk(end, c);
    if call.flight.Some? { FlightOfInv(w, end, call.flight.value); }
    var outcome := call.phase.outcome;
    if outcome.Some? { SoundReport(call.rules, call.data, outcome.value); }
  }

  lemma SoundReport(rules: seq<Rule>, data: Bytes, rule: Rule)
    requires Sound(rules, data, rule)
    ensures FirstMatch(rules, data).Some?
    ensures OneEntityFires(rules, data) ==> FirstMatch(rules, data) == Some(rule)
  {
    SoundImpliesMatch(rules, data, rule);
    if OneEntityFires(rules, data) { SoundIsFirstMatch(rules, data, rule); }
  }

  /** From any reachable state everything completes without cancelling anyone or undoing anything. */
  lemma CompletesQuietly(w: World, s: State) returns (steps: seq<Step>)
    requires Inv(w, s) && (w.concurrent ==> w.poolSize > 0)
    ensures Schedule(w, s, steps) && SystemOnly(steps)
    ensures var end := After(w, s, steps);
            Quiescent(end) && Remembers(s, end) && end.cancelled == s.cancelled && end.poolOpen == s.poolOpen
            && |end.calls| == |s.calls|
  {
    steps := EverythingCompletes(w, s);
    SystemStepsKeepEnvironment(w, s, steps);
    ScheduleRemembers(w, s, steps);
  }
}
