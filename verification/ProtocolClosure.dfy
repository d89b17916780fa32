/** What closing the pool does to calls: exactly which ones then answer nothing. */
module ProtocolClosure {
  import opened Prelude
  import opened Rules
  import opened Classification
  import opened Protocol
  import opened ProtocolInvariant
  import opened ProtocolSafety
  import opened ProtocolAnswers
  import opened ProtocolRuns

  /** A body returns no map exactly when it had not submitted a task for every missing entity. */
  ghost predicate CutShort(fl: Flight) {
    match fl.stage
    case Evaluating => true
    case Finished(value) => value.None? <==> |fl.workers| < |fl.missing|
    case Forgotten(value) => value.None? <==> |fl.workers| < |fl.missing|
    case Published(value) => value.None? <==> |fl.workers| < |fl.missing|
    case _ => |fl.workers| == |fl.missing|
  }

  ghost predicate AllCutShort(s: State) {
    forall f :: 0 <= f < |s.flights| ==> CutShort(s.flights[f])
  }

  lemma TaskStepKeepsStage(w: World, s: State, step: Step)
    requires Enabled(w, s, step) && (step.Check? || step.Send?)
    ensures step.flight < |Apply(w, s, step).flights|
    ensures var fl, fl' := s.flights[step.flight], Apply(w, s, step).flights[step.flight];
            fl'.stage == fl.stage && |fl'.workers| == |fl.workers| && fl'.missing == fl.missing
  {
  }

  lemma BodyStepCutShort(w: World, s: State, step: Step)
    requires w.concurrent && Enabled(w, s, step) && IsFlightStep(step) && !step.Check? && !step.Send?
    requires FlightOk(w, s.cancelled, s.poolOpen, s.flights[step.flight]) && CutShort(s.flights[step.flight])
    ensures step.flight < |Apply(w, s, step).flights| && CutShort(Apply(w, s, step).flights[step.flight])
  {
  }

  lemma SteppedFlightCutShort(w: World, s: State, step: Step)
    requires w.concurrent && Enabled(w, s, step) && IsFlightStep(step)
    requires FlightOk(w, s.cancelled, s.poolOpen, s.flights[step.flight]) && CutShort(s.flights[step.flight])
    ensures step.flight < |Apply(w, s, step).flights| && CutShort(Apply(w, s, step).flights[step.flight])
  {
    if step.Check? || step.Send? {
      TaskStepKeepsStage(w, s, step);
    } else {
      BodyStepCutShort(w, s, step);
    }
  }

  lemma StepKeepsCutShort(w: World, s: State, step: Step, f: nat)
    requires w.concurrent && Inv(w, s) && Enabled(w, s, step) && AllCutShort(s) && f < |Apply(w, s, step).flights|
    ensures CutShort(Apply(w, s, step).flights[f])
  {
    OnlyLeadAddsFlights(w, s, step);
    if IsFlightStep(step) && step.flight == f {
      FlightOfInv(w, s, f);
      SteppedFlightCutShort(w, s, step);
    } else if f < |s.flights| {
      OtherFlightsStay(w, s, step, f);
    }
  }

  lemma {:induction false} ScheduleKeepsCutShort(w: World, s: State, steps: seq<Step>)
    requires w.concurrent && Inv(w, s) && AllCutShort(s) && Schedule(w, s, steps)
    ensures AllCutShort(After(w, s, steps))
    decreases |steps|
  {
    if steps != [] {
      var s' := Apply(w, s, steps[0]);
      forall f | 0 <= f < |s'.flights| ensures CutShort(s'.flights[f]) { StepKeepsCutShort(w, s, steps[0], f); }
      StepKeepsInv(w, s, steps[0]);
      ScheduleKeepsCutShort(w, s', steps[1..]);
    }
  }

  // ---- after closure nothing more is submitted ----

  /** How many tasks a flight had submitted by state s; a flight led later has submitted none. */
  function SubmittedBy(s: State, f: nat): nat {
    if f < |s.flights| then |s.flights[f].workers| else 0
  }

  lemma ClosedStepSubmitsNothing(w: World, s: State, step: Step, f: nat)
    requires Enabled(w, s, step) && !s.poolOpen
    ensures !Apply(w, s, step).poolOpen && SubmittedBy(Apply(w, s, step), f) == SubmittedBy(s, f)
  {
    OnlyLeadAddsFlights(w, s, step);
  }

  lemma {:induction false} ClosedSubmitsNothing(w: World, s: State, steps: seq<Step>, f: nat)
    requires Schedule(w, s, steps) && !s.poolOpen
    ensures SubmittedBy(After(w, s, steps), f) == SubmittedBy(s, f)
    decreases |steps|
  {
    if steps != [] {
      ClosedStepSubmitsNothing(w, s, steps[0], f);
      ClosedSubmitsNothing(w, Apply(w, s, steps[0]), steps[1..], f);
    }
  }

  /** On a pool closed by now, an uncancelled call that has answered, started before or after the
      closure, answered nothing exactly when no rule matches or its flight had not submitted all
      its tasks by the closure: a flight led after it never has. */
  lemma StoppedAnswersNoneIff(w: World, s: State, before: seq<Step>, after: seq<Step>, c: nat)
    requires Initial(w, s) && w.concurrent && Schedule(w, s, before) && !After(w, s, before).poolOpen
    requires Schedule(w, After(w, s, before), after)
    requires var end := After(w, After(w, s, before), after);
             c < |end.calls| && end.calls[c].phase.Returned? && c !in end.cancelled
    ensures var closed := After(w, s, before);
            var end := After(w, closed, after);
            var call := end.calls[c];
            call.phase.outcome == None <==>
              || FirstMatch(call.rules, call.data) == None
              || (call.flight.Some? && call.flight.value < |end.flights|
                  && SubmittedBy(closed, call.flight.value) < |end.flights[call.flight.value].missing|)
  {
    var closed := After(w, s, before);
    var end := After(w, closed, after);
    ScheduleAppend(w, s, before, after);
    ReachableInv(w, s, before + after);
    ReachableAnswers(w, s, before + after);
    ScheduleKeepsCutShort(w, s, before + after);
    ConcurrentAnswers(w, s, before + after, c);
    var call := end.calls[c];
    CallIsAttached(w, end, c);
    assert AnswerOk(end, c);
    if call.flight.Some? {
      var f := call.flight.value;
      ClosedSubmitsNothing(w, closed, after, f);
      assert CutShort(end.flights[f]);
    }
  }

  /** A call that leads a flight after the closure answers nothing. */
  lemma LateLeaderAnswersNone(w: World, s: State, before: seq<Step>, after: seq<Step>, c: nat)
    requires Initial(w, s) && w.concurrent && Schedule(w, s, before) && !After(w, s, before).poolOpen
    requires Schedule(w, After(w, s, before), after)
    requires var end := After(w, After(w, s, before), after);
             |After(w, s, before).calls| <= c < |end.calls| && end.calls[c].phase.Returned? && c !in end.cancelled
             && end.calls[c].leads
    ensures After(w, After(w, s, before), after).calls[c].phase.outcome == None
  {
    var closed := After(w, s, before);
    var end := After(w, closed, after);
    ReachableInv(w, s, before);
    ScheduleAppend(w, s, before, after);
    ReachableInv(w, s, before + after);
    CallIsAttached(w, end, c);
    var f := end.calls[c].flight.value;
    FlightOfInv(w, end, f);
    if f < |closed.flights| {
      FlightOfInv(w, closed, f);
      ScheduleRemembers(w, closed, after);
    }
    StoppedAnswersNoneIff(w, s, before, after, c);
  }

  // ---- a stopped runner that still reports ----

  /** One request whose flight has submitted and run all its tasks, on a pool then closed. */
  lemma ClosedBehindFlight(w: World, rules: seq<Rule>, data: Bytes) returns (s: State, before: seq<Step>)
    requires w.concurrent && w.coalesce && w.poolSize > 0 && Coherent(w.truth, rules)
    requires MissingSet(rules, data, map[]) != []
    ensures Initial(w, s) && Schedule(w, s, before)
    ensures var closed := After(w, s, before);
            && !closed.poolOpen && closed.cancelled == {} && |closed.calls| == 1 && |closed.flights| == 1
            && closed.flights[0].key == data && closed.flights[0].stage.Collecting?
            && |closed.flights[0].workers| == |closed.flights[0].missing|
  {
    var led: seq<Step>;
    s, led := LeadFresh(w, rules, data);
    var s1 := After(w, s, led);
    var fl := s1.flights[0];
    var n := |fl.missing|;
    assert With(s1, Overtaking(fl, n, 0)) == s1 by { assert Overtaking(fl, n, 0) == fl; assert s1.flights == [fl]; }
    var submit := SubmitAll(w, s1, fl, n, 0);
    ScheduleAppend(w, s, led, submit);
    var s2 := With(s1, Overtaking(fl, n, n));
    Then(w, s2, ClosePool, []);
    ScheduleAppend(w, s, led + submit, [ClosePool] + []);
    before := led + submit + ([ClosePool] + []);
  }

  /** The steps by which a later request for the same token joins the running flight. */
  lemma JoinsFlight(w: World, s: State, rules: seq<Rule>, data: Bytes) returns (steps: seq<Step>)
    requires w.concurrent && w.coalesce && Coherent(w.truth, rules) && MissingSet(rules, data, map[]) != []
    requires Inv(w, s) && |s.flights| == 1 && s.flights[0].key == data && s.flights[0].stage.Collecting?
    ensures Schedule(w, s, steps)
    ensures var end := After(w, s, steps);
            && end.flights == s.flights && end.cancelled == s.cancelled && |end.calls| == |s.calls| + 1
            && var call := end.calls[|s.calls|];
               call.rules == rules && call.data == data && call.flight == Some(0) && !call.leads
  {
    var c := |s.calls|;
    assert RegistryOk(w, s) && Joinable(s.flights[0].stage);
    var s1 := Apply(w, s, Start(rules, data));
    assert s1.calls[c].phase == Reading;
    var s2 := Apply(w, s1, Read(c, true));
    assert s2.calls[c].Missing() == MissingSet(rules, data, map[]);
    assert s2.registered == s.registered;
    Then(w, s2, Join(c), []);
    Then(w, s1, Read(c, true), [Join(c)] + []);
    Then(w, s, Start(rules, data), [Read(c, true)] + ([Join(c)] + []));
    steps := [Start(rules, data)] + ([Read(c, true)] + ([Join(c)] + []));
  }

  /** For every request with a match: some runner stopped before the call starts still answers it. */
  lemma StoppedRunnerStillMatches(w: World, rules: seq<Rule>, data: Bytes)
    returns (s: State, before: seq<Step>, after: seq<Step>, c: nat)
    requires w.concurrent && w.coalesce && w.poolSize > 0 && Coherent(w.truth, rules)
    requires FirstMatch(rules, data).Some?
    ensures Initial(w, s) && Schedule(w, s, before) && !After(w, s, before).poolOpen
    ensures Schedule(w, After(w, s, before), after)
    ensures var end := After(w, After(w, s, before), after);
            && |After(w, s, before).calls| <= c < |end.calls| && c !in end.cancelled
            && end.calls[c].rules == rules && end.calls[c].data == data
            && end.calls[c].phase == Returned(FirstMatch(rules, data))
  {
    var i := FirstMatchWitness(rules, data);
    LiveRuleIsQueued(rules, data, map[], {}, i);
    s, before := ClosedBehindFlight(w, rules, data);
    ReachableInv(w, s, before);
    c := |After(w, s, before).calls|;
    after := JoinsAndFinishes(w, After(w, s, before), rules, data);
    JoinerAnswers(w, s, before, after, c);
  }

  lemma JoinsAndFinishes(w: World, s: State, rules: seq<Rule>, data: Bytes) returns (steps: seq<Step>)
    requires w.concurrent && w.coalesce && w.poolSize > 0
    requires Coherent(w.truth, rules) && MissingSet(rules, data, map[]) != []
    requires Inv(w, s) && |s.flights| == 1 && s.flights[0].key == data && s.flights[0].stage.Collecting? && s.cancelled == {}
    ensures Schedule(w, s, steps)
    ensures var end := After(w, s, steps);
            && |end.calls| == |s.calls| + 1 && end.cancelled == {}
            && var call := end.calls[|s.calls|];
               call.rules == rules && call.data == data && call.flight == Some(0) && !call.leads && call.phase.Returned?
  {
    var join := JoinsFlight(w, s, rules, data);
    var joined := After(w, s, join);
    ScheduleKeepsInv(w, s, join);
    var finish := CompletesQuietly(w, joined);
    ScheduleAppend(w, s, join, finish);
    steps := join + finish;
    assert CallRemembers(joined.calls[|s.calls|], After(w, joined, finish).calls[|s.calls|]);
  }

  /** A joiner of a flight that had submitted everything before the closure answers the first match. */
  lemma JoinerAnswers(w: World, s: State, before: seq<Step>, after: seq<Step>, c: nat)
    requires Initial(w, s) && w.concurrent && Schedule(w, s, before) && !After(w, s, before).poolOpen
    requires Schedule(w, After(w, s, before), after)
    requires var closed := After(w, s, before);
             var end := After(w, closed, after);
             && c < |end.calls| && end.calls[c].phase.Returned? && c !in end.cancelled
             && end.calls[c].flight == Some(0) && !end.calls[c].leads
             && |closed.flights| > 0 && |closed.flights[0].workers| == |closed.flights[0].missing|
    ensures var call := After(w, After(w, s, before), after).calls[c];
            call.phase.outcome == FirstMatch(call.rules, call.data)
  {
    var closed := After(w, s, before);
    var end := After(w, closed, after);
    ReachableInv(w, s, before);
    ScheduleRemembers(w, closed, after);
    assert FlightRemembers(closed.flights[0], end.flights[0]);
    ScheduleAppend(w, s, before, after);
    ReachableAnswers(w, s, before + after);
    assert AnswerOk(end, c);
    StoppedAnswersNoneIff(w, s, before, after, c);
  }
}
