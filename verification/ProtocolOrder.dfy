/** When the concurrent runner really returns the first match in rule order: exactly when a
    single entity fires or the pool has a single slot. */
module ProtocolOrder {
  import opened Prelude
  import opened Rules
  import opened Classification
  import opened Protocol
  import opened ProtocolInvariant
  import opened ProtocolSafety
  import opened ProtocolAnswers

  /** Index k holds the first matching entry of the missing set. */
  ghost predicate FirstMatching(missing: seq<Missing>, key: Bytes, k: int) {
    && 0 <= k < |missing| && missing[k].rule.matcher.matches(key)
    && forall j :: 0 <= j < k ==> !missing[j].rule.matcher.matches(key)
  }

  /** The missing set keeps rule order: its first matching entry is the first match. */
  lemma {:induction false} FirstMatchingIsFirstMatch(
    truth: Truth, rules: seq<Rule>, data: Bytes, cached: Results, queued: set<Entity>, k: nat)
    requires Coherent(truth, rules) && NegativeTruth(truth, data, cached)
    requires forall e :: e in queued ==> !truth(e, data)
    requires FirstMatching(MissingFrom(rules, data, cached, queued), data, k)
    ensures FirstMatch(rules, data) == Some(MissingFrom(rules, data, cached, queued)[k].rule)
  {
    var rule := rules[0];
    assert rule.matcher.matches(data) == truth(rule.Entity(), data);
    assert Coherent(truth, rules[1..]);
    if !Queues(rule, data, cached, queued) {
      FirstMatchingIsFirstMatch(truth, rules[1..], data, cached, queued, k);
    } else if k > 0 {
      FirstMatchingTail(rules, data, cached, queued, k);
      FirstMatchingIsFirstMatch(truth, rules[1..], data, cached, queued + {rule.Entity()}, k - 1);
    }
  }

  /** Past a queued first rule that does not match, the first matching entry is one earlier. */
  lemma FirstMatchingTail(rules: seq<Rule>, data: Bytes, cached: Results, queued: set<Entity>, k: nat)
    requires rules != [] && Queues(rules[0], data, cached, queued) && k > 0
    requires FirstMatching(MissingFrom(rules, data, cached, queued), data, k)
    ensures var rest := MissingFrom(rules[1..], data, cached, queued + {rules[0].Entity()});
            && FirstMatching(rest, data, k - 1) && rest[k - 1] == MissingFrom(rules, data, cached, queued)[k]
    ensures !rules[0].matcher.matches(data)
  {
    var missing, rest := MissingFrom(rules, data, cached, queued),
                         MissingFrom(rules[1..], data, cached, queued + {rules[0].Entity()});
    assert missing == [Missing(rules[0].Entity(), rules[0])] + rest;
    assert missing[0].rule == rules[0];
    assert forall j :: 0 <= j < |rest| ==> rest[j] == missing[j + 1];
  }

  // ---- a single slot keeps the order ----

  /** Tasks were sent, buffered and received in missing-set order, unless the leader was cancelled. */
  ghost predicate InOrder(cancelled: set<nat>, fl: Flight) {
    && (forall i :: 0 <= i < |fl.workers| - 1 ==> fl.workers[i].Sent?)
    && (fl.leader in cancelled ||
        ( && (fl.stage.Evaluating? || fl.stage.Collecting? ==>
                && fl.received + |fl.channel| <= |fl.missing|
                && (forall k :: 0 <= k < |fl.channel| ==> fl.channel[k] == WorkerItem(fl, fl.received + k))
                && (forall i :: 0 <= i < fl.received ==> !fl.missing[i].rule.matcher.matches(fl.key)))
          && (fl.winner.Some? ==>
                exists k :: FirstMatching(fl.missing, fl.key, k) && fl.missing[k].rule == fl.winner.value)))
  }

  ghost predicate OneAtATime(s: State) {
    && Busy(s.flights) <= 1
    && forall f :: 0 <= f < |s.flights| ==> InOrder(s.cancelled, s.flights[f])
  }

  lemma {:induction false} BusyUpdate(flights: seq<Flight>, f: nat, fl: Flight)
    requires f < |flights|
    ensures Busy(flights[f := fl]) == Busy(flights) - Active(flights[f].workers) + Active(fl.workers)
    ensures Active(flights[f].workers) <= Busy(flights)
  {
    var n := |flights| - 1;
    if f == n {
      assert flights[f := fl][..n] == flights[..n];
    } else {
      BusyUpdate(flights[..n], f, fl);
      assert flights[f := fl][..n] == flights[..n][f := fl];
    }
  }

  lemma FlightKeepsOrder(s: State, s': State, f: nat, fl': Flight)
    requires OneAtATime(s) && f < |s.flights| && s'.flights == s.flights[f := fl'] && s'.cancelled == s.cancelled
    requires InOrder(s.cancelled, fl')
    requires Active(fl'.workers) <= Active(s.flights[f].workers) || (Busy(s.flights) == 0 && Active(fl'.workers) <= 1)
    ensures OneAtATime(s')
  {
    BusyUpdate(s.flights, f, fl');
  }

  lemma SubmittedInOrder(cancelled: set<nat>, fl: Flight)
    requires InOrder(cancelled, fl) && fl.stage.Evaluating? && fl.winner == None && Active(fl.workers) == 0
    ensures InOrder(cancelled, Submitted(fl)) && Active(Submitted(fl).workers) == 1
  {
    ActiveAppend(fl.workers);
    NoneActive(fl.workers);
  }

  lemma SubmitKeepsOrder(w: World, s: State, f: nat)
    requires Inv(w, s) && OneAtATime(s) && w.poolSize == 1 && Enabled(w, s, Submit(f))
    ensures OneAtATime(Apply(w, s, Submit(f)))
  {
    var fl := s.flights[f];
    BusyUpdate(s.flights, f, fl);
    assert FlightOk(w, s.cancelled, s.poolOpen, fl);
    SubmittedInOrder(s.cancelled, fl);
    FlightKeepsOrder(s, Apply(w, s, Submit(f)), f, Submitted(fl));
  }

  lemma SendingInOrder(cancelled: set<nat>, fl: Flight, i: nat)
    requires InOrder(cancelled, fl) && WorkersOk(cancelled, fl)
    requires i < |fl.workers| && (fl.workers[i].Bailing? || fl.workers[i].Matching?)
    requires fl.stage.Evaluating? || fl.stage.Collecting? ==> fl.winner == None
    ensures InOrder(cancelled, Sending(fl, i)) && Active(Sending(fl, i).workers) <= Active(fl.workers)
  {
    var fl' := Sending(fl, i);
    ActiveUpdate(fl.workers, i, fl'.workers[i]);
    LastActive(fl.workers, i);
    if fl.leader !in cancelled && (fl.stage.Evaluating? || fl.stage.Collecting?) {
      assert fl'.channel[|fl.channel|] == WorkerItem(fl', fl.received + |fl.channel|);
    }
  }

  /** When all tasks but the last were sent, an active one is the last and the only one. */
  lemma {:induction false} LastActive(workers: seq<Worker>, i: nat)
    requires i < |workers| && !workers[i].Sent?
    requires forall j :: 0 <= j < |workers| - 1 ==> workers[j].Sent?
    ensures i == |workers| - 1 && Active(workers) == 1
  {
    AllSent(workers[..|workers| - 1]);
  }

  lemma {:induction false} AllSent(workers: seq<Worker>)
    requires forall j :: 0 <= j < |workers| ==> workers[j].Sent?
    ensures Active(workers) == 0
  {
    if workers != [] { AllSent(workers[..|workers| - 1]); }
  }

  lemma SendKeepsOrder(w: World, s: State, f: nat, i: nat)
    requires Inv(w, s) && OneAtATime(s) && Enabled(w, s, Send(f, i))
    ensures OneAtATime(Apply(w, s, Send(f, i)))
  {
    var fl := s.flights[f];
    assert FlightOk(w, s.cancelled, s.poolOpen, fl);
    SendingInOrder(s.cancelled, fl, i);
    FlightKeepsOrder(s, Apply(w, s, Send(f, i)), f, Sending(fl, i));
  }

  lemma CollectedInOrder(cancelled: set<nat>, fl: Flight)
    requires InOrder(cancelled, fl) && fl.stage.Collecting? && fl.winner == None && fl.channel != []
    ensures InOrder(cancelled, Collected(fl))
  {
    var fl' := Collected(fl);
    if fl.leader !in cancelled {
      assert fl.channel[0] == WorkerItem(fl, fl.received);
      if fl'.winner.Some? {
        assert FirstMatching(fl'.missing, fl'.key, fl.received);
      }
    }
  }

  lemma ReceiveKeepsOrder(w: World, s: State, f: nat)
    requires Inv(w, s) && OneAtATime(s) && Enabled(w, s, Receive(f))
    ensures OneAtATime(Apply(w, s, Receive(f)))
  {
    assert FlightOk(w, s.cancelled, s.poolOpen, s.flights[f]);
    CollectedInOrder(s.cancelled, s.flights[f]);
    FlightKeepsOrder(s, Apply(w, s, Receive(f)), f, Collected(s.flights[f]));
  }

  lemma CheckKeepsOrder(w: World, s: State, f: nat, i: nat)
    requires OneAtATime(s) && Enabled(w, s, Check(f, i))
    ensures OneAtATime(Apply(w, s, Check(f, i)))
  {
    var fl := s.flights[f];
    var worker := if MatchContextDone(s, fl) then Bailing else Matching;
    var fl' := fl.(workers := fl.workers[i := worker]);
    ActiveUpdate(fl.workers, i, worker);
    SameOrder(s.cancelled, fl, fl');
    FlightKeepsOrder(s, Apply(w, s, Check(f, i)), f, fl');
  }

  /** Changes that keep the collection's record, or come after it. */
  lemma SameOrder(cancelled: set<nat>, fl: Flight, fl': Flight)
    requires InOrder(cancelled, fl) && SameFlight(fl, fl') && fl'.winner == fl.winner
    requires forall i :: 0 <= i < |fl'.workers| - 1 ==> fl'.workers[i].Sent?
    requires fl'.stage.Evaluating? || fl'.stage.Collecting? ==>
               fl'.stage == fl.stage && fl'.channel == fl.channel && fl'.received == fl.received
    ensures InOrder(cancelled, fl')
  {
    if fl.leader !in cancelled && fl.winner.Some? {
      var k :| FirstMatching(fl.missing, fl.key, k) && fl.missing[k].rule == fl.winner.value;
      assert FirstMatching(fl'.missing, fl'.key, k);
    }
  }

  /** Steps past the collection only move the stage or drop drained items. */
  lemma LateStepKeepsRecord(w: World, s: State, step: Step)
    requires Enabled(w, s, step) && IsLate(step)
    ensures var fl := s.flights[step.flight];
            var s' := Apply(w, s, step);
            && step.flight < |s'.flights| && s'.flights == s.flights[step.flight := s'.flights[step.flight]]
            && s'.cancelled == s.cancelled
            && var fl' := s'.flights[step.flight];
               SameFlight(fl, fl') && fl'.winner == fl.winner && fl'.workers == fl.workers
               && !fl'.stage.Evaluating? && !fl'.stage.Collecting?
  {
  }

  predicate IsLate(step: Step) {
    step.EvaluateAll? || step.Reject? || step.StopCollecting? || step.Drain? || step.EndDrain? || step.Save?
    || step.Forget? || step.Publish?
  }

  lemma LateStepKeepsOrder(w: World, s: State, step: Step)
    requires OneAtATime(s) && Enabled(w, s, step) && IsLate(step)
    ensures OneAtATime(Apply(w, s, step))
  {
    LateStepKeepsRecord(w, s, step);
    var s' := Apply(w, s, step);
    var fl, fl' := s.flights[step.flight], s'.flights[step.flight];
    assert InOrder(s.cancelled, fl);
    SameOrder(s.cancelled, fl, fl');
    FlightKeepsOrder(s, s', step.flight, fl');
  }

  lemma QuietStepKeepsOrder(w: World, s: State, step: Step)
    requires OneAtATime(s) && Enabled(w, s, step)
    requires IsEnvironment(step) || step.Read? || step.Join? || step.Abandon? || step.Resume? || step.SaveResidual?
    ensures OneAtATime(Apply(w, s, step))
  {
    var s' := Apply(w, s, step);
    forall f | 0 <= f < |s.flights| ensures InOrder(s'.cancelled, s.flights[f]) {
      assert InOrder(s.cancelled, s.flights[f]);
    }
  }

  lemma BusyAppend(flights: seq<Flight>, fl: Flight)
    ensures Busy(flights + [fl]) == Busy(flights) + Active(fl.workers)
  {
    assert (flights + [fl])[..|flights|] == flights;
  }

  /** A flight just led has neither tasks nor a winner. */
  lemma NewFlightInOrder(cancelled: set<nat>, call: Call, c: nat)
    ensures InOrder(cancelled, NewFlight(call, c)) && Active(NewFlight(call, c).workers) == 0
  {
  }

  lemma FlightJoinsOrder(s: State, s': State, fl: Flight)
    requires OneAtATime(s) && s'.flights == s.flights + [fl] && s'.cancelled == s.cancelled
    requires InOrder(s.cancelled, fl) && Active(fl.workers) == 0
    ensures OneAtATime(s')
  {
    BusyAppend(s.flights, fl);
    forall f | 0 <= f < |s'.flights| ensures InOrder(s'.cancelled, s'.flights[f]) {
      assert s'.flights[f] == if f < |s.flights| then s.flights[f] else fl;
    }
  }

  lemma LeadKeepsOrder(w: World, s: State, c: nat)
    requires OneAtATime(s) && Enabled(w, s, Lead(c))
    ensures OneAtATime(Apply(w, s, Lead(c)))
  {
    NewFlightInOrder(s.cancelled, s.calls[c], c);
    FlightJoinsOrder(s, Apply(w, s, Lead(c)), NewFlight(s.calls[c], c));
  }

  lemma StepKeepsOrder(w: World, s: State, step: Step)
    requires Inv(w, s) && OneAtATime(s) && w.poolSize == 1 && Enabled(w, s, step)
    ensures OneAtATime(Apply(w, s, step))
  {
    if step.Submit? {
      SubmitKeepsOrder(w, s, step.flight);
    } else if step.Send? {
      SendKeepsOrder(w, s, step.flight, step.worker);
    } else if step.Receive? {
      ReceiveKeepsOrder(w, s, step.flight);
    } else if step.Check? {
      CheckKeepsOrder(w, s, step.flight, step.worker);
    } else if step.Lead? {
      LeadKeepsOrder(w, s, step.call);
    } else if IsEnvironment(step) || step.Read? || step.Join? || step.Abandon? || step.Resume? || step.SaveResidual? {
      QuietStepKeepsOrder(w, s, step);
    } else {
      LateStepKeepsOrder(w, s, step);
    }
  }

  lemma {:induction false} ScheduleKeepsOrder(w: World, s: State, steps: seq<Step>)
    requires Inv(w, s) && w.poolSize == 1 && OneAtATime(s) && Schedule(w, s, steps)
    ensures OneAtATime(After(w, s, steps))
    decreases |steps|
  {
    if steps != [] {
      StepKeepsInv(w, s, steps[0]);
      StepKeepsOrder(w, s, steps[0]);
      ScheduleKeepsOrder(w, Apply(w, s, steps[0]), steps[1..]);
    }
  }

  /** With one slot every uncancelled call whose flight was not rejected answers the first match, as
      the serial runner does. */
  lemma SingleSlotAnswers(w: World, s: State, steps: seq<Step>, c: nat)
    requires Initial(w, s) && Schedule(w, s, steps) && w.concurrent && w.poolSize == 1
    requires c < |After(w, s, steps).calls| && After(w, s, steps).calls[c].phase.Returned?
    requires var end := After(w, s, steps); c !in end.cancelled && !Rejected(end, end.calls[c])
    ensures var call := After(w, s, steps).calls[c];
            call.phase.outcome == FirstMatch(call.rules, call.data)
  {
    ReachableInv(w, s, steps);
    ScheduleKeepsOrder(w, s, steps);
    ReachableAnswers(w, s, steps);
    var end := After(w, s, steps);
    var call := end.calls[c];
    CallIsAttached(w, end, c);
    assert AnswerOk(end, c);
    if call.flight.Some? {
      var fl := end.flights[call.flight.value];
      FlightOfInv(w, end, call.flight.value);
      if call.leads && fl.winner.Some? {
        assert InOrder(end.cancelled, fl);
        var k :| FirstMatching(fl.missing, fl.key, k) && fl.missing[k].rule == fl.winner.value;
        FirstMatchingIsFirstMatch(w.truth, call.rules, call.data, call.cached, {}, k);
      }
    }
  }
}
