/** What stopping means: a flight that has a match, whose leader was cancelled or whose body is
    over lets no further task evaluate; the pool never runs more than its slots; what had been
    sent before a match is saved with it; and a cancelled caller returns without more work. */
module ProtocolStop {
  import opened Prelude
  import opened Rules
  import opened Classification
  import opened Protocol
  import opened ProtocolInvariant
  import opened ProtocolSafety
  import opened ProtocolOrder
  import opened ProtocolRuns

  // ---- no task evaluates for a stopped flight ----

  /** The leader was cancelled, a match was collected, or the body returned. */
  ghost predicate Stopped(s: State, fl: Flight) {
    || fl.leader in s.cancelled
    || fl.winner != None
    || fl.stage.Finished? || fl.stage.Forgotten? || fl.stage.Published?
  }

  /** The task called its matcher, or is about to. */
  predicate Evaluates(worker: Worker) { worker.Matching? || worker == Sent(false) }

  /** Every task that evaluates afterwards did so before. */
  ghost predicate NoFurtherMatcher(before: seq<Worker>, after: seq<Worker>) {
    forall i :: 0 <= i < |after| && Evaluates(after[i]) ==> i < |before| && Evaluates(before[i])
  }

  lemma SteppedFlightStops(w: World, s: State, step: Step)
    requires Enabled(w, s, step) && IsFlightStep(step) && Stopped(s, s.flights[step.flight])
    ensures step.flight < |Apply(w, s, step).flights|
    ensures NoFurtherMatcher(s.flights[step.flight].workers, Apply(w, s, step).flights[step.flight].workers)
  {
  }

  /** A reason to stop stays one. */
  lemma StaysStopped(s: State, s': State, f: nat)
    requires f < |s.flights| && Remembers(s, s') && Stopped(s, s.flights[f])
    ensures Stopped(s', s'.flights[f])
  {
    assert FlightRemembers(s.flights[f], s'.flights[f]);
  }

  lemma {:induction false} StopHolds(w: World, s: State, steps: seq<Step>, f: nat)
    requires Inv(w, s) && Schedule(w, s, steps) && f < |s.flights| && Stopped(s, s.flights[f])
    ensures f < |After(w, s, steps).flights|
    ensures NoFurtherMatcher(s.flights[f].workers, After(w, s, steps).flights[f].workers)
    decreases |steps|
  {
    if steps != [] {
      var step, s' := steps[0], Apply(w, s, steps[0]);
      StepKeepsInv(w, s, step);
      StepRemembers(w, s, step);
      if IsFlightStep(step) && step.flight == f {
        SteppedFlightStops(w, s, step);
      } else {
        OtherFlightsStay(w, s, step, f);
      }
      StaysStopped(s, s', f);
      StopHolds(w, s', steps[1..], f);
    }
  }

  /** Whatever evaluates or is reported in fl was already past its look among these tasks, and the
      tasks that were queued or submitted since send at most that they bailed out. */
  ghost predicate OnlyTheseEvaluate(before: seq<Worker>, fl: Flight) {
    && |before| <= |fl.workers|
    && (forall i :: 0 <= i < |fl.workers| && Evaluates(fl.workers[i]) ==> i < |before| && Evaluates(before[i]))
    && (forall i :: 0 <= i < |fl.workers| && (i < |before| ==> before[i].Queued?) ==>
          fl.workers[i] in {Queued, Bailing, Sent(true)})
    && (forall k :: 0 <= k < |fl.channel| && fl.channel[k].Evaluated? ==>
          fl.channel[k].worker < |before| && Evaluates(before[fl.channel[k].worker]))
  }

  /** From a reachable state whose flight is stopped, no schedule lets a further task evaluate. */
  lemma StoppedFlightEvaluatesNothing(w: World, s: State, before: seq<Step>, after: seq<Step>, f: nat)
    requires Initial(w, s) && Schedule(w, s, before)
    requires var now := After(w, s, before); f < |now.flights| && Stopped(now, now.flights[f]) && Schedule(w, now, after)
    ensures f < |After(w, After(w, s, before), after).flights|
    ensures OnlyTheseEvaluate(After(w, s, before).flights[f].workers, After(w, After(w, s, before), after).flights[f])
  {
    var now := After(w, s, before);
    ReachableInv(w, s, before);
    StopHolds(w, now, after, f);
    KeepsTasks(w, now, after, f);
    ScheduleKeepsInv(w, now, after);
    StoppedMessages(w, After(w, now, after), now.flights[f].workers, f);
  }

  lemma StoppedMessages(w: World, s: State, before: seq<Worker>, f: nat)
    requires Inv(w, s) && f < |s.flights|
    requires NoFurtherMatcher(before, s.flights[f].workers) && TasksKept(before, s.flights[f].workers)
    ensures OnlyTheseEvaluate(before, s.flights[f])
  {
    FlightOfInv(w, s, f);
    var fl := s.flights[f];
    forall k | 0 <= k < |fl.channel| && fl.channel[k].Evaluated?
      ensures fl.channel[k].worker < |before| && Evaluates(before[fl.channel[k].worker])
    {
      assert ItemOk(fl, fl.channel[k]) && Evaluates(fl.workers[fl.channel[k].worker]);
    }
  }

  /** Until there is such a reason nobody bails out: every task evaluates. */
  lemma UnstoppedFlightEvaluates(w: World, s: State, steps: seq<Step>, f: nat)
    requires Initial(w, s) && Schedule(w, s, steps)
    requires var end := After(w, s, steps); f < |end.flights| && !Stopped(end, end.flights[f])
    ensures var fl := After(w, s, steps).flights[f];
            && (forall i :: 0 <= i < |fl.workers| ==> fl.workers[i] in {Queued, Matching, Sent(false)})
            && (forall k :: 0 <= k < |fl.channel| ==> fl.channel[k].Evaluated?)
  {
    ReachableInv(w, s, steps);
    var end := After(w, s, steps);
    var fl := end.flights[f];
    FlightOfInv(w, end, f);
    forall k | 0 <= k < |fl.channel| ensures fl.channel[k].Evaluated? { assert ItemOk(fl, fl.channel[k]); }
  }

  /** What a task has done is not undone. */
  ghost predicate TaskKept(worker: Worker, worker': Worker) {
    && (worker.Sent? ==> worker' == worker)
    && (worker.Matching? ==> worker' in {Matching, Sent(false)})
    && (worker.Bailing? ==> worker' in {Bailing, Sent(true)})
  }

  ghost predicate TasksKept(before: seq<Worker>, after: seq<Worker>) {
    |before| <= |after| && forall i :: 0 <= i < |before| ==> TaskKept(before[i], after[i])
  }

  lemma SteppedFlightKeepsTasks(w: World, s: State, step: Step)
    requires Enabled(w, s, step) && IsFlightStep(step)
    ensures step.flight < |Apply(w, s, step).flights|
    ensures TasksKept(s.flights[step.flight].workers, Apply(w, s, step).flights[step.flight].workers)
  {
  }

  lemma TasksKeptOn(a: seq<Worker>, b: seq<Worker>, c: seq<Worker>)
    requires TasksKept(a, b) && TasksKept(b, c)
    ensures TasksKept(a, c)
  {
    forall i | 0 <= i < |a| ensures TaskKept(a[i], c[i]) {
      assert TaskKept(a[i], b[i]) && TaskKept(b[i], c[i]);
    }
  }

  lemma {:induction false} KeepsTasks(w: World, s: State, steps: seq<Step>, f: nat)
    requires Schedule(w, s, steps) && f < |s.flights|
    ensures f < |After(w, s, steps).flights|
    ensures TasksKept(s.flights[f].workers, After(w, s, steps).flights[f].workers)
    decreases |steps|
  {
    if steps != [] {
      var step, s' := steps[0], Apply(w, s, steps[0]);
      if IsFlightStep(step) && step.flight == f {
        SteppedFlightKeepsTasks(w, s, step);
      } else {
        OtherFlightsStay(w, s, step, f);
      }
      KeepsTasks(w, s', steps[1..], f);
      TasksKeptOn(s.flights[f].workers, s'.flights[f].workers, After(w, s', steps[1..]).flights[f].workers);
    }
  }

  // ---- the pool ----

  /** The tasks that hold a slot. */
  ghost function Running(s: State): set<(nat, nat)> {
    set f: nat, i: nat | f < |s.flights| && i < |s.flights[f].workers| && !s.flights[f].workers[i].Sent? :: (f, i)
  }

  ghost function RunningIn(workers: seq<Worker>, f: nat): set<(nat, nat)> {
    set i: nat | i < |workers| && !workers[i].Sent? :: (f, i)
  }

  lemma {:induction false} ActiveCounts(workers: seq<Worker>, f: nat)
    ensures |RunningIn(workers, f)| == Active(workers)
  {
    if workers != [] {
      var n := |workers| - 1;
      ActiveCounts(workers[..n], f);
      var rest := RunningIn(workers[..n], f);
      assert (f, n) !in rest;
      assert RunningIn(workers, f) == if workers[n].Sent? then rest else rest + {(f, n)};
    } else {
      assert RunningIn(workers, f) == {};
    }
  }

  lemma RunningSplits(s: State, front: State, n: nat)
    requires |s.flights| == n + 1 && front.flights == s.flights[..n]
    ensures Running(s) == Running(front) + RunningIn(s.flights[n].workers, n)
    ensures Running(front) !! RunningIn(s.flights[n].workers, n)
  {
    assert forall p :: p in Running(front) <==> p in Running(s) && p.0 < n;
    assert forall p :: p in RunningIn(s.flights[n].workers, n) <==> p in Running(s) && p.0 == n;
  }

  lemma {:induction false} BusyCounts(s: State)
    ensures |Running(s)| == Busy(s.flights)
    decreases |s.flights|
  {
    if s.flights != [] {
      var n := |s.flights| - 1;
      var front := s.(flights := s.flights[..n]);
      BusyCounts(front);
      ActiveCounts(s.flights[n].workers, n);
      RunningSplits(s, front, n);
    } else {
      assert Running(s) == {};
    }
  }

  lemma SteppedFlightActive(w: World, s: State, step: Step)
    requires Enabled(w, s, step) && IsFlightStep(step)
    ensures step.flight < |Apply(w, s, step).flights|
    ensures var a, b := Active(s.flights[step.flight].workers), Active(Apply(w, s, step).flights[step.flight].workers);
            b <= a || (step.Submit? && b == a + 1)
  {
    if step.Submit? {
      ActiveAppend(s.flights[step.flight].workers);
    } else if step.Check? || step.Send? {
      ActiveUpdate(s.flights[step.flight].workers, step.worker, Apply(w, s, step).flights[step.flight].workers[step.worker]);
    }
  }

  lemma OnlyOneFlightChanges(w: World, s: State, step: Step)
    requires Enabled(w, s, step) && IsFlightStep(step)
    ensures var s' := Apply(w, s, step);
            |s'.flights| == |s.flights| && s'.flights == s.flights[step.flight := s'.flights[step.flight]]
  {
  }

  lemma StepKeepsSlots(w: World, s: State, step: Step)
    requires Enabled(w, s, step) && Busy(s.flights) <= w.poolSize
    ensures Busy(Apply(w, s, step).flights) <= w.poolSize
  {
    var s' := Apply(w, s, step);
    OnlyLeadAddsFlights(w, s, step);
    if IsFlightStep(step) {
      OnlyOneFlightChanges(w, s, step);
      SteppedFlightActive(w, s, step);
      BusyUpdate(s.flights, step.flight, s'.flights[step.flight]);
    } else if step.Lead? {
      BusyAppend(s.flights, NewFlight(s.calls[step.call], step.call));
    } else {
      assert forall f :: 0 <= f < |s.flights| ==> s'.flights[f] == s.flights[f];
      assert s'.flights == s.flights;
    }
  }

  lemma {:induction false} ScheduleKeepsSlots(w: World, s: State, steps: seq<Step>)
    requires Schedule(w, s, steps) && Busy(s.flights) <= w.poolSize
    ensures Busy(After(w, s, steps).flights) <= w.poolSize
    decreases |steps|
  {
    if steps != [] {
      StepKeepsSlots(w, s, steps[0]);
      ScheduleKeepsSlots(w, Apply(w, s, steps[0]), steps[1..]);
    }
  }

  /** Never more tasks in the pool than it has slots, over all flights together. */
  lemma PoolIsBounded(w: World, s: State, steps: seq<Step>)
    requires Initial(w, s) && Schedule(w, s, steps)
    ensures |Running(After(w, s, steps))| <= w.poolSize
  {
    ScheduleKeepsSlots(w, s, steps);
    BusyCounts(After(w, s, steps));
  }

  // ---- what was sent before a match is saved with it ----

  /** Task i's outcome is recorded, still buffered for a running collection, or was given up by a
      body that returned without a match. */
  ghost predicate InHand(fl: Flight, i: int)
    requires 0 <= i < |fl.missing|
  {
    || fl.missing[i].entity in fl.results
    || (!fl.stage.Saving? && !BodyOver(fl.stage) && WorkerItem(fl, i) in fl.channel)
    || (BodyOver(fl.stage) && fl.winner == None)
  }

  lemma TakenInHand(fl: Flight, fl': Flight, i: nat)
    requires i < |fl.missing| && InHand(fl, i) && SameFlight(fl, fl') && !BodyOver(fl.stage) && !fl.stage.Saving?
    requires fl.channel != [] && fl'.channel == fl.channel[1..] && !BodyOver(fl'.stage)
    requires var item := fl.channel[0];
             fl'.results == if item.Evaluated? then fl.results[item.entity := item.matched] else fl.results
    requires fl'.stage.Saving? ==> fl'.channel == []
    ensures InHand(fl', i)
  {
    if fl.missing[i].entity !in fl.results {
      var k :| 0 <= k < |fl.channel| && fl.channel[k] == WorkerItem(fl, i);
      if k > 0 { assert fl'.channel[k - 1] == WorkerItem(fl', i); }
    }
  }

  lemma SteppedFlightInHand(w: World, s: State, step: Step, i: nat)
    requires Enabled(w, s, step) && IsFlightStep(step)
    requires var fl := s.flights[step.flight];
             i < |fl.workers| <= |fl.missing| && InHand(fl, i) && FlightOk(w, s.cancelled, s.poolOpen, fl)
    ensures step.flight < |Apply(w, s, step).flights|
    ensures SameFlight(s.flights[step.flight], Apply(w, s, step).flights[step.flight])
    ensures InHand(Apply(w, s, step).flights[step.flight], i)
  {
    var fl, fl' := s.flights[step.flight], Apply(w, s, step).flights[step.flight];
    if step.Receive? || step.Drain? {
      TakenInHand(fl, if step.Receive? then Collected(fl) else Drained(fl), i);
    } else {
      QuietStepInHand(w, s, step, i);
    }
  }

  lemma QuietStepInHand(w: World, s: State, step: Step, i: nat)
    requires Enabled(w, s, step) && IsFlightStep(step) && !step.Receive? && !step.Drain?
    requires var fl := s.flights[step.flight];
             i < |fl.workers| <= |fl.missing| && InHand(fl, i) && FlightOk(w, s.cancelled, s.poolOpen, fl)
    ensures step.flight < |Apply(w, s, step).flights|
    ensures SameFlight(s.flights[step.flight], Apply(w, s, step).flights[step.flight])
    ensures InHand(Apply(w, s, step).flights[step.flight], i)
  {
  }

  lemma {:induction false} StaysInHand(w: World, s: State, steps: seq<Step>, f: nat, i: nat)
    requires Inv(w, s) && Schedule(w, s, steps) && f < |s.flights| && i < |s.flights[f].workers| <= |s.flights[f].missing|
    requires InHand(s.flights[f], i)
    ensures f < |After(w, s, steps).flights| && SameFlight(s.flights[f], After(w, s, steps).flights[f])
    ensures InHand(After(w, s, steps).flights[f], i)
    decreases |steps|
  {
    if steps != [] {
      var step, s' := steps[0], Apply(w, s, steps[0]);
      FlightOfInv(w, s, f);
      KeepsTasks(w, s, [step], f);
      if IsFlightStep(step) && step.flight == f {
        SteppedFlightInHand(w, s, step, i);
      } else {
        OtherFlightsStay(w, s, step, f);
      }
      StepKeepsInv(w, s, step);
      FlightOfInv(w, s', f);
      StaysInHand(w, s', steps[1..], f, i);
    }
  }

  /** A persisted save stores every negative of the results. */
  lemma SaveStores(w: World, s: State, f: nat, e: Entity)
    requires Enabled(w, s, Save(f, true)) && e in s.flights[f].results && !s.flights[f].results[e]
    ensures var key, hashes := s.flights[f].key, Apply(w, s, Save(f, true)).hashes;
            key in hashes && e in hashes[key] && !hashes[key][e]
  {
    assert e in Negatives(s.flights[f].results);
  }

  lemma RecordedIsStored(w: World, s: State, f: nat, i: nat)
    requires Inv(w, s) && Enabled(w, s, Save(f, true)) && i < |s.flights[f].missing| && InHand(s.flights[f], i)
    ensures SavedOutcome(w, s, f, i)
  {
    FlightOfInv(w, s, f);
    var fl := s.flights[f];
    if !fl.missing[i].rule.matcher.matches(fl.key) { SaveStores(w, s, f, fl.missing[i].entity); }
  }

  /** The outcome is among the results, and if the save succeeds a negative one is stored. */
  ghost predicate SavedOutcome(w: World, s: State, f: nat, i: nat)
    requires Enabled(w, s, Save(f, true)) && i < |s.flights[f].missing|
  {
    var fl, hashes := s.flights[f], Apply(w, s, Save(f, true)).hashes;
    && fl.missing[i].entity in fl.results
    && (!fl.missing[i].rule.matcher.matches(fl.key) ==>
          fl.key in hashes && fl.missing[i].entity in hashes[fl.key] && !hashes[fl.key][fl.missing[i].entity])
  }

  /** Whatever a task had sent while the collection ran is there when the body comes to its save. */
  lemma FinishedWorkIsSaved(w: World, s: State, before: seq<Step>, after: seq<Step>, f: nat, i: nat)
    requires Initial(w, s) && Schedule(w, s, before) && Schedule(w, After(w, s, before), after)
    requires var fl := After(w, s, before).flights;
             f < |fl| && i < |fl[f].workers| && fl[f].workers[i] == Sent(false) && !fl[f].stage.Saving? && !BodyOver(fl[f].stage)
    requires Enabled(w, After(w, After(w, s, before), after), Save(f, true))
    ensures i < |After(w, After(w, s, before), after).flights[f].missing|
    ensures SavedOutcome(w, After(w, After(w, s, before), after), f, i)
  {
    var now := After(w, s, before);
    ReachableInv(w, s, before);
    FlightOfInv(w, now, f);
    assert Delivered(now.flights[f], i);
    StaysInHand(w, now, after, f, i);
    ScheduleKeepsInv(w, now, after);
    RecordedIsStored(w, After(w, now, after), f, i);
  }

  // ---- a cancelled caller ----

  lemma SteppedCallEvaluatesNothing(w: World, s: State, step: Step)
    requires w.concurrent && Enabled(w, s, step) && IsCaller(step) && step.call in s.cancelled
    requires !s.calls[step.call].phase.SavingResidual?
    ensures step.call < |Apply(w, s, step).calls|
    ensures var call, call' := s.calls[step.call], Apply(w, s, step).calls[step.call];
            !call'.phase.SavingResidual? && call'.saves == call.saves
  {
  }

  /** A cancelled caller of the concurrent runner evaluates and saves no residual any more. */
  lemma {:induction false} CancelledCallEvaluatesNothing(w: World, s: State, steps: seq<Step>, c: nat)
    requires w.concurrent && Schedule(w, s, steps) && c < |s.calls| && c in s.cancelled
    requires !s.calls[c].phase.SavingResidual?
    ensures c < |After(w, s, steps).calls|
    ensures var call := After(w, s, steps).calls[c];
            !call.phase.SavingResidual? && call.saves == s.calls[c].saves
    decreases |steps|
  {
    if steps != [] {
      var step := steps[0];
      StepOnlyGrows(w, s, step);
      if IsCaller(step) && step.call == c {
        SteppedCallEvaluatesNothing(w, s, step);
      } else {
        OtherCallsStay(w, s, step, c);
      }
      CancelledCallEvaluatesNothing(w, Apply(w, s, step), steps[1..], c);
    }
  }

  /** A cancelled caller waiting for a shared flight can return at once, with nothing. */
  lemma CancelledWaiterReturns(w: World, s: State, before: seq<Step>, c: nat)
    requires w.coalesce && Initial(w, s) && Schedule(w, s, before)
    requires var now := After(w, s, before); c < |now.calls| && c in now.cancelled && now.calls[c].phase.Waiting?
    ensures var now := After(w, s, before);
            && Enabled(w, now, Abandon(c))
            && Apply(w, now, Abandon(c)) == now.(calls := now.calls[c := now.calls[c].(phase := Returned(None))])
  {
    var now := After(w, s, before);
    ReachableInv(w, s, before);
    CallIsAttached(w, now, c);
    PartialAnswer(w, now.calls[c], map[]);
  }

  ghost predicate LeadsCollection(s: State, c: nat, f: nat) {
    && c < |s.calls| && c in s.cancelled && s.calls[c].phase.Waiting? && s.calls[c].flight == Some(f)
    && f < |s.flights| && s.flights[f].stage.Collecting? && s.flights[f].leader == c
  }

  /** A body that returned has its key forgotten and its value published. */
  lemma ForgetsAndPublishes(w: World, s: State, f: nat) returns (steps: seq<Step>, end: State)
    requires f < |s.flights| && s.flights[f].stage.Finished?
    ensures LeadsTo(w, s, steps, end) && |steps| == 2
    ensures end.calls == s.calls && end.cancelled == s.cancelled && end.hashes == s.hashes && f < |end.flights|
    ensures end.flights[f] == s.flights[f].(stage := Published(s.flights[f].stage.value))
  {
    var s1 := Apply(w, s, Forget(f));
    end := Apply(w, s1, Publish(f));
    steps := SystemThen(w, s1, Publish(f), end, []);
    steps := SystemThen(w, s, Forget(f), s1, steps);
  }

  /** A stopped collection returns and publishes what it collected. */
  lemma StopsAndPublishes(w: World, s: State, f: nat) returns (steps: seq<Step>, end: State)
    requires f < |s.flights| && s.flights[f].stage.Collecting? && s.flights[f].leader in s.cancelled
    ensures LeadsTo(w, s, steps, end) && |steps| == 3
    ensures end.calls == s.calls && end.cancelled == s.cancelled && end.hashes == s.hashes && f < |end.flights|
    ensures end.flights[f] == s.flights[f].(stage := Published(Some(s.flights[f].results)))
  {
    var s1 := Apply(w, s, StopCollecting(f));
    steps, end := ForgetsAndPublishes(w, s1, f);
    steps := SystemThen(w, s, StopCollecting(f), s1, steps);
  }

  /** A cancelled leader that is collecting can return within four steps: no task has to finish, and
      nothing is saved. */
  lemma CancelledLeaderReturns(w: World, s: State, c: nat, f: nat) returns (steps: seq<Step>)
    requires w.concurrent && LeadsCollection(s, c, f)
    ensures Schedule(w, s, steps) && SystemOnly(steps) && |steps| == 4
    ensures var end := After(w, s, steps);
            && c < |end.calls| && end.calls[c].phase.Returned?
            && end.hashes == s.hashes && f < |end.flights| && end.flights[f].workers == s.flights[f].workers
            && end.flights[f].channel == s.flights[f].channel && end.flights[f].saves == s.flights[f].saves
  {
    var first, published := StopsAndPublishes(w, s, f);
    var last := SystemThen(w, published, Resume(c), Apply(w, published, Resume(c)), []);
    ScheduleAppend(w, s, first, last);
    steps := first + last;
  }

  /** The call resumed on a serial runner: it has the first match, or only its residual left. */
  ghost predicate Settling(call: Call) {
    call.phase.SavingResidual? || (call.phase.Returned? && call.phase.outcome == FirstMatch(call.rules, call.data))
  }

  lemma ResumesSettling(w: World, s: State, c: nat)
    requires !w.concurrent && Inv(w, s) && Enabled(w, s, Resume(c))
    ensures Settling(Apply(w, s, Resume(c)).calls[c])
  {
    var call, fl := s.calls[c], s.flights[s.calls[c].flight.value];
    CallIsAttached(w, s, c);
    FlightOfInv(w, s, call.flight.value);
    PartialAnswer(w, call, fl.results);
    if Residual(call.Missing(), fl.results) == [] { NoResidualIsCovered(call.Missing(), fl.results); }
  }

  lemma StaysSettling(w: World, s: State, step: Step, c: nat)
    requires Inv(w, s) && Enabled(w, s, step) && c < |s.calls| && Settling(s.calls[c])
    ensures c < |Apply(w, s, step).calls| && Settling(Apply(w, s, step).calls[c])
  {
    if IsCaller(step) && step.call == c {
      CallIsAttached(w, s, c);
      ResidualCompletes(w, s.calls[c], s.calls[c].phase.shared);
    } else {
      OtherCallsStay(w, s, step, c);
    }
  }

  lemma {:induction false} SettlingHolds(w: World, s: State, steps: seq<Step>, c: nat)
    requires Inv(w, s) && Schedule(w, s, steps) && c < |s.calls| && Settling(s.calls[c])
    ensures c < |After(w, s, steps).calls| && Settling(After(w, s, steps).calls[c])
    decreases |steps|
  {
    if steps != [] {
      StaysSettling(w, s, steps[0], c);
      StepKeepsInv(w, s, steps[0]);
      SettlingHolds(w, Apply(w, s, steps[0]), steps[1..], c);
    }
  }

  /** A serial call that received its flight's value answers the first match, cancelled or not: only
      one that gave up waiting answers nothing instead. */
  lemma SerialResumedAnswers(w: World, s: State, before: seq<Step>, c: nat, after: seq<Step>)
    requires !w.concurrent && Initial(w, s) && Schedule(w, s, before) && Enabled(w, After(w, s, before), Resume(c))
    requires Schedule(w, Apply(w, After(w, s, before), Resume(c)), after)
    ensures var end := After(w, Apply(w, After(w, s, before), Resume(c)), after);
            && c < |end.calls|
            && (end.calls[c].phase.Returned? ==> end.calls[c].phase.outcome == FirstMatch(end.calls[c].rules, end.calls[c].data))
  {
    var now := After(w, s, before);
    ReachableInv(w, s, before);
    ResumesSettling(w, now, c);
    StepKeepsInv(w, now, Resume(c));
    SettlingHolds(w, Apply(w, now, Resume(c)), after, c);
  }
}
