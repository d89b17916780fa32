/** A cancelled collection that still saves: exactly when one can, and a run that does. */
module ProtocolCancel {
  import opened Prelude
  import opened Rules
  import opened Classification
  import opened Protocol
  import opened ProtocolInvariant
  import opened ProtocolSafety
  import opened ProtocolProgress
  import opened ProtocolRuns
  import opened Collector

  /** Task i got past its look at the context and does not match. */
  ghost predicate EvaluatesNegative(fl: Flight, i: int) {
    && 0 <= i < |fl.workers| && i < |fl.missing|
    && (fl.workers[i].Matching? || fl.workers[i] == Sent(false))
    && !fl.missing[i].rule.matcher.matches(fl.key)
  }

  // ---- every recorded outcome was sent by a task ----

  ghost predicate ReportedBy(fl: Flight, entity: Entity, i: int) {
    0 <= i < |fl.workers| && i < |fl.missing| && fl.workers[i] == Sent(false) && fl.missing[i].entity == entity
  }

  ghost predicate Recorded(fl: Flight) {
    forall e :: e in fl.results ==> exists i :: ReportedBy(fl, e, i)
  }

  ghost predicate AllRecorded(s: State) {
    forall f :: 0 <= f < |s.flights| ==> Recorded(s.flights[f])
  }

  /** Tasks that sent stay sent, and only the received item's entity is new. */
  lemma RecordedStays(fl: Flight, fl': Flight)
    requires Recorded(fl) && SameFlight(fl, fl') && |fl.workers| <= |fl'.workers|
    requires forall i :: 0 <= i < |fl.workers| && fl.workers[i] == Sent(false) ==> fl'.workers[i] == Sent(false)
    requires forall e :: e in fl'.results && e !in fl.results ==> exists i :: ReportedBy(fl', e, i)
    ensures Recorded(fl')
  {
    forall e | e in fl'.results ensures exists i :: ReportedBy(fl', e, i) {
      if e in fl.results {
        var i :| ReportedBy(fl, e, i);
        assert ReportedBy(fl', e, i);
      }
    }
  }

  lemma TakenIsRecorded(fl: Flight, fl': Flight)
    requires Recorded(fl) && SameFlight(fl, fl') && fl.workers == fl'.workers
    requires fl.channel != [] && ItemOk(fl, fl.channel[0])
    requires fl'.results == fl.results
             || (fl.channel[0].Evaluated? && fl'.results == fl.results[fl.channel[0].entity := fl.channel[0].matched])
    ensures Recorded(fl')
  {
    var item := fl.channel[0];
    if item.Evaluated? { assert ReportedBy(fl', item.entity, item.worker); }
    RecordedStays(fl, fl');
  }

  lemma SteppedFlightRecorded(w: World, s: State, step: Step)
    requires w.concurrent && Enabled(w, s, step) && IsFlightStep(step)
    requires FlightOk(w, s.cancelled, s.poolOpen, s.flights[step.flight]) && Recorded(s.flights[step.flight])
    ensures step.flight < |Apply(w, s, step).flights| && Recorded(Apply(w, s, step).flights[step.flight])
  {
    var fl := s.flights[step.flight];
    if step.Receive? {
      assert ItemOk(fl, fl.channel[0]);
      TakenIsRecorded(fl, Collected(fl));
    } else if step.Drain? {
      assert ItemOk(fl, fl.channel[0]);
      TakenIsRecorded(fl, Drained(fl));
    } else {
      QuietFlightStep(w, s, step);
      RecordedStays(fl, Apply(w, s, step).flights[step.flight]);
    }
  }

  /** Apart from receiving and draining, a step leaves the results and what was sent. */
  lemma QuietFlightStep(w: World, s: State, step: Step)
    requires w.concurrent && Enabled(w, s, step) && IsFlightStep(step) && !step.Receive? && !step.Drain?
    ensures var fl, fl' := s.flights[step.flight], Apply(w, s, step).flights[step.flight];
            && SameFlight(fl, fl') && |fl.workers| <= |fl'.workers| && fl'.results == fl.results
            && (forall i :: 0 <= i < |fl.workers| && fl.workers[i] == Sent(false) ==> fl'.workers[i] == Sent(false))
  {
  }

  lemma StepKeepsRecorded(w: World, s: State, step: Step, f: nat)
    requires w.concurrent && Inv(w, s) && Enabled(w, s, step) && AllRecorded(s) && f < |Apply(w, s, step).flights|
    ensures Recorded(Apply(w, s, step).flights[f])
  {
    OnlyLeadAddsFlights(w, s, step);
    if IsFlightStep(step) && step.flight == f {
      FlightOfInv(w, s, f);
      SteppedFlightRecorded(w, s, step);
    } else if f < |s.flights| {
      OtherFlightsStay(w, s, step, f);
    }
  }

  lemma {:induction false} ScheduleKeepsRecorded(w: World, s: State, steps: seq<Step>)
    requires w.concurrent && Inv(w, s) && AllRecorded(s) && Schedule(w, s, steps)
    ensures AllRecorded(After(w, s, steps))
    decreases |steps|
  {
    if steps != [] {
      var s' := Apply(w, s, steps[0]);
      forall f | 0 <= f < |s'.flights| ensures Recorded(s'.flights[f]) { StepKeepsRecorded(w, s, steps[0], f); }
      StepKeepsInv(w, s, steps[0]);
      ScheduleKeepsRecorded(w, s', steps[1..]);
    }
  }

  // ---- without an evaluated negative nothing is ever saved ----

  /** Nothing false was recorded and no task will report anything false. */
  ghost predicate Barren(fl: Flight) {
    && fl.saves == 0
    && (forall i :: !EvaluatesNegative(fl, i))
    && (forall e :: e in fl.results ==> fl.results[e])
  }

  lemma SteppedFlightBarren(w: World, s: State, step: Step)
    requires w.concurrent && Enabled(w, s, step) && IsFlightStep(step)
    requires var fl := s.flights[step.flight];
             FlightOk(w, s.cancelled, s.poolOpen, fl) && fl.leader in s.cancelled && Barren(fl)
    ensures step.flight < |Apply(w, s, step).flights| && Barren(Apply(w, s, step).flights[step.flight])
  {
    var fl := s.flights[step.flight];
    if step.Receive? || step.Drain? {
      var item := fl.channel[0];
      assert ItemOk(fl, item);
      if item.Evaluated? { assert !EvaluatesNegative(fl, item.worker); }
      TakenIsBarren(fl, if step.Receive? then Collected(fl) else Drained(fl));
    } else if step.Save? {
      assert Negatives(fl.results) == map[];
      SameTasksBarren(fl, Apply(w, s, step).flights[step.flight]);
    } else {
      BarrenFlightStep(w, s, step);
      SameTasksBarren(fl, Apply(w, s, step).flights[step.flight]);
    }
  }

  lemma TakenIsBarren(fl: Flight, fl': Flight)
    requires Barren(fl) && fl.channel != [] && (fl.channel[0].Evaluated? ==> fl.channel[0].matched)
    requires SameFlight(fl, fl') && fl'.workers == fl.workers && fl'.saves == 0
    requires var item := fl.channel[0];
             fl'.results == if item.Evaluated? then fl.results[item.entity := item.matched] else fl.results
    ensures Barren(fl')
  {
    forall i ensures !EvaluatesNegative(fl', i) { assert !EvaluatesNegative(fl, i); }
  }

  /** A task past its look was past it, or is a new one that has not looked yet, or bails out. */
  ghost predicate NoNewEvaluation(fl: Flight, fl': Flight) {
    forall i :: 0 <= i < |fl'.workers| && (fl'.workers[i].Matching? || fl'.workers[i] == Sent(false)) ==>
      i < |fl.workers| && (fl.workers[i].Matching? || fl.workers[i] == Sent(false))
  }

  lemma SameTasksBarren(fl: Flight, fl': Flight)
    requires Barren(fl) && SameFlight(fl, fl') && NoNewEvaluation(fl, fl') && fl'.results == fl.results && fl'.saves == 0
    ensures Barren(fl')
  {
    forall i ensures !EvaluatesNegative(fl', i) { assert !EvaluatesNegative(fl, i); }
  }

  /** Under a cancelled leader no task gets past its look any more. */
  lemma BarrenFlightStep(w: World, s: State, step: Step)
    requires w.concurrent && Enabled(w, s, step) && IsFlightStep(step) && s.flights[step.flight].leader in s.cancelled
    requires !step.Receive? && !step.Drain? && !step.Save?
    ensures var fl, fl' := s.flights[step.flight], Apply(w, s, step).flights[step.flight];
            SameFlight(fl, fl') && NoNewEvaluation(fl, fl') && fl'.results == fl.results && fl'.saves == fl.saves
  {
  }

  lemma {:induction false} BarrenNeverSaves(w: World, s: State, steps: seq<Step>, f: nat)
    requires w.concurrent && Inv(w, s) && Schedule(w, s, steps)
    requires f < |s.flights| && s.flights[f].leader in s.cancelled && Barren(s.flights[f])
    ensures f < |After(w, s, steps).flights| && After(w, s, steps).flights[f].saves == 0
    decreases |steps|
  {
    if steps != [] {
      var step := steps[0];
      FlightOfInv(w, s, f);
      StepRemembers(w, s, step);
      if IsFlightStep(step) && step.flight == f {
        SteppedFlightBarren(w, s, step);
      } else {
        OtherFlightsStay(w, s, step, f);
      }
      StepKeepsInv(w, s, step);
      assert FlightRemembers(s.flights[f], Apply(w, s, step).flights[f]);
      BarrenNeverSaves(w, Apply(w, s, step), steps[1..], f);
    }
  }

  lemma BarrenUnlessEvaluated(w: World, s: State, f: nat)
    requires Inv(w, s) && f < |s.flights| && s.flights[f].stage.Collecting? && Recorded(s.flights[f])
    requires forall i :: !EvaluatesNegative(s.flights[f], i)
    ensures Barren(s.flights[f])
  {
    FlightOfInv(w, s, f);
    var fl := s.flights[f];
    forall e | e in fl.results ensures fl.results[e] {
      var i :| ReportedBy(fl, e, i);
      assert !EvaluatesNegative(fl, i);
    }
  }

  // ---- with one, some run saves ----

  /** Only tasks and channel differ, and a task past its look stays past it. */
  ghost predicate TasksRan(fl: Flight, fl': Flight) {
    && fl' == fl.(workers := fl'.workers, channel := fl'.channel) && |fl'.workers| == |fl.workers|
    && (forall i :: 0 <= i < |fl.workers| && (fl.workers[i].Matching? || fl.workers[i] == Sent(false)) ==>
          fl'.workers[i].Matching? || fl'.workers[i] == Sent(false))
  }

  lemma TaskStep(w: World, s: State, f: nat) returns (step: Step, fl: Flight)
    requires Inv(w, s) && f < |s.flights| && Active(s.flights[f].workers) > 0
    ensures Enabled(w, s, step) && (step.Check? || step.Send?)
    ensures Apply(w, s, step) == SetFlight(s, f, fl) && TasksRan(s.flights[f], fl)
  {
    FlightOfInv(w, s, f);
    var i := ActiveWorker(s.flights[f].workers);
    step := if s.flights[f].workers[i].Queued? then Check(f, i) else Send(f, i);
    fl := Apply(w, s, step).flights[f];
  }

  lemma TaskStepWorks(w: World, s: State, f: nat) returns (step: Step, fl: Flight)
    requires Inv(w, s) && f < |s.flights| && Active(s.flights[f].workers) > 0
    ensures Enabled(w, s, step) && !IsEnvironment(step) && Apply(w, s, step) == SetFlight(s, f, fl)
    ensures TasksRan(s.flights[f], fl) && Inv(w, SetFlight(s, f, fl)) && Work(SetFlight(s, f, fl)) < Work(s)
  {
    step, fl := TaskStep(w, s, f);
    StepWorks(w, s, step);
    StepKeepsInv(w, s, step);
  }

  lemma TasksRanOn(s: State, f: nat, fl1: Flight, fl2: Flight)
    requires f < |s.flights| && TasksRan(s.flights[f], fl1) && TasksRan(fl1, fl2)
    ensures TasksRan(s.flights[f], fl2)
    ensures SetFlight(SetFlight(s, f, fl1), f, fl2) == SetFlight(s, f, fl2)
  {
  }

  /** Running every task of a flight until it has sent. */
  lemma {:induction false} RunTasks(w: World, s: State, f: nat) returns (steps: seq<Step>, fl: Flight)
    requires Inv(w, s) && f < |s.flights|
    ensures Schedule(w, s, steps) && SystemOnly(steps) && After(w, s, steps) == SetFlight(s, f, fl)
    ensures TasksRan(s.flights[f], fl) && Active(fl.workers) == 0 && Inv(w, SetFlight(s, f, fl))
    decreases Work(s)
  {
    if Active(s.flights[f].workers) == 0 {
      steps, fl := [], s.flights[f];
      assert SetFlight(s, f, fl) == s;
    } else {
      var step, fl1 := TaskStepWorks(w, s, f);
      var rest;
      rest, fl := RunTasks(w, SetFlight(s, f, fl1), f);
      steps := SystemThen(w, s, step, SetFlight(s, f, fl1), rest);
      TasksRanOn(s, f, fl1, fl);
    }
  }

  /** With every task's message there, the collecting loop ends at the save with an empty channel. */
  lemma {:induction false} CollectsAll(fl: Flight, stopAt: nat)
    requires Collects(fl.stage) && |fl.workers| <= stopAt
    requires fl.stage.Collecting? ==> fl.received + |fl.channel| == |fl.workers| && fl.channel != []
    ensures var end := Collection(fl, stopAt);
            end.stage == Saving && end.channel == [] && end.workers == fl.workers && SameFlight(fl, end)
    decreases |fl.channel|, if Collects(fl.stage) then 1 else 0
  {
    var next := CollectOnce(fl, stopAt);
    if Collects(next.stage) { CollectsAll(next, stopAt); }
  }

  /** A delivered negative is among what a body saves. */
  lemma NegativeIsSaved(w: World, cancelled: set<nat>, poolOpen: bool, fl: Flight, i: nat)
    requires FlightOk(w, cancelled, poolOpen, fl) && fl.channel == []
    requires i < |fl.workers| && EvaluatesNegative(fl, i) && fl.workers[i] == Sent(false)
    ensures fl.missing[i].entity in Negatives(fl.results)
  {
    assert Delivered(fl, i);
  }

  /** Once every task has sent, collecting and saving. */
  lemma CollectsAndSaves(w: World, s: State, f: nat, i: nat) returns (steps: seq<Step>)
    requires w.concurrent && Inv(w, s) && f < |s.flights| && s.flights[f].stage.Collecting?
    requires Active(s.flights[f].workers) == 0
    requires i < |s.flights[f].workers| && EvaluatesNegative(s.flights[f], i)
    ensures SavingRun(w, s, steps, f)
    ensures var fl, hashes := s.flights[f], After(w, s, steps).hashes;
            fl.key in hashes && fl.missing[i].entity in hashes[fl.key]
  {
    var fl := s.flights[f];
    FlightOfInv(w, s, f);
    NoneActive(fl.workers);
    CollectsAll(fl, |fl.workers|);
    var collect := CollectionIsSchedule(w, s, f, |fl.workers|);
    ScheduleKeepsInv(w, s, collect);
    var fl' := Collection(fl, |fl.workers|);
    FlightOfInv(w, SetFlight(s, f, fl'), f);
    NegativeIsSaved(w, s.cancelled, s.poolOpen, fl', i);
    var save := SaveStep(w, SetFlight(s, f, fl'), f, fl'.missing[i].entity);
    steps := SystemJoin(w, s, collect, SetFlight(s, f, fl'), save);
  }

  lemma SaveStep(w: World, s: State, f: nat, entity: Entity) returns (steps: seq<Step>)
    requires f < |s.flights| && s.flights[f].stage.Saving? && s.flights[f].saves == 0
    requires entity in Negatives(s.flights[f].results)
    ensures SavingRun(w, s, steps, f)
    ensures var fl, hashes := s.flights[f], After(w, s, steps).hashes;
            fl.key in hashes && entity in hashes[fl.key]
  {
    Then(w, s, Save(f, true), []);
    steps := [Save(f, true)] + [];
  }

  /** From a state whose flight evaluated a negative, its save. */
  lemma SavesNegative(w: World, s: State, f: nat, i: nat) returns (steps: seq<Step>)
    requires w.concurrent && Inv(w, s) && f < |s.flights| && s.flights[f].stage.Collecting?
    requires EvaluatesNegative(s.flights[f], i)
    ensures SavingRun(w, s, steps, f)
    ensures var fl, hashes := s.flights[f], After(w, s, steps).hashes;
            fl.key in hashes && fl.missing[i].entity in hashes[fl.key]
  {
    var run, fl := RunTasks(w, s, f);
    assert EvaluatesNegative(fl, i);
    var rest := CollectsAndSaves(w, SetFlight(s, f, fl), f, i);
    steps := SystemJoin(w, s, run, SetFlight(s, f, fl), rest);
  }

  /** A run of the runner's own parties in which the flight issues its save. */
  ghost predicate SavingRun(w: World, s: State, steps: seq<Step>, f: nat) {
    Schedule(w, s, steps) && SystemOnly(steps)
    && f < |After(w, s, steps).flights| && After(w, s, steps).flights[f].saves == 1
  }

  /** A collection whose leader was cancelled can still save exactly when some task had got past
      its look at the context, or already sent its outcome, and does not match. */
  lemma CancelledSaveIff(w: World, s: State, f: nat)
    requires w.concurrent && Inv(w, s) && AllRecorded(s)
    requires f < |s.flights| && s.flights[f].stage.Collecting? && s.flights[f].leader in s.cancelled
    ensures (exists steps :: SavingRun(w, s, steps, f)) <==> (exists i :: EvaluatesNegative(s.flights[f], i))
  {
    if i :| EvaluatesNegative(s.flights[f], i) {
      var steps := SavesNegative(w, s, f, i);
    } else {
      BarrenUnlessEvaluated(w, s, f);
      forall steps ensures !SavingRun(w, s, steps, f) {
        if Schedule(w, s, steps) { BarrenNeverSaves(w, s, steps, f); }
      }
    }
  }

  /** The same for every state a schedule reaches. */
  lemma ReachableCancelledSaveIff(w: World, s: State, before: seq<Step>, f: nat)
    requires w.concurrent && Initial(w, s) && Schedule(w, s, before)
    requires var now := After(w, s, before);
             f < |now.flights| && now.flights[f].stage.Collecting? && now.flights[f].leader in now.cancelled
    ensures var now := After(w, s, before);
            (exists steps :: SavingRun(w, now, steps, f)) <==> (exists i :: EvaluatesNegative(now.flights[f], i))
  {
    ReachableInv(w, s, before);
    ScheduleKeepsRecorded(w, s, before);
    CancelledSaveIff(w, After(w, s, before), f);
  }

  // ---- a flight that is still submitting ----

  /** Some of its tasks can no longer be submitted, so its body can only return without results. */
  ghost predicate Doomed(fl: Flight) {
    fl.saves == 0 && (fl.stage.Evaluating? || (BodyOver(fl.stage) && fl.stage.value.None?))
  }

  lemma SteppedFlightDoomed(w: World, s: State, step: Step)
    requires w.concurrent && !s.poolOpen && Enabled(w, s, step) && IsFlightStep(step) && Doomed(s.flights[step.flight])
    ensures step.flight < |Apply(w, s, step).flights| && Doomed(Apply(w, s, step).flights[step.flight])
  {
  }

  lemma PoolStaysClosed(w: World, s: State, step: Step)
    requires Enabled(w, s, step) && !s.poolOpen
    ensures !Apply(w, s, step).poolOpen
  {
  }

  lemma {:induction false} DoomedNeverSaves(w: World, s: State, steps: seq<Step>, f: nat)
    requires w.concurrent && !s.poolOpen && Schedule(w, s, steps) && f < |s.flights| && Doomed(s.flights[f])
    ensures f < |After(w, s, steps).flights| && After(w, s, steps).flights[f].saves == 0
    decreases |steps|
  {
    if steps != [] {
      var step := steps[0];
      PoolStaysClosed(w, s, step);
      if IsFlightStep(step) && step.flight == f {
        SteppedFlightDoomed(w, s, step);
      } else {
        OtherFlightsStay(w, s, step, f);
      }
      DoomedNeverSaves(w, Apply(w, s, step), steps[1..], f);
    }
  }

  /** Only tasks ran, whosever they were. */
  ghost predicate AllRan(s: State, s': State) {
    s' == s.(flights := s'.flights) && |s'.flights| == |s.flights|
    && forall g :: 0 <= g < |s.flights| ==> TasksRan(s.flights[g], s'.flights[g])
  }

  lemma OneRan(s: State, g: nat, fl: Flight)
    requires g < |s.flights| && TasksRan(s.flights[g], fl)
    ensures AllRan(s, SetFlight(s, g, fl))
  {
  }

  lemma AllRanOn(s: State, s1: State, s2: State)
    requires AllRan(s, s1) && AllRan(s1, s2)
    ensures AllRan(s, s2)
  {
    forall g | 0 <= g < |s.flights| ensures TasksRan(s.flights[g], s2.flights[g]) {
      assert TasksRan(s.flights[g], s1.flights[g]) && TasksRan(s1.flights[g], s2.flights[g]);
    }
  }

  /** Running every task in the pool frees all its slots. */
  lemma {:induction false} FreeSlots(w: World, s: State) returns (steps: seq<Step>, end: State)
    requires Inv(w, s)
    ensures LeadsTo(w, s, steps, end) && AllRan(s, end) && Inv(w, end) && Busy(end.flights) == 0
    decreases Work(s)
  {
    if Busy(s.flights) == 0 {
      steps, end := [], s;
    } else {
      var g := BusyFlight(s.flights);
      var step, fl := TaskStepWorks(w, s, g);
      OneRan(s, g, fl);
      var rest;
      rest, end := FreeSlots(w, SetFlight(s, g, fl));
      AllRanOn(s, SetFlight(s, g, fl), end);
      steps := SystemThen(w, s, step, SetFlight(s, g, fl), rest);
    }
  }

  /** One more task submitted, after waiting for a slot. */
  lemma SubmitsOne(w: World, s: State, f: nat, i: nat) returns (steps: seq<Step>, end: State)
    requires w.concurrent && Inv(w, s) && s.poolOpen && w.poolSize > 0
    requires f < |s.flights| && s.flights[f].stage.Evaluating? && EvaluatesNegative(s.flights[f], i)
    ensures LeadsTo(w, s, steps, end) && Inv(w, end) && end.poolOpen && f < |end.flights|
    ensures var fl, fl' := s.flights[f], end.flights[f];
            && SameFlight(fl, fl') && |fl'.workers| == |fl.workers| + 1 && EvaluatesNegative(fl', i)
            && fl'.stage == if |fl'.workers| == |fl.missing| then Collecting else Evaluating
  {
    var free, freed := FreeSlots(w, s);
    assert TasksRan(s.flights[f], freed.flights[f]);
    StepKeepsInv(w, freed, Submit(f));
    end := SetFlight(freed, f, Submitted(freed.flights[f]));
    var submit := SystemThen(w, freed, Submit(f), end, []);
    steps := SystemJoin(w, s, free, freed, submit);
  }

  lemma {:induction false} SubmitsRest(w: World, s: State, f: nat, i: nat) returns (steps: seq<Step>, end: State)
    requires w.concurrent && Inv(w, s) && s.poolOpen && w.poolSize > 0
    requires f < |s.flights| && s.flights[f].stage.Evaluating? && EvaluatesNegative(s.flights[f], i)
    ensures LeadsTo(w, s, steps, end) && Inv(w, end) && f < |end.flights| && end.flights[f].stage.Collecting?
    ensures EvaluatesNegative(end.flights[f], i)
    decreases |s.flights[f].missing| - |s.flights[f].workers|
  {
    FlightOfInv(w, s, f);
    var first, next := SubmitsOne(w, s, f, i);
    if next.flights[f].stage.Collecting? {
      steps, end := first, next;
    } else {
      var rest;
      rest, end := SubmitsRest(w, next, f, i);
      steps := SystemJoin(w, s, first, next, rest);
    }
  }

  /** A flight whose leader was cancelled while it still submits can save exactly while the pool is
      open and some task that got past its look, or has sent, does not match. */
  lemma CancelledSubmitSaveIff(w: World, s: State, f: nat)
    requires w.concurrent && w.poolSize > 0 && Inv(w, s)
    requires f < |s.flights| && s.flights[f].stage.Evaluating? && s.flights[f].leader in s.cancelled
    ensures (exists steps :: SavingRun(w, s, steps, f))
       <==> s.poolOpen && exists i :: EvaluatesNegative(s.flights[f], i)
  {
    FlightOfInv(w, s, f);
    if i :| s.poolOpen && EvaluatesNegative(s.flights[f], i) {
      var first, next := SubmitsRest(w, s, f, i);
      var rest := SavesNegative(w, next, f, i);
      var steps := SystemJoin(w, s, first, next, rest);
      assert SavingRun(w, s, steps, f);
    } else {
      forall steps ensures !SavingRun(w, s, steps, f) {
        if Schedule(w, s, steps) {
          if s.poolOpen { BarrenNeverSaves(w, s, steps, f); } else { DoomedNeverSaves(w, s, steps, f); }
        }
      }
    }
  }

  /** A run that breaks the promise, for every request with an unmatched missing entity: the only
      call is cancelled while it collects, and then its flight saves. */
  lemma CancelledCollectionSaves(w: World, rules: seq<Rule>, data: Bytes, k: nat)
    returns (s: State, before: seq<Step>, after: seq<Step>)
    requires w.concurrent && w.poolSize > 0 && Coherent(w.truth, rules)
    requires var missing := MissingSet(rules, data, map[]); k < |missing| && !missing[k].rule.matcher.matches(data)
    ensures Initial(w, s) && Schedule(w, s, before)
    ensures var now := After(w, s, before);
            && |now.flights| == 1 && now.flights[0].leader in now.cancelled && now.flights[0].stage.Collecting?
            && now.flights[0].saves == 0 && SavingRun(w, now, after, 0)
            && var hashes := After(w, now, after).hashes;
               data in hashes && MissingSet(rules, data, map[])[k].entity in hashes[data]
  {
    var led: seq<Step>;
    s, led := LeadFresh(w, rules, data);
    var s1 := After(w, s, led);
    var fl := s1.flights[0];
    var n := |fl.missing|;
    assert With(s1, Overtaking(fl, n, 0)) == s1 by { assert Overtaking(fl, n, 0) == fl; assert s1.flights == [fl]; }
    var submit := SubmitAll(w, s1, fl, n, 0);
    ScheduleAppend(w, s, led, submit);
    var s2 := With(s1, Overtaking(fl, n, n));
    Then(w, s2, Cancel(0), []);
    ScheduleAppend(w, s, led + submit, [Cancel(0)] + []);
    before := led + submit + ([Cancel(0)] + []);
    ReachableInv(w, s, before);
    FlightOfInv(w, After(w, s, before), 0);
    after := SavesNegative(w, After(w, s, before), 0, k);
  }
}
