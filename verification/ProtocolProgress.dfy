/** Progress of the protocol: no deadlock while work remains, and a bound on the work of any
    schedule that depends only on the requests it started. */
module ProtocolProgress {
  import opened Prelude
  import opened Rules
  import opened Protocol
  import opened ProtocolInvariant
  import opened ProtocolRuns

  function Sum<T>(xs: seq<T>, weight: T -> nat): nat {
    if xs == [] then 0 else Sum(xs[..|xs| - 1], weight) + weight(xs[|xs| - 1])
  }

  lemma {:induction false} SumUpdate<T>(xs: seq<T>, weight: T -> nat, i: nat, x: T)
    requires i < |xs|
    ensures Sum(xs[i := x], weight) == Sum(xs, weight) - weight(xs[i]) + weight(x)
  {
    var n := |xs| - 1;
    if i == n {
      assert xs[i := x][..n] == xs[..n];
    } else {
      SumUpdate(xs[..n], weight, i, x);
      assert xs[i := x][..n] == xs[..n][i := x];
    }
  }

  lemma SumAppend<T>(xs: seq<T>, weight: T -> nat, x: T)
    ensures Sum(xs + [x], weight) == Sum(xs, weight) + weight(x)
  {
    assert (xs + [x])[..|xs|] == xs;
  }

  // ---- remaining work ----

  function WorkerWork(worker: Worker): nat {
    match worker
    case Queued => 3
    case Bailing => 2
    case Matching => 2
    case Sent(_) => 0
  }

  function StageWork(stage: Stage): nat {
    match stage
    case Evaluating => 6
    case Collecting => 5
    case Draining => 4
    case Saving => 3
    case Finished(_) => 2
    case Forgotten(_) => 1
    case Published(_) => 0
  }

  /** Unsubmitted, unsent and uncollected evaluations, and the body's remaining stages. */
  function FlightWork(fl: Flight): nat {
    (if |fl.workers| <= |fl.missing| then 4 * (|fl.missing| - |fl.workers|) else 0)
    + Sum(fl.workers, WorkerWork) + |fl.channel| + StageWork(fl.stage)
  }

  function RequestWork(rules: seq<Rule>): nat { 10 + 4 * |rules| }

  function CallWork(call: Call): nat {
    match call.phase
    case Reading => RequestWork(call.rules)
    case Joining => 9 + 4 * |call.Missing()|
    case Waiting => 2
    case SavingResidual(_) => 1
    case Returned(_) => 0
  }

  function Work(s: State): nat {
    Sum(s.calls, CallWork) + Sum(s.flights, FlightWork)
  }

  lemma FlightStepWorks(w: World, s: State, f: nat, fl': Flight)
    requires f < |s.flights| && FlightWork(fl') < FlightWork(s.flights[f])
    ensures Work(SetFlight(s, f, fl')) < Work(s)
  {
    SumUpdate(s.flights, FlightWork, f, fl');
  }

  lemma CallStepWorks(w: World, s: State, c: nat, call': Call)
    requires c < |s.calls| && CallWork(call') < CallWork(s.calls[c])
    ensures Work(SetCall(s, c, call')) < Work(s)
  {
    SumUpdate(s.calls, CallWork, c, call');
  }

  lemma LeadWorks(w: World, s: State, c: nat)
    requires Enabled(w, s, Lead(c))
    ensures Work(Apply(w, s, Lead(c))) < Work(s)
  {
    var call := s.calls[c];
    SumUpdate(s.calls, CallWork, c, call.(phase := Waiting, flight := Some(|s.flights|), leads := true));
    SumAppend(s.flights, FlightWork, NewFlight(call, c));
    assert FlightWork(NewFlight(call, c)) == 6 + 4 * |call.Missing()|;
  }

  lemma SubmitWorks(fl: Flight)
    requires |fl.workers| < |fl.missing| && fl.stage.Evaluating?
    ensures FlightWork(Submitted(fl)) < FlightWork(fl)
  {
    SumAppend(fl.workers, WorkerWork, Queued);
  }

  lemma CheckWorks(fl: Flight, i: nat, worker: Worker)
    requires i < |fl.workers| && fl.workers[i].Queued? && (worker.Bailing? || worker.Matching?)
    ensures FlightWork(fl.(workers := fl.workers[i := worker])) < FlightWork(fl)
  {
    SumUpdate(fl.workers, WorkerWork, i, worker);
  }

  lemma SendWorks(fl: Flight, i: nat)
    requires i < |fl.workers| && i < |fl.missing| && (fl.workers[i].Bailing? || fl.workers[i].Matching?)
    ensures FlightWork(Sending(fl, i)) < FlightWork(fl)
  {
    SumUpdate(fl.workers, WorkerWork, i, Sent(fl.workers[i].Bailing?));
  }

  lemma CollectionUsesWork(fl: Flight)
    requires fl.channel != []
    ensures fl.stage.Collecting? ==> FlightWork(Collected(fl)) < FlightWork(fl)
    ensures FlightWork(Drained(fl)) < FlightWork(fl)
  {
  }

  lemma WorkerStepUsesWork(w: World, s: State, step: Step)
    requires Enabled(w, s, step) && (step.Submit? || step.Check? || step.Send?)
    requires step.Submit? ==> |s.flights[step.flight].workers| < |s.flights[step.flight].missing|
    ensures Work(Apply(w, s, step)) < Work(s)
  {
    var f := step.flight;
    var fl, fl' := s.flights[f], Apply(w, s, step).flights[f];
    match step {
      case Submit(_) => SubmitWorks(fl);
      case Check(_, i) => CheckWorks(fl, i, fl'.workers[i]);
      case Send(_, i) => SendWorks(fl, i);
    }
    FlightStepWorks(w, s, f, fl');
  }

  /** Advancing the stage, and nothing else that carries work. */
  lemma AdvanceUsesWork(w: World, s: State, s': State, f: nat, fl': Flight)
    requires f < |s.flights| && s'.calls == s.calls && s'.flights == s.flights[f := fl']
    requires var fl := s.flights[f];
             fl'.missing == fl.missing && fl'.workers == fl.workers && fl'.channel == fl.channel
             && StageWork(fl'.stage) < StageWork(fl.stage)
    ensures Work(s') < Work(s)
  {
    FlightStepWorks(w, s, f, fl');
  }

  lemma BodyStepUsesWork(w: World, s: State, step: Step)
    requires Enabled(w, s, step)
    requires step.EvaluateAll? || step.Reject? || step.Receive? || step.StopCollecting? || step.Drain?
             || step.EndDrain? || step.Save? || step.Forget? || step.Publish?
    ensures Work(Apply(w, s, step)) < Work(s)
  {
    var fl := s.flights[step.flight];
    if step.Receive? {
      CollectionUsesWork(fl);
      FlightStepWorks(w, s, step.flight, Collected(fl));
    } else if step.Drain? {
      CollectionUsesWork(fl);
      FlightStepWorks(w, s, step.flight, Drained(fl));
    } else {
      var s' := Apply(w, s, step);
      AdvanceUsesWork(w, s, s', step.flight, s'.flights[step.flight]);
    }
  }

  lemma CallerStepUsesWork(w: World, s: State, step: Step)
    requires Enabled(w, s, step)
    requires step.Read? || step.Join? || step.Abandon? || step.Resume? || step.SaveResidual?
    ensures Work(Apply(w, s, step)) < Work(s)
  {
    CallStepWorks(w, s, step.call, Apply(w, s, step).calls[step.call]);
  }

  /** Every caller, flight or worker step uses up work; cancellation, closure and expiry leave it,
      and a request adds its fixed share. */
  lemma StepWorks(w: World, s: State, step: Step)
    requires Inv(w, s) && Enabled(w, s, step)
    ensures var s' := Apply(w, s, step);
            && (!IsEnvironment(step) ==> Work(s') < Work(s))
            && (step.Start? ==> Work(s') <= Work(s) + RequestWork(step.rules))
            && (IsEnvironment(step) && !step.Start? ==> Work(s') == Work(s))
  {
    if step.Start? {
      var s' := Apply(w, s, step);
      SumAppend(s.calls, CallWork, s'.calls[|s.calls|]);
    } else if IsEnvironment(step) {
    } else if step.Lead? {
      LeadWorks(w, s, step.call);
    } else if step.Read? || step.Join? || step.Abandon? || step.Resume? || step.SaveResidual? {
      CallerStepUsesWork(w, s, step);
    } else if step.Submit? || step.Check? || step.Send? {
      assert FlightOk(w, s.cancelled, s.poolOpen, s.flights[step.flight]);
      WorkerStepUsesWork(w, s, step);
    } else {
      BodyStepUsesWork(w, s, step);
    }
  }

  function SystemSteps(steps: seq<Step>): nat {
    if steps == [] then 0 else (if IsEnvironment(steps[0]) then 0 else 1) + SystemSteps(steps[1..])
  }

  function RequestedWork(steps: seq<Step>): nat {
    if steps == [] then 0
    else (if steps[0].Start? then RequestWork(steps[0].rules) else 0) + RequestedWork(steps[1..])
  }

  lemma {:induction false} ScheduleWorks(w: World, s: State, steps: seq<Step>)
    requires Inv(w, s) && Schedule(w, s, steps)
    ensures SystemSteps(steps) + Work(After(w, s, steps)) <= Work(s) + RequestedWork(steps)
    decreases |steps|
  {
    if steps != [] {
      StepWorks(w, s, steps[0]);
      StepKeepsInv(w, s, steps[0]);
      ScheduleWorks(w, Apply(w, s, steps[0]), steps[1..]);
    }
  }

  /** However calls, workers, cancellations and failures interleave, the runner takes at most
      10 + 4 * |rules| steps per request. */
  lemma BoundedWork(w: World, s: State, steps: seq<Step>)
    requires Initial(w, s) && Schedule(w, s, steps)
    ensures SystemSteps(steps) <= RequestedWork(steps)
  {
    ScheduleWorks(w, s, steps);
  }

  // ---- no deadlock ----

  /** Nothing is left to do: every call answered, every flight published, every task sent. */
  ghost predicate Quiescent(s: State) {
    && (forall c :: 0 <= c < |s.calls| ==> s.calls[c].phase.Returned?)
    && (forall f :: 0 <= f < |s.flights| ==> s.flights[f].stage.Published? && Active(s.flights[f].workers) == 0)
  }

  lemma {:induction false} ActiveWorker(workers: seq<Worker>) returns (i: nat)
    requires Active(workers) > 0
    ensures i < |workers| && !workers[i].Sent?
  {
    if workers[|workers| - 1].Sent? {
      i := ActiveWorker(workers[..|workers| - 1]);
    } else {
      i := |workers| - 1;
    }
  }

  lemma {:induction false} BusyFlight(flights: seq<Flight>) returns (f: nat)
    requires Busy(flights) > 0
    ensures f < |flights| && Active(flights[f].workers) > 0
  {
    if Active(flights[|flights| - 1].workers) > 0 {
      f := |flights| - 1;
    } else {
      f := BusyFlight(flights[..|flights| - 1]);
    }
  }

  /** An active task can always take its next step. */
  lemma WorkerCanStep(w: World, s: State, f: nat) returns (step: Step)
    requires Inv(w, s) && f < |s.flights| && Active(s.flights[f].workers) > 0
    ensures Enabled(w, s, step) && !IsEnvironment(step)
  {
    var fl := s.flights[f];
    assert FlightOk(w, s.cancelled, s.poolOpen, fl);
    var i := ActiveWorker(fl.workers);
    step := if fl.workers[i].Queued? then Check(f, i) else Send(f, i);
  }

  /** A flight that is not published, or some worker it depends on, can step. */
  lemma FlightCanStep(w: World, s: State, f: nat) returns (step: Step)
    requires Inv(w, s) && f < |s.flights| && !s.flights[f].stage.Published?
    requires w.concurrent ==> w.poolSize > 0
    ensures Enabled(w, s, step) && !IsEnvironment(step)
  {
    var fl := s.flights[f];
    assert FlightOk(w, s.cancelled, s.poolOpen, fl);
    match fl.stage
    case Evaluating =>
      if !w.concurrent {
        step := EvaluateAll(f);
      } else if !s.poolOpen {
        step := Reject(f);
      } else if Busy(s.flights) < w.poolSize {
        step := Submit(f);
      } else {
        var g := BusyFlight(s.flights);
        step := WorkerCanStep(w, s, g);
      }
    case Collecting =>
      if fl.channel != [] {
        step := Receive(f);
      } else {
        step := WorkerCanStep(w, s, f);
      }
    case Draining => step := if fl.channel != [] then Drain(f) else EndDrain(f);
    case Saving => step := Save(f, true);
    case Finished(_) => step := Forget(f);
    case Forgotten(_) => step := Publish(f);
  }

  /** Some step of the runner is enabled until nothing is left to do. */
  lemma SomethingCanStep(w: World, s: State) returns (step: Step)
    requires Inv(w, s) && !Quiescent(s)
    requires w.concurrent ==> w.poolSize > 0
    ensures Enabled(w, s, step) && !IsEnvironment(step)
  {
    if f :| 0 <= f < |s.flights| && !s.flights[f].stage.Published? {
      step := FlightCanStep(w, s, f);
    } else if f :| 0 <= f < |s.flights| && Active(s.flights[f].workers) > 0 {
      step := WorkerCanStep(w, s, f);
    } else {
      var c :| 0 <= c < |s.calls| && !s.calls[c].phase.Returned?;
      assert CallOk(w, s.cancelled, s.poolOpen, c, s.calls[c]) && Attached(s.flights, c, s.calls[c]);
      match s.calls[c].phase
      case Reading => step := Read(c, false);
      case Joining => step := Lead(c);
      case Waiting => step := Resume(c);
      case SavingResidual(_) => step := SaveResidual(c, true);
    }
  }

  /** From every reachable state all calls can return, all flights publish and all tasks finish,
      within the remaining work and without any help from the environment. */
  lemma {:induction false} EverythingCompletes(w: World, s: State) returns (steps: seq<Step>)
    requires Inv(w, s)
    requires w.concurrent ==> w.poolSize > 0
    ensures Schedule(w, s, steps) && Quiescent(After(w, s, steps))
    ensures |steps| <= Work(s) && SystemOnly(steps)
    decreases Work(s)
  {
    if Quiescent(s) {
      steps := [];
    } else {
      var step := SomethingCanStep(w, s);
      StepWorks(w, s, step);
      StepKeepsInv(w, s, step);
      var rest := EverythingCompletes(w, Apply(w, s, step));
      steps := SystemThen(w, s, step, Apply(w, s, step), rest);
    }
  }
}
