/** What every schedule from an initial state guarantees. */
module ProtocolSafety {
  import opened Prelude
  import opened Rules
  import opened Classification
  import opened Protocol
  import opened ProtocolInvariant

  lemma ReachableInv(w: World, s: State, steps: seq<Step>)
    requires Initial(w, s) && Schedule(w, s, steps)
    ensures Inv(w, After(w, s, steps))
  {
    ScheduleKeepsInv(w, s, steps);
  }

  lemma FlightOfInv(w: World, s: State, f: nat)
    requires Inv(w, s) && f < |s.flights|
    ensures FlightOk(w, s.cancelled, s.poolOpen, s.flights[f]) && Led(s.calls, f, s.flights[f])
  {
  }

  lemma CallIsAttached(w: World, s: State, c: nat)
    requires Inv(w, s) && c < |s.calls|
    ensures CallOk(w, s.cancelled, s.poolOpen, c, s.calls[c]) && Attached(s.flights, c, s.calls[c])
  {
  }

  // ---- answers ----

  /** Serial runner: an uncancelled call answers the first match of its own rules; a cancelled one
      that or nothing, and nothing only with coalescing, since no other path looks at the context. */
  lemma SerialAnswers(w: World, s: State, steps: seq<Step>, c: nat)
    requires Initial(w, s) && Schedule(w, s, steps) && !w.concurrent
    requires c < |After(w, s, steps).calls| && After(w, s, steps).calls[c].phase.Returned?
    ensures var end := After(w, s, steps);
            var call := end.calls[c];
            && (c !in end.cancelled ==> call.phase.outcome == FirstMatch(call.rules, call.data))
            && (c in end.cancelled ==> call.phase.outcome in {None, FirstMatch(call.rules, call.data)})
            && (!w.coalesce ==> call.phase.outcome == FirstMatch(call.rules, call.data))
  {
    ReachableInv(w, s, steps);
    var end := After(w, s, steps);
    assert CallOk(w, end.cancelled, end.poolOpen, c, end.calls[c]);
  }

  // ---- the cache ----

  /** Whatever was drained, collected in part, left to a residual or merged, every stored field
      is false and its entity really does not match the token. */
  lemma CacheStaysTrue(w: World, s: State, steps: seq<Step>, data: Bytes, entity: Entity)
    requires Initial(w, s) && Schedule(w, s, steps)
    requires var hashes := After(w, s, steps).hashes; data in hashes && entity in hashes[data]
    ensures !After(w, s, steps).hashes[data][entity] && !w.truth(entity, data)
  {
    ReachableInv(w, s, steps);
  }

  /** Batched saves issued on behalf of a call: by the flight it led and by itself. */
  ghost function SavesFor(s: State, c: nat): nat
    requires c < |s.calls|
  {
    var call := s.calls[c];
    call.saves + if call.leads && call.flight.Some? && call.flight.value < |s.flights|
                 then s.flights[call.flight.value].saves else 0
  }

  /** At most one SaveMatches per call: a leader never has a residual, and a waiter saves only its own. */
  lemma AtMostOneSave(w: World, s: State, steps: seq<Step>, c: nat)
    requires Initial(w, s) && Schedule(w, s, steps) && c < |After(w, s, steps).calls|
    ensures SavesFor(After(w, s, steps), c) <= 1
    ensures After(w, s, steps).calls[c].leads ==> !After(w, s, steps).calls[c].phase.SavingResidual?
  {
    ReachableInv(w, s, steps);
    var end := After(w, s, steps);
    var call := end.calls[c];
    assert CallOk(w, end.cancelled, end.poolOpen, c, call) && Attached(end.flights, c, call);
    if call.leads {
      assert FlightOk(w, end.cancelled, end.poolOpen, end.flights[call.flight.value]);
    }
  }

  /** The reason a leader has no residual: a body that returned results without a match either
      covered the leader's missing set or was cut short by the leader's own cancellation. */
  lemma IncompleteMeansCancelled(w: World, s: State, steps: seq<Step>, f: nat)
    requires Initial(w, s) && Schedule(w, s, steps) && f < |After(w, s, steps).flights|
    requires var fl := After(w, s, steps).flights[f];
             BodyOver(fl.stage) && fl.stage.value.Some? && fl.winner == None
    ensures var end := After(w, s, steps);
            var fl := end.flights[f];
            Covers(fl.stage.value.value, fl.missing) || (w.concurrent && fl.leader in end.cancelled)
  {
    ReachableInv(w, s, steps);
    var end := After(w, s, steps);
    assert FlightOk(w, end.cancelled, end.poolOpen, end.flights[f]);
  }

  // ---- flights ----

  predicate Working(stage: Stage) {
    stage.Evaluating? || stage.Collecting? || stage.Draining? || stage.Saving?
  }

  lemma OneJoinable(w: World, s: State, f: nat, g: nat)
    requires RegistryOk(w, s) && w.coalesce && f < |s.flights| && g < |s.flights| && s.flights[f].key == s.flights[g].key
    requires Joinable(s.flights[f].stage) && Joinable(s.flights[g].stage)
    ensures f == g
  {
  }

  /** With coalescing, one token never has two flight bodies evaluating or saving at once. */
  lemma OneBodyPerToken(w: World, s: State, steps: seq<Step>, f: nat, g: nat)
    requires Initial(w, s) && Schedule(w, s, steps) && w.coalesce
    requires f < |After(w, s, steps).flights| && g < |After(w, s, steps).flights|
    requires var flights := After(w, s, steps).flights;
             flights[f].key == flights[g].key && Working(flights[f].stage) && Working(flights[g].stage)
    ensures f == g
  {
    ReachableInv(w, s, steps);
    OneJoinable(w, After(w, s, steps), f, g);
  }

  /** What no step takes back of a flight: its identity, the value its body returned, its publication. */
  ghost predicate FlightRemembers(fl: Flight, fl': Flight) {
    && SameFlight(fl, fl')
    && (BodyOver(fl.stage) ==>
          BodyOver(fl'.stage) && fl'.stage.value == fl.stage.value && fl'.winner == fl.winner)
    && (fl.winner.Some? ==> fl'.winner == fl.winner)
    && (fl.stage.Published? ==> fl'.stage == fl.stage)
  }

  /** What no step takes back of a call: its request, its flight, its answer. */
  ghost predicate CallRemembers(call: Call, call': Call) {
    && call'.rules == call.rules && call'.data == call.data
    && (call.flight.Some? ==> call'.flight == call.flight && call'.leads == call.leads)
    && (call.phase.Returned? ==> call'.phase == call.phase)
  }

  ghost predicate Remembers(s: State, s': State) {
    && |s.flights| <= |s'.flights| && |s.calls| <= |s'.calls|
    && (forall f :: 0 <= f < |s.flights| ==> FlightRemembers(s.flights[f], s'.flights[f]))
    && (forall c :: 0 <= c < |s.calls| ==> CallRemembers(s.calls[c], s'.calls[c]))
    && s.cancelled <= s'.cancelled && (s'.poolOpen ==> s.poolOpen)
  }

  predicate IsFlightStep(step: Step) {
    !IsEnvironment(step) && !IsCaller(step)
  }

  lemma OtherFlightsStay(w: World, s: State, step: Step, f: nat)
    requires Enabled(w, s, step) && f < |s.flights| && (IsFlightStep(step) ==> step.flight != f)
    ensures |Apply(w, s, step).flights| >= |s.flights|
    ensures Apply(w, s, step).flights[f] == s.flights[f]
  {
  }

  lemma OnlyLeadAddsFlights(w: World, s: State, step: Step)
    requires Enabled(w, s, step)
    ensures var s' := Apply(w, s, step);
            if step.Lead? then s'.flights == s.flights + [NewFlight(s.calls[step.call], step.call)]
            else |s'.flights| == |s.flights|
  {
  }

  lemma SteppedFlightRemembers(w: World, s: State, step: Step)
    requires Enabled(w, s, step) && IsFlightStep(step)
    requires var fl := s.flights[step.flight]; fl.stage.Collecting? ==> fl.winner == None
    ensures |Apply(w, s, step).flights| >= |s.flights|
    ensures FlightRemembers(s.flights[step.flight], Apply(w, s, step).flights[step.flight])
  {
  }

  lemma FlightStepRemembers(w: World, s: State, step: Step, f: nat)
    requires Enabled(w, s, step) && f < |s.flights| && (s.flights[f].stage.Collecting? ==> s.flights[f].winner == None)
    ensures |Apply(w, s, step).flights| >= |s.flights|
    ensures FlightRemembers(s.flights[f], Apply(w, s, step).flights[f])
  {
    if IsFlightStep(step) && step.flight == f {
      SteppedFlightRemembers(w, s, step);
    } else {
      OtherFlightsStay(w, s, step, f);
    }
  }

  lemma OtherCallsStay(w: World, s: State, step: Step, c: nat)
    requires Enabled(w, s, step) && c < |s.calls| && (IsCaller(step) ==> step.call != c)
    ensures |Apply(w, s, step).calls| >= |s.calls|
    ensures Apply(w, s, step).calls[c] == s.calls[c]
  {
  }

  lemma SteppedCallRemembers(w: World, s: State, step: Step)
    requires Enabled(w, s, step) && IsCaller(step) && (s.calls[step.call].phase.Joining? ==> s.calls[step.call].flight == None)
    ensures |Apply(w, s, step).calls| >= |s.calls|
    ensures CallRemembers(s.calls[step.call], Apply(w, s, step).calls[step.call])
  {
  }

  lemma CallStepRemembers(w: World, s: State, step: Step, c: nat)
    requires Enabled(w, s, step) && c < |s.calls| && (s.calls[c].phase.Joining? ==> s.calls[c].flight == None)
    ensures |Apply(w, s, step).calls| >= |s.calls|
    ensures CallRemembers(s.calls[c], Apply(w, s, step).calls[c])
  {
    if IsCaller(step) && step.call == c {
      SteppedCallRemembers(w, s, step);
    } else {
      OtherCallsStay(w, s, step, c);
    }
  }

  lemma StepRemembers(w: World, s: State, step: Step)
    requires Inv(w, s) && Enabled(w, s, step)
    ensures Remembers(s, Apply(w, s, step))
  {
    var s' := Apply(w, s, step);
    forall f | 0 <= f < |s.flights| ensures |s'.flights| >= |s.flights| && FlightRemembers(s.flights[f], s'.flights[f]) {
      assert FlightOk(w, s.cancelled, s.poolOpen, s.flights[f]);
      FlightStepRemembers(w, s, step, f);
    }
    forall c | 0 <= c < |s.calls| ensures |s'.calls| >= |s.calls| && CallRemembers(s.calls[c], s'.calls[c]) {
      assert CallOk(w, s.cancelled, s.poolOpen, c, s.calls[c]);
      CallStepRemembers(w, s, step, c);
    }
    StepOnlyGrows(w, s, step);
  }

  lemma StepOnlyGrows(w: World, s: State, step: Step)
    requires Enabled(w, s, step)
    ensures var s' := Apply(w, s, step);
            |s.flights| <= |s'.flights| && |s.calls| <= |s'.calls| && s.cancelled <= s'.cancelled && (s'.poolOpen ==> s.poolOpen)
  {
  }

  /** Over a whole schedule a published map never changes, nor does an answer once given. */
  lemma {:induction false} ScheduleRemembers(w: World, s: State, steps: seq<Step>)
    requires Inv(w, s) && Schedule(w, s, steps)
    ensures Remembers(s, After(w, s, steps))
    decreases |steps|
  {
    if steps != [] {
      var s1 := Apply(w, s, steps[0]);
      StepRemembers(w, s, steps[0]);
      StepKeepsInv(w, s, steps[0]);
      ScheduleRemembers(w, s1, steps[1..]);
      RemembersTransitively(s, s1, After(w, s1, steps[1..]));
    }
  }

  lemma RemembersTransitively(s: State, s1: State, s2: State)
    requires Remembers(s, s1) && Remembers(s1, s2)
    ensures Remembers(s, s2)
  {
    forall f | 0 <= f < |s.flights| ensures FlightRemembers(s.flights[f], s2.flights[f]) {
      assert FlightRemembers(s.flights[f], s1.flights[f]) && FlightRemembers(s1.flights[f], s2.flights[f]);
    }
    forall c | 0 <= c < |s.calls| ensures CallRemembers(s.calls[c], s2.calls[c]) {
      assert CallRemembers(s.calls[c], s1.calls[c]) && CallRemembers(s1.calls[c], s2.calls[c]);
    }
  }

  /** A joiner receives the value of the flight registered for its token when it joined, and that
      flight was neither forgotten nor published then: completed results are never replayed. */
  lemma JoinerReceivesRunningFlight(w: World, s: State, before: seq<Step>, c: nat, between: seq<Step>)
    requires Initial(w, s) && Schedule(w, s, before)
    requires Enabled(w, After(w, s, before), Join(c))
    requires Schedule(w, Apply(w, After(w, s, before), Join(c)), between)
    requires Enabled(w, After(w, Apply(w, After(w, s, before), Join(c)), between), Resume(c))
    ensures var joined := After(w, s, before);
            var end := After(w, Apply(w, joined, Join(c)), between);
            var f := joined.registered[joined.calls[c].data];
            && f < |joined.flights| && joined.flights[f].key == joined.calls[c].data
            && (Working(joined.flights[f].stage) || joined.flights[f].stage.Finished?)
            && end.calls[c].flight == Some(f) && end.flights[f].key == end.calls[c].data
  {
    var joined := After(w, s, before);
    ReachableInv(w, s, before);
    StepKeepsInv(w, joined, Join(c));
    ScheduleRemembers(w, Apply(w, joined, Join(c)), between);
    assert RegistryOk(w, joined);
  }

  // ---- the result channel ----

  /** No two buffered messages come from one task. */
  ghost predicate BufferedOnce(fl: Flight) {
    forall j, k :: 0 <= j < k < |fl.channel| ==> fl.channel[j].worker != fl.channel[k].worker
  }

  lemma SendBuffersOnce(cancelled: set<nat>, fl: Flight, i: nat)
    requires WorkersOk(cancelled, fl) && BufferedOnce(fl) && i < |fl.workers| && !fl.workers[i].Sent?
    ensures BufferedOnce(Sending(fl, i))
  {
    forall k | 0 <= k < |fl.channel| ensures fl.channel[k].worker != i {
      assert ItemOk(fl, fl.channel[k]);
    }
  }

  /** Only a send adds a message; receiving and draining take the oldest one. */
  lemma SteppedChannel(w: World, s: State, step: Step)
    requires Enabled(w, s, step) && IsFlightStep(step) && !step.Send?
    ensures step.flight < |Apply(w, s, step).flights|
    ensures var ch := s.flights[step.flight].channel;
            var ch' := Apply(w, s, step).flights[step.flight].channel;
            ch' == ch || (ch != [] && ch' == ch[1..])
  {
  }

  lemma SteppedFlightBuffersOnce(w: World, s: State, step: Step)
    requires Enabled(w, s, step) && IsFlightStep(step) && BufferedOnce(s.flights[step.flight])
    requires WorkersOk(s.cancelled, s.flights[step.flight])
    ensures step.flight < |Apply(w, s, step).flights| && BufferedOnce(Apply(w, s, step).flights[step.flight])
  {
    if step.Send? {
      SendBuffersOnce(s.cancelled, s.flights[step.flight], step.worker);
    } else {
      SteppedChannel(w, s, step);
    }
  }

  ghost predicate AllBufferedOnce(s: State) {
    forall f :: 0 <= f < |s.flights| ==> BufferedOnce(s.flights[f])
  }

  lemma StepBuffersOnce(w: World, s: State, step: Step, f: nat)
    requires Inv(w, s) && Enabled(w, s, step) && AllBufferedOnce(s) && f < |Apply(w, s, step).flights|
    ensures BufferedOnce(Apply(w, s, step).flights[f])
  {
    OnlyLeadAddsFlights(w, s, step);
    if IsFlightStep(step) && step.flight == f {
      FlightOfInv(w, s, f);
      SteppedFlightBuffersOnce(w, s, step);
    } else if f < |s.flights| {
      OtherFlightsStay(w, s, step, f);
    }
  }

  lemma {:induction false} ScheduleBuffersOnce(w: World, s: State, steps: seq<Step>)
    requires Inv(w, s) && AllBufferedOnce(s) && Schedule(w, s, steps)
    ensures AllBufferedOnce(After(w, s, steps))
    decreases |steps|
  {
    if steps != [] {
      var s' := Apply(w, s, steps[0]);
      forall f | 0 <= f < |s'.flights| ensures BufferedOnce(s'.flights[f]) { StepBuffersOnce(w, s, steps[0], f); }
      StepKeepsInv(w, s, steps[0]);
      ScheduleBuffersOnce(w, s', steps[1..]);
    }
  }

  /** Each submitted task is still active, or sent its one message: buffered messages come from
      different tasks, none of them active, and with the received ones and the active tasks they
      make up the submitted tasks. A task about to send always finds room, even after its flight's
      body has returned. */
  lemma SendNeverBlocks(w: World, s: State, steps: seq<Step>, f: nat, i: nat)
    requires Initial(w, s) && Schedule(w, s, steps)
    requires var flights := After(w, s, steps).flights; f < |flights| && i < |flights[f].workers|
    ensures var end := After(w, s, steps);
            var fl := end.flights[f];
            && fl.received + |fl.channel| + Active(fl.workers) == |fl.workers| <= |fl.missing|
            && BufferedOnce(fl)
            && (forall k :: 0 <= k < |fl.channel| ==>
                  fl.channel[k].worker < |fl.workers| && fl.workers[fl.channel[k].worker].Sent?)
            && (fl.workers[i].Bailing? || fl.workers[i].Matching? ==> Enabled(w, end, Send(f, i)))
  {
    ReachableInv(w, s, steps);
    var end := After(w, s, steps);
    var fl := end.flights[f];
    assert FlightOk(w, end.cancelled, end.poolOpen, fl);
    ScheduleBuffersOnce(w, s, steps);
    forall k | 0 <= k < |fl.channel|
      ensures fl.channel[k].worker < |fl.workers| && fl.workers[fl.channel[k].worker].Sent?
    {
      assert ItemOk(fl, fl.channel[k]);
    }
    if !fl.workers[i].Sent? { ActiveUpdate(fl.workers, i, fl.workers[i]); }
  }
}
