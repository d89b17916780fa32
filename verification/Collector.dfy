/** The concurrent leader's collection loop as written, over a mutable result channel, and the
    protocol schedule it performs. The scheduler's choices are inputs: what the channel delivers,
    in order, and the iteration whose select takes the cancelled branch. */
module Collector {
  import opened Prelude
  import opened Rules
  import opened Classification
  import opened TokenCache
  import opened SerialRunner
  import opened Protocol
  import opened ProtocolInvariant
  import opened ProtocolSafety
  import opened ProtocolRuns

  class ResultChannel {
    var buffer: seq<Item>

    constructor (arrivals: seq<Item>)
      ensures buffer == arrivals
    {
      buffer := arrivals;
    }

    method Receive() returns (item: Item)
      requires buffer != []
      modifies this
      ensures item == old(buffer)[0] && buffer == old(buffer)[1..]
    {
      item := buffer[0];
      buffer := buffer[1..];
    }
  }

  predicate Collects(stage: Stage) { stage.Collecting? || stage.Draining? }

  /** Nothing to receive yet and no reason to stop: the select waits. */
  predicate Waits(fl: Flight, stopAt: nat) {
    fl.stage.Collecting? && fl.received != stopAt && fl.channel == []
  }

  /** One turn of the collecting loop, or of the drain. */
  function CollectOnce(fl: Flight, stopAt: nat): Flight
    requires Collects(fl.stage) && !Waits(fl, stopAt)
  {
    if fl.stage.Draining? then (if fl.channel == [] then fl.(stage := Saving) else Drained(fl))
    else if fl.received == stopAt then fl.(stage := Finished(Some(fl.results)))
    else Collected(fl)
  }

  /** The whole collection: stop at the given iteration, otherwise receive until a match or the
      last result; after a match drain what is buffered. */
  function Collection(fl: Flight, stopAt: nat): (end: Flight)
    decreases |fl.channel|, if Collects(fl.stage) then 1 else 0
  {
    if !Collects(fl.stage) || Waits(fl, stopAt) then fl else Collection(CollectOnce(fl, stopAt), stopAt)
  }

  /** Takes everything buffered, without waiting for workers still running. */
  method DrainCompleted(channel: ResultChannel, results: Results, ghost fl: Flight, ghost stopAt: nat)
    returns (drained: Results)
    requires fl.stage.Draining? && fl.channel == channel.buffer && fl.results == results
    modifies channel
    ensures channel.buffer == [] && Collection(fl, stopAt).stage == Saving
    ensures drained == Collection(fl, stopAt).results && Collection(fl, stopAt).winner == fl.winner
  {
    drained := results;
    ghost var now := fl;
    while channel.buffer != []
      invariant now.stage.Draining? && now.channel == channel.buffer && now.results == drained && now.winner == fl.winner
      invariant Collection(now, stopAt) == Collection(fl, stopAt)
      decreases |channel.buffer|
    {
      now := Drained(now);
      var result := channel.Receive();
      if result.Evaluated? {
        drained := drained[result.entity := result.matched];
      }
    }
  }

  method SaveNegatives(cache: CacheStore, data: Bytes, results: Results, fails: bool)
    modifies cache
    ensures cache.hashes == if fails then old(cache.hashes) else StoreNegatives(old(cache.hashes), data, results)
  {
    var negatives := CollectNegatives(results);
    if negatives != map[] {
      var _ := cache.SaveMatches(data, negatives, fails);
    }
  }

  /** The collecting half of a leader's body: returns the outcomes and the first collected match,
      and saves their negatives once unless the collection was stopped. */
  method CollectEvaluations(channel: ResultChannel, cache: CacheStore, data: Bytes, submitted: nat, stopAt: nat,
                            saveFails: bool, ghost fl: Flight)
    returns (results: Results, winner: Option<Rule>)
    requires fl.stage == Collecting && fl.channel == channel.buffer && fl.received == 0 && |fl.workers| == submitted > 0
    requires fl.results == map[] && fl.winner == None && !Collection(fl, stopAt).stage.Collecting?
    modifies channel, cache
    ensures results == Collection(fl, stopAt).results && winner == Collection(fl, stopAt).winner
    ensures Collection(fl, stopAt).stage in {Saving, Finished(Some(results))}
    ensures cache.hashes == if saveFails || BodyOver(Collection(fl, stopAt).stage) then old(cache.hashes)
                            else StoreNegatives(old(cache.hashes), data, results)
  {
    results := map[];
    ghost var now := fl;
    for i := 0 to submitted
      invariant now.stage == (if i < submitted then Collecting else Saving)
      invariant now.channel == channel.buffer && now.received == i && |now.workers| == submitted
      invariant now.results == results && now.winner == None && cache.hashes == old(cache.hashes)
      invariant Collection(now, stopAt) == Collection(fl, stopAt)
    {
      if i == stopAt {
        return results, None;
      }
      assert channel.buffer != [];
      now := Collected(now);
      var result := channel.Receive();
      if result.Bailed? {
        continue;
      }
      results := results[result.entity := result.matched];
      if result.matched {
        results := DrainCompleted(channel, results, now, stopAt);
        SaveNegatives(cache, data, results, saveFails);
        return results, Some(result.rule);
      }
    }
    SaveNegatives(cache, data, results, saveFails);
    return results, None;
  }

  // ---- the loop performs a protocol schedule ----

  /** The step the loop takes next. */
  function NextStep(s: State, f: nat, stopAt: nat): Step
    requires f < |s.flights|
  {
    var fl := s.flights[f];
    if fl.stage.Collecting? && fl.received == stopAt then StopCollecting(f)
    else if fl.stage.Collecting? then Receive(f)
    else if fl.channel != [] then Drain(f)
    else EndDrain(f)
  }

  lemma NextStepCollects(w: World, s: State, f: nat, stopAt: nat)
    requires f < |s.flights| && Collects(s.flights[f].stage) && !Waits(s.flights[f], stopAt)
    requires s.flights[f].stage.Collecting? && s.flights[f].received == stopAt ==> s.flights[f].leader in s.cancelled
    ensures var step := NextStep(s, f, stopAt);
            Enabled(w, s, step) && Admissible(w, step)
            && Apply(w, s, step) == SetFlight(s, f, CollectOnce(s.flights[f], stopAt))
  {
  }

  lemma SetTwice(s: State, f: nat, fl1: Flight, fl2: Flight)
    requires f < |s.flights|
    ensures SetFlight(SetFlight(s, f, fl1), f, fl2) == SetFlight(s, f, fl2)
  {
  }

  /** One turn of a loop that will end: it does not wait, and what remains is shorter. */
  lemma OneTurn(fl: Flight, stopAt: nat)
    requires Collects(fl.stage) && !Collection(fl, stopAt).stage.Collecting?
    requires fl.stage.Collecting? ==> fl.received < |fl.workers|
    ensures !Waits(fl, stopAt)
    ensures var fl' := CollectOnce(fl, stopAt);
            && Collection(fl', stopAt) == Collection(fl, stopAt)
            && fl'.workers == fl.workers && fl'.leader == fl.leader
            && (fl'.stage.Collecting? ==> fl'.received < |fl'.workers|)
            && |fl'.channel| <= |fl.channel| && (Collects(fl'.stage) ==> |fl'.channel| < |fl.channel|)
  {
  }

  /** Whatever else is in flight, the loop's run is a schedule of receives, drains and at most one
      stop, so every guarantee about schedules is one about the loop. */
  lemma {:induction false} CollectionIsSchedule(w: World, s: State, f: nat, stopAt: nat) returns (steps: seq<Step>)
    requires f < |s.flights| && !Collection(s.flights[f], stopAt).stage.Collecting?
    requires s.flights[f].stage.Collecting? ==> s.flights[f].received < |s.flights[f].workers|
    requires stopAt < |s.flights[f].workers| ==> s.flights[f].leader in s.cancelled
    ensures LeadsTo(w, s, steps, SetFlight(s, f, Collection(s.flights[f], stopAt)))
    decreases |s.flights[f].channel|, if Collects(s.flights[f].stage) then 1 else 0
  {
    var fl := s.flights[f];
    if !Collects(fl.stage) {
      steps := [];
      assert SetFlight(s, f, fl) == s;
    } else {
      var fl' := CollectOnce(fl, stopAt);
      OneTurn(fl, stopAt);
      var rest := CollectionIsSchedule(w, SetFlight(s, f, fl'), f, stopAt);
      SetTwice(s, f, fl', Collection(fl', stopAt));
      steps := CollectThenRest(w, s, f, stopAt, rest, SetFlight(s, f, Collection(fl, stopAt)));
    }
  }

  lemma CollectThenRest(w: World, s: State, f: nat, stopAt: nat, rest: seq<Step>, end: State) returns (steps: seq<Step>)
    requires f < |s.flights| && Collects(s.flights[f].stage) && !Waits(s.flights[f], stopAt)
    requires s.flights[f].stage.Collecting? && s.flights[f].received == stopAt ==> s.flights[f].leader in s.cancelled
    requires LeadsTo(w, SetFlight(s, f, CollectOnce(s.flights[f], stopAt)), rest, end)
    ensures LeadsTo(w, s, steps, end)
  {
    NextStepCollects(w, s, f, stopAt);
    steps := SystemThen(w, s, NextStep(s, f, stopAt), SetFlight(s, f, CollectOnce(s.flights[f], stopAt)), rest);
  }

  /** What the loop returns in any reachable state: true outcomes, a winner that really matches,
      and every missing entity decided unless a match or the leader's cancellation cut it short. */
  lemma CollectionIsTrue(w: World, s: State, f: nat, stopAt: nat)
    requires Inv(w, s) && f < |s.flights| && !Collection(s.flights[f], stopAt).stage.Collecting?
    requires Collects(s.flights[f].stage)
    requires stopAt < |s.flights[f].workers| ==> s.flights[f].leader in s.cancelled
    ensures var fl, end := s.flights[f], Collection(s.flights[f], stopAt);
            && Truthful(w.truth, end.key, end.results)
            && (end.winner.Some? ==> exists k :: Wins(end, end.winner.value, k))
            && (end.winner == None && fl.leader !in s.cancelled ==> Covers(end.results, end.missing))
  {
    CollectionKeepsFlight(w, s, f, stopAt);
    CollectionFrame(s.flights[f], stopAt);
  }

  lemma CollectionKeepsFlight(w: World, s: State, f: nat, stopAt: nat)
    requires Inv(w, s) && f < |s.flights| && !Collection(s.flights[f], stopAt).stage.Collecting?
    requires stopAt < |s.flights[f].workers| ==> s.flights[f].leader in s.cancelled
    ensures FlightOk(w, s.cancelled, s.poolOpen, Collection(s.flights[f], stopAt))
  {
    assert FlightOk(w, s.cancelled, s.poolOpen, s.flights[f]);
    var steps := CollectionIsSchedule(w, s, f, stopAt);
    ScheduleKeepsInv(w, s, steps);
    FlightOfInv(w, SetFlight(s, f, Collection(s.flights[f], stopAt)), f);
  }

  lemma {:induction false} CollectionFrame(fl: Flight, stopAt: nat)
    requires !Collection(fl, stopAt).stage.Collecting?
    ensures SameFlight(fl, Collection(fl, stopAt))
    ensures var stage := Collection(fl, stopAt).stage; Collects(fl.stage) ==> stage.Saving? || (stage.Finished? && stage.value.Some?)
    decreases |fl.channel|, if Collects(fl.stage) then 1 else 0
  {
    if Collects(fl.stage) { CollectionFrame(CollectOnce(fl, stopAt), stopAt); }
  }
}
