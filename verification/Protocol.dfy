/** Any number of Process calls of one runner, serial or concurrent, as a transition system:
    cache reads and saves that may fail, token flights, the bounded worker pool, the buffered
    result channel, first-match cancellation, pool closure, caller cancellation and expiry. */
module Protocol {
  import opened Prelude
  import opened Rules
  import opened Classification
  import opened TokenCache

  /** The runner's configuration and the truth its matchers agree on. */
  datatype World = World(concurrent: bool, coalesce: bool, poolSize: nat, truth: Truth)

  /** What a worker sends; the sender's index is bookkeeping. */
  datatype Item =
    | Bailed(worker: nat)
    | Evaluated(worker: nat, rule: Rule, entity: Entity, matched: bool)

  /** A pool task: waiting to look at the match context, past that look on either branch, or done. */
  datatype Worker = Queued | Bailing | Matching | Sent(bailed: bool)

  /** Where a flight's goroutine stands. Finished means the body returned and its deferred
      cancel ran; Forgotten that the key was dropped; Published that callers can receive. */
  datatype Stage =
    | Evaluating
    | Collecting
    | Draining
    | Saving
    | Finished(value: Option<Results>)
    | Forgotten(value: Option<Results>)
    | Published(value: Option<Results>)

  datatype Flight = Flight(
    key: Bytes, leader: nat, missing: seq<Missing>,
    stage: Stage, workers: seq<Worker>, channel: seq<Item>, received: nat,
    results: Results, winner: Option<Rule>, saves: nat)

  datatype Phase =
    | Reading
    | Joining
    | Waiting
    | SavingResidual(shared: Results)
    | Returned(outcome: Option<Rule>)

  datatype Call = Call(
    rules: seq<Rule>, data: Bytes, cached: Results,
    phase: Phase, flight: Option<nat>, leads: bool, saves: nat)
  {
    function Missing(): seq<Missing> { MissingSet(rules, data, cached) }

    function Answer(evaluated: Results): Option<Rule> {
      FinalPass(Views(rules, data, cached), evaluated)
    }
  }

  datatype State = State(
    hashes: Hashes, calls: seq<Call>, flights: seq<Flight>, registered: map<Bytes, nat>,
    cancelled: set<nat>, poolOpen: bool)

  datatype Step =
    // the environment
    | Start(rules: seq<Rule>, data: Bytes)
    | Cancel(call: nat)
    | Expire(data: Bytes, entities: set<Entity>)
    | ClosePool
    // a caller
    | Read(call: nat, fails: bool)
    | Lead(call: nat)
    | Join(call: nat)
    | Abandon(call: nat)
    | Resume(call: nat)
    | SaveResidual(call: nat, persisted: bool)
    // a flight's body and its publication
    | EvaluateAll(flight: nat)
    | Submit(flight: nat)
    | Reject(flight: nat)
    | Receive(flight: nat)
    | StopCollecting(flight: nat)
    | Drain(flight: nat)
    | EndDrain(flight: nat)
    | Save(flight: nat, persisted: bool)
    | Forget(flight: nat)
    | Publish(flight: nat)
    // a pool worker
    | Check(flight: nat, worker: nat)
    | Send(flight: nat, worker: nat)

  predicate IsEnvironment(step: Step) {
    step.Start? || step.Cancel? || step.Expire? || step.ClosePool?
  }

  // ---- parts of the state ----

  /** Tasks a flight has in the pool: submitted and not yet sent. */
  function Active(workers: seq<Worker>): nat {
    if workers == [] then 0
    else Active(workers[..|workers| - 1]) + (if workers[|workers| - 1].Sent? then 0 else 1)
  }

  function Busy(flights: seq<Flight>): nat {
    if flights == [] then 0
    else Busy(flights[..|flights| - 1]) + Active(flights[|flights| - 1].workers)
  }

  predicate BodyOver(stage: Stage) {
    stage.Finished? || stage.Forgotten? || stage.Published?
  }

  /** The key is still registered: later callers of the token join this flight. */
  predicate Joinable(stage: Stage) {
    !stage.Forgotten? && !stage.Published?
  }

  /** The workers' context: done with the leader's own, on the first match, or once the body returned. */
  predicate MatchContextDone(s: State, fl: Flight) {
    fl.leader in s.cancelled || fl.winner.Some? || BodyOver(fl.stage)
  }

  function WorkerItem(fl: Flight, i: nat): Item
    requires i < |fl.missing|
  {
    var m := fl.missing[i];
    Evaluated(i, m.rule, m.entity, m.rule.matcher.matches(fl.key))
  }

  function NewFlight(call: Call, c: nat): Flight {
    Flight(call.data, c, call.Missing(), Evaluating, [], [], 0, map[], None, 0)
  }

  /** A caller that received its flight's value. */
  function Resumed(w: World, call: Call, fl: Flight, cancelled: bool): Phase
    requires fl.stage.Published?
  {
    match fl.stage.value
    case None => Returned(call.Answer(map[]))
    case Some(shared) =>
      if w.concurrent && call.leads && fl.winner.Some? then Returned(fl.winner)
      else if w.concurrent && cancelled then Returned(call.Answer(shared))
      else if Residual(call.Missing(), shared) == [] then Returned(call.Answer(shared))
      else SavingResidual(shared)
  }

  function ResidualResults(call: Call, shared: Results): Results {
    MatchAll(Residual(call.Missing(), shared), call.data)
  }

  /** One received result: record it, and on a match stop for the drain; the last one ends the collection. */
  function Collected(fl: Flight): Flight
    requires fl.channel != []
  {
    var item := fl.channel[0];
    var rest := fl.(channel := fl.channel[1..], received := fl.received + 1);
    var recorded := if item.Evaluated? then rest.(results := fl.results[item.entity := item.matched]) else rest;
    if item.Evaluated? && item.matched then recorded.(winner := Some(item.rule), stage := Draining)
    else if recorded.received == |fl.workers| then recorded.(stage := Saving)
    else recorded
  }

  function Drained(fl: Flight): Flight
    requires fl.channel != []
  {
    var item := fl.channel[0];
    var rest := fl.(channel := fl.channel[1..], received := fl.received + 1);
    if item.Evaluated? then rest.(results := fl.results[item.entity := item.matched]) else rest
  }

  function Submitted(fl: Flight): Flight {
    var workers := fl.workers + [Queued];
    fl.(workers := workers, stage := if |workers| == |fl.missing| then Collecting else Evaluating)
  }

  function Sending(fl: Flight, i: nat): Flight
    requires i < |fl.workers| && i < |fl.missing|
  {
    var bailed := fl.workers[i].Bailing?;
    fl.(workers := fl.workers[i := Sent(bailed)],
        channel := fl.channel + [if bailed then Bailed(i) else WorkerItem(fl, i)])
  }

  function SaveCount(results: Results): nat {
    if Negatives(results) == map[] then 0 else 1
  }

  // ---- the transition relation ----

  predicate Enabled(w: World, s: State, step: Step) {
    match step
    case Start(rules, data) => true
    case Cancel(c) => true
    case Expire(d, entities) => true
    case ClosePool => true
    case Read(c, fails) => c < |s.calls| && s.calls[c].phase.Reading?
    case Lead(c) => c < |s.calls| && s.calls[c].phase.Joining? && (w.coalesce ==> s.calls[c].data !in s.registered)
    case Join(c) => c < |s.calls| && s.calls[c].phase.Joining? && w.coalesce && s.calls[c].data in s.registered
    case Abandon(c) => c < |s.calls| && s.calls[c].phase.Waiting? && w.coalesce && c in s.cancelled
    case Resume(c) =>
      c < |s.calls| && s.calls[c].phase.Waiting? && s.calls[c].flight.Some?
      && s.calls[c].flight.value < |s.flights| && s.flights[s.calls[c].flight.value].stage.Published?
    case SaveResidual(c, persisted) => c < |s.calls| && s.calls[c].phase.SavingResidual?
    case EvaluateAll(f) => f < |s.flights| && !w.concurrent && s.flights[f].stage.Evaluating?
    case Submit(f) =>
      f < |s.flights| && w.concurrent && s.flights[f].stage.Evaluating? && s.poolOpen && Busy(s.flights) < w.poolSize
    case Reject(f) => f < |s.flights| && w.concurrent && s.flights[f].stage.Evaluating? && !s.poolOpen
    case Receive(f) => f < |s.flights| && s.flights[f].stage.Collecting? && s.flights[f].channel != []
    case StopCollecting(f) =>
      f < |s.flights| && s.flights[f].stage.Collecting? && MatchContextDone(s, s.flights[f])
    case Drain(f) => f < |s.flights| && s.flights[f].stage.Draining? && s.flights[f].channel != []
    case EndDrain(f) => f < |s.flights| && s.flights[f].stage.Draining? && s.flights[f].channel == []
    case Save(f, persisted) => f < |s.flights| && s.flights[f].stage.Saving?
    case Forget(f) => f < |s.flights| && s.flights[f].stage.Finished?
    case Publish(f) => f < |s.flights| && s.flights[f].stage.Forgotten?
    case Check(f, i) => f < |s.flights| && i < |s.flights[f].workers| && s.flights[f].workers[i].Queued?
    case Send(f, i) =>
      // a send blocks while the buffer, sized to the missing set, is full
      f < |s.flights| && i < |s.flights[f].workers| && i < |s.flights[f].missing|
      && (s.flights[f].workers[i].Bailing? || s.flights[f].workers[i].Matching?)
      && |s.flights[f].channel| < |s.flights[f].missing|
  }

  function SetCall(s: State, c: nat, call: Call): State
    requires c < |s.calls|
  {
    s.(calls := s.calls[c := call])
  }

  function SetFlight(s: State, f: nat, fl: Flight): State
    requires f < |s.flights|
  {
    s.(flights := s.flights[f := fl])
  }

  function AfterRead(call: Call, cached: Results): Call {
    var read := call.(cached := cached);
    read.(phase := if read.Missing() == [] then Returned(read.Answer(map[])) else Joining)
  }

  function Apply(w: World, s: State, step: Step): State
    requires Enabled(w, s, step)
  {
    match step
    case Start(rules, data) =>
      var phase := if w.concurrent && rules == [] then Returned(None) else Reading;
      s.(calls := s.calls + [Call(rules, data, map[], phase, None, false, 0)])
    case Cancel(c) => s.(cancelled := s.cancelled + {c})
    case Expire(d, entities) => if d in s.hashes then s.(hashes := s.hashes[d := s.hashes[d] - entities]) else s
    case ClosePool => s.(poolOpen := false)
    case Read(c, fails) =>
      SetCall(s, c, AfterRead(s.calls[c], if fails then map[] else Lookup(s.hashes, s.calls[c].data)))
    case Lead(c) =>
      var f := |s.flights|;
      var s1 := SetCall(s, c, s.calls[c].(phase := Waiting, flight := Some(f), leads := true));
      s1.(flights := s.flights + [NewFlight(s.calls[c], c)],
          registered := if w.coalesce then s.registered[s.calls[c].data := f] else s.registered)
    case Join(c) =>
      SetCall(s, c, s.calls[c].(phase := Waiting, flight := Some(s.registered[s.calls[c].data])))
    case Abandon(c) =>
      SetCall(s, c, s.calls[c].(phase := Returned(s.calls[c].Answer(map[]))))
    case Resume(c) =>
      var call := s.calls[c];
      SetCall(s, c, call.(phase := Resumed(w, call, s.flights[call.flight.value], c in s.cancelled)))
    case SaveResidual(c, persisted) =>
      var call := s.calls[c];
      var more := ResidualResults(call, call.phase.shared);
      SetCall(s, c, call.(phase := Returned(call.Answer(call.phase.shared + more)), saves := call.saves + SaveCount(more)))
        .(hashes := if persisted then StoreNegatives(s.hashes, call.data, more) else s.hashes)
    case EvaluateAll(f) =>
      var fl := s.flights[f];
      SetFlight(s, f, fl.(results := MatchAll(fl.missing, fl.key), stage := Saving))
    case Submit(f) => SetFlight(s, f, Submitted(s.flights[f]))
    case Reject(f) => SetFlight(s, f, s.flights[f].(stage := Finished(None)))
    case Receive(f) => SetFlight(s, f, Collected(s.flights[f]))
    case StopCollecting(f) => SetFlight(s, f, s.flights[f].(stage := Finished(Some(s.flights[f].results))))
    case Drain(f) => SetFlight(s, f, Drained(s.flights[f]))
    case EndDrain(f) => SetFlight(s, f, s.flights[f].(stage := Saving))
    case Save(f, persisted) =>
      var fl := s.flights[f];
      SetFlight(s, f, fl.(stage := Finished(Some(fl.results)), saves := fl.saves + SaveCount(fl.results)))
        .(hashes := if persisted then StoreNegatives(s.hashes, fl.key, fl.results) else s.hashes)
    case Forget(f) =>
      var fl := s.flights[f];
      SetFlight(s, f, fl.(stage := Forgotten(fl.stage.value)))
        .(registered := if w.coalesce then s.registered - {fl.key} else s.registered)
    case Publish(f) =>
      var fl := s.flights[f];
      SetFlight(s, f, fl.(stage := Published(fl.stage.value)))
        .(registered := if fl.key in s.registered && s.registered[fl.key] == f then s.registered - {fl.key} else s.registered)
    case Check(f, i) =>
      var fl := s.flights[f];
      SetFlight(s, f, fl.(workers := fl.workers[i := if MatchContextDone(s, fl) then Bailing else Matching]))
    case Send(f, i) => SetFlight(s, f, Sending(s.flights[f], i))
  }

  // ---- schedules ----

  ghost predicate Initial(w: World, s: State) {
    && TrueNegatives(w.truth, s.hashes)
    && s.calls == [] && s.flights == [] && s.registered == map[] && s.cancelled == {} && s.poolOpen
  }

  /** Callers bring rule lists whose matchers agree per entity. */
  ghost predicate Admissible(w: World, step: Step) {
    step.Start? ==> Coherent(w.truth, step.rules)
  }

  ghost predicate Schedule(w: World, s: State, steps: seq<Step>)
    decreases |steps|
  {
    steps == [] ||
    (Admissible(w, steps[0]) && Enabled(w, s, steps[0]) && Schedule(w, Apply(w, s, steps[0]), steps[1..]))
  }

  ghost function After(w: World, s: State, steps: seq<Step>): State
    requires Schedule(w, s, steps)
    decreases |steps|
  {
    if steps == [] then s else After(w, Apply(w, s, steps[0]), steps[1..])
  }
}
