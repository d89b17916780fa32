/** What every step of the protocol keeps. */
module ProtocolInvariant {
  import opened Prelude
  import opened Rules
  import opened Classification
  import opened TokenCache
  import opened Protocol

  // ---- the invariant ----

  /** The missing set a flight evaluates: distinct entities, each paired with an agreeing matcher. */
  ghost predicate MissingOk(truth: Truth, key: Bytes, missing: seq<Missing>) {
    && DistinctEntities(missing)
    && (forall k :: 0 <= k < |missing| ==> missing[k].rule.matcher.matches(key) == truth(missing[k].entity, key))
  }

  ghost predicate ItemOk(fl: Flight, item: Item) {
    && item.worker < |fl.workers| <= |fl.missing|
    && fl.workers[item.worker] == Sent(item.Bailed?)
    && (item.Evaluated? ==> item == WorkerItem(fl, item.worker))
  }

  /** A worker that evaluated has its outcome recorded or on its way. */
  ghost predicate Delivered(fl: Flight, i: int)
    requires 0 <= i < |fl.workers| <= |fl.missing|
  {
    fl.workers[i] == Sent(false) ==>
      fl.missing[i].entity in fl.results || WorkerItem(fl, i) in fl.channel
  }

  ghost predicate WorkersOk(cancelled: set<nat>, fl: Flight) {
    && |fl.workers| <= |fl.missing|
    && fl.received + |fl.channel| + Active(fl.workers) == |fl.workers|
    && (forall k :: 0 <= k < |fl.channel| ==> ItemOk(fl, fl.channel[k]))
    && (forall i :: 0 <= i < |fl.workers| ==> Delivered(fl, i))
    && (forall i :: 0 <= i < |fl.workers| && (fl.workers[i].Bailing? || fl.workers[i] == Sent(true)) ==>
          fl.leader in cancelled || fl.winner.Some? || BodyOver(fl.stage))
  }

  ghost predicate Wins(fl: Flight, rule: Rule, k: int) {
    0 <= k < |fl.missing| && fl.missing[k].rule == rule && rule.matcher.matches(fl.key)
  }

  ghost predicate StageOk(w: World, cancelled: set<nat>, poolOpen: bool, fl: Flight) {
    match fl.stage
    case Evaluating =>
      fl.winner == None && fl.results == map[] && fl.received == 0 && |fl.workers| < |fl.missing| && fl.saves == 0
    case Collecting =>
      w.concurrent && fl.winner == None && |fl.workers| == |fl.missing| && fl.received < |fl.workers| && fl.saves == 0
    case Draining => w.concurrent && fl.winner.Some? && fl.saves == 0
    case Saving => (fl.winner.Some? || Covers(fl.results, fl.missing) || fl.leader in cancelled) && fl.saves == 0
    case _ => ValueOk(w, cancelled, poolOpen, fl, fl.stage.value)
  }

  /** The value a body returned: none only from a closed pool; otherwise complete unless a
      match or the leader's cancellation cut it short. */
  ghost predicate ValueOk(w: World, cancelled: set<nat>, poolOpen: bool, fl: Flight, value: Option<Results>) {
    && fl.saves <= 1
    && (value.None? ==> w.concurrent && !poolOpen && fl.winner == None)
    && (value.Some? ==> value.value == fl.results)
    && (value.Some? && fl.winner == None ==>
          Covers(fl.results, fl.missing) || (w.concurrent && fl.leader in cancelled))
  }

  ghost predicate FlightOk(w: World, cancelled: set<nat>, poolOpen: bool, fl: Flight) {
    && fl.missing != []
    && MissingOk(w.truth, fl.key, fl.missing)
    && Truthful(w.truth, fl.key, fl.results)
    && WorkersOk(cancelled, fl)
    && (fl.winner.Some? ==> w.concurrent && exists k :: Wins(fl, fl.winner.value, k))
    && (!w.concurrent ==> fl.workers == [])
    && (!w.concurrent && fl.stage.Saving? ==> Covers(fl.results, fl.missing))
    && StageOk(w, cancelled, poolOpen, fl)
  }

  /** What a returned call may answer. */
  ghost predicate OutcomeOk(w: World, cancelled: set<nat>, poolOpen: bool, c: nat, call: Call, outcome: Option<Rule>) {
    var expected := FirstMatch(call.rules, call.data);
    && (outcome.Some? ==> Sound(call.rules, call.data, outcome.value))
    && (!w.concurrent ==> outcome == expected || (w.coalesce && outcome == None && c in cancelled))
    && (w.concurrent && c !in cancelled && poolOpen ==>
          (outcome.Some? <==> expected.Some?) && (!call.leads ==> outcome == expected))
  }

  ghost predicate CallOk(w: World, cancelled: set<nat>, poolOpen: bool, c: nat, call: Call) {
    && Coherent(w.truth, call.rules)
    && NegativeTruth(w.truth, call.data, call.cached)
    && (call.leads ==> call.flight.Some? && call.saves == 0)
    && match call.phase
       case Reading => call.flight == None && call.saves == 0
       case Joining => call.flight == None && call.saves == 0 && call.Missing() != []
       case Waiting => call.flight.Some? && call.saves == 0
       case SavingResidual(shared) =>
         call.flight.Some? && !call.leads && call.saves == 0 && Truthful(w.truth, call.data, shared)
       case Returned(outcome) => call.saves <= 1 && OutcomeOk(w, cancelled, poolOpen, c, call, outcome)
  }

  /** The call's flight exists, is for its token, and is its own exactly when it leads. */
  ghost predicate Attached(flights: seq<Flight>, c: nat, call: Call) {
    call.flight.Some? ==>
      && call.flight.value < |flights|
      && var fl := flights[call.flight.value];
         fl.key == call.data && (call.leads <==> fl.leader == c) && (call.leads ==> fl.missing == call.Missing())
  }

  ghost predicate Led(calls: seq<Call>, f: nat, fl: Flight) {
    fl.leader < |calls| && calls[fl.leader].leads && calls[fl.leader].flight == Some(f)
  }

  ghost predicate CallsOk(w: World, s: State) {
    forall c :: 0 <= c < |s.calls| ==>
      CallOk(w, s.cancelled, s.poolOpen, c, s.calls[c]) && Attached(s.flights, c, s.calls[c])
  }

  ghost predicate FlightsOk(w: World, s: State) {
    forall f :: 0 <= f < |s.flights| ==>
      FlightOk(w, s.cancelled, s.poolOpen, s.flights[f]) && Led(s.calls, f, s.flights[f])
  }

  /** A key maps to the one flight of that token whose body is still running, and to nothing else. */
  ghost predicate RegistryOk(w: World, s: State) {
    && (!w.coalesce ==> s.registered == map[])
    && (forall d :: d in s.registered ==>
          s.registered[d] < |s.flights| && s.flights[s.registered[d]].key == d && Joinable(s.flights[s.registered[d]].stage))
    && (forall f :: 0 <= f < |s.flights| && w.coalesce && Joinable(s.flights[f].stage) ==>
          s.flights[f].key in s.registered && s.registered[s.flights[f].key] == f)
  }

  ghost predicate Inv(w: World, s: State) {
    && TrueNegatives(w.truth, s.hashes)
    && CallsOk(w, s)
    && FlightsOk(w, s)
    && RegistryOk(w, s)
  }

  // ---- counting the tasks in the pool ----

  lemma {:induction false} ActiveUpdate(workers: seq<Worker>, i: nat, worker: Worker)
    requires i < |workers| && !workers[i].Sent?
    ensures Active(workers[i := worker]) == Active(workers) - (if worker.Sent? then 1 else 0)
    ensures Active(workers) > 0
  {
    var n := |workers| - 1;
    var updated := workers[i := worker];
    if i == n {
      assert updated[..n] == workers[..n];
    } else {
      ActiveUpdate(workers[..n], i, worker);
      assert updated[..n] == workers[..n][i := worker];
    }
  }

  lemma ActiveAppend(workers: seq<Worker>)
    ensures Active(workers + [Queued]) == Active(workers) + 1
  {
    assert (workers + [Queued])[..|workers|] == workers;
  }

  lemma {:induction false} NoneActive(workers: seq<Worker>)
    requires Active(workers) == 0
    ensures forall i :: 0 <= i < |workers| ==> workers[i].Sent?
  {
    if workers != [] { NoneActive(workers[..|workers| - 1]); }
  }

  // ---- frames: one flight or one call changes ----

  lemma MissingSetOk(truth: Truth, rules: seq<Rule>, data: Bytes, cached: Results)
    requires Coherent(truth, rules)
    ensures MissingOk(truth, data, MissingSet(rules, data, cached))
  {
    MissingSetIsGood(rules, data, cached);
    var missing := MissingSet(rules, data, cached);
    forall k | 0 <= k < |missing|
      ensures missing[k].rule.matcher.matches(data) == truth(missing[k].entity, data)
    {
      var i :| 0 <= i < |rules| && rules[i] == missing[k].rule && ClaimsFirst(rules, data, i);
    }
  }

  ghost predicate SameFlight(fl: Flight, fl': Flight) {
    fl'.key == fl.key && fl'.leader == fl.leader && fl'.missing == fl.missing
  }

  lemma FlightChangeKeepsFlights(w: World, s: State, s': State, f: nat, fl': Flight)
    requires FlightsOk(w, s) && f < |s.flights| && s' == SetFlight(s, f, fl').(hashes := s'.hashes)
    requires SameFlight(s.flights[f], fl') && FlightOk(w, s.cancelled, s.poolOpen, fl')
    ensures FlightsOk(w, s')
  {
    forall g | 0 <= g < |s'.flights|
      ensures FlightOk(w, s'.cancelled, s'.poolOpen, s'.flights[g]) && Led(s'.calls, g, s'.flights[g])
    {
      assert FlightOk(w, s.cancelled, s.poolOpen, s.flights[g]) && Led(s.calls, g, s.flights[g]);
    }
  }

  lemma FlightChangeKeepsRegistry(w: World, s: State, s': State, f: nat, fl': Flight)
    requires RegistryOk(w, s) && f < |s.flights| && s' == SetFlight(s, f, fl').(hashes := s'.hashes)
    requires SameFlight(s.flights[f], fl') && Joinable(fl'.stage) == Joinable(s.flights[f].stage)
    ensures RegistryOk(w, s')
  {
  }

  lemma FlightChangeKeepsCalls(w: World, s: State, s': State, f: nat, fl': Flight)
    requires CallsOk(w, s) && f < |s.flights| && s' == SetFlight(s, f, fl').(hashes := s'.hashes)
    requires SameFlight(s.flights[f], fl')
    ensures CallsOk(w, s')
  {
    forall c | 0 <= c < |s'.calls|
      ensures CallOk(w, s'.cancelled, s'.poolOpen, c, s'.calls[c]) && Attached(s'.flights, c, s'.calls[c])
    {
      assert CallOk(w, s.cancelled, s.poolOpen, c, s.calls[c]) && Attached(s.flights, c, s.calls[c]);
    }
  }

  lemma FlightChanges(w: World, s: State, s': State, f: nat, fl': Flight)
    requires Inv(w, s) && f < |s.flights|
    requires s' == SetFlight(s, f, fl').(hashes := s'.hashes)
    requires TrueNegatives(w.truth, s'.hashes)
    requires SameFlight(s.flights[f], fl') && Joinable(fl'.stage) == Joinable(s.flights[f].stage)
    requires FlightOk(w, s.cancelled, s.poolOpen, fl')
    ensures Inv(w, s')
  {
    FlightChangeKeepsFlights(w, s, s', f, fl');
    FlightChangeKeepsRegistry(w, s, s', f, fl');
    FlightChangeKeepsCalls(w, s, s', f, fl');
  }

  lemma CallChanges(w: World, s: State, s': State, c: nat, call': Call)
    requires Inv(w, s) && c < |s.calls|
    requires s' == SetCall(s, c, call').(hashes := s'.hashes)
    requires TrueNegatives(w.truth, s'.hashes)
    requires s.calls[c].leads ==> call'.leads && call'.flight == s.calls[c].flight
    requires CallOk(w, s.cancelled, s.poolOpen, c, call') && Attached(s.flights, c, call')
    ensures Inv(w, s')
  {
    forall f | 0 <= f < |s'.flights| ensures Led(s'.calls, f, s'.flights[f]) {
      assert Led(s.calls, f, s.flights[f]);
    }
  }

  // ---- environment steps ----

  lemma StartKeepsInv(w: World, s: State, step: Step)
    requires Inv(w, s) && step.Start? && Admissible(w, step)
    ensures Inv(w, Apply(w, s, step))
  {
    var s' := Apply(w, s, step);
    forall f | 0 <= f < |s'.flights| ensures Led(s'.calls, f, s'.flights[f]) {
      assert Led(s.calls, f, s.flights[f]);
    }
    forall c | 0 <= c < |s'.calls|
      ensures CallOk(w, s'.cancelled, s'.poolOpen, c, s'.calls[c]) && Attached(s'.flights, c, s'.calls[c])
    {
      if c < |s.calls| { assert s'.calls[c] == s.calls[c]; }
    }
  }

  /** Cancelling more calls takes no promise away that was made. */
  lemma CallAllowsCancel(w: World, cancelled: set<nat>, more: set<nat>, poolOpen: bool, c: nat, call: Call)
    requires CallOk(w, cancelled, poolOpen, c, call) && cancelled <= more
    ensures CallOk(w, more, poolOpen, c, call)
  {
  }

  lemma FlightAllowsCancel(w: World, cancelled: set<nat>, more: set<nat>, poolOpen: bool, fl: Flight)
    requires FlightOk(w, cancelled, poolOpen, fl) && cancelled <= more
    ensures FlightOk(w, more, poolOpen, fl)
  {
  }

  lemma CancelKeepsInv(w: World, s: State, c: nat)
    requires Inv(w, s)
    ensures Inv(w, Apply(w, s, Cancel(c)))
  {
    var more := s.cancelled + {c};
    forall d | 0 <= d < |s.calls| ensures CallOk(w, more, s.poolOpen, d, s.calls[d]) {
      CallAllowsCancel(w, s.cancelled, more, s.poolOpen, d, s.calls[d]);
    }
    forall f | 0 <= f < |s.flights| ensures FlightOk(w, more, s.poolOpen, s.flights[f]) {
      FlightAllowsCancel(w, s.cancelled, more, s.poolOpen, s.flights[f]);
    }
  }

  lemma ClosePoolKeepsInv(w: World, s: State)
    requires Inv(w, s)
    ensures Inv(w, Apply(w, s, ClosePool))
  {
    var s' := Apply(w, s, ClosePool);
    forall f | 0 <= f < |s'.flights| ensures FlightOk(w, s'.cancelled, s'.poolOpen, s'.flights[f]) {
      assert FlightOk(w, s.cancelled, s.poolOpen, s.flights[f]);
    }
  }

  // ---- caller steps ----

  lemma ReadKeepsInv(w: World, s: State, c: nat, fails: bool)
    requires Inv(w, s) && Enabled(w, s, Read(c, fails))
    ensures Inv(w, Apply(w, s, Read(c, fails)))
  {
    var call := s.calls[c];
    var cached := if fails then map[] else Lookup(s.hashes, call.data);
    LookupIsTrue(w.truth, s.hashes, call.data);
    var call' := AfterRead(call, cached);
    if call'.Missing() == [] {
      FinalPassIsFirstMatch(w.truth, call.rules, call.data, cached, map[]);
      FinalPassIsSound(w.truth, call.rules, call.data, cached, map[]);
    }
    CallChanges(w, s, Apply(w, s, Read(c, fails)), c, call');
  }

  lemma NewFlightOk(w: World, cancelled: set<nat>, poolOpen: bool, c: nat, call: Call)
    requires CallOk(w, cancelled, poolOpen, c, call) && call.phase.Joining?
    ensures FlightOk(w, cancelled, poolOpen, NewFlight(call, c))
  {
    MissingSetOk(w.truth, call.rules, call.data, call.cached);
  }

  lemma LeadKeepsFlights(w: World, s: State, c: nat)
    requires Inv(w, s) && Enabled(w, s, Lead(c))
    ensures FlightsOk(w, Apply(w, s, Lead(c)))
  {
    var s' := Apply(w, s, Lead(c));
    NewFlightOk(w, s.cancelled, s.poolOpen, c, s.calls[c]);
    forall g | 0 <= g < |s'.flights|
      ensures FlightOk(w, s'.cancelled, s'.poolOpen, s'.flights[g]) && Led(s'.calls, g, s'.flights[g])
    {
      if g < |s.flights| {
        assert s'.flights[g] == s.flights[g] && Led(s.calls, g, s.flights[g]);
      }
    }
  }

  lemma LeadKeepsCalls(w: World, s: State, c: nat)
    requires Inv(w, s) && Enabled(w, s, Lead(c))
    ensures CallsOk(w, Apply(w, s, Lead(c)))
  {
    var s' := Apply(w, s, Lead(c));
    forall k | 0 <= k < |s'.calls|
      ensures CallOk(w, s'.cancelled, s'.poolOpen, k, s'.calls[k]) && Attached(s'.flights, k, s'.calls[k])
    {
      assert CallOk(w, s.cancelled, s.poolOpen, k, s.calls[k]) && Attached(s.flights, k, s.calls[k]);
    }
  }

  lemma LeadKeepsRegistry(w: World, s: State, c: nat)
    requires RegistryOk(w, s) && Enabled(w, s, Lead(c))
    ensures RegistryOk(w, Apply(w, s, Lead(c)))
  {
    var s' := Apply(w, s, Lead(c));
    assert forall g :: 0 <= g < |s.flights| ==> s'.flights[g] == s.flights[g];
  }

  lemma LeadKeepsInv(w: World, s: State, c: nat)
    requires Inv(w, s) && Enabled(w, s, Lead(c))
    ensures Inv(w, Apply(w, s, Lead(c)))
  {
    LeadKeepsFlights(w, s, c);
    LeadKeepsCalls(w, s, c);
    LeadKeepsRegistry(w, s, c);
  }

  lemma JoinKeepsInv(w: World, s: State, c: nat)
    requires Inv(w, s) && Enabled(w, s, Join(c))
    ensures Inv(w, Apply(w, s, Join(c)))
  {
    var call := s.calls[c];
    var f := s.registered[call.data];
    assert Led(s.calls, f, s.flights[f]);
    CallChanges(w, s, Apply(w, s, Join(c)), c, call.(phase := Waiting, flight := Some(f)));
  }

  /** A partial, truthful answer is sound; the empty one is admissible once cancelled or closed. */
  lemma PartialAnswer(w: World, call: Call, evaluated: Results)
    requires Coherent(w.truth, call.rules) && NegativeTruth(w.truth, call.data, call.cached)
    requires Truthful(w.truth, call.data, evaluated)
    ensures call.Answer(evaluated).Some? ==> Sound(call.rules, call.data, call.Answer(evaluated).value)
    ensures evaluated == map[] ==> call.Answer(evaluated) == None
    ensures Covers(evaluated, call.Missing()) ==> call.Answer(evaluated) == FirstMatch(call.rules, call.data)
  {
    FinalPassIsSound(w.truth, call.rules, call.data, call.cached, evaluated);
    if evaluated == map[] {
      var i := FinalPassIsLeast(call.rules, call.data, call.cached, evaluated);
    }
    if Covers(evaluated, call.Missing()) {
      FinalPassIsFirstMatch(w.truth, call.rules, call.data, call.cached, evaluated);
    }
  }

  lemma AbandonKeepsInv(w: World, s: State, c: nat)
    requires Inv(w, s) && Enabled(w, s, Abandon(c))
    ensures Inv(w, Apply(w, s, Abandon(c)))
  {
    var call := s.calls[c];
    PartialAnswer(w, call, map[]);
    CallChanges(w, s, Apply(w, s, Abandon(c)), c, call.(phase := Returned(call.Answer(map[]))));
  }

  /** A leader's recorded winner is a first claimant of its entity that truly matches. */
  lemma WinnerIsSound(w: World, s: State, c: nat)
    requires Inv(w, s) && c < |s.calls| && s.calls[c].leads
    requires var fl := s.flights[s.calls[c].flight.value]; fl.winner.Some?
    ensures var fl := s.flights[s.calls[c].flight.value];
            Sound(s.calls[c].rules, s.calls[c].data, fl.winner.value)
  {
    var call := s.calls[c];
    assert Attached(s.flights, c, call);
    var fl := s.flights[call.flight.value];
    var k :| Wins(fl, fl.winner.value, k);
    MissingSetIsGood(call.rules, call.data, call.cached);
  }

  lemma ResumeKeepsInv(w: World, s: State, c: nat)
    requires Inv(w, s) && Enabled(w, s, Resume(c))
    ensures Inv(w, Apply(w, s, Resume(c)))
  {
    var call := s.calls[c];
    var fl := s.flights[call.flight.value];
    assert CallOk(w, s.cancelled, s.poolOpen, c, call) && Attached(s.flights, c, call);
    assert FlightOk(w, s.cancelled, s.poolOpen, fl);
    var call' := call.(phase := Resumed(w, call, fl, c in s.cancelled));
    ResumedIsOk(w, s, c);
    CallChanges(w, s, Apply(w, s, Resume(c)), c, call');
  }

  lemma ResumedIsOk(w: World, s: State, c: nat)
    requires Inv(w, s) && Enabled(w, s, Resume(c))
    ensures var call := s.calls[c];
            CallOk(w, s.cancelled, s.poolOpen, c, call.(phase := Resumed(w, call, s.flights[call.flight.value], c in s.cancelled)))
  {
    var call := s.calls[c];
    var fl := s.flights[call.flight.value];
    assert CallOk(w, s.cancelled, s.poolOpen, c, call) && Attached(s.flights, c, call);
    assert FlightOk(w, s.cancelled, s.poolOpen, fl);
    PartialAnswer(w, call, map[]);
    PartialAnswer(w, call, fl.results);
    if w.concurrent && call.leads && fl.winner.Some? {
      WinnerIsSound(w, s, c);
      SoundImpliesMatch(call.rules, call.data, fl.winner.value);
    } else if fl.stage.value.Some? {
      if Covers(fl.results, call.Missing()) {
        CoveredHasNoResidual(call.Missing(), fl.results);
      } else if Residual(call.Missing(), fl.results) == [] {
        NoResidualIsCovered(call.Missing(), fl.results);
      }
    }
  }

  /** The residual results complete the shared ones for this caller. */
  lemma ResidualCompletes(w: World, call: Call, shared: Results)
    requires Coherent(w.truth, call.rules) && NegativeTruth(w.truth, call.data, call.cached)
    requires Truthful(w.truth, call.data, shared)
    ensures var more := ResidualResults(call, shared);
            && Truthful(w.truth, call.data, more)
            && call.Answer(shared + more) == FirstMatch(call.rules, call.data)
            && (call.Answer(shared + more).Some? ==> Sound(call.rules, call.data, call.Answer(shared + more).value))
  {
    var residual, more := Residual(call.Missing(), shared), ResidualResults(call, shared);
    MissingSetIsGood(call.rules, call.data, call.cached);
    ResidualProperties(call.Missing(), shared);
    MatchAllIsTruthful(w.truth, call.rules, residual, call.data);
    MergedCovers(call.Missing(), shared, more);
    PartialAnswer(w, call, shared + more);
  }

  function Completed(call: Call, shared: Results): Call {
    var more := ResidualResults(call, shared);
    call.(phase := Returned(call.Answer(shared + more)), saves := call.saves + SaveCount(more))
  }

  lemma CompletedIsOk(w: World, cancelled: set<nat>, poolOpen: bool, c: nat, call: Call)
    requires CallOk(w, cancelled, poolOpen, c, call) && call.phase.SavingResidual?
    ensures CallOk(w, cancelled, poolOpen, c, Completed(call, call.phase.shared))
  {
    ResidualCompletes(w, call, call.phase.shared);
    var outcome := Completed(call, call.phase.shared).phase.outcome;
    if outcome.Some? { SoundImpliesMatch(call.rules, call.data, outcome.value); }
  }

  lemma SaveResidualKeepsInv(w: World, s: State, c: nat, persisted: bool)
    requires Inv(w, s) && Enabled(w, s, SaveResidual(c, persisted))
    ensures Inv(w, Apply(w, s, SaveResidual(c, persisted)))
  {
    var call := s.calls[c];
    var shared := call.phase.shared;
    assert CallOk(w, s.cancelled, s.poolOpen, c, call) && Attached(s.flights, c, call);
    CompletedIsOk(w, s.cancelled, s.poolOpen, c, call);
    ResidualCompletes(w, call, shared);
    StoreNegativesKeepsTruth(w.truth, s.hashes, call.data, ResidualResults(call, shared));
    SavedCallChanges(w, s, c, persisted);
  }

  lemma SavedCallChanges(w: World, s: State, c: nat, persisted: bool)
    requires Inv(w, s) && Enabled(w, s, SaveResidual(c, persisted))
    requires var call := s.calls[c];
             && CallOk(w, s.cancelled, s.poolOpen, c, Completed(call, call.phase.shared))
             && TrueNegatives(w.truth, StoreNegatives(s.hashes, call.data, ResidualResults(call, call.phase.shared)))
    ensures Inv(w, Apply(w, s, SaveResidual(c, persisted)))
  {
    var call := s.calls[c];
    assert Attached(s.flights, c, call);
    CallChanges(w, s, Apply(w, s, SaveResidual(c, persisted)), c, Completed(call, call.phase.shared));
  }

  // ---- flight steps ----

  lemma EvaluateAllKeepsInv(w: World, s: State, f: nat)
    requires Inv(w, s) && Enabled(w, s, EvaluateAll(f))
    ensures Inv(w, Apply(w, s, EvaluateAll(f)))
  {
    var fl := s.flights[f];
    FlightEvaluation(w.truth, fl.key, fl.missing);
    FlightChanges(w, s, Apply(w, s, EvaluateAll(f)), f, fl.(results := MatchAll(fl.missing, fl.key), stage := Saving));
  }

  lemma {:induction false} FlightEvaluation(truth: Truth, key: Bytes, missing: seq<Missing>)
    requires MissingOk(truth, key, missing)
    ensures Truthful(truth, key, MatchAll(missing, key)) && Covers(MatchAll(missing, key), missing)
  {
    if missing != [] {
      FlightEvaluation(truth, key, missing[..|missing| - 1]);
    }
  }

  lemma SubmittedIsOk(w: World, cancelled: set<nat>, poolOpen: bool, fl: Flight)
    requires FlightOk(w, cancelled, poolOpen, fl) && w.concurrent && fl.stage.Evaluating?
    ensures FlightOk(w, cancelled, poolOpen, Submitted(fl))
  {
    ActiveAppend(fl.workers);
    var fl' := Submitted(fl);
    forall i | 0 <= i < |fl'.workers| ensures Delivered(fl', i) {
      if i < |fl.workers| { assert Delivered(fl, i); }
    }
    forall k | 0 <= k < |fl'.channel| ensures ItemOk(fl', fl'.channel[k]) {
      assert ItemOk(fl, fl.channel[k]);
    }
  }

  lemma SubmitKeepsInv(w: World, s: State, f: nat)
    requires Inv(w, s) && Enabled(w, s, Submit(f))
    ensures Inv(w, Apply(w, s, Submit(f)))
  {
    assert FlightOk(w, s.cancelled, s.poolOpen, s.flights[f]);
    SubmittedIsOk(w, s.cancelled, s.poolOpen, s.flights[f]);
    FlightChanges(w, s, SetFlight(s, f, Submitted(s.flights[f])), f, Submitted(s.flights[f]));
  }

  lemma RejectKeepsInv(w: World, s: State, f: nat)
    requires Inv(w, s) && Enabled(w, s, Reject(f))
    ensures Inv(w, Apply(w, s, Reject(f)))
  {
    var fl := s.flights[f];
    SameWorkers(s.cancelled, fl, fl.(stage := Finished(None)));
    FlightChanges(w, s, Apply(w, s, Reject(f)), f, fl.(stage := Finished(None)));
  }

  /** Moving to a later stage keeps the workers' accounts. */
  lemma SameWorkers(cancelled: set<nat>, fl: Flight, fl': Flight)
    requires WorkersOk(cancelled, fl)
    requires fl' == fl.(stage := fl'.stage, saves := fl'.saves) && (BodyOver(fl.stage) ==> BodyOver(fl'.stage))
    ensures WorkersOk(cancelled, fl')
  {
    forall i | 0 <= i < |fl'.workers| ensures Delivered(fl', i) { assert Delivered(fl, i); }
    forall k | 0 <= k < |fl'.channel| ensures ItemOk(fl', fl'.channel[k]) { assert ItemOk(fl, fl.channel[k]); }
  }

  /** Taking the head of the channel, whatever is then recorded of it. */
  lemma TakeItem(w: World, cancelled: set<nat>, fl: Flight, fl': Flight)
    requires MissingOk(w.truth, fl.key, fl.missing) && Truthful(w.truth, fl.key, fl.results)
    requires WorkersOk(cancelled, fl) && fl.channel != []
    requires var item := fl.channel[0];
             fl' == fl.(channel := fl.channel[1..], received := fl.received + 1, stage := fl'.stage, winner := fl'.winner,
                        results := if item.Evaluated? then fl.results[item.entity := item.matched] else fl.results)
    requires fl.winner.Some? ==> fl'.winner.Some?
    requires !BodyOver(fl.stage)
    ensures WorkersOk(cancelled, fl') && Truthful(w.truth, fl.key, fl'.results)
  {
    var item := fl.channel[0];
    assert ItemOk(fl, item);
    forall i | 0 <= i < |fl'.workers| ensures Delivered(fl', i) {
      assert Delivered(fl, i);
      if fl.workers[i] == Sent(false) && fl.missing[i].entity !in fl'.results {
        var k :| 0 <= k < |fl.channel| && fl.channel[k] == WorkerItem(fl, i);
        assert fl'.channel[k - 1] == WorkerItem(fl', i);
      }
    }
    forall k | 0 <= k < |fl'.channel| ensures ItemOk(fl', fl'.channel[k]) {
      assert ItemOk(fl, fl.channel[k + 1]);
    }
  }

  /** When every task was received, an incomplete result without a match means the leader was cancelled. */
  lemma AllReceived(w: World, cancelled: set<nat>, fl: Flight)
    requires WorkersOk(cancelled, fl) && !BodyOver(fl.stage) && fl.winner == None
    requires |fl.workers| == |fl.missing| == fl.received
    ensures Covers(fl.results, fl.missing) || fl.leader in cancelled
  {
    NoneActive(fl.workers);
    forall i | 0 <= i < |fl.missing| && fl.leader !in cancelled ensures fl.missing[i].entity in fl.results {
      assert fl.workers[i].Sent? && Delivered(fl, i);
    }
  }

  lemma CollectedIsOk(w: World, cancelled: set<nat>, poolOpen: bool, fl: Flight)
    requires FlightOk(w, cancelled, poolOpen, fl) && fl.stage.Collecting? && fl.channel != []
    ensures FlightOk(w, cancelled, poolOpen, Collected(fl))
  {
    var fl' := Collected(fl);
    assert ItemOk(fl, fl.channel[0]);
    TakeItem(w, cancelled, fl, fl');
    if fl'.stage.Draining? {
      assert Wins(fl', fl'.winner.value, fl.channel[0].worker);
    } else if fl'.stage.Saving? {
      AllReceived(w, cancelled, fl');
    }
  }

  lemma ReceiveKeepsInv(w: World, s: State, f: nat)
    requires Inv(w, s) && Enabled(w, s, Receive(f))
    ensures Inv(w, Apply(w, s, Receive(f)))
  {
    assert FlightOk(w, s.cancelled, s.poolOpen, s.flights[f]);
    CollectedIsOk(w, s.cancelled, s.poolOpen, s.flights[f]);
    FlightChanges(w, s, SetFlight(s, f, Collected(s.flights[f])), f, Collected(s.flights[f]));
  }

  lemma StopCollectingKeepsInv(w: World, s: State, f: nat)
    requires Inv(w, s) && Enabled(w, s, StopCollecting(f))
    ensures Inv(w, Apply(w, s, StopCollecting(f)))
  {
    var fl := s.flights[f];
    var fl' := fl.(stage := Finished(Some(fl.results)));
    SameWorkers(s.cancelled, fl, fl');
    FlightChanges(w, s, Apply(w, s, StopCollecting(f)), f, fl');
  }

  lemma WinnerStays(fl: Flight, fl': Flight)
    requires SameFlight(fl, fl') && fl'.winner == fl.winner
    requires fl.winner.Some? && exists k :: Wins(fl, fl.winner.value, k)
    ensures exists k :: Wins(fl', fl'.winner.value, k)
  {
    var k :| Wins(fl, fl.winner.value, k);
    assert Wins(fl', fl'.winner.value, k);
  }

  lemma DrainKeepsInv(w: World, s: State, f: nat)
    requires Inv(w, s) && Enabled(w, s, Drain(f))
    ensures Inv(w, Apply(w, s, Drain(f)))
  {
    var fl := s.flights[f];
    var fl' := Drained(fl);
    TakeItem(w, s.cancelled, fl, fl');
    WinnerStays(fl, fl');
    FlightChanges(w, s, Apply(w, s, Drain(f)), f, fl');
  }

  lemma EndDrainKeepsInv(w: World, s: State, f: nat)
    requires Inv(w, s) && Enabled(w, s, EndDrain(f))
    ensures Inv(w, Apply(w, s, EndDrain(f)))
  {
    var fl := s.flights[f];
    var fl' := fl.(stage := Saving);
    SameWorkers(s.cancelled, fl, fl');
    WinnerStays(fl, fl');
    FlightChanges(w, s, Apply(w, s, EndDrain(f)), f, fl');
  }

  lemma SavedIsOk(w: World, cancelled: set<nat>, poolOpen: bool, fl: Flight)
    requires FlightOk(w, cancelled, poolOpen, fl) && fl.stage.Saving?
    ensures FlightOk(w, cancelled, poolOpen, fl.(stage := Finished(Some(fl.results)), saves := fl.saves + SaveCount(fl.results)))
  {
    var fl' := fl.(stage := Finished(Some(fl.results)), saves := fl.saves + SaveCount(fl.results));
    SameWorkers(cancelled, fl, fl');
    if fl.winner.Some? { WinnerStays(fl, fl'); }
  }

  lemma SaveKeepsInv(w: World, s: State, f: nat, persisted: bool)
    requires Inv(w, s) && Enabled(w, s, Save(f, persisted))
    ensures Inv(w, Apply(w, s, Save(f, persisted)))
  {
    var fl := s.flights[f];
    var fl' := fl.(stage := Finished(Some(fl.results)), saves := fl.saves + SaveCount(fl.results));
    var hashes := if persisted then StoreNegatives(s.hashes, fl.key, fl.results) else s.hashes;
    assert FlightOk(w, s.cancelled, s.poolOpen, fl);
    SavedIsOk(w, s.cancelled, s.poolOpen, fl);
    StoreNegativesKeepsTruth(w.truth, s.hashes, fl.key, fl.results);
    FlightChanges(w, s, SetFlight(s, f, fl').(hashes := hashes), f, fl');
    SaveApplies(w, s, f, persisted, fl', hashes);
  }

  lemma SaveApplies(w: World, s: State, f: nat, persisted: bool, fl': Flight, hashes: Hashes)
    requires Enabled(w, s, Save(f, persisted))
    requires var fl := s.flights[f];
             && fl' == fl.(stage := Finished(Some(fl.results)), saves := fl.saves + SaveCount(fl.results))
             && hashes == if persisted then StoreNegatives(s.hashes, fl.key, fl.results) else s.hashes
    ensures Apply(w, s, Save(f, persisted)) == SetFlight(s, f, fl').(hashes := hashes)
  {
  }

  /** Dropping a key together with its flight's joinable stage leaves an exact registry. */
  lemma RegistryDrops(w: World, s: State, s': State, f: nat, fl': Flight)
    requires RegistryOk(w, s) && f < |s.flights|
    requires s' == SetFlight(s, f, fl').(registered := s'.registered)
    requires fl'.key == s.flights[f].key && !Joinable(fl'.stage)
    requires s'.registered == if Joinable(s.flights[f].stage) && w.coalesce then s.registered - {fl'.key} else s.registered
    ensures RegistryOk(w, s')
  {
    forall g | 0 <= g < |s'.flights| && w.coalesce && Joinable(s'.flights[g].stage)
      ensures s'.flights[g].key in s'.registered && s'.registered[s'.flights[g].key] == g
    {
      assert g != f && s.registered[s.flights[g].key] == g;
    }
  }

  lemma FlightLeavesRegistry(w: World, s: State, s': State, f: nat, fl': Flight)
    requires Inv(w, s) && f < |s.flights|
    requires s' == SetFlight(s, f, fl').(registered := s'.registered)
    requires SameFlight(s.flights[f], fl') && !Joinable(fl'.stage)
    requires FlightOk(w, s.cancelled, s.poolOpen, fl')
    requires s'.registered == if Joinable(s.flights[f].stage) && w.coalesce then s.registered - {fl'.key} else s.registered
    ensures Inv(w, s')
  {
    RegistryDrops(w, s, s', f, fl');
    var same := s'.(registered := s.registered);
    FlightChangeKeepsFlights(w, s, same, f, fl');
    FlightChangeKeepsCalls(w, s, same, f, fl');
  }

  lemma ForgetKeepsInv(w: World, s: State, f: nat)
    requires Inv(w, s) && Enabled(w, s, Forget(f))
    ensures Inv(w, Apply(w, s, Forget(f)))
  {
    var fl := s.flights[f];
    var fl' := fl.(stage := Forgotten(fl.stage.value));
    SameWorkers(s.cancelled, fl, fl');
    if fl.winner.Some? { WinnerStays(fl, fl'); }
    FlightLeavesRegistry(w, s, Apply(w, s, Forget(f)), f, fl');
  }

  lemma PublishKeepsInv(w: World, s: State, f: nat)
    requires Inv(w, s) && Enabled(w, s, Publish(f))
    ensures Inv(w, Apply(w, s, Publish(f)))
  {
    var fl := s.flights[f];
    var fl' := fl.(stage := Published(fl.stage.value));
    SameWorkers(s.cancelled, fl, fl');
    if fl.winner.Some? { WinnerStays(fl, fl'); }
    FlightLeavesRegistry(w, s, Apply(w, s, Publish(f)), f, fl');
  }

  // ---- worker steps ----

  lemma CheckedWorkers(cancelled: set<nat>, fl: Flight, i: nat, worker: Worker)
    requires WorkersOk(cancelled, fl) && i < |fl.workers| && fl.workers[i].Queued?
    requires worker.Matching? || (worker.Bailing? && (fl.leader in cancelled || fl.winner.Some? || BodyOver(fl.stage)))
    ensures WorkersOk(cancelled, fl.(workers := fl.workers[i := worker]))
  {
    var fl' := fl.(workers := fl.workers[i := worker]);
    ActiveUpdate(fl.workers, i, worker);
    forall j | 0 <= j < |fl'.workers| ensures Delivered(fl', j) { assert Delivered(fl, j); }
    forall k | 0 <= k < |fl'.channel| ensures ItemOk(fl', fl'.channel[k]) { assert ItemOk(fl, fl.channel[k]); }
  }

  lemma SentWorkers(cancelled: set<nat>, fl: Flight, i: nat)
    requires WorkersOk(cancelled, fl) && i < |fl.workers| && (fl.workers[i].Bailing? || fl.workers[i].Matching?)
    ensures WorkersOk(cancelled, Sending(fl, i))
  {
    var fl' := Sending(fl, i);
    ActiveUpdate(fl.workers, i, fl'.workers[i]);
    forall j | 0 <= j < |fl'.workers| ensures Delivered(fl', j) {
      assert Delivered(fl, j);
      if j == i && fl'.workers[i] == Sent(false) {
        assert fl'.channel[|fl.channel|] == WorkerItem(fl', i);
      } else if WorkerItem(fl, j) in fl.channel {
        assert WorkerItem(fl', j) in fl'.channel;
      }
    }
    forall k | 0 <= k < |fl'.channel| ensures ItemOk(fl', fl'.channel[k]) {
      if k < |fl.channel| { assert ItemOk(fl, fl.channel[k]); }
    }
  }

  /** A change of workers and channel alone keeps the rest of a flight's account. */
  lemma WorkersMove(w: World, s: State, s': State, f: nat, fl': Flight)
    requires Inv(w, s) && f < |s.flights| && s' == SetFlight(s, f, fl')
    requires var fl := s.flights[f];
             fl' == fl.(workers := fl'.workers, channel := fl'.channel) && |fl'.workers| == |fl.workers|
    requires WorkersOk(s.cancelled, fl')
    ensures Inv(w, s')
  {
    var fl := s.flights[f];
    assert FlightOk(w, s.cancelled, s.poolOpen, fl);
    if fl.winner.Some? { WinnerStays(fl, fl'); }
    FlightChanges(w, s, s', f, fl');
  }

  lemma CheckKeepsInv(w: World, s: State, f: nat, i: nat)
    requires Inv(w, s) && Enabled(w, s, Check(f, i))
    ensures Inv(w, Apply(w, s, Check(f, i)))
  {
    var fl := s.flights[f];
    var worker := if MatchContextDone(s, fl) then Bailing else Matching;
    CheckedWorkers(s.cancelled, fl, i, worker);
    WorkersMove(w, s, Apply(w, s, Check(f, i)), f, fl.(workers := fl.workers[i := worker]));
  }

  lemma SendKeepsInv(w: World, s: State, f: nat, i: nat)
    requires Inv(w, s) && Enabled(w, s, Send(f, i))
    ensures Inv(w, Apply(w, s, Send(f, i)))
  {
    SentWorkers(s.cancelled, s.flights[f], i);
    WorkersMove(w, s, Apply(w, s, Send(f, i)), f, Sending(s.flights[f], i));
  }

  // ---- every step, every schedule ----

  lemma EnvironmentStepKeepsInv(w: World, s: State, step: Step)
    requires Inv(w, s) && Admissible(w, step) && IsEnvironment(step)
    ensures Inv(w, Apply(w, s, step))
  {
    match step
    case Start(rules, data) => StartKeepsInv(w, s, step);
    case Cancel(c) => CancelKeepsInv(w, s, c);
    case Expire(d, entities) =>
    case ClosePool => ClosePoolKeepsInv(w, s);
  }

  predicate IsCaller(step: Step) {
    step.Read? || step.Lead? || step.Join? || step.Abandon? || step.Resume? || step.SaveResidual?
  }

  lemma CallerStepKeepsInv(w: World, s: State, step: Step)
    requires Inv(w, s) && Enabled(w, s, step) && IsCaller(step)
    ensures Inv(w, Apply(w, s, step))
  {
    match step
    case Read(c, fails) => ReadKeepsInv(w, s, c, fails);
    case Lead(c) => LeadKeepsInv(w, s, c);
    case Join(c) => JoinKeepsInv(w, s, c);
    case Abandon(c) => AbandonKeepsInv(w, s, c);
    case Resume(c) => ResumeKeepsInv(w, s, c);
    case SaveResidual(c, persisted) => SaveResidualKeepsInv(w, s, c, persisted);
  }

  lemma FlightStepKeepsInv(w: World, s: State, step: Step)
    requires Inv(w, s) && Enabled(w, s, step) && !IsCaller(step) && !IsEnvironment(step)
    ensures Inv(w, Apply(w, s, step))
  {
    match step
    case EvaluateAll(f) => EvaluateAllKeepsInv(w, s, f);
    case Submit(f) => SubmitKeepsInv(w, s, f);
    case Reject(f) => RejectKeepsInv(w, s, f);
    case Receive(f) => ReceiveKeepsInv(w, s, f);
    case StopCollecting(f) => StopCollectingKeepsInv(w, s, f);
    case Drain(f) => DrainKeepsInv(w, s, f);
    case EndDrain(f) => EndDrainKeepsInv(w, s, f);
    case Save(f, persisted) => SaveKeepsInv(w, s, f, persisted);
    case Forget(f) => ForgetKeepsInv(w, s, f);
    case Publish(f) => PublishKeepsInv(w, s, f);
    case Check(f, i) => CheckKeepsInv(w, s, f, i);
    case Send(f, i) => SendKeepsInv(w, s, f, i);
  }

  /** The invariant survives every step any party can take. */
  lemma StepKeepsInv(w: World, s: State, step: Step)
    requires Inv(w, s) && Admissible(w, step) && Enabled(w, s, step)
    ensures Inv(w, Apply(w, s, step))
  {
    if IsEnvironment(step) {
      EnvironmentStepKeepsInv(w, s, step);
    } else if IsCaller(step) {
      CallerStepKeepsInv(w, s, step);
    } else {
      FlightStepKeepsInv(w, s, step);
    }
  }

  lemma {:induction false} ScheduleKeepsInv(w: World, s: State, steps: seq<Step>)
    requires Inv(w, s) && Schedule(w, s, steps)
    ensures Inv(w, After(w, s, steps))
    decreases |steps|
  {
    if steps != [] {
      StepKeepsInv(w, s, steps[0]);
      ScheduleKeepsInv(w, Apply(w, s, steps[0]), steps[1..]);
    }
  }
}
