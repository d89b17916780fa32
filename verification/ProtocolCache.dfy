/** What the cache is for: a token whose rules are all answered costs nothing, only batches of
    negatives are written, and a saved token is not evaluated again. */
module ProtocolCache {
  import opened Prelude
  import opened Rules
  import opened Classification
  import opened TokenCache
  import opened Protocol
  import opened ProtocolInvariant
  import opened ProtocolSafety

  // ---- a hit ----

  /** What a call does with the fields it read. */
  lemma AnswersFromCache(truth: Truth, call: Call, cached: Results)
    requires Coherent(truth, call.rules) && NegativeTruth(truth, call.data, cached)
    ensures var phase := AfterRead(call, cached).phase;
            && (phase.Returned? <==> forall i :: 0 <= i < |call.rules| && call.rules[i].Live(call.data) ==> call.rules[i].Entity() in cached)
            && (phase.Returned? ==> phase.outcome == None && FirstMatch(call.rules, call.data) == None)
            && (!phase.Returned? ==> phase == Joining)
  {
    MissingExactly(call.rules, call.data, cached);
    NegativesReportNothing(truth, call.rules, call.data, cached);
    if MissingSet(call.rules, call.data, cached) == [] {
      FinalPassIsFirstMatch(truth, call.rules, call.data, cached, map[]);
    }
  }

  lemma CachedRead(w: World, s: State, c: nat)
    requires Inv(w, s) && Enabled(w, s, Read(c, false))
    ensures var call, call' := s.calls[c], Apply(w, s, Read(c, false)).calls[c];
            && (call'.phase.Returned? <==> AllStored(s.hashes, call.rules, call.data))
            && (call'.phase.Returned? ==> call'.phase.outcome == None && FirstMatch(call.rules, call.data) == None)
            && (!call'.phase.Returned? ==> call'.phase == Joining)
  {
    var call := s.calls[c];
    CallIsAttached(w, s, c);
    LookupIsTrue(w.truth, s.hashes, call.data);
    var cached := if call.data in s.hashes then s.hashes[call.data] else map[];
    AnswersFromCache(w.truth, call, cached);
    ReadGivesHash(w, s, c, cached);
  }

  lemma ReadGivesHash(w: World, s: State, c: nat, cached: Results)
    requires Enabled(w, s, Read(c, false))
    requires cached == if s.calls[c].data in s.hashes then s.hashes[s.calls[c].data] else map[]
    ensures Apply(w, s, Read(c, false)).calls[c] == AfterRead(s.calls[c], cached)
  {
  }

  lemma AnsweredCallStays(w: World, s: State, step: Step, c: nat)
    requires Enabled(w, s, step) && c < |s.calls| && s.calls[c].phase.Returned?
    ensures c < |Apply(w, s, step).calls| && Apply(w, s, step).calls[c] == s.calls[c]
  {
    OtherCallsStay(w, s, step, c);
  }

  lemma {:induction false} AnsweredCallIsDone(w: World, s: State, steps: seq<Step>, c: nat)
    requires Schedule(w, s, steps) && c < |s.calls| && s.calls[c].phase.Returned?
    ensures c < |After(w, s, steps).calls| && After(w, s, steps).calls[c] == s.calls[c]
    decreases |steps|
  {
    if steps != [] {
      AnsweredCallStays(w, s, steps[0], c);
      AnsweredCallIsDone(w, Apply(w, s, steps[0]), steps[1..], c);
    }
  }

  lemma ReadingCallIsFresh(w: World, s: State, c: nat)
    requires Inv(w, s) && Enabled(w, s, Read(c, false))
    ensures var call := s.calls[c];
            && call.flight == None && call.saves == 0 && !call.leads
            && var call' := Apply(w, s, Read(c, false)).calls[c];
               call'.flight == None && call'.saves == 0 && call'.rules == call.rules && call'.data == call.data
  {
    CallIsAttached(w, s, c);
  }

  lemma LeadsNothing(w: World, s: State, c: nat)
    requires Inv(w, s) && c < |s.calls| && s.calls[c].flight == None
    ensures forall f :: 0 <= f < |s.flights| ==> s.flights[f].leader != c
  {
    forall f | 0 <= f < |s.flights| ensures s.flights[f].leader != c { FlightOfInv(w, s, f); }
  }

  /** Answered without a match, a flight of its own or anybody else's, or a save. */
  ghost predicate DoneAtOnce(s: State, c: nat) {
    && c < |s.calls| && s.calls[c].phase == Returned(None) && s.calls[c].flight == None && s.calls[c].saves == 0
    && forall f :: 0 <= f < |s.flights| ==> s.flights[f].leader != c
  }

  lemma DoneStays(w: World, s: State, steps: seq<Step>, c: nat)
    requires Inv(w, s) && Schedule(w, s, steps) && c < |s.calls|
    requires s.calls[c].phase == Returned(None) && s.calls[c].flight == None && s.calls[c].saves == 0
    ensures DoneAtOnce(After(w, s, steps), c)
  {
    AnsweredCallIsDone(w, s, steps, c);
    ScheduleKeepsInv(w, s, steps);
    LeadsNothing(w, After(w, s, steps), c);
  }

  /** The token's hash answers every live rule exactly when a successful read ends the call: it has
      its answer, nothing, and that is the first match. Whatever happens later, it takes part in no
      flight, leads none and saves nothing. */
  lemma CachedCallReturnsAtOnce(w: World, s: State, before: seq<Step>, c: nat, after: seq<Step>)
    requires Initial(w, s) && Schedule(w, s, before) && Enabled(w, After(w, s, before), Read(c, false))
    requires Schedule(w, Apply(w, After(w, s, before), Read(c, false)), after)
    ensures var now := After(w, s, before);
            var call, read := now.calls[c], Apply(w, now, Read(c, false));
            && (read.calls[c].phase.Returned? <==> AllStored(now.hashes, call.rules, call.data))
            && (AllStored(now.hashes, call.rules, call.data) ==>
                  FirstMatch(call.rules, call.data) == None && DoneAtOnce(After(w, read, after), c))
  {
    var now := After(w, s, before);
    ReachableInv(w, s, before);
    CachedRead(w, now, c);
    ReadingCallIsFresh(w, now, c);
    var read := Apply(w, now, Read(c, false));
    if read.calls[c].phase.Returned? {
      StepKeepsInv(w, now, Read(c, false));
      DoneStays(w, read, after, c);
    }
  }

  /** Without rules a call of the concurrent runner is over before it reads, and one of the serial
      runner reads first. */
  lemma NoRulesNoRead(w: World, s: State, data: Bytes)
    ensures var call := Apply(w, s, Start([], data)).calls[|s.calls|];
            call.phase == if w.concurrent then Returned(None) else Reading
  {
  }

  /** A read that fails is no answer: the call asks all a first call would. */
  lemma FailedReadAsksAll(w: World, s: State, c: nat)
    requires Enabled(w, s, Read(c, true))
    ensures var call := s.calls[c];
            Apply(w, s, Read(c, true)).calls[c].Missing() == MissingSet(call.rules, call.data, map[])
  {
  }

  lemma ExpiryRemoves(w: World, s: State, data: Bytes, entities: set<Entity>)
    ensures var expired := Apply(w, s, Expire(data, entities));
            && expired == s.(hashes := expired.hashes)
            && (forall d, e :: HasField(expired.hashes, d, e) <==> HasField(s.hashes, d, e) && !(d == data && e in entities))
  {
  }

  /** The call's token has a live rule of one of these entities. */
  ghost predicate Needs(call: Call, data: Bytes, entities: set<Entity>) {
    call.data == data && exists i :: 0 <= i < |call.rules| && call.rules[i].Live(data) && call.rules[i].Entity() in entities
  }

  /** Expired fields are gone, and no others; a call that needs one is not answered at once. */
  lemma ExpiredIsAskedAgain(w: World, s: State, c: nat, data: Bytes, entities: set<Entity>)
    requires Inv(w, s) && Enabled(w, s, Read(c, false))
    ensures var expired := Apply(w, s, Expire(data, entities));
            && (forall d, e :: HasField(expired.hashes, d, e) <==> HasField(s.hashes, d, e) && !(d == data && e in entities))
            && Enabled(w, expired, Read(c, false))
            && (Needs(s.calls[c], data, entities) ==> Apply(w, expired, Read(c, false)).calls[c].phase == Joining)
  {
    var expired := Apply(w, s, Expire(data, entities));
    ExpiryRemoves(w, s, data, entities);
    StepKeepsInv(w, s, Expire(data, entities));
    CachedRead(w, expired, c);
    if Needs(s.calls[c], data, entities) { NotAllStored(expired, s.calls[c], data, entities); }
  }

  lemma NotAllStored(s: State, call: Call, data: Bytes, entities: set<Entity>)
    requires Needs(call, data, entities) && forall e :: e in entities ==> !HasField(s.hashes, data, e)
    ensures !AllStored(s.hashes, call.rules, call.data)
  {
    var i :| 0 <= i < |call.rules| && call.rules[i].Live(data) && call.rules[i].Entity() in entities;
    assert !HasField(s.hashes, data, call.rules[i].Entity());
  }

  // ---- what is written ----

  predicate IsSave(step: Step) { step.Save? || step.SaveResidual? }

  /** The token and the results a save is about, before the step. */
  function SavedToken(s: State, step: Step): Bytes
    requires IsSave(step) && (if step.Save? then step.flight < |s.flights| else step.call < |s.calls|)
  {
    if step.Save? then s.flights[step.flight].key else s.calls[step.call].data
  }

  function SavedResults(w: World, s: State, step: Step): Results
    requires IsSave(step) && Enabled(w, s, step)
  {
    if step.Save? then s.flights[step.flight].results else ResidualResults(s.calls[step.call], s.calls[step.call].phase.shared)
  }

  /** Batches a save step counts for its flight or its call. */
  function CountedSaves(w: World, s: State, step: Step): int
    requires IsSave(step) && Enabled(w, s, step)
  {
    var s' := Apply(w, s, step);
    if step.Save? then s'.flights[step.flight].saves - s.flights[step.flight].saves
    else s'.calls[step.call].saves - s.calls[step.call].saves
  }

  /** Apart from expiry only saves touch the cache. A save that succeeds writes false for exactly the
      entities that did not match, in one counted batch, and leaves every other field; with nothing
      negative it sends none. */
  lemma OnlySavesWrite(w: World, s: State, step: Step)
    requires Enabled(w, s, step) && !step.Expire?
    ensures var s' := Apply(w, s, step);
            if !IsSave(step) then s'.hashes == s.hashes
            else
              var results := SavedResults(w, s, step);
              && CountedSaves(w, s, step) == (if exists e :: e in results && !results[e] then 1 else 0)
              && (if step.persisted && exists e :: e in results && !results[e]
                  then Batched(s.hashes, s'.hashes, SavedToken(s, step), map e | e in results && !results[e] :: false)
                  else s'.hashes == s.hashes)
  {
    if IsSave(step) {
      var results := SavedResults(w, s, step);
      StoresNegatives(s.hashes, SavedToken(s, step), results);
      if e :| e in results && !results[e] { assert e in Negatives(results); }
      SaveWrites(w, s, step);
    }
  }

  lemma SaveWrites(w: World, s: State, step: Step)
    requires IsSave(step) && Enabled(w, s, step)
    ensures Apply(w, s, step).hashes
         == if step.persisted then StoreNegatives(s.hashes, SavedToken(s, step), SavedResults(w, s, step)) else s.hashes
    ensures CountedSaves(w, s, step) == SaveCount(SavedResults(w, s, step))
  {
  }

  // ---- what was stored stays, without expiry ----

  predicate NoExpiry(steps: seq<Step>, data: Bytes) {
    forall k :: 0 <= k < |steps| ==> !(steps[k].Expire? && steps[k].data == data)
  }

  ghost predicate HasField(hashes: Hashes, data: Bytes, e: Entity) {
    data in hashes && e in hashes[data]
  }

  ghost predicate KeepsFields(before: Hashes, after: Hashes, data: Bytes) {
    forall e :: HasField(before, data, e) ==> HasField(after, data, e)
  }

  lemma StepKeepsFields(w: World, s: State, step: Step, data: Bytes)
    requires Enabled(w, s, step) && !(step.Expire? && step.data == data)
    ensures KeepsFields(s.hashes, Apply(w, s, step).hashes, data)
  {
    if IsSave(step) { SaveWrites(w, s, step); }
  }

  lemma {:induction false} FieldsStay(w: World, s: State, steps: seq<Step>, data: Bytes)
    requires Schedule(w, s, steps) && NoExpiry(steps, data)
    ensures KeepsFields(s.hashes, After(w, s, steps).hashes, data)
    decreases |steps|
  {
    if steps != [] {
      StepKeepsFields(w, s, steps[0], data);
      FieldsStay(w, Apply(w, s, steps[0]), steps[1..], data);
    }
  }

  /** What the call's read found is still there. */
  ghost predicate ReadKept(s: State, c: nat, rules: seq<Rule>, data: Bytes) {
    && c < |s.calls| && s.calls[c].rules == rules && s.calls[c].data == data && !s.calls[c].phase.Reading?
    && forall e :: e in s.calls[c].cached ==> HasField(s.hashes, data, e)
  }

  lemma ReadStays(w: World, s: State, step: Step, c: nat)
    requires Enabled(w, s, step) && c < |s.calls| && !s.calls[c].phase.Reading?
    ensures c < |Apply(w, s, step).calls|
    ensures var call, call' := s.calls[c], Apply(w, s, step).calls[c];
            && call'.rules == call.rules && call'.data == call.data && call'.cached == call.cached && !call'.phase.Reading?
  {
    if !(IsCaller(step) && step.call == c) { OtherCallsStay(w, s, step, c); }
  }

  lemma {:induction false} ReadKeptStays(w: World, s: State, steps: seq<Step>, c: nat, rules: seq<Rule>, data: Bytes)
    requires Schedule(w, s, steps) && NoExpiry(steps, data) && ReadKept(s, c, rules, data)
    ensures ReadKept(After(w, s, steps), c, rules, data)
    decreases |steps|
  {
    if steps != [] {
      ReadStays(w, s, steps[0], c);
      StepKeepsFields(w, s, steps[0], data);
      ReadKeptStays(w, Apply(w, s, steps[0]), steps[1..], c, rules, data);
    }
  }

  /** Every live rule that does not match has its entity stored for the token. */
  ghost predicate NegativesStored(hashes: Hashes, rules: seq<Rule>, data: Bytes) {
    forall i :: 0 <= i < |rules| && rules[i].Live(data) && !rules[i].matcher.matches(data) ==>
      HasField(hashes, data, rules[i].Entity())
  }

  /** The flight decided all its leader asked for: it was not stopped by a match or a cancellation. */
  ghost predicate DecidedAll(w: World, s: State, f: nat)
    requires f < |s.flights|
  {
    !w.concurrent || (s.flights[f].winner == None && s.flights[f].leader !in s.cancelled)
  }

  lemma SaveStoresNegatives(w: World, s: State, f: nat, c: nat, rules: seq<Rule>, data: Bytes)
    requires Inv(w, s) && ReadKept(s, c, rules, data)
    requires Enabled(w, s, Save(f, true)) && s.flights[f].leader == c && DecidedAll(w, s, f)
    ensures NegativesStored(Apply(w, s, Save(f, true)).hashes, rules, data)
  {
    var fl, call, s' := s.flights[f], s.calls[c], Apply(w, s, Save(f, true));
    FlightOfInv(w, s, f);
    CallIsAttached(w, s, c);
    StepKeepsFields(w, s, Save(f, true), data);
    SaveWrites(w, s, Save(f, true));
    MissingExactly(rules, data, call.cached);
    forall i | 0 <= i < |rules| && rules[i].Live(data) && !rules[i].matcher.matches(data)
      ensures HasField(s'.hashes, data, rules[i].Entity())
    {
      var e := rules[i].Entity();
      if e !in call.cached {
        var k :| 0 <= k < |fl.missing| && fl.missing[k].entity == e;
        assert e in Negatives(fl.results);
      }
    }
  }

  /** A call on such a token asks matching matchers only, and none at all when no rule fires. */
  lemma StoredNegativesAsk(truth: Truth, rules: seq<Rule>, data: Bytes, hashes: Hashes)
    requires Coherent(truth, rules) && NegativesStored(hashes, rules, data)
    ensures var missing := MissingSet(rules, data, if data in hashes then hashes[data] else map[]);
            && (forall k :: 0 <= k < |missing| ==> missing[k].rule.matcher.matches(data))
            && (FirstMatch(rules, data) == None ==> missing == [] && AllStored(hashes, rules, data))
  {
    var cached: Results := if data in hashes then hashes[data] else map[];
    var missing := MissingSet(rules, data, cached);
    MissingSetIsGood(rules, data, cached);
    MissingExactly(rules, data, cached);
    forall k | 0 <= k < |missing| ensures missing[k].rule.matcher.matches(data) {
      var i :| 0 <= i < |rules| && rules[i] == missing[k].rule && ClaimsFirst(rules, data, i);
      assert rules[i].Live(data);
    }
    if FirstMatch(rules, data) == None {
      forall i | 0 <= i < |rules| && rules[i].Live(data) ensures HasField(hashes, data, rules[i].Entity()) {
        if rules[i].matcher.matches(data) { FiringRuleIsFound(rules, data, i); }
      }
    }
  }

  ghost predicate Runs(w: World, s: State, steps: seq<Step>, end: State) {
    Schedule(w, s, steps) && After(w, s, steps) == end
  }

  lemma ReadIsKept(w: World, s: State, c: nat, fails: bool)
    requires Enabled(w, s, Read(c, fails))
    ensures ReadKept(Apply(w, s, Read(c, fails)), c, s.calls[c].rules, s.calls[c].data)
  {
  }

  /** The token is paid for once. One call reads, in any state of the cache, leads a flight that
      decides all it asked for, and its save succeeds; none of the token's fields expires. A later
      call with the same rules, read successfully, then asks only the matchers that match, and when
      no rule fires it returns at once. */
  lemma SavedTokenIsNotEvaluatedAgain(
    w: World, s0: State, before: seq<Step>, s1: State, c: nat, fails: bool, during: seq<Step>, s2: State, f: nat,
    later: seq<Step>, s3: State, d: nat)
    requires Initial(w, s0) && Runs(w, s0, before, s1) && Enabled(w, s1, Read(c, fails))
    requires Runs(w, Apply(w, s1, Read(c, fails)), during, s2) && NoExpiry(during, s1.calls[c].data)
    requires Enabled(w, s2, Save(f, true)) && s2.flights[f].leader == c && DecidedAll(w, s2, f)
    requires Runs(w, Apply(w, s2, Save(f, true)), later, s3) && NoExpiry(later, s1.calls[c].data)
    requires Enabled(w, s3, Read(d, false)) && s3.calls[d].data == s1.calls[c].data && s3.calls[d].rules == s1.calls[c].rules
    ensures var call := Apply(w, s3, Read(d, false)).calls[d];
            && (forall k :: 0 <= k < |call.Missing()| ==> call.Missing()[k].rule.matcher.matches(call.data))
            && (FirstMatch(call.rules, call.data) == None ==> call.phase == Returned(None) && call.flight == None && call.saves == 0)
  {
    var rules, data := s1.calls[c].rules, s1.calls[c].data;
    ReachableInv(w, s0, before);
    StepKeepsInv(w, s1, Read(c, fails));
    ReadIsKept(w, s1, c, fails);
    ReadKeptStays(w, Apply(w, s1, Read(c, fails)), during, c, rules, data);
    ScheduleKeepsInv(w, Apply(w, s1, Read(c, fails)), during);
    SaveStoresNegatives(w, s2, f, c, rules, data);
    StepKeepsInv(w, s2, Save(f, true));
    FieldsStay(w, Apply(w, s2, Save(f, true)), later, data);
    ScheduleKeepsInv(w, Apply(w, s2, Save(f, true)), later);
    SecondRead(w, s3, d, Apply(w, s2, Save(f, true)).hashes);
  }

  lemma SecondRead(w: World, s: State, d: nat, hashes: Hashes)
    requires Inv(w, s) && Enabled(w, s, Read(d, false))
    requires NegativesStored(hashes, s.calls[d].rules, s.calls[d].data) && KeepsFields(hashes, s.hashes, s.calls[d].data)
    ensures var call := Apply(w, s, Read(d, false)).calls[d];
            && (forall k :: 0 <= k < |call.Missing()| ==> call.Missing()[k].rule.matcher.matches(call.data))
            && (FirstMatch(call.rules, call.data) == None ==> call.phase == Returned(None) && call.flight == None && call.saves == 0)
  {
    CallIsAttached(w, s, d);
    StoredNegativesAsk(w.truth, s.calls[d].rules, s.calls[d].data, s.hashes);
    CachedRead(w, s, d);
    ReadingCallIsFresh(w, s, d);
  }
}
