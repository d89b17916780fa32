/** The serial runner as written: loops over rules, entries and map keys, one cache read and
    at most one batched save per call. Cache failures are inputs. This class covers a call that
    runs its own flight body; callers that share flights are the subject of module Protocol. */
module SerialRunner {
  import opened Prelude
  import opened Rules
  import opened Classification
  import opened TokenCache

  method ClassifyRules(rules: seq<Rule>, data: Bytes, cached: Results)
    returns (views: seq<View>, missing: seq<Missing>)
    ensures views == Views(rules, data, cached)
    ensures missing == MissingSet(rules, data, cached)
  {
    views, missing := [], [];
    var queued: set<Entity> := {};
    for i := 0 to |rules|
      invariant views + Views(rules[i..], data, cached) == Views(rules, data, cached)
      invariant missing + MissingFrom(rules[i..], data, cached, queued) == MissingSet(rules, data, cached)
    {
      var rule := rules[i];
      ClassifyNext(rules, data, cached, queued, i);
      if rule.disable {
        continue;
      }
      var view := View(rule, false, false, false);
      if rule.Entity() in cached {
        view := view.(cached := true, result := cached[rule.Entity()]);
      } else {
        var excepted := IsException(data, rule.exceptions);
        if excepted {
          view := view.(excepted := true);
        } else if rule.Entity() !in queued {
          queued := queued + {rule.Entity()};
          Snoc(missing, Missing(rule.Entity(), rule), MissingFrom(rules[i + 1..], data, cached, queued));
          missing := missing + [Missing(rule.Entity(), rule)];
        }
      }
      Snoc(views, view, Views(rules[i + 1..], data, cached));
      views := views + [view];
    }
  }

  lemma Snoc<T>(front: seq<T>, x: T, rest: seq<T>)
    ensures (front + [x]) + rest == front + ([x] + rest)
  {
  }

  /** How one more rule extends the views and the missing set. */
  lemma ClassifyNext(rules: seq<Rule>, data: Bytes, cached: Results, queued: set<Entity>, i: nat)
    requires i < |rules|
    ensures Views(rules[i..], data, cached)
         == if rules[i].disable then Views(rules[i + 1..], data, cached)
            else [ViewOf(rules[i], data, cached)] + Views(rules[i + 1..], data, cached)
    ensures MissingFrom(rules[i..], data, cached, queued)
         == if Queues(rules[i], data, cached, queued)
            then [Missing(rules[i].Entity(), rules[i])] + MissingFrom(rules[i + 1..], data, cached, queued + {rules[i].Entity()})
            else MissingFrom(rules[i + 1..], data, cached, queued)
  {
    assert rules[i..][0] == rules[i] && rules[i..][1..] == rules[i + 1..];
  }

  /** A result map as the source holds it: one mutable instance that a flight's leader and every
      waiter reference. */
  class ResultMap {
    var entries: Results

    constructor ()
      ensures entries == map[]
    {
      entries := map[];
    }

    method Set(entity: Entity, matched: bool)
      modifies this
      ensures entries == old(entries)[entity := matched]
    {
      entries := entries[entity := matched];
    }

    method CopyFrom(other: ResultMap)
      modifies this
      ensures entries == old(entries) + old(other.entries)
    {
      entries := entries + other.entries;
    }
  }

  ghost function Askees(missing: seq<Missing>): (rules: seq<Rule>)
    ensures |rules| == |missing| && forall i :: 0 <= i < |rules| ==> rules[i] == missing[i].rule
  {
    seq(|missing|, i requires 0 <= i < |missing| => missing[i].rule)
  }

  /** Each entry's matcher is called once, in order; asked lists the calls. */
  method MatchMissing(missing: seq<Missing>, data: Bytes) returns (results: ResultMap, ghost asked: seq<Rule>)
    ensures fresh(results) && results.entries == MatchAll(missing, data)
    ensures asked == Askees(missing)
  {
    results := new ResultMap();
    asked := [];
    for i := 0 to |missing|
      invariant fresh(results) && results.entries == MatchAll(missing[..i], data)
      invariant asked == Askees(missing[..i])
    {
      assert missing[..i + 1][..i] == missing[..i];
      results.Set(missing[i].entity, missing[i].rule.matcher.matches(data));
      asked := asked + [missing[i].rule];
    }
    assert missing[..|missing|] == missing;
  }

  /** The negatives of a result map, whatever order its entries are visited in. */
  method CollectNegatives(results: Results) returns (negatives: Results)
    ensures negatives == Negatives(results)
  {
    negatives := map[];
    var todo := results.Keys;
    while todo != {}
      invariant todo <= results.Keys
      invariant negatives == map e | e in results && e !in todo && !results[e] :: false
      decreases |todo|
    {
      var entity :| entity in todo;
      if !results[entity] {
        negatives := negatives[entity := false];
      }
      todo := todo - {entity};
    }
  }

  method CollectResidual(missing: seq<Missing>, results: Results) returns (residual: seq<Missing>)
    ensures residual == Residual(missing, results)
  {
    residual := [];
    for i := 0 to |missing|
      invariant residual + Residual(missing[i..], results) == Residual(missing, results)
    {
      assert missing[i..][0] == missing[i] && missing[i..][1..] == missing[i + 1..];
      if missing[i].entity !in results {
        Snoc(residual, missing[i], Residual(missing[i + 1..], results));
        residual := residual + [missing[i]];
      }
    }
  }

  method FirstHit(views: seq<View>, evaluated: Results) returns (winner: Option<Rule>)
    ensures winner == FinalPass(views, evaluated)
  {
    for i := 0 to |views|
      invariant FinalPass(views[i..], evaluated) == FinalPass(views, evaluated)
    {
      assert views[i..][0] == views[i] && views[i..][1..] == views[i + 1..];
      if Hits(views[i], evaluated) {
        return Some(views[i].rule);
      }
    }
    return None;
  }

  ghost predicate HasNegative(results: Results) { exists e :: e in results && !results[e] }

  ghost predicate AllMatch(missing: seq<Missing>, data: Bytes) {
    forall k :: 0 <= k < |missing| ==> missing[k].rule.matcher.matches(data)
  }

  /** A leader's results are true and leave no residual; there is something to save exactly when
      some entry does not match. */
  lemma LeaderDecidesAll(truth: Truth, rules: seq<Rule>, missing: seq<Missing>, data: Bytes)
    requires Coherent(truth, rules) && GoodMissing(rules, data, missing)
    ensures var results := MatchAll(missing, data);
            && Truthful(truth, data, results) && results.Keys == Entities(missing)
            && (HasNegative(results) <==> !AllMatch(missing, data)) && Residual(missing, results) == []
  {
    var results := MatchAll(missing, data);
    MatchAllIsTruthful(truth, rules, missing, data);
    forall k | 0 <= k < |missing|
      ensures missing[k].entity in results && results[missing[k].entity] == missing[k].rule.matcher.matches(data)
    {
      assert missing[k].entity in Entities(missing);
      var i :| 0 <= i < |rules| && rules[i] == missing[k].rule && ClaimsFirst(rules, data, i);
    }
    CoveredHasNoResidual(missing, results);
  }

  class SerialRulesRunner {
    const cache: CacheStore

    constructor (cache: CacheStore)
      ensures this.cache == cache
    {
      this.cache := cache;
    }

    method SaveNegatives(data: Bytes, results: Results, fails: bool)
      modifies cache
      ensures cache.hashes == if fails then old(cache.hashes) else StoreNegatives(old(cache.hashes), data, results)
      ensures cache.saves == old(cache.saves) + if HasNegative(results) then 1 else 0
    {
      var negatives := CollectNegatives(results);
      if negatives == map[] {
        assert !HasNegative(results) by { assert forall e :: e in results && !results[e] ==> e in negatives; }
        return;
      }
      var e :| e in negatives;
      assert e in results && !results[e];
      var _ := cache.SaveMatches(data, negatives, fails);
    }

    /** Completes a caller's missing set from the map its flight shares: the residual is evaluated
        inline, saved at most once, and merged into a new map. The shared instance, which other
        waiters hold, is never written. */
    method FinishResidual(data: Bytes, missing: seq<Missing>, shared: ResultMap, saveFails: bool)
      returns (merged: ResultMap, ghost asked: seq<Rule>)
      modifies cache
      ensures asked == Askees(Residual(missing, shared.entries))
      ensures asked == [] ==> cache.saves == old(cache.saves)
      ensures shared.entries == old(shared.entries)
      ensures if Residual(missing, shared.entries) == [] then merged == shared else fresh(merged)
      ensures merged.entries == shared.entries + MatchAll(Residual(missing, shared.entries), data)
      ensures cache.hashes == if saveFails then old(cache.hashes)
                              else StoreNegatives(old(cache.hashes), data, MatchAll(Residual(missing, shared.entries), data))
    {
      var residual := CollectResidual(missing, shared.entries);
      if |residual| == 0 {
        return shared, [];
      }
      var residualResults;
      residualResults, asked := MatchMissing(residual, data);
      SaveNegatives(data, residualResults.entries, saveFails);
      merged := new ResultMap();
      merged.CopyFrom(shared);
      merged.CopyFrom(residualResults);
    }

    /** A call leading its own flight: evaluate the missing set, save its negatives once, and
        find nothing left for the residual. */
    method EvaluateMissing(data: Bytes, missing: seq<Missing>, saveFails: bool, ghost truth: Truth, ghost rules: seq<Rule>)
      returns (evaluated: ResultMap, ghost asked: seq<Rule>)
      requires Coherent(truth, rules) && GoodMissing(rules, data, missing)
      modifies cache
      ensures asked == Askees(missing)
      ensures cache.saves == old(cache.saves) + if AllMatch(missing, data) then 0 else 1
      ensures fresh(evaluated)
      ensures Truthful(truth, data, evaluated.entries) && evaluated.entries.Keys == Entities(missing)
      ensures cache.hashes == if saveFails then old(cache.hashes)
                              else StoreNegatives(old(cache.hashes), data, MatchAll(missing, data))
    {
      var results, calls := MatchMissing(missing, data);
      asked := calls;
      LeaderDecidesAll(truth, rules, missing, data);
      SaveNegatives(data, results.entries, saveFails);
      evaluated, calls := FinishResidual(data, missing, results, saveFails);
      asked := asked + calls;
    }

    /** The first matching rule, for every true-negative cache state and every cache failure; the
        cache gains at most this token's true negatives and stays true. The matchers called are those
        of the missing set, once each and in order, and one batch is sent if one of them is negative;
        a token whose live rules are all answered by the cache costs neither. */
    method Process(rules: seq<Rule>, data: Bytes, readFails: bool, saveFails: bool, ghost truth: Truth)
      returns (winner: Option<Rule>, ghost asked: seq<Rule>)
      requires Coherent(truth, rules) && TrueNegatives(truth, cache.hashes)
      modifies cache
      ensures winner == FirstMatch(rules, data)
      ensures TrueNegatives(truth, cache.hashes)
      ensures var cached := if !readFails && data in old(cache.hashes) then old(cache.hashes)[data] else map[];
              var missing := MissingSet(rules, data, cached);
              && asked == Askees(missing)
              && cache.saves == old(cache.saves) + (if AllMatch(missing, data) then 0 else 1)
              && cache.hashes == if saveFails then old(cache.hashes)
                                 else StoreNegatives(old(cache.hashes), data, MatchAll(missing, data))
      ensures !readFails && AllStored(old(cache.hashes), rules, data) ==>
                winner == None && asked == [] && cache.hashes == old(cache.hashes) && cache.saves == old(cache.saves)
    {
      var read := cache.GetMatches(data, readFails);
      var cached: Results := if read.Some? then read.value else map[];
      LookupIsTrue(truth, cache.hashes, data);
      var views, missing := ClassifyRules(rules, data, cached);
      MissingSetIsGood(rules, data, cached);
      MatchAllIsTruthful(truth, rules, missing, data);
      StoreNegativesKeepsTruth(truth, cache.hashes, data, MatchAll(missing, data));
      MissingExactly(rules, data, cached);
      NegativesReportNothing(truth, rules, data, cached);
      var evaluated := new ResultMap();
      asked := [];
      if |missing| > 0 {
        evaluated, asked := EvaluateMissing(data, missing, saveFails, truth, rules);
      }
      winner := FirstHit(views, evaluated.entries);
      FinalPassIsFirstMatch(truth, rules, data, cached, evaluated.entries);
    }
  }
}
