/** The per-call computations both runners share, as functions of their inputs:
    rule classification, evaluation of the missing set, the negative batch, the residual
    and the final in-order pass; and what the final pass returns. */
module Classification {
  import opened Prelude
  import opened Rules

  type Results = map<Entity, bool>

  datatype View = View(rule: Rule, cached: bool, result: bool, excepted: bool)
  datatype Missing = Missing(entity: Entity, rule: Rule)

  function ViewOf(rule: Rule, data: Bytes, cached: Results): View {
    if rule.Entity() in cached then View(rule, true, cached[rule.Entity()], false)
    else View(rule, false, false, rule.Excepted(data))
  }

  function Views(rules: seq<Rule>, data: Bytes, cached: Results): seq<View> {
    if rules == [] then []
    else if rules[0].disable then Views(rules[1..], data, cached)
    else [ViewOf(rules[0], data, cached)] + Views(rules[1..], data, cached)
  }

  predicate Queues(rule: Rule, data: Bytes, cached: Results, queued: set<Entity>) {
    rule.Live(data) && rule.Entity() !in cached && rule.Entity() !in queued
  }

  function MissingFrom(rules: seq<Rule>, data: Bytes, cached: Results, queued: set<Entity>): (missing: seq<Missing>)
    ensures |missing| <= |rules|
  {
    if rules == [] then []
    else if Queues(rules[0], data, cached, queued) then
      [Missing(rules[0].Entity(), rules[0])] + MissingFrom(rules[1..], data, cached, queued + {rules[0].Entity()})
    else MissingFrom(rules[1..], data, cached, queued)
  }

  function MissingSet(rules: seq<Rule>, data: Bytes, cached: Results): seq<Missing> {
    MissingFrom(rules, data, cached, {})
  }

  ghost function Entities(missing: seq<Missing>): set<Entity> {
    set i | 0 <= i < |missing| :: missing[i].entity
  }

  function MatchAll(missing: seq<Missing>, data: Bytes): Results {
    if missing == [] then map[]
    else
      var last := missing[|missing| - 1];
      MatchAll(missing[..|missing| - 1], data)[last.entity := last.rule.matcher.matches(data)]
  }

  function Negatives(results: Results): Results {
    map e | e in results && !results[e] :: false
  }

  function Residual(missing: seq<Missing>, results: Results): seq<Missing> {
    if missing == [] then []
    else if missing[0].entity in results then Residual(missing[1..], results)
    else [missing[0]] + Residual(missing[1..], results)
  }

  predicate Hits(view: View, evaluated: Results) {
    if view.cached then view.result
    else !view.excepted && view.rule.Entity() in evaluated && evaluated[view.rule.Entity()]
  }

  function FinalPass(views: seq<View>, evaluated: Results): Option<Rule> {
    if views == [] then None
    else if Hits(views[0], evaluated) then Some(views[0].rule)
    else FinalPass(views[1..], evaluated)
  }

  /** Results agree with the truth about this token. */
  ghost predicate Truthful(truth: Truth, data: Bytes, results: Results) {
    forall e :: e in results ==> results[e] == truth(e, data)
  }

  /** Stored fields are false, and rightly so. */
  ghost predicate NegativeTruth(truth: Truth, data: Bytes, results: Results) {
    forall e :: e in results ==> !results[e] && !truth(e, data)
  }

  ghost predicate Covers(results: Results, missing: seq<Missing>) {
    forall i :: 0 <= i < |missing| ==> missing[i].entity in results
  }

  /** Every entry names the first live claimant of its entity, an entity the cache did not answer. */
  ghost predicate GoodMissing(rules: seq<Rule>, data: Bytes, missing: seq<Missing>) {
    && DistinctEntities(missing)
    && (forall k :: 0 <= k < |missing| ==>
          FirstClaimant(rules, data, missing[k].rule) && missing[k].entity == missing[k].rule.Entity())
  }

  ghost predicate DistinctEntities(missing: seq<Missing>) {
    forall k, l :: 0 <= k < l < |missing| ==> missing[k].entity != missing[l].entity
  }

  // ---- classification ----

  ghost predicate EntryAt(rules: seq<Rule>, data: Bytes, cached: Results, queued: set<Entity>, m: Missing, i: int) {
    && 0 <= i < |rules| && rules[i] == m.rule && m.entity == m.rule.Entity()
    && Queues(rules[i], data, cached, queued) && ClaimsFirst(rules, data, i)
  }

  lemma {:induction false} MissingEntry(rules: seq<Rule>, data: Bytes, cached: Results, queued: set<Entity>, k: nat)
    returns (i: nat)
    requires k < |MissingFrom(rules, data, cached, queued)|
    ensures EntryAt(rules, data, cached, queued, MissingFrom(rules, data, cached, queued)[k], i)
  {
    var m := MissingFrom(rules, data, cached, queued)[k];
    if Queues(rules[0], data, cached, queued) && k == 0 {
      i := 0;
    } else {
      var queues := Queues(rules[0], data, cached, queued);
      var queued' := if queues then queued + {rules[0].Entity()} else queued;
      var i' := MissingEntry(rules[1..], data, cached, queued', if queues then k - 1 else k);
      i := i' + 1;
      forall j | 0 <= j < i && rules[j].Entity() == rules[i].Entity() ensures !rules[j].Live(data) {
        if j > 0 { assert rules[j] == rules[1..][j - 1]; }
      }
    }
  }

  lemma {:induction false} MissingDistinct(rules: seq<Rule>, data: Bytes, cached: Results, queued: set<Entity>)
    ensures DistinctEntities(MissingFrom(rules, data, cached, queued))
  {
    if rules != [] {
      var queues := Queues(rules[0], data, cached, queued);
      var queued' := if queues then queued + {rules[0].Entity()} else queued;
      MissingDistinct(rules[1..], data, cached, queued');
      var missing, rest := MissingFrom(rules, data, cached, queued), MissingFrom(rules[1..], data, cached, queued');
      if queues {
        forall l | 0 <= l < |rest| ensures rest[l].entity != missing[0].entity {
          var _ := MissingEntry(rules[1..], data, cached, queued', l);
        }
        assert forall k :: 0 < k < |missing| ==> missing[k] == rest[k - 1];
      }
    }
  }

  /** The missing set lists, without repetition, the first live claimant of each uncached entity. */
  lemma MissingSetIsGood(rules: seq<Rule>, data: Bytes, cached: Results)
    ensures GoodMissing(rules, data, MissingSet(rules, data, cached))
    ensures forall k :: 0 <= k < |MissingSet(rules, data, cached)| ==> MissingSet(rules, data, cached)[k].entity !in cached
  {
    var missing := MissingSet(rules, data, cached);
    MissingDistinct(rules, data, cached, {});
    forall k | 0 <= k < |missing|
      ensures FirstClaimant(rules, data, missing[k].rule) && missing[k].entity == missing[k].rule.Entity()
              && missing[k].entity !in cached
    {
      var i := MissingEntry(rules, data, cached, {}, k);
    }
  }

  /** Every live rule whose entity the cache did not answer has its entity in the missing set. */
  lemma {:induction false} LiveRuleIsQueued(rules: seq<Rule>, data: Bytes, cached: Results, queued: set<Entity>, i: nat)
    requires i < |rules| && Queues(rules[i], data, cached, queued)
    ensures rules[i].Entity() in Entities(MissingFrom(rules, data, cached, queued))
  {
    var missing := MissingFrom(rules, data, cached, queued);
    var queues := Queues(rules[0], data, cached, queued);
    if queues && rules[0].Entity() == rules[i].Entity() {
      assert missing[0].entity == rules[i].Entity();
    } else {
      var queued' := if queues then queued + {rules[0].Entity()} else queued;
      LiveRuleIsQueued(rules[1..], data, cached, queued', i - 1);
      var rest := MissingFrom(rules[1..], data, cached, queued');
      var k :| 0 <= k < |rest| && rest[k].entity == rules[i].Entity();
      assert missing[if queues then k + 1 else k] == rest[k];
    }
  }

  /** What is left to evaluate, entity by entity: what some live rule detects and the cache did not
      answer. Nothing is left exactly when the cache answered every live rule. */
  lemma MissingExactly(rules: seq<Rule>, data: Bytes, cached: Results)
    ensures forall e :: e in Entities(MissingSet(rules, data, cached))
                   <==> e !in cached && exists i :: 0 <= i < |rules| && rules[i].Live(data) && rules[i].Entity() == e
    ensures MissingSet(rules, data, cached) == []
       <==> forall i :: 0 <= i < |rules| && rules[i].Live(data) ==> rules[i].Entity() in cached
  {
    var missing := MissingSet(rules, data, cached);
    MissingSetIsGood(rules, data, cached);
    forall i | 0 <= i < |rules| && rules[i].Live(data) && rules[i].Entity() !in cached
      ensures rules[i].Entity() in Entities(missing)
    {
      LiveRuleIsQueued(rules, data, cached, {}, i);
    }
    forall k | 0 <= k < |missing|
      ensures exists i :: 0 <= i < |rules| && rules[i].Live(data) && rules[i].Entity() == missing[k].entity
    {
      var i :| 0 <= i < |rules| && rules[i] == missing[k].rule && ClaimsFirst(rules, data, i);
    }
    if missing != [] { assert missing[0].entity in Entities(missing); }
  }

  // ---- evaluation ----

  lemma {:induction false} MatchAllIsTruthful(truth: Truth, rules: seq<Rule>, missing: seq<Missing>, data: Bytes)
    requires Coherent(truth, rules)
    requires forall k :: 0 <= k < |missing| ==> missing[k].rule in rules && missing[k].entity == missing[k].rule.Entity()
    ensures Truthful(truth, data, MatchAll(missing, data))
    ensures MatchAll(missing, data).Keys == Entities(missing)
  {
    if missing != [] {
      var n := |missing| - 1;
      MatchAllIsTruthful(truth, rules, missing[..n], data);
      assert Entities(missing) == Entities(missing[..n]) + {missing[n].entity};
    }
  }

  lemma {:induction false} ResidualProperties(missing: seq<Missing>, results: Results)
    ensures forall k :: 0 <= k < |Residual(missing, results)| ==>
              Residual(missing, results)[k] in missing && Residual(missing, results)[k].entity !in results
    ensures Entities(missing) <= results.Keys + Entities(Residual(missing, results))
    ensures |Residual(missing, results)| <= |missing|
  {
    if missing != [] {
      ResidualProperties(missing[1..], results);
      var residual, rest := Residual(missing, results), Residual(missing[1..], results);
      forall i | 0 <= i < |missing| ensures missing[i].entity in results.Keys + Entities(residual) {
        if i == 0 {
          if missing[0].entity !in results { assert residual[0].entity == missing[0].entity; }
        } else {
          assert missing[i] == missing[1..][i - 1];
          assert missing[i].entity in Entities(missing[1..]);
          if missing[i].entity !in results {
            var k :| 0 <= k < |rest| && rest[k].entity == missing[i].entity;
            assert residual[if missing[0].entity in results then k else k + 1] == rest[k];
          }
        }
      }
    }
  }

  /** A covered missing set has no residual. */
  lemma {:induction false} CoveredHasNoResidual(missing: seq<Missing>, results: Results)
    requires Covers(results, missing)
    ensures Residual(missing, results) == []
  {
    if missing != [] {
      assert missing[0].entity in results;
      CoveredHasNoResidual(missing[1..], results);
    }
  }

  lemma NoResidualIsCovered(missing: seq<Missing>, results: Results)
    requires Residual(missing, results) == []
    ensures Covers(results, missing)
  {
    ResidualProperties(missing, results);
    forall i | 0 <= i < |missing| ensures missing[i].entity in results {
      assert missing[i].entity in Entities(missing);
    }
  }

  lemma MergedCovers(missing: seq<Missing>, results: Results, more: Results)
    requires more.Keys == Entities(Residual(missing, results))
    ensures Covers(results + more, missing)
  {
    ResidualProperties(missing, results);
    forall i | 0 <= i < |missing| ensures missing[i].entity in results + more {
      assert missing[i].entity in Entities(missing);
    }
  }

  // ---- the final pass ----

  /** Whether a rule wins the final pass, given no earlier rule does. */
  predicate RuleHits(rule: Rule, data: Bytes, cached: Results, evaluated: Results) {
    !rule.disable && Hits(ViewOf(rule, data, cached), evaluated)
  }

  lemma {:induction false} FinalPassIsLeast(rules: seq<Rule>, data: Bytes, cached: Results, evaluated: Results)
    returns (i: nat)
    ensures i <= |rules|
    ensures forall j :: 0 <= j < i ==> !RuleHits(rules[j], data, cached, evaluated)
    ensures i < |rules| ==> RuleHits(rules[i], data, cached, evaluated)
    ensures FinalPass(Views(rules, data, cached), evaluated) == if i < |rules| then Some(rules[i]) else None
  {
    if rules == [] || RuleHits(rules[0], data, cached, evaluated) {
      i := 0;
    } else {
      var k := FinalPassIsLeast(rules[1..], data, cached, evaluated);
      i := k + 1;
      assert rules[0].disable ==> Views(rules, data, cached) == Views(rules[1..], data, cached);
      forall j | 0 <= j < i ensures !RuleHits(rules[j], data, cached, evaluated) {
        if j > 0 { assert rules[j] == rules[1..][j - 1]; }
      }
    }
  }

  /** With a truthful negative cache and truthful, possibly partial results, whatever the
      final pass reports is a live, truly matching first claimant of its entity. */
  lemma FinalPassIsSound(truth: Truth, rules: seq<Rule>, data: Bytes, cached: Results, evaluated: Results)
    requires Coherent(truth, rules) && NegativeTruth(truth, data, cached) && Truthful(truth, data, evaluated)
    ensures var r := FinalPass(Views(rules, data, cached), evaluated);
            r.Some? ==> Sound(rules, data, r.value)
  {
    var i := FinalPassIsLeast(rules, data, cached, evaluated);
    if i < |rules| {
      assert rules[i].matcher.matches(data) == truth(rules[i].Entity(), data);
      forall j | 0 <= j < i && rules[j].Entity() == rules[i].Entity() ensures !rules[j].Live(data) {
        assert !RuleHits(rules[j], data, cached, evaluated);
      }
      assert ClaimsFirst(rules, data, i);
    }
  }

  /** With results covering the missing set the final pass is exactly the reference decision. */
  lemma FinalPassIsFirstMatch(truth: Truth, rules: seq<Rule>, data: Bytes, cached: Results, evaluated: Results)
    requires Coherent(truth, rules) && NegativeTruth(truth, data, cached) && Truthful(truth, data, evaluated)
    requires Covers(evaluated, MissingSet(rules, data, cached))
    ensures FinalPass(Views(rules, data, cached), evaluated) == FirstMatch(rules, data)
  {
    var i := FinalPassIsLeast(rules, data, cached, evaluated);
    forall j | 0 <= j < |rules|
      ensures RuleHits(rules[j], data, cached, evaluated) <==> rules[j].Fires(data)
    {
      assert rules[j].matcher.matches(data) == truth(rules[j].Entity(), data);
      if Queues(rules[j], data, cached, {}) {
        LiveRuleIsQueued(rules, data, cached, {}, j);
      }
    }
    if i < |rules| {
      FirstMatchIsLeast(rules, data, i);
    } else {
      NoneFiresMeansNoMatch(rules, data);
    }
  }

  /** A cache of negatives alone reports nothing. */
  lemma NegativesReportNothing(truth: Truth, rules: seq<Rule>, data: Bytes, cached: Results)
    requires NegativeTruth(truth, data, cached)
    ensures FinalPass(Views(rules, data, cached), map[]) == None
  {
    var i := FinalPassIsLeast(rules, data, cached, map[]);
  }

  lemma NegativesAreTrue(truth: Truth, data: Bytes, results: Results)
    requires Truthful(truth, data, results)
    ensures NegativeTruth(truth, data, Negatives(results))
  {
  }
}
