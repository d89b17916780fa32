/** The token-scoped cache contract: one hash per token, read whole, written in batches. */
module TokenCache {
  import opened Prelude
  import opened Rules
  import opened Classification

  type Hashes = map<Bytes, Results>

  function Lookup(hashes: Hashes, data: Bytes): Results {
    if data in hashes then hashes[data] else map[]
  }

  function Store(hashes: Hashes, data: Bytes, batch: Results): Hashes {
    hashes[data := Lookup(hashes, data) + batch]
  }

  /** The batch a runner persists: its negatives, and no command at all when there are none. */
  function StoreNegatives(hashes: Hashes, data: Bytes, results: Results): Hashes {
    if Negatives(results) == map[] then hashes else Store(hashes, data, Negatives(results))
  }

  /** The token's hash has the batch's fields beside those it had; other tokens keep theirs. */
  ghost predicate Batched(before: Hashes, after: Hashes, data: Bytes, batch: Results) {
    && data in after && after.Keys == before.Keys + {data}
    && (forall d :: d in before && d != data ==> after[d] == before[d])
    && (forall e :: e in batch ==> e in after[data] && after[data][e] == batch[e])
    && (forall e :: data in before && e in before[data] && e !in batch ==> e in after[data] && after[data][e] == before[data][e])
    && (forall e :: e in after[data] ==> e in batch || (data in before && e in before[data]))
  }

  lemma StoreBatches(hashes: Hashes, data: Bytes, batch: Results)
    ensures Batched(hashes, Store(hashes, data, batch), data, batch)
  {
  }

  /** The batch a runner persists holds false for exactly the entities that did not match; when all
      matched there is none. */
  lemma StoresNegatives(hashes: Hashes, data: Bytes, results: Results)
    ensures if forall e :: e in results ==> results[e] then StoreNegatives(hashes, data, results) == hashes
            else Batched(hashes, StoreNegatives(hashes, data, results), data, map e | e in results && !results[e] :: false)
  {
    if e :| e in results && !results[e] { assert e in Negatives(results); }
    StoreBatches(hashes, data, Negatives(results));
  }

  ghost predicate TrueNegatives(truth: Truth, hashes: Hashes) {
    forall d :: d in hashes ==> NegativeTruth(truth, d, hashes[d])
  }

  /** The token's hash answers every rule that takes part in the decision. */
  ghost predicate AllStored(hashes: Hashes, rules: seq<Rule>, data: Bytes) {
    forall i :: 0 <= i < |rules| && rules[i].Live(data) ==> data in hashes && rules[i].Entity() in hashes[data]
  }

  lemma LookupIsTrue(truth: Truth, hashes: Hashes, data: Bytes)
    requires TrueNegatives(truth, hashes)
    ensures NegativeTruth(truth, data, Lookup(hashes, data))
  {
  }

  /** Saving the negatives of truthful results keeps every stored field false and true. */
  lemma StoreNegativesKeepsTruth(truth: Truth, hashes: Hashes, data: Bytes, results: Results)
    requires TrueNegatives(truth, hashes) && Truthful(truth, data, results)
    ensures TrueNegatives(truth, StoreNegatives(hashes, data, results))
  {
    NegativesAreTrue(truth, data, results);
    LookupIsTrue(truth, hashes, data);
  }

  class CacheStore {
    var hashes: Hashes
    /** How many batches were sent, whether they arrived or not. */
    ghost var saves: nat

    constructor ()
      ensures hashes == map[] && saves == 0
    {
      hashes, saves := map[], 0;
    }

    /** A failed read yields no map; any other exactly the fields of the token's hash. */
    method GetMatches(data: Bytes, fails: bool) returns (r: Option<Results>)
      ensures fails ==> r == None
      ensures !fails && data in hashes ==> r == Some(hashes[data])
      ensures !fails && data !in hashes ==> r == Some(map[])
    {
      if fails {
        return None;
      }
      return Some(Lookup(hashes, data));
    }

    /** A save sets the batch's fields and leaves the token's other fields and every other token. */
    method SaveMatches(data: Bytes, results: Results, fails: bool) returns (ok: bool)
      modifies this
      ensures ok == !fails && saves == old(saves) + 1
      ensures fails ==> hashes == old(hashes)
      ensures !fails ==> hashes == Store(old(hashes), data, results) && Batched(old(hashes), hashes, data, results)
    {
      saves := saves + 1;
      if !fails {
        StoreBatches(hashes, data, results);
        hashes := Store(hashes, data, results);
      }
      return !fails;
    }
  }
}
