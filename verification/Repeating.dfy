/** Five consecutive equal digits: what the nested loops find, how often they read each byte, and
    when two reads per byte suffice. */
module Repeating {
  import opened Prelude
  import opened RuneFilter

  predicate FiveFrom(s: Bytes, i: nat) {
    i + 5 <= |s| && IsDigit(s[i]) && s[i] == s[i + 1] == s[i + 2] == s[i + 3] == s[i + 4]
  }

  /** Length of the run of one digit that starts at i. */
  function RunLength(s: Bytes, i: nat): (r: nat)
    requires i <= |s|
    ensures i + r <= |s|
    decreases |s| - i
  {
    if i == |s| || !IsDigit(s[i]) then 0
    else if i + 1 < |s| && s[i + 1] == s[i] then RunLength(s, i + 1) + 1
    else 1
  }

  lemma {:induction false} RunIsUniform(s: Bytes, i: nat)
    requires i <= |s|
    ensures var r := RunLength(s, i);
            && (forall k :: i <= k < i + r ==> s[k] == s[i])
            && (r > 0 ==> IsDigit(s[i]))
            && (r > 0 && i + r < |s| ==> s[i + r] != s[i])
    decreases |s| - i
  {
    if i < |s| { RunIsUniform(s, i + 1); }
  }

  lemma RunOfFive(s: Bytes, i: nat)
    requires i <= |s|
    ensures FiveFrom(s, i) <==> RunLength(s, i) >= 5
  {
    RunIsUniform(s, i);
  }

  /** The start at which the outer loop returns, or the end of the input. */
  function Stop(s: Bytes, i: nat): (stop: nat)
    requires i <= |s|
    ensures i <= stop <= |s|
    ensures stop < |s| ==> FiveFrom(s, stop)
    ensures forall k: nat :: i <= k < stop ==> !FiveFrom(s, k)
    decreases |s| - i
  {
    if i == |s| || FiveFrom(s, i) then i else Stop(s, i + 1)
  }

  // ---- reads per byte ----

  /** The inner loop started at i looks at byte p. */
  predicate Compares(s: Bytes, i: nat, p: nat)
    requires i < p < |s|
  {
    IsDigit(s[i]) && forall k :: i <= k < p ==> s[k] == s[i]
  }

  /** How many of the first n starts look at byte p. */
  function Comparing(s: Bytes, n: nat, p: nat): (c: nat)
    requires n <= p < |s|
    ensures c <= n
  {
    if n == 0 then 0 else Comparing(s, n - 1, p) + if Compares(s, n - 1, p) then 1 else 0
  }

  function Lesser(a: nat, b: nat): nat { if a < b then a else b }

  /** How often byte p is read once the outer loop has taken the first n starts: as a start itself,
      and by every earlier start whose run reaches up to it. */
  function ReadsOf(s: Bytes, n: nat, p: nat): nat
    requires p < |s|
  {
    (if p < n then 1 else 0) + Comparing(s, Lesser(n, p), p)
  }

  /** Starts taken in all: up to and including the one that returns. */
  function Starts(s: Bytes): (n: nat)
    ensures n <= |s|
  {
    if Stop(s, 0) < |s| then Stop(s, 0) + 1 else |s|
  }

  lemma ReadsStep(s: Bytes, n: nat, p: nat)
    requires n < |s| && p < |s|
    ensures ReadsOf(s, n + 1, p)
         == ReadsOf(s, n, p) + (if p == n || (n < p && Compares(s, n, p)) then 1 else 0)
  {
  }

  /** The run that starts at i is compared byte by byte, and so is the byte that ends it. */
  lemma ComparedBytes(s: Bytes, i: nat, p: nat)
    requires i < p < |s|
    ensures Compares(s, i, p) <==> RunLength(s, i) > 0 && p <= i + RunLength(s, i)
  {
    RunIsUniform(s, i);
  }

  /** The comparisons one start makes. */
  function Cost(s: Bytes, i: nat): nat
    requires i < |s|
  {
    var r := RunLength(s, i);
    if r == 0 then 0 else if i + r < |s| then r else r - 1
  }

  /** What the comparisons made before start i leave of five halves per byte: a run of r equal
      digits still ahead has not been paid for yet. */
  predicate Affordable(s: Bytes, i: nat, comparisons: nat)
    requires i <= |s|
  {
    var r := RunLength(s, i);
    2 * comparisons <= if r <= 4 then 5 * (i + r) - r * (r + 1) else 5 * i
  }

  lemma NextIsAffordable(s: Bytes, i: nat, comparisons: nat)
    requires i < |s| && Affordable(s, i, comparisons) && RunLength(s, i) < 5
    ensures Affordable(s, i + 1, comparisons + Cost(s, i))
  {
    var r, next := RunLength(s, i), RunLength(s, i + 1);
    assert r >= 2 ==> next == r - 1;
    if r == 0 {} else if r == 1 {} else if r == 2 {} else if r == 3 {} else {}
    if next == 0 {} else if next == 1 {} else if next == 2 {} else if next == 3 {} else {}
  }

  /** The inner loop: how many bytes from i on repeat the digit at i. */
  method CountRun(s: Bytes, i: nat, ghost before: seq<nat>)
    returns (count: nat, ghost comparisons: nat, ghost visits: seq<nat>)
    requires i < |s| && IsDigit(s[i]) && |before| == |s|
    ensures count == RunLength(s, i) && comparisons == Cost(s, i) && |visits| == |s|
    ensures forall p: nat :: p < |s| ==> visits[p] == before[p] + if i < p <= i + count then 1 else 0
  {
    RunIsUniform(s, i);
    count, comparisons, visits := 1, 0, before;
    var j := i + 1;
    while j < |s|
      invariant i < j <= |s| && count == j - i <= RunLength(s, i) && comparisons == count - 1 && |visits| == |s|
      invariant forall p: nat :: p < |s| ==> visits[p] == before[p] + if i < p < j then 1 else 0
    {
      comparisons := comparisons + 1;
      visits := visits[j := visits[j] + 1];
      if s[j] != s[i] {
        break;
      }
      count := count + 1;
      j := j + 1;
    }
  }

  /** Found exactly when five consecutive bytes are the same digit. Runs are re-counted from every
      start, which costs at most five comparisons for every two bytes, and every byte is read as
      often as ReadsOf says. */
  method MatchRepeatingNumber(s: Bytes) returns (found: bool, ghost comparisons: nat, ghost visits: seq<nat>)
    ensures found <==> exists i: nat :: FiveFrom(s, i)
    ensures 2 * comparisons <= 5 * |s|
    ensures |visits| == |s| && forall p: nat :: p < |s| ==> visits[p] == ReadsOf(s, Starts(s), p)
  {
    comparisons, visits := 0, seq(|s|, _ => 0);
    for i := 0 to |s|
      invariant Affordable(s, i, comparisons) && |visits| == |s|
      invariant forall k: nat :: k < i ==> !FiveFrom(s, k)
      invariant forall p: nat :: p < |s| ==> visits[p] == ReadsOf(s, i, p)
    {
      RunOfFive(s, i);
      ghost var before := visits;
      visits := visits[i := visits[i] + 1];
      ghost var cost := 0;
      if s[i] >= '0' as int && s[i] <= '9' as int {
        var count;
        count, cost, visits := CountRun(s, i, visits);
        StartReads(s, i, before, visits);
        if count >= 5 {
          return true, comparisons + cost, visits;
        }
      } else {
        StartReads(s, i, before, visits);
      }
      NextIsAffordable(s, i, comparisons);
      comparisons := comparisons + cost;
    }
    return false, comparisons, visits;
  }

  /** One start reads itself and what it compares. */
  lemma StartReads(s: Bytes, i: nat, before: seq<nat>, after: seq<nat>)
    requires i < |s| && |before| == |after| == |s|
    requires forall p: nat :: p < |s| ==> before[p] == ReadsOf(s, i, p)
    requires forall p: nat :: p < |s| ==>
               after[p] == before[p] + if p == i || (i < p <= i + RunLength(s, i) && RunLength(s, i) > 0) then 1 else 0
    ensures forall p: nat :: p < |s| ==> after[p] == ReadsOf(s, i + 1, p)
  {
    forall p: nat | p < |s| ensures after[p] == ReadsOf(s, i + 1, p) {
      ReadsStep(s, i, p);
      if i < p { ComparedBytes(s, i, p); }
    }
  }

  // ---- how many reads a byte can take ----

  /** Starts below m do not look at p, so at most the n - m others do. */
  lemma {:induction false} FewCompare(s: Bytes, m: nat, n: nat, p: nat)
    requires m <= n <= p < |s| && forall i :: 0 <= i < m ==> !Compares(s, i, p)
    ensures Comparing(s, n, p) <= n - m
  {
    if n > m {
      FewCompare(s, m, n - 1, p);
    } else if n > 0 {
      FewCompare(s, m - 1, n - 1, p);
    }
  }

  /** Past the start that returns, only that start looks on. */
  lemma PastStop(s: Bytes, p: nat)
    requires Stop(s, 0) < p < |s|
    ensures ReadsOf(s, Starts(s), p) <= 1
  {
    var stop := Stop(s, 0);
    assert FiveFrom(s, stop);
    assert forall i: nat :: i < stop && s[i] == s[stop] && Compares(s, i, p) ==> FiveFrom(s, i);
    FewCompare(s, stop, stop + 1, p);
  }

  lemma UpToStop(s: Bytes, p: nat)
    requires p < |s| && p <= Stop(s, 0)
    ensures ReadsOf(s, Starts(s), p) == 1 + Comparing(s, p, p)
  {
  }

  /** Two equal digits in front of byte p, which the outer loop reaches. */
  predicate FollowsPair(s: Bytes, p: nat) {
    2 <= p < |s| && p <= Stop(s, 0) && IsDigit(s[p - 1]) && s[p - 2] == s[p - 1]
  }

  lemma ReadsTwice(s: Bytes, p: nat)
    requires p < |s|
    ensures ReadsOf(s, Starts(s), p) <= 2 <==> !FollowsPair(s, p)
  {
    if p > Stop(s, 0) {
      PastStop(s, p);
    } else {
      UpToStop(s, p);
      if FollowsPair(s, p) {
        assert Compares(s, p - 1, p) && Compares(s, p - 2, p);
      } else if p > 0 {
        FewCompare(s, p - 1, p, p);
      }
    }
  }

  /** Every byte is read at most twice exactly when, up to the first run of five, no byte follows
      two equal digits. */
  lemma TwiceIffNoPairFollowed(s: Bytes)
    ensures (forall p: nat :: p < |s| ==> ReadsOf(s, Starts(s), p) <= 2) <==> !exists p: nat :: FollowsPair(s, p)
  {
    forall p: nat | p < |s| ensures ReadsOf(s, Starts(s), p) <= 2 <==> !FollowsPair(s, p) { ReadsTwice(s, p); }
    if p: nat :| FollowsPair(s, p) { assert ReadsOf(s, Starts(s), p) > 2; }
  }

  /** A start without five equal digits looks at most four bytes ahead. */
  lemma ShortLook(s: Bytes, i: nat, p: nat)
    requires i + 4 < p < |s| && !FiveFrom(s, i)
    ensures !Compares(s, i, p)
  {
  }

  /** No byte is read more than five times. */
  lemma AtMostFiveReads(s: Bytes, p: nat)
    requires p < |s|
    ensures ReadsOf(s, Starts(s), p) <= 5
  {
    if p > Stop(s, 0) {
      PastStop(s, p);
    } else {
      UpToStop(s, p);
      var m := if p < 4 then 0 else p - 4;
      forall i | 0 <= i < m ensures !Compares(s, i, p) { ShortLook(s, i, p); }
      FewCompare(s, m, p, p);
    }
  }

  const FOUR_THEN_ANOTHER: Bytes := ['1' as int, '1' as int, '1' as int, '1' as int, '2' as int]

  /** The bound of five is reached: in 11112 four starts look at the last byte before its own. */
  lemma FiveReads()
    ensures ReadsOf(FOUR_THEN_ANOTHER, Starts(FOUR_THEN_ANOTHER), 4) == 5 && FollowsPair(FOUR_THEN_ANOTHER, 4)
  {
    var s := FOUR_THEN_ANOTHER;
    assert forall k: nat :: !FiveFrom(s, k);
    UpToStop(s, 4);
    assert Compares(s, 3, 4) && Compares(s, 2, 4) && Compares(s, 1, 4) && Compares(s, 0, 4);
    assert Comparing(s, 1, 4) == 1;
    assert Comparing(s, 2, 4) == 2;
    assert Comparing(s, 3, 4) == 3;
  }
}
