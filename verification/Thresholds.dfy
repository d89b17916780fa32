/** Boolean and threshold combinators: the short-circuit loops, what they count, when they stop,
    and De Morgan's laws over nested formulas. */
module Thresholds {
  import opened Prelude

  type Pattern = Bytes -> bool

  function Outcomes(patterns: seq<Pattern>, s: Bytes): (bs: seq<bool>)
    ensures |bs| == |patterns| && forall i :: 0 <= i < |bs| ==> bs[i] == patterns[i](s)
  {
    seq(|patterns|, i requires 0 <= i < |patterns| => patterns[i](s))
  }

  /** How many of the first k outcomes are true. */
  function Passing(bs: seq<bool>, k: nat): (n: nat)
    requires k <= |bs|
    ensures n <= k
  {
    if k == 0 then 0 else Passing(bs, k - 1) + (if bs[k - 1] then 1 else 0)
  }

  function Count(bs: seq<bool>): nat { Passing(bs, |bs|) }

  ghost predicate Agree(a: seq<bool>, b: seq<bool>, k: nat)
    requires k <= |a| && k <= |b|
  {
    forall i :: 0 <= i < k ==> a[i] == b[i]
  }

  lemma {:induction false} PassingAgrees(a: seq<bool>, b: seq<bool>, k: nat)
    requires k <= |a| && k <= |b| && Agree(a, b, k)
    ensures Passing(a, k) == Passing(b, k)
  {
    if k > 0 { PassingAgrees(a, b, k - 1); }
  }

  /** Later outcomes add between none and all of themselves. */
  lemma {:induction false} PassingGrows(bs: seq<bool>, k: nat, m: nat)
    requires k <= m <= |bs|
    ensures Passing(bs, k) <= Passing(bs, m) <= Passing(bs, k) + (m - k)
    ensures (forall i :: k <= i < m ==> bs[i]) ==> Passing(bs, m) == Passing(bs, k) + (m - k)
    ensures (forall i :: k <= i < m ==> !bs[i]) ==> Passing(bs, m) == Passing(bs, k)
  {
    if k < m { PassingGrows(bs, k, m - 1); }
  }

  lemma {:induction false} PassingAll(bs: seq<bool>, k: nat)
    requires k <= |bs|
    ensures Passing(bs, k) == k <==> forall i :: 0 <= i < k ==> bs[i]
    ensures Passing(bs, k) == 0 <==> forall i :: 0 <= i < k ==> !bs[i]
  {
    if k > 0 { PassingAll(bs, k - 1); assert bs[k - 1] || !bs[k - 1]; }
  }

  /** The threshold in force: at least one, at most the number of patterns. */
  function Clamp(n: int, size: nat): int {
    var raised := if n < 1 then 1 else n;
    if raised > size then size else raised
  }

  /** The combinator's verdict. */
  predicate Meets(n: int, bs: seq<bool>) {
    bs != [] && Count(bs) >= Clamp(n, |bs|)
  }

  /** The first k outcomes already fix the verdict, whatever the others turn out to be. */
  ghost predicate Settled(n: int, bs: seq<bool>, k: nat)
    requires k <= |bs|
  {
    forall other: seq<bool> :: |other| == |bs| && Agree(bs, other, k) ==> (Meets(n, other) <==> Meets(n, bs))
  }

  /** The two tests of the loop body. */
  predicate Decides(n: int, bs: seq<bool>, k: nat)
    requires k <= |bs|
  {
    |bs| - (k - Passing(bs, k)) < Clamp(n, |bs|) || Passing(bs, k) >= Clamp(n, |bs|)
  }

  /** What a deciding prefix says. */
  lemma DecidedVerdict(n: int, bs: seq<bool>, k: nat)
    requires bs != [] && k <= |bs|
    ensures Passing(bs, k) >= Clamp(n, |bs|) ==> Meets(n, bs)
    ensures |bs| - (k - Passing(bs, k)) < Clamp(n, |bs|) ==> !Meets(n, bs)
  {
    PassingGrows(bs, k, |bs|);
  }

  /** The tests detect exactly the prefixes that fix the verdict. */
  lemma DecidesIffSettled(n: int, bs: seq<bool>, k: nat)
    requires bs != [] && k <= |bs|
    ensures Decides(n, bs, k) <==> Settled(n, bs, k)
  {
    if Decides(n, bs, k) {
      DecidedVerdict(n, bs, k);
      forall other: seq<bool> | |other| == |bs| && Agree(bs, other, k) ensures Meets(n, other) <==> Meets(n, bs) {
        PassingAgrees(bs, other, k);
        DecidedVerdict(n, other, k);
      }
    }
    if Settled(n, bs, k) {
      var yes := seq(|bs|, i requires 0 <= i < |bs| => i >= k || bs[i]);
      var no := seq(|bs|, i requires 0 <= i < |bs| => i < k && bs[i]);
      assert Agree(bs, yes, k) && Agree(bs, no, k);
      PassingAgrees(bs, yes, k);
      PassingAgrees(bs, no, k);
      PassingGrows(yes, k, |bs|);
      PassingGrows(no, k, |bs|);
      assert Meets(n, yes) == Meets(n, no);
    }
  }

  /** Stopping at the first deciding prefix is stopping at the first settled one. */
  lemma FirstDecided(n: int, bs: seq<bool>, k: nat)
    requires bs != [] && k <= |bs| && Decides(n, bs, k) && forall j: nat :: j < k ==> !Decides(n, bs, j)
    ensures Settled(n, bs, k) && forall j: nat :: j < k ==> !Settled(n, bs, j)
  {
    DecidesIffSettled(n, bs, k);
    forall j: nat | j < k ensures !Settled(n, bs, j) { DecidesIffSettled(n, bs, j); }
  }

  /** The first k outcomes fix the verdict and no shorter prefix does. */
  ghost predicate FirstSettled(n: int, bs: seq<bool>, k: nat)
    requires k <= |bs|
  {
    Settled(n, bs, k) && forall j: nat :: j < k ==> !Settled(n, bs, j)
  }

  ghost predicate Undecided(n: int, bs: seq<bool>, k: nat)
    requires k <= |bs|
  {
    forall j: nat :: j < k ==> !Decides(n, bs, j)
  }

  /** At the first deciding prefix: the verdict, and why not earlier. */
  lemma StopsRight(n: int, bs: seq<bool>, k: nat)
    requires bs != [] && k <= |bs| && Decides(n, bs, k) && Undecided(n, bs, k)
    ensures Passing(bs, k) >= Clamp(n, |bs|) ==> Meets(n, bs)
    ensures |bs| - (k - Passing(bs, k)) < Clamp(n, |bs|) ==> !Meets(n, bs)
    ensures FirstSettled(n, bs, k)
  {
    DecidedVerdict(n, bs, k);
    FirstDecided(n, bs, k);
  }

  // ---- the threshold in terms of the patterns themselves ----

  /** The indices of the first k outcomes that are true. */
  ghost function TrueAt(bs: seq<bool>, k: nat): set<nat>
    requires k <= |bs|
  {
    set i: nat | i < k && bs[i]
  }

  lemma {:induction false} PassingIsCardinality(bs: seq<bool>, k: nat)
    requires k <= |bs|
    ensures |TrueAt(bs, k)| == Passing(bs, k)
  {
    if k > 0 {
      PassingIsCardinality(bs, k - 1);
      assert TrueAt(bs, k) == TrueAt(bs, k - 1) + if bs[k - 1] then {k - 1} else {};
    } else {
      assert TrueAt(bs, k) == {};
    }
  }

  lemma {:induction false} SubsetIsSmaller(a: set<nat>, b: set<nat>)
    requires a <= b
    ensures |a| <= |b|
  {
    if a != {} {
      var x :| x in a;
      SubsetIsSmaller(a - {x}, b - {x});
    }
  }

  lemma {:induction false} SubsetOfSize(b: set<nat>, n: nat) returns (a: set<nat>)
    requires n <= |b|
    ensures a <= b && |a| == n
    decreases |b|
  {
    if n == |b| {
      a := b;
    } else {
      var x :| x in b;
      a := SubsetOfSize(b - {x}, n);
    }
  }

  /** All of these distinct patterns match. */
  ghost predicate AllMatch(patterns: seq<Pattern>, s: Bytes, indices: set<nat>) {
    forall i :: i in indices ==> i < |patterns| && patterns[i](s)
  }

  /** Some n distinct patterns match. */
  ghost predicate SomeMatch(n: nat, patterns: seq<Pattern>, s: Bytes) {
    exists indices :: |indices| == n && AllMatch(patterns, s, indices)
  }

  /** Between one and the list's length, n distinct patterns must match; below, one must, and
      above, all of a list that is not empty. */
  ghost predicate Verdict(n: int, patterns: seq<Pattern>, s: Bytes) {
    if patterns == [] then false
    else if n < 1 then exists i :: 0 <= i < |patterns| && patterns[i](s)
    else if n > |patterns| then forall i :: 0 <= i < |patterns| ==> patterns[i](s)
    else SomeMatch(n, patterns, s)
  }

  lemma SomeMatchIffCount(n: nat, patterns: seq<Pattern>, s: Bytes)
    ensures SomeMatch(n, patterns, s) <==> n <= Count(Outcomes(patterns, s))
  {
    var bs := Outcomes(patterns, s);
    var all := TrueAt(bs, |bs|);
    PassingIsCardinality(bs, |bs|);
    if indices :| |indices| == n && AllMatch(patterns, s, indices) {
      forall i | i in indices ensures i in all { assert bs[i]; }
      SubsetIsSmaller(indices, all);
    }
    if n <= |all| {
      var indices := SubsetOfSize(all, n);
      assert AllMatch(patterns, s, indices);
    }
  }

  lemma VerdictIsMeets(n: int, patterns: seq<Pattern>, s: Bytes)
    ensures Meets(n, Outcomes(patterns, s)) <==> Verdict(n, patterns, s)
  {
    var bs := Outcomes(patterns, s);
    PassingAll(bs, |bs|);
    if 1 <= n { SomeMatchIffCount(n, patterns, s); }
    if i :| 0 <= i < |patterns| && patterns[i](s) { assert bs[i]; }
    if i :| 0 <= i < |bs| && bs[i] { assert patterns[i](s); }
    if i :| 0 <= i < |bs| && !bs[i] { assert !patterns[i](s); }
  }

  /** True exactly when n distinct patterns match, having evaluated no pattern after the first
      prefix that settles it. */
  method AtLeastN(n: int, patterns: seq<Pattern>, s: Bytes) returns (r: bool, evaluated: nat)
    ensures r == Verdict(n, patterns, s)
    ensures r == Meets(n, Outcomes(patterns, s))
    ensures evaluated <= |patterns|
    ensures if patterns == [] then evaluated == 0 else FirstSettled(n, Outcomes(patterns, s), evaluated)
  {
    var limit := n;
    if limit < 1 {
      limit := 1;
    }
    if limit > |patterns| {
      limit := |patterns|;
    }
    r, evaluated := Tally(limit, patterns, s, n);
    VerdictIsMeets(n, patterns, s);
  }

  /** The match function it builds: one loop over the patterns, with the clamped threshold. */
  method Tally(limit: int, patterns: seq<Pattern>, s: Bytes, ghost n: int) returns (r: bool, evaluated: nat)
    requires limit == Clamp(n, |patterns|)
    ensures r == Meets(n, Outcomes(patterns, s))
    ensures evaluated <= |patterns|
    ensures if patterns == [] then evaluated == 0 else FirstSettled(n, Outcomes(patterns, s), evaluated)
  {
    ghost var bs := Outcomes(patterns, s);
    var passes, fails := 0, 0;
    for i := 0 to |patterns|
      invariant passes == Passing(bs, i) && fails == i - passes
      invariant Undecided(n, bs, i) && (|patterns| > 0 ==> !Decides(n, bs, i))
    {
      if patterns[i](s) {
        passes := passes + 1;
      } else {
        fails := fails + 1;
      }
      if |patterns| - fails < limit {
        StopsRight(n, bs, i + 1);
        return false, i + 1;
      }
      if passes >= limit {
        StopsRight(n, bs, i + 1);
        return true, i + 1;
      }
    }
    return false, 0;
  }

  method All(funcs: seq<Pattern>, s: Bytes) returns (r: bool)
    ensures r == (funcs != [] && forall i :: 0 <= i < |funcs| ==> funcs[i](s))
  {
    for i := 0 to |funcs|
      invariant forall k :: 0 <= k < i ==> funcs[k](s)
    {
      if !funcs[i](s) {
        return false;
      }
    }
    return |funcs| > 0;
  }

  method Any(funcs: seq<Pattern>, s: Bytes) returns (r: bool)
    ensures r == exists i :: 0 <= i < |funcs| && funcs[i](s)
  {
    for i := 0 to |funcs|
      invariant forall k :: 0 <= k < i ==> !funcs[k](s)
    {
      if funcs[i](s) {
        return true;
      }
    }
    return false;
  }

  /** All is the threshold at the list's length and Any the threshold at one, on empty lists too. */
  lemma AllAndAnyAreThresholds(funcs: seq<Pattern>, s: Bytes)
    ensures Meets(|funcs|, Outcomes(funcs, s)) <==> funcs != [] && forall i :: 0 <= i < |funcs| ==> funcs[i](s)
    ensures Meets(1, Outcomes(funcs, s)) <==> exists i :: 0 <= i < |funcs| && funcs[i](s)
  {
    var bs := Outcomes(funcs, s);
    PassingAll(bs, |bs|);
    if i :| 0 <= i < |funcs| && funcs[i](s) { assert bs[i]; }
    if i :| 0 <= i < |bs| && bs[i] { assert funcs[i](s); }
    if i :| 0 <= i < |bs| && !bs[i] { assert !funcs[i](s); }
  }

  // ---- nested formulas ----

  datatype Formula =
    | Leaf(pattern: Pattern)
    | Not(f: Formula)
    | And(left: Formula, right: Formula)
    | Or(left: Formula, right: Formula)
    | AllOf(fs: seq<Formula>)
    | AnyOf(fs: seq<Formula>)
    | AtLeast(n: int, fs: seq<Formula>)

  predicate Eval(f: Formula, s: Bytes)
    decreases f, 1
  {
    match f
    case Leaf(pattern) => pattern(s)
    case Not(g) => !Eval(g, s)
    case And(g, h) => Eval(g, s) && Eval(h, s)
    case Or(g, h) => Eval(g, s) || Eval(h, s)
    case AllOf(fs) => fs != [] && Count(EvalList(fs, s)) == |fs|
    case AnyOf(fs) => Count(EvalList(fs, s)) > 0
    case AtLeast(n, fs) => Meets(n, EvalList(fs, s))
  }

  function EvalList(fs: seq<Formula>, s: Bytes): (bs: seq<bool>)
    ensures |bs| == |fs|
    decreases fs, 0
  {
    if fs == [] then [] else EvalList(fs[..|fs| - 1], s) + [Eval(fs[|fs| - 1], s)]
  }

  lemma {:induction false} EvalListAt(fs: seq<Formula>, s: Bytes, i: nat)
    requires i < |fs|
    ensures EvalList(fs, s)[i] == Eval(fs[i], s)
    decreases |fs|
  {
    if i < |fs| - 1 { EvalListAt(fs[..|fs| - 1], s, i); }
  }

  /** The operands as patterns. */
  ghost function Operands(fs: seq<Formula>): (patterns: seq<Pattern>)
    ensures |patterns| == |fs|
  {
    seq(|fs|, i requires 0 <= i < |fs| => ((x: Bytes) => Eval(fs[i], x)))
  }

  /** Every node decides what its combinator decides on its operands: And and Or of two, All and Any
      of a list, and AtLeastN, which needs n distinct operands. */
  lemma EvalWritten(f: Formula, s: Bytes)
    ensures f.Leaf? ==> (Eval(f, s) <==> f.pattern(s))
    ensures f.Not? ==> (Eval(f, s) <==> !Eval(f.f, s))
    ensures f.And? ==> (Eval(f, s) <==> Eval(f.left, s) && Eval(f.right, s))
    ensures f.Or? ==> (Eval(f, s) <==> Eval(f.left, s) || Eval(f.right, s))
    ensures f.AllOf? ==> (Eval(f, s) <==> f.fs != [] && forall i :: 0 <= i < |f.fs| ==> Eval(f.fs[i], s))
    ensures f.AnyOf? ==> (Eval(f, s) <==> exists i :: 0 <= i < |f.fs| && Eval(f.fs[i], s))
    ensures f.AtLeast? ==> (Eval(f, s) <==> Verdict(f.n, Operands(f.fs), s))
  {
    if f.AllOf? || f.AnyOf? || f.AtLeast? {
      var bs := EvalList(f.fs, s);
      forall i | 0 <= i < |f.fs| ensures bs[i] == Eval(f.fs[i], s) { EvalListAt(f.fs, s, i); }
      PassingAll(bs, |bs|);
      if f.AtLeast? {
        assert bs == Outcomes(Operands(f.fs), s);
        VerdictIsMeets(f.n, Operands(f.fs), s);
      }
    }
  }

  /** No combinator anywhere in the formula has an empty list. */
  predicate NonEmptyLists(f: Formula)
    decreases f, 1
  {
    match f
    case Leaf(_) => true
    case Not(g) => NonEmptyLists(g)
    case And(g, h) => NonEmptyLists(g) && NonEmptyLists(h)
    case Or(g, h) => NonEmptyLists(g) && NonEmptyLists(h)
    case AllOf(fs) => fs != [] && NonEmptyAll(fs)
    case AnyOf(fs) => fs != [] && NonEmptyAll(fs)
    case AtLeast(_, fs) => fs != [] && NonEmptyAll(fs)
  }

  predicate NonEmptyAll(fs: seq<Formula>)
    decreases fs, 0
  {
    fs == [] || (NonEmptyAll(fs[..|fs| - 1]) && NonEmptyLists(fs[|fs| - 1]))
  }

  /** The negation of a formula with every Not pushed down to the leaves, by De Morgan's laws; a
      threshold of n out of m becomes m - n + 1 failures. */
  function Push(f: Formula, negate: bool): Formula
    decreases f, 1
  {
    match f
    case Leaf(_) => if negate then Not(f) else f
    case Not(g) => Push(g, !negate)
    case And(g, h) => if negate then Or(Push(g, true), Push(h, true)) else And(Push(g, false), Push(h, false))
    case Or(g, h) => if negate then And(Push(g, true), Push(h, true)) else Or(Push(g, false), Push(h, false))
    case AllOf(fs) => if negate then AnyOf(PushAll(fs, true)) else AllOf(PushAll(fs, false))
    case AnyOf(fs) => if negate then AllOf(PushAll(fs, true)) else AnyOf(PushAll(fs, false))
    case AtLeast(n, fs) =>
      if negate then AtLeast(|fs| - Clamp(n, |fs|) + 1, PushAll(fs, true)) else AtLeast(n, PushAll(fs, false))
  }

  function PushAll(fs: seq<Formula>, negate: bool): (gs: seq<Formula>)
    ensures |gs| == |fs|
    decreases fs, 0
  {
    if fs == [] then [] else PushAll(fs[..|fs| - 1], negate) + [Push(fs[|fs| - 1], negate)]
  }

  predicate LeafNegations(f: Formula)
    decreases f, 1
  {
    match f
    case Leaf(_) => true
    case Not(g) => g.Leaf?
    case And(g, h) => LeafNegations(g) && LeafNegations(h)
    case Or(g, h) => LeafNegations(g) && LeafNegations(h)
    case AllOf(fs) => LeafNegationsAll(fs)
    case AnyOf(fs) => LeafNegationsAll(fs)
    case AtLeast(_, fs) => LeafNegationsAll(fs)
  }

  predicate LeafNegationsAll(fs: seq<Formula>)
    decreases fs, 0
  {
    fs == [] || (LeafNegationsAll(fs[..|fs| - 1]) && LeafNegations(fs[|fs| - 1]))
  }

  lemma CountSnoc(bs: seq<bool>, b: bool)
    ensures Count(bs + [b]) == Count(bs) + if b then 1 else 0
  {
    PassingAgrees(bs + [b], bs, |bs|);
  }

  /** De Morgan for any nesting of non-empty combinators: pushing a negation inwards negates the
      verdict, pushing none keeps it, and only leaves stay negated. */
  lemma {:induction false} PushIsCorrect(f: Formula, negate: bool, s: Bytes)
    requires NonEmptyLists(f)
    ensures Eval(Push(f, negate), s) == (if negate then !Eval(f, s) else Eval(f, s))
    ensures LeafNegations(Push(f, negate))
    decreases f, 1
  {
    match f
    case Leaf(_) =>
    case Not(g) => PushIsCorrect(g, !negate, s);
    case And(g, h) => PushIsCorrect(g, negate, s); PushIsCorrect(h, negate, s);
    case Or(g, h) => PushIsCorrect(g, negate, s); PushIsCorrect(h, negate, s);
    case _ => PushAllIsCorrect(f.fs, negate, s); ThresholdDuality(f, negate, s);
  }

  /** With the element verdicts flipped, each list combinator's dual flips its verdict. */
  lemma AllAnyDuality(f: Formula, negate: bool, s: Bytes)
    requires (f.AllOf? || f.AnyOf?) && f.fs != []
    requires Count(EvalList(PushAll(f.fs, negate), s))
          == (if negate then |f.fs| - Count(EvalList(f.fs, s)) else Count(EvalList(f.fs, s)))
    ensures Eval(Push(f, negate), s) == (if negate then !Eval(f, s) else Eval(f, s))
  {
    var gs := PushAll(f.fs, negate);
    assert gs != [];
    assert Push(f, negate) == if f.AllOf? != negate then AllOf(gs) else AnyOf(gs);
  }

  lemma AtLeastDuality(n: int, fs: seq<Formula>, gs: seq<Formula>, s: Bytes)
    requires fs != [] && |gs| == |fs|
    requires Count(EvalList(gs, s)) == |fs| - Count(EvalList(fs, s))
    ensures Eval(AtLeast(|fs| - Clamp(n, |fs|) + 1, gs), s) == !Eval(AtLeast(n, fs), s)
  {
    var passes, m := EvalList(gs, s), |fs| - Clamp(n, |fs|) + 1;
    assert Eval(AtLeast(m, gs), s) == Meets(m, passes);
    assert Clamp(m, |passes|) == m;
  }

  lemma ThresholdDuality(f: Formula, negate: bool, s: Bytes)
    requires (f.AllOf? || f.AnyOf? || f.AtLeast?) && f.fs != []
    requires Count(EvalList(PushAll(f.fs, negate), s))
          == (if negate then |f.fs| - Count(EvalList(f.fs, s)) else Count(EvalList(f.fs, s)))
    ensures Eval(Push(f, negate), s) == (if negate then !Eval(f, s) else Eval(f, s))
  {
    if !f.AtLeast? {
      AllAnyDuality(f, negate, s);
    } else if negate {
      AtLeastDuality(f.n, f.fs, PushAll(f.fs, true), s);
    } else {
      assert Push(f, false) == AtLeast(f.n, PushAll(f.fs, false));
    }
  }

  lemma {:induction false} PushAllIsCorrect(fs: seq<Formula>, negate: bool, s: Bytes)
    requires NonEmptyAll(fs)
    ensures Count(EvalList(PushAll(fs, negate), s))
         == (if negate then |fs| - Count(EvalList(fs, s)) else Count(EvalList(fs, s)))
    ensures LeafNegationsAll(PushAll(fs, negate))
    decreases fs, 0
  {
    if fs != [] {
      var front, last := fs[..|fs| - 1], fs[|fs| - 1];
      PushAllIsCorrect(front, negate, s);
      PushIsCorrect(last, negate, s);
      var gs := PushAll(fs, negate);
      assert gs[..|gs| - 1] == PushAll(front, negate);
      CountSnoc(EvalList(front, s), Eval(last, s));
      CountSnoc(EvalList(PushAll(front, negate), s), Eval(Push(last, negate), s));
    }
  }

  /** On one list the law holds exactly when the list is not empty: All of nothing is false. */
  lemma DeMorganIffNonEmpty(fs: seq<Formula>, s: Bytes)
    requires NonEmptyAll(fs)
    ensures Eval(Not(AllOf(fs)), s) == Eval(AnyOf(PushAll(fs, true)), s) <==> fs != []
    ensures Eval(Not(AnyOf(fs)), s) == Eval(AllOf(PushAll(fs, true)), s) <==> fs != []
  {
    PushAllIsCorrect(fs, true, s);
  }
}
