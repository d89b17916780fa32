/** CPF and CNPJ check digits: the matchers as written and the exact power of their mod-11 codes. */
module CheckDigits {
  import opened Prelude
  import opened RuneFilter

  type Values = seq<int>

  function Digits(s: Bytes): Values {
    seq(|s|, i requires 0 <= i < |s| => s[i] - '0' as int)
  }

  ghost predicate AllDigits(ds: Values) {
    forall i :: 0 <= i < |ds| ==> 0 <= ds[i] <= 9
  }

  /** The two strings agree except at one place. */
  ghost predicate DifferOnlyAt(xs: Values, ys: Values, i: nat) {
    i < |xs| == |ys| && xs[i] != ys[i] && forall j :: 0 <= j < |xs| && j != i ==> xs[j] == ys[j]
  }

  // ---- CPF ----

  /** Sum of the first n digits with weights top, top - 1, ... */
  function Weighted(ds: Values, top: int, n: nat): int
    requires n <= |ds|
  {
    if n == 0 then 0 else Weighted(ds, top, n - 1) + ds[n - 1] * (top - (n - 1))
  }

  /** The remainder of ten times the sum, with ten folded onto zero. */
  function CpfCheck(sum: int): int {
    if sum * 10 % 11 == 10 then 0 else sum * 10 % 11
  }

  function CpfFirst(ds: Values): int
    requires |ds| >= 9
  {
    CpfCheck(Weighted(ds, 10, 9))
  }

  function CpfSecond(ds: Values): int
    requires |ds| >= 9
  {
    CpfCheck(Weighted(ds, 11, 9) + CpfFirst(ds) * 2)
  }

  predicate CpfAccepts(ds: Values) {
    |ds| == 11 && ds[9] == CpfFirst(ds) && ds[10] == CpfSecond(ds)
  }

  method ValidateCPFCheckDigits(cpf: Bytes) returns (ok: bool)
    requires |cpf| == 11 && forall i :: 0 <= i < 11 ==> IsDigit(cpf[i])
    ensures ok == CpfAccepts(Digits(cpf))
  {
    var digits := Digits(cpf);
    var sum := 0;
    for i := 0 to 9
      invariant sum == Weighted(digits, 10, i)
    {
      sum := sum + digits[i] * (10 - i);
    }
    var result1 := sum * 10 % 11;
    if result1 == 10 {
      result1 := 0;
    }
    sum := 0;
    for i := 0 to 9
      invariant sum == Weighted(digits, 11, i)
    {
      sum := sum + digits[i] * (11 - i);
    }
    sum := sum + result1 * 2;
    var result2 := sum * 10 % 11;
    if result2 == 10 {
      result2 := 0;
    }
    return digits[9] == result1 && digits[10] == result2;
  }

  /** The matcher's verdict as a function of the input's digit bytes alone. */
  predicate IsCPF(s: Bytes) {
    CpfAccepts(Digits(Filter(s, DIGIT)))
  }

  method MatchCPF(s: Bytes) returns (ok: bool)
    ensures ok == IsCPF(s)
  {
    var cpf := DigitRunes(s, 0);
    DigitRunesAreDigitBytes(s, 0);
    assert s[0..] == s;
    if |cpf| != 11 {
      return false;
    }
    ok := ValidateCPFCheckDigits(cpf);
  }

  /** Bytes that are not digits never change the verdict, wherever they are inserted. */
  lemma CpfIgnoresNonDigits(a: Bytes, x: Bytes, b: Bytes)
    requires forall k :: 0 <= k < |x| ==> !IsDigit(x[k])
    ensures IsCPF(a + x + b) <==> IsCPF(a + b)
  {
    FilterInsert(a, x, b, DIGIT);
  }

  lemma {:induction false} WeightedSame(xs: Values, ys: Values, top: int, n: nat)
    requires n <= |xs| && n <= |ys| && forall j :: 0 <= j < n ==> xs[j] == ys[j]
    ensures Weighted(xs, top, n) == Weighted(ys, top, n)
  {
    if n > 0 { WeightedSame(xs, ys, top, n - 1); }
  }

  /** Every nine digits have exactly one accepted completion. */
  lemma CpfCompletion(base: Values, d1: int, d2: int)
    requires |base| == 9
    ensures CpfAccepts(base + [d1, d2]) <==> d1 == CpfFirst(base) && d2 == CpfSecond(base)
    ensures 0 <= CpfFirst(base) <= 9 && 0 <= CpfSecond(base) <= 9
  {
    WeightedSame(base, base + [d1, d2], 10, 9);
    WeightedSame(base, base + [d1, d2], 11, 9);
  }

  lemma {:induction false} WeightedChange(xs: Values, ys: Values, top: int, n: nat, i: nat)
    requires n <= |xs| && DifferOnlyAt(xs, ys, i)
    ensures Weighted(ys, top, n) == Weighted(xs, top, n) + if i < n then (top - i) * (ys[i] - xs[i]) else 0
  {
    if n > 0 { WeightedChange(xs, ys, top, n - 1, i); }
  }

  /** Eleven minus the remainder, with remainders zero and one both giving zero. */
  function Fold(sum: int): int {
    if sum % 11 < 2 then 0 else 11 - sum % 11
  }

  /** Two sums fold to one digit exactly when they agree modulo 11 or have remainders zero and one. */
  lemma FoldCollides(s: int, t: int)
    ensures Fold(s) == Fold(t) <==> s % 11 == t % 11 || (s % 11 < 2 && t % 11 < 2)
  {
  }

  lemma AddMultiple(a: int, k: int)
    ensures (a + 11 * k) % 11 == a % 11
  {
  }

  lemma ReduceProduct(w: int, delta: int)
    ensures (w * delta) % 11 == (w * (delta % 11)) % 11
  {
    var q := delta / 11;
    assert w * delta == w * (delta % 11) + 11 * (w * q) by {
      assert delta == 11 * q + delta % 11;
      assert w * (11 * q) == 11 * (w * q);
    }
    AddMultiple(w * (delta % 11), w * q);
  }

  lemma AddResidues(s: int, x: int)
    ensures (s + x) % 11 == (s % 11 + x % 11) % 11
  {
    var k := s / 11 + x / 11;
    assert s + x == s % 11 + x % 11 + 11 * k;
    AddMultiple(s % 11 + x % 11, k);
  }

  /** A check digit does not see its sum's remainder move: not at all, or between zero and one. */
  predicate Hides(remainder: int, move: int) {
    move == 0 || (move == 1 && remainder == 0) || (move == 10 && remainder == 1)
  }

  /** How a change of this residue moves a sum with this weight, modulo 11. */
  function Move(weight: int, residue: int): (m: int)
    ensures 0 <= m < 11
  {
    weight * residue % 11
  }

  lemma FoldHides(sum: int, weight: int, delta: int)
    ensures Fold(sum + weight * delta) == Fold(sum) <==> Hides(sum % 11, Move(weight, delta % 11))
  {
    ReduceProduct(weight, delta);
    AddResidues(sum, weight * delta);
    FoldCollides(sum + weight * delta, sum);
  }

  ghost predicate NearZero(m: int) { m in {0, 1, 10} }

  /** Two successive weights both come near zero only for weight five and residue two or nine. */
  lemma SuccessiveMoves(weight: int, residue: int)
    requires 2 <= weight <= 9 && 0 < residue < 11
    ensures var m, n := Move(weight, residue), Move(weight + 1, residue);
            && (weight == 5 && residue == 2 ==> (m, n) == (10, 1))
            && (weight == 5 && residue == 9 ==> (m, n) == (1, 10))
            && (!(weight == 5 && residue in {2, 9}) ==> !(NearZero(m) && NearZero(n)))
  {
    if residue <= 5 { SmallMoves(weight, residue); } else { LargeMoves(weight, residue); }
  }

  lemma SmallMoves(weight: int, residue: int)
    requires 2 <= weight <= 9 && 0 < residue <= 5
    ensures var m, n := Move(weight, residue), Move(weight + 1, residue);
            && (weight == 5 && residue == 2 ==> (m, n) == (10, 1))
            && (!(weight == 5 && residue == 2) ==> !(NearZero(m) && NearZero(n)))
  {
    if residue == 1 {} else if residue == 2 {} else if residue == 3 {} else if residue == 4 {} else {}
  }

  lemma LargeMoves(weight: int, residue: int)
    requires 2 <= weight <= 9 && 5 < residue < 11
    ensures var m, n := Move(weight, residue), Move(weight + 1, residue);
            && (weight == 5 && residue == 9 ==> (m, n) == (1, 10))
            && (!(weight == 5 && residue == 9) ==> !(NearZero(m) && NearZero(n)))
  {
    if residue == 6 {} else if residue == 7 {} else if residue == 8 {} else if residue == 9 {} else {}
  }

  /** The CPF check is the CNPJ one written with a multiplication by ten. */
  lemma CpfCheckIsFold(s: int)
    ensures CpfCheck(s) == Fold(s)
  {
    AddMultiple(11 - s % 11, 10 * (s / 11) + s % 11 - 1);
    assert s * 10 == 11 - s % 11 + 11 * (10 * (s / 11) + s % 11 - 1);
  }

  lemma CpfHides(sum: int, weight: int, delta: int)
    ensures CpfCheck(sum + weight * delta) == CpfCheck(sum) <==> Hides(sum % 11, Move(weight, delta % 11))
  {
    CpfCheckIsFold(sum);
    CpfCheckIsFold(sum + weight * delta);
    FoldHides(sum, weight, delta);
  }

  /** The remainders the two check digits are computed from. */
  function CpfRemainders(ds: Values): (r: (int, int))
    requires |ds| >= 9
    ensures 0 <= r.0 < 11 && 0 <= r.1 < 11
  {
    (Weighted(ds, 10, 9) % 11, (Weighted(ds, 11, 9) + CpfFirst(ds) * 2) % 11)
  }

  /** Changing base digit i by delta adds these weights to the two sums; the checks stay as they
      were only for these digit differences and remainders. */
  ghost predicate CpfErrorPasses(i: nat, delta: int, remainders: (int, int)) {
    || (i == 0 && delta == 1 && remainders.0 == 1)
    || (i == 0 && delta == -1 && remainders.0 == 0)
    || (i == 5 && delta in {2, -9} && remainders == (1, 0))
    || (i == 5 && delta in {9, -2} && remainders == (0, 1))
  }

  /** The weights ten and eleven of index 0. */
  lemma FirstMoves(delta: int, remainders: (int, int))
    requires -9 <= delta <= 9 && delta != 0
    ensures Hides(remainders.0, Move(10, delta % 11)) && Hides(remainders.1, Move(11, delta % 11))
       <==> (delta == 1 && remainders.0 == 1) || (delta == -1 && remainders.0 == 0)
  {
    assert Move(11, delta % 11) == 0;
    assert Move(10, delta % 11) == (-delta) % 11;
  }

  lemma CpfMoves(i: nat, delta: int, remainders: (int, int))
    requires i < 9 && -9 <= delta <= 9 && delta != 0
    ensures Hides(remainders.0, Move(10 - i, delta % 11)) && Hides(remainders.1, Move(11 - i, delta % 11))
       <==> CpfErrorPasses(i, delta, remainders)
  {
    if i == 0 {
      FirstMoves(delta, remainders);
    } else {
      SuccessiveMoves(10 - i, delta % 11);
    }
  }

  /** The exact single-digit errors an accepted CPF hides: index 0 by one, or index 5 by two or
      nine, and those only at the named remainders; never a check digit. */
  lemma CpfSingleErrors(xs: Values, ys: Values, i: nat)
    requires CpfAccepts(xs) && AllDigits(xs) && AllDigits(ys) && DifferOnlyAt(xs, ys, i)
    ensures CpfAccepts(ys) <==> CpfErrorPasses(i, ys[i] - xs[i], CpfRemainders(xs))
  {
    if i < 9 {
      CpfChecksStay(xs, ys, i);
    } else {
      WeightedSame(xs, ys, 10, 9);
      WeightedSame(xs, ys, 11, 9);
    }
  }

  lemma CpfChecksStay(xs: Values, ys: Values, i: nat)
    requires |xs| == 11 && AllDigits(xs) && AllDigits(ys) && DifferOnlyAt(xs, ys, i) && i < 9
    ensures CpfFirst(ys) == CpfFirst(xs) && CpfSecond(ys) == CpfSecond(xs)
       <==> CpfErrorPasses(i, ys[i] - xs[i], CpfRemainders(xs))
  {
    var delta := ys[i] - xs[i];
    WeightedChange(xs, ys, 10, 9, i);
    WeightedChange(xs, ys, 11, 9, i);
    var s, t, first := Weighted(xs, 10, 9), Weighted(xs, 11, 9), CpfFirst(xs) * 2;
    CpfHides(s, 10 - i, delta);
    CpfHides(t + first, 11 - i, delta);
    assert Weighted(ys, 11, 9) + first == t + first + (11 - i) * delta;
    CpfMoves(i, delta, CpfRemainders(xs));
  }

  /** Accepted numbers whose two remainders are one and zero, and zero and one. */
  const CPF_AT_ONE: Values := [0, 0, 0, 0, 0, 0, 0, 3, 7, 0, 0]
  const CPF_AT_ZERO: Values := [0, 0, 0, 0, 0, 0, 0, 9, 3, 0, 0]

  /** Each of the hidden differences occurs. */
  lemma CpfUndetectedExamples()
    ensures CpfAccepts(CPF_AT_ONE) && CpfAccepts(CPF_AT_ONE[0 := 1]) && CpfAccepts(CPF_AT_ONE[5 := 2])
    ensures CpfAccepts(CPF_AT_ZERO) && CpfAccepts(CPF_AT_ZERO[5 := 9])
  {
    var a, b := CPF_AT_ONE, CPF_AT_ZERO;
    WeightedTail(a, 10); WeightedTail(a, 11);
    WeightedTail(b, 10); WeightedTail(b, 11);
    CpfSingleErrors(a, a[0 := 1], 0);
    CpfSingleErrors(a, a[5 := 2], 5);
    CpfSingleErrors(b, b[5 := 9], 5);
  }

  lemma WeightedTail(ds: Values, top: int)
    requires |ds| >= 9 && forall i :: 0 <= i < 6 ==> ds[i] == 0
    ensures Weighted(ds, top, 9) == ds[6] * (top - 6) + ds[7] * (top - 7) + ds[8] * (top - 8)
  {
    WeightedZeros(ds, top, 6);
    assert Weighted(ds, top, 7) == ds[6] * (top - 6);
    assert Weighted(ds, top, 8) == Weighted(ds, top, 7) + ds[7] * (top - 7);
  }

  lemma {:induction false} WeightedZeros(ds: Values, top: int, n: nat)
    requires n <= |ds| && forall i :: 0 <= i < n ==> ds[i] == 0
    ensures Weighted(ds, top, n) == 0
  {
    if n > 0 { WeightedZeros(ds, top, n - 1); }
  }

  function Swapped(xs: Values, i: nat): Values
    requires i + 1 < |xs|
  {
    xs[i := xs[i + 1]][i + 1 := xs[i]]
  }

  lemma {:induction false} WeightedSwap(xs: Values, top: int, n: nat, i: nat)
    requires n <= |xs| && i + 1 < |xs| && n != i + 1
    ensures Weighted(Swapped(xs, i), top, n)
         == Weighted(xs, top, n) + if i + 1 < n then xs[i + 1] - xs[i] else 0
  {
    var ys := Swapped(xs, i);
    if n == i + 2 {
      WeightedSame(xs, ys, top, i);
      assert Weighted(ys, top, n) == Weighted(ys, top, i) + ys[i] * (top - i) + ys[i + 1] * (top - i - 1);
      assert Weighted(xs, top, n) == Weighted(xs, top, i) + xs[i] * (top - i) + xs[i + 1] * (top - i - 1);
      SwapTerms(xs[i], xs[i + 1], top - i);
    } else if n > 0 {
      WeightedSwap(xs, top, n - 1, i);
    }
  }

  lemma SwapTerms(a: int, b: int, w: int)
    ensures b * w + a * (w - 1) == a * w + b * (w - 1) + (b - a)
  {
  }

  /** The exact swaps of adjacent base digits an accepted CPF hides: equal digits, or a step of one
      at the named remainders. */
  lemma CpfSwapsDetected(xs: Values, i: nat)
    requires CpfAccepts(xs) && AllDigits(xs) && i + 1 < 9
    ensures var delta := xs[i + 1] - xs[i];
            CpfAccepts(Swapped(xs, i)) <==>
              delta == 0
              || (delta == 1 && CpfRemainders(xs) == (0, 0))
              || (delta == -1 && CpfRemainders(xs) == (1, 1))
  {
    var ys := Swapped(xs, i);
    WeightedSwap(xs, 10, 9, i);
    WeightedSwap(xs, 11, 9, i);
    var delta := xs[i + 1] - xs[i];
    CpfHides(Weighted(xs, 10, 9), 1, delta);
    CpfHides(Weighted(xs, 11, 9) + CpfFirst(xs) * 2, 1, delta);
    SwapMoves(delta, CpfRemainders(xs));
  }

  lemma SwapMoves(delta: int, remainders: (int, int))
    requires -9 <= delta <= 9
    ensures Hides(remainders.0, Move(1, delta % 11)) && Hides(remainders.1, Move(1, delta % 11))
       <==> delta == 0 || (delta == 1 && remainders == (0, 0)) || (delta == -1 && remainders == (1, 1))
  {
  }

  /** An accepted number whose remainders are both zero. */
  const CPF_SWAPPABLE: Values := [0, 0, 0, 0, 0, 0, 7, 8, 7, 0, 0]

  /** A hidden swap of different digits occurs. */
  lemma CpfUndetectedSwap()
    ensures CpfAccepts(CPF_SWAPPABLE) && CpfAccepts(Swapped(CPF_SWAPPABLE, 6)) && Swapped(CPF_SWAPPABLE, 6) != CPF_SWAPPABLE
  {
    var a := CPF_SWAPPABLE;
    WeightedTail(a, 10);
    WeightedTail(a, 11);
    CpfSwapsDetected(a, 6);
    assert Swapped(a, 6)[6] == 8;
  }

  // ---- CNPJ ----

  const FIRST_TABLE: seq<int> := [5, 4, 3, 2, 9, 8, 7, 6, 5, 4, 3, 2]
  const SECOND_TABLE: seq<int> := [6, 5, 4, 3, 2, 9, 8, 7, 6, 5, 4, 3, 2]

  function Product(ds: Values, table: seq<int>, n: nat): int
    requires n <= |ds| && n <= |table|
  {
    if n == 0 then 0 else Product(ds, table, n - 1) + table[n - 1] * ds[n - 1]
  }

  function ChecksumOf(ds: Values, table: seq<int>): int
    requires |table| <= |ds|
  {
    Fold(Product(ds, table, |table|))
  }

  predicate CnpjAccepts(ds: Values) {
    |ds| == 14 && ds[12] == ChecksumOf(ds, FIRST_TABLE) && ds[13] == ChecksumOf(ds, SECOND_TABLE)
  }

  method Checksum(ds: Values, table: seq<int>) returns (r: int)
    requires |table| <= |ds|
    ensures r == ChecksumOf(ds, table)
  {
    var s := 0;
    for i := 0 to |table|
      invariant s == Product(ds, table, i)
    {
      s := s + table[i] * ds[i];
    }
    r := s % 11;
    if r < 2 {
      return 0;
    }
    return 11 - r;
  }

  predicate IsCNPJ(s: Bytes) {
    CnpjAccepts(Digits(Filter(s, DIGIT)))
  }

  method MatchCNPJ(s: Bytes) returns (ok: bool)
    ensures ok == IsCNPJ(s)
  {
    var cnpj := DigitRunes(s, 0);
    DigitRunesAreDigitBytes(s, 0);
    assert s[0..] == s;
    if |cnpj| != 14 {
      return false;
    }
    var numeric := Digits(cnpj);
    var d1 := Checksum(numeric, FIRST_TABLE);
    var d2 := Checksum(numeric, SECOND_TABLE);
    return numeric[12] == d1 && numeric[13] == d2;
  }

  const SEPARATORS: set<int> := {'.' as int, '/' as int, '-' as int, '\"' as int, ']' as int, '}' as int}
  const NOT_SEPARATOR: byte -> bool := Except(SEPARATORS)

  function Upper(b: byte): byte {
    if 'a' as int <= b <= 'z' as int then b - 32 else b
  }

  predicate IsLetter(b: byte) { 'A' as int <= b <= 'Z' as int }

  function UpperAll(s: Bytes): Bytes {
    seq(|s|, i requires 0 <= i < |s| => Upper(s[i]))
  }

  predicate AlphanumericForm(cnpj: Bytes) {
    && |cnpj| == 14
    && (exists i :: 0 <= i < 14 && IsLetter(Upper(cnpj[i])))
    && (forall i :: 0 <= i < 14 ==> IsLetter(Upper(cnpj[i])) || IsDigit(Upper(cnpj[i])))
  }

  /** Fourteen bytes A-Z or 0-9, at least one a letter, with valid check digits. */
  predicate AlphanumericAccepts(cnpj: Bytes) {
    AlphanumericForm(cnpj) && CnpjAccepts(Digits(UpperAll(cnpj)))
  }

  predicate IsCNPJV2(s: Bytes) {
    AlphanumericAccepts(Filter(s, NOT_SEPARATOR))
  }

  method CleanCNPJFormat(s: Bytes) returns (cnpj: Bytes)
    ensures cnpj == Filter(s, NOT_SEPARATOR)
  {
    cnpj := WithoutRunes(s, 0, SEPARATORS);
    SeparatorsAreBytes(s, 0, SEPARATORS);
    assert s[0..] == s;
  }

  method MatchCNPJV2(s: Bytes) returns (ok: bool)
    ensures ok == IsCNPJV2(s)
  {
    var cnpj := CleanCNPJFormat(s);
    if |cnpj| != 14 {
      return false;
    }
    var upper := UpperAll(cnpj);
    var hasLetters := false;
    for i := 0 to 14
      invariant hasLetters <==> exists k :: 0 <= k < i && IsLetter(Upper(cnpj[k]))
    {
      if IsLetter(upper[i]) {
        hasLetters := true;
      }
    }
    if !hasLetters {
      return false;
    }
    for i := 0 to 14
      invariant forall k :: 0 <= k < i ==> IsLetter(Upper(cnpj[k])) || IsDigit(Upper(cnpj[k]))
    {
      if !IsLetter(upper[i]) && !IsDigit(upper[i]) {
        return false;
      }
    }
    var numeric := Digits(upper);
    var d1 := Checksum(numeric, FIRST_TABLE);
    var d2 := Checksum(numeric, SECOND_TABLE);
    return numeric[12] == d1 && numeric[13] == d2;
  }

  lemma {:induction false} ProductChange(xs: Values, ys: Values, table: seq<int>, n: nat, i: nat)
    requires n <= |table| && n <= |xs| && DifferOnlyAt(xs, ys, i)
    ensures Product(ys, table, n) == Product(xs, table, n) + if i < n then table[i] * (ys[i] - xs[i]) else 0
  {
    if n > 0 { ProductChange(xs, ys, table, n - 1, i); }
  }

  /** The remainders the two check digits are computed from. */
  function CnpjRemainders(ds: Values): (r: (int, int))
    requires |ds| >= 13
    ensures 0 <= r.0 < 11 && 0 <= r.1 < 11
  {
    (Product(ds, FIRST_TABLE, 12) % 11, Product(ds, SECOND_TABLE, 13) % 11)
  }

  /** Which changes of symbol i, by this difference modulo 11, both checks miss. */
  ghost predicate CnpjErrorPasses(i: nat, residue: int, remainders: (int, int)) {
    && i < 12
    && (|| residue == 0
        || (i in {0, 8} && residue == 2 && remainders == (1, 0))
        || (i in {0, 8} && residue == 9 && remainders == (0, 1))
        || (i == 4 && residue == 5 && remainders == (0, 1))
        || (i == 4 && residue == 6 && remainders == (1, 0)))
  }

  lemma CnpjMoves(i: nat, residue: int, remainders: (int, int))
    requires i < 12 && 0 <= residue < 11
    ensures Hides(remainders.0, Move(FIRST_TABLE[i], residue)) && Hides(remainders.1, Move(SECOND_TABLE[i], residue))
       <==> CnpjErrorPasses(i, residue, remainders)
  {
    var weight := FIRST_TABLE[i];
    if residue == 0 {
      assert weight * 0 == 0 && SECOND_TABLE[i] * 0 == 0;
    } else if i == 4 {
      BrokenMoves(residue);
    } else {
      assert SECOND_TABLE[i] == weight + 1 && 2 <= weight <= 9 && (weight == 5 <==> i in {0, 8});
      SuccessiveMoves(weight, residue);
    }
  }

  /** The weights of index 4, where the second table starts over. */
  lemma BrokenMoves(residue: int)
    requires 0 < residue < 11
    ensures var m, n := Move(9, residue), Move(2, residue);
            && (residue == 5 ==> (m, n) == (1, 10))
            && (residue == 6 ==> (m, n) == (10, 1))
            && (residue !in {5, 6} ==> !(NearZero(m) && NearZero(n)))
  {
  }

  /** The exact single-symbol errors an accepted CNPJ hides: a multiple of 11 anywhere before the
      check digits, or index 0, 4 or 8 by the named residues at the named remainders. */
  lemma CnpjSingleErrors(xs: Values, ys: Values, i: nat)
    requires CnpjAccepts(xs) && DifferOnlyAt(xs, ys, i)
    ensures CnpjAccepts(ys) <==> CnpjErrorPasses(i, (ys[i] - xs[i]) % 11, CnpjRemainders(xs))
  {
    ProductChange(xs, ys, FIRST_TABLE, 12, i);
    ProductChange(xs, ys, SECOND_TABLE, 13, i);
    if i < 12 {
      var delta, remainders := ys[i] - xs[i], CnpjRemainders(xs);
      FoldHides(Product(xs, FIRST_TABLE, 12), FIRST_TABLE[i], delta);
      FoldHides(Product(xs, SECOND_TABLE, 13), SECOND_TABLE[i], delta);
      CnpjMoves(i, delta % 11, remainders);
    }
  }

  /** The congruent case: a symbol replaced by one congruent modulo 11 always passes. */
  lemma CongruentErrorsPass(xs: Values, ys: Values, i: nat)
    requires CnpjAccepts(xs) && DifferOnlyAt(xs, ys, i) && i < 12 && (ys[i] - xs[i]) % 11 == 0
    ensures CnpjAccepts(ys)
  {
    CnpjSingleErrors(xs, ys, i);
  }

  /** For digits: index 0 or 8 by two or nine, index 4 by five or six, at the named remainders. */
  lemma CnpjNumericSingleErrors(xs: Values, ys: Values, i: nat)
    requires CnpjAccepts(xs) && AllDigits(xs) && AllDigits(ys) && DifferOnlyAt(xs, ys, i)
    ensures var delta, remainders := ys[i] - xs[i], CnpjRemainders(xs);
            CnpjAccepts(ys) <==>
              || (i in {0, 8} && delta in {2, -9} && remainders == (1, 0))
              || (i in {0, 8} && delta in {9, -2} && remainders == (0, 1))
              || (i == 4 && delta in {5, -6} && remainders == (0, 1))
              || (i == 4 && delta in {6, -5} && remainders == (1, 0))
  {
    CnpjSingleErrors(xs, ys, i);
  }

  lemma {:induction false} ProductZeros(ds: Values, table: seq<int>, n: nat)
    requires n <= |ds| && n <= |table| && forall i :: 0 <= i < n ==> ds[i] == 0
    ensures Product(ds, table, n) == 0
  {
    if n > 0 { ProductZeros(ds, table, n - 1); }
  }

  lemma ProductTail(ds: Values)
    requires |ds| == 14 && forall i :: 0 <= i < 10 ==> ds[i] == 0
    ensures Product(ds, FIRST_TABLE, 12) == 3 * ds[10] + 2 * ds[11]
    ensures Product(ds, SECOND_TABLE, 13) == 4 * ds[10] + 3 * ds[11] + 2 * ds[12]
  {
    ProductZeros(ds, FIRST_TABLE, 10);
    ProductZeros(ds, SECOND_TABLE, 10);
    assert Product(ds, FIRST_TABLE, 11) == 3 * ds[10];
    assert Product(ds, SECOND_TABLE, 11) == 4 * ds[10];
    assert Product(ds, SECOND_TABLE, 12) == 4 * ds[10] + 3 * ds[11];
  }

  /** Accepted numbers whose two remainders are one and zero, and zero and one. */
  const CNPJ_AT_ONE: Values := [0, 0, 0, 0, 0, 0, 0, 0, 0, 0, 3, 7, 0, 0]
  const CNPJ_AT_ZERO: Values := [0, 0, 0, 0, 0, 0, 0, 0, 0, 0, 9, 3, 0, 0]

  lemma TailAccepted(ds: Values, remainders: (int, int))
    requires |ds| == 14 && (forall i :: 0 <= i < 10 ==> ds[i] == 0) && ds[12] == 0 && ds[13] == 0
    requires remainders in {(1, 0), (0, 1)}
    requires (3 * ds[10] + 2 * ds[11]) % 11 == remainders.0 && (4 * ds[10] + 3 * ds[11]) % 11 == remainders.1
    ensures CnpjAccepts(ds) && CnpjRemainders(ds) == remainders
  {
    ProductTail(ds);
  }

  lemma HiddenError(ds: Values, i: nat, digit: int)
    requires CnpjAccepts(ds) && i < 12 && digit != ds[i]
    requires CnpjErrorPasses(i, (digit - ds[i]) % 11, CnpjRemainders(ds))
    ensures CnpjAccepts(ds[i := digit])
  {
    CnpjSingleErrors(ds, ds[i := digit], i);
  }

  /** Each of the hidden differences occurs at each of its positions. */
  lemma CnpjUndetectedExamples()
    ensures var a := CNPJ_AT_ONE; CnpjAccepts(a) && CnpjAccepts(a[0 := 2]) && CnpjAccepts(a[8 := 2]) && CnpjAccepts(a[4 := 6])
    ensures var b := CNPJ_AT_ZERO; CnpjAccepts(b) && CnpjAccepts(b[0 := 9]) && CnpjAccepts(b[8 := 9]) && CnpjAccepts(b[4 := 5])
  {
    TailAccepted(CNPJ_AT_ONE, (1, 0));
    HiddenError(CNPJ_AT_ONE, 0, 2);
    HiddenError(CNPJ_AT_ONE, 8, 2);
    HiddenError(CNPJ_AT_ONE, 4, 6);
    TailAccepted(CNPJ_AT_ZERO, (0, 1));
    HiddenError(CNPJ_AT_ZERO, 0, 9);
    HiddenError(CNPJ_AT_ZERO, 8, 9);
    HiddenError(CNPJ_AT_ZERO, 4, 5);
  }

  /** The exact single-symbol errors an accepted alphanumeric form hides, among replacements that
      still are of that form. */
  lemma AlphanumericSingleErrors(a: Bytes, b: Bytes, i: nat)
    requires AlphanumericAccepts(a) && AlphanumericForm(b)
    requires i < 14 && Upper(a[i]) != Upper(b[i]) && forall j :: 0 <= j < 14 && j != i ==> Upper(a[j]) == Upper(b[j])
    ensures AlphanumericAccepts(b) <==>
              CnpjErrorPasses(i, (Upper(b[i]) - Upper(a[i])) % 11, CnpjRemainders(Digits(UpperAll(a))))
  {
    CnpjSingleErrors(Digits(UpperAll(a)), Digits(UpperAll(b)), i);
  }

  /** Accepted alphanumeric forms end in two decimal digits. */
  lemma AlphanumericEndsInDigits(cnpj: Bytes)
    requires AlphanumericAccepts(cnpj)
    ensures IsDigit(cnpj[12]) && IsDigit(cnpj[13])
  {
    var values := Digits(UpperAll(cnpj));
    assert 0 <= values[12] <= 9 && 0 <= values[13] <= 9;
  }

  /** Upper-case letters have values 17 to 42. */
  lemma LetterValues(cnpj: Bytes, i: nat)
    requires i < |cnpj| && IsLetter(Upper(cnpj[i]))
    ensures 17 <= Digits(UpperAll(cnpj))[i] <= 42
  {
  }

  lemma {:induction false} FewerDigits(s: Bytes)
    ensures |Filter(s, DIGIT)| <= |Filter(Filter(s, NOT_SEPARATOR), DIGIT)|
  {
    if s != [] {
      FewerDigits(s[1..]);
      var rest := Filter(s[1..], NOT_SEPARATOR);
      if NOT_SEPARATOR(s[0]) {
        assert ([s[0]] + rest)[1..] == rest;
      }
    }
  }

  lemma {:induction false} MissesOne(s: Bytes, i: nat)
    requires i < |s| && !IsDigit(s[i])
    ensures |Filter(s, DIGIT)| < |s|
  {
    if i > 0 { MissesOne(s[1..], i - 1); }
  }

  /** The numeric and the alphanumeric matcher never accept the same input. */
  lemma CnpjFormsAreDisjoint(s: Bytes)
    ensures !(IsCNPJ(s) && IsCNPJV2(s))
  {
    if IsCNPJ(s) && IsCNPJV2(s) {
      var cnpj := Filter(s, NOT_SEPARATOR);
      var i :| 0 <= i < 14 && IsLetter(Upper(cnpj[i]));
      MissesOne(cnpj, i);
      FewerDigits(s);
    }
  }
}
