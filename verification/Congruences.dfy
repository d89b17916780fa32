/** What an accepted number satisfies, without sums in loops or folded remainders: congruences
    modulo 11 with the weights written out. */
module Congruences {
  import opened Prelude
  import opened RuneFilter
  import opened CheckDigits

  /** The check digit makes the sum divisible by 11, or it is zero at remainder one. */
  predicate Checks(sum: int, digit: int) {
    0 <= digit <= 9 && ((sum + digit) % 11 == 0 || (sum % 11 == 1 && digit == 0))
  }

  lemma FoldChecks(sum: int, digit: int)
    ensures digit == Fold(sum) <==> Checks(sum, digit)
  {
  }

  // ---- CPF ----

  function CpfFirstSum(d: Values): int
    requires |d| >= 9
  {
    10 * d[0] + 9 * d[1] + 8 * d[2] + 7 * d[3] + 6 * d[4] + 5 * d[5] + 4 * d[6] + 3 * d[7] + 2 * d[8]
  }

  function CpfSecondSum(d: Values): int
    requires |d| >= 10
  {
    11 * d[0] + 10 * d[1] + 9 * d[2] + 8 * d[3] + 7 * d[4] + 6 * d[5] + 5 * d[6] + 4 * d[7] + 3 * d[8] + 2 * d[9]
  }

  lemma WeightedWritten(d: Values, top: int)
    requires |d| >= 9
    ensures Weighted(d, top, 9) == top * d[0] + (top - 1) * d[1] + (top - 2) * d[2] + (top - 3) * d[3] + (top - 4) * d[4]
                                   + (top - 5) * d[5] + (top - 6) * d[6] + (top - 7) * d[7] + (top - 8) * d[8]
  {
    assert Weighted(d, top, 3) == top * d[0] + (top - 1) * d[1] + (top - 2) * d[2] by {
      assert Weighted(d, top, 1) == top * d[0];
      assert Weighted(d, top, 2) == Weighted(d, top, 1) + (top - 1) * d[1];
    }
    assert Weighted(d, top, 6) == Weighted(d, top, 3) + (top - 3) * d[3] + (top - 4) * d[4] + (top - 5) * d[5] by {
      assert Weighted(d, top, 4) == Weighted(d, top, 3) + (top - 3) * d[3];
      assert Weighted(d, top, 5) == Weighted(d, top, 4) + (top - 4) * d[4];
    }
    assert Weighted(d, top, 7) == Weighted(d, top, 6) + (top - 6) * d[6];
    assert Weighted(d, top, 8) == Weighted(d, top, 7) + (top - 7) * d[7];
  }

  /** A CPF is accepted exactly when both its check digits check. */
  lemma CpfCongruences(d: Values)
    requires |d| == 11
    ensures CpfAccepts(d) <==> Checks(CpfFirstSum(d), d[9]) && Checks(CpfSecondSum(d), d[10])
  {
    WeightedWritten(d, 10);
    WeightedWritten(d, 11);
    CpfCheckIsFold(Weighted(d, 10, 9));
    CpfCheckIsFold(Weighted(d, 11, 9) + CpfFirst(d) * 2);
    FoldChecks(CpfFirstSum(d), d[9]);
    if CpfFirst(d) == d[9] { FoldChecks(CpfSecondSum(d), d[10]); }
  }

  /** Every nine digits have exactly one accepted completion. */
  lemma OneCpfCompletion(base: Values) returns (a: int, b: int)
    requires |base| == 9
    ensures 0 <= a <= 9 && 0 <= b <= 9 && CpfAccepts(base + [a, b])
    ensures forall x, y :: CpfAccepts(base + [x, y]) ==> x == a && y == b
  {
    a, b := CpfFirst(base), CpfSecond(base);
    CpfCompletion(base, a, b);
    forall x, y | CpfAccepts(base + [x, y]) ensures x == a && y == b { CpfCompletion(base, x, y); }
  }

  const SAMPLE_CPF: Values := [1, 1, 1, 4, 4, 4, 7, 7, 7, 3, 5]

  // ---- CNPJ ----

  function CnpjFirstSum(d: Values): int
    requires |d| >= 12
  {
    5 * d[0] + 4 * d[1] + 3 * d[2] + 2 * d[3] + 9 * d[4] + 8 * d[5] + 7 * d[6] + 6 * d[7] + 5 * d[8] + 4 * d[9] + 3 * d[10] + 2 * d[11]
  }

  function CnpjSecondSum(d: Values): int
    requires |d| >= 13
  {
    6 * d[0] + 5 * d[1] + 4 * d[2] + 3 * d[3] + 2 * d[4] + 9 * d[5] + 8 * d[6] + 7 * d[7] + 6 * d[8] + 5 * d[9] + 4 * d[10] + 3 * d[11]
    + 2 * d[12]
  }

  /** Four more terms, with their weights as written. */
  lemma FourTerms(d: Values, table: seq<int>, n: nat, w0: int, w1: int, w2: int, w3: int)
    requires n + 4 <= |d| && n + 4 <= |table|
    requires table[n] == w0 && table[n + 1] == w1 && table[n + 2] == w2 && table[n + 3] == w3
    ensures Product(d, table, n + 4) == Product(d, table, n) + w0 * d[n] + w1 * d[n + 1] + w2 * d[n + 2] + w3 * d[n + 3]
  {
    assert Product(d, table, n + 2) == Product(d, table, n) + w0 * d[n] + w1 * d[n + 1] by {
      assert Product(d, table, n + 1) == Product(d, table, n) + w0 * d[n];
    }
    assert Product(d, table, n + 3) == Product(d, table, n + 2) + w2 * d[n + 2];
  }

  lemma FirstWritten(d: Values)
    requires |d| >= 12
    ensures Product(d, FIRST_TABLE, 12) == CnpjFirstSum(d)
  {
    FourTerms(d, FIRST_TABLE, 0, 5, 4, 3, 2);
    FourTerms(d, FIRST_TABLE, 4, 9, 8, 7, 6);
    FourTerms(d, FIRST_TABLE, 8, 5, 4, 3, 2);
  }

  lemma SecondWritten(d: Values)
    requires |d| >= 13
    ensures Product(d, SECOND_TABLE, 13) == CnpjSecondSum(d)
  {
    FourTerms(d, SECOND_TABLE, 0, 6, 5, 4, 3);
    FourTerms(d, SECOND_TABLE, 4, 2, 9, 8, 7);
    FourTerms(d, SECOND_TABLE, 8, 6, 5, 4, 3);
  }

  /** A CNPJ, numeric or alphanumeric, is accepted exactly when both its check symbols check. */
  lemma CnpjCongruences(d: Values)
    requires |d| == 14
    ensures CnpjAccepts(d) <==> Checks(CnpjFirstSum(d), d[12]) && Checks(CnpjSecondSum(d), d[13])
  {
    FirstWritten(d);
    SecondWritten(d);
    FoldChecks(CnpjFirstSum(d), d[12]);
    FoldChecks(CnpjSecondSum(d), d[13]);
  }

  lemma SumsOfBase(base: Values, x: int, y: int)
    requires |base| == 12
    ensures CnpjFirstSum(base + [x, y]) == CnpjFirstSum(base)
    ensures CnpjSecondSum(base + [x, y]) == CnpjSecondSum(base + [x])
  {
    var d := base + [x, y];
    assert d[..12] == base && d[12] == x;
    assert forall i :: 0 <= i < 12 ==> d[i] == base[i] && (base + [x])[i] == base[i];
  }

  /** Every twelve symbols have exactly one accepted completion. */
  lemma OneCnpjCompletion(base: Values) returns (a: int, b: int)
    requires |base| == 12
    ensures 0 <= a <= 9 && 0 <= b <= 9 && CnpjAccepts(base + [a, b])
    ensures forall x, y :: CnpjAccepts(base + [x, y]) ==> x == a && y == b
  {
    a := Fold(CnpjFirstSum(base));
    b := Fold(CnpjSecondSum(base + [a]));
    forall x, y ensures CnpjAccepts(base + [x, y]) <==> x == a && y == b { Completion(base, x, y); }
  }

  lemma Completion(base: Values, x: int, y: int)
    requires |base| == 12
    ensures CnpjAccepts(base + [x, y]) <==> x == Fold(CnpjFirstSum(base)) && y == Fold(CnpjSecondSum(base + [x]))
  {
    CnpjCongruences(base + [x, y]);
    SumsOfBase(base, x, y);
    FoldChecks(CnpjFirstSum(base), x);
    FoldChecks(CnpjSecondSum(base + [x]), y);
  }

  const SAMPLE_CNPJ: Values := [1, 1, 4, 4, 4, 7, 7, 7, 0, 0, 0, 1, 6, 1]

  /** Accepted numbers whose check digits are neither zero nor equal. */
  lemma SamplesAccepted()
    ensures CpfAccepts(SAMPLE_CPF) && CnpjAccepts(SAMPLE_CNPJ)
  {
    CpfCongruences(SAMPLE_CPF);
    CnpjCongruences(SAMPLE_CNPJ);
  }

  // ---- from the input's bytes ----

  /** A digit counts for itself, a letter of either case for 17 to 42. */
  function Symbol(b: byte): int {
    if '0' as int <= b <= '9' as int then b - '0' as int
    else if 'A' as int <= b <= 'Z' as int then 17 + (b - 'A' as int)
    else if 'a' as int <= b <= 'z' as int then 17 + (b - 'a' as int)
    else -1
  }

  function Symbols(s: Bytes): Values { seq(|s|, i requires 0 <= i < |s| => Symbol(s[i])) }

  const DECIMAL: byte -> bool := b => '0' as int <= b <= '9' as int

  /** The digit bytes of s, in order. */
  function OnlyDigits(s: Bytes): Bytes { Filter(s, DECIMAL) }

  const UNFORMATTED: byte -> bool := b => b !in {'.' as int, '/' as int, '-' as int, '\"' as int, ']' as int, '}' as int}

  /** s without dots, slashes, hyphens, double quotes, closing brackets and closing braces. */
  function Unformatted(s: Bytes): Bytes { Filter(s, UNFORMATTED) }

  lemma {:induction false} SameFilter(s: Bytes, a: byte -> bool, b: byte -> bool)
    requires forall x :: a(x) == b(x)
    ensures Filter(s, a) == Filter(s, b)
  {
    if s != [] { SameFilter(s[1..], a, b); }
  }

  lemma DigitSymbols(s: Bytes)
    requires forall i :: 0 <= i < |s| ==> IsDigit(s[i])
    ensures Digits(s) == Symbols(s)
  {
  }

  lemma UpperSymbols(s: Bytes)
    requires forall i :: 0 <= i < |s| ==> IsLetter(Upper(s[i])) || IsDigit(Upper(s[i]))
    ensures Digits(UpperAll(s)) == Symbols(s)
  {
  }

  /** The CPF matcher's verdict from the input's bytes. */
  lemma CpfExactly(s: Bytes)
    ensures IsCPF(s) <==> |OnlyDigits(s)| == 11 && var d := Symbols(OnlyDigits(s));
                          Checks(CpfFirstSum(d), d[9]) && Checks(CpfSecondSum(d), d[10])
  {
    SameFilter(s, DIGIT, DECIMAL);
    DigitSymbols(OnlyDigits(s));
    if |OnlyDigits(s)| == 11 { CpfCongruences(Symbols(OnlyDigits(s))); }
  }

  lemma CnpjExactly(s: Bytes)
    ensures IsCNPJ(s) <==> |OnlyDigits(s)| == 14 && var d := Symbols(OnlyDigits(s));
                           Checks(CnpjFirstSum(d), d[12]) && Checks(CnpjSecondSum(d), d[13])
  {
    SameFilter(s, DIGIT, DECIMAL);
    DigitSymbols(OnlyDigits(s));
    if |OnlyDigits(s)| == 14 { CnpjCongruences(Symbols(OnlyDigits(s))); }
  }

  predicate IsAlphanumeric(b: byte) { Symbol(b) != -1 }

  /** The alphanumeric matcher's verdict from the input's bytes: fourteen letters or digits, a letter
      among them, and both check symbols check. */
  lemma AlphanumericExactly(s: Bytes)
    ensures IsCNPJV2(s) <==>
              var c := Unformatted(s);
              && |c| == 14 && (forall i :: 0 <= i < 14 ==> IsAlphanumeric(c[i])) && (exists i :: 0 <= i < 14 && Symbol(c[i]) >= 17)
              && var d := Symbols(c); Checks(CnpjFirstSum(d), d[12]) && Checks(CnpjSecondSum(d), d[13])
  {
    SameFilter(s, NOT_SEPARATOR, UNFORMATTED);
    var c := Unformatted(s);
    if |c| == 14 {
      SameForm(c);
      if AlphanumericForm(c) {
        UpperSymbols(c);
        CnpjCongruences(Symbols(c));
      }
    }
  }

  lemma SameForm(c: Bytes)
    requires |c| == 14
    ensures AlphanumericForm(c) <==>
              (forall i :: 0 <= i < 14 ==> IsAlphanumeric(c[i])) && (exists i :: 0 <= i < 14 && Symbol(c[i]) >= 17)
  {
    assert forall i :: 0 <= i < 14 ==>
      (IsLetter(Upper(c[i])) <==> Symbol(c[i]) >= 17) && (IsDigit(Upper(c[i])) <==> 0 <= Symbol(c[i]) <= 9);
  }
}
