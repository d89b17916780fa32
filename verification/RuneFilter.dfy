/** Dropping runes from a byte string and what that does byte by byte. */
module RuneFilter {
  import opened Prelude
  import opened Utf8

  predicate IsDigit(b: int) { '0' as int <= b <= '9' as int }

  /** Keeping the decimal-digit runes: every other rune, well-formed or not, is dropped. */
  function DigitRunes(s: Bytes, i: nat): Bytes
    requires i <= |s|
    decreases |s| - i
  {
    if i == |s| then []
    else if IsDigit(RuneAt(s, i)) then [RuneAt(s, i)] + DigitRunes(s, Next(s, i))
    else DigitRunes(s, Next(s, i))
  }

  /** Splitting at separator runes and joining the fields: the separators go, every other rune's bytes stay. */
  function WithoutRunes(s: Bytes, i: nat, separators: set<int>): Bytes
    requires i <= |s|
    decreases |s| - i
  {
    if i == |s| then []
    else if RuneAt(s, i) in separators then WithoutRunes(s, Next(s, i), separators)
    else s[i..Next(s, i)] + WithoutRunes(s, Next(s, i), separators)
  }

  function Filter(s: Bytes, keep: byte -> bool): (r: Bytes)
    ensures |r| <= |s|
    ensures forall k :: 0 <= k < |r| ==> keep(r[k])
  {
    if s == [] then [] else if keep(s[0]) then [s[0]] + Filter(s[1..], keep) else Filter(s[1..], keep)
  }

  lemma {:induction false} FilterAppend(a: Bytes, b: Bytes, keep: byte -> bool)
    ensures Filter(a + b, keep) == Filter(a, keep) + Filter(b, keep)
  {
    if a == [] {
      assert a + b == b;
    } else {
      assert (a + b)[0] == a[0] && (a + b)[1..] == a[1..] + b;
      FilterAppend(a[1..], b, keep);
    }
  }

  lemma {:induction false} FilterNothing(a: Bytes, keep: byte -> bool)
    requires forall k :: 0 <= k < |a| ==> !keep(a[k])
    ensures Filter(a, keep) == []
  {
    if a != [] {
      assert !keep(a[0]);
      FilterNothing(a[1..], keep);
    }
  }

  lemma {:induction false} FilterEverything(a: Bytes, keep: byte -> bool)
    requires forall k :: 0 <= k < |a| ==> keep(a[k])
    ensures Filter(a, keep) == a
  {
    if a != [] {
      assert keep(a[0]);
      FilterEverything(a[1..], keep);
    }
  }

  /** Inserting bytes that are all dropped changes nothing. */
  lemma FilterInsert(a: Bytes, x: Bytes, b: Bytes, keep: byte -> bool)
    requires forall k :: 0 <= k < |x| ==> !keep(x[k])
    ensures Filter(a + x + b, keep) == Filter(a + b, keep)
  {
    FilterAppend(a + x, b, keep);
    FilterAppend(a, x, keep);
    FilterAppend(a, b, keep);
    FilterNothing(x, keep);
  }

  const DIGIT: byte -> bool := b => IsDigit(b)

  /** No byte of a multi-byte rune is a digit, so filtering runes is filtering bytes. */
  lemma {:induction false} DigitRunesAreDigitBytes(s: Bytes, i: nat)
    requires i <= |s|
    ensures DigitRunes(s, i) == Filter(s[i..], DIGIT)
    decreases |s| - i
  {
    if i < |s| {
      var n := Next(s, i);
      DigitRunesAreDigitBytes(s, n);
      assert s[i..] == s[i..n] + s[n..];
      FilterAppend(s[i..n], s[n..], DIGIT);
      if IsDigit(RuneAt(s, i)) {
        assert s[i..n] == [s[i]];
        FilterEverything(s[i..n], DIGIT);
      } else {
        FilterNothing(s[i..n], DIGIT);
      }
    }
  }

  function Except(separators: set<int>): byte -> bool {
    b => b !in separators
  }

  /** The same for ASCII separators. */
  lemma {:induction false} SeparatorsAreBytes(s: Bytes, i: nat, separators: set<int>)
    requires i <= |s| && forall c :: c in separators ==> 0 <= c < 0x80
    ensures WithoutRunes(s, i, separators) == Filter(s[i..], Except(separators))
    decreases |s| - i
  {
    if i < |s| {
      var n := Next(s, i);
      var keep := Except(separators);
      SeparatorsAreBytes(s, n, separators);
      assert s[i..] == s[i..n] + s[n..];
      FilterAppend(s[i..n], s[n..], keep);
      if RuneAt(s, i) in separators {
        FilterNothing(s[i..n], keep);
      } else {
        FilterEverything(s[i..n], keep);
      }
    }
  }
}
