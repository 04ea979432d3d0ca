/** How the search handler orders two stop-time rows of one trip. The `stop_sequence`
    field arrives from the CSV parser as a string and is stored as one, so the handler's
    `origin.stop_sequence < destination.stop_sequence` is JavaScript's string comparison:
    lexicographic over characters, a proper prefix being smaller. */
module StopSequence {

  /** JavaScript's `a < b` on two strings. */
  predicate StrLess(a: string, b: string)
  {
    if a == [] then b != []
    else if b == [] then false
    else if a[0] != b[0] then a[0] < b[0]
    else StrLess(a[1..], b[1..])
  }

  /** The comparison is strict: no string precedes itself, and two strings never precede
      each other, so a pair of rows cannot be ordered both ways. */
  lemma {:induction false} StrLessAsymmetric(a: string, b: string)
    ensures !(StrLess(a, b) && StrLess(b, a))
  {
    if a != [] && b != [] && a[0] == b[0] {
      StrLessAsymmetric(a[1..], b[1..]);
    }
  }

  lemma {:induction false} StrLessTransitive(a: string, b: string, c: string)
    requires StrLess(a, b) && StrLess(b, c)
    ensures StrLess(a, c)
  {
    if a != [] && b != [] && c != [] && a[0] == b[0] && b[0] == c[0] {
      StrLessTransitive(a[1..], b[1..], c[1..]);
    }
  }

  /** A string of decimal digits, as `stop_sequence` values are in a feed. */
  predicate IsDigits(s: string)
  {
    forall i :: 0 <= i < |s| ==> '0' <= s[i] <= '9'
  }

  function Pow10(n: nat): (p: nat)
    ensures p > 0
  {
    if n == 0 then 1 else 10 * Pow10(n - 1)
  }

  /** The number a digit string denotes, read from its most significant digit. */
  function DecimalValue(s: string): nat
    requires IsDigits(s)
  {
    if s == [] then 0
    else (s[0] as int - '0' as int) * Pow10(|s| - 1) + DecimalValue(s[1..])
  }

  lemma {:induction false} DecimalValueBound(s: string)
    requires IsDigits(s)
    ensures DecimalValue(s) < Pow10(|s|)
  {
    if s != [] {
      DecimalValueBound(s[1..]);
      var d := s[0] as int - '0' as int;
      var p := Pow10(|s| - 1);
      assert d * p + p <= 10 * p by {
        assert (9 - d) * p >= 0;
      }
    }
  }

  lemma LeadingDigitDominates(da: int, db: int, p: nat, ra: nat, rb: nat)
    requires 0 <= da < db && ra < p
    ensures da * p + ra < db * p + rb
  {
    var k := db - da - 1;
    assert db * p == da * p + p + k * p;
    assert k * p >= 0;
  }

  /** Between digit strings of equal length, string order and numeric order agree. */
  lemma {:induction false} EqualLengthOrderIsNumeric(a: string, b: string)
    requires IsDigits(a) && IsDigits(b) && |a| == |b|
    ensures StrLess(a, b) <==> DecimalValue(a) < DecimalValue(b)
  {
    if a != [] {
      var da, db := a[0] as int - '0' as int, b[0] as int - '0' as int;
      var p := Pow10(|a| - 1);
      DecimalValueBound(a[1..]);
      DecimalValueBound(b[1..]);
      if da < db {
        LeadingDigitDominates(da, db, p, DecimalValue(a[1..]), DecimalValue(b[1..]));
      } else if db < da {
        LeadingDigitDominates(db, da, p, DecimalValue(b[1..]), DecimalValue(a[1..]));
      } else {
        EqualLengthOrderIsNumeric(a[1..], b[1..]);
      }
    }
  }

  lemma {:induction false} Pow10Monotone(m: nat, n: nat)
    requires m <= n
    ensures Pow10(m) <= Pow10(n)
    decreases n
  {
    if m < n {
      Pow10Monotone(m, n - 1);
    }
  }

  /** Two digit strings of equal length that denote the same number are the same string. */
  lemma {:induction false} EqualLengthDigitsInjective(a: string, b: string)
    requires IsDigits(a) && IsDigits(b) && |a| == |b|
    requires DecimalValue(a) == DecimalValue(b)
    ensures a == b
  {
    if a != [] {
      var da, db := a[0] as int - '0' as int, b[0] as int - '0' as int;
      var p := Pow10(|a| - 1);
      DecimalValueBound(a[1..]);
      DecimalValueBound(b[1..]);
      if da < db {
        LeadingDigitDominates(da, db, p, DecimalValue(a[1..]), DecimalValue(b[1..]));
      } else if db < da {
        LeadingDigitDominates(db, da, p, DecimalValue(b[1..]), DecimalValue(a[1..]));
      } else {
        EqualLengthDigitsInjective(a[1..], b[1..]);
        assert a == [a[0]] + a[1..] && b == [b[0]] + b[1..];
      }
    }
  }

  /** A digit string without a leading zero (other than "0" itself). */
  predicate IsCanonicalDecimal(s: string)
  {
    0 < |s| && IsDigits(s) && (s[0] == '0' ==> |s| == 1)
  }

  /** A canonical decimal of `n` digits denotes at least 10^(n-1) when `n` exceeds one. */
  lemma CanonicalDecimalLowerBound(s: string)
    requires IsCanonicalDecimal(s) && 1 < |s|
    ensures Pow10(|s| - 1) <= DecimalValue(s)
  {
    var d := s[0] as int - '0' as int;
    var p := Pow10(|s| - 1);
    assert (d - 1) * p >= 0;
  }

  /** Each number has a single canonical decimal form. */
  lemma CanonicalDecimalInjective(a: string, b: string)
    requires IsCanonicalDecimal(a) && IsCanonicalDecimal(b)
    requires DecimalValue(a) == DecimalValue(b)
    ensures a == b
  {
    if |a| == |b| {
      EqualLengthDigitsInjective(a, b);
    } else if |a| < |b| {
      CanonicalDecimalLowerBound(b);
      Pow10Monotone(|a|, |b| - 1);
      DecimalValueBound(a);
    } else {
      CanonicalDecimalLowerBound(a);
      Pow10Monotone(|b|, |a| - 1);
      DecimalValueBound(b);
    }
  }

  /** Between digit strings of different lengths they can disagree: "10" sorts before "9". */
  lemma StringOrderIsNotNumeric()
    ensures StrLess("10", "9") && DecimalValue("10") > DecimalValue("9")
  {
    assert "10"[0] == '1' && "9"[0] == '9';
    assert DecimalValue("10") == 10 by {
      assert "10"[1..] == "0";
      assert "0"[1..] == "";
    }
    assert "9"[1..] == "";
  }
}
