/**
 * Publication dates are `YYYY-MM-DD` strings. The dashboard orders them by
 * `new Date(d).getTime()`; for valid calendar dates that order is the order
 * of the integer YYYYMMDD, which is what `DateKey` computes.
 */
module Dates {

  predicate IsDigit(c: char)
  {
    '0' <= c <= '9'
  }

  predicate AllDigits(s: string)
  {
    forall i :: 0 <= i < |s| ==> IsDigit(s[i])
  }

  function Pow10(n: nat): nat
  {
    if n == 0 then 1 else 10 * Pow10(n - 1)
  }

  /** The number a string of decimal digits denotes, most significant digit first. */
  function DigitsValue(s: string): (v: nat)
    requires AllDigits(s)
    ensures v < Pow10(|s|)
  {
    if |s| == 0 then 0
    else
      var d := s[0] as int - '0' as int;
      var rest := DigitsValue(s[1..]);
      LeadingDigitBound(d, rest, Pow10(|s| - 1));
      d * Pow10(|s| - 1) + rest
  }

  lemma LeadingDigitBound(d: int, rest: int, p: int)
    requires 0 <= d <= 9 && 0 <= rest < p
    ensures 0 <= d * p + rest < 10 * p
  {
    assert d * p <= 9 * p;
  }

  /** A number with a smaller leading digit is smaller, whatever follows. */
  lemma LeadingDigitDecides(d1: int, d2: int, r1: int, r2: int, p: int)
    requires d1 < d2 && 0 <= r1 < p && 0 <= r2
    ensures d1 * p + r1 < d2 * p + r2
  {
    var k := d2 - d1;
    assert d2 * p == d1 * p + k * p;
    assert k * p == (k - 1) * p + p;
    assert (k - 1) * p >= 0;
  }

  /**
   * Code-point lexicographic order: the first differing character decides and
   * a proper prefix is smaller. It agrees with JavaScript's `<` on strings
   * without astral characters, such as dates.
   */
  predicate LexLess(a: string, b: string)
  {
    if |a| == 0 then |b| > 0
    else if |b| == 0 then false
    else if a[0] != b[0] then a[0] < b[0]
    else LexLess(a[1..], b[1..])
  }

  /** Strings that agree before position `n` and differ there compare as the characters at `n` do. */
  lemma {:induction false} LexLessAt(a: string, b: string, n: nat)
    requires n < |a| && n < |b| && a[..n] == b[..n] && a[n] < b[n]
    ensures LexLess(a, b)
    decreases n
  {
    if n > 0 {
      assert a[0] == a[..n][0] == b[..n][0] == b[0];
      assert a[1..][..n - 1] == a[..n][1..] == b[..n][1..] == b[1..][..n - 1];
      LexLessAt(a[1..], b[1..], n - 1);
    }
  }

  predicate WellFormedDate(d: string)
  {
    && |d| == 10
    && d[4] == '-' && d[7] == '-'
    && AllDigits(d[..4]) && AllDigits(d[5..7]) && AllDigits(d[8..])
  }

  /** The eight digits of a date, year, month and day run together. */
  function DateDigits(d: string): (r: string)
    requires WellFormedDate(d)
    ensures |r| == 8 && AllDigits(r)
  {
    var r := d[..4] + d[5..7] + d[8..];
    assert forall i :: 0 <= i < 8 ==> r[i] == (if i < 4 then d[..4][i] else if i < 6 then d[5..7][i - 4] else d[8..][i - 6]);
    r
  }

  /**
   * The sort key of a date: YYYYMMDD for a string of the exact
   * `YYYY-MM-DD` shape. Every other string is given key 0 here, although
   * JavaScript parses some of them to real times and others to Invalid Date.
   */
  function DateKey(d: string): nat
  {
    if WellFormedDate(d) then DigitsValue(DateDigits(d)) else 0
  }

  /**
   * The key read field by field: year times 10000, plus month times 100,
   * plus day, for a well-formed date; 0 for any other string.
   */
  lemma DateKeyByFields(d: string)
    ensures WellFormedDate(d) ==>
      DateKey(d) == DigitsValue(d[..4]) * 10000 + DigitsValue(d[5..7]) * 100 + DigitsValue(d[8..])
    ensures !WellFormedDate(d) ==> DateKey(d) == 0
  {
    if WellFormedDate(d) {
      DateKeyFields(d);
    }
  }

  /** 10^(m + n) is 10^m times 10^n. */
  lemma {:induction false} Pow10Add(m: nat, n: nat)
    ensures Pow10(m + n) == Pow10(m) * Pow10(n)
    decreases m
  {
    if m > 0 {
      Pow10Add(m - 1, n);
      assert Pow10(m + n) == 10 * Pow10(m - 1 + n);
      assert 10 * (Pow10(m - 1) * Pow10(n)) == (10 * Pow10(m - 1)) * Pow10(n);
    }
  }

  lemma AllDigitsAppend(a: string, b: string)
    requires AllDigits(a) && AllDigits(b)
    ensures AllDigits(a + b)
  {
    forall i | 0 <= i < |a + b|
      ensures IsDigit((a + b)[i])
    {
      if i < |a| {
        assert (a + b)[i] == a[i];
      } else {
        assert (a + b)[i] == b[i - |a|];
      }
    }
  }

  lemma ShiftDistributes(d: int, p: int, q: int, r: int, v: int)
    ensures (d * p + r) * q + v == d * (p * q) + (r * q + v)
  {
    assert (d * p + r) * q == (d * p) * q + r * q;
    assert (d * p) * q == d * (p * q);
  }

  /** The digits of `a` followed by those of `b`: `a` shifted left by the width of `b`, plus `b`. */
  lemma {:induction false} DigitsValueAppend(a: string, b: string)
    requires AllDigits(a) && AllDigits(b)
    ensures AllDigits(a + b)
    ensures DigitsValue(a + b) == DigitsValue(a) * Pow10(|b|) + DigitsValue(b)
    decreases |a|
  {
    AllDigitsAppend(a, b);
    if |a| == 0 {
      assert a + b == b;
    } else {
      var rest := a[1..];
      assert (a + b)[0] == a[0] && (a + b)[1..] == rest + b;
      DigitsValueAppend(rest, b);
      Pow10Add(|a| - 1, |b|);
      var d := a[0] as int - '0' as int;
      var p, q := Pow10(|a| - 1), Pow10(|b|);
      assert DigitsValue(a + b) == d * (p * q) + (DigitsValue(rest) * q + DigitsValue(b));
      assert DigitsValue(a) == d * p + DigitsValue(rest);
      ShiftDistributes(d, p, q, DigitsValue(rest), DigitsValue(b));
    }
  }

  /** The key of a well-formed date is year * 10000 + month * 100 + day. */
  lemma DateKeyFields(d: string)
    requires WellFormedDate(d)
    ensures DigitsValue(DateDigits(d)) == DigitsValue(d[..4]) * 10000 + DigitsValue(d[5..7]) * 100 + DigitsValue(d[8..])
  {
    var y, m, e := d[..4], d[5..7], d[8..];
    assert DateDigits(d) == (y + m) + e;
    DigitsValueAppend(y, m);
    DigitsValueAppend(y + m, e);
    assert Pow10(2) == 100;
    assert |m| == 2 && |e| == 2;
  }

  /** On digit strings of one length, numeric order is string order. */
  lemma {:induction false} DigitsOrderIsLexicographic(a: string, b: string)
    requires AllDigits(a) && AllDigits(b) && |a| == |b|
    ensures DigitsValue(a) < DigitsValue(b) <==> LexLess(a, b)
    decreases |a|
  {
    if |a| > 0 {
      var p := Pow10(|a| - 1);
      var da, db := a[0] as int - '0' as int, b[0] as int - '0' as int;
      var ra, rb := DigitsValue(a[1..]), DigitsValue(b[1..]);
      assert DigitsValue(a) == da * p + ra;
      assert DigitsValue(b) == db * p + rb;
      if da < db {
        LeadingDigitDecides(da, db, ra, rb, p);
      } else if db < da {
        LeadingDigitDecides(db, da, rb, ra, p);
      } else {
        DigitsOrderIsLexicographic(a[1..], b[1..]);
      }
    }
  }

  /** Comparing two strings that start with equal-length parts: the first parts decide unless equal. */
  lemma {:induction false} LexLessConcat(a: string, c: string, b: string, d: string)
    requires |a| == |b|
    ensures LexLess(a + c, b + d) <==> LexLess(a, b) || (a == b && LexLess(c, d))
    decreases |a|
  {
    if |a| == 0 {
      assert a + c == c && b + d == d;
    } else {
      assert (a + c)[0] == a[0] && (b + d)[0] == b[0];
      assert (a + c)[1..] == a[1..] + c && (b + d)[1..] == b[1..] + d;
      LexLessConcat(a[1..], c, b[1..], d);
      if a[0] == b[0] {
        assert a == [a[0]] + a[1..] && b == [b[0]] + b[1..];
        assert a == b <==> a[1..] == b[1..];
      }
    }
  }

  /** Year, then month, then day decide, as fields of equal width. */
  ghost predicate FieldsLess(d1: string, d2: string)
    requires WellFormedDate(d1) && WellFormedDate(d2)
  {
    || LexLess(d1[..4], d2[..4])
    || (d1[..4] == d2[..4] && LexLess(d1[5..7], d2[5..7]))
    || (d1[..4] == d2[..4] && d1[5..7] == d2[5..7] && LexLess(d1[8..], d2[8..]))
  }

  lemma DateStringsCompareByFields(d1: string, d2: string)
    requires WellFormedDate(d1) && WellFormedDate(d2)
    ensures LexLess(d1, d2) <==> FieldsLess(d1, d2)
  {
    var y1, m1, e1 := d1[..4], d1[5..7], d1[8..];
    var y2, m2, e2 := d2[..4], d2[5..7], d2[8..];
    assert d1 == y1 + ("-" + (m1 + ("-" + e1)));
    assert d2 == y2 + ("-" + (m2 + ("-" + e2)));
    LexLessConcat(y1, "-" + (m1 + ("-" + e1)), y2, "-" + (m2 + ("-" + e2)));
    LexLessConcat("-", m1 + ("-" + e1), "-", m2 + ("-" + e2));
    LexLessConcat(m1, "-" + e1, m2, "-" + e2);
    LexLessConcat("-", e1, "-", e2);
    assert !LexLess("-", "-");
  }

  lemma DateDigitsCompareByFields(d1: string, d2: string)
    requires WellFormedDate(d1) && WellFormedDate(d2)
    ensures LexLess(DateDigits(d1), DateDigits(d2)) <==> FieldsLess(d1, d2)
  {
    var y1, m1, e1 := d1[..4], d1[5..7], d1[8..];
    var y2, m2, e2 := d2[..4], d2[5..7], d2[8..];
    assert DateDigits(d1) == y1 + (m1 + e1) && DateDigits(d2) == y2 + (m2 + e2);
    LexLessConcat(y1, m1 + e1, y2, m2 + e2);
    LexLessConcat(m1, e1, m2, e2);
  }

  /** For well-formed dates the date key orders exactly as the strings do. */
  lemma DateOrderIsLexicographic(d1: string, d2: string)
    requires WellFormedDate(d1) && WellFormedDate(d2)
    ensures DateKey(d1) < DateKey(d2) <==> LexLess(d1, d2)
  {
    DateStringsCompareByFields(d1, d2);
    DateDigitsCompareByFields(d1, d2);
    DigitsOrderIsLexicographic(DateDigits(d1), DateDigits(d2));
  }
}
