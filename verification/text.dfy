/**
 * The string operations the pages call: `toLowerCase`, `includes` and
 * `trim`. Lower-casing is modelled for ASCII letters only.
 */
module Text {

  /** `c.toLowerCase()` for one character: A-Z become a-z, all else is kept. */
  function LowerChar(c: char): char
  {
    if 'A' <= c <= 'Z' then (c as int + 32) as char else c
  }

  /** `s.toLowerCase()`: the same length, equal to `s` ignoring case, and without upper-case ASCII letters. */
  function Lower(s: string): (r: string)
    ensures |r| == |s|
    ensures SameIgnoringCase(s, r)
    ensures forall i :: 0 <= i < |r| ==> !('A' <= r[i] <= 'Z')
  {
    seq(|s|, i requires 0 <= i < |s| => LowerChar(s[i]))
  }

  /** Lower-casing twice is lower-casing once. */
  lemma LowerIdempotent(s: string)
    ensures Lower(Lower(s)) == Lower(s)
  {
  }

  /** The two strings are equal once letter case is ignored. */
  predicate SameIgnoringCase(a: string, b: string)
  {
    |a| == |b| && forall i :: 0 <= i < |a| ==> LowerChar(a[i]) == LowerChar(b[i])
  }

  /** `part` occurs in `text` starting at index `i`. */
  ghost predicate OccursAt(text: string, part: string, i: int)
  {
    0 <= i && i + |part| <= |text| && text[i..i + |part|] == part
  }

  ghost predicate Occurs(text: string, part: string)
  {
    exists i :: OccursAt(text, part, i)
  }

  /** `text.includes(part)`: the empty string is included in every string. */
  function Includes(text: string, part: string): (b: bool)
    ensures b <==> Occurs(text, part)
    decreases |text|
  {
    if |part| > |text| then false
    else if text[..|part|] == part then
      assert OccursAt(text, part, 0);
      true
    else
      OccursInTail(text, part);
      Includes(text[1..], part)
  }

  /** Once `part` is not a prefix of `text`, its occurrences are those in `text[1..]`. */
  lemma OccursInTail(text: string, part: string)
    requires |part| <= |text|
    requires text[..|part|] != part
    ensures Occurs(text, part) <==> Occurs(text[1..], part)
  {
    if Occurs(text, part) {
      var i :| OccursAt(text, part, i);
      assert i != 0;
      assert text[1..][i - 1..i - 1 + |part|] == text[i..i + |part|];
      assert OccursAt(text[1..], part, i - 1);
    }
    if Occurs(text[1..], part) {
      var i :| OccursAt(text[1..], part, i);
      assert text[1..][i..i + |part|] == text[i + 1..i + 1 + |part|];
      assert OccursAt(text, part, i + 1);
    }
  }

  /**
   * The characters `String.prototype.trim` removes: ECMA-262's WhiteSpace
   * (tab, vertical tab, form feed, ZWNBSP and every Unicode space separator)
   * and LineTerminator (LF, CR, LS, PS).
   */
  predicate IsWhiteSpace(c: char)
  {
    var n := c as int;
    || n == 0x09 || n == 0x0B || n == 0x0C || n == 0xFEFF
    || n == 0x20 || n == 0xA0 || n == 0x1680 || 0x2000 <= n <= 0x200A
    || n == 0x202F || n == 0x205F || n == 0x3000
    || n == 0x0A || n == 0x0D || n == 0x2028 || n == 0x2029
  }

  predicate IsBlank(s: string)
  {
    forall i :: 0 <= i < |s| ==> IsWhiteSpace(s[i])
  }

  /** A suffix of `s[1..]` behind a blank stretch is a suffix of `s` behind one, when `s[0]` is white space. */
  lemma TrimStartStep(s: string, r: string)
    requires |s| > 0 && IsWhiteSpace(s[0])
    requires |r| <= |s| - 1 && r == s[1..][|s| - 1 - |r|..]
    requires IsBlank(s[1..][..|s| - 1 - |r|])
    ensures r == s[|s| - |r|..]
    ensures IsBlank(s[..|s| - |r|])
  {
    var k := |s| - |r|;
    assert s[1..][..k - 1] == s[1..k];
    forall i | 0 <= i < k
      ensures IsWhiteSpace(s[..k][i])
    {
      if i > 0 {
        assert s[..k][i] == s[1..k][i - 1];
      }
    }
  }

  /** `s` with its leading white space removed. */
  function TrimStart(s: string): (r: string)
    ensures |r| <= |s| && r == s[|s| - |r|..]
    ensures IsBlank(s[..|s| - |r|])
    ensures |r| == 0 || !IsWhiteSpace(r[0])
  {
    if |s| > 0 && IsWhiteSpace(s[0]) then
      var r := TrimStart(s[1..]);
      TrimStartStep(s, r);
      r
    else s
  }

  /** `s` with its trailing white space removed. */
  function TrimEnd(s: string): (r: string)
    ensures |r| <= |s| && r == s[..|r|]
    ensures IsBlank(s[|r|..])
    ensures |r| == 0 || !IsWhiteSpace(r[|r| - 1])
  {
    if |s| > 0 && IsWhiteSpace(s[|s| - 1]) then
      var r := TrimEnd(s[..|s| - 1]);
      assert s[|r|..] == s[..|s| - 1][|r|..] + [s[|s| - 1]];
      r
    else s
  }

  /** `r` sits at index `i` of `s` with only white space before and after it. */
  predicate PaddedAt(s: string, r: string, i: int)
  {
    0 <= i <= |s| - |r| && s[i..i + |r|] == r && IsBlank(s[..i]) && IsBlank(s[i + |r|..])
  }

  /**
   * `s.trim()`: the piece of `s` left between a blank prefix and a blank
   * suffix, neither starting nor ending with white space.
   */
  function Trim(s: string): (r: string)
    ensures |r| <= |s|
    ensures exists i :: PaddedAt(s, r, i)
    ensures |r| == 0 || (!IsWhiteSpace(r[0]) && !IsWhiteSpace(r[|r| - 1]))
  {
    var t := TrimStart(s);
    var r := TrimEnd(t);
    TrimEndOfSuffix(s, t, r);
    r
  }

  /** Trimming the end of the suffix `t` of `s` leaves a piece padded by the rest of `s`. */
  lemma TrimEndOfSuffix(s: string, t: string, r: string)
    requires |t| <= |s| && t == s[|s| - |t|..] && IsBlank(s[..|s| - |t|])
    requires |r| <= |t| && r == t[..|r|] && IsBlank(t[|r|..])
    ensures PaddedAt(s, r, |s| - |t|)
  {
    var i := |s| - |t|;
    assert s[i..i + |r|] == t[..|r|];
    assert s[i + |r|..] == t[|r|..];
  }

  /** `s.trim()` is empty exactly when `s` consists of white space only. */
  lemma TrimEmptyIffBlank(s: string)
    ensures Trim(s) == "" <==> IsBlank(s)
  {
    var t := TrimStart(s);
    if Trim(s) == "" {
      assert IsBlank(t[0..]);
      assert |t| == 0;
      assert s[..|s|] == s;
    }
  }

  /** Letter case never turns white space into something else. */
  lemma CaseKeepsBlankness(a: string, b: string)
    requires SameIgnoringCase(a, b)
    ensures IsBlank(a) <==> IsBlank(b)
  {
    forall i | 0 <= i < |a|
      ensures IsWhiteSpace(a[i]) <==> IsWhiteSpace(b[i])
    {
      assert LowerChar(a[i]) == LowerChar(b[i]);
      if 'A' <= a[i] <= 'Z' || 'A' <= b[i] <= 'Z' {
        assert !IsWhiteSpace(a[i]) && !IsWhiteSpace(b[i]);
      } else {
        assert a[i] == b[i];
      }
    }
  }

  /** Lower-casing gives the same string for inputs that differ only in letter case. */
  lemma LowerIgnoresCase(a: string, b: string)
    requires SameIgnoringCase(a, b)
    ensures Lower(a) == Lower(b)
  {
  }
}
