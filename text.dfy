/**
 * The few pieces of Python's `str` that the relay bot relies on, over
 * sequences of Unicode code points: `find`, `split`, `strip` with one
 * character, and `str(n)` for an integer `n`.
 */
module Text {
  import opened Wrappers

  /** `pat` occurs in `s` starting at position `p`. */
  predicate OccursAt(s: string, p: int, pat: string)
  {
    0 <= p && p + |pat| <= |s| && s[p..p + |pat|] == pat
  }

  lemma OccursAtTail(s: string, pat: string)
    requires |s| > 0
    ensures forall q {:trigger OccursAt(s, q, pat)} ::
      1 <= q ==> (OccursAt(s, q, pat) <==> OccursAt(s[1..], q - 1, pat))
  {
  }

  /** Position of the first occurrence of a non-empty `pat` in `s` (Python's `s.find(pat)`, with -1 as None). */
  function IndexOf(s: string, pat: string): (r: Option<nat>)
    requires |pat| > 0
    ensures r.Some? ==> OccursAt(s, r.value, pat)
    ensures r.Some? ==> forall q :: 0 <= q < r.value ==> !OccursAt(s, q, pat)
    ensures r.None? ==> forall q :: !OccursAt(s, q, pat)
    decreases |s|
  {
    if |s| < |pat| then None
    else if s[..|pat|] == pat then Some(0)
    else
      OccursAtTail(s, pat);
      match IndexOf(s[1..], pat)
      case None => None
      case Some(i) => Some(i + 1)
  }

  predicate Contains(s: string, pat: string)
    requires |pat| > 0
  {
    IndexOf(s, pat).Some?
  }

  /** Python's `s.split(sep)` for a non-empty separator: the pieces between non-overlapping occurrences, left to right. */
  function Split(s: string, sep: string): (r: seq<string>)
    requires |sep| > 0
    ensures |r| >= 1
    ensures |r| >= 2 <==> Contains(s, sep)
    decreases |s|
  {
    match IndexOf(s, sep)
    case None => [s]
    case Some(i) => [s[..i]] + Split(s[i + |sep|..], sep)
  }

  /** Python's `sep.join(parts)`. */
  function Join(parts: seq<string>, sep: string): string
  {
    if |parts| == 0 then ""
    else if |parts| == 1 then parts[0]
    else parts[0] + sep + Join(parts[1..], sep)
  }

  /** Splitting and joining again gives back the original text. */
  lemma {:induction false} JoinSplit(s: string, sep: string)
    requires |sep| > 0
    ensures Join(Split(s, sep), sep) == s
    decreases |s|
  {
    match IndexOf(s, sep)
    case None =>
    case Some(i) =>
      var rest := s[i + |sep|..];
      JoinSplit(rest, sep);
      assert s == s[..i] + sep + rest;
  }

  /** No piece produced by `split` contains the separator. */
  lemma {:induction false} SplitPiecesFree(s: string, sep: string)
    requires |sep| > 0
    ensures forall k :: 0 <= k < |Split(s, sep)| ==> !Contains(Split(s, sep)[k], sep)
    decreases |s|
  {
    match IndexOf(s, sep)
    case None =>
    case Some(i) =>
      var rest := s[i + |sep|..];
      SplitPiecesFree(rest, sep);
      if Contains(s[..i], sep) {
        OccursInPrefix(s, i, IndexOf(s[..i], sep).value, sep);
      }
  }

  /** An occurrence inside a prefix is an occurrence in the whole text. */
  lemma OccursInPrefix(s: string, i: nat, q: int, pat: string)
    requires i <= |s| && OccursAt(s[..i], q, pat)
    ensures OccursAt(s, q, pat)
  {
    assert s[..i][q..q + |pat|] == s[q..q + |pat|];
  }

  /**
   * When no occurrence of `pat` starts inside `x`, the first occurrence in
   * `x + y` is the first occurrence in `y`, shifted by `|x|`.
   */
  lemma {:induction false} SkipNoStart(x: string, y: string, pat: string)
    requires |pat| > 0
    requires forall q :: 0 <= q < |x| ==> !OccursAt(x + y, q, pat)
    ensures IndexOf(y, pat).None? ==> IndexOf(x + y, pat).None?
    ensures IndexOf(y, pat).Some? ==> IndexOf(x + y, pat) == Some(IndexOf(y, pat).value + |x|)
  {
    var s := x + y;
    var rs, ry := IndexOf(s, pat), IndexOf(y, pat);
    if rs.Some? {
      var p := rs.value;
      assert p >= |x|;
      OccursShifted(x, y, pat, p - |x|);
      assert OccursAt(y, p - |x|, pat);
      var i := ry.value;
      OccursShifted(x, y, pat, i);
      assert i == p - |x|;
    } else if ry.Some? {
      OccursShifted(x, y, pat, ry.value);
    }
  }

  lemma OccursShifted(x: string, y: string, pat: string, q: int)
    requires 0 <= q
    ensures OccursAt(x + y, q + |x|, pat) <==> OccursAt(y, q, pat)
  {
  }


  /**
   * From position `q` on, `x` agrees with `pat` for as long as both last:
   * an occurrence of `pat` starting at `q` could still be completed by what
   * follows `x`.
   */
  predicate Overlaps(x: string, q: int, pat: string)
  {
    0 <= q <= |x| &&
    var n := if |x| - q < |pat| then |x| - q else |pat|;
    x[q..q + n] == pat[..n]
  }

  /** No occurrence of `pat` can start inside `x`, whatever text follows `x`. */
  predicate Clean(x: string, pat: string)
  {
    forall q :: 0 <= q < |x| ==> !Overlaps(x, q, pat)
  }

  lemma CleanExtends(x: string, y: string, pat: string)
    requires Clean(x, pat)
    ensures forall q :: 0 <= q < |x| ==> !OccursAt(x + y, q, pat)
  {
    forall q | 0 <= q < |x|
      ensures !OccursAt(x + y, q, pat)
    {
      var n := if |x| - q < |pat| then |x| - q else |pat|;
      assert !Overlaps(x, q, pat);
      if q + |pat| <= |x + y| {
        assert (x + y)[q..q + |pat|][..n] == x[q..q + n];
        assert pat[..n] != x[q..q + n];
      }
    }
  }

  /** A text without the first character of `pat` is clean. */
  lemma CleanWithout(x: string, pat: string)
    requires |pat| > 0 && pat[0] !in x
    ensures Clean(x, pat)
  {
  }


  lemma CleanAppend(a: string, b: string, pat: string)
    requires Clean(a, pat) && Clean(b, pat)
    ensures Clean(a + b, pat)
  {
    var s := a + b;
    forall q | 0 <= q < |s|
      ensures !Overlaps(s, q, pat)
    {
      var n := if |s| - q < |pat| then |s| - q else |pat|;
      if q < |a| {
        var m := if |a| - q < |pat| then |a| - q else |pat|;
        assert !Overlaps(a, q, pat);
        assert s[q..q + m] == a[q..q + m];
        assert s[q..q + n][..m] == s[q..q + m];
        assert pat[..n][..m] == pat[..m];
      } else {
        assert !Overlaps(b, q - |a|, pat);
        assert s[q..q + n] == b[q - |a|..q - |a| + n];
      }
    }
  }

  /**
   * A text in which `pat` does not occur, followed by a clean text that
   * starts with a character `pat` does not contain, is clean.
   */
  lemma CleanBeforeBarrier(a: string, b: string, pat: string)
    requires |pat| > 0 && !Contains(a, pat)
    requires |b| > 0 && b[0] !in pat && Clean(b, pat)
    ensures Clean(a + b, pat)
  {
    var s := a + b;
    forall q | 0 <= q < |s|
      ensures !Overlaps(s, q, pat)
    {
      var n := if |s| - q < |pat| then |s| - q else |pat|;
      if q < |a| {
        if q + |pat| <= |a| {
          assert !OccursAt(a, q, pat);
          assert s[q..q + n] == a[q..q + |pat|];
          assert pat[..n] == pat;
        } else {
          var k := |a| - q;
          assert k < n;
          assert pat[k] in pat;
          assert s[q..q + n][k] == b[0];
          assert pat[..n][k] == pat[k];
        }
      } else {
        assert !Overlaps(b, q - |a|, pat);
        assert s[q..q + n] == b[q - |a|..q - |a| + n];
      }
    }
  }

  /** A clean text followed by one in which `pat` does not occur: `pat` does not occur in the whole. */
  lemma NotContainsAppend(a: string, b: string, pat: string)
    requires |pat| > 0 && Clean(a, pat) && !Contains(b, pat)
    ensures !Contains(a + b, pat)
  {
    CleanExtends(a, b, pat);
    SkipNoStart(a, b, pat);
  }

  /** Python's `s.lstrip(c)`. */
  function StripLeft(s: string, c: char): (r: string)
    ensures |r| <= |s| && r == s[|s| - |r|..]
    ensures forall i :: 0 <= i < |s| - |r| ==> s[i] == c
    ensures |r| > 0 ==> r[0] != c
  {
    if |s| > 0 && s[0] == c then StripLeft(s[1..], c) else s
  }

  /** Python's `s.rstrip(c)`. */
  function StripRight(s: string, c: char): (r: string)
    ensures |r| <= |s| && r == s[..|r|]
    ensures forall i :: |r| <= i < |s| ==> s[i] == c
    ensures |r| > 0 ==> r[|r| - 1] != c
  {
    if |s| > 0 && s[|s| - 1] == c then StripRight(s[..|s| - 1], c) else s
  }

  /**
   * Python's `s.strip(c)`: what is left after removing every leading and
   * every trailing `c`.
   */
  function Strip(s: string, c: char): (r: string)
    ensures |r| > 0 ==> r[0] != c && r[|r| - 1] != c
    ensures |r| == 0 <==> forall k :: 0 <= k < |s| ==> s[k] == c
  {
    StripRight(StripLeft(s, c), c)
  }

  /** A text that neither starts nor ends with `c` is left alone by `strip(c)`. */
  lemma StripKeeps(s: string, c: char)
    requires |s| > 0 && s[0] != c && s[|s| - 1] != c
    ensures Strip(s, c) == s
  {
  }

  // ---- str(n) for Python integers and its inverse ----

  predicate IsDigit(ch: char)
  {
    '0' <= ch <= '9'
  }

  predicate AllDigits(s: string)
  {
    forall i :: 0 <= i < |s| ==> IsDigit(s[i])
  }

  function DigitChar(d: int): (ch: char)
    requires 0 <= d < 10
    ensures IsDigit(ch)
  {
    ('0' as int + d) as char
  }

  /** Decimal digits of a natural number, without leading zeros. */
  function Digits(n: nat): (r: string)
    ensures |r| > 0 && AllDigits(r)
    ensures |r| > 1 ==> r[0] != '0'
    ensures r[0] == '0' <==> n == 0
  {
    if n < 10 then [DigitChar(n)] else Digits(n / 10) + [DigitChar(n % 10)]
  }

  /** Python's `str(n)` for an integer `n`. */
  function Decimal(n: int): (r: string)
    ensures |r| > 0
    ensures forall i :: 0 <= i < |r| ==> IsDigit(r[i]) || r[i] == '-'
  {
    if n < 0 then "-" + Digits(-n) else Digits(n)
  }

  /** The value of a string of decimal digits. */
  function DigitsValue(s: string): nat
    requires AllDigits(s)
  {
    if |s| == 0 then 0
    else DigitsValue(s[..|s| - 1]) * 10 + (s[|s| - 1] as int - '0' as int)
  }

  /** Digits with no leading zero, except for the text "0" itself. */
  predicate NoLeadingZero(s: string)
  {
    |s| > 0 && AllDigits(s) && (|s| == 1 || s[0] != '0')
  }

  /**
   * The integer a text denotes when it is written the way `str` writes
   * integers: digits without a leading zero, optionally after a `-` that is
   * not followed by a zero. Any other text, "007" or "-0" among them, is None.
   */
  function DecimalValue(s: string): Option<int>
  {
    if NoLeadingZero(s) then Some(DigitsValue(s))
    else if |s| > 1 && s[0] == '-' && NoLeadingZero(s[1..]) && s[1] != '0' then Some(0 - DigitsValue(s[1..]))
    else None
  }

  lemma {:induction false} DigitsValueDigits(n: nat)
    ensures DigitsValue(Digits(n)) == n
  {
    if n >= 10 {
      DigitsValueDigits(n / 10);
      var s := Digits(n);
      assert s[..|s| - 1] == Digits(n / 10);
    }
  }

  /** `str` loses nothing: the decimal text of `n` denotes `n`. */
  lemma DecimalRoundTrip(n: int)
    ensures DecimalValue(Decimal(n)) == Some(n)
  {
    if n < 0 {
      DigitsValueDigits(-n);
      assert Decimal(n)[1..] == Digits(-n);
      assert Decimal(n)[0] == '-';
    } else {
      DigitsValueDigits(n);
    }
  }

  /** Digits that start with a non-zero digit denote a positive number. */
  lemma {:induction false} DigitsPositive(s: string)
    requires |s| > 0 && AllDigits(s) && s[0] != '0'
    ensures DigitsValue(s) >= 1
  {
    if |s| > 1 {
      var p := s[..|s| - 1];
      assert p[0] == s[0];
      DigitsPositive(p);
    }
  }

  /** Digits without a leading zero are exactly what `Digits` writes for their value. */
  lemma {:induction false} DigitsCanonical(s: string)
    requires NoLeadingZero(s)
    ensures Digits(DigitsValue(s)) == s
  {
    var last := s[|s| - 1] as int - '0' as int;
    var p := s[..|s| - 1];
    assert DigitChar(last) == s[|s| - 1];
    if |s| == 1 {
      assert DigitsValue(s) == last;
      assert Digits(last) == [DigitChar(last)];
    } else {
      assert p[0] == s[0] && AllDigits(p);
      DigitsCanonical(p);
      DigitsPositive(p);
      var v := DigitsValue(s);
      assert v == DigitsValue(p) * 10 + last;
      assert v / 10 == DigitsValue(p) && v % 10 == last;
      assert Digits(v) == Digits(v / 10) + [DigitChar(v % 10)];
      assert s == p + [s[|s| - 1]];
    }
  }

  /** `DecimalValue` reads back exactly the texts `str` writes: one text per integer. */
  lemma DecimalValueExact(s: string, n: int)
    ensures DecimalValue(s) == Some(n) <==> s == Decimal(n)
  {
    DecimalRoundTrip(n);
    if DecimalValue(s) == Some(n) {
      if NoLeadingZero(s) {
        DigitsCanonical(s);
      } else {
        var t := s[1..];
        DigitsCanonical(t);
        DigitsPositive(t);
        assert s == "-" + t;
      }
    }
  }

  /** Two integers with the same decimal text are equal. */
  lemma DecimalInjective(a: int, b: int)
    requires Decimal(a) == Decimal(b)
    ensures a == b
  {
    DecimalRoundTrip(a);
    DecimalRoundTrip(b);
  }
}
