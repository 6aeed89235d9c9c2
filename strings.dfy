/**
 * Text helpers the dashboard relies on: Python's ordering of `str` values
 * (code point by code point, a proper prefix first), the sorted list of
 * distinct values that `sorted(col.dropna().unique())` produces, and the
 * thousands-separated rendering of a count that `f"{n:,}"` produces.
 */
module Strings {

  // ---------------------------------------------------------------------
  // Python's `<` on str
  // ---------------------------------------------------------------------

  /** `a < b` for Python strings: lexicographic on code points. */
  predicate Less(a: string, b: string)
  {
    if a == [] then b != []
    else if b == [] then false
    else if a[0] != b[0] then a[0] < b[0]
    else Less(a[1..], b[1..])
  }

  lemma {:induction false} LessIrreflexive(a: string)
    ensures !Less(a, a)
  {
    if a != [] {
      LessIrreflexive(a[1..]);
    }
  }

  lemma {:induction false} LessTransitive(a: string, b: string, c: string)
    requires Less(a, b) && Less(b, c)
    ensures Less(a, c)
  {
    if a != [] && b != [] && c != [] && a[0] == b[0] && b[0] == c[0] {
      LessTransitive(a[1..], b[1..], c[1..]);
    }
  }

  lemma {:induction false} LessTotal(a: string, b: string)
    requires a != b
    ensures Less(a, b) || Less(b, a)
  {
    if a != [] && b != [] && a[0] == b[0] {
      assert a == [a[0]] + a[1..] && b == [b[0]] + b[1..];
      LessTotal(a[1..], b[1..]);
    }
  }

  /** Every value strictly below every later one: sorted and free of duplicates. */
  ghost predicate StrictlySorted(s: seq<string>)
  {
    forall i, j :: 0 <= i < j < |s| ==> Less(s[i], s[j])
  }

  lemma StrictlySortedDistinct(s: seq<string>, i: int, j: int)
    requires StrictlySorted(s) && 0 <= i < j < |s|
    ensures s[i] != s[j]
  {
    LessIrreflexive(s[i]);
  }

  // ---------------------------------------------------------------------
  // sorted(unique(values))
  // ---------------------------------------------------------------------

  /** Adds `x` to a strictly sorted list, keeping it strictly sorted. */
  function InsertUnique(x: string, s: seq<string>): (r: seq<string>)
    requires StrictlySorted(s)
    ensures StrictlySorted(r)
    ensures forall y :: y in r <==> y == x || y in s
  {
    if s == [] then [x]
    else if x == s[0] then s
    else if Less(x, s[0]) then
      assert forall j :: 0 < j < |s| ==> Less(x, s[j]) by {
        forall j | 0 < j < |s| ensures Less(x, s[j]) {
          LessTransitive(x, s[0], s[j]);
        }
      }
      [x] + s
    else
      LessTotal(x, s[0]);
      var rest := InsertUnique(x, s[1..]);
      assert forall y :: y in rest ==> Less(s[0], y) by {
        forall y | y in rest ensures Less(s[0], y) {
          if y != x {
            var j :| 0 <= j < |s[1..]| && s[1..][j] == y;
            assert s[j + 1] == y;
          }
        }
      }
      [s[0]] + rest
  }

  /** The distinct values of `values`, in ascending order. */
  function SortedDistinct(values: seq<string>): (r: seq<string>)
    ensures StrictlySorted(r)
    ensures forall y :: y in r <==> y in values
  {
    if values == [] then []
    else InsertUnique(values[0], SortedDistinct(values[1..]))
  }

  // ---------------------------------------------------------------------
  // Decimal digits and `f"{n:,}"`
  // ---------------------------------------------------------------------

  function DigitChar(d: nat): (c: char)
    requires d < 10
    ensures '0' <= c <= '9'
  {
    "0123456789"[d]
  }

  function DigitValue(c: char): nat
    requires '0' <= c <= '9'
  {
    (c as int - '0' as int) as nat
  }

  predicate IsDigit(c: char) { '0' <= c <= '9' }

  predicate AllDigits(s: string) { forall i :: 0 <= i < |s| ==> IsDigit(s[i]) }

  /** The value of a string of decimal digits, most significant first. */
  function DigitsValue(s: string): nat
    requires AllDigits(s)
  {
    if s == [] then 0
    else DigitsValue(s[..|s| - 1]) * 10 + DigitValue(s[|s| - 1])
  }

  /** `str(n)`: the decimal representation of `n`. */
  function DecimalDigits(n: nat): (s: string)
  {
    if n < 10 then [DigitChar(n)]
    else DecimalDigits(n / 10) + [DigitChar(n % 10)]
  }

  /** `str(n)` is a canonical numeral: digits only, no leading zero, and it reads back as `n`. */
  lemma {:induction false} DecimalDigitsCanonical(n: nat)
    ensures AllDigits(DecimalDigits(n)) && |DecimalDigits(n)| >= 1
    ensures DigitsValue(DecimalDigits(n)) == n
    ensures DecimalDigits(n)[0] == '0' <==> n == 0
  {
    var s := DecimalDigits(n);
    if n >= 10 {
      DecimalDigitsCanonical(n / 10);
      assert s[..|s| - 1] == DecimalDigits(n / 10);
      assert DigitValue(DigitChar(n % 10)) == n % 10;
    } else {
      assert DigitValue(DigitChar(n)) == n;
    }
  }

  /** Inserts `,` every three digits counted from the right. */
  function InsertCommas(s: string): (r: string)
  {
    if |s| <= 3 then s
    else InsertCommas(s[..|s| - 3]) + "," + s[|s| - 3..]
  }

  function StripCommas(s: string): (r: string)
  {
    if s == [] then []
    else StripCommas(s[..|s| - 1]) + (if s[|s| - 1] == ',' then [] else [s[|s| - 1]])
  }

  /**
   * The shape `f"{n:,}"` gives: a leading group of one to three digits,
   * then groups of exactly three digits, each after a comma.
   */
  ghost predicate ThousandsGrouped(t: string)
  {
    if |t| <= 3 then 1 <= |t| && AllDigits(t)
    else |t| >= 5 && t[|t| - 4] == ',' && AllDigits(t[|t| - 3..])
         && ThousandsGrouped(t[..|t| - 4])
  }

  lemma {:induction false} InsertCommasShape(s: string)
    requires AllDigits(s) && |s| >= 1
    ensures ThousandsGrouped(InsertCommas(s))
    ensures StripCommas(InsertCommas(s)) == s
  {
    if |s| <= 3 {
      StripDigitsOnly(s);
    } else {
      var head, tail := s[..|s| - 3], s[|s| - 3..];
      InsertCommasShape(head);
      var t := InsertCommas(s);
      var h := InsertCommas(head);
      assert t == h + "," + tail;
      assert t[..|t| - 4] == h;
      assert t[|t| - 3..] == tail;
      StripAppend(h + ",", tail);
      StripDigitsOnly(tail);
      assert StripCommas(h + ",") == StripCommas(h) by {
        assert (h + ",")[..|h + ","| - 1] == h;
      }
      assert s == head + tail;
    }
  }

  lemma {:induction false} StripDigitsOnly(s: string)
    requires AllDigits(s)
    ensures StripCommas(s) == s
  {
    if s != [] {
      StripDigitsOnly(s[..|s| - 1]);
      assert s == s[..|s| - 1] + [s[|s| - 1]];
    }
  }

  lemma {:induction false} StripAppend(a: string, b: string)
    ensures StripCommas(a + b) == StripCommas(a) + StripCommas(b)
    decreases |b|
  {
    if b != [] {
      var b' := b[..|b| - 1];
      assert (a + b)[..|a + b| - 1] == a + b';
      assert (a + b)[|a + b| - 1] == b[|b| - 1];
      StripAppend(a, b');
    } else {
      assert a + b == a;
    }
  }

  /** `f"{n:,}"` for a non-negative integer. */
  function FormatThousands(n: nat): (r: string)
    ensures ThousandsGrouped(r)
    ensures AllDigits(StripCommas(r)) && StripCommas(r) == DecimalDigits(n)
    ensures DigitsValue(StripCommas(r)) == n
  {
    DecimalDigitsCanonical(n);
    InsertCommasShape(DecimalDigits(n));
    InsertCommas(DecimalDigits(n))
  }
}
