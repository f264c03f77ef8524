/**
 * Hand-written scanners for the few regular-expression pieces the import
 * parsers use: decimal digit runs (`\d+`), decimal numbers
 * (`\d+(?:\.\d+)?`), and `re.search`, which reports the match that starts
 * at the leftmost position. Each pattern of the parsers is matched
 * greedily; for those patterns the text that follows a number can never
 * begin with a digit or with `.` and a digit, so backtracking into the
 * number would never produce a match that the greedy scan misses.
 */
module Scan {
  import opened Options
  import opened Text

  function DigitValue(c: char): nat
    requires IsDigit(c)
  {
    c as int - '0' as int
  }

  function DigitChar(d: nat): (c: char)
    requires d < 10
    ensures IsDigit(c) && DigitValue(c) == d
  {
    ('0' as int + d) as char
  }

  predicate AllDigits(s: string) {
    forall k :: 0 <= k < |s| ==> IsDigit(s[k])
  }

  function Pow10(n: nat): (r: nat)
    ensures r >= 1
  {
    if n == 0 then 1 else 10 * Pow10(n - 1)
  }

  /** Python's `int(ds)` on a string of decimal digits. */
  function NatOf(ds: string): nat
    requires AllDigits(ds)
    decreases |ds|
  {
    if ds == [] then 0 else NatOf(ds[..|ds| - 1]) * 10 + DigitValue(ds[|ds| - 1])
  }

  /** A value written with `n` digits is below `10^n`. */
  lemma {:induction false} NatOfBound(ds: string)
    requires AllDigits(ds)
    ensures NatOf(ds) < Pow10(|ds|)
    decreases |ds|
  {
    if ds != [] {
      NatOfBound(ds[..|ds| - 1]);
    }
  }

  /** The decimal numeral of `n`, without leading zeros. */
  function NatString(n: nat): (s: string)
    ensures AllDigits(s) && |s| >= 1
    ensures NatOf(s) == n
  {
    if n < 10 then [DigitChar(n)]
    else
      var prefix := NatString(n / 10);
      var s := prefix + [DigitChar(n % 10)];
      assert s[..|s| - 1] == prefix;
      s
  }

  /** End of the run of digits that starts at `i` (the greedy `\d*`). */
  function DigitsEnd(s: string, i: nat): (j: nat)
    requires i <= |s|
    ensures i <= j <= |s|
    ensures forall k :: i <= k < j ==> IsDigit(s[k])
    ensures j == |s| || !IsDigit(s[j])
    decreases |s| - i
  {
    if i < |s| && IsDigit(s[i]) then DigitsEnd(s, i + 1) else i
  }

  /** The run of digits is exactly the one the text spells out. */
  lemma {:induction false} DigitsEndExact(s: string, i: nat, j: nat)
    requires i <= j <= |s|
    requires forall k :: i <= k < j ==> IsDigit(s[k])
    requires j == |s| || !IsDigit(s[j])
    ensures DigitsEnd(s, i) == j
    decreases j - i
  {
    if i < j {
      DigitsEndExact(s, i + 1, j);
    }
  }

  /** A number that was scanned: its value and the index just after it. */
  datatype Number = Number(value: real, end: nat)

  /** `float(text)` of digits `w` followed by the fraction digits `f` (which may be empty). */
  function DecimalValue(w: string, f: string): (r: real)
    requires AllDigits(w) && AllDigits(f)
    ensures r >= NatOf(w) as real
  {
    NatOf(w) as real + NatOf(f) as real / Pow10(|f|) as real
  }

  /**
   * The greedy match of `\d+(?:\.\d+)?` at `i`: the digits, then a point and
   * more digits when a digit follows the point.
   */
  function NumberAt(s: string, i: nat): (r: Option<Number>)
    ensures r.Some? <==> i < |s| && IsDigit(s[i])
    ensures r.Some? ==> i < r.value.end <= |s| && r.value.value >= 0.0
    ensures r.Some? ==> r.value.end == |s| || !IsDigit(s[r.value.end])
  {
    if i < |s| && IsDigit(s[i]) then
      var j := DigitsEnd(s, i);
      var w := s[i..j];
      assert AllDigits(w);
      if j + 1 < |s| && s[j] == '.' && IsDigit(s[j + 1]) then
        var k := DigitsEnd(s, j + 1);
        var f := s[j + 1..k];
        assert AllDigits(f);
        Some(Number(DecimalValue(w, f), k))
      else
        Some(Number(DecimalValue(w, ""), j))
    else
      None
  }

  /**
   * A numeral followed by text that starts with neither a digit nor a point
   * scans as exactly that number.
   */
  lemma NumberAtNatString(pre: string, n: nat, t: string)
    requires t == [] || (!IsDigit(t[0]) && t[0] != '.')
    ensures NumberAt(pre + NatString(n) + t, |pre|) == Some(Number(n as real, |pre| + |NatString(n)|))
  {
    var w := NatString(n);
    var s := pre + w + t;
    var j := |pre| + |w|;
    forall k | |pre| <= k < j ensures IsDigit(s[k]) {
      assert s[k] == w[k - |pre|];
    }
    assert j < |s| ==> s[j] == t[0];
    DigitsEndExact(s, |pre|, j);
    assert s[|pre|..j] == w;
    assert NatOf("") == 0;
  }

  /**
   * `re.search`: the result of the leftmost position, from `i` on, at which
   * the matcher `at` succeeds. The positions run up to `|s|` inclusive.
   */
  function SearchFrom<T>(s: string, at: nat -> Option<T>, i: nat): Option<T>
    requires i <= |s|
    decreases |s| - i
  {
    if at(i).Some? then at(i)
    else if i == |s| then None
    else SearchFrom(s, at, i + 1)
  }

  function Search<T>(s: string, at: nat -> Option<T>): Option<T> {
    SearchFrom(s, at, 0)
  }

  /**
   * The search finds nothing exactly when no position matches, and
   * otherwise reports the match at the leftmost matching position.
   */
  lemma {:induction false} SearchFromSpec<T>(s: string, at: nat -> Option<T>, i: nat)
    requires i <= |s|
    ensures SearchFrom(s, at, i).None? <==> forall k :: i <= k <= |s| ==> at(k).None?
    ensures SearchFrom(s, at, i).Some? ==>
      exists k :: i <= k <= |s| && at(k) == SearchFrom(s, at, i) && forall j :: i <= j < k ==> at(j).None?
    decreases |s| - i
  {
    if at(i).None? && i < |s| {
      SearchFromSpec(s, at, i + 1);
      if SearchFrom(s, at, i).Some? {
        var k :| i + 1 <= k <= |s| && at(k) == SearchFrom(s, at, i) && forall j :: i + 1 <= j < k ==> at(j).None?;
        assert forall j :: i <= j < k ==> at(j).None?;
      }
    }
  }

  lemma SearchSpec<T>(s: string, at: nat -> Option<T>)
    ensures Search(s, at).None? <==> forall k :: 0 <= k <= |s| ==> at(k).None?
    ensures Search(s, at).Some? ==>
      exists k :: 0 <= k <= |s| && at(k) == Search(s, at) && forall j :: 0 <= j < k ==> at(j).None?
  {
    SearchFromSpec(s, at, 0);
  }

  /** The position at which the reported match was found. */
  lemma SearchWitness<T>(s: string, at: nat -> Option<T>) returns (k: nat)
    requires Search(s, at).Some?
    ensures k <= |s| && at(k) == Search(s, at)
  {
    SearchSpec(s, at);
    k :| 0 <= k <= |s| && at(k) == Search(s, at) && forall j :: 0 <= j < k ==> at(j).None?;
  }

  /** Whatever every match satisfies, the search result satisfies. */
  lemma SearchKeeps<T>(s: string, at: nat -> Option<T>, P: T -> bool)
    requires forall k: nat :: at(k).Some? ==> P(at(k).value)
    ensures Search(s, at).Some? ==> P(Search(s, at).value)
  {
    SearchSpec(s, at);
  }

  /** A match at the very first position is the one the search reports. */
  lemma SearchAtStart<T>(s: string, at: nat -> Option<T>)
    requires at(0).Some?
    ensures Search(s, at) == at(0)
  {
  }

  /** A character that `s` lacks cannot start an occurrence of `t` in `s`. */
  lemma AbsentFirstChar(s: string, t: string)
    requires |t| > 0 && t[0] !in s
    ensures !Contains(s, t)
  {
    forall k | 0 <= k <= |s| ensures !OccursAt(s, t, k) {
      if k + |t| <= |s| {
        assert s[k..k + |t|][0] == s[k] && s[k] in s;
      }
    }
  }

  /** Python's `s.replace(c, '')` for one character. */
  function RemoveChar(s: string, c: char): (r: string)
    ensures c !in r
    ensures |r| <= |s|
    ensures c !in s ==> r == s
  {
    if s == [] then []
    else (if s[0] == c then [] else [s[0]]) + RemoveChar(s[1..], c)
  }

  /** Removing a character from a concatenation removes it from each part. */
  lemma {:induction false} RemoveCharConcat(a: string, b: string, c: char)
    ensures RemoveChar(a + b, c) == RemoveChar(a, c) + RemoveChar(b, c)
    decreases |a|
  {
    if a != [] {
      assert (a + b)[1..] == a[1..] + b;
      RemoveCharConcat(a[1..], b, c);
    } else {
      assert a + b == b;
    }
  }

  /** An occurrence of the removed character makes no difference. */
  lemma RemoveCharSkips(a: string, b: string, c: char)
    ensures RemoveChar(a + [c] + b, c) == RemoveChar(a + b, c)
  {
    assert RemoveChar([c], c) == [] by {
      assert [c][1..] == [];
    }
    calc {
      RemoveChar(a + [c] + b, c);
      == { RemoveCharConcat(a + [c], b, c); }
      RemoveChar(a + [c], c) + RemoveChar(b, c);
      == { RemoveCharConcat(a, [c], c); }
      RemoveChar(a, c) + RemoveChar([c], c) + RemoveChar(b, c);
      ==
      RemoveChar(a, c) + RemoveChar(b, c);
      == { RemoveCharConcat(a, b, c); }
      RemoveChar(a + b, c);
    }
  }
}
