/**
 * The comparison the client's sort uses and the stable sort itself.
 *
 * A sort key is a number or a string; a missing key (`null`/`undefined`)
 * is replaced by the empty value and so sorts below every present key.
 * `Array.prototype.sort` is stable, so the order it produces is the unique
 * key-ordered arrangement that keeps equal keys in input order: the one
 * built here by insertion.
 */
module Sorting {

  datatype SortValue = Null | Num(n: real) | Str(s: string)

  /** JavaScript `<` on two strings: lexicographic by character code. */
  predicate StrLess(a: string, b: string) {
    if a == [] then b != []
    else if b == [] then false
    else a[0] < b[0] || (a[0] == b[0] && StrLess(a[1..], b[1..]))
  }

  /** The strict order on keys: `Null` below everything, numbers by value, strings lexicographically. */
  predicate Less(a: SortValue, b: SortValue) {
    match (a, b)
    case (Null, Null) => false
    case (Null, _) => true
    case (_, Null) => false
    case (Num(x), Num(y)) => x < y
    case (Num(_), Str(_)) => true
    case (Str(_), Num(_)) => false
    case (Str(x), Str(y)) => StrLess(x, y)
  }

  lemma {:induction false} StrLessTrichotomy(a: string, b: string)
    ensures a == b || StrLess(a, b) || StrLess(b, a)
    ensures !(StrLess(a, b) && StrLess(b, a))
    ensures !StrLess(a, a)
  {
    if a != [] && b != [] {
      StrLessTrichotomy(a[1..], b[1..]);
      if a[0] == b[0] && a[1..] == b[1..] {
        assert a == [a[0]] + a[1..];
        assert b == [b[0]] + b[1..];
      }
    }
    if a != [] {
      StrLessTrichotomy(a[1..], a[1..]);
    }
  }

  lemma {:induction false} StrLessTransitive(a: string, b: string, c: string)
    requires StrLess(a, b) && StrLess(b, c)
    ensures StrLess(a, c)
  {
    if a != [] && b != [] && c != [] && a[0] == b[0] == c[0] {
      StrLessTransitive(a[1..], b[1..], c[1..]);
    }
  }

  /** `Less` is a strict total order on keys. */
  lemma LessTotalOrder(a: SortValue, b: SortValue, c: SortValue)
    ensures !Less(a, a)
    ensures a == b || Less(a, b) || Less(b, a)
    ensures Less(a, b) ==> !Less(b, a)
    ensures Less(a, b) && Less(b, c) ==> Less(a, c)
  {
    if a.Str? { StrLessTrichotomy(a.s, a.s); }
    if a.Str? && b.Str? { StrLessTrichotomy(a.s, b.s); }
    if a.Str? && b.Str? && c.Str? && StrLess(a.s, b.s) && StrLess(b.s, c.s) {
      StrLessTransitive(a.s, b.s, c.s);
    }
  }

  /** `a` is placed strictly before `b` by the comparator in the given direction. */
  predicate Before(a: SortValue, b: SortValue, descending: bool) {
    if descending then Less(b, a) else Less(a, b)
  }

  /** If `a` must precede `c`, then any `b` must come after `a` or before `c`. */
  lemma BeforeSplits(a: SortValue, b: SortValue, c: SortValue, descending: bool)
    requires Before(a, c, descending)
    ensures Before(a, b, descending) || Before(b, c, descending)
  {
    LessTotalOrder(a, b, c);
    LessTotalOrder(c, b, a);
    LessTotalOrder(b, a, c);
    LessTotalOrder(b, c, a);
  }

  lemma BeforeAsymmetric(a: SortValue, b: SortValue, descending: bool)
    requires Before(a, b, descending)
    ensures !Before(b, a, descending)
  {
    LessTotalOrder(a, b, a);
    LessTotalOrder(b, a, b);
  }

  /** No element is placed strictly before an element to its left. */
  ghost predicate SortedBy<T>(s: seq<T>, key: T -> SortValue, descending: bool) {
    forall i, j :: 0 <= i < j < |s| ==> !Before(key(s[j]), key(s[i]), descending)
  }

  /** Inserts `x` before the first element it need not follow. */
  function Insert<T>(x: T, s: seq<T>, key: T -> SortValue, descending: bool): (r: seq<T>)
    ensures multiset(r) == multiset(s) + multiset{x}
    ensures |r| == |s| + 1
  {
    if s == [] then [x]
    else if Before(key(s[0]), key(x), descending) then
      assert s == [s[0]] + s[1..];
      [s[0]] + Insert(x, s[1..], key, descending)
    else [x] + s
  }

  /** The stable sort of `s` by `key` in the given direction. */
  function SortBy<T>(s: seq<T>, key: T -> SortValue, descending: bool): (r: seq<T>)
    ensures multiset(r) == multiset(s)
    ensures |r| == |s|
  {
    if s == [] then []
    else
      assert s == [s[0]] + s[1..];
      Insert(s[0], SortBy(s[1..], key, descending), key, descending)
  }

  lemma {:induction false} InsertSorted<T>(x: T, s: seq<T>, key: T -> SortValue, descending: bool)
    requires SortedBy(s, key, descending)
    ensures SortedBy(Insert(x, s, key, descending), key, descending)
  {
    var r := Insert(x, s, key, descending);
    if s == [] {
    } else if Before(key(s[0]), key(x), descending) {
      var rest := Insert(x, s[1..], key, descending);
      InsertSorted(x, s[1..], key, descending);
      forall j | 0 < j < |r|
        ensures !Before(key(r[j]), key(r[0]), descending)
      {
        assert r[j] in multiset(rest);
        assert r[j] in multiset(s[1..]) + multiset{x};
        if r[j] == x {
          BeforeAsymmetric(key(s[0]), key(x), descending);
        } else {
          assert r[j] in s[1..];
          var k :| 0 <= k < |s[1..]| && s[1..][k] == r[j];
          assert s[k + 1] == r[j];
        }
      }
    } else {
      forall j | 0 < j < |r|
        ensures !Before(key(r[j]), key(r[0]), descending)
      {
        assert r[j] == s[j - 1];
        if Before(key(r[j]), key(x), descending) {
          BeforeSplits(key(r[j]), key(s[0]), key(x), descending);
        }
      }
    }
  }

  /** The sort orders its result. */
  lemma {:induction false} SortByIsSorted<T>(s: seq<T>, key: T -> SortValue, descending: bool)
    ensures SortedBy(SortBy(s, key, descending), key, descending)
  {
    if s != [] {
      SortByIsSorted(s[1..], key, descending);
      InsertSorted(s[0], SortBy(s[1..], key, descending), key, descending);
    }
  }

  /** Inserting an element that need not follow any element of `s` puts it in front. */
  lemma InsertFront<T>(x: T, s: seq<T>, key: T -> SortValue, descending: bool)
    requires s == [] || !Before(key(s[0]), key(x), descending)
    ensures Insert(x, s, key, descending) == [x] + s
  {
  }

  /** Sorting an already sorted sequence leaves it exactly as it is (ties keep their order). */
  lemma {:induction false} SortBySortedIsIdentity<T>(s: seq<T>, key: T -> SortValue, descending: bool)
    requires SortedBy(s, key, descending)
    ensures SortBy(s, key, descending) == s
  {
    if s != [] {
      assert SortedBy(s[1..], key, descending) by {
        forall i, j | 0 <= i < j < |s[1..]|
          ensures !Before(key(s[1..][j]), key(s[1..][i]), descending)
        {
          assert s[1..][j] == s[j + 1] && s[1..][i] == s[i + 1];
        }
      }
      SortBySortedIsIdentity(s[1..], key, descending);
      if |s| > 1 {
        assert !Before(key(s[1]), key(s[0]), descending);
      }
      InsertFront(s[0], s[1..], key, descending);
      assert s == [s[0]] + s[1..];
    }
  }

  /** Sorting twice by the same key and direction is sorting once. */
  lemma SortByIdempotent<T>(s: seq<T>, key: T -> SortValue, descending: bool)
    ensures SortBy(SortBy(s, key, descending), key, descending) == SortBy(s, key, descending)
  {
    SortByIsSorted(s, key, descending);
    SortBySortedIsIdentity(SortBy(s, key, descending), key, descending);
  }

  /** The elements of `s` whose key is `v`, in their order in `s`. */
  function WithKey<T>(s: seq<T>, key: T -> SortValue, v: SortValue): seq<T> {
    if s == [] then [] else (if key(s[0]) == v then [s[0]] else []) + WithKey(s[1..], key, v)
  }

  /** Insertion passes only elements with a different key, so `x` lands before every element with its key. */
  lemma {:induction false} InsertWithKey<T>(x: T, s: seq<T>, key: T -> SortValue, descending: bool, v: SortValue)
    ensures key(x) == v ==> WithKey(Insert(x, s, key, descending), key, v) == [x] + WithKey(s, key, v)
    ensures key(x) != v ==> WithKey(Insert(x, s, key, descending), key, v) == WithKey(s, key, v)
  {
    var r := Insert(x, s, key, descending);
    if s == [] {
      assert r == [x] && r[1..] == [];
    } else if Before(key(s[0]), key(x), descending) {
      var rest := Insert(x, s[1..], key, descending);
      assert r == [s[0]] + rest;
      assert r[0] == s[0] && r[1..] == rest;
      InsertWithKey(x, s[1..], key, descending, v);
      if key(x) == v {
        LessTotalOrder(key(x), key(x), key(x));
        assert WithKey(r, key, v) == WithKey(rest, key, v);
        assert WithKey(s, key, v) == WithKey(s[1..], key, v);
      } else if key(s[0]) == v {
        assert WithKey(r, key, v) == [s[0]] + WithKey(rest, key, v);
        assert WithKey(s, key, v) == [s[0]] + WithKey(s[1..], key, v);
      } else {
        assert WithKey(r, key, v) == WithKey(rest, key, v);
        assert WithKey(s, key, v) == WithKey(s[1..], key, v);
      }
    } else {
      assert r == [x] + s;
      assert r[0] == x && r[1..] == s;
    }
  }

  /** The sort is stable: for every key, the elements with that key keep their input order. */
  lemma {:induction false} SortByStable<T>(s: seq<T>, key: T -> SortValue, descending: bool, v: SortValue)
    ensures WithKey(SortBy(s, key, descending), key, v) == WithKey(s, key, v)
  {
    if s != [] {
      SortByStable(s[1..], key, descending, v);
      var sorted := SortBy(s[1..], key, descending);
      InsertWithKey(s[0], sorted, key, descending, v);
      if key(s[0]) == v {
        assert WithKey(s, key, v) == [s[0]] + WithKey(s[1..], key, v);
      } else {
        assert WithKey(s, key, v) == WithKey(s[1..], key, v);
      }
    }
  }}
