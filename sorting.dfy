/** Python's ordering of `str` values (lexicographic by code point) and the two uses the
    bot makes of it: `sorted(xs)` and `sorted(list(set(xs)))`. */
module Sorting {

  /** `a <= b` on Python strings. */
  predicate LexLe(a: string, b: string)
    decreases |a|
  {
    |a| == 0 || (|b| > 0 && (a[0] < b[0] || (a[0] == b[0] && LexLe(a[1..], b[1..]))))
  }

  lemma {:induction false} LexLeTotal(a: string, b: string)
    ensures LexLe(a, b) || LexLe(b, a)
    decreases |a|
  {
    if |a| > 0 && |b| > 0 && a[0] == b[0] {
      LexLeTotal(a[1..], b[1..]);
    }
  }

  lemma {:induction false} LexLeReflexive(a: string)
    ensures LexLe(a, a)
    decreases |a|
  {
    if |a| > 0 {
      LexLeReflexive(a[1..]);
    }
  }

  lemma {:induction false} LexLeAntisymmetric(a: string, b: string)
    requires LexLe(a, b) && LexLe(b, a)
    ensures a == b
    decreases |a|
  {
    if |a| > 0 {
      LexLeAntisymmetric(a[1..], b[1..]);
      assert a == [a[0]] + a[1..] && b == [b[0]] + b[1..];
    }
  }

  lemma {:induction false} LexLeTransitive(a: string, b: string, c: string)
    requires LexLe(a, b) && LexLe(b, c)
    ensures LexLe(a, c)
    decreases |a|
  {
    if |a| > 0 && a[0] == b[0] && b[0] == c[0] {
      LexLeTransitive(a[1..], b[1..], c[1..]);
    }
  }

  /** Ascending, as `sorted` leaves a list. */
  predicate Sorted(s: seq<string>)
  {
    forall i, j :: 0 <= i < j < |s| ==> LexLe(s[i], s[j])
  }

  /** Ascending without repetition, as `sorted(list(set(xs)))` leaves a list. */
  predicate StrictlySorted(s: seq<string>)
  {
    forall i, j :: 0 <= i < j < |s| ==> LexLe(s[i], s[j]) && s[i] != s[j]
  }

  /** Whatever is at most the head of a sorted list is at most every element of it. */
  lemma BelowHead(x: string, s: seq<string>)
    requires Sorted(s) && |s| > 0 && LexLe(x, s[0])
    ensures forall j :: 0 <= j < |s| ==> LexLe(x, s[j])
  {
    forall j | 0 <= j < |s| ensures LexLe(x, s[j]) {
      if j > 0 { LexLeTransitive(x, s[0], s[j]); }
    }
  }

  /** Whatever is strictly below the head of a strictly sorted list is strictly below
      every element of it. */
  lemma BelowHeadStrict(x: string, s: seq<string>)
    requires StrictlySorted(s) && |s| > 0 && LexLe(x, s[0]) && x != s[0]
    ensures forall j :: 0 <= j < |s| ==> LexLe(x, s[j]) && x != s[j]
  {
    forall j | 0 < j < |s| ensures LexLe(x, s[j]) && x != s[j] {
      LexLeTransitive(x, s[0], s[j]);
      if x == s[j] {
        LexLeAntisymmetric(x, s[0]);
      }
    }
  }

  /** `h` below every element of `s` and of `x` is below every element of `r`, when `r`
      holds exactly the elements of `s` and `x`. */
  lemma BelowAll(h: string, x: string, s: seq<string>, r: seq<string>)
    requires forall y :: y in r ==> y in s || y == x
    requires LexLe(h, x) && forall j :: 0 <= j < |s| ==> LexLe(h, s[j])
    ensures forall j :: 0 <= j < |r| ==> LexLe(h, r[j])
  {
    forall j | 0 <= j < |r| ensures LexLe(h, r[j]) {
      if r[j] != x {
        assert r[j] in s;
        var k :| 0 <= k < |s| && s[k] == r[j];
      }
    }
  }

  /** One step of insertion sort. */
  function Insert(x: string, s: seq<string>): (r: seq<string>)
    requires Sorted(s)
    ensures Sorted(r)
    ensures multiset(r) == multiset(s) + multiset{x}
    ensures forall y :: y in r <==> y in s || y == x
  {
    if |s| == 0 then [x]
    else if LexLe(x, s[0]) then
      BelowHead(x, s);
      [x] + s
    else
      LexLeTotal(x, s[0]);
      var rest := Insert(x, s[1..]);
      assert forall j :: 0 <= j < |s| - 1 ==> LexLe(s[0], s[1..][j]);
      BelowAll(s[0], x, s[1..], rest);
      assert s == [s[0]] + s[1..];
      [s[0]] + rest
  }

  /** Python's `sorted(xs)`: the same elements, as many times each, in ascending order. */
  function Sort(xs: seq<string>): (r: seq<string>)
    ensures Sorted(r)
    ensures multiset(r) == multiset(xs)
  {
    if |xs| == 0 then []
    else
      assert xs == [xs[0]] + xs[1..];
      Insert(xs[0], Sort(xs[1..]))
  }

  /** One step of building `sorted(set(xs))`: add `x` unless it is already there. */
  function InsertNew(x: string, s: seq<string>): (r: seq<string>)
    requires StrictlySorted(s)
    ensures StrictlySorted(r)
    ensures forall y :: y in r <==> y in s || y == x
  {
    if |s| == 0 then [x]
    else if x == s[0] then s
    else if LexLe(x, s[0]) then
      BelowHeadStrict(x, s);
      [x] + s
    else
      LexLeTotal(x, s[0]);
      var rest := InsertNew(x, s[1..]);
      assert forall j :: 0 <= j < |s| - 1 ==> LexLe(s[0], s[1..][j]);
      BelowAll(s[0], x, s[1..], rest);
      assert s[0] !in s[1..];
      [s[0]] + rest
  }

  /** Python's `sorted(list(set(xs)))`: each distinct element once, ascending. */
  function SortedSet(xs: seq<string>): (r: seq<string>)
    ensures StrictlySorted(r)
    ensures forall y :: y in r <==> y in xs
  {
    if |xs| == 0 then []
    else InsertNew(xs[0], SortedSet(xs[1..]))
  }

  /** A strictly ascending list is determined by its elements, so `SortedSet` is the only
      list that `sorted(list(set(xs)))` can be. */
  lemma {:induction false} StrictlySortedUnique(a: seq<string>, b: seq<string>)
    requires StrictlySorted(a) && StrictlySorted(b)
    requires forall y :: y in a <==> y in b
    ensures a == b
    decreases |a|
  {
    if |a| > 0 { assert a[0] in b; }
    if |b| > 0 { assert b[0] in a; }
    if |a| > 0 {
      var i :| 0 <= i < |a| && a[i] == b[0];
      var j :| 0 <= j < |b| && b[j] == a[0];
      LexLeReflexive(a[0]);
      assert LexLe(a[0], b[0]) by { if i > 0 { assert LexLe(a[0], a[i]); } }
      assert LexLe(b[0], a[0]) by { if j > 0 { assert LexLe(b[0], b[j]); } }
      LexLeAntisymmetric(a[0], b[0]);
      forall y ensures y in a[1..] <==> y in b[1..] {
        if y in a[1..] {
          var k :| 1 <= k < |a| && a[k] == y;
          assert y in b;
          var m :| 0 <= m < |b| && b[m] == y;
          assert m != 0;
          assert b[1..][m - 1] == y;
        }
        if y in b[1..] {
          var k :| 1 <= k < |b| && b[k] == y;
          assert y in a;
          var m :| 0 <= m < |a| && a[m] == y;
          assert m != 0;
          assert a[1..][m - 1] == y;
        }
      }
      StrictlySortedUnique(a[1..], b[1..]);
      assert a == [a[0]] + a[1..] && b == [b[0]] + b[1..];
    }
  }
}
