/** Rust's `Ord` on `String` (lexicographic by code point, which for UTF-8
    coincides with byte order) and the `sorted().dedup()` idiom built on it. */
module Ordering {

  /** `a` sorts strictly before `b`. */
  predicate Less(a: string, b: string)
    decreases |a|
  {
    if |a| == 0 then |b| > 0
    else if |b| == 0 then false
    else if a[0] != b[0] then a[0] < b[0]
    else Less(a[1..], b[1..])
  }

  lemma {:induction false} LessIrreflexive(a: string)
    ensures !Less(a, a)
    decreases |a|
  {
    if |a| > 0 { LessIrreflexive(a[1..]); }
  }

  lemma {:induction false} LessTransitive(a: string, b: string, c: string)
    requires Less(a, b) && Less(b, c)
    ensures Less(a, c)
    decreases |a|
  {
    if |a| > 0 && |b| > 0 && |c| > 0 && a[0] == b[0] && b[0] == c[0] {
      LessTransitive(a[1..], b[1..], c[1..]);
    }
  }

  lemma {:induction false} LessTotal(a: string, b: string)
    ensures a == b || Less(a, b) || Less(b, a)
    decreases |a|
  {
    if |a| > 0 && |b| > 0 && a[0] == b[0] {
      LessTotal(a[1..], b[1..]);
      if a[1..] == b[1..] {
        assert a == [a[0]] + a[1..] && b == [b[0]] + b[1..];
      }
    }
  }

  lemma LessAsymmetric(a: string, b: string)
    requires Less(a, b)
    ensures !Less(b, a)
  {
    if Less(b, a) {
      LessTransitive(a, b, a);
      LessIrreflexive(a);
    }
  }

  /** Sorted ascending with no duplicates. */
  predicate StrictlySorted(xs: seq<string>) {
    forall i, j :: 0 <= i < j < |xs| ==> Less(xs[i], xs[j])
  }

  lemma SortedHeadBelowAll(a: string, xs: seq<string>)
    requires StrictlySorted(xs) && |xs| > 0 && Less(a, xs[0])
    ensures forall j :: 0 <= j < |xs| ==> Less(a, xs[j])
  {
    forall j | 0 < j < |xs| { LessTransitive(a, xs[0], xs[j]); }
  }

  lemma ConsSorted(a: string, xs: seq<string>)
    requires StrictlySorted(xs)
    requires forall y :: y in xs ==> Less(a, y)
    ensures StrictlySorted([a] + xs)
  {
    var r := [a] + xs;
    forall i, j | 0 <= i < j < |r| ensures Less(r[i], r[j]) {
      if i > 0 {
        assert r[i] == xs[i - 1] && r[j] == xs[j - 1];
      } else {
        assert r[j] == xs[j - 1];
      }
    }
  }

  /** Inserts `x` into a strictly sorted list unless it is already there. */
  function InsertSorted(x: string, xs: seq<string>): (r: seq<string>)
    requires StrictlySorted(xs)
    ensures StrictlySorted(r)
    ensures forall y :: y in r <==> y == x || y in xs
    ensures |r| <= |xs| + 1
    decreases |xs|
  {
    if |xs| == 0 then [x]
    else if x == xs[0] then xs
    else if Less(x, xs[0]) then
      SortedHeadBelowAll(x, xs);
      ConsSorted(x, xs);
      [x] + xs
    else
      LessTotal(x, xs[0]);
      var rest := InsertSorted(x, xs[1..]);
      assert forall y :: y in xs[1..] ==> Less(xs[0], y) by {
        forall y | y in xs[1..] ensures Less(xs[0], y) {
          var k :| 0 <= k < |xs[1..]| && xs[1..][k] == y;
          assert y == xs[k + 1];
        }
      }
      ConsSorted(xs[0], rest);
      assert xs == [xs[0]] + xs[1..];
      [xs[0]] + rest
  }

  /** Rust `iter().sorted().dedup()` on strings: the distinct elements in
      ascending order. */
  function SortDedup(xs: seq<string>): (r: seq<string>)
    ensures StrictlySorted(r)
    ensures forall y :: y in r <==> y in xs
    ensures |r| <= |xs|
    decreases |xs|
  {
    if |xs| == 0 then []
    else
      assert xs == [xs[0]] + xs[1..];
      InsertSorted(xs[0], SortDedup(xs[1..]))
  }

  /** A strictly sorted list is determined by its elements. */
  lemma {:induction false} SortedUnique(a: seq<string>, b: seq<string>)
    requires StrictlySorted(a) && StrictlySorted(b)
    requires forall y :: y in a <==> y in b
    ensures a == b
    decreases |a|
  {
    if |a| > 0 { assert a[0] in a; }
    if |b| > 0 { assert b[0] in b; }
    if |a| > 0 && |b| > 0 {
      if a[0] != b[0] {
        assert a[0] in b;
        assert b[0] in a;
        var i :| 0 <= i < |b| && b[i] == a[0];
        var j :| 0 <= j < |a| && a[j] == b[0];
        assert i > 0 && j > 0;
        LessAsymmetric(b[0], b[i]);
        assert false;
      }
      forall y ensures y in a[1..] <==> y in b[1..] {
        if y in a[1..] {
          var k :| 1 <= k < |a| && a[k] == y;
          assert Less(a[0], y);
          LessIrreflexive(y);
          assert y in b && y != b[0];
          var m :| 0 <= m < |b| && b[m] == y;
          assert m > 0;
        }
        if y in b[1..] {
          var k :| 1 <= k < |b| && b[k] == y;
          assert Less(b[0], y);
          LessIrreflexive(y);
          assert y in a && y != a[0];
          var m :| 0 <= m < |a| && a[m] == y;
          assert m > 0;
        }
      }
      SortedUnique(a[1..], b[1..]);
      assert a == [a[0]] + a[1..] && b == [b[0]] + b[1..];
    }
  }
}
