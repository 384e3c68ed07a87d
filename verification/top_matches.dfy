/** `TopMatches` of the older tree's sticker analysis: a bounded list of the
    `n` closest stickers seen so far, kept sorted by distance and then by
    sticker id. Distances are reals here; `f64` NaN and the sign of zero,
    which `total_cmp` distinguishes, are not modelled. */
module TopMatches {
  import opened Wrappers
  import opened Ordering

  datatype Match = Match(distance: real, stickerId: string)

  /** `Ord for Match`: by distance, then by sticker id. */
  predicate MatchLess(a: Match, b: Match) {
    a.distance < b.distance || (a.distance == b.distance && Less(a.stickerId, b.stickerId))
  }

  /** `a <= b` in that order. */
  predicate MatchLeq(a: Match, b: Match) {
    a == b || MatchLess(a, b)
  }

  lemma MatchLessTransitive(a: Match, b: Match, c: Match)
    requires MatchLess(a, b) && MatchLess(b, c)
    ensures MatchLess(a, c)
  {
    if a.distance == b.distance && b.distance == c.distance {
      LessTransitive(a.stickerId, b.stickerId, c.stickerId);
    }
  }

  lemma MatchLeqTransitive(a: Match, b: Match, c: Match)
    requires MatchLeq(a, b) && MatchLeq(b, c)
    ensures MatchLeq(a, c)
  {
    if a != b && b != c { MatchLessTransitive(a, b, c); }
  }

  /** The order is total: two different matches are always comparable. */
  lemma MatchTotal(a: Match, b: Match)
    ensures MatchLeq(a, b) || MatchLess(b, a)
  {
    if a.distance == b.distance {
      LessTotal(a.stickerId, b.stickerId);
    }
  }

  predicate Sorted(v: seq<Match>) {
    forall i, j :: 0 <= i < j < |v| ==> MatchLeq(v[i], v[j])
  }

  /** A match below every element of a sorted list may go in front. */
  lemma PrependSorted(x: Match, v: seq<Match>)
    requires Sorted(v) && forall j :: 0 <= j < |v| ==> MatchLeq(x, v[j])
    ensures Sorted([x] + v)
  {
    var w := [x] + v;
    forall i, j | 0 <= i < j < |w| ensures MatchLeq(w[i], w[j]) {
      assert w[j] == v[j - 1];
      if i > 0 { assert w[i] == v[i - 1]; }
    }
  }

  /** A bound on a list and on one more match bounds any rearrangement of
      the two. */
  lemma BelowAll(h: Match, m: Match, rest: seq<Match>, tail: seq<Match>)
    requires MatchLeq(h, m) && forall j :: 0 <= j < |rest| ==> MatchLeq(h, rest[j])
    requires multiset(tail) == multiset(rest) + multiset{m}
    ensures forall j :: 0 <= j < |tail| ==> MatchLeq(h, tail[j])
  {
    forall j | 0 <= j < |tail| ensures MatchLeq(h, tail[j]) {
      assert tail[j] in multiset(tail);
      if tail[j] != m {
        assert tail[j] in multiset(rest);
        var k :| 0 <= k < |rest| && rest[k] == tail[j];
      }
    }
  }

  /** `vec.push(m); vec.sort_unstable()` on a sorted vector: `m` placed
      before the first element not below it. */
  function Insert(m: Match, v: seq<Match>): (r: seq<Match>)
    requires Sorted(v)
    ensures Sorted(r)
    ensures multiset(r) == multiset(v) + multiset{m}
    ensures |r| == |v| + 1
  {
    if |v| == 0 then [m]
    else if MatchLeq(m, v[0]) then
      forall j | 0 <= j < |v| ensures MatchLeq(m, v[j]) {
        MatchLeqTransitive(m, v[0], v[j]);
      }
      PrependSorted(m, v);
      [m] + v
    else
      MatchTotal(m, v[0]);
      var rest := v[1..];
      assert forall j :: 0 <= j < |rest| ==> MatchLeq(v[0], rest[j]) by {
        forall j | 0 <= j < |rest| ensures MatchLeq(v[0], rest[j]) {
          assert rest[j] == v[j + 1];
        }
      }
      var tail := Insert(m, rest);
      BelowAll(v[0], m, rest, tail);
      PrependSorted(v[0], tail);
      assert v == [v[0]] + rest;
      [v[0]] + tail
  }

  /** The first `n` elements, or all of them when there are fewer. */
  function Take(n: nat, v: seq<Match>): (r: seq<Match>)
    ensures |r| <= n && r <= v
    ensures |v| <= n ==> r == v
  {
    if |v| <= n then v else v[..n]
  }

  /** The state: capacity, worst kept distance (`None` stands for
      `f64::INFINITY`), distance bound and the kept matches. */
  datatype TopMatches = TopMatches(n: nat, worstDistance: Option<real>, maxDistance: real, items: seq<Match>)

  /** `TopMatches::new`. */
  function New(n: nat, maxDistance: real): (t: TopMatches)
    ensures t.items == [] && t.n == n && t.maxDistance == maxDistance
    ensures Valid(t)
  {
    TopMatches(n, None, maxDistance, [])
  }

  /** What `push` keeps true: sorted, at most `n` long, within the bound,
      and `worst_distance` the last element's distance (infinite while
      empty). */
  predicate Valid(t: TopMatches) {
    && Sorted(t.items)
    && |t.items| <= t.n
    && (forall i :: 0 <= i < |t.items| ==> t.items[i].distance <= t.maxDistance)
    && (if |t.items| == 0 then t.worstDistance.None?
        else t.worstDistance == Some(t.items[|t.items| - 1].distance))
  }

  /** `distance > worst_distance` with an infinite worst never holds. */
  predicate AboveWorst(d: real, worst: Option<real>) {
    worst.Some? && d > worst.value
  }

  /** Cutting a sorted list within the bound keeps it sorted and within
      the bound. */
  lemma TakeWithin(n: nat, v: seq<Match>, items: seq<Match>, m: Match, bound: real)
    requires Sorted(v) && multiset(v) == multiset(items) + multiset{m}
    requires m.distance <= bound && forall i :: 0 <= i < |items| ==> items[i].distance <= bound
    ensures Sorted(Take(n, v))
    ensures forall i :: 0 <= i < |Take(n, v)| ==> Take(n, v)[i].distance <= bound
  {
    var kept := Take(n, v);
    forall i | 0 <= i < |kept| ensures kept[i].distance <= bound {
      assert kept[i] == v[i];
      assert v[i] in multiset(v);
      if v[i] != m {
        assert v[i] in multiset(items);
        var k :| 0 <= k < |items| && items[k] == v[i];
      }
    }
  }

  /** `TopMatches::push`. */
  function Push(t: TopMatches, distance: real, stickerId: string): (r: TopMatches)
    requires Valid(t)
    ensures Valid(r)
    ensures r.n == t.n && r.maxDistance == t.maxDistance
    ensures distance > t.maxDistance ==> r == t
    ensures distance <= t.maxDistance && |t.items| < t.n ==>
      multiset(r.items) == multiset(t.items) + multiset{Match(distance, stickerId)}
  {
    if distance > t.maxDistance || (|t.items| >= t.n && AboveWorst(distance, t.worstDistance)) then t
    else
      var v := Insert(Match(distance, stickerId), t.items);
      var kept := if |v| > t.n then v[..|v| - 1] else v;
      assert kept == Take(t.n, v);
      TakeWithin(t.n, v, t.items, Match(distance, stickerId), t.maxDistance);
      TopMatches(t.n, if |kept| > 0 then Some(kept[|kept| - 1].distance) else t.worstDistance,
                 t.maxDistance, kept)
  }

  /** `items`. */
  function Items(t: TopMatches): (r: seq<Match>)
    requires Valid(t)
    ensures Sorted(r) && |r| <= t.n
  {
    t.items
  }

  /** A sequence of pushes, applied from first to last. */
  function PushAll(t: TopMatches, ps: seq<Match>): (r: TopMatches)
    requires Valid(t)
    ensures Valid(r) && r.n == t.n && r.maxDistance == t.maxDistance
  {
    if |ps| == 0 then t
    else
      var p := ps[|ps| - 1];
      Push(PushAll(t, ps[..|ps| - 1]), p.distance, p.stickerId)
  }

  /** Reference definition: every pushed match within the bound, sorted. */
  function SortedEligible(ps: seq<Match>, maxDistance: real): (r: seq<Match>)
    ensures Sorted(r)
  {
    if |ps| == 0 then []
    else
      var p := ps[|ps| - 1];
      var prev := SortedEligible(ps[..|ps| - 1], maxDistance);
      if p.distance > maxDistance then prev else Insert(p, prev)
  }

  lemma TakeSorted(n: nat, s: seq<Match>)
    requires Sorted(s)
    ensures Sorted(Take(n, s))
  {
    forall i, j | 0 <= i < j < |Take(n, s)| ensures MatchLeq(Take(n, s)[i], Take(n, s)[j]) {
      assert Take(n, s)[i] == s[i] && Take(n, s)[j] == s[j];
    }
  }

  lemma InsertFront(m: Match, v: seq<Match>)
    requires Sorted(v) && |v| > 0 && MatchLeq(m, v[0])
    ensures Insert(m, v) == [m] + v
  {
  }

  lemma InsertLater(m: Match, v: seq<Match>)
    requires Sorted(v) && |v| > 0 && !MatchLeq(m, v[0])
    ensures Sorted(v[1..])
    ensures Insert(m, v) == [v[0]] + Insert(m, v[1..])
  {
  }

  /** `Take` of a sequence with a known head. */
  lemma TakeCons(n: nat, x: Match, v: seq<Match>)
    requires n > 0
    ensures Take(n, [x] + v) == [x] + Take(n - 1, v)
  {
  }

  /** Truncating before or after an insertion gives the same first `n`. */
  lemma {:induction false} TakeInsert(n: nat, m: Match, s: seq<Match>)
    requires Sorted(s)
    ensures Sorted(Take(n, s))
    ensures Take(n, Insert(m, Take(n, s))) == Take(n, Insert(m, s))
    decreases |s|
  {
    TakeSorted(n, s);
    if n == 0 || |s| <= n {
    } else if MatchLeq(m, s[0]) {
      InsertFront(m, s);
      InsertFront(m, Take(n, s));
      TakeCons(n, m, s);
      TakeCons(n, m, Take(n, s));
      assert Take(n - 1, Take(n, s)) == Take(n - 1, s);
    } else {
      var t := s[1..];
      assert s == [s[0]] + t;
      assert Take(n, s) == [s[0]] + Take(n - 1, t);
      InsertLater(m, s);
      InsertLater(m, Take(n, s));
      assert Take(n, s)[1..] == Take(n - 1, t);
      TakeInsert(n - 1, m, t);
      TakeCons(n, s[0], Insert(m, Take(n - 1, t)));
      TakeCons(n, s[0], Insert(m, t));
    }
  }

  /** Inserting a match above every element appends it. */
  lemma {:induction false} InsertAbove(m: Match, v: seq<Match>)
    requires Sorted(v)
    requires forall i :: 0 <= i < |v| ==> MatchLess(v[i], m)
    ensures Insert(m, v) == v + [m]
    decreases |v|
  {
    if |v| > 0 {
      assert !MatchLeq(m, v[0]) by {
        if MatchLeq(m, v[0]) {
          if m == v[0] { LessIrreflexive(m.stickerId); }
          else { MatchLessTransitive(m, v[0], m); LessIrreflexive(m.stickerId); }
        }
      }
      InsertAbove(m, v[1..]);
      assert v == [v[0]] + v[1..];
    }
  }

  /** A match above the `n`-th smallest leaves the first `n` unchanged. */
  lemma RejectAbove(n: nat, m: Match, s: seq<Match>)
    requires Sorted(s) && 0 < n <= |s|
    requires MatchLess(s[n - 1], m)
    ensures Take(n, Insert(m, s)) == Take(n, s)
  {
    TakeInsert(n, m, s);
    var k := Take(n, s);
    forall i | 0 <= i < |k| ensures MatchLess(k[i], m) {
      if i < n - 1 {
        assert MatchLeq(s[i], s[n - 1]);
        if s[i] != s[n - 1] { MatchLessTransitive(s[i], s[n - 1], m); }
      }
    }
    InsertAbove(m, k);
    assert (k + [m])[..n] == k;
  }

  /** After any sequence of pushes from `new(n, max)`, the kept matches are
      exactly the `n` smallest pushed matches within the bound, in order. */
  lemma {:induction false} KeepsSmallest(n: nat, maxDistance: real, ps: seq<Match>)
    ensures PushAll(New(n, maxDistance), ps).items == Take(n, SortedEligible(ps, maxDistance))
    decreases |ps|
  {
    if |ps| > 0 {
      var init := ps[..|ps| - 1];
      var p := ps[|ps| - 1];
      var t := PushAll(New(n, maxDistance), init);
      var s := SortedEligible(init, maxDistance);
      KeepsSmallest(n, maxDistance, init);
      assert t.items == Take(n, s);
      if p.distance <= maxDistance {
        TakeInsert(n, p, s);
        if |t.items| >= n && AboveWorst(p.distance, t.worstDistance) {
          assert MatchLess(s[n - 1], p);
          RejectAbove(n, p, s);
        } else {
          var v := Insert(p, t.items);
          assert Push(t, p.distance, p.stickerId).items == Take(n, v);
        }
      }
    }
  }

  /** Pushing a match above the bound changes nothing. */
  lemma IgnoresAboveBound(t: TopMatches, distance: real, stickerId: string)
    requires Valid(t) && distance > t.maxDistance
    ensures Push(t, distance, stickerId) == t
  {
  }
}
