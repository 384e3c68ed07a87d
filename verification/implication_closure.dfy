/** `compute_transitive_implications`: the implication lists are extended,
    round after round, by the lists of the tags they imply, until a round
    adds nothing. Each round reads a snapshot of the previous round, so a
    round is a pure function of the map and the visiting order of the keys
    does not matter. */
module ImplicationClosure {
  import opened TagMaps

  /** The elements at or after position `n` are new: none equals an element
      before it. */
  ghost predicate FreshFrom(xs: seq<string>, n: int) {
    forall i, j :: 0 <= i < j < |xs| && n <= j ==> xs[i] != xs[j]
  }

  /** The innermost loop: pushes each of `ts` not already in the list. */
  function AddMissing(acc: seq<string>, ts: seq<string>): (r: seq<string>)
    ensures acc <= r
    ensures forall x :: x in r <==> x in acc || x in ts
    ensures FreshFrom(r, |acc|)
    decreases |ts|
  {
    if |ts| == 0 then acc
    else
      var next := if ts[0] in acc then acc else acc + [ts[0]];
      var r := AddMissing(next, ts[1..]);
      assert forall x :: x in ts <==> x == ts[0] || x in ts[1..];
      assert FreshFrom(next, |acc|);
      FreshChain(r, |acc|, |next|);
      r
  }

  lemma FreshChain(r: seq<string>, n: int, m: int)
    requires 0 <= n <= m <= |r|
    requires FreshFrom(r[..m], n) && FreshFrom(r, m)
    ensures FreshFrom(r, n)
  {
    forall i, j | 0 <= i < j < |r| && n <= j ensures r[i] != r[j] {
      if j < m {
        assert r[i] == r[..m][i] && r[j] == r[..m][j];
      }
    }
  }

  /** One tag's list after a round: for each implied tag, in list order,
      add what the snapshot `before` says that tag implies. */
  function Extend(acc: seq<string>, todo: seq<string>, before: Implications): (r: seq<string>)
    ensures acc <= r
    ensures forall y :: y in r <==> y in acc || exists x :: x in todo && y in Entries(before, x)
    ensures FreshFrom(r, |acc|)
    decreases |todo|
  {
    if |todo| == 0 then acc
    else
      var next := AddMissing(acc, Entries(before, todo[0]));
      var r := Extend(next, todo[1..], before);
      assert forall x :: x in todo <==> x == todo[0] || x in todo[1..];
      assert r[..|next|] == next;
      FreshChain(r, |acc|, |next|);
      r
  }

  /** One pass of the `while has_changed` loop. */
  function Round(imps: Implications): (r: Implications)
    ensures r.Keys == imps.Keys
    ensures forall t :: t in imps ==> imps[t] <= r[t] && FreshFrom(r[t], |imps[t]|)
    ensures forall t, y :: t in imps ==>
              (y in r[t] <==> y in imps[t] || exists x :: x in imps[t] && y in Entries(imps, x))
  {
    map t | t in imps :: Extend(imps[t], imps[t], imps)
  }

  /** A chain of implications from `p[0]` to its last element. */
  ghost predicate IsPath(imps: Implications, p: seq<string>) {
    |p| >= 2 && forall i :: 0 <= i < |p| - 1 ==> p[i] in imps && p[i + 1] in imps[p[i]]
  }

  /** `v` follows from `t` by one or more implications. */
  ghost predicate Reaches(imps: Implications, t: string, v: string) {
    exists p :: IsPath(imps, p) && p[0] == t && p[|p| - 1] == v
  }

  lemma EdgeReaches(imps: Implications, t: string, v: string)
    requires t in imps && v in imps[t]
    ensures Reaches(imps, t, v)
  {
    assert IsPath(imps, [t, v]);
  }

  lemma ReachesTrans(imps: Implications, t: string, u: string, v: string)
    requires Reaches(imps, t, u) && Reaches(imps, u, v)
    ensures Reaches(imps, t, v)
  {
    var p :| IsPath(imps, p) && p[0] == t && p[|p| - 1] == u;
    var q :| IsPath(imps, q) && q[0] == u && q[|q| - 1] == v;
    var pq := p + q[1..];
    forall i | 0 <= i < |pq| - 1 ensures pq[i] in imps && pq[i + 1] in imps[pq[i]] {
      if i < |p| - 1 {
      } else {
        assert pq[i] == q[i - |p| + 1] && pq[i + 1] == q[i - |p| + 2];
      }
    }
    assert IsPath(imps, pq);
  }

  /** What one round adds was already reachable. */
  lemma RoundReaches(imps: Implications, t: string, v: string)
    requires t in imps && v in Round(imps)[t]
    ensures Reaches(imps, t, v)
  {
    if v in imps[t] {
      EdgeReaches(imps, t, v);
    } else {
      var x :| x in imps[t] && v in Entries(imps, x);
      EdgeReaches(imps, t, x);
      EdgeReaches(imps, x, v);
      ReachesTrans(imps, t, x, v);
    }
  }

  /** A chain starts with an implication and, past it, is still a chain. */
  lemma PathStep(imps: Implications, p: seq<string>)
    requires IsPath(imps, p)
    ensures p[0] in imps && p[1] in imps[p[0]]
    ensures |p| > 2 ==> IsPath(imps, p[1..])
  {
    if |p| > 2 {
      forall i | 0 <= i < |p| - 2 ensures p[1..][i] in imps && p[1..][i + 1] in imps[p[1..][i]] {
        assert p[1..][i] == p[i + 1] && p[1..][i + 1] == p[i + 2];
      }
    }
  }

  /** Every implication of `r` is a chain of implications in `imps`. */
  ghost predicate EdgesReach(imps: Implications, r: Implications) {
    forall t, v :: t in r && v in r[t] ==> Reaches(imps, t, v)
  }

  /** A chain through a map whose every implication is a chain in `imps`
      is a chain in `imps`. */
  lemma {:induction false} PathReaches(imps: Implications, r: Implications, p: seq<string>)
    requires EdgesReach(imps, r) && IsPath(r, p)
    ensures Reaches(imps, p[0], p[|p| - 1])
    decreases |p|
  {
    PathStep(r, p);
    if |p| > 2 {
      var q := p[1..];
      PathReaches(imps, r, q);
      assert q[0] == p[1] && q[|q| - 1] == p[|p| - 1];
      ReachesTrans(imps, p[0], p[1], p[|p| - 1]);
    }
  }

  /** A chain through the rounded map is a chain through the original. */
  lemma RoundPathReaches(imps: Implications, p: seq<string>)
    requires IsPath(Round(imps), p)
    ensures Reaches(imps, p[0], p[|p| - 1])
  {
    var r := Round(imps);
    forall t, v | t in r && v in r[t] ensures Reaches(imps, t, v) {
      RoundReaches(imps, t, v);
    }
    PathReaches(imps, r, p);
  }

  /** Every implied tag of every list. */
  function Universe(imps: Implications): set<string> {
    set t, x | t in imps && x in imps[t] :: x
  }

  /** The (tag, implied tag) pairs of the map. */
  function Pairs(imps: Implications): set<(string, string)> {
    set t, x | t in imps && x in imps[t] :: (t, x)
  }

  /** Every pair the keys and the universe could form; it bounds `Pairs`. */
  function Grid(imps: Implications): set<(string, string)> {
    set t, x | t in imps && x in Universe(imps) :: (t, x)
  }

  /** A round only repeats tags the map already implies. */
  lemma RoundSameUniverse(imps: Implications)
    ensures Universe(Round(imps)) == Universe(imps)
  {
    var r := Round(imps);
    forall y | y in Universe(r) ensures y in Universe(imps) {
      var t :| t in r && y in r[t];
      if y !in imps[t] {
        var x :| x in imps[t] && y in Entries(imps, x);
      }
    }
    forall y | y in Universe(imps) ensures y in Universe(r) {
      var t :| t in imps && y in imps[t];
      assert y in r[t];
    }
  }

  /** A round keeps every pair. */
  lemma RoundKeepsPairs(imps: Implications)
    ensures Pairs(imps) <= Pairs(Round(imps))
  {
    var r := Round(imps);
    forall pr | pr in Pairs(imps) ensures pr in Pairs(r) {
      assert pr.1 in r[pr.0];
    }
  }

  /** A round that changes the map appends a tag some list lacked. */
  lemma RoundNewPair(imps: Implications) returns (t: string, y: string)
    requires Round(imps) != imps
    ensures t in imps && y in Round(imps)[t] && y !in imps[t]
  {
    var r := Round(imps);
    t :| t in imps && r[t] != imps[t];
    y := r[t][|imps[t]|];
    forall i | 0 <= i < |imps[t]| ensures imps[t][i] != y {
      assert imps[t][i] == r[t][i];
    }
  }

  /** The pairs of any map lie in its grid. */
  lemma PairsInGrid(imps: Implications)
    ensures Pairs(imps) <= Grid(imps)
  {
  }

  /** A round that changes the map adds a pair and stays within the grid. */
  lemma RoundGrows(imps: Implications)
    requires Round(imps) != imps
    ensures Grid(Round(imps)) == Grid(imps)
    ensures Pairs(imps) < Pairs(Round(imps)) <= Grid(imps)
  {
    var r := Round(imps);
    RoundSameUniverse(imps);
    RoundKeepsPairs(imps);
    var t, y := RoundNewPair(imps);
    assert (t, y) in Pairs(r) - Pairs(imps);
    PairsInGrid(r);
  }

  /** The measure of the loop drops when the pairs grow within the grid. */
  lemma Shrinks(a: set<(string, string)>, b: set<(string, string)>, g: set<(string, string)>)
    requires a < b <= g
    ensures |g| - |b| < |g| - |a|
    ensures |b| <= |g|
  {
    assert b == a + (b - a);
    assert g == b + (g - b);
    assert (b - a) != {};
  }

  /** The whole `while has_changed` loop. */
  function Closure(imps: Implications): (r: Implications)
    ensures r.Keys == imps.Keys
    ensures forall t :: t in imps ==> imps[t] <= r[t] && FreshFrom(r[t], |imps[t]|)
    ensures Round(r) == r
    ensures forall t, v :: t in r && v in r[t] ==> Reaches(imps, t, v)
    decreases |Grid(imps)| - |Pairs(imps)|
  {
    var next := Round(imps);
    if next == imps then
      forall t, v | t in imps && v in imps[t] ensures Reaches(imps, t, v) {
        EdgeReaches(imps, t, v);
      }
      imps
    else
      RoundGrows(imps);
      Shrinks(Pairs(imps), Pairs(next), Grid(imps));
      var r := Closure(next);
      ClosureStep(imps, r);
      r
  }

  /** Closing the rounded map keeps what closing the map itself promises. */
  lemma ClosureStep(imps: Implications, r: Implications)
    requires r.Keys == imps.Keys
    requires forall t :: t in imps ==> Round(imps)[t] <= r[t] && FreshFrom(r[t], |Round(imps)[t]|)
    requires forall t, v :: t in r && v in r[t] ==> Reaches(Round(imps), t, v)
    ensures forall t :: t in imps ==> imps[t] <= r[t] && FreshFrom(r[t], |imps[t]|)
    ensures forall t, v :: t in r && v in r[t] ==> Reaches(imps, t, v)
  {
    var next := Round(imps);
    forall t | t in imps ensures imps[t] <= r[t] && FreshFrom(r[t], |imps[t]|) {
      assert r[t][..|next[t]|] == next[t];
      FreshChain(r[t], |imps[t]|, |next[t]|);
    }
    forall t, v | t in r && v in r[t] ensures Reaches(imps, t, v) {
      var p :| IsPath(next, p) && p[0] == t && p[|p| - 1] == v;
      RoundPathReaches(imps, p);
    }
  }

  /** Transitively closed: whatever an implied tag implies is implied. */
  ghost predicate Transitive(imps: Implications) {
    forall t, u, v :: t in imps && u in imps[t] && u in imps && v in imps[u] ==> v in imps[t]
  }

  /** A map a round leaves unchanged is transitively closed. */
  lemma FixpointTransitive(imps: Implications)
    requires Round(imps) == imps
    ensures Transitive(imps)
  {
    forall t, u, v | t in imps && u in imps[t] && u in imps && v in imps[u] ensures v in imps[t] {
      assert v in Round(imps)[t];
    }
  }

  /** The closure holds exactly the tags reachable through implications. */
  lemma ClosureExact(imps: Implications, t: string, v: string)
    requires t in imps
    ensures v in Closure(imps)[t] <==> Reaches(imps, t, v)
  {
    var r := Closure(imps);
    if Reaches(imps, t, v) {
      var p :| IsPath(imps, p) && p[0] == t && p[|p| - 1] == v;
      FixpointTransitive(r);
      PathInClosed(imps, r, p);
    }
  }

  lemma {:induction false} PathInClosed(imps: Implications, r: Implications, p: seq<string>)
    requires IsPath(imps, p)
    requires r.Keys == imps.Keys && Transitive(r)
    requires forall t :: t in imps ==> imps[t] <= r[t]
    ensures p[|p| - 1] in r[p[0]]
    decreases |p|
  {
    assert p[1] in imps[p[0]];
    if |p| > 2 {
      assert IsPath(imps, p[1..]);
      PathInClosed(imps, r, p[1..]);
      assert p[1] in r;
    }
  }
}
