/** `ScoredTagSuggestion::merge`, identical in both trees: concatenate two
    suggestion lists, group them by tag (after a stable sort by tag), sum
    each group's scores, and stable-sort the groups by descending score.
    Because the groups enter the score sort in ascending tag order, the
    stable sort equals a sort by descending score with ties broken by
    ascending tag, which is how it is modelled. Scores are reals, so
    floating-point summation order is not modelled. */
module TagSuggestion {
  import opened Ordering

  datatype ScoredTagSuggestion = ScoredTagSuggestion(tag: string, score: real)

  /** The tags of a list, in order. */
  function TagsOf(xs: seq<ScoredTagSuggestion>): (r: seq<string>)
    ensures |r| == |xs|
    ensures forall i :: 0 <= i < |xs| ==> r[i] == xs[i].tag
  {
    if |xs| == 0 then [] else [xs[0].tag] + TagsOf(xs[1..])
  }

  lemma TagsOfAppend(a: seq<ScoredTagSuggestion>, b: seq<ScoredTagSuggestion>)
    ensures TagsOf(a + b) == TagsOf(a) + TagsOf(b)
  {
  }

  /** The sum of the scores `t` has in `xs`. */
  function ScoreOf(t: string, xs: seq<ScoredTagSuggestion>): real {
    if |xs| == 0 then 0.0
    else (if xs[0].tag == t then xs[0].score else 0.0) + ScoreOf(t, xs[1..])
  }

  lemma {:induction false} ScoreOfAppend(t: string, a: seq<ScoredTagSuggestion>, b: seq<ScoredTagSuggestion>)
    ensures ScoreOf(t, a + b) == ScoreOf(t, a) + ScoreOf(t, b)
    decreases |a|
  {
    if |a| == 0 {
      assert a + b == b;
    } else {
      assert (a + b)[1..] == a[1..] + b;
      ScoreOfAppend(t, a[1..], b);
    }
  }

  /** The output order: higher score first, equal scores by ascending tag. */
  predicate Ranked(x: ScoredTagSuggestion, y: ScoredTagSuggestion) {
    x.score > y.score || (x.score == y.score && Less(x.tag, y.tag))
  }

  predicate RankSorted(v: seq<ScoredTagSuggestion>) {
    forall i, j :: 0 <= i < j < |v| ==> Ranked(v[i], v[j])
  }

  lemma RankedTransitive(x: ScoredTagSuggestion, y: ScoredTagSuggestion, z: ScoredTagSuggestion)
    requires Ranked(x, y) && Ranked(y, z)
    ensures Ranked(x, z)
  {
    if x.score == y.score && y.score == z.score {
      LessTransitive(x.tag, y.tag, z.tag);
    }
  }

  lemma RankedTotal(x: ScoredTagSuggestion, y: ScoredTagSuggestion)
    ensures x == y || Ranked(x, y) || Ranked(y, x)
  {
    LessTotal(x.tag, y.tag);
  }

  lemma RankedIrreflexive(x: ScoredTagSuggestion)
    ensures !Ranked(x, x)
  {
    LessIrreflexive(x.tag);
  }

  /** Insertion into a ranked list. */
  function InsertRanked(x: ScoredTagSuggestion, v: seq<ScoredTagSuggestion>): (r: seq<ScoredTagSuggestion>)
    requires RankSorted(v) && x !in v
    ensures RankSorted(r)
    ensures forall y :: y in r <==> y == x || y in v
    ensures |r| == |v| + 1
  {
    if |v| == 0 then [x]
    else if Ranked(x, v[0]) then
      forall j | 0 < j < |v| ensures Ranked(x, v[j]) {
        RankedTransitive(x, v[0], v[j]);
      }
      [x] + v
    else
      RankedTotal(x, v[0]);
      var tail := InsertRanked(x, v[1..]);
      forall j | 0 <= j < |tail| ensures Ranked(v[0], tail[j]) {
        assert tail[j] in tail;
        if tail[j] != x {
          var k :| 0 <= k < |v[1..]| && v[1..][k] == tail[j];
          assert v[k + 1] == tail[j];
        }
      }
      assert v == [v[0]] + v[1..];
      [v[0]] + tail
  }

  predicate Distinct(v: seq<ScoredTagSuggestion>) {
    forall i, j :: 0 <= i < j < |v| ==> v[i] != v[j]
  }

  /** Sorting a list of distinct suggestions into the output order. */
  function RankAll(v: seq<ScoredTagSuggestion>): (r: seq<ScoredTagSuggestion>)
    requires Distinct(v)
    ensures RankSorted(r)
    ensures forall y :: y in r <==> y in v
    ensures |r| == |v|
  {
    if |v| == 0 then []
    else
      var init := v[..|v| - 1];
      var prev := RankAll(init);
      assert v[|v| - 1] !in init;
      assert v == init + [v[|v| - 1]];
      InsertRanked(v[|v| - 1], prev)
  }

  /** One group per tag of `ts`, scored over `xs`. */
  function Totals(ts: seq<string>, xs: seq<ScoredTagSuggestion>): (r: seq<ScoredTagSuggestion>)
    ensures |r| == |ts|
    ensures forall i :: 0 <= i < |ts| ==> r[i].tag == ts[i] && r[i].score == ScoreOf(ts[i], xs)
  {
    if |ts| == 0 then [] else [ScoredTagSuggestion(ts[0], ScoreOf(ts[0], xs))] + Totals(ts[1..], xs)
  }

  /** `merge(a, b)`. */
  function Merge(a: seq<ScoredTagSuggestion>, b: seq<ScoredTagSuggestion>): (r: seq<ScoredTagSuggestion>)
    ensures forall t :: t in TagsOf(r) <==> t in TagsOf(a) || t in TagsOf(b)
    ensures forall i, j :: 0 <= i < j < |r| ==> r[i].tag != r[j].tag
    ensures forall i :: 0 <= i < |r| ==> r[i].score == ScoreOf(r[i].tag, a) + ScoreOf(r[i].tag, b)
    ensures forall i, j :: 0 <= i < j < |r| ==> r[i].score >= r[j].score
    ensures RankSorted(r)
    ensures |r| <= |a| + |b|
  {
    var xs := a + b;
    var ts := SortDedup(TagsOf(xs));
    var groups := Totals(ts, xs);
    GroupsDistinct(ts, xs);
    var r := RankAll(groups);
    TagsOfAppend(a, b);
    GroupTags(ts, xs, r);
    GroupScores(ts, a, b, r);
    GroupsUnique(ts, xs, r);
    r
  }

  lemma GroupsDistinct(ts: seq<string>, xs: seq<ScoredTagSuggestion>)
    requires StrictlySorted(ts)
    ensures Distinct(Totals(ts, xs))
  {
    var groups := Totals(ts, xs);
    forall i, j | 0 <= i < j < |groups| ensures groups[i] != groups[j] {
      assert Less(ts[i], ts[j]);
      LessIrreflexive(ts[i]);
    }
  }

  /** The groups, in any order, carry exactly the tags of `ts`. */
  lemma GroupTags(ts: seq<string>, xs: seq<ScoredTagSuggestion>, r: seq<ScoredTagSuggestion>)
    requires forall y :: y in r <==> y in Totals(ts, xs)
    ensures forall t :: t in TagsOf(r) <==> t in ts
  {
    var groups := Totals(ts, xs);
    forall t ensures t in TagsOf(r) <==> t in ts {
      if t in TagsOf(r) {
        var i :| 0 <= i < |r| && TagsOf(r)[i] == t;
        assert r[i] in groups;
      }
      if t in ts {
        var i :| 0 <= i < |ts| && ts[i] == t;
        assert groups[i] in r;
        var k :| 0 <= k < |r| && r[k] == groups[i];
        assert TagsOf(r)[k] == t;
      }
    }
  }

  lemma GroupScores(ts: seq<string>, a: seq<ScoredTagSuggestion>, b: seq<ScoredTagSuggestion>,
                    r: seq<ScoredTagSuggestion>)
    requires forall y :: y in r <==> y in Totals(ts, a + b)
    ensures forall i :: 0 <= i < |r| ==> r[i].score == ScoreOf(r[i].tag, a) + ScoreOf(r[i].tag, b)
  {
    forall i | 0 <= i < |r| ensures r[i].score == ScoreOf(r[i].tag, a) + ScoreOf(r[i].tag, b) {
      assert r[i] in Totals(ts, a + b);
      ScoreOfAppend(r[i].tag, a, b);
    }
  }

  /** A ranked list of groups has each tag once. */
  lemma GroupsUnique(ts: seq<string>, xs: seq<ScoredTagSuggestion>, r: seq<ScoredTagSuggestion>)
    requires RankSorted(r)
    requires forall y :: y in r <==> y in Totals(ts, xs)
    ensures forall i, j :: 0 <= i < j < |r| ==> r[i].tag != r[j].tag
  {
    forall i, j | 0 <= i < j < |r| ensures r[i].tag != r[j].tag {
      assert r[i] in Totals(ts, xs) && r[j] in Totals(ts, xs);
      RankedIrreflexive(r[i]);
    }
  }

  /** Merging is symmetric: the two argument orders give the same list. */
  lemma MergeSymmetric(a: seq<ScoredTagSuggestion>, b: seq<ScoredTagSuggestion>)
    ensures Merge(a, b) == Merge(b, a)
  {
    TagsOfAppend(a, b);
    TagsOfAppend(b, a);
    SortedUnique(SortDedup(TagsOf(a + b)), SortDedup(TagsOf(b + a)));
    var ts := SortDedup(TagsOf(a + b));
    forall i | 0 <= i < |ts| ensures ScoreOf(ts[i], a + b) == ScoreOf(ts[i], b + a) {
      ScoreOfAppend(ts[i], a, b);
      ScoreOfAppend(ts[i], b, a);
    }
    assert Totals(ts, a + b) == Totals(ts, b + a);
  }

  /** Merging a list with nothing groups its duplicates: two suggestions
      of one tag become one, with the summed score. */
  lemma MergeGroupsDuplicates(t: string, x: real, y: real)
    ensures Merge([ScoredTagSuggestion(t, x), ScoredTagSuggestion(t, y)], []) == [ScoredTagSuggestion(t, x + y)]
  {
    var a := [ScoredTagSuggestion(t, x), ScoredTagSuggestion(t, y)];
    assert a + [] == a;
    assert TagsOf(a) == [t, t];
    assert SortDedup([t, t]) == [t] by {
      assert [t, t][1..] == [t];
      assert SortDedup([t]) == [t];
    }
    assert ScoreOf(t, a[1..]) == y + ScoreOf(t, []);
    assert ScoreOf(t, a) == x + ScoreOf(t, a[1..]);
    assert Totals([t], a) == [ScoredTagSuggestion(t, x + y)];
  }
}
