/** `suggest_tags_by_reverse_implication` of both trees: every tag implied
    *by* a known tag's inverse implications is suggested, scored by how many
    of the known tags led to it. The two trees differ only in the score table.
    The inverse-implication lookup is a map; a tag missing from it
    contributes nothing (`unwrap_or_default`). */
module Implied {
  import opened Ordering
  import opened TagSuggestion

  type InverseImplications = map<string, seq<string>>

  /** The inverse implications of one tag, empty when it has none. */
  function InverseOf(inv: InverseImplications, t: string): seq<string> {
    if t in inv then inv[t] else []
  }

  /** The flattened lookups, in the order of the known tags. */
  function Flattened(known: seq<string>, inv: InverseImplications): (r: seq<string>)
    ensures forall u :: u in r <==> exists k :: k in known && u in InverseOf(inv, k)
  {
    if |known| == 0 then []
    else
      var rest := Flattened(known[1..], inv);
      assert forall k :: k in known <==> k == known[0] || k in known[1..];
      InverseOf(inv, known[0]) + rest
  }

  /** How often `t` occurs in `xs`. */
  function Count(t: string, xs: seq<string>): nat {
    multiset(xs)[t]
  }

  /** `compute_score_for_implication_count` of the current tree. */
  function ImpliedScore(count: nat): real {
    if count == 1 then 0.1
    else if count == 2 then 0.3
    else if count == 3 then 0.4
    else if count == 4 then 0.5
    else 0.6
  }

  /** `compute_score_for_implication_count` of the older tree. */
  function LegacyImpliedScore(count: nat): real {
    if count == 1 then 0.1
    else if count == 2 then 0.6
    else if count == 3 then 0.8
    else if count == 4 then 0.9
    else 0.99
  }

  /** Both tables grow with the count, from 0.1 for a single hit. */
  lemma ScoresGrow(a: nat, b: nat)
    requires 1 <= a <= b
    ensures ImpliedScore(a) <= ImpliedScore(b) && LegacyImpliedScore(a) <= LegacyImpliedScore(b)
    ensures ImpliedScore(a) >= 0.1 && LegacyImpliedScore(a) >= 0.1
    ensures a < b <= 5 ==> ImpliedScore(a) < ImpliedScore(b) && LegacyImpliedScore(a) < LegacyImpliedScore(b)
  {
  }

  /** One suggestion per tag of `ts`, scored by its count in `xs`. */
  function Counted(ts: seq<string>, xs: seq<string>, score: nat -> real): (r: seq<ScoredTagSuggestion>)
    ensures |r| == |ts|
    ensures forall i :: 0 <= i < |ts| ==> r[i] == ScoredTagSuggestion(ts[i], score(Count(ts[i], xs)))
  {
    if |ts| == 0 then [] else [ScoredTagSuggestion(ts[0], score(Count(ts[0], xs)))] + Counted(ts[1..], xs, score)
  }

  /** The suggestions, given the score table: group the flattened tags,
      score each group by its size, and rank by descending score (ties by
      ascending tag, as the stable sort of tag-sorted groups leaves them). */
  function SuggestByReverseImplication(known: seq<string>, inv: InverseImplications,
                                       score: nat -> real): (r: seq<ScoredTagSuggestion>)
    ensures forall u :: u in TagsOf(r) <==> exists k :: k in known && u in InverseOf(inv, k)
    ensures forall i, j :: 0 <= i < j < |r| ==> r[i].tag != r[j].tag
    ensures forall i :: 0 <= i < |r| ==> Count(r[i].tag, Flattened(known, inv)) >= 1
    ensures forall i :: 0 <= i < |r| ==> r[i].score == score(Count(r[i].tag, Flattened(known, inv)))
    ensures RankSorted(r)
  {
    var xs := Flattened(known, inv);
    var ts := SortDedup(xs);
    var groups := Counted(ts, xs, score);
    CountedDistinct(ts, xs, score);
    var r := RankAll(groups);
    CountedTags(ts, xs, score, r);
    CountedFacts(ts, xs, score, r);
    r
  }

  lemma CountedDistinct(ts: seq<string>, xs: seq<string>, score: nat -> real)
    requires StrictlySorted(ts)
    ensures Distinct(Counted(ts, xs, score))
  {
    var groups := Counted(ts, xs, score);
    forall i, j | 0 <= i < j < |groups| ensures groups[i] != groups[j] {
      assert Less(ts[i], ts[j]);
      LessIrreflexive(ts[i]);
    }
  }

  lemma CountedTags(ts: seq<string>, xs: seq<string>, score: nat -> real, r: seq<ScoredTagSuggestion>)
    requires forall y :: y in r <==> y in Counted(ts, xs, score)
    ensures forall t :: t in TagsOf(r) <==> t in ts
  {
    var groups := Counted(ts, xs, score);
    forall t ensures t in TagsOf(r) <==> t in ts {
      if t in TagsOf(r) {
        var i :| 0 <= i < |r| && TagsOf(r)[i] == t;
        assert r[i] in groups;
      }
      if t in ts {
        var i :| 0 <= i < |ts| && ts[i] == t;
        assert groups[i] in r;
        var k :| 0 <= k < |r| && r[k] == groups[i];
        assert TagsOf(r)[k] == t;
      }
    }
  }

  lemma CountedFacts(ts: seq<string>, xs: seq<string>, score: nat -> real, r: seq<ScoredTagSuggestion>)
    requires RankSorted(r)
    requires forall t :: t in ts <==> t in xs
    requires forall y :: y in r <==> y in Counted(ts, xs, score)
    ensures forall i, j :: 0 <= i < j < |r| ==> r[i].tag != r[j].tag
    ensures forall i :: 0 <= i < |r| ==> Count(r[i].tag, xs) >= 1
    ensures forall i :: 0 <= i < |r| ==> r[i].score == score(Count(r[i].tag, xs))
  {
    forall i | 0 <= i < |r|
      ensures Count(r[i].tag, xs) >= 1 && r[i].score == score(Count(r[i].tag, xs))
    {
      assert r[i] in Counted(ts, xs, score);
      assert r[i].tag in ts;
    }
    forall i, j | 0 <= i < j < |r| ensures r[i].tag != r[j].tag {
      assert r[i] in Counted(ts, xs, score) && r[j] in Counted(ts, xs, score);
      RankedIrreflexive(r[i]);
    }
  }

  /** The current tree's suggestions: a tag implied by one known tag
      scores 0.1, one implied by five or more scores 0.6, and every score
      lies between the two. */
  function Suggest(known: seq<string>, inv: InverseImplications): (r: seq<ScoredTagSuggestion>)
    ensures forall i :: 0 <= i < |r| ==> 0.1 <= r[i].score <= 0.6
    ensures forall i :: 0 <= i < |r| ==> (r[i].score == 0.1 <==> Count(r[i].tag, Flattened(known, inv)) == 1)
    ensures forall i :: 0 <= i < |r| ==> (r[i].score == 0.6 <==> Count(r[i].tag, Flattened(known, inv)) >= 5)
  {
    ImpliedScoreRange();
    SuggestByReverseImplication(known, inv, ImpliedScore)
  }

  /** The older tree's suggestions: from 0.1 for one implying known tag up
      to 0.99 for five or more. */
  function LegacySuggest(known: seq<string>, inv: InverseImplications): (r: seq<ScoredTagSuggestion>)
    ensures forall i :: 0 <= i < |r| ==> 0.1 <= r[i].score <= 0.99
    ensures forall i :: 0 <= i < |r| ==> (r[i].score == 0.1 <==> Count(r[i].tag, Flattened(known, inv)) == 1)
    ensures forall i :: 0 <= i < |r| ==> (r[i].score == 0.99 <==> Count(r[i].tag, Flattened(known, inv)) >= 5)
  {
    LegacyImpliedScoreRange();
    SuggestByReverseImplication(known, inv, LegacyImpliedScore)
  }

  lemma ImpliedScoreRange()
    ensures forall c: nat {:trigger ImpliedScore(c)} :: c >= 1 ==>
              && 0.1 <= ImpliedScore(c) <= 0.6
              && (ImpliedScore(c) == 0.1 <==> c == 1) && (ImpliedScore(c) == 0.6 <==> c >= 5)
  {
  }

  lemma LegacyImpliedScoreRange()
    ensures forall c: nat {:trigger LegacyImpliedScore(c)} :: c >= 1 ==>
              && 0.1 <= LegacyImpliedScore(c) <= 0.99
              && (LegacyImpliedScore(c) == 0.1 <==> c == 1) && (LegacyImpliedScore(c) == 0.99 <==> c >= 5)
  {
  }

  /** A known tag without inverse implications changes nothing. */
  lemma UnknownContributesNothing(known: seq<string>, t: string, inv: InverseImplications, score: nat -> real)
    requires t !in inv
    ensures SuggestByReverseImplication([t] + known, inv, score) == SuggestByReverseImplication(known, inv, score)
  {
    assert ([t] + known)[1..] == known;
    assert Flattened([t] + known, inv) == Flattened(known, inv);
  }

  /** Every suggested tag's score reflects how many known tags it was implied
      by: a tag implied by more known tags never ranks below one implied by
      fewer. */
  lemma MoreHitsRankHigher(known: seq<string>, inv: InverseImplications, i: nat, j: nat)
    requires i < j < |Suggest(known, inv)|
    ensures Count(Suggest(known, inv)[i].tag, Flattened(known, inv)) >= 5 ||
            Count(Suggest(known, inv)[i].tag, Flattened(known, inv))
              >= Count(Suggest(known, inv)[j].tag, Flattened(known, inv))
  {
    var r := Suggest(known, inv);
    var xs := Flattened(known, inv);
    var a := Count(r[i].tag, xs);
    var b := Count(r[j].tag, xs);
    assert Ranked(r[i], r[j]);
    if a < b && a < 5 {
      ScoresGrow(a, b);
    }
  }
}
