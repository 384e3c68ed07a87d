/** `combine_suggestions_alt_1`: every source of suggestions votes for the
    tags among its 30 best; the tags are ranked by votes, the sticker's own
    tags are dropped, each category is capped, and the first 20 remain.
    The per-source `add_implications` expansion and the category lookup
    are inputs: the former is given as the expanded lists, the latter as
    the function `category`. */
module CombineSuggestions {
  import opened Wrappers
  import opened Ordering
  import opened Categories
  import opened TagSuggestion

  /** The tags that are always candidates, with no votes unless a source
      has them (`filter`). */
  const DefaultTags: seq<string> := [
    "ych_(character)", "questionable", "explicit", "safe", "solo", "diaper", "duo", "watersports",
    "young", "vore", "scat", "gore", "attribution", "male", "female", "ambiguous_gender"]

  /** How many suggestions a source contributes at most. */
  const SourceLimit: nat := 30
  /** How many tags are returned at most. */
  const ResultLimit: nat := 20

  /** The tags of the 30 best suggestions of one source, after grouping. */
  function SourceTags(s: seq<ScoredTagSuggestion>): (r: seq<string>)
    ensures |r| <= SourceLimit
    ensures forall i, j :: 0 <= i < j < |r| ==> r[i] != r[j]
    ensures forall t :: t in r ==> t in TagsOf(s)
    ensures |TagsOf(s)| > 0 ==> |r| > 0
  {
    var m := Merge(s, []);
    var n := if |m| <= SourceLimit then |m| else SourceLimit;
    PrefixTags(m, n);
    if |s| > 0 then
      assert s[0].tag in TagsOf(s);
      assert |m| > 0;
      TagsOf(m[..n])
    else TagsOf(m[..n])
  }

  lemma PrefixTags(m: seq<ScoredTagSuggestion>, n: nat)
    requires n <= |m|
    requires forall i, j :: 0 <= i < j < |m| ==> m[i].tag != m[j].tag
    ensures forall i, j :: 0 <= i < j < n ==> TagsOf(m[..n])[i] != TagsOf(m[..n])[j]
    ensures forall t :: t in TagsOf(m[..n]) ==> t in TagsOf(m)
  {
    var p := TagsOf(m[..n]);
    forall t | t in p ensures t in TagsOf(m) {
      var i :| 0 <= i < |p| && p[i] == t;
      assert TagsOf(m)[i] == t;
    }
  }

  /** The non-empty truncated sources, in order. */
  function Sources(lists: seq<seq<ScoredTagSuggestion>>): (r: seq<seq<string>>)
    ensures |r| <= |lists|
    ensures forall k :: 0 <= k < |r| ==> 0 < |r[k]| <= SourceLimit
    ensures forall k, i, j :: 0 <= k < |r| && 0 <= i < j < |r[k]| ==> r[k][i] != r[k][j]
    ensures forall x :: x in r ==> exists m :: 0 <= m < |lists| && x == SourceTags(lists[m])
  {
    if |lists| == 0 then []
    else
      var s := SourceTags(lists[0]);
      var rest := Sources(lists[1..]);
      SourcesShift(lists, rest);
      if |s| > 0 then
        ConsSource(s, rest);
        [s] + rest
      else rest
  }

  /** A non-empty source of distinct tags in front keeps the bounds and the
      distinctness of every source. */
  lemma ConsSource(s: seq<string>, rest: seq<seq<string>>)
    requires 0 < |s| <= SourceLimit && forall i, j :: 0 <= i < j < |s| ==> s[i] != s[j]
    requires forall k :: 0 <= k < |rest| ==> 0 < |rest[k]| <= SourceLimit
    requires forall k, i, j :: 0 <= k < |rest| && 0 <= i < j < |rest[k]| ==> rest[k][i] != rest[k][j]
    ensures forall k :: 0 <= k < |[s] + rest| ==> 0 < |([s] + rest)[k]| <= SourceLimit
    ensures forall k, i, j :: 0 <= k < |[s] + rest| && 0 <= i < j < |([s] + rest)[k]| ==>
              ([s] + rest)[k][i] != ([s] + rest)[k][j]
  {
    var r := [s] + rest;
    forall k | 0 <= k < |r| ensures r[k] == if k == 0 then s else rest[k - 1] {
    }
  }

  /** What comes from some later list comes from some list. */
  lemma SourcesShift(lists: seq<seq<ScoredTagSuggestion>>, rest: seq<seq<string>>)
    requires |lists| > 0
    requires forall x :: x in rest ==> exists m :: 0 <= m < |lists| - 1 && x == SourceTags(lists[1..][m])
    ensures forall x :: x in rest ==> exists m :: 0 <= m < |lists| && x == SourceTags(lists[m])
  {
    forall x | x in rest ensures exists m :: 0 <= m < |lists| && x == SourceTags(lists[m]) {
      var j :| 0 <= j < |lists| - 1 && x == SourceTags(lists[1..][j]);
      assert lists[1..][j] == lists[j + 1];
    }
  }

  /** All tags of all sources, in order. */
  function Flatten(srcs: seq<seq<string>>): (r: seq<string>)
    ensures forall t :: t in r <==> exists k :: 0 <= k < |srcs| && t in srcs[k]
  {
    if |srcs| == 0 then []
    else
      assert forall k :: 1 <= k < |srcs| ==> srcs[k] == srcs[1..][k - 1];
      srcs[0] + Flatten(srcs[1..])
  }

  /** The count `all_tags` holds for `t`: one per occurrence. */
  function Occurrences(srcs: seq<seq<string>>, t: string): nat {
    multiset(Flatten(srcs))[t]
  }

  /** How many sources name `t`. */
  function SourcesNaming(srcs: seq<seq<string>>, t: string): nat {
    if |srcs| == 0 then 0 else (if t in srcs[0] then 1 else 0) + SourcesNaming(srcs[1..], t)
  }

  lemma {:induction false} OnceEach(xs: seq<string>, t: string)
    requires forall i, j :: 0 <= i < j < |xs| ==> xs[i] != xs[j]
    ensures multiset(xs)[t] == if t in xs then 1 else 0
    decreases |xs|
  {
    if |xs| > 0 {
      assert xs == [xs[0]] + xs[1..];
      OnceEach(xs[1..], t);
      if xs[0] == t {
        assert t !in xs[1..];
      }
    }
  }

  /** Since no source names a tag twice, a tag's count is the number of
      sources that name it. */
  lemma {:induction false} VotesCountSources(srcs: seq<seq<string>>, t: string)
    requires forall k, i, j :: 0 <= k < |srcs| && 0 <= i < j < |srcs[k]| ==> srcs[k][i] != srcs[k][j]
    ensures Occurrences(srcs, t) == SourcesNaming(srcs, t)
    decreases |srcs|
  {
    if |srcs| > 0 {
      OnceEach(srcs[0], t);
      VotesCountSources(srcs[1..], t);
      assert Flatten(srcs) == srcs[0] + Flatten(srcs[1..]);
    }
  }

  /** Ordered by non-increasing votes. */
  ghost predicate ByVotes(ts: seq<string>, votes: string -> nat) {
    forall i, j :: 0 <= i < j < |ts| ==> votes(ts[i]) >= votes(ts[j])
  }

  /** Inserts `x` after every tag with at least as many votes. */
  function InsertByVotes(x: string, ts: seq<string>, votes: string -> nat): (r: seq<string>)
    requires ByVotes(ts, votes)
    ensures ByVotes(r, votes)
    ensures multiset(r) == multiset(ts) + multiset{x}
  {
    if |ts| == 0 then [x]
    else if votes(x) > votes(ts[0]) then
      ConsByVotes(x, ts, ts, votes);
      [x] + ts
    else
      HeadAbove(x, ts, votes);
      var rest := InsertByVotes(x, ts[1..], votes);
      assert ts == [ts[0]] + ts[1..];
      ConsByVotes(ts[0], rest, ts[1..] + [x], votes);
      [ts[0]] + rest
  }

  /** The head of an ordered list with at least the votes of `x` bounds
      the rest of the list and `x`. */
  lemma HeadAbove(x: string, ts: seq<string>, votes: string -> nat)
    requires ByVotes(ts, votes) && |ts| > 0 && votes(x) <= votes(ts[0])
    ensures ByVotes(ts[1..], votes)
    ensures forall i :: 0 <= i < |ts[1..] + [x]| ==> votes(ts[0]) >= votes((ts[1..] + [x])[i])
  {
    var b := ts[1..] + [x];
    forall i | 0 <= i < |b| ensures votes(ts[0]) >= votes(b[i]) {
      if i < |ts| - 1 { assert b[i] == ts[i + 1]; }
    }
    forall i, j | 0 <= i < j < |ts[1..]| ensures votes(ts[1..][i]) >= votes(ts[1..][j]) {
      assert ts[1..][i] == ts[i + 1] && ts[1..][j] == ts[j + 1];
    }
  }

  /** A head with at least the votes of everything in `bound` (of which the
      tail is a permutation) keeps the order. */
  lemma ConsByVotes(h: string, ts: seq<string>, bound: seq<string>, votes: string -> nat)
    requires ByVotes(ts, votes) && multiset(ts) == multiset(bound)
    requires forall i :: 0 <= i < |bound| ==> votes(h) >= votes(bound[i])
    ensures ByVotes([h] + ts, votes)
  {
    forall i | 0 <= i < |ts| ensures votes(h) >= votes(ts[i]) {
      assert ts[i] in multiset(bound);
    }
  }

  /** `sorted_unstable_by_key(|it| -it.1)`: a permutation by non-increasing
      votes. The order among equal votes is unspecified, in the source as
      here. */
  function SortByVotes(ts: seq<string>, votes: string -> nat): (r: seq<string>)
    ensures ByVotes(r, votes)
    ensures multiset(r) == multiset(ts)
  {
    if |ts| == 0 then []
    else
      assert ts == [ts[0]] + ts[1..];
      InsertByVotes(ts[0], SortByVotes(ts[1..], votes), votes)
  }

  /** The ranked candidates: every tag some source names, and every default
      tag, once each, by non-increasing votes. */
  function Candidates(srcs: seq<seq<string>>, defaults: seq<string>): (r: seq<string>)
    ensures forall t :: t in r <==> t in defaults || exists k :: 0 <= k < |srcs| && t in srcs[k]
    ensures forall i, j :: 0 <= i < j < |r| ==> r[i] != r[j]
    ensures ByVotes(r, t => Occurrences(srcs, t))
  {
    var ts := SortDedup(Flatten(srcs) + defaults);
    var r := SortByVotes(ts, t => Occurrences(srcs, t));
    assert forall t :: t in r <==> t in multiset(r);
    assert forall t :: t in ts <==> t in multiset(ts);
    assert forall t :: t in Flatten(srcs) + defaults <==> t in Flatten(srcs) || t in defaults;
    DistinctPermutation(ts, r);
    r
  }

  lemma DistinctPermutation(a: seq<string>, b: seq<string>)
    requires StrictlySorted(a) && multiset(a) == multiset(b)
    ensures forall i, j :: 0 <= i < j < |b| ==> b[i] != b[j]
  {
    LessIrreflexiveAll(a);
    forall i, j | 0 <= i < j < |b| ensures b[i] != b[j] {
      OnceEach(a, b[i]);
      TwoCopies(b, i, j);
    }
  }

  /** Two equal positions give two copies. */
  lemma TwoCopies(b: seq<string>, i: nat, j: nat)
    requires i < j < |b|
    ensures b[i] == b[j] ==> multiset(b)[b[i]] >= 2
  {
    assert b == b[..j] + [b[j]] + b[j + 1..];
    assert b[..j][i] == b[i];
    assert multiset(b) == multiset(b[..j]) + multiset{b[j]} + multiset(b[j + 1..]);
  }

  lemma LessIrreflexiveAll(a: seq<string>)
    requires StrictlySorted(a)
    ensures forall i, j :: 0 <= i < j < |a| ==> a[i] != a[j]
  {
    forall i, j | 0 <= i < j < |a| ensures a[i] != a[j] {
      LessIrreflexive(a[i]);
    }
  }

  /** The tags of `ts` not among the sticker's tags, in order. */
  function WithoutTags(ts: seq<string>, stickerTags: seq<string>): (r: seq<string>)
    ensures forall t :: t in r <==> t in ts && t !in stickerTags
  {
    if |ts| == 0 then []
    else if ts[0] in stickerTags then WithoutTags(ts[1..], stickerTags)
    else [ts[0]] + WithoutTags(ts[1..], stickerTags)
  }

  /** Every tag of `ts` comes before every tag after it: `r` keeps the
      relative order of `ts`. */
  lemma {:induction false} WithoutTagsKeepsVotes(ts: seq<string>, stickerTags: seq<string>, votes: string -> nat)
    requires ByVotes(ts, votes)
    ensures ByVotes(WithoutTags(ts, stickerTags), votes)
    decreases |ts|
  {
    if |ts| > 0 {
      assert ByVotes(ts[1..], votes);
      WithoutTagsKeepsVotes(ts[1..], stickerTags, votes);
      var rest := WithoutTags(ts[1..], stickerTags);
      forall y | y in rest ensures votes(ts[0]) >= votes(y) {
        var k :| 0 <= k < |ts[1..]| && ts[1..][k] == y;
        assert ts[k + 1] == y;
      }
    }
  }

  lemma {:induction false} WithoutTagsDistinct(ts: seq<string>, stickerTags: seq<string>)
    requires forall i, j :: 0 <= i < j < |ts| ==> ts[i] != ts[j]
    ensures forall i, j :: 0 <= i < j < |WithoutTags(ts, stickerTags)| ==>
              WithoutTags(ts, stickerTags)[i] != WithoutTags(ts, stickerTags)[j]
    decreases |ts|
  {
    if |ts| > 0 {
      WithoutTagsDistinct(ts[1..], stickerTags);
      assert ts[0] !in ts[1..];
    }
  }

  /** How many suggestions of each category may be kept. */
  function Cap(c: Category): (n: nat)
    ensures n >= 2
  {
    if c == General then 15
    else if c == Species || c == Meta then 5
    else 2
  }

  /** How many of `ts` have category `c`. */
  function InCategory(ts: seq<string>, category: string -> Option<Category>, c: Category): nat {
    if |ts| == 0 then 0
    else InCategory(ts[..|ts| - 1], category, c) + (if category(ts[|ts| - 1]) == Some(c) then 1 else 0)
  }

  /** The category filter: a tag without a category is dropped, and a tag
      whose category has already used up its cap is dropped (the counter
      `limits` starts at the cap and is decremented for every tag seen). */
  function Capped(ts: seq<string>, category: string -> Option<Category>): (r: seq<string>)
    ensures forall t :: t in r ==> t in ts && category(t).Some?
    ensures forall c :: InCategory(r, category, c) <= Cap(c)
    ensures forall t :: t in ts && t !in r && category(t).Some? ==>
              InCategory(r, category, category(t).value) == Cap(category(t).value)
    ensures |r| <= |ts|
  {
    if |ts| == 0 then []
    else
      var init := ts[..|ts| - 1];
      var last := ts[|ts| - 1];
      assert ts == init + [last];
      var p := Capped(init, category);
      match category(last)
      case None => p
      case Some(c) =>
        if InCategory(p, category, c) < Cap(c) then
          var r := p + [last];
          assert r[..|r| - 1] == p;
          r
        else p
  }

  /** The category filter keeps the order of its input. */
  lemma {:induction false} CappedKeepsVotes(ts: seq<string>, category: string -> Option<Category>, votes: string -> nat)
    requires ByVotes(ts, votes)
    ensures ByVotes(Capped(ts, category), votes)
    decreases |ts|
  {
    if |ts| > 0 {
      var init := ts[..|ts| - 1];
      var last := ts[|ts| - 1];
      assert ByVotes(init, votes);
      CappedKeepsVotes(init, category, votes);
      var p := Capped(init, category);
      forall y | y in p ensures votes(y) >= votes(last) {
        var k :| 0 <= k < |init| && init[k] == y;
        assert ts[k] == y;
      }
    }
  }

  lemma {:induction false} CappedDistinct(ts: seq<string>, category: string -> Option<Category>)
    requires forall i, j :: 0 <= i < j < |ts| ==> ts[i] != ts[j]
    ensures forall i, j :: 0 <= i < j < |Capped(ts, category)| ==> Capped(ts, category)[i] != Capped(ts, category)[j]
    decreases |ts|
  {
    if |ts| > 0 {
      var init := ts[..|ts| - 1];
      CappedDistinct(init, category);
      assert ts[|ts| - 1] !in init;
    }
  }

  lemma InCategoryPrefix(ts: seq<string>, n: nat, category: string -> Option<Category>, c: Category)
    requires n <= |ts|
    ensures InCategory(ts[..n], category, c) <= InCategory(ts, category, c)
    decreases |ts|
  {
    if n < |ts| {
      var init := ts[..|ts| - 1];
      InCategoryPrefix(init, n, category, c);
      assert init[..n] == ts[..n];
    } else {
      assert ts[..n] == ts;
    }
  }

  /** `combine_suggestions_alt_1` after the expansion step. */
  function Combine(lists: seq<seq<ScoredTagSuggestion>>, stickerTags: seq<string>,
                   category: string -> Option<Category>): (r: seq<string>)
    ensures |r| <= ResultLimit
    ensures forall t :: t in r ==> t !in stickerTags && category(t).Some?
    ensures forall t :: t in r ==> t in DefaultTags || exists m :: 0 <= m < |lists| && t in TagsOf(lists[m])
    ensures forall c :: InCategory(r, category, c) <= Cap(c)
    ensures ByVotes(r, t => Occurrences(Sources(lists), t))
    ensures forall i, j :: 0 <= i < j < |r| ==> r[i] != r[j]
    ensures |r| < ResultLimit ==> forall t ::
              (t in DefaultTags || exists k :: 0 <= k < |Sources(lists)| && t in Sources(lists)[k]) &&
              t !in stickerTags && category(t).Some? && t !in r ==>
              InCategory(r, category, category(t).value) == Cap(category(t).value)
  {
    var srcs := Sources(lists);
    var cands := Candidates(srcs, DefaultTags);
    var kept := Capped(WithoutTags(cands, stickerTags), category);
    Filtered(cands, stickerTags, category, t => Occurrences(srcs, t));
    var n := if |kept| <= ResultLimit then |kept| else ResultLimit;
    Truncated(kept, n, category, t => Occurrences(srcs, t));
    forall t | t in kept[..n] ensures t in DefaultTags || exists m :: 0 <= m < |lists| && t in TagsOf(lists[m]) {
      FromLists(lists, srcs, DefaultTags, t);
    }
    assert n < ResultLimit ==> kept[..n] == kept;
    kept[..n]
  }

  /** Dropping the sticker's tags and capping the categories keep the order
      and the distinctness of the candidates. */
  lemma Filtered(cands: seq<string>, stickerTags: seq<string>, category: string -> Option<Category>,
                 votes: string -> nat)
    requires ByVotes(cands, votes)
    requires forall i, j :: 0 <= i < j < |cands| ==> cands[i] != cands[j]
    ensures ByVotes(Capped(WithoutTags(cands, stickerTags), category), votes)
    ensures forall i, j :: 0 <= i < j < |Capped(WithoutTags(cands, stickerTags), category)| ==>
              Capped(WithoutTags(cands, stickerTags), category)[i] != Capped(WithoutTags(cands, stickerTags), category)[j]
  {
    var w := WithoutTags(cands, stickerTags);
    WithoutTagsKeepsVotes(cands, stickerTags, votes);
    WithoutTagsDistinct(cands, stickerTags);
    CappedKeepsVotes(w, category, votes);
    CappedDistinct(w, category);
  }

  /** The first `n` of a capped, ordered, distinct list are still all three. */
  lemma Truncated(kept: seq<string>, n: nat, category: string -> Option<Category>, votes: string -> nat)
    requires n <= |kept|
    requires ByVotes(kept, votes)
    requires forall i, j :: 0 <= i < j < |kept| ==> kept[i] != kept[j]
    requires forall c :: InCategory(kept, category, c) <= Cap(c)
    ensures ByVotes(kept[..n], votes)
    ensures forall i, j :: 0 <= i < j < n ==> kept[..n][i] != kept[..n][j]
    ensures forall c :: InCategory(kept[..n], category, c) <= Cap(c)
    ensures forall t :: t in kept[..n] ==> t in kept
  {
    forall c ensures InCategory(kept[..n], category, c) <= Cap(c) {
      InCategoryPrefix(kept, n, category, c);
    }
  }

  /** A candidate comes from the defaults or an input list. */
  lemma FromLists(lists: seq<seq<ScoredTagSuggestion>>, srcs: seq<seq<string>>, defaults: seq<string>, t: string)
    requires forall x :: x in srcs ==> exists m :: 0 <= m < |lists| && x == SourceTags(lists[m])
    requires t in defaults || exists k :: 0 <= k < |srcs| && t in srcs[k]
    ensures t in defaults || exists m :: 0 <= m < |lists| && t in TagsOf(lists[m])
  {
    if t !in defaults {
      var k :| 0 <= k < |srcs| && t in srcs[k];
      assert srcs[k] in srcs;
      var m :| 0 <= m < |lists| && srcs[k] == SourceTags(lists[m]);
      assert t in TagsOf(lists[m]);
    }
  }
}
