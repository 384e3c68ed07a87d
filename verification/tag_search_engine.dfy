/** The tag search engine: trigram similarity plus prefix search over the
    known tag names. Sets of trigrams, the sorted merge that counts how
    many query trigrams each term shares, the candidate filter, and the
    merge of the two result lists. Lengths are counted in characters. */
module TagSearchEngine {
  import opened Wrappers
  import opened Ordering
  import Strings

  /** `(^|$)` replaced by `__`: both ends padded; the empty string matches
      once and becomes just `__`. */
  function Padded(s: string): string {
    if |s| == 0 then "__" else "__" + s + "__"
  }

  function Window(p: string, i: nat): string
    requires i + 3 <= |p|
  {
    p[i..i + 3]
  }

  /** The distinct windows of three characters of `p` starting before `n`. */
  function Windows(p: string, n: nat): set<string>
    requires n + 2 <= |p|
  {
    set i | 0 <= i < n :: Window(p, i)
  }

  /** `get_trigrams`: every window of three characters of the padded
      string. */
  function Trigrams(s: string): (r: set<string>)
    ensures forall t :: t in r ==> |t| == 3
    ensures |s| == 0 <==> r == {}
    ensures |s| > 0 ==> "__" + [s[0]] in r && [s[|s| - 1]] + "__" in r
  {
    var p := Padded(s);
    if |s| == 0 then {}
    else
      assert Window(p, 0) == "__" + [s[0]] && Window(p, 0) in Windows(p, |p| - 2);
      assert Window(p, |p| - 3) == [s[|s| - 1]] + "__" && Window(p, |p| - 3) in Windows(p, |p| - 2);
      Windows(p, |p| - 2)
  }

  lemma {:induction false} WindowsBound(p: string, n: nat)
    requires n + 2 <= |p|
    ensures |Windows(p, n)| <= n
    decreases n
  {
    if n > 0 {
      WindowsBound(p, n - 1);
      assert Windows(p, n) == Windows(p, n - 1) + {Window(p, n - 1)};
    }
  }

  /** A term has at most two trigrams more than it has characters. */
  lemma TrigramsBound(s: string)
    ensures |Trigrams(s)| <= |s| + 2
  {
    if |s| > 0 {
      WindowsBound(Padded(s), |s| + 2);
    }
  }

  /** `jaccard_similarity`: shared over all trigrams, 1 when there are none. */
  function Jaccard(a: set<string>, b: set<string>): real {
    if |a + b| == 0 then 1.0 else (|a * b| as real) / (|a + b| as real)
  }

  lemma SubsetSize(small: set<string>, big: set<string>)
    requires small <= big
    ensures |small| <= |big|
    ensures |small| == |big| ==> small == big
  {
    var extra := big - small;
    assert big == small + extra && small * extra == {};
    if |small| == |big| {
      assert |extra| == 0;
    }
  }

  lemma RatioAtMostOne(x: real, y: real)
    requires 0.0 <= x <= y && y > 0.0
    ensures 0.0 <= x / y <= 1.0
    ensures x / y == 1.0 ==> x == y
  {
    assert x / y * y == x;
  }

  /** The similarity lies in [0, 1] and is 1 exactly for equal sets. */
  lemma JaccardRange(a: set<string>, b: set<string>)
    ensures 0.0 <= Jaccard(a, b) <= 1.0
    ensures Jaccard(a, b) == 1.0 <==> a == b
  {
    if |a + b| > 0 {
      SubsetSize(a * b, a + b);
      RatioAtMostOne(|a * b| as real, |a + b| as real);
      if Jaccard(a, b) == 1.0 {
        assert a == b by {
          forall x | x in a ensures x in b { assert x in a + b; }
          forall x | x in b ensures x in a { assert x in a + b; }
        }
      }
      if a == b {
        assert a * b == a + b;
      }
    } else {
      assert a == {} && b == {};
    }
  }

  lemma JaccardSymmetric(a: set<string>, b: set<string>)
    ensures Jaccard(a, b) == Jaccard(b, a)
  {
    assert a + b == b + a && a * b == b * a;
  }

  /** A term and how many of the query's trigrams it has. */
  type Count = (string, nat)

  predicate SortedKeys(xs: seq<Count>) {
    forall i, j :: 0 <= i < j < |xs| ==> Less(xs[i].0, xs[j].0)
  }

  predicate Positive(xs: seq<Count>) {
    forall i :: 0 <= i < |xs| ==> xs[i].1 > 0
  }

  function Keys(xs: seq<Count>): set<string> {
    set i | 0 <= i < |xs| :: xs[i].0
  }

  /** The count listed for `t`, 0 when it is not listed. */
  function CountOf(xs: seq<Count>, t: string): nat
    decreases |xs|
  {
    if |xs| == 0 then 0 else if xs[0].0 == t then xs[0].1 else CountOf(xs[1..], t)
  }

  /** `merge`, one loop step at a time: the smaller head goes first, and
      equal heads are combined with their counts added. */
  function MergeCounts(l: seq<Count>, r: seq<Count>): seq<Count>
    decreases |l| + |r|
  {
    if |l| == 0 then r
    else if |r| == 0 then l
    else if Less(l[0].0, r[0].0) then [l[0]] + MergeCounts(l[1..], r)
    else if Less(r[0].0, l[0].0) then [r[0]] + MergeCounts(l, r[1..])
    else [(l[0].0, l[0].1 + r[0].1)] + MergeCounts(l[1..], r[1..])
  }

  /** One step of the first loop of `merge`. */
  lemma MergeCountsStep(l: seq<Count>, r: seq<Count>, i: nat, j: nat)
    requires i < |l| && j < |r|
    ensures MergeCounts(l[i..], r[j..]) ==
              if Less(l[i].0, r[j].0) then [l[i]] + MergeCounts(l[i + 1..], r[j..])
              else if Less(r[j].0, l[i].0) then [r[j]] + MergeCounts(l[i..], r[j + 1..])
              else [(l[i].0, l[i].1 + r[j].1)] + MergeCounts(l[i + 1..], r[j + 1..])
  {
    assert l[i..][1..] == l[i + 1..] && r[j..][1..] == r[j + 1..];
  }

  /** `merge` with its three loops. */
  method Merge(left: seq<Count>, right: seq<Count>) returns (merged: seq<Count>)
    ensures merged == MergeCounts(left, right)
  {
    merged := [];
    var i, j := 0, 0;
    assert left[0..] == left && right[0..] == right;
    while i < |left| && j < |right|
      invariant i <= |left| && j <= |right|
      invariant merged + MergeCounts(left[i..], right[j..]) == MergeCounts(left, right)
      decreases |left| - i + |right| - j
    {
      MergeCountsStep(left, right, i, j);
      var x: Count;
      if Less(left[i].0, right[j].0) {
        x := left[i];
        i := i + 1;
      } else if Less(right[j].0, left[i].0) {
        x := right[j];
        j := j + 1;
      } else {
        x := (left[i].0, left[i].1 + right[j].1);
        i := i + 1;
        j := j + 1;
      }
      Strings.PrependAssoc(merged, [x], MergeCounts(left[i..], right[j..]));
      merged := merged + [x];
    }
    while i < |left|
      invariant i <= |left| && j <= |right|
      invariant i < |left| ==> j == |right|
      invariant merged + MergeCounts(left[i..], right[j..]) == MergeCounts(left, right)
    {
      AppendStep(merged, left, i);
      merged := merged + [left[i]];
      i := i + 1;
    }
    while j < |right|
      invariant i == |left| && j <= |right|
      invariant merged + MergeCounts(left[i..], right[j..]) == MergeCounts(left, right)
    {
      AppendStep(merged, right, j);
      merged := merged + [right[j]];
      j := j + 1;
    }
    assert left[i..] == [] && right[j..] == [];
  }

  /** Moving the head of the unread part to the end of the output. */
  lemma AppendStep(merged: seq<Count>, xs: seq<Count>, k: nat)
    requires k < |xs|
    ensures merged + xs[k..] == (merged + [xs[k]]) + xs[k + 1..]
  {
    assert xs[k..] == [xs[k]] + xs[k + 1..];
  }

  lemma SortedTail(xs: seq<Count>)
    requires |xs| > 0 && SortedKeys(xs)
    ensures SortedKeys(xs[1..])
    ensures forall k :: k in Keys(xs[1..]) ==> Less(xs[0].0, k)
  {
    forall k | k in Keys(xs[1..]) ensures Less(xs[0].0, k) {
      var m :| 0 <= m < |xs[1..]| && xs[1..][m].0 == k;
      assert xs[1..][m] == xs[m + 1];
    }
  }

  lemma KeysCons(x: Count, xs: seq<Count>)
    ensures Keys([x] + xs) == {x.0} + Keys(xs)
  {
    var ys := [x] + xs;
    forall k | k in Keys(ys) ensures k in {x.0} + Keys(xs) {
      var m :| 0 <= m < |ys| && ys[m].0 == k;
      if m > 0 { assert ys[m] == xs[m - 1]; }
    }
    forall k | k in Keys(xs) ensures k in Keys(ys) {
      var m :| 0 <= m < |xs| && xs[m].0 == k;
      assert ys[m + 1] == xs[m];
    }
    assert ys[0] == x;
  }

  lemma ConsSortedKeys(x: Count, xs: seq<Count>)
    requires SortedKeys(xs)
    requires forall k :: k in Keys(xs) ==> Less(x.0, k)
    ensures SortedKeys([x] + xs)
  {
    var ys := [x] + xs;
    forall i, j | 0 <= i < j < |ys| ensures Less(ys[i].0, ys[j].0) {
      assert ys[j] == xs[j - 1];
      if i > 0 { assert ys[i] == xs[i - 1]; } else { assert xs[j - 1].0 in Keys(xs); }
    }
  }

  lemma {:induction false} CountOfAbsent(xs: seq<Count>, t: string)
    requires t !in Keys(xs)
    ensures CountOf(xs, t) == 0
    decreases |xs|
  {
    if |xs| > 0 {
      assert xs[0].0 in Keys(xs);
      KeysCons(xs[0], xs[1..]);
      assert xs == [xs[0]] + xs[1..];
      CountOfAbsent(xs[1..], t);
    }
  }

  /** A key below the head of a sorted list is not in it. */
  lemma BelowHeadAbsent(k: string, xs: seq<Count>)
    requires |xs| > 0 && SortedKeys(xs) && Less(k, xs[0].0)
    ensures k !in Keys(xs)
  {
    if k in Keys(xs) {
      var m :| 0 <= m < |xs| && xs[m].0 == k;
      if m > 0 { LessTransitive(k, xs[0].0, k); }
      LessIrreflexive(k);
    }
  }

  lemma BelowHeadBelowAll(k: string, xs: seq<Count>)
    requires |xs| > 0 && SortedKeys(xs) && Less(k, xs[0].0)
    ensures forall y :: y in Keys(xs) ==> Less(k, y)
  {
    forall y | y in Keys(xs) ensures Less(k, y) {
      var m :| 0 <= m < |xs| && xs[m].0 == y;
      if m > 0 { LessTransitive(k, xs[0].0, y); }
    }
  }

  /** Merging sorted lists keeps them sorted, and lists every key of
      either side. */
  lemma {:induction false} MergeSorted(l: seq<Count>, r: seq<Count>)
    requires SortedKeys(l) && SortedKeys(r)
    ensures SortedKeys(MergeCounts(l, r))
    ensures Keys(MergeCounts(l, r)) == Keys(l) + Keys(r)
    decreases |l| + |r|
  {
    if |l| > 0 && |r| > 0 {
      SortedTail(l);
      SortedTail(r);
      KeysCons(l[0], l[1..]);
      KeysCons(r[0], r[1..]);
      assert l == [l[0]] + l[1..] && r == [r[0]] + r[1..];
      var head: Count, rest: seq<Count>;
      if Less(l[0].0, r[0].0) {
        head, rest := l[0], MergeCounts(l[1..], r);
        MergeSorted(l[1..], r);
        BelowHeadBelowAll(l[0].0, r);
      } else if Less(r[0].0, l[0].0) {
        head, rest := r[0], MergeCounts(l, r[1..]);
        MergeSorted(l, r[1..]);
        BelowHeadBelowAll(r[0].0, l);
      } else {
        LessTotal(l[0].0, r[0].0);
        head, rest := (l[0].0, l[0].1 + r[0].1), MergeCounts(l[1..], r[1..]);
        MergeSorted(l[1..], r[1..]);
      }
      assert MergeCounts(l, r) == [head] + rest;
      ConsSortedKeys(head, rest);
      KeysCons(head, rest);
    }
  }

  lemma {:induction false} MergePositive(l: seq<Count>, r: seq<Count>)
    requires Positive(l) && Positive(r)
    ensures Positive(MergeCounts(l, r))
    decreases |l| + |r|
  {
    if |l| > 0 && |r| > 0 {
      var m := MergeCounts(l, r);
      if Less(l[0].0, r[0].0) {
        MergePositive(l[1..], r);
        assert m == [l[0]] + MergeCounts(l[1..], r);
      } else if Less(r[0].0, l[0].0) {
        MergePositive(l, r[1..]);
        assert m == [r[0]] + MergeCounts(l, r[1..]);
      } else {
        MergePositive(l[1..], r[1..]);
        assert m == [(l[0].0, l[0].1 + r[0].1)] + MergeCounts(l[1..], r[1..]);
      }
    }
  }

  /** Merging adds the counts of each term. */
  lemma {:induction false} MergeCountOf(l: seq<Count>, r: seq<Count>, t: string)
    requires SortedKeys(l) && SortedKeys(r)
    ensures CountOf(MergeCounts(l, r), t) == CountOf(l, t) + CountOf(r, t)
    decreases |l| + |r|
  {
    if |l| > 0 && |r| > 0 {
      SortedTail(l);
      SortedTail(r);
      if Less(l[0].0, r[0].0) {
        MergeCountOf(l[1..], r, t);
        if t == l[0].0 {
          BelowHeadAbsent(t, r);
          CountOfAbsent(r, t);
        }
      } else if Less(r[0].0, l[0].0) {
        MergeCountOf(l, r[1..], t);
        if t == r[0].0 {
          BelowHeadAbsent(t, l);
          CountOfAbsent(l, t);
        }
      } else {
        LessTotal(l[0].0, r[0].0);
        MergeCountOf(l[1..], r[1..], t);
        if t == l[0].0 {
          LessIrreflexive(t);
          CountOfAbsent(l[1..], t);
          CountOfAbsent(r[1..], t);
        }
      }
    }
  }

  /** `merge_1`: halves merged recursively. Called with no lists it would
      recurse forever, so it needs at least one. */
  function Merge1(counts: seq<seq<Count>>): seq<Count>
    requires |counts| >= 1
    decreases |counts|
  {
    if |counts| == 1 then counts[0]
    else if |counts| == 2 then MergeCounts(counts[0], counts[1])
    else
      var mid := |counts| / 2;
      MergeCounts(Merge1(counts[..mid]), Merge1(counts[mid..]))
  }

  /** The sum of the counts of `t` over all lists. */
  function TotalCount(counts: seq<seq<Count>>, t: string): nat
    decreases |counts|
  {
    if |counts| == 0 then 0 else CountOf(counts[0], t) + TotalCount(counts[1..], t)
  }

  lemma {:induction false} TotalCountSplit(a: seq<seq<Count>>, b: seq<seq<Count>>, t: string)
    ensures TotalCount(a + b, t) == TotalCount(a, t) + TotalCount(b, t)
    decreases |a|
  {
    if |a| > 0 {
      TotalCountSplit(a[1..], b, t);
      Strings.TailOfConcat(a, b);
    } else {
      assert a + b == b;
    }
  }

  predicate AllSorted(counts: seq<seq<Count>>) {
    forall k :: 0 <= k < |counts| ==> SortedKeys(counts[k]) && Positive(counts[k])
  }

  lemma HalvesSorted(counts: seq<seq<Count>>, mid: nat)
    requires mid <= |counts| && AllSorted(counts)
    ensures AllSorted(counts[..mid]) && AllSorted(counts[mid..])
  {
    var a, b := counts[..mid], counts[mid..];
    forall k | 0 <= k < |a| ensures SortedKeys(a[k]) && Positive(a[k]) { assert a[k] == counts[k]; }
    forall k | 0 <= k < |b| ensures SortedKeys(b[k]) && Positive(b[k]) { assert b[k] == counts[mid + k]; }
  }

  /** Merging all lists gives one sorted list of positive counts. */
  lemma {:induction false} Merge1Sorted(counts: seq<seq<Count>>)
    requires |counts| >= 1 && AllSorted(counts)
    ensures SortedKeys(Merge1(counts)) && Positive(Merge1(counts))
    decreases |counts|
  {
    if |counts| == 2 {
      MergeSorted(counts[0], counts[1]);
      MergePositive(counts[0], counts[1]);
    } else if |counts| > 2 {
      var mid := |counts| / 2;
      HalvesSorted(counts, mid);
      Merge1Sorted(counts[..mid]);
      Merge1Sorted(counts[mid..]);
      MergeSorted(Merge1(counts[..mid]), Merge1(counts[mid..]));
      MergePositive(Merge1(counts[..mid]), Merge1(counts[mid..]));
    }
  }

  /** Merging all lists counts each term once per list holding it. */
  lemma {:induction false} Merge1Count(counts: seq<seq<Count>>, t: string)
    requires |counts| >= 1 && AllSorted(counts)
    ensures CountOf(Merge1(counts), t) == TotalCount(counts, t)
    decreases |counts|
  {
    if |counts| == 1 {
      assert counts[1..] == [];
    } else if |counts| == 2 {
      MergeCountOf(counts[0], counts[1], t);
      assert counts[1..][0] == counts[1] && counts[1..][1..] == [];
      assert TotalCount(counts[1..], t) == CountOf(counts[1], t) + TotalCount(counts[1..][1..], t);
    } else {
      var mid := |counts| / 2;
      var a, b := counts[..mid], counts[mid..];
      HalvesSorted(counts, mid);
      Merge1Sorted(a);
      Merge1Sorted(b);
      Merge1Count(a, t);
      Merge1Count(b, t);
      MergeCountOf(Merge1(a), Merge1(b), t);
      assert counts == a + b;
      TotalCountSplit(a, b, t);
    }
  }

  /** A `BTreeSet`'s terms, each counted once. */
  function Ones(terms: seq<string>): (r: seq<Count>)
    ensures |r| == |terms|
    ensures forall i :: 0 <= i < |terms| ==> r[i] == (terms[i], 1)
  {
    seq(|terms|, i requires 0 <= i < |terms| => (terms[i], 1))
  }

  lemma {:induction false} OnesCount(terms: seq<string>, t: string)
    ensures CountOf(Ones(terms), t) == if t in terms then 1 else 0
    decreases |terms|
  {
    if |terms| > 0 {
      assert Ones(terms)[1..] == Ones(terms[1..]);
      OnesCount(terms[1..], t);
      assert t in terms <==> t == terms[0] || t in terms[1..] by {
        assert terms == [terms[0]] + terms[1..];
      }
    }
  }

  /** How many of the sets hold `t`. */
  function Occurrences(sets: seq<seq<string>>, t: string): nat
    decreases |sets|
  {
    if |sets| == 0 then 0 else (if t in sets[0] then 1 else 0) + Occurrences(sets[1..], t)
  }

  function AllOnes(sets: seq<seq<string>>): (r: seq<seq<Count>>)
    ensures |r| == |sets|
    ensures forall k :: 0 <= k < |sets| ==> r[k] == Ones(sets[k])
  {
    seq(|sets|, k requires 0 <= k < |sets| => Ones(sets[k]))
  }

  lemma {:induction false} AllOnesTotal(sets: seq<seq<string>>, t: string)
    ensures TotalCount(AllOnes(sets), t) == Occurrences(sets, t)
    decreases |sets|
  {
    if |sets| > 0 {
      assert AllOnes(sets)[1..] == AllOnes(sets[1..]);
      AllOnesTotal(sets[1..], t);
      OnesCount(sets[0], t);
    }
  }

  /** `count_terms` over `BTreeSet`s, each given as its sorted listing. */
  function CountTerms(sets: seq<seq<string>>): seq<Count> {
    if |sets| == 0 then [] else Merge1(AllOnes(sets))
  }

  lemma {:induction false} KeysIffCounted(xs: seq<Count>, t: string)
    requires SortedKeys(xs) && Positive(xs)
    ensures t in Keys(xs) <==> CountOf(xs, t) > 0
    decreases |xs|
  {
    if |xs| > 0 {
      SortedTail(xs);
      KeysCons(xs[0], xs[1..]);
      assert xs == [xs[0]] + xs[1..];
      KeysIffCounted(xs[1..], t);
    }
  }

  /** Each term is listed once, in order, with the number of sets holding
      it; terms in no set are not listed. */
  lemma CountTermsSpec(sets: seq<seq<string>>)
    requires forall k :: 0 <= k < |sets| ==> StrictlySorted(sets[k])
    ensures SortedKeys(CountTerms(sets))
    ensures forall t :: CountOf(CountTerms(sets), t) == Occurrences(sets, t)
    ensures forall t :: t in Keys(CountTerms(sets)) <==> Occurrences(sets, t) > 0
  {
    if |sets| == 0 {
      assert forall t :: Occurrences(sets, t) == 0;
    } else {
      var ones := AllOnes(sets);
      assert AllSorted(ones) by {
        forall k | 0 <= k < |ones| ensures SortedKeys(ones[k]) && Positive(ones[k]) {
          assert ones[k] == Ones(sets[k]);
        }
      }
      Merge1Sorted(ones);
      forall t ensures CountOf(CountTerms(sets), t) == Occurrences(sets, t) {
        Merge1Count(ones, t);
        AllOnesTotal(sets, t);
      }
      forall t ensures t in Keys(CountTerms(sets)) <==> Occurrences(sets, t) > 0 {
        KeysIffCounted(CountTerms(sets), t);
      }
    }
  }

  /** The index entries of the query's trigrams, in the order the query's
      set yields them; trigrams no term has are skipped. */
  function IndexedSets(order: seq<string>, index: map<string, seq<string>>): (r: seq<seq<string>>)
    ensures forall k :: 0 <= k < |r| ==> r[k] in index.Values
    decreases |order|
  {
    if |order| == 0 then []
    else
      var rest := IndexedSets(order[1..], index);
      if order[0] in index then
        assert index[order[0]] in index.Values;
        [index[order[0]]] + rest
      else rest
  }

  /** `get_results_trigram_index` before its ranking: the terms sharing at
      least half of the query's trigrams, each with its similarity to the
      query. `order` is the order the query's trigram set yields. */
  function TrigramCandidates(query: string, order: seq<string>, index: map<string, seq<string>>): seq<(string, real)> {
    var counts := CountTerms(IndexedSets(order, index));
    var threshold := |Trigrams(query)| / 2;
    Candidates(counts, threshold, Trigrams(query))
  }

  function Candidates(counts: seq<Count>, threshold: nat, query: set<string>): seq<(string, real)>
    decreases |counts|
  {
    if |counts| == 0 then []
    else
      var rest := Candidates(counts[1..], threshold, query);
      if counts[0].1 >= threshold then [(counts[0].0, Jaccard(query, Trigrams(counts[0].0)))] + rest else rest
  }

  lemma {:induction false} CandidatesSpec(counts: seq<Count>, threshold: nat, query: set<string>, t: string, score: real)
    requires SortedKeys(counts)
    ensures (t, score) in Candidates(counts, threshold, query) <==>
              t in Keys(counts) && CountOf(counts, t) >= threshold && score == Jaccard(query, Trigrams(t))
    decreases |counts|
  {
    if |counts| > 0 {
      SortedTail(counts);
      KeysCons(counts[0], counts[1..]);
      assert counts == [counts[0]] + counts[1..];
      CandidatesSpec(counts[1..], threshold, query, t, score);
      if t == counts[0].0 {
        LessIrreflexive(t);
        assert t !in Keys(counts[1..]);
        CountOfAbsent(counts[1..], t);
      }
    }
  }

  /** A term is a candidate exactly when at least half of the query's
      trigram index entries (rounded down) hold it, and then it carries
      its similarity to the query. */
  lemma TrigramCandidatesSpec(query: string, order: seq<string>, index: map<string, seq<string>>, t: string, score: real)
    requires forall g :: g in index.Values ==> StrictlySorted(g)
    ensures (t, score) in TrigramCandidates(query, order, index) <==>
              var n := Occurrences(IndexedSets(order, index), t);
              n > 0 && n >= |Trigrams(query)| / 2 && score == Jaccard(Trigrams(query), Trigrams(t))
  {
    var sets := IndexedSets(order, index);
    CountTermsSpec(sets);
    CandidatesSpec(CountTerms(sets), |Trigrams(query)| / 2, Trigrams(query), t, score);
  }

  /** A scored result: a term with its score. */
  type Scored = (string, real)

  function Push(merged: seq<string>, x: string): seq<string> {
    if x in merged then merged else merged + [x]
  }

  function PushAll(merged: seq<string>, xs: seq<Scored>): seq<string>
    decreases |xs|
  {
    if |xs| == 0 then merged else PushAll(Push(merged, xs[0].0), xs[1..])
  }

  /** `merge_results` as written: on equal terms it pushes
      `trigram_results[i]`, which is another term, or past the end of the
      list (a panic, here `None`). The index can only run past the end
      when the trie results are the longer list. */
  function MergeResultsAsWritten(trie: seq<Scored>, trigram: seq<Scored>, i: nat, j: nat, merged: seq<string>)
    : (r: Option<seq<string>>)
    requires i <= |trie| && j <= |trigram|
    ensures r.None? ==> |trigram| < |trie|
    decreases |trie| - i + |trigram| - j
  {
    if i < |trie| && j < |trigram| then
      if Less(trie[i].0, trigram[j].0) then MergeResultsAsWritten(trie, trigram, i + 1, j, Push(merged, trie[i].0))
      else if Less(trigram[j].0, trie[i].0) then MergeResultsAsWritten(trie, trigram, i, j + 1, Push(merged, trigram[j].0))
      else if i >= |trigram| then None
      else MergeResultsAsWritten(trie, trigram, i + 1, j + 1, Push(merged, trigram[i].0))
    else Some(PushAll(PushAll(merged, trie[i..]), trigram[j..]))
  }

  /** `merge_results` with the equal-terms branch pushing the shared term. */
  function MergeResultsFrom(trie: seq<Scored>, trigram: seq<Scored>, i: nat, j: nat, merged: seq<string>): seq<string>
    requires i <= |trie| && j <= |trigram|
    decreases |trie| - i + |trigram| - j
  {
    if i < |trie| && j < |trigram| then
      if Less(trie[i].0, trigram[j].0) then MergeResultsFrom(trie, trigram, i + 1, j, Push(merged, trie[i].0))
      else if Less(trigram[j].0, trie[i].0) then MergeResultsFrom(trie, trigram, i, j + 1, Push(merged, trigram[j].0))
      else MergeResultsFrom(trie, trigram, i + 1, j + 1, Push(merged, trigram[j].0))
    else PushAll(PushAll(merged, trie[i..]), trigram[j..])
  }

  /** `merge_results`, corrected: the merged list has no duplicates and
      holds exactly the terms of both result lists. */
  function MergeResults(trie: seq<Scored>, trigram: seq<Scored>): (r: seq<string>)
    ensures Unique(r)
    ensures forall y :: y in r <==> y in Terms(trie) || y in Terms(trigram)
  {
    MergeResultsFromSpec(trie, trigram, 0, 0, []);
    assert trie[0..] == trie && trigram[0..] == trigram;
    MergeResultsFrom(trie, trigram, 0, 0, [])
  }

  function Terms(xs: seq<Scored>): set<string> {
    set k | 0 <= k < |xs| :: xs[k].0
  }

  predicate Unique(xs: seq<string>) {
    forall a, b :: 0 <= a < b < |xs| ==> xs[a] != xs[b]
  }

  lemma PushSpec(merged: seq<string>, x: string)
    requires Unique(merged)
    ensures Unique(Push(merged, x))
    ensures forall y :: y in Push(merged, x) <==> y in merged || y == x
  {
  }

  lemma {:induction false} PushAllSpec(merged: seq<string>, xs: seq<Scored>)
    requires Unique(merged)
    ensures Unique(PushAll(merged, xs))
    ensures forall y :: y in PushAll(merged, xs) <==> y in merged || y in Terms(xs)
    decreases |xs|
  {
    if |xs| > 0 {
      PushSpec(merged, xs[0].0);
      PushAllSpec(Push(merged, xs[0].0), xs[1..]);
      forall y ensures y in Terms(xs) <==> y == xs[0].0 || y in Terms(xs[1..]) {
        if y in Terms(xs) {
          var k :| 0 <= k < |xs| && xs[k].0 == y;
          if k > 0 { assert xs[1..][k - 1] == xs[k]; }
        }
        if y in Terms(xs[1..]) {
          var k :| 0 <= k < |xs[1..]| && xs[1..][k].0 == y;
          assert xs[k + 1] == xs[1..][k];
        }
      }
    }
  }

  lemma TermsFrom(xs: seq<Scored>, i: nat)
    requires i < |xs|
    ensures forall y :: y in Terms(xs[i..]) <==> y == xs[i].0 || y in Terms(xs[i + 1..])
  {
    forall y ensures y in Terms(xs[i..]) <==> y == xs[i].0 || y in Terms(xs[i + 1..]) {
      if y in Terms(xs[i..]) {
        var k :| 0 <= k < |xs[i..]| && xs[i..][k].0 == y;
        if k > 0 { assert xs[i..][k] == xs[i + 1..][k - 1]; }
      }
      if y in Terms(xs[i + 1..]) {
        var k :| 0 <= k < |xs[i + 1..]| && xs[i + 1..][k].0 == y;
        assert xs[i..][k + 1] == xs[i + 1..][k];
      }
      assert xs[i..][0] == xs[i];
    }
  }

  /** The merged results hold every term of either list once and nothing
      else. */
  lemma {:induction false} MergeResultsFromSpec(trie: seq<Scored>, trigram: seq<Scored>, i: nat, j: nat, merged: seq<string>)
    requires i <= |trie| && j <= |trigram| && Unique(merged)
    ensures Unique(MergeResultsFrom(trie, trigram, i, j, merged))
    ensures forall y :: y in MergeResultsFrom(trie, trigram, i, j, merged) <==>
              y in merged || y in Terms(trie[i..]) || y in Terms(trigram[j..])
    decreases |trie| - i + |trigram| - j
  {
    if i < |trie| && j < |trigram| {
      TermsFrom(trie, i);
      TermsFrom(trigram, j);
      if Less(trie[i].0, trigram[j].0) {
        PushSpec(merged, trie[i].0);
        MergeResultsFromSpec(trie, trigram, i + 1, j, Push(merged, trie[i].0));
      } else if Less(trigram[j].0, trie[i].0) {
        PushSpec(merged, trigram[j].0);
        MergeResultsFromSpec(trie, trigram, i, j + 1, Push(merged, trigram[j].0));
      } else {
        LessTotal(trie[i].0, trigram[j].0);
        PushSpec(merged, trigram[j].0);
        MergeResultsFromSpec(trie, trigram, i + 1, j + 1, Push(merged, trigram[j].0));
      }
    } else {
      PushAllSpec(merged, trie[i..]);
      PushAllSpec(PushAll(merged, trie[i..]), trigram[j..]);
    }
  }

  /** When the lists share no term the equal-terms branch is never taken,
      and the code as written agrees with the corrected merge. */
  lemma {:induction false} AsWrittenAgreesWithoutTies(trie: seq<Scored>, trigram: seq<Scored>, i: nat, j: nat, merged: seq<string>)
    requires i <= |trie| && j <= |trigram|
    requires forall a, b :: 0 <= a < |trie| && 0 <= b < |trigram| ==> trie[a].0 != trigram[b].0
    ensures MergeResultsAsWritten(trie, trigram, i, j, merged) == Some(MergeResultsFrom(trie, trigram, i, j, merged))
    decreases |trie| - i + |trigram| - j
  {
    if i < |trie| && j < |trigram| {
      LessTotal(trie[i].0, trigram[j].0);
      if Less(trie[i].0, trigram[j].0) {
        AsWrittenAgreesWithoutTies(trie, trigram, i + 1, j, Push(merged, trie[i].0));
      } else {
        AsWrittenAgreesWithoutTies(trie, trigram, i, j + 1, Push(merged, trigram[j].0));
      }
    }
  }

  /** The shared term is lost: trie `[b]` and trigram `[a, b]` give `[a]`,
      where both terms are meant. */
  lemma SharedTermLost(sa: real, sb: real, sc: real)
    ensures MergeResultsAsWritten([("b", sb)], [("a", sa), ("b", sc)], 0, 0, []) == Some(["a"])
    ensures MergeResults([("b", sb)], [("a", sa), ("b", sc)]) == ["a", "b"]
  {
    var trie: seq<Scored> := [("b", sb)];
    var trigram: seq<Scored> := [("a", sa), ("b", sc)];
    assert Less("a", "b");
    LessAsymmetric("a", "b");
    LessIrreflexive("b");
    assert trie[1..] == [] && trigram[2..] == [];
    assert MergeResultsAsWritten(trie, trigram, 1, 2, ["a"]) == Some(["a"]);
    assert MergeResultsAsWritten(trie, trigram, 0, 1, ["a"]) == Some(["a"]);
    assert MergeResultsFrom(trie, trigram, 1, 2, ["a", "b"]) == ["a", "b"];
    assert MergeResultsFrom(trie, trigram, 0, 1, ["a"]) == ["a", "b"];
    assert Push([], "a") == ["a"];
    assert MergeResultsAsWritten(trie, trigram, 0, 0, []) == Some(["a"]);
    assert MergeResultsFrom(trie, trigram, 0, 0, []) == ["a", "b"];
  }

  /** Past the end: trie `[a, b]` and trigram `[b]` read the trigram list at
      index 1 and panic. */
  lemma SharedTermPanics(sa: real, sb: real, sc: real)
    ensures MergeResultsAsWritten([("a", sa), ("b", sb)], [("b", sc)], 0, 0, []).None?
    ensures MergeResults([("a", sa), ("b", sb)], [("b", sc)]) == ["a", "b"]
  {
    var trie: seq<Scored> := [("a", sa), ("b", sb)];
    var trigram: seq<Scored> := [("b", sc)];
    assert Less("a", "b");
    LessIrreflexive("b");
    assert trie[2..] == [] && trigram[1..] == [];
    assert MergeResultsAsWritten(trie, trigram, 1, 0, ["a"]).None?;
    assert MergeResultsFrom(trie, trigram, 2, 1, ["a", "b"]) == ["a", "b"];
    assert MergeResultsFrom(trie, trigram, 1, 0, ["a"]) == ["a", "b"];
    assert Push([], "a") == ["a"];
    assert MergeResultsAsWritten(trie, trigram, 0, 0, []).None?;
    assert MergeResultsFrom(trie, trigram, 0, 0, []) == ["a", "b"];
  }

  /** The engine: its terms and the length of the longest. The trie and the
      two trigram maps are functions of the terms. */
  datatype Engine = Engine(terms: seq<string>, maxLen: nat)

  function MaxLen(terms: seq<string>): (m: nat)
    ensures forall k :: 0 <= k < |terms| ==> |terms[k]| <= m
    ensures |terms| > 0 ==> exists k :: 0 <= k < |terms| && |terms[k]| == m
    ensures |terms| == 0 ==> m == 0
    decreases |terms|
  {
    if |terms| == 0 then 0
    else
      var rest := MaxLen(terms[1..]);
      assert forall k :: 1 <= k < |terms| ==> terms[k] == terms[1..][k - 1];
      if |terms[0]| >= rest then |terms[0]| else rest
  }

  /** `TagSearchEngine::new`. */
  function New(terms: seq<string>): (e: Engine)
    ensures e.terms == terms
    ensures forall k :: 0 <= k < |terms| ==> |terms[k]| <= e.maxLen
    ensures |terms| > 0 ==> exists k :: 0 <= k < |terms| && |terms[k]| == e.maxLen
  {
    Engine(terms, MaxLen(terms))
  }

  /** The query lengths `search` and `closest` consider. */
  predicate Searchable(e: Engine, query: string) {
    |query| > 0 && |query| <= 2 * e.maxLen
  }

  /** `search`: the trie's prefix results and, for queries longer than one
      character, the trigram results, merged. The two rankings are given
      as functions of the query. */
  function Search(e: Engine, query: string, trieSearch: string -> seq<Scored>, trigramSearch: string -> seq<Scored>)
    : (r: seq<string>)
    ensures !Searchable(e, query) ==> r == []
    ensures Unique(r)
    ensures forall y :: y in r <==>
              Searchable(e, query) && (y in Terms(trieSearch(query)) || (|query| > 1 && y in Terms(trigramSearch(query))))
  {
    if !Searchable(e, query) then []
    else MergeResults(trieSearch(query), if |query| > 1 then trigramSearch(query) else [])
  }

  /** `closest`: the better of the two rankings' first results, the
      trigram one on a tie, if it reaches `maxDistance`. */
  function Closest(e: Engine, query: string, maxDistance: real,
                   trieSearch: string -> seq<Scored>, trigramSearch: string -> seq<Scored>): (r: Option<string>)
    ensures !Searchable(e, query) ==> r == None
  {
    if !Searchable(e, query) then None
    else
      var trie := trieSearch(query);
      var trigram := if |query| > 1 then trigramSearch(query) else [];
      if |trie| == 0 && |trigram| == 0 then None
      else
        var f := if |trie| == 0 then trigram[0]
                 else if |trigram| == 0 then trie[0]
                 else if trie[0].1 > trigram[0].1 then trie[0]
                 else trigram[0];
        if f.1 >= maxDistance then Some(f.0) else None
  }

  /** A result is one of the first results whose score is at least
      `maxDistance` and at least the other first result's; and when a
      first result reaches `maxDistance` and beats the other, it is found. */
  lemma ClosestSpec(e: Engine, query: string, maxDistance: real,
                    trieSearch: string -> seq<Scored>, trigramSearch: string -> seq<Scored>)
    requires Searchable(e, query)
    ensures var trie := trieSearch(query);
            var trigram := if |query| > 1 then trigramSearch(query) else [];
            var r := Closest(e, query, maxDistance, trieSearch, trigramSearch);
            && (r.Some? ==> exists f :: ((|trie| > 0 && f == trie[0]) || (|trigram| > 0 && f == trigram[0]))
                                        && f.0 == r.value && f.1 >= maxDistance
                                        && (|trie| > 0 ==> f.1 >= trie[0].1) && (|trigram| > 0 ==> f.1 >= trigram[0].1))
            && (|trie| > 0 && trie[0].1 >= maxDistance && (|trigram| == 0 || trie[0].1 > trigram[0].1) ==> r == Some(trie[0].0))
            && (|trigram| > 0 && trigram[0].1 >= maxDistance && (|trie| == 0 || trigram[0].1 >= trie[0].1) ==> r == Some(trigram[0].0))
  {
  }
}
