/** The older tree's `StickerTagQuery::generate`: stickers whose file hash
    carries every required tag and none of the excluded ones, one nested
    `IN` condition per tag, joined by `AND`. It shares the fragments,
    rendering and binding of the current tree's builder. */
module LegacyQueryBuilder {
  import opened Wrappers
  import opened Strings
  import opened QueryBuilder

  /** `usize`, the type of the older tree's limit and offset. */
  type Usize = n: int | 0 <= n < 0x1_0000_0000_0000_0000

  /** `n as i64` on a `usize`: the low 64 bits read as two's complement. */
  function AsI64(n: Usize): (r: int)
    ensures -0x8000_0000_0000_0000 <= r < 0x8000_0000_0000_0000
    ensures (n - r) % 0x1_0000_0000_0000_0000 == 0
  {
    if n < 0x8000_0000_0000_0000 then n else n - 0x1_0000_0000_0000_0000
  }

  /** Every limit a caller would use is bound unchanged. */
  lemma AsI64Small(n: Usize)
    requires n < 0x8000_0000_0000_0000
    ensures AsI64(n) == n
  {
  }

  datatype LegacyQuery = LegacyQuery(must: seq<string>, mustNot: seq<string>, limit: Option<Usize>, offset: Option<Usize>)

  function LegacyNew(must: seq<string>, mustNot: seq<string>): (r: LegacyQuery)
    ensures r.must == must && r.mustNot == mustNot
    ensures r.limit.None? && r.offset.None?
  {
    LegacyQuery(must, mustNot, None, None)
  }

  /** `limit`: sets the limit and leaves the rest alone. */
  function WithLimit(q: LegacyQuery, limit: Usize): (r: LegacyQuery)
    ensures r.limit == Some(limit)
    ensures r.must == q.must && r.mustNot == q.mustNot && r.offset == q.offset
  {
    q.(limit := Some(limit))
  }

  /** `offset`: sets the offset and leaves the rest alone. */
  function WithOffset(q: LegacyQuery, offset: Usize): (r: LegacyQuery)
    ensures r.offset == Some(offset)
    ensures r.must == q.must && r.mustNot == q.mustNot && r.limit == q.limit
  {
    q.(offset := Some(offset))
  }

  /** One tag condition: the file hash is (or is not) among those carrying
      the tag. */
  datatype Condition = Require(tag: string) | Exclude(tag: string)

  function Requires(tags: seq<string>): seq<Condition>
    decreases |tags|
  {
    if |tags| == 0 then [] else [Require(tags[0])] + Requires(tags[1..])
  }

  function Excludes(tags: seq<string>): seq<Condition>
    decreases |tags|
  {
    if |tags| == 0 then [] else [Exclude(tags[0])] + Excludes(tags[1..])
  }

  /** The conditions in the order the two loops push them. */
  function Conditions(q: LegacyQuery): seq<Condition> {
    Requires(q.must) + Excludes(q.mustNot)
  }

  function TagsOf(conds: seq<Condition>): seq<string>
    decreases |conds|
  {
    if |conds| == 0 then [] else [conds[0].tag] + TagsOf(conds[1..])
  }

  lemma {:induction false} TagsOfConcat(a: seq<Condition>, b: seq<Condition>)
    ensures TagsOf(a + b) == TagsOf(a) + TagsOf(b)
    decreases |a|
  {
    if |a| == 0 {
      assert a + b == b;
    } else {
      TagsOfConcat(a[1..], b);
      assert (a + b)[0] == a[0];
      assert (a + b)[1..] == a[1..] + b;
      PrependAssoc([a[0].tag], TagsOf(a[1..]), TagsOf(b));
    }
  }

  lemma {:induction false} RequiresTags(tags: seq<string>)
    ensures TagsOf(Requires(tags)) == tags
    decreases |tags|
  {
    if |tags| > 0 {
      RequiresTags(tags[1..]);
      var r := Requires(tags);
      assert r[0].tag == tags[0] && r[1..] == Requires(tags[1..]);
      assert tags == [tags[0]] + tags[1..];
    }
  }

  lemma {:induction false} RequiresAt(tags: seq<string>)
    ensures |Requires(tags)| == |tags|
    ensures forall i :: 0 <= i < |tags| ==> Requires(tags)[i] == Require(tags[i])
    decreases |tags|
  {
    if |tags| > 0 {
      RequiresAt(tags[1..]);
      var r := Requires(tags);
      assert r == [Require(tags[0])] + Requires(tags[1..]);
    }
  }

  lemma {:induction false} ExcludesTags(tags: seq<string>)
    ensures TagsOf(Excludes(tags)) == tags
    decreases |tags|
  {
    if |tags| > 0 {
      ExcludesTags(tags[1..]);
      var r := Excludes(tags);
      assert r[0].tag == tags[0] && r[1..] == Excludes(tags[1..]);
      assert tags == [tags[0]] + tags[1..];
    }
  }

  lemma {:induction false} ExcludesAt(tags: seq<string>)
    ensures |Excludes(tags)| == |tags|
    ensures forall i :: 0 <= i < |tags| ==> Excludes(tags)[i] == Exclude(tags[i])
    decreases |tags|
  {
    if |tags| > 0 {
      ExcludesAt(tags[1..]);
      var r := Excludes(tags);
      assert r == [Exclude(tags[0])] + Excludes(tags[1..]);
    }
  }

  /** The conditions carry the required tags, then the excluded ones, each
      with its own polarity. */
  lemma ConditionsShape(q: LegacyQuery)
    ensures TagsOf(Conditions(q)) == q.must + q.mustNot
    ensures |Conditions(q)| == |q.must| + |q.mustNot|
    ensures forall i :: 0 <= i < |q.must| ==> Conditions(q)[i] == Require(q.must[i])
    ensures forall i :: 0 <= i < |q.mustNot| ==> Conditions(q)[|q.must| + i] == Exclude(q.mustNot[i])
  {
    RequiresTags(q.must);
    ExcludesTags(q.mustNot);
    RequiresAt(q.must);
    ExcludesAt(q.mustNot);
    TagsOfConcat(Requires(q.must), Excludes(q.mustNot));
  }

  function LegacyHead(): Query {
    [Sql(SelectSticker), Sql(WhereHashIn), Sql(SelectHash), Sql(FromHashTag), Sql(Where)]
  }

  function ClauseFrags(c: Condition): Query {
    [Sql(if c.Require? then HashIn else HashNotIn), Sql(SelectHash), Sql(FromHashTag), Sql(Where), Sql(TagEquals),
     Param(TextBind(c.tag)), Sql(CloseList)]
  }

  /** The `separated` builder: `AND` before every condition but the
      first. */
  function ClausesFrags(conds: seq<Condition>): Query
    decreases |conds|
  {
    if |conds| == 0 then []
    else if |conds| == 1 then ClauseFrags(conds[0])
    else ClauseFrags(conds[0]) + [Sql(And)] + ClausesFrags(conds[1..])
  }

  function LegacyTail(limit: Option<Usize>, offset: Option<Usize>): Query {
    [Sql(CloseList), Sql(GroupByHash), Sql(LimitKeyword), Param(BigIntBind(AsI64(limit.GetOr(10)))),
     Sql(SpacedOffset), Param(BigIntBind(AsI64(offset.GetOr(0))))]
  }

  /** `generate` as written. The values bound, in order: the required
      tags, the excluded tags, the limit (ten by default) and the offset
      (zero by default), each as a 64-bit integer; and one `?` in the text
      for each. */
  function LegacyGenerate(q: LegacyQuery): (r: Query)
    ensures Binds(r) ==
            TextBinds(q.must + q.mustNot) + [BigIntBind(AsI64(q.limit.GetOr(10))), BigIntBind(AsI64(q.offset.GetOr(0)))]
    ensures Placeholders(Render(r)) == |Binds(r)|
  {
    var head := LegacyHead();
    var mid := ClausesFrags(Conditions(q));
    var tail := LegacyTail(q.limit, q.offset);
    ClausesBinds(Conditions(q));
    ConditionsShape(q);
    Binds3(head, mid, tail);
    LegacyHeadBinds();
    LegacyTailBinds(q.limit, q.offset);
    PlaceholdersMatchBinds(head + mid + tail);
    head + mid + tail
  }

  // Bound values

  lemma ClauseBinds(c: Condition)
    ensures Binds(ClauseFrags(c)) == [TextBind(c.tag)]
  {
    var r := ClauseFrags(c);
    assert Binds(r[6..]) == [];
    assert Binds(r[5..]) == [TextBind(c.tag)];
    assert Binds(r[4..]) == Binds(r[5..]);
    assert Binds(r[3..]) == Binds(r[4..]);
    assert Binds(r[2..]) == Binds(r[3..]);
    assert Binds(r[1..]) == Binds(r[2..]);
  }

  lemma {:induction false} ClausesBinds(conds: seq<Condition>)
    ensures Binds(ClausesFrags(conds)) == TextBinds(TagsOf(conds))
    decreases |conds|
  {
    if |conds| == 1 {
      ClauseBinds(conds[0]);
      assert conds[1..] == [];
      assert TagsOf(conds) == [conds[0].tag];
      assert [conds[0].tag][1..] == [];
    } else if |conds| > 1 {
      var here := ClauseFrags(conds[0]);
      var rest := ClausesFrags(conds[1..]);
      assert ClausesFrags(conds) == here + [Sql(And)] + rest;
      assert Binds(ClausesFrags(conds)) == Binds(here) + Binds(rest) by {
        assert Binds([Sql(And)]) == [];
        Binds3(here, [Sql(And)], rest);
      }
      ClauseBinds(conds[0]);
      ClausesBinds(conds[1..]);
      assert TagsOf(conds)[1..] == TagsOf(conds[1..]);
    }
  }

  lemma LegacyHeadBinds()
    ensures Binds(LegacyHead()) == []
  {
    var r := LegacyHead();
    assert Binds(r[4..]) == [];
    assert Binds(r[3..]) == [];
    assert Binds(r[2..]) == [];
    assert Binds(r[1..]) == [];
  }

  lemma LegacyTailBinds(limit: Option<Usize>, offset: Option<Usize>)
    ensures Binds(LegacyTail(limit, offset)) == [BigIntBind(AsI64(limit.GetOr(10))), BigIntBind(AsI64(offset.GetOr(0)))]
  {
    var r := LegacyTail(limit, offset);
    assert Binds(r[5..]) == [BigIntBind(AsI64(offset.GetOr(0)))];
    assert Binds(r[4..]) == Binds(r[5..]);
    assert Binds(r[3..]) == [BigIntBind(AsI64(limit.GetOr(10)))] + Binds(r[4..]);
    assert Binds(r[2..]) == Binds(r[3..]);
    assert Binds(r[1..]) == Binds(r[2..]);
  }

  // The empty condition

  /** The text has a `WHERE` with nothing before the closing parenthesis. */
  function EmptyWhere(q: Query): bool
    decreases |q|
  {
    |q| >= 2 && ((q[0] == Sql(Where) && q[1] == Sql(CloseList)) || EmptyWhere(q[1..]))
  }

  lemma {:induction false} EmptyWhereConcat(a: Query, b: Query)
    ensures EmptyWhere(a + b) <==>
              EmptyWhere(a) || EmptyWhere(b)
              || (|a| > 0 && |b| > 0 && a[|a| - 1] == Sql(Where) && b[0] == Sql(CloseList))
    decreases |a|
  {
    if |a| == 0 {
      assert a + b == b;
    } else {
      EmptyWhereConcat(a[1..], b);
      assert (a + b)[0] == a[0];
      assert (a + b)[1..] == a[1..] + b;
      if |a| == 1 {
        assert a[1..] == [];
      }
    }
  }

  /** One step back along a query: the fragment at `i` does not open an
      empty `WHERE`. */
  lemma NoEmptyWhereStep(q: Query, i: nat)
    requires i < |q|
    requires !EmptyWhere(q[i + 1..])
    requires q[i] != Sql(Where) || i + 1 == |q| || q[i + 1] != Sql(CloseList)
    ensures !EmptyWhere(q[i..])
  {
    assert q[i..][1..] == q[i + 1..];
  }

  lemma HeadNoEmptyWhere()
    ensures !EmptyWhere(LegacyHead())
    ensures LegacyHead()[|LegacyHead()| - 1] == Sql(Where)
  {
    var r := LegacyHead();
    NoEmptyWhereStep(r, 3);
    NoEmptyWhereStep(r, 2);
    NoEmptyWhereStep(r, 1);
    NoEmptyWhereStep(r, 0);
    assert r[0..] == r;
  }

  lemma TailNoEmptyWhere(limit: Option<Usize>, offset: Option<Usize>)
    ensures !EmptyWhere(LegacyTail(limit, offset))
    ensures LegacyTail(limit, offset)[0] == Sql(CloseList)
  {
    var r := LegacyTail(limit, offset);
    NoEmptyWhereStep(r, 4);
    NoEmptyWhereStep(r, 3);
    NoEmptyWhereStep(r, 2);
    NoEmptyWhereStep(r, 1);
    NoEmptyWhereStep(r, 0);
    assert r[0..] == r;
  }

  lemma ClauseNoEmptyWhere(c: Condition)
    ensures !EmptyWhere(ClauseFrags(c))
    ensures ClauseFrags(c)[0] != Sql(CloseList)
    ensures ClauseFrags(c)[|ClauseFrags(c)| - 1] == Sql(CloseList)
  {
    var r := ClauseFrags(c);
    NoEmptyWhereStep(r, 5);
    NoEmptyWhereStep(r, 4);
    NoEmptyWhereStep(r, 3);
    NoEmptyWhereStep(r, 2);
    NoEmptyWhereStep(r, 1);
    NoEmptyWhereStep(r, 0);
    assert r[0..] == r;
  }

  /** The conditions never leave a `WHERE` empty, and begin with a
      condition rather than a parenthesis when there are any. */
  lemma {:induction false} ClausesNoEmptyWhere(conds: seq<Condition>)
    ensures !EmptyWhere(ClausesFrags(conds))
    ensures |conds| > 0 ==> |ClausesFrags(conds)| > 0 && ClausesFrags(conds)[0] != Sql(CloseList)
    ensures |conds| > 0 ==> ClausesFrags(conds)[|ClausesFrags(conds)| - 1] == Sql(CloseList)
    ensures |conds| == 0 ==> ClausesFrags(conds) == []
    decreases |conds|
  {
    if |conds| == 1 {
      ClauseNoEmptyWhere(conds[0]);
    } else if |conds| > 1 {
      var here := ClauseFrags(conds[0]);
      var rest := ClausesFrags(conds[1..]);
      ClauseNoEmptyWhere(conds[0]);
      ClausesNoEmptyWhere(conds[1..]);
      assert ClausesFrags(conds) == (here + [Sql(And)]) + rest;
      assert !EmptyWhere(here + [Sql(And)]) by {
        EmptyWhereConcat(here, [Sql(And)]);
      }
      EmptyWhereConcat(here + [Sql(And)], rest);
    }
  }

  /** As written, the query leaves `WHERE )` in its text exactly when
      there is neither a required nor an excluded tag. */
  lemma EmptyWhereIffNoTags(q: LegacyQuery)
    ensures EmptyWhere(LegacyGenerate(q)) <==> |q.must| == 0 && |q.mustNot| == 0
  {
    var head := LegacyHead();
    var mid := ClausesFrags(Conditions(q));
    var tail := LegacyTail(q.limit, q.offset);
    HeadNoEmptyWhere();
    TailNoEmptyWhere(q.limit, q.offset);
    ClausesNoEmptyWhere(Conditions(q));
    ConditionsShape(q);
    EmptyWhereConcat(head, mid);
    EmptyWhereConcat(head + mid, tail);
    if |mid| > 0 {
      assert (head + mid)[|head + mid| - 1] == mid[|mid| - 1];
    } else {
      assert head + mid == head;
    }
  }

  /** The call the inline search makes for an empty query with an empty
      blacklist. */
  lemma EmptySearchText()
    ensures LegacyGenerate(LegacyNew([], []))
            == LegacyHead() + LegacyTail(None, None)
    ensures EmptyWhere(LegacyGenerate(LegacyNew([], [])))
  {
    assert Conditions(LegacyNew([], [])) == [];
    EmptyWhereIffNoTags(LegacyNew([], []));
  }

  /** Without conditions there is nothing to filter on: the corrected
      builder drops the file-hash subquery and its closing parenthesis. It
      never leaves a `WHERE` empty, writes what the original does whenever
      there is a tag, and binds the same values. */
  function FixedGenerate(q: LegacyQuery): (r: Query)
    ensures !EmptyWhere(r)
    ensures |q.must| > 0 || |q.mustNot| > 0 ==> r == LegacyGenerate(q)
    ensures Binds(r) == Binds(LegacyGenerate(q))
  {
    if |q.must| == 0 && |q.mustNot| == 0 then
      TaglessQuery(q.limit, q.offset);
      assert q.must + q.mustNot == [];
      [Sql(SelectSticker)] + LegacyTail(q.limit, q.offset)[1..]
    else
      EmptyWhereIffNoTags(q);
      LegacyGenerate(q)
  }

  /** The query without the subquery has no empty `WHERE` and binds only
      the limit and the offset. */
  lemma TaglessQuery(limit: Option<Usize>, offset: Option<Usize>)
    ensures !EmptyWhere([Sql(SelectSticker)] + LegacyTail(limit, offset)[1..])
    ensures Binds([Sql(SelectSticker)] + LegacyTail(limit, offset)[1..])
            == [BigIntBind(AsI64(limit.GetOr(10))), BigIntBind(AsI64(offset.GetOr(0)))]
  {
    var tail := LegacyTail(limit, offset);
    TailNoEmptyWhere(limit, offset);
    assert tail == [tail[0]] + tail[1..];
    EmptyWhereConcat([tail[0]], tail[1..]);
    EmptyWhereConcat([Sql(SelectSticker)], tail[1..]);
    assert Binds([Sql(SelectSticker)]) == [] && Binds([tail[0]]) == [];
    BindsConcat([Sql(SelectSticker)], tail[1..]);
    BindsConcat([tail[0]], tail[1..]);
    LegacyTailBinds(limit, offset);
  }

  // The source's examples

  lemma LegacyHeadText()
    ensures Render(LegacyHead())
            == "SELECT * FROM sticker " + "WHERE file_hash IN " + "(SELECT file_hash " + "FROM file_hash_tag " + "WHERE "
  {
    var r := LegacyHead();
    assert r[4..][1..] == [];
  }

  /** The first test: one required and one excluded tag. */
  lemma Example1Frags(solo: string, meta: string)
    ensures LegacyGenerate(WithOffset(WithLimit(LegacyNew([solo], [meta]), 100), 200))
            == LegacyHead() + ClauseFrags(Require(solo)) + [Sql(And)] + ClauseFrags(Exclude(meta)) + LegacyTail(Some(100), Some(200))
  {
    var q := WithOffset(WithLimit(LegacyNew([solo], [meta]), 100), 200);
    assert q.must == [solo] && q.mustNot == [meta];
    assert Requires([solo]) == [Require(solo)] by { assert [solo][1..] == []; }
    assert Excludes([meta]) == [Exclude(meta)] by { assert [meta][1..] == []; }
    var conds := Conditions(q);
    assert conds == [Require(solo), Exclude(meta)];
    assert conds[1..] == [Exclude(meta)];
    assert ClausesFrags(conds) == ClauseFrags(Require(solo)) + [Sql(And)] + ClauseFrags(Exclude(meta));
  }

  lemma Example1Binds(solo: string, meta: string)
    ensures Binds(LegacyGenerate(WithOffset(WithLimit(LegacyNew([solo], [meta]), 100), 200)))
            == [TextBind(solo), TextBind(meta), BigIntBind(100), BigIntBind(200)]
  {
    var q := WithOffset(WithLimit(LegacyNew([solo], [meta]), 100), 200);
    assert [solo] + [meta] == [solo, meta];
    TextBindsTwo(solo, meta);
  }

  /** The second test: two required tags, then the excluded one. */
  lemma Example2Binds(solo: string, heart: string, meta: string)
    ensures Binds(LegacyGenerate(WithOffset(WithLimit(LegacyNew([solo, heart], [meta]), 100), 200)))
            == [TextBind(solo), TextBind(heart), TextBind(meta), BigIntBind(100), BigIntBind(200)]
  {
    var q := WithOffset(WithLimit(LegacyNew([solo, heart], [meta]), 100), 200);
    assert [solo, heart] + [meta] == [solo, heart, meta];
    assert [solo, heart, meta][1..] == [heart, meta];
    TextBindsTwo(heart, meta);
  }
}
