/** `StickerTagQuery::generate`: the SQL text of a tag search, built from
    fixed SQL fragments and bound parameters. A query is a sequence of
    fragments; it renders as the fragments' text with `?` for each
    parameter, and binds the parameters in order. The fragments of both
    trees' builders are listed here. */
module QueryBuilder {
  import opened Wrappers
  import opened Strings
  import opened DatabaseUtil

  datatype Bind = TextBind(text: string) | IntegerBind(int32: int) | BigIntBind(int64: int)

  /** The fixed pieces of SQL text the builders write. */
  datatype Keyword =
    | SelectSticker | WhereFileIn | TaggedFiles | FromFileTag | GroupByFile
    | Having | CountTagIn | ThenOneEnd | EqualsZero | And | CloseSubquery
    | EmojiIn | Space | GroupBySticker | OrderBy | Newest | Shuffled
    | LimitKeyword | OffsetKeyword | OpenList | Comma | CloseList
    | WhereHashIn | SelectHash | FromHashTag | Where | HashIn | HashNotIn | TagEquals
    | GroupByHash | SpacedOffset

  function KeywordText(k: Keyword): string {
    match k
    case SelectSticker => "SELECT * FROM sticker "
    case WhereFileIn => "WHERE sticker.sticker_file_id IN "
    case TaggedFiles => "(SELECT sticker_file_id "
    case FromFileTag => "FROM sticker_file_tag "
    case GroupByFile => "GROUP BY sticker_file_id "
    case Having => "HAVING "
    case CountTagIn => "count(CASE WHEN tag IN "
    case ThenOneEnd => " THEN 1 END) = "
    case EqualsZero => " THEN 1 END) = 0"
    case And => " AND "
    case CloseSubquery => ") "
    case EmojiIn => "AND sticker.emoji IN "
    case Space => " "
    case GroupBySticker => "GROUP BY sticker.sticker_file_id "
    case OrderBy => "ORDER BY "
    case Newest => "rowid DESC "
    case Shuffled => "sin(rowid + "
    case LimitKeyword => "LIMIT "
    case OffsetKeyword => "OFFSET "
    case OpenList => "("
    case Comma => ", "
    case CloseList => ")"
    case WhereHashIn => "WHERE file_hash IN "
    case SelectHash => "(SELECT file_hash "
    case FromHashTag => "FROM file_hash_tag "
    case Where => "WHERE "
    case HashIn => "file_hash_tag.file_hash IN "
    case HashNotIn => "file_hash_tag.file_hash NOT IN "
    case TagEquals => "tag = "
    case GroupByHash => " GROUP BY sticker.file_hash "
    case SpacedOffset => " OFFSET "
  }

  predicate Unmarked(s: string) {
    '?' !in s
  }

  /** No fixed fragment contains a `?` of its own. */
  lemma KeywordUnmarked(k: Keyword)
    ensures Unmarked(KeywordText(k))
  {
    match k
    case SelectSticker => UnmarkedGroup0(k);
    case WhereFileIn => UnmarkedGroup1(k);
    case TaggedFiles => UnmarkedGroup2(k);
    case FromFileTag => UnmarkedGroup3(k);
    case GroupByFile | Having => UnmarkedGroup4(k);
    case CountTagIn | ThenOneEnd => UnmarkedGroup5(k);
    case EqualsZero | And | CloseSubquery => UnmarkedGroup6(k);
    case EmojiIn | Space => UnmarkedGroup7(k);
    case GroupBySticker => UnmarkedGroup8(k);
    case OrderBy | Newest | Shuffled | LimitKeyword => UnmarkedGroup9(k);
    case OffsetKeyword | OpenList | Comma | CloseList | WhereHashIn => UnmarkedGroup10(k);
    case SelectHash | FromHashTag => UnmarkedGroup11(k);
    case Where | HashIn => UnmarkedGroup12(k);
    case HashNotIn | TagEquals => UnmarkedGroup13(k);
    case GroupByHash | SpacedOffset => UnmarkedGroup14(k);
  }

  lemma UnmarkedGroup0(k: Keyword)
    requires k == SelectSticker
    ensures Unmarked(KeywordText(k))
  {
  }

  lemma UnmarkedGroup1(k: Keyword)
    requires k == WhereFileIn
    ensures Unmarked(KeywordText(k))
  {
  }

  lemma UnmarkedGroup2(k: Keyword)
    requires k == TaggedFiles
    ensures Unmarked(KeywordText(k))
  {
  }

  lemma UnmarkedGroup3(k: Keyword)
    requires k == FromFileTag
    ensures Unmarked(KeywordText(k))
  {
  }

  lemma UnmarkedGroup4(k: Keyword)
    requires k == GroupByFile || k == Having
    ensures Unmarked(KeywordText(k))
  {
  }

  lemma UnmarkedGroup5(k: Keyword)
    requires k == CountTagIn || k == ThenOneEnd
    ensures Unmarked(KeywordText(k))
  {
  }

  lemma UnmarkedGroup6(k: Keyword)
    requires k == EqualsZero || k == And || k == CloseSubquery
    ensures Unmarked(KeywordText(k))
  {
  }

  lemma UnmarkedGroup7(k: Keyword)
    requires k == EmojiIn || k == Space
    ensures Unmarked(KeywordText(k))
  {
  }

  lemma UnmarkedGroup8(k: Keyword)
    requires k == GroupBySticker
    ensures Unmarked(KeywordText(k))
  {
  }

  lemma UnmarkedGroup9(k: Keyword)
    requires k == OrderBy || k == Newest || k == Shuffled || k == LimitKeyword
    ensures Unmarked(KeywordText(k))
  {
  }

  lemma UnmarkedGroup10(k: Keyword)
    requires k == OffsetKeyword || k == OpenList || k == Comma || k == CloseList || k == WhereHashIn
    ensures Unmarked(KeywordText(k))
  {
  }

  lemma UnmarkedGroup11(k: Keyword)
    requires k == SelectHash || k == FromHashTag
    ensures Unmarked(KeywordText(k))
  {
  }

  lemma UnmarkedGroup12(k: Keyword)
    requires k == Where || k == HashIn
    ensures Unmarked(KeywordText(k))
  {
  }

  lemma UnmarkedGroup13(k: Keyword)
    requires k == HashNotIn || k == TagEquals
    ensures Unmarked(KeywordText(k))
  {
  }

  lemma UnmarkedGroup14(k: Keyword)
    requires k == GroupByHash || k == SpacedOffset
    ensures Unmarked(KeywordText(k))
  {
  }

  datatype Frag = Sql(keyword: Keyword) | Param(bind: Bind)

  type Query = seq<Frag>

  function FragText(f: Frag): string {
    if f.Sql? then KeywordText(f.keyword) else "?"
  }

  function FragBinds(f: Frag): seq<Bind> {
    if f.Param? then [f.bind] else []
  }

  /** The SQL text: each parameter is written as `?`. */
  function Render(q: Query): string
    decreases |q|
  {
    if |q| == 0 then "" else FragText(q[0]) + Render(q[1..])
  }

  /** The bound values, in order. */
  function Binds(q: Query): (r: seq<Bind>)
    ensures |r| <= |q|
    decreases |q|
  {
    if |q| == 0 then [] else FragBinds(q[0]) + Binds(q[1..])
  }

  function Placeholders(s: string): nat
    decreases |s|
  {
    if |s| == 0 then 0 else (if s[0] == '?' then 1 else 0) + Placeholders(s[1..])
  }

  lemma {:induction false} PlaceholdersConcat(a: string, b: string)
    ensures Placeholders(a + b) == Placeholders(a) + Placeholders(b)
    decreases |a|
  {
    if |a| == 0 {
      assert a + b == b;
    } else {
      PlaceholdersConcat(a[1..], b);
      assert (a + b)[1..] == a[1..] + b;
    }
  }

  lemma {:induction false} NoPlaceholders(s: string)
    requires Unmarked(s)
    ensures Placeholders(s) == 0
    decreases |s|
  {
    if |s| > 0 {
      assert s == [s[0]] + s[1..];
      NoPlaceholders(s[1..]);
    }
  }

  /** The text of any query has exactly one placeholder per bound value. */
  lemma {:induction false} PlaceholdersMatchBinds(q: Query)
    ensures Placeholders(Render(q)) == |Binds(q)|
    decreases |q|
  {
    if |q| > 0 {
      PlaceholdersMatchBinds(q[1..]);
      PlaceholdersConcat(FragText(q[0]), Render(q[1..]));
      if q[0].Sql? {
        KeywordUnmarked(q[0].keyword);
        NoPlaceholders(FragText(q[0]));
      } else {
        assert Placeholders("?") == 1;
      }
    }
  }

  lemma {:induction false} TextConcat(a: Query, b: Query)
    ensures Render(a + b) == Render(a) + Render(b)
    decreases |a|
  {
    if |a| == 0 {
      assert a + b == b;
    } else {
      TextConcat(a[1..], b);
      assert (a + b)[0] == a[0];
      assert (a + b)[1..] == a[1..] + b;
      PrependAssoc(FragText(a[0]), Render(a[1..]), Render(b));
    }
  }

  lemma {:induction false} BindsConcat(a: Query, b: Query)
    ensures Binds(a + b) == Binds(a) + Binds(b)
    decreases |a|
  {
    if |a| == 0 {
      assert a + b == b;
    } else {
      BindsConcat(a[1..], b);
      assert (a + b)[0] == a[0];
      assert (a + b)[1..] == a[1..] + b;
      PrependAssoc(FragBinds(a[0]), Binds(a[1..]), Binds(b));
    }
  }

  /** Each item bound as text, in order. */
  function TextBinds(items: seq<string>): seq<Bind>
    decreases |items|
  {
    if |items| == 0 then [] else [TextBind(items[0])] + TextBinds(items[1..])
  }

  // ------------------------------------------------------ generate_sql_list

  /** The fragments a list item contributes at its position: the first of
      several opens the list, the last closes it, a lone item does both. */
  function ItemFrags(item: string, first: bool, last: bool): Query {
    (if first then [Sql(OpenList)] else []) + [Param(TextBind(item))] + [Sql(if last then CloseList else Comma)]
  }

  lemma ItemBinds(item: string, first: bool, last: bool)
    ensures Binds(ItemFrags(item, first, last)) == [TextBind(item)]
  {
    var open: Query := if first then [Sql(OpenList)] else [];
    var p := [Param(TextBind(item))];
    var close := [Sql(if last then CloseList else Comma)];
    assert Binds(p) == [TextBind(item)];
    assert Binds(open) == [] && Binds(close) == [];
    BindsConcat(open, p);
    BindsConcat(open + p, close);
  }

  function ListFrom(items: seq<string>, k: nat): Query
    requires k <= |items|
    decreases |items| - k
  {
    if k == |items| then []
    else ItemFrags(items[k], k == 0, k == |items| - 1) + ListFrom(items, k + 1)
  }

  /** `generate_sql_list`: `(?)`, `(?, ?)`, … binding the items in
      order. */
  function SqlList(items: seq<string>): Query {
    ListFrom(items, 0)
  }

  /** One `?` per item. */
  function Marks(n: nat): seq<string> {
    seq(n, _ => "?")
  }

  lemma RenderOne(f: Frag)
    ensures Render([f]) == FragText(f)
  {
    assert [f][1..] == [];
  }

  /** An item's text: `?`, opened by `(` when first, closed by `)` when
      last and followed by `, ` otherwise. */
  lemma ItemText(item: string, first: bool, last: bool)
    ensures Render(ItemFrags(item, first, last)) == (if first then "(" else "") + "?" + (if last then ")" else ", ")
  {
    var open: Query := if first then [Sql(OpenList)] else [];
    var p := [Param(TextBind(item))];
    var close := [Sql(if last then CloseList else Comma)];
    assert ItemFrags(item, first, last) == open + p + close;
    TextConcat(open, p);
    TextConcat(open + p, close);
    RenderOne(p[0]);
    RenderOne(close[0]);
    if first {
      RenderOne(open[0]);
    }
  }

  lemma {:induction false} ListFromBinds(items: seq<string>, k: nat)
    requires k <= |items|
    ensures Binds(ListFrom(items, k)) == TextBinds(items[k..])
    decreases |items| - k
  {
    if k < |items| {
      var here := ItemFrags(items[k], k == 0, k == |items| - 1);
      assert Binds(ListFrom(items, k)) == Binds(here) + Binds(ListFrom(items, k + 1)) by {
        BindsConcat(here, ListFrom(items, k + 1));
      }
      ItemBinds(items[k], k == 0, k == |items| - 1);
      ListFromBinds(items, k + 1);
      assert items[k..][1..] == items[k + 1..];
    } else {
      assert TextBinds(items[k..]) == [];
    }
  }

  lemma JoinMarks(n: nat)
    requires n > 0
    ensures Join(Marks(n), ", ") == if n == 1 then "?" else "?" + ", " + Join(Marks(n - 1), ", ")
  {
    if n > 1 {
      assert Marks(n)[1..] == Marks(n - 1);
    }
  }

  lemma {:induction false} ListFromText(items: seq<string>, k: nat)
    requires 0 < k < |items|
    ensures Render(ListFrom(items, k)) == Join(Marks(|items| - k), ", ") + ")"
    decreases |items| - k
  {
    var last := k == |items| - 1;
    var here := ItemFrags(items[k], false, last);
    var rest := ListFrom(items, k + 1);
    assert Render(ListFrom(items, k)) == Render(here) + Render(rest) by {
      TextConcat(here, rest);
    }
    assert Render(here) == "?" + (if last then ")" else ", ") by {
      ItemText(items[k], false, last);
    }
    JoinMarks(|items| - k);
    if !last {
      ListFromText(items, k + 1);
    }
  }

  lemma SqlListText(items: seq<string>)
    requires |items| > 0
    ensures Render(SqlList(items)) == "(" + Join(Marks(|items|), ", ") + ")"
  {
    var last := |items| == 1;
    var here := ItemFrags(items[0], true, last);
    var rest := ListFrom(items, 1);
    assert Render(SqlList(items)) == Render(here) + Render(rest) by {
      TextConcat(here, rest);
    }
    ItemText(items[0], true, last);
    JoinMarks(|items|);
    if last {
      assert Render(rest) == "";
    } else {
      ListFromText(items, 1);
      ManyText(Render(here), Render(rest), Join(Marks(|items| - 1), ", "));
    }
  }

  lemma ManyText(here: string, rest: string, j: string)
    requires here == "(" + "?" + ", "
    requires rest == j + ")"
    ensures here + rest == "(" + ("?" + ", " + j) + ")"
  {
  }

  /** The list renders as `(` followed by one `?` per item joined by `, `
      and `)`, and binds the items as text in order. */
  lemma SqlListShape(items: seq<string>)
    requires |items| > 0
    ensures Render(SqlList(items)) == "(" + Join(Marks(|items|), ", ") + ")"
    ensures Binds(SqlList(items)) == TextBinds(items)
  {
    SqlListText(items);
    ListFromBinds(items, 0);
    assert items[0..] == items;
  }

  // --------------------------------------------------------------- generate

  /** `StickerTagQuery`, as built by `new` and the builder methods. */
  datatype StickerTagQuery = StickerTagQuery(
    must: seq<string>,
    mustNot: seq<string>,
    limit: Option<int>,
    offset: Option<int>,
    order: Option<Order>,
    emoji: seq<string>)

  function New(must: seq<string>, mustNot: seq<string>): (r: StickerTagQuery)
    ensures r.must == must && r.mustNot == mustNot && r.emoji == []
    ensures r.limit.None? && r.offset.None? && r.order.None?
  {
    StickerTagQuery(must, mustNot, None, None, None, [])
  }

  function HeadFrags(): Query {
    [Sql(SelectSticker), Sql(WhereFileIn), Sql(TaggedFiles), Sql(FromFileTag), Sql(GroupByFile)]
  }

  /** The condition on the required tags: all of them are present. */
  function MustFrags(must: seq<string>): Query {
    if |must| == 0 then [] else [Sql(CountTagIn)] + SqlList(must) + [Sql(ThenOneEnd), Param(IntegerBind(|must|))]
  }

  /** The condition on the excluded tags: none of them is present. */
  function MustNotFrags(mustNot: seq<string>): Query {
    if |mustNot| == 0 then [] else [Sql(CountTagIn)] + SqlList(mustNot) + [Sql(EqualsZero)]
  }

  function MustBinds(must: seq<string>): seq<Bind> {
    if |must| > 0 then TextBinds(must) + [IntegerBind(|must|)] else []
  }

  /** The `HAVING` condition on the tag counts: opened iff some tag is
      required or excluded, the two parts joined by `AND` iff both are
      there. */
  function HavingFrags(must: seq<string>, mustNot: seq<string>): Query {
    (if |must| > 0 || |mustNot| > 0 then [Sql(Having)] else [])
    + MustFrags(must)
    + (if |must| > 0 && |mustNot| > 0 then [Sql(And)] else [])
    + MustNotFrags(mustNot)
  }

  function EmojiFrags(emoji: seq<string>): Query {
    if |emoji| == 0 then [] else [Sql(EmojiIn)] + SqlList(emoji) + [Sql(Space)]
  }

  predicate IsRandom(order: Option<Order>) {
    order.Some? && order.value.Random?
  }

  /** Newest first unless a random order is asked for, which sorts by
      `sin(rowid + seed)`. */
  function OrderFrags(order: Option<Order>): Query {
    match order
    case Some(Random(seed)) => [Sql(Shuffled), Param(IntegerBind(seed)), Sql(CloseSubquery)]
    case _ => [Sql(Newest)]
  }

  /** `LIMIT ? OFFSET ?` with the limit 10 and the offset 0 unless set. */
  function TailFrags(limit: Option<int>, offset: Option<int>): Query {
    [Sql(LimitKeyword), Param(BigIntBind(limit.GetOr(10))), Sql(Space), Sql(OffsetKeyword), Param(BigIntBind(offset.GetOr(0)))]
  }

  lemma Binds3(a: Query, b: Query, c: Query)
    ensures Binds(a + b + c) == Binds(a) + Binds(b) + Binds(c)
  {
    BindsConcat(a, b);
    BindsConcat(a + b, c);
  }

  lemma HeadBinds()
    ensures Binds(HeadFrags()) == []
  {
    var r := HeadFrags();
    assert Binds(r[4..]) == [];
    assert Binds(r[3..]) == [];
    assert Binds(r[2..]) == [];
    assert Binds(r[1..]) == [];
  }

  lemma MustClauseBinds(must: seq<string>)
    ensures Binds(MustFrags(must)) == MustBinds(must)
  {
    if |must| > 0 {
      var tail := [Sql(ThenOneEnd), Param(IntegerBind(|must|))];
      assert Binds(tail) == [IntegerBind(|must|)] by { assert Binds(tail[1..]) == [IntegerBind(|must|)]; }
      assert Binds([Sql(CountTagIn)]) == [];
      SqlListShape(must);
      Binds3([Sql(CountTagIn)], SqlList(must), tail);
    }
  }

  lemma MustNotClauseBinds(mustNot: seq<string>)
    ensures Binds(MustNotFrags(mustNot)) == TextBinds(mustNot)
  {
    if |mustNot| > 0 {
      assert Binds([Sql(CountTagIn)]) == [] && Binds([Sql(EqualsZero)]) == [];
      SqlListShape(mustNot);
      Binds3([Sql(CountTagIn)], SqlList(mustNot), [Sql(EqualsZero)]);
    }
  }

  lemma HavingBinds(must: seq<string>, mustNot: seq<string>)
    ensures Binds(HavingFrags(must, mustNot)) == MustBinds(must) + TextBinds(mustNot)
  {
    var open: Query := if |must| > 0 || |mustNot| > 0 then [Sql(Having)] else [];
    var and: Query := if |must| > 0 && |mustNot| > 0 then [Sql(And)] else [];
    var m := MustFrags(must);
    var n := MustNotFrags(mustNot);
    assert HavingFrags(must, mustNot) == open + m + and + n;
    assert Binds(open + m + and) == MustBinds(must) by {
      assert Binds(open) == [] && Binds(and) == [];
      MustClauseBinds(must);
      Binds3(open, m, and);
    }
    assert Binds(open + m + and + n) == MustBinds(must) + TextBinds(mustNot) by {
      MustNotClauseBinds(mustNot);
      BindsConcat(open + m + and, n);
    }
  }

  lemma EmojiClauseBinds(emoji: seq<string>)
    ensures Binds(EmojiFrags(emoji)) == TextBinds(emoji)
  {
    if |emoji| > 0 {
      assert Binds([Sql(EmojiIn)]) == [] && Binds([Sql(Space)]) == [];
      SqlListShape(emoji);
      Binds3([Sql(EmojiIn)], SqlList(emoji), [Sql(Space)]);
    }
  }

  lemma OrderBinds(order: Option<Order>)
    ensures Binds(OrderFrags(order)) == if IsRandom(order) then [IntegerBind(order.value.seed)] else []
  {
    var r := OrderFrags(order);
    if IsRandom(order) {
      assert Binds(r[2..]) == [];
      assert Binds(r[1..]) == [IntegerBind(order.value.seed)];
    }
  }

  lemma TailBinds(limit: Option<int>, offset: Option<int>)
    ensures Binds(TailFrags(limit, offset)) == [BigIntBind(limit.GetOr(10)), BigIntBind(offset.GetOr(0))]
  {
    var r := TailFrags(limit, offset);
    assert Binds(r[4..]) == [BigIntBind(offset.GetOr(0))];
    assert Binds(r[3..]) == Binds(r[4..]);
    assert Binds(r[2..]) == Binds(r[3..]);
    assert Binds(r[1..]) == [BigIntBind(limit.GetOr(10))] + Binds(r[2..]);
  }

  const Middle: Query := [Sql(CloseSubquery)]
  const Grouping: Query := [Sql(GroupBySticker), Sql(OrderBy)]

  /** `StickerTagQuery::generate`. The query binds the must tags and their
      count, the excluded tags, the emoji, the seed of a random order, and
      last the limit (10 unless set) and the offset (0 unless set); its
      text has one `?` per bound value. */
  function Generate(q: StickerTagQuery): (r: Query)
    ensures Binds(r) ==
            MustBinds(q.must) + TextBinds(q.mustNot) + TextBinds(q.emoji)
            + (if IsRandom(q.order) then [IntegerBind(q.order.value.seed)] else [])
            + [BigIntBind(q.limit.GetOr(10)), BigIntBind(q.offset.GetOr(0))]
    ensures Placeholders(Render(r)) == |Binds(r)|
  {
    HeadBinds();
    HavingBinds(q.must, q.mustNot);
    EmojiClauseBinds(q.emoji);
    OrderBinds(q.order);
    TailBinds(q.limit, q.offset);
    assert Binds(Middle) == [];
    assert Binds(Grouping) == [] by { assert Binds(Grouping[1..]) == []; }
    BindsOfPieces(HeadFrags(), HavingFrags(q.must, q.mustNot), Middle, EmojiFrags(q.emoji), Grouping,
                  OrderFrags(q.order), TailFrags(q.limit, q.offset));
    var r := HeadFrags() + HavingFrags(q.must, q.mustNot) + Middle + EmojiFrags(q.emoji)
             + Grouping + OrderFrags(q.order) + TailFrags(q.limit, q.offset);
    PlaceholdersMatchBinds(r);
    r
  }

  /** Pieces that bind nothing drop out of the bound values. */
  lemma BindsOfPieces(a: Query, b: Query, c: Query, d: Query, e: Query, f: Query, g: Query)
    requires Binds(a) == [] && Binds(c) == [] && Binds(e) == []
    ensures Binds(a + b + c + d + e + f + g) == Binds(b) + Binds(d) + Binds(f) + Binds(g)
  {
    var x := a + b + c;
    assert Binds(x) == Binds(b) by {
      BindsConcat(a, b);
      BindsConcat(a + b, c);
    }
    var y := x + d + e;
    assert Binds(y) == Binds(b) + Binds(d) by {
      BindsConcat(x, d);
      BindsConcat(x + d, e);
    }
    BindsConcat(y, f);
    BindsConcat(y + f, g);
  }

  /** The keywords a query writes. */
  function KeywordsOf(q: Query): set<Keyword>
    decreases |q|
  {
    if |q| == 0 then {} else (if q[0].Sql? then {q[0].keyword} else {}) + KeywordsOf(q[1..])
  }

  lemma {:induction false} KeywordsOfMeans(q: Query, k: Keyword)
    ensures k in KeywordsOf(q) <==> Sql(k) in q
    decreases |q|
  {
    if |q| > 0 {
      KeywordsOfMeans(q[1..], k);
      assert q == [q[0]] + q[1..];
    }
  }

  lemma {:induction false} KeywordsConcat(a: Query, b: Query)
    ensures KeywordsOf(a + b) == KeywordsOf(a) + KeywordsOf(b)
    decreases |a|
  {
    if |a| == 0 {
      assert a + b == b;
    } else {
      KeywordsConcat(a[1..], b);
      assert (a + b)[0] == a[0];
      assert (a + b)[1..] == a[1..] + b;
    }
  }

  lemma Keywords3(a: Query, b: Query, c: Query)
    ensures KeywordsOf(a + b + c) == KeywordsOf(a) + KeywordsOf(b) + KeywordsOf(c)
  {
    KeywordsConcat(a, b);
    KeywordsConcat(a + b, c);
  }

  predicate ListKeyword(k: Keyword) {
    k == OpenList || k == Comma || k == CloseList
  }

  lemma ItemKeywords(item: string, first: bool, last: bool, k: Keyword)
    ensures k in KeywordsOf(ItemFrags(item, first, last)) ==> ListKeyword(k)
  {
    var open: Query := if first then [Sql(OpenList)] else [];
    var p := [Param(TextBind(item))];
    var close := [Sql(if last then CloseList else Comma)];
    assert ItemFrags(item, first, last) == open + p + close;
    Keywords3(open, p, close);
    assert KeywordsOf(p) == {};
  }

  lemma {:induction false} ListFromKeywords(items: seq<string>, i: nat, k: Keyword)
    requires i <= |items|
    ensures k in KeywordsOf(ListFrom(items, i)) ==> ListKeyword(k)
    decreases |items| - i
  {
    if i < |items| {
      var here := ItemFrags(items[i], i == 0, i == |items| - 1);
      var rest := ListFrom(items, i + 1);
      assert ListFrom(items, i) == here + rest;
      ListFromKeywords(items, i + 1, k);
      KeywordsConcat(here, rest);
      ItemKeywords(items[i], i == 0, i == |items| - 1, k);
    }
  }

  predicate HavingKeyword(k: Keyword) {
    k == Having || k == CountTagIn || k == ThenOneEnd || k == EqualsZero || k == And
  }

  lemma MustKeywords(must: seq<string>, k: Keyword)
    ensures k in KeywordsOf(MustFrags(must)) ==> HavingKeyword(k) || ListKeyword(k)
  {
    if |must| > 0 {
      var tail := [Sql(ThenOneEnd), Param(IntegerBind(|must|))];
      ListFromKeywords(must, 0, k);
      Keywords3([Sql(CountTagIn)], SqlList(must), tail);
      assert KeywordsOf(tail[1..]) == {};
      assert KeywordsOf([Sql(CountTagIn)]) == {CountTagIn};
    }
  }

  lemma MustNotKeywords(mustNot: seq<string>, k: Keyword)
    ensures k in KeywordsOf(MustNotFrags(mustNot)) ==> HavingKeyword(k) || ListKeyword(k)
  {
    if |mustNot| > 0 {
      ListFromKeywords(mustNot, 0, k);
      Keywords3([Sql(CountTagIn)], SqlList(mustNot), [Sql(EqualsZero)]);
      assert KeywordsOf([Sql(CountTagIn)]) == {CountTagIn};
      assert KeywordsOf([Sql(EqualsZero)]) == {EqualsZero};
    }
  }

  lemma Keywords4(a: Query, b: Query, c: Query, d: Query, k: Keyword)
    ensures k in KeywordsOf(a + b + c + d) <==> k in KeywordsOf(a) || k in KeywordsOf(b) || k in KeywordsOf(c) || k in KeywordsOf(d)
  {
    Keywords3(a, b, c);
    KeywordsConcat(a + b + c, d);
  }

  /** The `HAVING` clause writes only its own keywords and lists. */
  lemma HavingClauseKeywords(must: seq<string>, mustNot: seq<string>, k: Keyword)
    ensures k in KeywordsOf(HavingFrags(must, mustNot)) ==> HavingKeyword(k) || ListKeyword(k)
  {
    var open: Query := if |must| > 0 || |mustNot| > 0 then [Sql(Having)] else [];
    var and: Query := if |must| > 0 && |mustNot| > 0 then [Sql(And)] else [];
    Keywords4(open, MustFrags(must), and, MustNotFrags(mustNot), k);
    MustKeywords(must, k);
    MustNotKeywords(mustNot, k);
    assert KeywordsOf(open) <= {Having} && KeywordsOf(and) <= {And};
  }

  /** The `HAVING` clause starts with its keyword whenever some tag is
      required or excluded, and is empty otherwise. */
  lemma HavingClauseOpens(must: seq<string>, mustNot: seq<string>)
    ensures Having in KeywordsOf(HavingFrags(must, mustNot)) <==> |must| > 0 || |mustNot| > 0
  {
    var h := HavingFrags(must, mustNot);
    if |must| > 0 || |mustNot| > 0 {
      assert h[0] == Sql(Having);
      KeywordsOfMeans(h, Having);
    } else {
      assert h == [];
    }
  }

  /** The emoji filter writes only its own keywords and a list, and writes
      its keyword iff some emoji is given. */
  lemma EmojiClauseKeywords(emoji: seq<string>, k: Keyword)
    ensures k in KeywordsOf(EmojiFrags(emoji)) ==> k == EmojiIn || k == Space || ListKeyword(k)
    ensures k == EmojiIn ==> (k in KeywordsOf(EmojiFrags(emoji)) <==> |emoji| > 0)
  {
    if |emoji| > 0 {
      ListFromKeywords(emoji, 0, k);
      Keywords3([Sql(EmojiIn)], SqlList(emoji), [Sql(Space)]);
      assert KeywordsOf([Sql(EmojiIn)]) == {EmojiIn};
      assert KeywordsOf([Sql(Space)]) == {Space};
    }
  }

  lemma OrderClauseKeywords(order: Option<Order>, k: Keyword)
    ensures IsRandom(order) ==> (k in KeywordsOf(OrderFrags(order)) <==> k == Shuffled || k == CloseSubquery)
    ensures !IsRandom(order) ==> (k in KeywordsOf(OrderFrags(order)) <==> k == Newest)
  {
    var r := OrderFrags(order);
    if IsRandom(order) {
      assert KeywordsOf(r[2..]) == {CloseSubquery};
      assert KeywordsOf(r[1..]) == {CloseSubquery};
    } else {
      assert r == [Sql(Newest)];
    }
  }

  predicate FixedKeyword(k: Keyword) {
    k == SelectSticker || k == WhereFileIn || k == TaggedFiles || k == FromFileTag || k == GroupByFile
    || k == CloseSubquery || k == GroupBySticker || k == OrderBy || k == LimitKeyword || k == Space || k == OffsetKeyword
  }

  lemma HeadKeywords(k: Keyword)
    ensures k in KeywordsOf(HeadFrags()) ==> FixedKeyword(k)
  {
    var h := HeadFrags();
    assert KeywordsOf(h[4..]) == {GroupByFile};
    assert KeywordsOf(h[3..]) == {FromFileTag, GroupByFile};
    assert KeywordsOf(h[2..]) == {TaggedFiles, FromFileTag, GroupByFile};
    assert KeywordsOf(h[1..]) == {WhereFileIn, TaggedFiles, FromFileTag, GroupByFile};
  }

  lemma TailKeywords(limit: Option<int>, offset: Option<int>, k: Keyword)
    ensures k in KeywordsOf(TailFrags(limit, offset)) ==> FixedKeyword(k)
  {
    var t := TailFrags(limit, offset);
    assert KeywordsOf(t[4..]) == {};
    assert KeywordsOf(t[3..]) == {OffsetKeyword};
    assert KeywordsOf(t[2..]) == {Space, OffsetKeyword};
    assert KeywordsOf(t[1..]) == {Space, OffsetKeyword};
  }

  lemma MiddleKeywords(k: Keyword)
    ensures k in KeywordsOf(Middle) ==> FixedKeyword(k)
  {
    assert Middle[1..] == [];
  }

  lemma GroupingKeywords(k: Keyword)
    ensures k in KeywordsOf(Grouping) ==> FixedKeyword(k)
  {
    assert Grouping[1..][1..] == [];
  }

  lemma Keywords7(a: Query, b: Query, c: Query, d: Query, e: Query, f: Query, g: Query, k: Keyword)
    ensures k in KeywordsOf(a + b + c + d + e + f + g) <==>
            k in KeywordsOf(a) || k in KeywordsOf(b) || k in KeywordsOf(c) || k in KeywordsOf(d)
            || k in KeywordsOf(e) || k in KeywordsOf(f) || k in KeywordsOf(g)
  {
    Keywords3(a, b, c);
    Keywords3(a + b + c, d, e);
    Keywords3(a + b + c + d + e, f, g);
  }

  /** A keyword outside the fixed text occurs in the query iff one of the
      three optional clauses writes it. */
  lemma GenerateKeywords(q: StickerTagQuery, k: Keyword)
    requires !FixedKeyword(k)
    ensures Sql(k) in Generate(q) <==>
            k in KeywordsOf(HavingFrags(q.must, q.mustNot)) || k in KeywordsOf(EmojiFrags(q.emoji))
            || k in KeywordsOf(OrderFrags(q.order))
  {
    KeywordsOfMeans(Generate(q), k);
    Keywords7(HeadFrags(), HavingFrags(q.must, q.mustNot), Middle, EmojiFrags(q.emoji), Grouping,
              OrderFrags(q.order), TailFrags(q.limit, q.offset), k);
    HeadKeywords(k);
    MiddleKeywords(k);
    GroupingKeywords(k);
    TailKeywords(q.limit, q.offset, k);
  }

  /** `HAVING` occurs in the query iff the `HAVING` clause writes it. */
  lemma HavingOnlyInClause(q: StickerTagQuery)
    ensures Sql(Having) in Generate(q) <==> Having in KeywordsOf(HavingFrags(q.must, q.mustNot))
  {
    GenerateKeywords(q, Having);
    EmojiClauseKeywords(q.emoji, Having);
    OrderClauseKeywords(q.order, Having);
  }

  /** `HAVING` appears iff some tag is required or excluded. */
  lemma HavingIffTags(q: StickerTagQuery)
    ensures Sql(Having) in Generate(q) <==> |q.must| > 0 || |q.mustNot| > 0
  {
    HavingOnlyInClause(q);
    HavingClauseOpens(q.must, q.mustNot);
  }

  /** The emoji keyword occurs in the query iff the emoji filter writes
      it. */
  lemma EmojiOnlyInClause(q: StickerTagQuery)
    ensures Sql(EmojiIn) in Generate(q) <==> EmojiIn in KeywordsOf(EmojiFrags(q.emoji))
  {
    GenerateKeywords(q, EmojiIn);
    HavingClauseKeywords(q.must, q.mustNot, EmojiIn);
    OrderClauseKeywords(q.order, EmojiIn);
  }

  /** The emoji filter appears iff some emoji is given. */
  lemma EmojiFilterIffEmoji(q: StickerTagQuery)
    ensures Sql(EmojiIn) in Generate(q) <==> |q.emoji| > 0
  {
    EmojiOnlyInClause(q);
    EmojiClauseKeywords(q.emoji, EmojiIn);
  }

  /** The sort keys occur in the query iff the order clause writes them. */
  lemma SortKeyOnlyInClause(q: StickerTagQuery, k: Keyword)
    requires k == Shuffled || k == Newest
    ensures Sql(k) in Generate(q) <==> k in KeywordsOf(OrderFrags(q.order))
  {
    GenerateKeywords(q, k);
    HavingClauseKeywords(q.must, q.mustNot, k);
    EmojiClauseKeywords(q.emoji, k);
  }

  /** The random order's sort key appears iff a random order is asked
      for. */
  lemma ShuffledIffRandom(q: StickerTagQuery)
    ensures Sql(Shuffled) in Generate(q) <==> IsRandom(q.order)
  {
    SortKeyOnlyInClause(q, Shuffled);
    OrderClauseKeywords(q.order, Shuffled);
  }

  /** The newest sticker comes first iff no random order is asked for. */
  lemma NewestIffNotRandom(q: StickerTagQuery)
    ensures Sql(Newest) in Generate(q) <==> !IsRandom(q.order)
  {
    SortKeyOnlyInClause(q, Newest);
    OrderClauseKeywords(q.order, Newest);
  }

  // ------------------------------------------------------------------ tests

  lemma SqlListOne(x: string)
    ensures SqlList([x]) == [Sql(OpenList), Param(TextBind(x)), Sql(CloseList)]
  {
    assert ListFrom([x], 1) == [];
  }

  lemma SqlListTwo(x: string, y: string)
    ensures SqlList([x, y]) == [Sql(OpenList), Param(TextBind(x)), Sql(Comma), Param(TextBind(y)), Sql(CloseList)]
  {
    assert ListFrom([x, y], 2) == [];
    assert ListFrom([x, y], 1) == [Param(TextBind(y)), Sql(CloseList)];
  }

  lemma Example1Having(solo: string, meta: string)
    ensures HavingFrags([solo], [meta]) ==
              [Sql(Having), Sql(CountTagIn), Sql(OpenList), Param(TextBind(solo)), Sql(CloseList),
               Sql(ThenOneEnd), Param(IntegerBind(1)), Sql(And),
               Sql(CountTagIn), Sql(OpenList), Param(TextBind(meta)), Sql(CloseList), Sql(EqualsZero)]
  {
    var m := MustFrags([solo]);
    var n := MustNotFrags([meta]);
    assert m == [Sql(CountTagIn), Sql(OpenList), Param(TextBind(solo)), Sql(CloseList), Sql(ThenOneEnd), Param(IntegerBind(1))] by {
      SqlListOne(solo);
    }
    assert n == [Sql(CountTagIn), Sql(OpenList), Param(TextBind(meta)), Sql(CloseList), Sql(EqualsZero)] by {
      SqlListOne(meta);
    }
    Example1Join(m, n);
  }

  lemma Example1Join(m: Query, n: Query)
    requires |m| == 6 && |n| == 5
    ensures [Sql(Having)] + m + [Sql(And)] + n ==
              [Sql(Having), m[0], m[1], m[2], m[3], m[4], m[5], Sql(And), n[0], n[1], n[2], n[3], n[4]]
  {
  }

  lemma Example1Binds(solo: string, meta: string)
    ensures Binds(Generate(StickerTagQuery([solo], [meta], Some(100), Some(200), Some(LatestFirst), [])))
            == [TextBind(solo), IntegerBind(1), TextBind(meta), BigIntBind(100), BigIntBind(200)]
  {
    var q := StickerTagQuery([solo], [meta], Some(100), Some(200), Some(LatestFirst), []);
    var m := MustBinds([solo]);
    var n := TextBinds([meta]);
    var t := [BigIntBind(100), BigIntBind(200)];
    assert Binds(Generate(q)) == m + n + TextBinds([]) + [] + t;
    assert m == [TextBind(solo), IntegerBind(1)] by {
      assert TextBinds([solo]) == [TextBind(solo)] by { assert [solo][1..] == []; }
    }
    assert n == [TextBind(meta)] by { assert [meta][1..] == []; }
    assert TextBinds([]) == [];
    Example1Flat(m, n, t, TextBind(solo), IntegerBind(1), TextBind(meta), BigIntBind(100), BigIntBind(200));
  }

  lemma Example1Flat(m: seq<Bind>, n: seq<Bind>, t: seq<Bind>, a: Bind, b: Bind, c: Bind, d: Bind, e: Bind)
    requires m == [a, b] && n == [c] && t == [d, e]
    ensures m + n + [] + [] + t == [a, b, c, d, e]
  {
  }

  /** The fourth test: no tags at all, so no `HAVING`, two emoji and a
      random order. */
  lemma Example4Pieces(e1: string, e2: string)
    ensures HavingFrags([], []) == []
    ensures EmojiFrags([e1, e2]) ==
              [Sql(EmojiIn), Sql(OpenList), Param(TextBind(e1)), Sql(Comma), Param(TextBind(e2)), Sql(CloseList), Sql(Space)]
    ensures OrderFrags(Some(Random(42))) == [Sql(Shuffled), Param(IntegerBind(42)), Sql(CloseSubquery)]
  {
    SqlListTwo(e1, e2);
  }

  lemma Example4Binds(e1: string, e2: string)
    ensures Binds(Generate(StickerTagQuery([], [], Some(100), Some(200), Some(Random(42)), [e1, e2])))
            == [TextBind(e1), TextBind(e2), IntegerBind(42), BigIntBind(100), BigIntBind(200)]
  {
    var q := StickerTagQuery([], [], Some(100), Some(200), Some(Random(42)), [e1, e2]);
    var m := TextBinds([e1, e2]);
    var o := [IntegerBind(42)];
    var t := [BigIntBind(100), BigIntBind(200)];
    assert Binds(Generate(q)) == MustBinds([]) + TextBinds([]) + m + o + t;
    assert MustBinds([]) == [] && TextBinds([]) == [];
    assert m == [TextBind(e1), TextBind(e2)] by { TextBindsTwo(e1, e2); }
    Example4Flat(m, o, t, TextBind(e1), TextBind(e2), IntegerBind(42), BigIntBind(100), BigIntBind(200));
  }

  lemma TextBindsTwo(a: string, b: string)
    ensures TextBinds([a, b]) == [TextBind(a), TextBind(b)]
  {
    assert [a, b][1..] == [b] && [b][1..] == [];
    assert TextBinds([b]) == [TextBind(b)] + TextBinds([]);
    assert TextBinds([a, b]) == [TextBind(a)] + TextBinds([b]);
  }

  lemma Example4Flat(m: seq<Bind>, o: seq<Bind>, t: seq<Bind>, a: Bind, b: Bind, c: Bind, d: Bind, e: Bind)
    requires m == [a, b] && o == [c] && t == [d, e]
    ensures [] + [] + m + o + t == [a, b, c, d, e]
  {
  }
}
