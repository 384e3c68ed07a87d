/** The inline-query paging cursor: Telegram hands back the `next_offset`
    text the bot produced for the previous page, `"{offset};{seed}"`. */
module Pagination {
  import opened Wrappers
  import opened Strings
  import opened Decimal

  /** `current_offset` and `page_size` are `usize`, `seed` is `i32`. */
  datatype QueryPage = QueryPage(pageSize: nat, currentOffset: nat, seed: int)

  /** `str::parse` failed on the offset piece or on the seed piece. */
  datatype OffsetError = OffsetNotNumber(piece: string) | SeedNotNumber(piece: string)

  predicate ValidSeed(seed: int) { I32_MIN <= seed <= I32_MAX }

  /** Reads the cursor. With fewer than two `;`-separated pieces (the empty
      first-page offset in particular) the page starts at 0 with `freshSeed`,
      the random seed the bot draws; pieces after the second are ignored. */
  function FromQueryOffset(q: string, pageSize: nat, freshSeed: int): (r: Result<QueryPage, OffsetError>)
    requires ValidSeed(freshSeed)
    ensures r.Success? ==> r.value.pageSize == pageSize
    ensures r.Success? ==> r.value.currentOffset <= USIZE_MAX && ValidSeed(r.value.seed)
    ensures ';' !in q ==> r == Success(QueryPage(pageSize, 0, freshSeed))
    ensures r.Failure? ==> ';' in q
  {
    var pieces := Split(q, ';');
    if |pieces| < 2 then Success(QueryPage(pageSize, 0, freshSeed))
    else
      match ParseUnsigned(pieces[0], USIZE_MAX)
      case None => Failure(OffsetNotNumber(pieces[0]))
      case Some(offset) =>
        match ParseSigned(pieces[1], I32_MIN, I32_MAX)
        case None => Failure(SeedNotNumber(pieces[1]))
        case Some(seed) => Success(QueryPage(pageSize, offset, seed))
  }

  /** The cursor for the following page, or `""` (no further page) when the
      current page came back short. */
  function NextQueryOffset(p: QueryPage, currentResultLen: nat): (r: string)
    ensures r == "" <==> currentResultLen < p.pageSize
  {
    if currentResultLen >= p.pageSize then
      NatToString(p.currentOffset + p.pageSize) + ";" + IntToString(p.seed)
    else ""
  }

  /** Whether this is the page served for an empty offset. */
  predicate IsFirstPage(p: QueryPage) { p.currentOffset == 0 }

  lemma NumberHasNoSemicolon(i: int)
    ensures ';' !in IntToString(i)
  {
    var s := IntToString(i);
    if i < 0 {
      assert forall k :: 1 <= k < |s| ==> s[k] == NatToString(-i)[k - 1];
    }
  }

  /** Any `"{offset};{seed}"` text with in-range numbers, followed by anything
      after a further `;`, reads back as exactly that offset and seed. */
  lemma {:induction false} ParseCursor(offset: nat, seed: int, tail: seq<string>, pageSize: nat, freshSeed: int)
    requires offset <= USIZE_MAX && ValidSeed(seed) && ValidSeed(freshSeed)
    ensures FromQueryOffset(NatToString(offset) + ";" + IntToString(seed) + Join([""] + tail, ";"), pageSize, freshSeed)
            == Success(QueryPage(pageSize, offset, seed))
  {
    var a := NatToString(offset);
    var b := IntToString(seed);
    var rest := Join([""] + tail, ";");
    NumberHasNoSemicolon(offset);
    NumberHasNoSemicolon(seed);
    var q := a + ";" + b + rest;
    assert q == a + [';'] + (b + rest);
    SplitAt(a, b + rest, ';');
    if |tail| == 0 {
      assert rest == "";
      assert b + rest == b;
    } else {
      assert rest == "" + ";" + Join(tail, ";");
      assert b + rest == b + [';'] + Join(tail, ";");
      SplitAt(b, Join(tail, ";"), ';');
    }
    var pieces := Split(q, ';');
    assert pieces[0] == a && pieces[1] == b;
    ParseUnsignedRoundTrip(offset, USIZE_MAX);
    ParseSignedRoundTrip(seed, I32_MIN, I32_MAX);
  }

  /** Following the cursor of a full page moves the offset forward by one page
      and keeps the seed, so the random order is stable across pages. */
  lemma NextPageAdvances(p: QueryPage, currentResultLen: nat, freshSeed: int)
    requires currentResultLen >= p.pageSize
    requires p.currentOffset + p.pageSize <= USIZE_MAX && ValidSeed(p.seed) && ValidSeed(freshSeed)
    ensures FromQueryOffset(NextQueryOffset(p, currentResultLen), p.pageSize, freshSeed)
            == Success(QueryPage(p.pageSize, p.currentOffset + p.pageSize, p.seed))
  {
    var o := p.currentOffset + p.pageSize;
    ParseCursor(o, p.seed, [], p.pageSize, freshSeed);
    assert Join([""], ";") == "";
    assert NatToString(o) + ";" + IntToString(p.seed) + "" == NextQueryOffset(p, currentResultLen);
  }

  /** The cursor of a short page is the empty text, which restarts paging. */
  lemma ShortPageRestarts(p: QueryPage, currentResultLen: nat, freshSeed: int)
    requires currentResultLen < p.pageSize && ValidSeed(freshSeed)
    ensures FromQueryOffset(NextQueryOffset(p, currentResultLen), p.pageSize, freshSeed)
            == Success(QueryPage(p.pageSize, 0, freshSeed))
  {
  }

  /** A non-numeric offset is reported, not defaulted. */
  lemma RejectsBadOffset(freshSeed: int)
    requires ValidSeed(freshSeed)
    ensures FromQueryOffset("x;1", 10, freshSeed) == Failure(OffsetNotNumber("x"))
  {
    assert "x;1" == "x" + [';'] + "1";
    SplitAt("x", "1", ';');
  }
}
