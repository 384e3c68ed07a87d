/** The decisions inside the inline-query handler: resolving typed tags,
    building the suggested tag commands, the empty-first-page error, which
    sticker query a search becomes, and the filter over the user's own sets.
    Fuzzy matching and the ranked tag search are parameters; the database
    and Telegram calls are left out, and a search is returned as the query
    it would run. */
module InlineQueryHandler {
  import opened Wrappers
  import opened Strings
  import opened Pagination
  import opened DatabaseUtil
  import opened BotErrors
  import opened Emojis
  import TagManager
  import HiddenCommands

  // --------------------------------------------------------- resolution

  /** The inputs that found no tag, in order. */
  function Missing(closest: seq<(string, Option<string>)>): (r: seq<string>)
    ensures |r| <= |closest|
    ensures forall x :: x in r <==> exists i :: 0 <= i < |closest| && closest[i].0 == x && closest[i].1.None?
    decreases |closest|
  {
    if |closest| == 0 then []
    else
      var rest := Missing(closest[1..]);
      assert forall i :: 1 <= i < |closest| ==> closest[i] == closest[1..][i - 1];
      (if closest[0].1.None? then [closest[0].0] else []) + rest
  }

  /** The tags that were found, in order. */
  function Resolved(closest: seq<(string, Option<string>)>): (r: seq<string>)
    ensures (forall i :: 0 <= i < |closest| ==> closest[i].1.Some?) ==>
              |r| == |closest| && forall i :: 0 <= i < |closest| ==> r[i] == closest[i].1.value
    decreases |closest|
  {
    if |closest| == 0 then []
    else
      var rest := Resolved(closest[1..]);
      assert forall i :: 1 <= i < |closest| ==> closest[i] == closest[1..][i - 1];
      (if closest[0].1.Some? then [closest[0].1.value] else []) + rest
  }

  /** `treat_missing_tags_as_errors`: all found tags in order, or else
      every input that found none. */
  function TreatMissingTagsAsErrors(closest: seq<(string, Option<string>)>): (r: Result<seq<string>, UserError>)
    ensures r.Success? <==> forall i :: 0 <= i < |closest| ==> closest[i].1.Some?
    ensures r.Success? ==> |r.value| == |closest| && forall i :: 0 <= i < |closest| ==> r.value[i] == closest[i].1.value
    ensures r.Failure? ==> r.error.TagsNotFound? && |r.error.tags| > 0 &&
                           forall x :: x in r.error.tags <==> exists i :: 0 <= i < |closest| && closest[i].0 == x && closest[i].1.None?
    ensures r.Failure? ==> r.error == TagsNotFound(Missing(closest))
  {
    var missing := Missing(closest);
    MissingEmpty(closest);
    if |missing| == 0 then Success(Resolved(closest))
    else
      assert missing[0] in missing;
      Failure(TagsNotFound(missing))
  }

  lemma MissingEmpty(closest: seq<(string, Option<string>)>)
    ensures |Missing(closest)| == 0 <==> forall i :: 0 <= i < |closest| ==> closest[i].1.Some?
  {
    if i :| 0 <= i < |closest| && closest[i].1.None? {
      assert closest[i].0 in Missing(closest);
    }
    if |Missing(closest)| > 0 {
      assert Missing(closest)[0] in Missing(closest);
    }
  }

  /** The missing inputs of two lookups in a row are those of the first
      followed by those of the second. */
  lemma {:induction false} MissingConcat(a: seq<(string, Option<string>)>, b: seq<(string, Option<string>)>)
    ensures Missing(a + b) == Missing(a) + Missing(b)
    decreases |a|
  {
    if |a| > 0 {
      MissingConcat(a[1..], b);
      assert (a + b)[1..] == a[1..] + b;
      assert (a + b)[0] == a[0];
    } else {
      assert a + b == b;
    }
  }

  /** `get_last_input_match_list_and_other_input_closest_matches`: every
      group but the last is joined with `_` and must resolve; the last group
      is handed to the ranked tag search `findTags`. */
  function LastInputAndOtherMatches(groups: seq<seq<string>>, tm: TagManager.TagManager,
                                    fuzzy: string -> Option<string>, findTags: seq<string> -> seq<string>)
    : (r: Result<(seq<string>, seq<string>), UserError>)
    ensures |groups| == 0 ==> r == Success(([], findTags([])))
    ensures |groups| > 0 ==>
              (r.Success? <==> forall i :: 0 <= i < |groups| - 1 ==> TagManager.ClosestMatchingTag(tm, Join(groups[i], "_"), fuzzy).Some?)
    ensures |groups| > 0 && r.Success? ==>
              && r.value.1 == findTags(groups[|groups| - 1])
              && |r.value.0| == |groups| - 1
              && forall i :: 0 <= i < |groups| - 1 ==> Some(r.value.0[i]) == TagManager.ClosestMatchingTag(tm, Join(groups[i], "_"), fuzzy)
  {
    if |groups| == 0 then Success(([], findTags([])))
    else
      var others := seq(|groups| - 1, i requires 0 <= i < |groups| - 1 => Join(groups[i], "_"));
      var closest := TagManager.ClosestMatchingTags(tm, others, fuzzy);
      assert forall i :: 0 <= i < |groups| - 1 ==> closest[i].1 == TagManager.ClosestMatchingTag(tm, Join(groups[i], "_"), fuzzy);
      match TreatMissingTagsAsErrors(closest)
      case Failure(e) => Failure(e)
      case Success(resolved) => Success((resolved, findTags(groups[|groups| - 1])))
  }

  // ---------------------------------------------------- suggested commands

  /** The resolved tags followed by the candidate, comma-joined. */
  function AllTagsList(others: seq<string>, tag: string): string {
    Join(others + [tag], ",")
  }

  /** The command a suggested tag for a whole set runs. */
  function SetCommand(tag: bool, setName: string, list: string): string {
    (if tag then "/tagset " else "/untagset ") + setName + " " + list
  }

  /** The command a suggested tag for one sticker runs. */
  function StickerCommand(uniqueId: string, list: string): string {
    "/tagsticker " + uniqueId + " " + list
  }

  /** The list in a suggested command reads back, as a `TagList`, as the
      resolved tags followed by the candidate. */
  lemma AllTagsListReadsBack(others: seq<string>, tag: string)
    requires forall k :: 0 <= k < |others| ==> ',' !in others[k]
    requires ',' !in tag
    ensures HiddenCommands.ParseTagList(AllTagsList(others, tag)) == others + [tag]
  {
    var all := others + [tag];
    assert forall k :: 0 <= k < |all| ==> ',' !in all[k] by {
      forall k | 0 <= k < |all| ensures ',' !in all[k] {
        if k < |others| { assert all[k] == others[k]; } else { assert all[k] == tag; }
      }
    }
    HiddenCommands.TagListRoundTrip(all);
  }

  /** The page `skip(skip).take(size)` of a list. */
  function Page<T>(xs: seq<T>, skip: nat, size: nat): (r: seq<T>)
    ensures |r| <= size
    ensures skip >= |xs| ==> r == []
    ensures forall i :: 0 <= i < |r| ==> skip + i < |xs| && r[i] == xs[skip + i]
    ensures |r| == if skip >= |xs| then 0 else if |xs| - skip < size then |xs| - skip else size
  {
    var rest := if skip >= |xs| then [] else xs[skip..];
    if |rest| <= size then rest else rest[..size]
  }

  /** The tags suggested for a sticker: those it does not carry yet, one
      page of them. */
  function StickerSuggestions(suggested: seq<string>, stickerTags: seq<string>, page: QueryPage): (r: seq<string>)
    ensures |r| <= page.pageSize
    ensures forall t :: t in r ==> t in suggested && t !in stickerTags
    ensures r == Page(HiddenCommands.Excluding(suggested, stickerTags), page.currentOffset, page.pageSize)
  {
    var untagged := HiddenCommands.Excluding(suggested, stickerTags);
    var r := Page(untagged, page.currentOffset, page.pageSize);
    assert forall t :: t in r ==> t in untagged;
    r
  }

  /** `require_some_results`: only an empty first page is an error. */
  function RequireSomeResults(name: string, page: QueryPage, count: nat): (r: Result<(), UserError>)
    ensures r.Failure? <==> IsFirstPage(page) && count == 0
    ensures r.Failure? ==> r.error == ListHasZeroResults(name)
  {
    if IsFirstPage(page) && count == 0 then Failure(ListHasZeroResults(name)) else Success(())
  }

  /** Later pages may come back empty: the paging cursor then says there is
      no further page, and no error is raised. */
  lemma LaterEmptyPageEndsQuietly(name: string, page: QueryPage)
    requires !IsFirstPage(page) && page.pageSize > 0
    ensures RequireSomeResults(name, page, 0).Success?
    ensures NextQueryOffset(page, 0) == ""
  {
  }

  // ------------------------------------------------------- sticker search

  /** `get_stickers_for_tag_query` as a value. */
  datatype TagQuery = TagQuery(tags: seq<string>, blacklist: seq<string>, emoji: seq<string>,
                               limit: nat, offset: nat, order: Order)

  /** What a search runs: the recently used stickers (falling back to a
      query without tags when there are none), stickers with one emoji, or a
      tag query. */
  datatype StickerQuery =
    | RecentlyUsed(limit: nat, offset: nat, fallback: TagQuery)
    | ByEmoji(emoji: string, limit: nat, offset: nat)
    | ByTags(query: TagQuery)

  predicate Negated(t: string) { StartsWith(t, "-") }

  /** `partition(|tag| !tag.starts_with('-'))` */
  function Partition(tags: seq<string>): (r: (seq<string>, seq<string>))
    ensures multiset(r.0) + multiset(r.1) == multiset(tags)
    ensures |r.0| + |r.1| == |tags|
    ensures forall t :: t in r.0 ==> !Negated(t)
    ensures forall t :: t in r.1 ==> Negated(t)
    decreases |tags|
  {
    if |tags| == 0 then ([], [])
    else
      var rest := Partition(tags[1..]);
      assert tags == [tags[0]] + tags[1..];
      if Negated(tags[0]) then (rest.0, [tags[0]] + rest.1) else ([tags[0]] + rest.0, rest.1)
  }

  /** The emoji as text, variation selectors dropped. */
  function EmojiTexts(emoji: seq<Emoji>): (r: seq<string>)
    ensures |r| == |emoji|
    ensures forall i :: 0 <= i < |emoji| ==> r[i] == ToStringWithoutVariant(emoji[i])
  {
    seq(|emoji|, i requires 0 <= i < |emoji| => ToStringWithoutVariant(emoji[i]))
  }

  /** `strip_prefix('-')` on each negated tag: one dash goes. */
  function StripDash(tags: seq<string>): (r: seq<string>)
    requires forall t :: t in tags ==> Negated(t)
    ensures |r| == |tags|
    ensures forall i :: 0 <= i < |tags| ==> tags[i] == "-" + r[i]
  {
    seq(|tags|, i requires 0 <= i < |tags| => assert tags[i] in tags; StripOne(tags[i]))
  }

  function StripOne(t: string): (r: string)
    requires Negated(t)
    ensures "-" + r == t
  {
    assert t == [t[0]] + t[1..];
    t[1..]
  }

  /** Every query finds a tag. */
  predicate AllResolve(tm: TagManager.TagManager, qs: seq<string>, fuzzy: string -> Option<string>) {
    forall i :: 0 <= i < |qs| ==> TagManager.ClosestMatchingTag(tm, qs[i], fuzzy).Some?
  }

  /** `query_stickers`: an empty search shows recent stickers; a lone emoji
      searches by emoji; otherwise the plain and the negated tags must all
      resolve (plain first) and the negated ones join the user's
      blacklist. */
  function QueryStickers(tags: seq<string>, emoji: seq<Emoji>, userBlacklist: seq<string>, latestFirst: bool,
                         tm: TagManager.TagManager, fuzzy: string -> Option<string>,
                         limit: nat, offset: nat, seed: int): (r: Result<StickerQuery, UserError>)
    ensures |tags| == 0 && |emoji| == 0 ==>
              r.Success? && r.value.RecentlyUsed? && r.value.fallback.tags == [] && r.value.fallback.blacklist == userBlacklist && r.value.fallback.emoji == []
    ensures r.Success? && r.value.ByEmoji? <==> |tags| == 0 && |emoji| == 1
    ensures r.Success? && r.value.ByEmoji? ==> r.value.emoji == ToStringWithoutVariant(emoji[0])
    ensures r.Success? && r.value.ByTags? ==>
              var q := r.value.query;
              && userBlacklist <= q.blacklist
              && |q.tags| == |Partition(tags).0|
              && |q.blacklist| == |userBlacklist| + |Partition(tags).1|
              && (forall i :: 0 <= i < |q.tags| ==> Some(q.tags[i]) == TagManager.ClosestMatchingTag(tm, Partition(tags).0[i], fuzzy))
              && (forall i :: 0 <= i < |Partition(tags).1| ==>
                    Some(q.blacklist[|userBlacklist| + i]) == TagManager.ClosestMatchingTag(tm, StripDash(Partition(tags).1)[i], fuzzy))
              && |q.emoji| == |emoji|
              && (forall i :: 0 <= i < |emoji| ==> q.emoji[i] == ToStringWithoutVariant(emoji[i]))
    ensures r.Success? ==> (r.value.RecentlyUsed? <==> |tags| == 0 && |emoji| == 0)
    ensures r.Success? <==> AllResolve(tm, Partition(tags).0, fuzzy) && AllResolve(tm, StripDash(Partition(tags).1), fuzzy)
    ensures r.Failure? ==>
              var missingPlain := Missing(TagManager.ClosestMatchingTags(tm, Partition(tags).0, fuzzy));
              r.error == TagsNotFound(if |missingPlain| > 0 then missingPlain
                                      else Missing(TagManager.ClosestMatchingTags(tm, StripDash(Partition(tags).1), fuzzy)))
  {
    var order := if latestFirst then LatestFirst else Random(seed);
    var emojiText := EmojiTexts(emoji);
    if |tags| == 0 && |emoji| == 0 then
      Success(RecentlyUsed(limit, offset, TagQuery([], userBlacklist, [], limit, offset, order)))
    else
      var (plain, negated) := Partition(tags);
      if |negated| == 0 && |plain| == 0 && |emojiText| == 1 then
        Success(ByEmoji(emojiText[0], limit, offset))
      else
        TagSearch(plain, negated, emojiText, userBlacklist, tm, fuzzy, limit, offset, order)
  }

  /** The tag query of a search: the plain tags must resolve, then the
      negated ones, which join the user's blacklist. */
  function TagSearch(plain: seq<string>, negated: seq<string>, emojiText: seq<string>, userBlacklist: seq<string>,
                     tm: TagManager.TagManager, fuzzy: string -> Option<string>,
                     limit: nat, offset: nat, order: Order): (r: Result<StickerQuery, UserError>)
    requires forall t :: t in negated ==> Negated(t)
    ensures r.Success? ==> r.value.ByTags?
    ensures r.Success? ==>
              var q := r.value.query;
              && q.emoji == emojiText
              && userBlacklist <= q.blacklist
              && |q.tags| == |plain|
              && |q.blacklist| == |userBlacklist| + |negated|
              && (forall i :: 0 <= i < |plain| ==> Some(q.tags[i]) == TagManager.ClosestMatchingTag(tm, plain[i], fuzzy))
              && (forall i :: 0 <= i < |negated| ==>
                    Some(q.blacklist[|userBlacklist| + i]) == TagManager.ClosestMatchingTag(tm, StripDash(negated)[i], fuzzy))
    ensures r.Success? <==> AllResolve(tm, plain, fuzzy) && AllResolve(tm, StripDash(negated), fuzzy)
    ensures r.Failure? ==>
              var missingPlain := Missing(TagManager.ClosestMatchingTags(tm, plain, fuzzy));
              r.error == TagsNotFound(if |missingPlain| > 0 then missingPlain
                                      else Missing(TagManager.ClosestMatchingTags(tm, StripDash(negated), fuzzy)))
  {
    match TreatMissingTagsAsErrors(TagManager.ClosestMatchingTags(tm, plain, fuzzy))
    case Failure(e) => Failure(e)
    case Success(resolved) =>
      MissingEmpty(TagManager.ClosestMatchingTags(tm, plain, fuzzy));
      match TreatMissingTagsAsErrors(TagManager.ClosestMatchingTags(tm, StripDash(negated), fuzzy))
      case Failure(e) => Failure(e)
      case Success(blacklisted) =>
        var bl := userBlacklist + blacklisted;
        assert userBlacklist <= bl;
        assert forall i :: 0 <= i < |blacklisted| ==> bl[|userBlacklist| + i] == blacklisted[i];
        Success(ByTags(TagQuery(resolved, bl, emojiText, limit, offset, order)))
  }

  /** A negated tag lands on the blacklist of the query, never among its
      required tags, once every tag resolves to itself. */
  lemma NegatedTagIsBlacklisted(tag: string, userBlacklist: seq<string>, tm: TagManager.TagManager,
                                fuzzy: string -> Option<string>, limit: nat, offset: nat, seed: int)
    requires TagManager.ClosestMatchingTag(tm, tag, fuzzy) == Some(tag)
    ensures var r := QueryStickers(["-" + tag], [], userBlacklist, true, tm, fuzzy, limit, offset, seed);
            r == Success(ByTags(TagQuery([], userBlacklist + [tag], [], limit, offset, LatestFirst)))
  {
    var tags := ["-" + tag];
    assert ("-" + tag)[..1] == "-";
    assert Negated(tags[0]);
    assert tags[1..] == [];
    assert Partition(tags[1..]) == ([], []);
    assert [tags[0]] + [] == tags;
    assert Partition(tags) == ([], tags);
    var stripped := StripDash(tags);
    assert "-" + stripped[0] == "-" + tag;
    assert stripped[0] == ("-" + stripped[0])[1..];
    assert stripped == [tag];
    var none := TagManager.ClosestMatchingTags(tm, [], fuzzy);
    assert none == [];
    assert TreatMissingTagsAsErrors(none) == Success([]);
    var one := TagManager.ClosestMatchingTags(tm, [tag], fuzzy);
    assert one == [(tag, Some(tag))];
    assert Resolved(one) == [tag];
    assert TreatMissingTagsAsErrors(one) == Success([tag]);
  }

  // ------------------------------------------------------------ set filter

  datatype OwnedSet = OwnedSet(id: string, title: Option<string>)

  predicate SetMatches(s: OwnedSet, term: string) {
    Contains(AsciiLower(s.id), term) || (s.title.Some? && Contains(AsciiLower(s.title.value), term))
  }

  /** The sets whose id or title contains the term, in order. */
  function MatchingSets(sets: seq<OwnedSet>, term: string): (r: seq<OwnedSet>)
    ensures forall s :: s in r <==> s in sets && SetMatches(s, term)
    decreases |sets|
  {
    if |sets| == 0 then []
    else (if SetMatches(sets[0], term) then [sets[0]] else []) + MatchingSets(sets[1..], term)
  }

  /** The user's own sets offered for a sticker: a case-insensitive
      substring match of the typed title on set id or title, at most 49. */
  function FilterOwnedSets(sets: seq<OwnedSet>, setTitle: Option<string>): (r: seq<OwnedSet>)
    ensures |r| <= 49
    ensures forall s :: s in r ==> s in sets && SetMatches(s, AsciiLower(setTitle.GetOr("")))
    ensures |MatchingSets(sets, AsciiLower(setTitle.GetOr("")))| <= 49 ==>
              forall s :: s in sets && SetMatches(s, AsciiLower(setTitle.GetOr(""))) ==> s in r
    ensures r == Page(MatchingSets(sets, AsciiLower(setTitle.GetOr(""))), 0, 49)
  {
    var all := MatchingSets(sets, AsciiLower(setTitle.GetOr("")));
    var r := Page(all, 0, 49);
    assert forall s :: s in r ==> s in all;
    assert |all| <= 49 ==> r == all;
    r
  }

  lemma {:induction false} MatchingAll(sets: seq<OwnedSet>)
    ensures MatchingSets(sets, "") == sets
    decreases |sets|
  {
    if |sets| > 0 {
      MatchingAll(sets[1..]);
      assert "" <= AsciiLower(sets[0].id);
      assert sets == [sets[0]] + sets[1..];
    }
  }

  /** Without a typed title every set matches, so the first 49 are shown. */
  lemma NoTitleShowsFirstSets(sets: seq<OwnedSet>)
    ensures FilterOwnedSets(sets, None) == Page(sets, 0, 49)
  {
    assert AsciiLower("") == "";
    MatchingAll(sets);
  }
}
