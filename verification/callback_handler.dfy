/** The state changes behind the callback buttons: tag-creator aliases and
    example stickers, the recommender's positive and negative lists, the
    removal of a continuous tag together with the tags implying it, the
    blacklist, the download file name, and the checks before a new tag is
    created. The handler's reads and writes of the stored state, and its
    replies, are left out. */
module CallbackHandler {
  import opened Wrappers
  import opened Strings
  import opened Ordering
  import opened Categories
  import opened TagMaps
  import opened DialogStates
  import opened BotErrors
  import opened HiddenCommands
  import InlineData

  // ---------------------------------------------------------- tag creator

  /** `RemoveAlias`: every copy of the alias leaves the creator's list. */
  function RemoveAlias(state: DialogState, alias: string): (r: Result<TagCreator, UserError>)
    ensures r.Failure? <==> !state.InTagCreator?
    ensures r.Failure? ==> r.error == InvalidMode
    ensures r.Success? ==> alias !in r.value.aliases
    ensures r.Success? ==> forall a :: a != alias ==> (a in r.value.aliases <==> a in state.creator.aliases)
    ensures r.Success? ==> multiset(r.value.aliases) == multiset(state.creator.aliases)[alias := 0]
    ensures r.Success? ==> r.value.(aliases := state.creator.aliases) == state.creator
  {
    match state
    case InTagCreator(c) => Success(c.(aliases := Without(c.aliases, alias)))
    case _ => Failure(InvalidMode)
  }

  /** Removing an alias just added by `set_tag_id` restores the list. */
  lemma RemoveAddedAlias(c: TagCreator, alias: string)
    requires alias !in c.aliases
    ensures var added := SetTagId(InTagCreator(c), alias, InlineData.Alias, None, None).1;
            RemoveAlias(InTagCreator(added), alias) == Success(c)
  {
    var added := SetTagId(InTagCreator(c), alias, InlineData.Alias, None, None).1;
    assert added == c.(aliases := c.aliases + [alias]);
    WithoutSnoc(c.aliases, alias, alias);
    assert Without(added.aliases, alias) == c.aliases;
  }

  /** `ToggleExampleSticker`: drop the sticker if it is an example, else
      append it. */
  function ToggleExampleSticker(state: DialogState, stickerId: string): (r: Result<TagCreator, UserError>)
    ensures r.Failure? <==> !state.InTagCreator?
    ensures r.Failure? ==> r.error == InvalidMode
    ensures r.Success? ==> (stickerId in r.value.exampleStickerIds <==> stickerId !in state.creator.exampleStickerIds)
    ensures r.Success? ==> forall s :: s != stickerId ==> (s in r.value.exampleStickerIds <==> s in state.creator.exampleStickerIds)
    ensures r.Success? ==>
              var (before, after) := (state.creator.exampleStickerIds, r.value.exampleStickerIds);
              multiset(after) == if stickerId in before then multiset(before)[stickerId := 0] else multiset(before) + multiset{stickerId}
    ensures r.Success? ==> r.value.(exampleStickerIds := state.creator.exampleStickerIds) == state.creator
  {
    match state
    case InTagCreator(c) =>
      if stickerId in c.exampleStickerIds then Success(c.(exampleStickerIds := Without(c.exampleStickerIds, stickerId)))
      else Success(c.(exampleStickerIds := c.exampleStickerIds + [stickerId]))
    case _ => Failure(InvalidMode)
  }

  /** Toggling a new example twice gives back the creator unchanged. */
  lemma ToggleExampleTwice(c: TagCreator, stickerId: string)
    requires stickerId !in c.exampleStickerIds
    ensures var once := ToggleExampleSticker(InTagCreator(c), stickerId).value;
            ToggleExampleSticker(InTagCreator(once), stickerId) == Success(c)
  {
    var once := ToggleExampleSticker(InTagCreator(c), stickerId).value;
    assert once == c.(exampleStickerIds := c.exampleStickerIds + [stickerId]);
    WithoutSnoc(c.exampleStickerIds, stickerId, stickerId);
    assert stickerId in once.exampleStickerIds;
    assert Without(once.exampleStickerIds, stickerId) == c.exampleStickerIds;
  }

  const ExamplesRequired := 2

  /** The checks of `create_tag`, in order: enough examples, no alias equal
      to the tag id, then the category: an artist needs a linked channel, a
      character a linked user, any other category is an internal error and a
      missing one asks the user to pick. */
  function CreateTag(c: TagCreator): (r: Result<Category, BotError>)
    ensures r.Success? <==> |c.exampleStickerIds| >= ExamplesRequired && c.tagId !in c.aliases &&
                            ((c.category == Some(Artist) && c.linkedChannel.Some?) ||
                             (c.category == Some(Character) && c.linkedUser.Some?))
    ensures r.Success? ==> c.category == Some(r.value)
    ensures |c.exampleStickerIds| < ExamplesRequired ==>
              r == Failure(User(ValidationError("You have to provide at least 2 example stickers, just send them here")))
    ensures r.Failure? && r.error.Internal? <==>
              |c.exampleStickerIds| >= ExamplesRequired && c.tagId !in c.aliases &&
              c.category.Some? && c.category.value != Artist && c.category.value != Character
  {
    if |c.exampleStickerIds| < ExamplesRequired then
      Failure(User(ValidationError("You have to provide at least 2 example stickers, just send them here")))
    else if c.tagId in c.aliases then
      Failure(User(ValidationError("Aliases have to be distinct from the main tag")))
    else match c.category
      case Some(Artist) =>
        if c.linkedChannel.None? then Failure(User(ValidationError("Artist tags require a linked channel (user is optional)")))
        else Success(Artist)
      case Some(Character) =>
        if c.linkedUser.None? then Failure(User(ValidationError("Character tags require a linked user (channel is optional)")))
        else Success(Character)
      case Some(other) => Failure(Internal(Other("invalid category " + HumanName(other))))
      case None => Failure(User(ValidationError("Pick one of the categories: artist, character")))
  }

  /** Making an existing alias the main tag id blocks creation. */
  lemma AliasAsMainTagRejected(c: TagCreator, tagId: string, linkedUserId: Option<int>, username: Option<string>)
    requires tagId in c.aliases
    ensures CreateTag(SetTagId(InTagCreator(c), tagId, InlineData.Main, linkedUserId, username).1).Failure?
  {
  }

  // ---------------------------------------------------------- recommender

  /** `ToggleRecommendSticker`: a sticker already on the chosen side leaves
      it; otherwise it joins that side and leaves the other one. */
  function ToggleRecommendSticker(state: DialogState, stickerId: string, positive: bool): (r: Result<(seq<string>, seq<string>), UserError>)
    ensures r.Failure? <==> !state.StickerRecommender?
    ensures r.Failure? ==> r.error == InvalidMode
    ensures r.Success? ==>
              var (pos, neg) := r.value;
              && (forall s :: s != stickerId ==> (s in pos <==> s in state.positive) && (s in neg <==> s in state.negative))
              && (positive ==> (stickerId in pos <==> stickerId !in state.positive) && (stickerId in neg <==> stickerId in state.negative && stickerId in state.positive))
              && (!positive ==> (stickerId in neg <==> stickerId !in state.negative) && (stickerId in pos <==> stickerId in state.positive && stickerId in state.negative))
    ensures r.Success? && Disjoint(state.positive, state.negative) ==> Disjoint(r.value.0, r.value.1)
    ensures r.Success? ==>
              var (pos, neg) := r.value;
              var (mine, other) := if positive then (pos, neg) else (neg, pos);
              var (myOld, otherOld) := if positive then (state.positive, state.negative) else (state.negative, state.positive);
              if stickerId in myOld then multiset(mine) == multiset(myOld)[stickerId := 0] && other == otherOld
              else multiset(mine) == multiset(myOld) + multiset{stickerId} && multiset(other) == multiset(otherOld)[stickerId := 0]
  {
    match state
    case StickerRecommender(pos, neg) =>
      if positive then
        if stickerId in pos then Success((Without(pos, stickerId), neg))
        else Success((pos + [stickerId], Without(neg, stickerId)))
      else
        if stickerId in neg then Success((pos, Without(neg, stickerId)))
        else Success((Without(pos, stickerId), neg + [stickerId]))
    case _ => Failure(InvalidMode)
  }

  /** Toggling a sticker that is on neither side twice, on the same side,
      restores both lists. */
  lemma ToggleRecommendTwice(pos: seq<string>, neg: seq<string>, stickerId: string, positive: bool)
    requires stickerId !in pos && stickerId !in neg
    ensures var once := ToggleRecommendSticker(StickerRecommender(pos, neg), stickerId, positive).value;
            ToggleRecommendSticker(StickerRecommender(once.0, once.1), stickerId, positive) == Success((pos, neg))
  {
    if positive {
      var once := (pos + [stickerId], neg);
      assert ToggleRecommendSticker(StickerRecommender(pos, neg), stickerId, true) == Success(once);
      WithoutSnoc(pos, stickerId, stickerId);
      assert Without(once.0, stickerId) == pos;
      assert ToggleRecommendSticker(StickerRecommender(once.0, once.1), stickerId, true) == Success((pos, neg));
    } else {
      var once := (pos, neg + [stickerId]);
      assert ToggleRecommendSticker(StickerRecommender(pos, neg), stickerId, false) == Success(once);
      WithoutSnoc(neg, stickerId, stickerId);
      assert Without(once.1, stickerId) == neg;
      assert ToggleRecommendSticker(StickerRecommender(once.0, once.1), stickerId, false) == Success((pos, neg));
    }
  }

  // ------------------------------------------------------ continuous tags

  /** The tags of `current` whose implications contain `tag`, in order. */
  function Implying(tag: string, current: seq<string>, tags: Tags, imps: Implications): (r: seq<string>)
    ensures forall x :: x in r <==> x in current && tag in Entries(imps, x)
    decreases |current|
  {
    if |current| == 0 then []
    else
      var t := current[0];
      (if tag in GetImplications(tags, imps, t).GetOr([]) then [t] else []) + Implying(tag, current[1..], tags, imps)
  }

  /** `tags_that_should_be_removed`: the current tags implying `tag`, then
      `tag` itself. */
  function TagsThatShouldBeRemoved(tag: string, current: seq<string>, tags: Tags, imps: Implications): (r: seq<string>)
    ensures |r| >= 1 && r[|r| - 1] == tag
    ensures forall x :: x in r <==> x == tag || (x in current && tag in Entries(imps, x))
  {
    Implying(tag, current, tags, imps) + [tag]
  }

  lemma {:induction false} ExcludingSorted(xs: seq<string>, fixed: seq<string>)
    ensures StrictlySorted(xs) ==> StrictlySorted(Excluding(xs, fixed))
    decreases |xs|
  {
    if |xs| > 0 && StrictlySorted(xs) {
      assert StrictlySorted(xs[1..]);
      ExcludingSorted(xs[1..], fixed);
      var rest := Excluding(xs[1..], fixed);
      if xs[0] !in fixed {
        forall y | y in rest ensures Less(xs[0], y) {
          var k :| 0 <= k < |xs[1..]| && xs[1..][k] == y;
          assert y == xs[k + 1];
        }
        ConsSorted(xs[0], rest);
      }
    }
  }

  lemma {:induction false} ExcludingNothing(xs: seq<string>, fixed: seq<string>)
    requires forall x :: x in xs ==> x !in fixed
    ensures Excluding(xs, fixed) == xs
    decreases |xs|
  {
    if |xs| > 0 {
      ExcludingNothing(xs[1..], fixed);
      assert xs == [xs[0]] + xs[1..];
    }
  }

  /** `remove_continuous_tag`: the tag, and every tag implying it, leaves
      both lists; only valid in continuous tag mode. */
  function RemoveContinuousTag(state: DialogState, tag: string, tags: Tags, imps: Implications): (r: Result<ContinuousTag, UserError>)
    ensures r.Failure? <==> !state.InContinuousTag?
    ensures r.Failure? ==> r.error == InvalidMode
    ensures r.Success? ==>
              var ct := state.continuous;
              && (forall x :: x in r.value.addTags <==> x in ct.addTags && x != tag && tag !in Entries(imps, x))
              && (forall x :: x in r.value.removeTags <==> x in ct.removeTags && x != tag && tag !in Entries(imps, x))
              && r.value.alreadyRecommended == ct.alreadyRecommended
              && (WellFormed(ct) ==> WellFormed(r.value))
  {
    match state
    case InContinuousTag(ct) =>
      var toAdd := TagsThatShouldBeRemoved(tag, ct.addTags, tags, imps);
      var toRemove := TagsThatShouldBeRemoved(tag, ct.removeTags, tags, imps);
      var addTags := Excluding(ct.addTags, toAdd);
      var removeTags := Excluding(ct.removeTags, toRemove);
      ExcludingSorted(ct.addTags, toAdd);
      ExcludingSorted(ct.removeTags, toRemove);
      Success(ContinuousTag(addTags, removeTags, ct.alreadyRecommended))
    case _ => Failure(InvalidMode)
  }

  /** Removing the same tag again changes nothing. */
  lemma RemoveContinuousTagIdempotent(ct: ContinuousTag, tag: string, tags: Tags, imps: Implications)
    ensures var once := RemoveContinuousTag(InContinuousTag(ct), tag, tags, imps).value;
            RemoveContinuousTag(InContinuousTag(once), tag, tags, imps) == Success(once)
  {
    var once := RemoveContinuousTag(InContinuousTag(ct), tag, tags, imps).value;
    ExcludingNothing(once.addTags, TagsThatShouldBeRemoved(tag, once.addTags, tags, imps));
    ExcludingNothing(once.removeTags, TagsThatShouldBeRemoved(tag, once.removeTags, tags, imps));
  }

  // ------------------------------------------------------------ blacklist

  /** `remove_blacklist_tag`: every copy of the tag goes, nothing else. */
  function RemoveBlacklistTag(blacklist: seq<string>, tag: string): (r: seq<string>)
    ensures tag !in r
    ensures forall x :: x != tag ==> (x in r <==> x in blacklist)
    ensures multiset(r) == multiset(blacklist)[tag := 0]
  {
    Without(blacklist, tag)
  }

  /** Blacklisting and then unblacklisting a tag leaves the other entries
      as they were, in their order. */
  lemma UnblacklistAfterBlacklist(blacklist: seq<string>, tag: string)
    ensures RemoveBlacklistTag(BlacklistTag(blacklist, tag), tag) == RemoveBlacklistTag(blacklist, tag)
  {
    WithoutSnoc(Without(blacklist, tag), tag, tag);
  }

  /** Unblacklisting a tag that is not there changes nothing. */
  lemma UnblacklistAbsent(blacklist: seq<string>, tag: string)
    requires tag !in blacklist
    ensures RemoveBlacklistTag(blacklist, tag) == blacklist
  {
  }

  // ------------------------------------------------------------ file name

  /** The position of the last `.`, if any (`rsplit_once('.')`). */
  function LastDot(s: string): (r: Option<nat>)
    ensures r.None? <==> '.' !in s
    ensures r.Some? ==> r.value < |s| && s[r.value] == '.' && '.' !in s[r.value + 1..]
    decreases |s|
  {
    if |s| == 0 then None
    else if s[|s| - 1] == '.' then Some(|s| - 1)
    else
      var init := s[..|s| - 1];
      assert s == init + [s[|s| - 1]];
      var r := LastDot(init);
      if r.Some? then
        assert s[r.value + 1..] == init[r.value + 1..] + [s[|s| - 1]];
        r
      else r
  }

  /** `create_sticker_name`: `sticker.` and the extension after the last
      dot, or `sticker.bin` for a path without a dot. */
  function CreateStickerName(path: string): (r: string)
    ensures '.' !in path ==> r == "sticker.bin"
    ensures '.' in path ==> exists k :: 0 <= k < |path| && path[k] == '.' && '.' !in path[k + 1..] && r == "sticker." + path[k + 1..]
  {
    match LastDot(path)
    case None => "sticker.bin"
    case Some(k) => "sticker." + path[k + 1..]
  }

  /** The last dot is the only dot with no dot after it. */
  lemma LastDotUnique(path: string, k: nat)
    requires k < |path| && path[k] == '.' && '.' !in path[k + 1..]
    ensures LastDot(path) == Some(k)
  {
    var j := LastDot(path).value;
    DotAfter(path, j, k);
    DotAfter(path, k, j);
  }

  lemma DotAfter(path: string, i: nat, j: nat)
    ensures i < j < |path| && path[j] == '.' ==> '.' in path[i + 1..]
  {
    if i < j < |path| && path[j] == '.' {
      assert path[i + 1..][j - i - 1] == '.';
    }
  }

  /** A file name keeps the extension after its last dot, even an empty
      one. */
  lemma StickerNameKeepsExtension(stem: string, ext: string)
    requires '.' !in ext
    ensures CreateStickerName(stem + "." + ext) == "sticker." + ext
  {
    var path := stem + "." + ext;
    assert path[|stem|] == '.';
    assert path[|stem| + 1..] == ext;
    LastDotUnique(path, |stem|);
  }
}
