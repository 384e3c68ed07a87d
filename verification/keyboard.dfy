/** The tagging keyboard of the current tree and the layout logic it shares
    with the older tree: the rating/count row, the gender rows, the present
    and suggested tags two to a row, and the buttons built from them.
    Buttons are values: a callback button keeps its `CallbackData`, an
    inline-query button its `InlineQueryData`, and a URL button its URL
    text (whether `Url::parse` accepts it is not modelled). The count and
    rating recognisers are those of the older tree's tag utilities; the
    current tree's copy is not part of this model. */
module Keyboards {
  import opened Wrappers
  import opened TagUtil
  import CallbackData
  import InlineData

  /** An `InlineKeyboardButton` over the callback type `D` and the inline
      query type `Q`. */
  datatype Button<D, Q> =
    | CallbackButton(text: string, data: D)
    | InlineButton(text: string, query: Q)
    | UrlButton(text: string, url: string)

  type Tag = string

  // ---------------------------------------------------------------- layout

  function Flatten(rows: seq<seq<Tag>>): (r: seq<Tag>)
    ensures forall t :: t in r <==> exists i :: 0 <= i < |rows| && t in rows[i]
    decreases |rows|
  {
    if |rows| == 0 then []
    else
      var rest := Flatten(rows[1..]);
      assert forall i :: 1 <= i < |rows| ==> rows[i] == rows[1..][i - 1];
      rows[0] + rest
  }

  lemma {:induction false} FlattenConcat(a: seq<seq<Tag>>, b: seq<seq<Tag>>)
    ensures Flatten(a + b) == Flatten(a) + Flatten(b)
    decreases |a|
  {
    if |a| == 0 {
      assert a + b == b;
    } else {
      FlattenConcat(a[1..], b);
      assert (a + b)[1..] == a[1..] + b;
    }
  }

  /** `chunks(2)`: rows of one or two tags that read back as the input. */
  function Chunks2(xs: seq<Tag>): (r: seq<seq<Tag>>)
    ensures forall i :: 0 <= i < |r| ==> 1 <= |r[i]| <= 2
    ensures Flatten(r) == xs
    ensures |r| == (|xs| + 1) / 2
    decreases |xs|
  {
    if |xs| == 0 then []
    else if |xs| == 1 then [xs]
    else
      var rest := Chunks2(xs[2..]);
      assert [xs[..2]] + rest == [xs[..2]] + rest;
      assert xs == xs[..2] + xs[2..];
      [xs[..2]] + rest
  }

  predicate IsCountOrRating(t: Tag) {
    CharacterCount(t).Some? || RatingOf(t).Some?
  }

  /** The tags neither naming a count or a rating nor already laid out,
      in order. */
  function FreshTags(tags: seq<Tag>, layout: seq<seq<Tag>>): (r: seq<Tag>)
    ensures forall t :: t in r <==> t in tags && !IsCountOrRating(t) && t !in Flatten(layout)
    ensures |r| <= |tags|
    decreases |tags|
  {
    if |tags| == 0 then []
    else
      var keep := !IsCountOrRating(tags[0]) && tags[0] !in Flatten(layout);
      assert tags == [tags[0]] + tags[1..];
      (if keep then [tags[0]] else []) + FreshTags(tags[1..], layout)
  }

  /** The lowest count any current tag names (`sorted().next()`). */
  function MinCount(tags: seq<Tag>): (r: Option<Characters>)
    ensures r.Some? <==> exists i :: 0 <= i < |tags| && CharacterCount(tags[i]).Some?
    ensures r.Some? ==> exists i :: 0 <= i < |tags| && CharacterCount(tags[i]) == r
    ensures r.Some? ==> forall i :: 0 <= i < |tags| && CharacterCount(tags[i]).Some? ==>
                          Rank(r.value) <= Rank(CharacterCount(tags[i]).value)
    decreases |tags|
  {
    if |tags| == 0 then None
    else
      var rest := MinCount(tags[1..]);
      var here := CharacterCount(tags[0]);
      assert forall i :: 1 <= i < |tags| ==> tags[i] == tags[1..][i - 1];
      if here.None? then rest
      else if rest.None? || Rank(here.value) <= Rank(rest.value) then here
      else rest
  }

  /** The rating named by the first current tag that names one
      (`find_map`). */
  function FirstRating(tags: seq<Tag>): (r: Option<Rating>)
    ensures r.None? <==> forall i :: 0 <= i < |tags| ==> RatingOf(tags[i]).None?
    ensures r.Some? ==> exists i :: 0 <= i < |tags| && RatingOf(tags[i]) == r &&
                                    forall j :: 0 <= j < i ==> RatingOf(tags[j]).None?
    decreases |tags|
  {
    if |tags| == 0 then None
    else if RatingOf(tags[0]).Some? then RatingOf(tags[0])
    else
      var rest := FirstRating(tags[1..]);
      assert forall i :: 1 <= i < |tags| ==> tags[i] == tags[1..][i - 1];
      if rest.Some? then
        var i :| 0 <= i < |tags[1..]| && RatingOf(tags[1..][i]) == rest &&
                 forall j :: 0 <= j < i ==> RatingOf(tags[1..][j]).None?;
        assert RatingOf(tags[i + 1]) == rest;
        assert forall j :: 0 <= j < i + 1 ==> RatingOf(tags[j]).None? by {
          forall j | 0 <= j < i + 1 ensures RatingOf(tags[j]).None? {
            if j > 0 { assert tags[j] == tags[1..][j - 1]; }
          }
        }
        rest
      else rest
  }

  /** The gender rows offered for a character count. */
  function GenderRows(c: Characters): (r: seq<seq<Tag>>)
    ensures c == Zero ==> r == []
    ensures c == One ==> |r| == 1
    ensures c != Zero && c != One ==> |r| == 3
    ensures |r| > 0 ==> r[0] == ["male", "female", "ambiguous_gender"]
  {
    match c
    case Zero => []
    case One => [["male", "female", "ambiguous_gender"]]
    case _ => [["male", "female", "ambiguous_gender"], ["male/male", "male/female"], ["ych_(character)", "female/female"]]
  }

  /** The layout above the tag rows. When either the rating or the count is
      missing it is final (`early`): the count row and the rating row, each
      the one present value or every choice. */
  datatype Head = Head(rows: seq<seq<Tag>>, early: bool)

  function HeadLayout(current: seq<Tag>): (r: Head)
    ensures r.early <==> MinCount(current).None? || FirstRating(current).None?
    ensures !r.early ==>
              && |r.rows| == 1 + |GenderRows(MinCount(current).value)|
              && r.rows[0] == [RatingName(FirstRating(current).value), CharactersName(MinCount(current).value)]
    ensures r.early ==>
              && |r.rows| == 2
              && r.rows[0] == (if MinCount(current).Some? then [CharactersName(MinCount(current).value)] else AllCountTags())
              && r.rows[1] == (if FirstRating(current).Some? then [RatingName(FirstRating(current).value)] else AllRatingTags())
  {
    var count := MinCount(current);
    var rating := FirstRating(current);
    if rating.Some? && count.Some? then
      Head([[RatingName(rating.value), CharactersName(count.value)]] + GenderRows(count.value), false)
    else
      var countRow := if count.Some? then [CharactersName(count.value)] else AllCountTags();
      var ratingRow := if rating.Some? then [RatingName(rating.value)] else AllRatingTags();
      Head([countRow, ratingRow], true)
  }

  /** The rows of the present tags and then of the suggestions, after a
      complete head: each list drops count and rating tags and whatever the
      rows above already show. */
  function TagRows(head: seq<seq<Tag>>, current: seq<Tag>, suggested: seq<Tag>): (r: (seq<seq<Tag>>, seq<seq<Tag>>))
  {
    var present := Chunks2(FreshTags(current, head));
    (present, Chunks2(FreshTags(suggested, head + present)))
  }

  /** `Keyboard::tagging`'s button layout. */
  function TaggingLayout(current: seq<Tag>, suggested: seq<Tag>): (r: seq<seq<Tag>>)
    ensures HeadLayout(current).rows <= r
    ensures HeadLayout(current).early ==> r == HeadLayout(current).rows
    ensures forall i :: |HeadLayout(current).rows| <= i < |r| ==> 1 <= |r[i]| <= 2
  {
    var head := HeadLayout(current);
    if head.early then head.rows
    else
      var (present, suggestions) := TagRows(head.rows, current, suggested);
      head.rows + present + suggestions
  }

  /** Once the head is complete, every current tag that names neither a
      count nor a rating has a button. */
  lemma PresentTagsShown(current: seq<Tag>, suggested: seq<Tag>, t: Tag)
    requires !HeadLayout(current).early
    requires t in current && !IsCountOrRating(t)
    ensures t in Flatten(TaggingLayout(current, suggested))
  {
    var head := HeadLayout(current).rows;
    var (present, suggestions) := TagRows(head, current, suggested);
    FlattenConcat(head, present);
    FlattenConcat(head + present, suggestions);
  }

  /** Below the head no button names a count or a rating, and no tag is
      shown twice across the head, the present and the suggested rows. */
  lemma TagRowsFresh(current: seq<Tag>, suggested: seq<Tag>)
    requires !HeadLayout(current).early
    ensures var head := HeadLayout(current).rows;
            var (present, suggestions) := TagRows(head, current, suggested);
            && TaggingLayout(current, suggested) == head + present + suggestions
            && (forall t :: t in Flatten(present) ==> !IsCountOrRating(t) && t !in Flatten(head))
            && (forall t :: t in Flatten(suggestions) ==> !IsCountOrRating(t) && t !in Flatten(head) && t !in Flatten(present))
  {
    var head := HeadLayout(current).rows;
    var (present, suggestions) := TagRows(head, current, suggested);
    FlattenConcat(head, present);
  }

  // --------------------------------------------------------------- buttons

  type TaggingButton = Button<CallbackData.CallbackData, InlineData.InlineQueryData>

  /** `tag_to_button`: a tag the sticker already has is ticked and untags on
      press; any other tag tags on press. */
  function TagToButton(tag: Tag, current: seq<Tag>, stickerId: string): (r: TaggingButton)
    ensures r.CallbackButton?
    ensures r.data == CallbackData.Sticker(stickerId, Some(if tag in current then CallbackData.UntagOp(tag) else CallbackData.TagOp(tag)))
    ensures r.text == if tag in current then "✅ " + tag else tag
  {
    if tag in current then CallbackButton("✅ " + tag, CallbackData.Sticker(stickerId, Some(CallbackData.UntagOp(tag))))
    else CallbackButton(tag, CallbackData.Sticker(stickerId, Some(CallbackData.TagOp(tag))))
  }

  /** Pressing a tag button flips whether the sticker carries the tag, and
      the tick shows whether it does now. */
  lemma TagButtonFlips(tag: Tag, current: seq<Tag>, stickerId: string)
    ensures var b := TagToButton(tag, current, stickerId);
            (b.data.operation.value.UntagOp? <==> tag in current) &&
            (b.text != tag <==> tag in current) &&
            b.data.operation.value.tag == tag
  {
    if tag in current {
      assert |"✅ " + tag| > |tag|;
    }
  }

  function RowToButtons(row: seq<Tag>, current: seq<Tag>, stickerId: string): (r: seq<TaggingButton>)
    ensures |r| == |row|
    ensures forall j :: 0 <= j < |row| ==> r[j] == TagToButton(row[j], current, stickerId)
  {
    seq(|row|, j requires 0 <= j < |row| => TagToButton(row[j], current, stickerId))
  }

  /** `button_layout_to_keyboard_layout`: the layout, button for tag. */
  function LayoutToKeyboard(layout: seq<seq<Tag>>, current: seq<Tag>, stickerId: string): (r: seq<seq<TaggingButton>>)
    ensures |r| == |layout|
    ensures forall i :: 0 <= i < |layout| ==> r[i] == RowToButtons(layout[i], current, stickerId)
  {
    seq(|layout|, i requires 0 <= i < |layout| => RowToButtons(layout[i], current, stickerId))
  }

  const SetPageText := "️\U{1F5C2}️ Set"
  const ExplorePageText := "✨️ Sticker"
  const AddMoreTagsText := "Add more tags to this sticker"
  const LockedText := "\U{1F512} Bulk Tagging Locked"
  const UnlockedText := "\U{1F513} Bulk Tagging Unlocked"
  const ExitText := "❌ Exit Continuous Tag Mode"

  /** `add_sticker_main_menu`'s first row. */
  function MainMenu(stickerId: string): (r: seq<TaggingButton>)
    ensures |r| == 2
    ensures r[0].CallbackButton? && r[0].data == CallbackData.StickerSetPage(stickerId)
    ensures r[1].CallbackButton? && r[1].data == CallbackData.StickerExplorePage(stickerId)
  {
    [CallbackButton(SetPageText, CallbackData.StickerSetPage(stickerId)),
     CallbackButton(ExplorePageText, CallbackData.StickerExplorePage(stickerId))]
  }

  /** The rows below the tags: search for more tags, the lock switch when
      the sticker is locked or a meta sticker, and the exit button in
      continuous tag mode. */
  function Footer(current: seq<Tag>, stickerId: string, locked: bool, continuous: bool): (r: seq<seq<TaggingButton>>)
    ensures |r| == 1 + (if locked || "meta_sticker" in current then 1 else 0) + (if continuous then 1 else 0)
    ensures r[0] == [InlineButton(AddMoreTagsText, InlineData.SearchTagsForSticker([], stickerId))]
    ensures (locked || "meta_sticker" in current) ==>
              r[1] == [CallbackButton(if locked then LockedText else UnlockedText, CallbackData.SetLock(stickerId, !locked))]
    ensures continuous ==> r[|r| - 1] == [CallbackButton(ExitText, CallbackData.ExitDialog)]
  {
    var more := [[InlineButton(AddMoreTagsText, InlineData.SearchTagsForSticker([], stickerId))]];
    var lock := if locked || "meta_sticker" in current
                then [[CallbackButton(if locked then LockedText else UnlockedText, CallbackData.SetLock(stickerId, !locked))]]
                else [];
    var exit := if continuous then [[CallbackButton(ExitText, CallbackData.ExitDialog)]] else [];
    more + lock + exit
  }

  /** `Keyboard::tagging`: the main menu, the tag buttons, and, unless the
      rating or count is still missing, the footer. */
  function Tagging(current: seq<Tag>, stickerId: string, suggested: seq<Tag>, locked: bool, continuous: bool)
    : (r: seq<seq<TaggingButton>>)
    ensures var n := 1 + |TaggingLayout(current, suggested)|;
            && |r| >= n
            && r[..n] == [MainMenu(stickerId)] + LayoutToKeyboard(TaggingLayout(current, suggested), current, stickerId)
            && r[n..] == if HeadLayout(current).early then [] else Footer(current, stickerId, locked, continuous)
  {
    var layout := TaggingLayout(current, suggested);
    var body := [MainMenu(stickerId)] + LayoutToKeyboard(layout, current, stickerId);
    var tail := if HeadLayout(current).early then [] else Footer(current, stickerId, locked, continuous);
    assert |body| == 1 + |layout|;
    RowsSplit(body, tail);
    body + tail
  }

  /** A keyboard made of two blocks of rows splits back into them. */
  lemma RowsSplit(a: seq<seq<TaggingButton>>, b: seq<seq<TaggingButton>>)
    ensures (a + b)[..|a|] == a && (a + b)[|a|..] == b
  {
  }

  /** While the rating or count is missing the keyboard is just the main
      menu and the two choice rows: no lock switch and no exit button, even
      in continuous tag mode. */
  lemma EarlyKeyboardHasNoFooter(current: seq<Tag>, stickerId: string, suggested: seq<Tag>, locked: bool, continuous: bool)
    requires HeadLayout(current).early
    ensures var r := Tagging(current, stickerId, suggested, locked, continuous);
            && |r| == 3
            && forall i, j :: 1 <= i < 3 && 0 <= j < |r[i]| ==> r[i][j].CallbackButton? && r[i][j].data.Sticker?
  {
    var r := Tagging(current, stickerId, suggested, locked, continuous);
    var layout := TaggingLayout(current, suggested);
    assert |layout| == 2;
    EarlyRows(r, MainMenu(stickerId), layout, current, stickerId);
  }

  /** A keyboard of the main menu and two tag rows and nothing else. */
  lemma EarlyRows(r: seq<seq<TaggingButton>>, menu: seq<TaggingButton>, layout: seq<seq<Tag>>,
                  current: seq<Tag>, stickerId: string)
    requires |layout| == 2 && 3 <= |r| && r[3..] == []
    requires r[..3] == [menu] + LayoutToKeyboard(layout, current, stickerId)
    ensures |r| == 3
    ensures forall i, j :: 1 <= i < 3 && 0 <= j < |r[i]| ==> r[i][j].CallbackButton? && r[i][j].data.Sticker?
  {
    assert |r[3..]| == 0;
    TagRowsAreStickers(r, menu, layout, current, stickerId);
  }

  /** The rows after the main menu are tag buttons on the sticker. */
  lemma TagRowsAreStickers(r: seq<seq<TaggingButton>>, menu: seq<TaggingButton>, layout: seq<seq<Tag>>,
                           current: seq<Tag>, stickerId: string)
    requires 1 + |layout| <= |r|
    requires r[..1 + |layout|] == [menu] + LayoutToKeyboard(layout, current, stickerId)
    ensures forall i, j :: 1 <= i < 1 + |layout| && 0 <= j < |r[i]| ==> r[i][j].CallbackButton? && r[i][j].data.Sticker?
  {
    forall i, j | 1 <= i < 1 + |layout| && 0 <= j < |r[i]|
      ensures r[i][j].CallbackButton? && r[i][j].data.Sticker?
    {
      TagRowAt(r, menu, layout, current, stickerId, i - 1);
      assert r[i][j] == TagToButton(layout[i - 1][j], current, stickerId);
    }
  }

  lemma TagRowAt(r: seq<seq<TaggingButton>>, menu: seq<TaggingButton>, layout: seq<seq<Tag>>,
                 current: seq<Tag>, stickerId: string, k: nat)
    requires k < |layout| && 1 + |layout| <= |r|
    requires r[..1 + |layout|] == [menu] + LayoutToKeyboard(layout, current, stickerId)
    ensures r[1 + k] == RowToButtons(layout[k], current, stickerId)
  {
    assert r[1 + k] == r[..1 + |layout|][1 + k];
  }

  /** In continuous tag mode a complete keyboard ends with the exit
      button. */
  lemma ContinuousEndsWithExit(current: seq<Tag>, stickerId: string, suggested: seq<Tag>, locked: bool)
    requires !HeadLayout(current).early
    ensures var r := Tagging(current, stickerId, suggested, locked, true);
            r[|r| - 1] == [CallbackButton(ExitText, CallbackData.ExitDialog)]
  {
    var layout := TaggingLayout(current, suggested);
    var r := Tagging(current, stickerId, suggested, locked, true);
    var f := Footer(current, stickerId, locked, true);
    assert r[1 + |layout|..] == f;
    assert r[|r| - 1] == f[|f| - 1];
  }

  // ------------------------------------------------------ other keyboards

  /** `set_button`. */
  function SetButton(setId: string): TaggingButton {
    UrlButton("Open Set", "https://t.me/addstickers/" + setId)
  }

  /** The set row of `merge` and `merge_done`: one button when both
      stickers are in the same set, else one per set. */
  function SetRow(setA: string, setB: string): (r: seq<TaggingButton>)
    ensures |r| == if setA == setB then 1 else 2
    ensures r[0] == SetButton(setA)
    ensures setA != setB ==> r[1] == SetButton(setB)
  {
    if setA == setB then [SetButton(setA)] else [SetButton(setA), SetButton(setB)]
  }

  /** `Keyboard::merge`. */
  function Merge(stickerA: string, stickerB: string, setA: string, setB: string): (r: seq<seq<TaggingButton>>)
    ensures |r| == 2 && r[0] == SetRow(setA, setB)
    ensures r[1] == [CallbackButton("\U{1F44D} Merge", CallbackData.Merge(stickerA, stickerB, true)),
                     CallbackButton("\U{1F44E} Don't Merge", CallbackData.Merge(stickerA, stickerB, false))]
  {
    [SetRow(setA, setB),
     [CallbackButton("\U{1F44D} Merge", CallbackData.Merge(stickerA, stickerB, true)),
      CallbackButton("\U{1F44E} Don't Merge", CallbackData.Merge(stickerA, stickerB, false))]]
  }

  /** `Keyboard::merge_done`. */
  function MergeDone(setA: string, setB: string): (r: seq<seq<TaggingButton>>)
    ensures r == [SetRow(setA, setB)]
  {
    [SetRow(setA, setB)]
  }

  /** The two set buttons, when there are two, open different sets; the
      merge keyboard shows the same set buttons as the one after it. */
  lemma SetButtonsDistinct(stickerA: string, stickerB: string, setA: string, setB: string)
    ensures var row := SetRow(setA, setB);
            forall i, j :: 0 <= i < j < |row| ==> row[i].url != row[j].url
    ensures Merge(stickerA, stickerB, setA, setB)[0] == MergeDone(setA, setB)[0]
  {
    var p := "https://t.me/addstickers/";
    if setA != setB {
      assert (p + setA)[|p|..] == setA;
      assert (p + setB)[|p|..] == setB;
    }
  }

  /** `make_continuous_tag_keyboard`. */
  function ContinuousTagKeyboard(showCancel: bool, addTags: seq<Tag>, removeTags: seq<Tag>): (r: seq<seq<TaggingButton>>)
    ensures |r| == 2 + |addTags| + |removeTags| + (if showCancel then 1 else 0)
    ensures r[0] == [InlineButton("Select tag", InlineData.SearchTagsForContinuousTagMode([], InlineData.SetTag))]
    ensures r[1] == [InlineButton("Select tag (untag)", InlineData.SearchTagsForContinuousTagMode([], InlineData.SetUntag))]
    ensures forall i :: 0 <= i < |addTags| + |removeTags| ==>
              r[2 + i] == [RemoveRowButton((addTags + removeTags)[i])]
    ensures showCancel ==> r[|r| - 1] == [CallbackButton(ExitText, CallbackData.ExitDialog)]
  {
    var all := addTags + removeTags;
    var removals := seq(|all|, i requires 0 <= i < |all| => [RemoveRowButton(all[i])]);
    [[InlineButton("Select tag", InlineData.SearchTagsForContinuousTagMode([], InlineData.SetTag))],
     [InlineButton("Select tag (untag)", InlineData.SearchTagsForContinuousTagMode([], InlineData.SetUntag))]]
    + removals
    + (if showCancel then [[CallbackButton(ExitText, CallbackData.ExitDialog)]] else [])
  }

  function RemoveRowButton(tag: Tag): TaggingButton {
    CallbackButton("Remove \"" + tag + "\" from the list", CallbackData.RemoveContinuousTag(tag))
  }

  /** Every tag on either list has exactly the removal row that removes it,
      and pressing it is what `remove_continuous_tag` handles. */
  lemma EveryListedTagRemovable(showCancel: bool, addTags: seq<Tag>, removeTags: seq<Tag>, t: Tag)
    requires t in addTags || t in removeTags
    ensures exists i :: 2 <= i < |ContinuousTagKeyboard(showCancel, addTags, removeTags)| &&
                        ContinuousTagKeyboard(showCancel, addTags, removeTags)[i] ==
                        [CallbackButton("Remove \"" + t + "\" from the list", CallbackData.RemoveContinuousTag(t))]
  {
    var all := addTags + removeTags;
    assert t in all;
    var k :| 0 <= k < |all| && all[k] == t;
    assert ContinuousTagKeyboard(showCancel, addTags, removeTags)[2 + k] == [RemoveRowButton(t)];
  }
}
