/** The tagging keyboard of the older tree (`make_tag_keyboard`): the same
    head and tag rows as the current tree, no main menu, and a short list of
    suggestions padded with a fixed set of common tags. */
module LegacyKeyboards {
  import opened Wrappers
  import opened TagUtil
  import opened Keyboards
  import C = CallbackData
  import LegacyCallbackData
  import LegacyInlineData

  /** The tags offered whenever fewer than ten suggestions remain. */
  const CommonTags: seq<Tag> := ["young", "gore", "scat", "watersports", "diaper", "vore"]

  /** Each common tag not yet in the list is appended, in order. */
  function AppendMissing(suggested: seq<Tag>, common: seq<Tag>): (r: seq<Tag>)
    ensures suggested <= r
    ensures forall t :: t in common ==> t in r
    ensures forall t :: t in r ==> t in suggested || t in common
    ensures forall i :: |suggested| <= i < |r| ==> r[i] !in suggested && r[i] !in r[|suggested|..i]
    decreases |common|
  {
    if |common| == 0 then suggested
    else
      var next := if common[0] in suggested then suggested else suggested + [common[0]];
      var r := AppendMissing(next, common[1..]);
      assert common[0] in next;
      assert forall t :: t in common ==> t == common[0] || t in common[1..];
      AppendMissingFresh(suggested, next, r, common[0]);
      r
  }

  lemma AppendMissingFresh(suggested: seq<Tag>, next: seq<Tag>, r: seq<Tag>, c: Tag)
    requires next == suggested || next == suggested + [c]
    requires next == suggested + [c] ==> c !in suggested
    requires next <= r
    requires forall i :: |next| <= i < |r| ==> r[i] !in next && r[i] !in r[|next|..i]
    ensures forall i :: |suggested| <= i < |r| ==> r[i] !in suggested && r[i] !in r[|suggested|..i]
  {
    forall i | |suggested| <= i < |r|
      ensures r[i] !in suggested && r[i] !in r[|suggested|..i]
    {
      if i < |next| {
        assert i == |suggested| && r[i] == c;
        assert r[|suggested|..i] == [];
      } else {
        assert r[i] !in next;
        assert forall t :: t in suggested ==> t in next;
        if next == suggested + [c] {
          assert r[|suggested|..i] == [c] + r[|next|..i];
          assert r[i] != c by { assert next[|suggested|] == c; }
        } else {
          assert r[|suggested|..i] == r[|next|..i];
        }
      }
    }
  }

  /** `make_tag_keyboard`'s suggestions after filtering. */
  function PadSuggestions(filtered: seq<Tag>, common: seq<Tag>): (r: seq<Tag>)
    ensures filtered <= r
    ensures |filtered| >= 10 ==> r == filtered
    ensures |filtered| < 10 ==> forall t :: t in common ==> t in r
    ensures forall t :: t in r ==> t in filtered || t in common
  {
    if |filtered| < 10 then AppendMissing(filtered, common) else filtered
  }

  /** The legacy layout: the shared head, then the present tags and the
      padded suggestions two to a row. */
  function LegacyTaggingLayout(current: seq<Tag>, suggested: seq<Tag>, common: seq<Tag>): (r: seq<seq<Tag>>)
    ensures HeadLayout(current).rows <= r
    ensures HeadLayout(current).early ==> r == HeadLayout(current).rows
    ensures forall i :: |HeadLayout(current).rows| <= i < |r| ==> 1 <= |r[i]| <= 2
  {
    var head := HeadLayout(current);
    if head.early then head.rows
    else
      var present := Chunks2(FreshTags(current, head.rows));
      head.rows + present + Chunks2(PadSuggestions(FreshTags(suggested, head.rows + present), common))
  }

  /** With fewer than ten suggestions every common tag gets a button,
      whether or not the rows above already show it. */
  lemma CommonTagsShown(current: seq<Tag>, suggested: seq<Tag>, common: seq<Tag>, t: Tag)
    requires !HeadLayout(current).early
    requires var head := HeadLayout(current).rows;
             |FreshTags(suggested, head + Chunks2(FreshTags(current, head)))| < 10
    requires t in common
    ensures t in Flatten(LegacyTaggingLayout(current, suggested, common))
  {
    var head := HeadLayout(current).rows;
    var present := Chunks2(FreshTags(current, head));
    var padded := Chunks2(PadSuggestions(FreshTags(suggested, head + present), common));
    FlattenConcat(head + present, padded);
  }

  /** As in the current tree, every current tag naming neither a count nor
      a rating has a button once the head is complete. */
  lemma LegacyPresentTagsShown(current: seq<Tag>, suggested: seq<Tag>, common: seq<Tag>, t: Tag)
    requires !HeadLayout(current).early
    requires t in current && !IsCountOrRating(t)
    ensures t in Flatten(LegacyTaggingLayout(current, suggested, common))
  {
    var head := HeadLayout(current).rows;
    var present := Chunks2(FreshTags(current, head));
    var padded := Chunks2(PadSuggestions(FreshTags(suggested, head + present), common));
    FlattenConcat(head, present);
    FlattenConcat(head + present, padded);
  }

  type LegacyButton = Button<LegacyCallbackData.CallbackData, LegacyInlineData.InlineQueryData>

  /** `tag_to_button` of the older tree: the same tick and toggle. */
  function LegacyTagToButton(tag: Tag, current: seq<Tag>, stickerId: string): (r: LegacyButton)
    ensures r.CallbackButton?
    ensures r.data == LegacyCallbackData.Sticker(stickerId, if tag in current then C.UntagOp(tag) else C.TagOp(tag))
    ensures r.text == if tag in current then "✅ " + tag else tag
  {
    if tag in current then CallbackButton("✅ " + tag, LegacyCallbackData.Sticker(stickerId, C.UntagOp(tag)))
    else CallbackButton(tag, LegacyCallbackData.Sticker(stickerId, C.TagOp(tag)))
  }

  /** The legacy button agrees with the current tree's on text and on the
      operation its callback carries. */
  lemma SameButtonRule(tag: Tag, current: seq<Tag>, stickerId: string)
    ensures LegacyTagToButton(tag, current, stickerId).text == TagToButton(tag, current, stickerId).text
    ensures Some(LegacyTagToButton(tag, current, stickerId).data.operation) == TagToButton(tag, current, stickerId).data.operation
  {
  }

  function LegacyRow(row: seq<Tag>, current: seq<Tag>, stickerId: string): (r: seq<LegacyButton>)
    ensures |r| == |row|
    ensures forall j :: 0 <= j < |row| ==> r[j] == LegacyTagToButton(row[j], current, stickerId)
  {
    seq(|row|, j requires 0 <= j < |row| => LegacyTagToButton(row[j], current, stickerId))
  }

  function LegacyRows(layout: seq<seq<Tag>>, current: seq<Tag>, stickerId: string): (r: seq<seq<LegacyButton>>)
    ensures |r| == |layout|
    ensures forall i :: 0 <= i < |layout| ==> r[i] == LegacyRow(layout[i], current, stickerId)
  {
    seq(|layout|, i requires 0 <= i < |layout| => LegacyRow(layout[i], current, stickerId))
  }

  /** `make_tag_keyboard`, over the list of common tags: the tag buttons
      and, once the head is complete, the "add more tags" row and an empty
      row. */
  function MakeTagKeyboard(current: seq<Tag>, stickerId: string, suggested: seq<Tag>, common: seq<Tag>)
    : (r: seq<seq<LegacyButton>>)
    ensures var layout := LegacyTaggingLayout(current, suggested, common);
            && |r| >= |layout|
            && r[..|layout|] == LegacyRows(layout, current, stickerId)
            && r[|layout|..] == if HeadLayout(current).early then [] else
                 [[InlineButton("Add more tags to this sticker",
                                LegacyInlineData.InlineQueryData([], LegacyInlineData.Sticker(stickerId)))], []]
  {
    var rows := LegacyRows(LegacyTaggingLayout(current, suggested, common), current, stickerId);
    var tail := if HeadLayout(current).early then [] else
                  [[InlineButton("Add more tags to this sticker",
                                 LegacyInlineData.InlineQueryData([], LegacyInlineData.Sticker(stickerId)))], []];
    var r := rows + tail;
    assert r[..|rows|] == rows && r[|rows|..] == tail;
    r
  }
}
