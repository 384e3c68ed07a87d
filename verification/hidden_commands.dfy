/** The pure parts of the hidden commands: the comma-separated tag list,
    the continuous-tag list updates, the implication expansion, blacklist
    and tag-creator updates, and the two hand-written argument parsers with
    their error offsets. Storing the new state and replying are left out;
    each function returns the state the handler would store. */
module HiddenCommands {
  import opened Wrappers
  import opened Strings
  import opened Decimal
  import opened Ordering
  import opened Nom
  import opened Literals
  import opened TagMaps
  import opened DialogStates
  import opened BotErrors
  import InlineData

  // ---------------------------------------------------------------- TagList

  /** `TagList::from_str`: the pieces between commas, empty ones kept. */
  function ParseTagList(s: string): (r: seq<string>)
    ensures |r| >= 1
    ensures Join(r, ",") == s
    ensures forall k :: 0 <= k < |r| ==> ',' !in r[k]
  {
    SplitJoin(s, ',');
    SplitPiecesLackSep(s, ',');
    Split(s, ',')
  }

  /** Empty pieces survive: `a,,b` is three tags, the middle one empty. */
  lemma TagListKeepsEmpty()
    ensures ParseTagList("a,,b") == ["a", "", "b"]
  {
    SplitAt("a", ",b", ',');
    SplitAt("", "b", ',');
    assert "a,,b" == "a" + [','] + ",b";
    assert ",b" == "" + [','] + "b";
  }

  /** Comma-free tags joined with commas are read back one by one. */
  lemma {:induction false} TagListRoundTrip(tags: seq<string>)
    requires |tags| >= 1
    requires forall k :: 0 <= k < |tags| ==> ',' !in tags[k]
    ensures ParseTagList(Join(tags, ",")) == tags
    decreases |tags|
  {
    if |tags| > 1 {
      TagListRoundTrip(tags[1..]);
      SplitAt(tags[0], Join(tags[1..], ","), ',');
      assert Join(tags, ",") == tags[0] + [','] + Join(tags[1..], ",");
      assert tags == [tags[0]] + tags[1..];
    }
  }

  // ------------------------------------------------- implication expansion

  predicate Known(tags: Tags, imps: Implications, t: string) { t in tags || t in imps }

  /** `get_implications_including_self(t).unwrap_or_default()` */
  function SelfAndImplied(tags: Tags, imps: Implications, t: string): (r: seq<string>)
    ensures forall x :: x in r <==> Known(tags, imps, t) && (x == t || x in Entries(imps, t))
  {
    GetImplicationsIncludingSelf(tags, imps, t).GetOr([])
  }

  /** `x` is one of `ts`, or implied by one of them, for a known tag. */
  ghost predicate ImpliedBy(tags: Tags, imps: Implications, ts: seq<string>, x: string) {
    exists i :: 0 <= i < |ts| && Known(tags, imps, ts[i]) && (x == ts[i] || x in Entries(imps, ts[i]))
  }

  /** Each tag replaced by itself and its implications; unknown tags vanish. */
  function Expand(tags: Tags, imps: Implications, ts: seq<string>): (r: seq<string>)
    ensures forall x :: x in r <==> ImpliedBy(tags, imps, ts, x)
    decreases |ts|
  {
    if |ts| == 0 then []
    else
      var rest := Expand(tags, imps, ts[1..]);
      forall x ensures ImpliedBy(tags, imps, ts, x) <==> x in SelfAndImplied(tags, imps, ts[0]) || ImpliedBy(tags, imps, ts[1..], x) {
        if ImpliedBy(tags, imps, ts, x) {
          var i :| 0 <= i < |ts| && Known(tags, imps, ts[i]) && (x == ts[i] || x in Entries(imps, ts[i]));
          if i > 0 {
            assert ts[1..][i - 1] == ts[i];
          }
        }
        if ImpliedBy(tags, imps, ts[1..], x) {
          var i :| 0 <= i < |ts[1..]| && Known(tags, imps, ts[1..][i]) && (x == ts[1..][i] || x in Entries(imps, ts[1..][i]));
          assert ts[1..][i] == ts[i + 1];
        }
      }
      SelfAndImplied(tags, imps, ts[0]) + rest
  }

  /** `get_tag_implications_including_self`: the sorted, deduplicated union
      of every known tag with its implications; `None` exactly when none of
      the tags is known. */
  function GetTagImplicationsIncludingSelf(tags: Tags, imps: Implications, ts: seq<string>): (r: Option<seq<string>>)
    ensures r.None? <==> forall i :: 0 <= i < |ts| ==> !Known(tags, imps, ts[i])
    ensures r.Some? ==> StrictlySorted(r.value) && forall x :: x in r.value <==> ImpliedBy(tags, imps, ts, x)
  {
    var all := SortDedup(Expand(tags, imps, ts));
    ExpansionEmpty(tags, imps, ts, all);
    if |all| == 0 then None else Some(all)
  }

  lemma ExpansionEmpty(tags: Tags, imps: Implications, ts: seq<string>, all: seq<string>)
    requires forall x :: x in all <==> ImpliedBy(tags, imps, ts, x)
    ensures |all| == 0 <==> forall i :: 0 <= i < |ts| ==> !Known(tags, imps, ts[i])
  {
    if i :| 0 <= i < |ts| && Known(tags, imps, ts[i]) {
      assert ImpliedBy(tags, imps, ts, ts[i]);
    }
    if |all| > 0 {
      assert all[0] in all;
    }
  }

  // ------------------------------------------------------ continuous tags

  /** The elements of `xs` not in `fixed`, in order. */
  function Excluding(xs: seq<string>, fixed: seq<string>): (r: seq<string>)
    ensures forall x :: x in r <==> x in xs && x !in fixed
    decreases |xs|
  {
    if |xs| == 0 then []
    else (if xs[0] in fixed then [] else [xs[0]]) + Excluding(xs[1..], fixed)
  }

  /** `add_new_tags_to_continuous_tag`: the union of both lists without the
      tags fixed by the other section, sorted and deduplicated. */
  function AddNewTagsToContinuousTag(current: seq<string>, added: seq<string>, fixed: seq<string>): (r: seq<string>)
    ensures StrictlySorted(r)
    ensures forall x :: x in r <==> (x in current || x in added) && x !in fixed
  {
    SortDedup(Excluding(current + added, fixed))
  }

  /** Adding the same tags again changes nothing. */
  lemma AddNewTagsIdempotent(current: seq<string>, added: seq<string>, fixed: seq<string>)
    ensures var once := AddNewTagsToContinuousTag(current, added, fixed);
            AddNewTagsToContinuousTag(once, added, fixed) == once
  {
    var once := AddNewTagsToContinuousTag(current, added, fixed);
    SortedUnique(AddNewTagsToContinuousTag(once, added, fixed), once);
  }

  /** The list logic of `modify_continuous_tag`: the new tags are expanded
      with their implications, the state starts empty outside continuous
      tag mode (the flag says so), new removals drop out of the additions'
      way and the additions avoid whatever is removed. */
  function ModifyContinuousTag(state: DialogState, newAdd: seq<string>, newRemove: seq<string>,
                               tags: Tags, imps: Implications): (r: (bool, ContinuousTag))
    ensures r.0 <==> !state.InContinuousTag?
    ensures WellFormed(r.1)
    ensures var prior := if state.InContinuousTag? then state.continuous else EmptyContinuousTag;
            && r.1.alreadyRecommended == prior.alreadyRecommended
            && (forall x :: x in r.1.removeTags <==>
                  (x in prior.removeTags || ImpliedBy(tags, imps, newRemove, x)) && !ImpliedBy(tags, imps, newAdd, x))
            && (forall x :: x in r.1.addTags <==>
                  (x in prior.addTags || ImpliedBy(tags, imps, newAdd, x)) && x !in r.1.removeTags)
    ensures forall x :: ImpliedBy(tags, imps, newAdd, x) ==> x in r.1.addTags
  {
    var expandedAdd := Expand(tags, imps, newAdd);
    var expandedRemove := Expand(tags, imps, newRemove);
    var prior := if state.InContinuousTag? then state.continuous else EmptyContinuousTag;
    var removeTags := AddNewTagsToContinuousTag(prior.removeTags, expandedRemove, expandedAdd);
    var addTags := AddNewTagsToContinuousTag(prior.addTags, expandedAdd, removeTags);
    (!state.InContinuousTag?, ContinuousTag(addTags, removeTags, prior.alreadyRecommended))
  }

  /** Repeating the same modification leaves the state as it is. */
  lemma ModifyContinuousTagIdempotent(state: DialogState, newAdd: seq<string>, newRemove: seq<string>,
                                      tags: Tags, imps: Implications)
    ensures var once := ModifyContinuousTag(state, newAdd, newRemove, tags, imps).1;
            ModifyContinuousTag(InContinuousTag(once), newAdd, newRemove, tags, imps) == (false, once)
  {
    var once := ModifyContinuousTag(state, newAdd, newRemove, tags, imps).1;
    var twice := ModifyContinuousTag(InContinuousTag(once), newAdd, newRemove, tags, imps).1;
    SortedUnique(twice.removeTags, once.removeTags);
    SortedUnique(twice.addTags, once.addTags);
  }

  /** The continuous-tag suggestion remembers the suggested sticker file. */
  function SuggestStickerContinuousTag(ct: ContinuousTag, fileId: string): (r: ContinuousTag)
    ensures r.addTags == ct.addTags && r.removeTags == ct.removeTags
    ensures ct.alreadyRecommended <= r.alreadyRecommended
    ensures r.alreadyRecommended[|ct.alreadyRecommended|..] == [fileId]
  {
    ct.(alreadyRecommended := ct.alreadyRecommended + [fileId])
  }

  /** A suggestion keeps a well-formed state well-formed and never forgets
      an earlier suggestion. */
  lemma SuggestKeepsState(ct: ContinuousTag, fileId: string)
    ensures WellFormed(ct) ==> WellFormed(SuggestStickerContinuousTag(ct, fileId))
    ensures forall f :: f in ct.alreadyRecommended ==> f in SuggestStickerContinuousTag(ct, fileId).alreadyRecommended
    ensures fileId in SuggestStickerContinuousTag(ct, fileId).alreadyRecommended
  {
    var r := SuggestStickerContinuousTag(ct, fileId);
    assert r.alreadyRecommended[|ct.alreadyRecommended|] == fileId;
  }

  // ------------------------------------------------------------ blacklist

  /** `BlacklistTag`: every earlier copy of the tag is dropped and the tag
      goes to the end, the other entries keeping their order. */
  function BlacklistTag(blacklist: seq<string>, tag: string): (r: seq<string>)
    ensures |r| >= 1 && r[|r| - 1] == tag && tag !in r[..|r| - 1]
    ensures multiset(r)[tag] == 1
    ensures forall x :: x in r <==> x in blacklist || x == tag
    ensures r[..|r| - 1] == Without(blacklist, tag)
  {
    var r := Without(blacklist, tag) + [tag];
    assert r[..|r| - 1] == Without(blacklist, tag);
    assert multiset(r) == multiset(Without(blacklist, tag)) + multiset{tag};
    r
  }

  /** Filtering a list with one more element at the end. */
  lemma WithoutSnoc(xs: seq<string>, y: string, x: string)
    ensures Without(xs + [y], x) == Without(xs, x) + (if y == x then [] else [y])
  {
    WithoutAppend(xs, [y], x);
    assert [y][1..] == [];
  }

  /** Blacklisting a tag twice is the same as once. */
  lemma BlacklistTagIdempotent(blacklist: seq<string>, tag: string)
    ensures BlacklistTag(BlacklistTag(blacklist, tag), tag) == BlacklistTag(blacklist, tag)
  {
    WithoutSnoc(Without(blacklist, tag), tag, tag);
  }

  // ---------------------------------------------------------- tag creator

  /** `set_tag_id` with the tag id already normalised by `create_tag_id`;
      `username` is what the database knows about the linked user. */
  function SetTagId(state: DialogState, tagId: string, kind: InlineData.TagKind,
                    linkedUserId: Option<int>, username: Option<string>): (r: (bool, TagCreator))
    ensures r.0 <==> !state.InTagCreator?
    ensures var prior := if state.InTagCreator? then state.creator else FreshCreator(tagId);
            && r.1.tagId == (if kind == InlineData.Main then tagId else prior.tagId)
            && prior.aliases <= r.1.aliases && |r.1.aliases| <= |prior.aliases| + 1
            && (forall a :: a in r.1.aliases <==> a in prior.aliases || (kind == InlineData.Alias && a == tagId))
            && (NoDuplicates(prior.aliases) ==> NoDuplicates(r.1.aliases))
            && r.1.linkedUser == (if linkedUserId.Some? && username.Some? then linkedUserId else prior.linkedUser)
            && r.1.linkedChannel == prior.linkedChannel && r.1.category == prior.category
            && r.1.exampleStickerIds == prior.exampleStickerIds
  {
    var prior := if state.InTagCreator? then state.creator else FreshCreator(tagId);
    var creator :=
      match kind
      case Alias => if tagId in prior.aliases then prior else prior.(aliases := prior.aliases + [tagId])
      case Main => prior.(tagId := tagId);
    var creator := if linkedUserId.Some? && username.Some? then creator.(linkedUser := linkedUserId) else creator;
    (!state.InTagCreator?, creator)
  }

  /** Naming the same alias twice adds it once. */
  lemma SetAliasIdempotent(state: DialogState, tagId: string, linkedUserId: Option<int>, username: Option<string>)
    ensures var once := SetTagId(state, tagId, InlineData.Alias, linkedUserId, username).1;
            SetTagId(InTagCreator(once), tagId, InlineData.Alias, linkedUserId, username) == (false, once)
  {
  }

  // ------------------------------------------------------------ arguments

  /** The rest `r` is what remains at the end of `s`. */
  predicate IsSuffix(r: string, s: string) { |r| <= |s| && s[|s| - |r|..] == r }

  /** A nom failure at `at` as the handler reports it: the offset
      `input.len() - at.len()` and the unparsed rest. */
  function ErrorAt(input: string, at: string): (e: CommandParseError)
    requires IsSuffix(at, input)
    ensures e.Custom? && e.position + |e.rest| == |input| && input[e.position..] == e.rest
  {
    Custom(|input| - |at|, at)
  }

  /** Dropping a prefix of a suffix leaves a suffix. */
  lemma SuffixDrop(at: string, input: string, k: nat)
    requires IsSuffix(at, input) && k <= |at|
    ensures IsSuffix(at[k..], input)
  {
    assert input[|input| - |at[k..]|..] == input[|input| - |at|..][k..];
  }

  lemma NomSignedSuffix(s: string, min: int, max: int)
    ensures NomSigned(s, min, max).Done? ==> IsSuffix(NomSigned(s, min, max).rest, s)
  {
    var body := if |s| > 0 && (s[0] == '+' || s[0] == '-') then s[1..] else s;
    var n := SpanLen(body, IsAsciiDigit);
    assert body[n..] == s[|s| - |body[n..]|..];
  }

  /** `report_set_custom_parser`: a signed 64-bit reason number, white
      space, and a set name; what follows the name is ignored. A number
      that names no reason fails at the start of the input. */
  function ReportSetArgs<R>(input: string, reason: int -> Option<R>): (r: Result<(R, string), CommandParseError>)
    ensures r.Failure? ==> r.error.Custom? && r.error.position + |r.error.rest| == |input| && input[r.error.position..] == r.error.rest
    ensures r.Success? ==> IsSetName(r.value.1)
  {
    NomSignedSuffix(input, I64_MIN, I64_MAX);
    match NomSigned(input, I64_MIN, I64_MAX)
    case Fail(at) => Failure(ErrorAt(input, input))
    case Done(afterNumber, n) =>
      var k := SpanLen(afterNumber, IsMultispace);
      if k == 0 then Failure(ErrorAt(input, afterNumber))
      else
        var afterSpace := afterNumber[k..];
        SuffixDrop(afterNumber, input, k);
        match SetNameLiteral(afterSpace)
        case Fail(_) => Failure(ErrorAt(input, afterSpace))
        case Done(_, name) =>
          match reason(n)
          case None => Failure(ErrorAt(input, input))
          case Some(rr) => Success((rr, name))
  }

  /** A reason number, white space and a set name are read back, whatever
      follows the name. */
  lemma ReportSetArgsReads<R>(n: int, space: string, name: string, tail: string, reason: int -> Option<R>)
    requires I64_MIN <= n <= I64_MAX && reason(n).Some?
    requires |space| > 0 && All(space, IsMultispace)
    requires IsSetName(name) && Stops(tail, IsSetNameChar)
    ensures ReportSetArgs(IntToString(n) + (space + (name + tail)), reason) == Success((reason(n).value, name))
  {
    NomSignedRoundTrip(n, space + (name + tail), I64_MIN, I64_MAX);
    SpanLenExact(space, name + tail, IsMultispace);
    assert (space + (name + tail))[|space|..] == name + tail;
    LiteralExact(name, tail, IsSetNameChar);
  }

  /** An unknown reason is reported at offset 0 with the whole input. */
  lemma ReportSetUnknownReason<R>(n: int, space: string, name: string, reason: int -> Option<R>)
    requires I64_MIN <= n <= I64_MAX && reason(n).None?
    requires |space| > 0 && All(space, IsMultispace)
    requires IsSetName(name)
    ensures var input := IntToString(n) + (space + (name + ""));
            ReportSetArgs(input, reason) == Failure(Custom(0, input))
  {
    NomSignedRoundTrip(n, space + (name + ""), I64_MIN, I64_MAX);
    SpanLenExact(space, name + "", IsMultispace);
    assert (space + (name + ""))[|space|..] == name + "";
    LiteralExact(name, "", IsSetNameChar);
  }

  /** `new_sticker_set_custom_parser`: a sticker id, white space, and a
      non-empty title that is the whole rest of the input. */
  function NewStickerSetArgs(input: string): (r: Result<(string, string), CommandParseError>)
    ensures r.Failure? ==> r.error.Custom? && r.error.position + |r.error.rest| == |input| && input[r.error.position..] == r.error.rest
    ensures r.Success? ==> IsStickerId(r.value.0) && |r.value.1| > 0 && IsSuffix(r.value.1, input)
  {
    match StickerIdLiteral(input)
    case Fail(_) => Failure(ErrorAt(input, input))
    case Done(afterId, id) =>
      assert IsSuffix(afterId, input) by { assert input == id + afterId; }
      var k := SpanLen(afterId, IsMultispace);
      if k == 0 then Failure(ErrorAt(input, afterId))
      else
        var title := afterId[k..];
        assert IsSuffix(title, input);
        if |title| == 0 then Failure(ErrorAt(input, title))
        else Success((id, title))
  }

  /** A sticker id, white space and a title not starting with white space
      are read back. */
  lemma NewStickerSetArgsReads(id: string, space: string, title: string)
    requires IsStickerId(id)
    requires |space| > 0 && All(space, IsMultispace)
    requires |title| > 0 && !IsMultispace(title[0])
    ensures NewStickerSetArgs(id + (space + title)) == Success((id, title))
  {
    assert !IsStickerIdChar(space[0]);
    LiteralExact(id, space + title, IsStickerIdChar);
    SpanLenExact(space, title, IsMultispace);
    assert (space + title)[|space|..] == title;
  }

  /** Without a title the parser fails at the very end of the input. */
  lemma NewStickerSetMissingTitle(id: string, space: string)
    requires IsStickerId(id)
    requires |space| > 0 && All(space, IsMultispace)
    ensures NewStickerSetArgs(id + space) == Failure(Custom(|id + space|, ""))
  {
    assert !IsStickerIdChar(space[0]);
    LiteralExact(id, space, IsStickerIdChar);
    SpanLenExact(space, "", IsMultispace);
    assert space + "" == space;
  }
}
