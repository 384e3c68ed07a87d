/** `CallbackData` of the current tree: the payload of an inline-keyboard
    button, printed by `Display` and read back by a nom grammar that must
    consume the whole input. */
module CallbackData {
  import opened Wrappers
  import opened Strings
  import opened Decimal
  import opened Nom
  import opened Literals
  import opened Categories

  datatype TagOperation = TagOp(tag: string) | UntagOp(tag: string)

  datatype FavoriteAction = Favorite | Unfavorite

  /** `StickerOrder`, serialised by `serde_repr` as its discriminant. */
  datatype StickerOrder = LatestFirst | RandomOrder

  datatype CallbackData =
    | NoAction | RemoveLinkedChannel | RemoveLinkedUser | LinkSelf | CreateTag | Help | Start
    | Settings | Blacklist | FeatureOverview | ExitDialog | PopularTags | GeneralStats
    | PersonalStats | LatestSets | Info
    | RemoveBlacklistedTag(tag: string)
    | RemoveContinuousTag(tag: string)
    | RemoveAlias(tag: string)
    | UserInfo(userId: nat)
    | SetOrder(order: StickerOrder)
    | SetCategory(category: Option<Category>)
    | StickerSetPage(stickerId: string)
    | DownloadSticker(stickerId: string)
    | StickerExplorePage(stickerId: string)
    | ToggleExampleSticker(stickerId: string)
    | Sticker(stickerId: string, operation: Option<TagOperation>)
    | FavoriteSticker(stickerId: string, action: FavoriteAction)
    | SetLock(stickerId: string, lock: bool)
    | ToggleRecommendSticker(stickerId: string, positive: bool)
    | ChangeSetStatus(setName: string, banned: bool)
    | Merge(stickerIdA: string, stickerIdB: string, merge: bool)

  // ---------------------------------------------------------------- printing

  function TagOperationDisplay(op: TagOperation): (s: string)
    ensures |s| >= 2 && s[1] == ';' && s[2..] == op.tag
    ensures s[0] == (if op.TagOp? then 't' else 'u')
  {
    match op
    case TagOp(t) => "t;" + t
    case UntagOp(t) => "u;" + t
  }

  function BoolWord(b: bool, yes: string, no: string): string { if b then yes else no }

  function OrderJson(o: StickerOrder): string { if o == LatestFirst then "0" else "1" }

  /** `serde_json::from_str::<StickerOrder>`: a discriminant with JSON white
      space (space, tab, line feed, carriage return) on either side. */
  function OrderFromJson(v: string): (r: Option<StickerOrder>)
    ensures r.Some? ==> OrderJson(r.value) == TrimMatches(v, IsMultispace)
  {
    var t := TrimMatches(v, IsMultispace);
    if t == "0" then Some(LatestFirst)
    else if t == "1" then Some(RandomOrder)
    else None
  }

  lemma OrderJsonReads(o: StickerOrder)
    ensures OrderFromJson(OrderJson(o)) == Some(o)
  {
    TrimMatchesNoOp(OrderJson(o), IsMultispace);
  }

  /** Every padding of a printed order reads back as that order. */
  lemma OrderFromJsonPadded(w1: string, o: StickerOrder, w2: string)
    requires All(w1, IsMultispace) && All(w2, IsMultispace)
    ensures OrderFromJson(w1 + OrderJson(o) + w2) == Some(o)
  {
    TrimAround(w1, OrderJson(o), w2, IsMultispace);
  }

  function Display(d: CallbackData): string {
    match d
    case Sticker(id, op) => "s;" + id + ";" + (if op.Some? then TagOperationDisplay(op.value) else "")
    case Help => "help"
    case FeatureOverview => "features"
    case ExitDialog => "exdia"
    case PopularTags => "pop"
    case GeneralStats => "gstats"
    case PersonalStats => "pstats"
    case LatestSets => "lsets"
    case FavoriteSticker(id, a) => "fav;" + id + ";" + (if a == Favorite then "add" else "remove")
    case Settings => "settings"
    case Start => "start"
    case Blacklist => "blacklist"
    case NoAction => "noaction"
    case RemoveLinkedUser => "removeuser"
    case LinkSelf => "linkself"
    case CreateTag => "createtag"
    case RemoveLinkedChannel => "removechannel"
    case StickerSetPage(id) => "ssp;" + id
    case DownloadSticker(id) => "dls;" + id
    case StickerExplorePage(id) => "sep;" + id
    case ToggleExampleSticker(id) => "tex;" + id
    case RemoveBlacklistedTag(t) => "removebl;" + t
    case RemoveContinuousTag(t) => "removec;" + t
    case RemoveAlias(t) => "ras;" + t
    case ChangeSetStatus(name, banned) => "chset;" + name + ";" + BoolWord(banned, "ban", "unban")
    case Info => "info"
    case UserInfo(u) => "userinfo;" + NatToString(u)
    case SetOrder(o) => "order;" + OrderJson(o)
    case SetCategory(c) => "cat;" + (if c.Some? then NatToString(ToU8(c.value)) else "none")
    case SetLock(id, lock) => "lock;" + id + ";" + BoolWord(lock, "lock", "unlock")
    case ToggleRecommendSticker(id, p) => "rec;" + id + ";" + BoolWord(p, "positive", "negative")
    case Merge(a, b, m) => "merge;" + a + ";" + b + ";" + BoolWord(m, "true", "false")
  }

  // ----------------------------------------------------------------- parsing

  /** `parse_simple`: the first keyword that prefixes the input. */
  function ParseSimple(s: string): PResult<CallbackData> {
    var a := SimpleFirst(s);
    if a.Done? then a else SimpleSecond(s)
  }

  /** The first nine keywords of `parse_simple`, in the source's order. */
  function SimpleFirst(s: string): PResult<CallbackData> {
    if "start" <= s then Done(s[5..], Start)
    else if "settings" <= s then Done(s[8..], Settings)
    else if "features" <= s then Done(s[8..], FeatureOverview)
    else if "exdia" <= s then Done(s[5..], ExitDialog)
    else if "pop" <= s then Done(s[3..], PopularTags)
    else if "gstats" <= s then Done(s[6..], GeneralStats)
    else if "pstats" <= s then Done(s[6..], PersonalStats)
    else if "lsets" <= s then Done(s[5..], LatestSets)
    else if "help" <= s then Done(s[4..], Help)
    else Fail(s)
  }

  /** The remaining seven keywords, tried only when none of the first nine
      matched. */
  function SimpleSecond(s: string): PResult<CallbackData> {
    if "blacklist" <= s then Done(s[9..], Blacklist)
    else if "info" <= s then Done(s[4..], Info)
    else if "noaction" <= s then Done(s[8..], NoAction)
    else if "removeuser" <= s then Done(s[10..], RemoveLinkedUser)
    else if "linkself" <= s then Done(s[8..], LinkSelf)
    else if "createtag" <= s then Done(s[9..], CreateTag)
    else if "removechannel" <= s then Done(s[13..], RemoveLinkedChannel)
    else Fail(s)
  }

  /** `alt((map(tag(yes), true), map(tag(no), false)))` */
  function Choice(s: string, yes: string, no: string): PResult<bool> {
    if yes <= s then Done(s[|yes|..], true)
    else if no <= s then Done(s[|no|..], false)
    else Fail(s)
  }

  /** `preceded(tag(prefix), tag_literal)` */
  function TagAfter(prefix: string, s: string): (r: PResult<string>)
    ensures r.Done? ==> prefix <= s
  {
    if prefix <= s then TagLiteral(s[|prefix|..]) else Fail(s)
  }

  /** `tag(prefix)` then `sticker_id_literal` */
  function IdAfter(prefix: string, s: string): (r: PResult<string>)
    ensures r.Done? ==> prefix <= s
  {
    if prefix <= s then StickerIdLiteral(s[|prefix|..]) else Fail(s)
  }

  /** `tag(prefix)`, a literal over the class `p`, `tag(";")` and a two-word
      choice. */
  function WordChoiceAfter(prefix: string, s: string, p: char -> bool,
                           yes: string, no: string): (r: PResult<(string, bool)>)
    ensures r.Done? ==> prefix <= s
  {
    if prefix <= s then
      match Literal(s[|prefix|..], p)
      case Fail(at) => Fail(at)
      case Done(r1, w) =>
        if ";" <= r1 then
          match Choice(r1[1..], yes, no)
          case Done(r2, b) => Done(r2, (w, b))
          case Fail(at) => Fail(at)
        else Fail(r1)
    else Fail(s)
  }

  /** `parse_tag`: `;` and a tag literal. */
  function ParseTag(s: string): PResult<string> {
    if ";" <= s then TagLiteral(s[1..]) else Fail(s)
  }

  /** `parse_tag_operation` */
  function ParseTagOperation(s: string): PResult<TagOperation> {
    var a := if "t" <= s then ParseTag(s[1..]) else Fail(s);
    if a.Done? then Done(a.rest, TagOp(a.value))
    else
      var b := if "u" <= s then ParseTag(s[1..]) else Fail(s);
      if b.Done? then Done(b.rest, UntagOp(b.value)) else Fail(s)
  }

  /** `parse_sticker_data`: the operation is optional (`opt`). */
  function ParseStickerData(s: string): (r: PResult<CallbackData>)
    ensures r.Done? ==> "s;" <= s
  {
    if "s;" <= s then
      match StickerIdLiteral(s[2..])
      case Fail(at) => Fail(at)
      case Done(r1, id) =>
        if ";" <= r1 then
          match ParseTagOperation(r1[1..])
          case Done(r2, op) => Done(r2, Sticker(id, Some(op)))
          case Fail(_) => Done(r1[1..], Sticker(id, None))
        else Fail(r1)
    else Fail(s)
  }

  /** `parse_user_info_data`: `userinfo`, `;`, then a `u64`. */
  function ParseUserInfo(s: string): (r: PResult<CallbackData>)
    ensures r.Done? ==> "userinfo;" <= s
  {
    if "userinfo;" <= s then
      match NomUnsigned(s[9..], U64_MAX)
      case Done(rest, u) => Done(rest, UserInfo(u))
      case Fail(at) => Fail(at)
    else Fail(s)
  }

  /** `parse_order_data`: the whole rest is handed to the JSON reader. */
  function ParseOrder(s: string): (r: PResult<CallbackData>)
    ensures r.Done? <==> "order;" <= s && OrderFromJson(s[6..]).Some?
    ensures r.Done? ==> r == Done("", SetOrder(OrderFromJson(s[6..]).value))
  {
    if "order;" <= s then
      match OrderFromJson(s[6..])
      case Some(o) => Done("", SetOrder(o))
      case None => Fail(s[6..])
    else Fail(s)
  }

  /** The order button's text with JSON white space around the digit. */
  lemma ParseOrderPadded(w1: string, o: StickerOrder, w2: string)
    requires All(w1, IsMultispace) && All(w2, IsMultispace)
    ensures ParseOrder("order;" + (w1 + OrderJson(o) + w2)) == Done("", SetOrder(o))
  {
    var s := "order;" + (w1 + OrderJson(o) + w2);
    assert s[6..] == w1 + OrderJson(o) + w2;
    OrderFromJsonPadded(w1, o, w2);
  }

  /** `parse_set_category`: a `u8` through `Category::from_u8`, or `none`. */
  function ParseSetCategory(s: string): (r: PResult<CallbackData>)
    ensures r.Done? ==> "cat;" <= s
  {
    var a := if "cat;" <= s then NomUnsigned(s[4..], U8_MAX) else Fail(s);
    if a.Done? then Done(a.rest, SetCategory(FromU8(a.value)))
    else if "cat;none" <= s then Done(s[8..], SetCategory(None))
    else Fail(s)
  }

  /** `parse_merge_data` */
  function ParseMerge(s: string): (r: PResult<CallbackData>)
    ensures r.Done? ==> "merge;" <= s
  {
    if "merge;" <= s then
      match StickerIdLiteral(s[6..])
      case Fail(at) => Fail(at)
      case Done(r1, a) =>
        if ";" <= r1 then
          MergeTail(a, r1[1..])
        else Fail(r1)
    else Fail(s)
  }

  /** The second sticker id, `;` and `true`/`false` of `parse_merge_data`. */
  function MergeTail(a: string, s: string): PResult<CallbackData> {
    match StickerIdLiteral(s)
    case Fail(at) => Fail(at)
    case Done(r1, b) =>
      if ";" <= r1 then
        match Choice(r1[1..], "true", "false")
        case Done(r2, m) => Done(r2, Merge(a, b, m))
        case Fail(at) => Fail(at)
      else Fail(r1)
  }

  /** The `alt` of `parse_callback_data`, in the source's order, taken in
      four consecutive groups. */
  function Alternatives(s: string): PResult<CallbackData> {
    var a := AlternativesA(s);
    if a.Done? then a else
    var b := AlternativesB(s);
    if b.Done? then b else
    var c := AlternativesC(s);
    if c.Done? then c else
    AlternativesD(s)
  }

  function AlternativesA(s: string): PResult<CallbackData> {
    var r0 := ParseSimple(s);
    if r0.Done? then r0 else
    var r1 := TagAfter("removebl;", s);
    if r1.Done? then Done(r1.rest, RemoveBlacklistedTag(r1.value)) else
    var r2 := TagAfter("removec;", s);
    if r2.Done? then Done(r2.rest, RemoveContinuousTag(r2.value)) else
    ParseStickerData(s)
  }

  function AlternativesB(s: string): PResult<CallbackData> {
    var r4 := WordChoiceAfter("chset;", s, IsTagChar, "ban", "unban");
    if r4.Done? then Done(r4.rest, ChangeSetStatus(r4.value.0, r4.value.1)) else
    var r5 := ParseUserInfo(s);
    if r5.Done? then r5 else
    var r6 := ParseOrder(s);
    if r6.Done? then r6 else
    ParseSetCategory(s)
  }

  function AlternativesC(s: string): PResult<CallbackData> {
    var r8 := TagAfter("ras;", s);
    if r8.Done? then Done(r8.rest, RemoveAlias(r8.value)) else
    var r9 := WordChoiceAfter("lock;", s, IsStickerIdChar, "lock", "unlock");
    if r9.Done? then Done(r9.rest, SetLock(r9.value.0, r9.value.1)) else
    var r10 := WordChoiceAfter("rec;", s, IsStickerIdChar, "positive", "negative");
    if r10.Done? then Done(r10.rest, ToggleRecommendSticker(r10.value.0, r10.value.1)) else
    var r11 := IdAfter("ssp;", s);
    if r11.Done? then Done(r11.rest, StickerSetPage(r11.value)) else Fail(s)
  }

  function AlternativesD(s: string): PResult<CallbackData> {
    var r12 := IdAfter("dls;", s);
    if r12.Done? then Done(r12.rest, DownloadSticker(r12.value)) else
    var r13 := IdAfter("sep;", s);
    if r13.Done? then Done(r13.rest, StickerExplorePage(r13.value)) else
    var r14 := IdAfter("tex;", s);
    if r14.Done? then Done(r14.rest, ToggleExampleSticker(r14.value)) else
    var r15 := WordChoiceAfter("fav;", s, IsStickerIdChar, "add", "remove");
    if r15.Done? then Done(r15.rest, FavoriteSticker(r15.value.0, if r15.value.1 then Favorite else Unfavorite)) else
    ParseMerge(s)
  }

  /** `CallbackData::try_from`: the first alternative that succeeds, which
      must then be followed by `eof`. */
  function Parse(s: string): (r: Option<CallbackData>)
    ensures r.Some? <==> Alternatives(s).Done? && Alternatives(s).rest == ""
    ensures r.Some? ==> r.value == Alternatives(s).value
  {
    match Alternatives(s)
    case Done(rest, d) => if rest == "" then Some(d) else None
    case Fail(_) => None
  }

  // -------------------------------------------------------------- properties

  /** The string fields satisfy the literal grammars the parser reads them
      with, and the user id fits a `u64`. */
  predicate WellFormed(d: CallbackData) {
    match d
    case RemoveBlacklistedTag(t) => IsTag(t)
    case RemoveContinuousTag(t) => IsTag(t)
    case RemoveAlias(t) => IsTag(t)
    case UserInfo(u) => u <= U64_MAX
    case StickerSetPage(id) => IsStickerId(id)
    case DownloadSticker(id) => IsStickerId(id)
    case StickerExplorePage(id) => IsStickerId(id)
    case ToggleExampleSticker(id) => IsStickerId(id)
    case Sticker(id, op) => IsStickerId(id) && (op.Some? ==> IsTag(op.value.tag))
    case FavoriteSticker(id, _) => IsStickerId(id)
    case SetLock(id, _) => IsStickerId(id)
    case ToggleRecommendSticker(id, _) => IsStickerId(id)
    case ChangeSetStatus(name, _) => IsTag(name)
    case Merge(a, b, _) => IsStickerId(a) && IsStickerId(b)
    case _ => true
  }

  /** `;` separates a tag from what follows it. */
  lemma SemicolonEndsTag()
    ensures !IsTagChar(';')
  {
    assert forall i :: 0 <= i < |"_-()/<>!?':.^"| ==> "_-()/<>!?':.^"[i] != ';';
  }

  lemma ChoiceRoundTrip(b: bool, yes: string, no: string, rest: string, i: nat)
    requires i < |yes| && i < |no| && yes[i] != no[i]
    ensures Choice(BoolWord(b, yes, no) + rest, yes, no) == Done(rest, b)
  {
    var s := BoolWord(b, yes, no) + rest;
    assert s[..|BoolWord(b, yes, no)|] == BoolWord(b, yes, no);
    assert s[|BoolWord(b, yes, no)|..] == rest;
    if !b {
      DifferAt(yes, no, rest, i);
    }
  }

  lemma TagOperationRoundTrip(op: TagOperation)
    requires IsTag(op.tag)
    ensures ParseTagOperation(TagOperationDisplay(op)) == Done("", op)
  {
    var s := TagOperationDisplay(op);
    assert s[1..] == ";" + op.tag;
    assert (";" + op.tag)[1..] == op.tag + "";
    LiteralExact(op.tag, "", IsTagChar);
  }

  /** The whole `s;{id};{op}` form is read back. */
  lemma StickerDataRoundTrip(id: string, op: Option<TagOperation>)
    requires IsStickerId(id) && (op.Some? ==> IsTag(op.value.tag))
    ensures ParseStickerData(Display(Sticker(id, op))) == Done("", Sticker(id, op))
  {
    var tail := if op.Some? then TagOperationDisplay(op.value) else "";
    assert Display(Sticker(id, op)) == "s;" + id + ";" + tail;
    if op.Some? {
      StickerDataSome(id, op.value);
    } else {
      StickerDataNone(id);
    }
  }

  lemma StickerDataSome(id: string, o: TagOperation)
    requires IsStickerId(id) && IsTag(o.tag)
    ensures ParseStickerData("s;" + id + ";" + TagOperationDisplay(o)) == Done("", Sticker(id, Some(o)))
  {
    StickerHead(id, TagOperationDisplay(o));
    TagOperationRoundTrip(o);
  }

  lemma StickerDataNone(id: string)
    requires IsStickerId(id)
    ensures ParseStickerData("s;" + id + ";" + "") == Done("", Sticker(id, None))
  {
    StickerHead(id, "");
    assert ParseTagOperation("") == Fail("");
  }

  /** The sticker id and the separator after it are consumed, leaving the
      operation text. */
  lemma StickerHead(id: string, tail: string)
    requires IsStickerId(id)
    ensures var s := "s;" + id + ";" + tail;
      "s;" <= s && StickerIdLiteral(s[2..]) == Done(";" + tail, id) && (";" + tail)[1..] == tail
  {
    var s := "s;" + id + ";" + tail;
    assert s[2..] == id + (";" + tail);
    LiteralExact(id, ";" + tail, IsStickerIdChar);
  }

  lemma WordChoiceRoundTrip(prefix: string, w: string, p: char -> bool,
                            yes: string, no: string, b: bool, i: nat)
    requires IsWord(w, p) && !p(';')
    requires i < |yes| && i < |no| && yes[i] != no[i]
    ensures WordChoiceAfter(prefix, prefix + w + ";" + BoolWord(b, yes, no), p, yes, no) == Done("", (w, b))
  {
    var word := BoolWord(b, yes, no);
    var s := prefix + w + ";" + word;
    assert s[|prefix|..] == w + (";" + word);
    LiteralExact(w, ";" + word, p);
    assert (";" + word)[1..] == word + "";
    ChoiceRoundTrip(b, yes, no, "", i);
  }

  lemma IdAfterRoundTrip(prefix: string, id: string)
    requires IsStickerId(id)
    ensures IdAfter(prefix, prefix + id) == Done("", id)
  {
    assert (prefix + id)[|prefix|..] == id + "";
    LiteralExact(id, "", IsStickerIdChar);
  }

  lemma TagAfterRoundTrip(prefix: string, t: string)
    requires IsTag(t)
    ensures TagAfter(prefix, prefix + t) == Done("", t)
  {
    assert (prefix + t)[|prefix|..] == t + "";
    LiteralExact(t, "", IsTagChar);
  }

  lemma UserInfoRoundTrip(u: nat)
    requires u <= U64_MAX
    ensures ParseUserInfo(Display(UserInfo(u))) == Done("", UserInfo(u))
  {
    var s := "userinfo;" + NatToString(u);
    assert s[9..] == NatToString(u) + "";
    NomUnsignedRoundTrip(u, "", U64_MAX);
  }

  lemma SetCategoryRoundTrip(c: Option<Category>)
    ensures ParseSetCategory(Display(SetCategory(c))) == Done("", SetCategory(c))
  {
    if c.Some? {
      var s := "cat;" + NatToString(ToU8(c.value));
      assert s[4..] == NatToString(ToU8(c.value)) + "";
      NomUnsignedRoundTrip(ToU8(c.value), "", U8_MAX);
      FromToU8(c.value);
    } else {
      var s := "cat;none";
      assert s[4..] == "none";
      assert !IsAsciiDigit('n');
    }
  }

  lemma MergeRoundTrip(a: string, b: string, m: bool)
    requires IsStickerId(a) && IsStickerId(b)
    ensures ParseMerge(Display(Merge(a, b, m))) == Done("", Merge(a, b, m))
  {
    var tail := b + ";" + BoolWord(m, "true", "false");
    assert Display(Merge(a, b, m)) == "merge;" + a + ";" + tail;
    MergeHead(a, tail);
    MergeTailRoundTrip(a, b, m);
  }

  lemma MergeTailRoundTrip(a: string, b: string, m: bool)
    requires IsStickerId(b)
    ensures MergeTail(a, b + ";" + BoolWord(m, "true", "false")) == Done("", Merge(a, b, m))
  {
    var word := BoolWord(m, "true", "false");
    assert b + ";" + word == b + (";" + word);
    LiteralExact(b, ";" + word, IsStickerIdChar);
    assert (";" + word)[1..] == word + "";
    ChoiceRoundTrip(m, "true", "false", "", 0);
  }

  lemma MergeHead(a: string, tail: string)
    requires IsStickerId(a)
    ensures var s := "merge;" + a + ";" + tail;
      "merge;" <= s && StickerIdLiteral(s[6..]) == Done(";" + tail, a) && (";" + tail)[1..] == tail
  {
    var s := "merge;" + a + ";" + tail;
    assert s[6..] == a + (";" + tail);
    LiteralExact(a, ";" + tail, IsStickerIdChar);
  }

  /** Round trip: `parse(d.to_string()) == d` for every value whose string
      fields satisfy their literal grammars. */
  lemma RoundTrip(d: CallbackData)
    requires WellFormed(d)
    ensures Parse(Display(d)) == Some(d)
  {
    match d {
      case RemoveBlacklistedTag(t) => RemoveBlacklistedRoundTrip(t);
      case RemoveContinuousTag(t) => RemoveContinuousRoundTrip(t);
      case RemoveAlias(t) => RemoveAliasRoundTrip(t);
      case UserInfo(u) => UserInfoAltRoundTrip(u);
      case SetOrder(o) => SetOrderRoundTrip(o);
      case SetCategory(c) => SetCategoryAltRoundTrip(c);
      case StickerSetPage(id) => StickerSetPageRoundTrip(id);
      case DownloadSticker(id) => DownloadStickerRoundTrip(id);
      case StickerExplorePage(id) => StickerExplorePageRoundTrip(id);
      case ToggleExampleSticker(id) => ToggleExampleStickerRoundTrip(id);
      case Sticker(id, op) => StickerRoundTrip(id, op);
      case FavoriteSticker(id, a) => FavoriteRoundTrip(id, a);
      case SetLock(id, b) => SetLockRoundTrip(id, b);
      case ToggleRecommendSticker(id, b) => RecommendRoundTrip(id, b);
      case ChangeSetStatus(n, b) => ChangeSetStatusRoundTrip(n, b);
      case Merge(a, b, m) => MergeAltRoundTrip(a, b, m);
      case Start => StartRoundTrip();
      case Settings => SettingsRoundTrip();
      case FeatureOverview => FeatureOverviewRoundTrip();
      case ExitDialog => ExitDialogRoundTrip();
      case PopularTags => PopularTagsRoundTrip();
      case GeneralStats => GeneralStatsRoundTrip();
      case PersonalStats => PersonalStatsRoundTrip();
      case LatestSets => LatestSetsRoundTrip();
      case Help => HelpRoundTrip();
      case Blacklist => BlacklistRoundTrip();
      case Info => InfoRoundTrip();
      case NoAction => NoActionRoundTrip();
      case RemoveLinkedUser => RemoveLinkedUserRoundTrip();
      case LinkSelf => LinkSelfRoundTrip();
      case CreateTag => CreateTagRoundTrip();
      case RemoveLinkedChannel => RemoveLinkedChannelRoundTrip();
    }
  }

  /** A keyword whose first character is not the text's first character does
      not prefix it. */
  lemma SimpleFirstChar(s: string)
    requires |s| > 0
    ensures s[0] != 's' ==> !("start" <= s)
    ensures s[0] != 's' ==> !("settings" <= s)
    ensures s[0] != 'f' ==> !("features" <= s)
    ensures s[0] != 'e' ==> !("exdia" <= s)
    ensures s[0] != 'p' ==> !("pop" <= s)
    ensures s[0] != 'g' ==> !("gstats" <= s)
    ensures s[0] != 'p' ==> !("pstats" <= s)
    ensures s[0] != 'l' ==> !("lsets" <= s)
    ensures s[0] != 'h' ==> !("help" <= s)
    ensures s[0] != 'b' ==> !("blacklist" <= s)
    ensures s[0] != 'i' ==> !("info" <= s)
    ensures s[0] != 'n' ==> !("noaction" <= s)
    ensures s[0] != 'r' ==> !("removeuser" <= s)
    ensures s[0] != 'l' ==> !("linkself" <= s)
    ensures s[0] != 'c' ==> !("createtag" <= s)
    ensures s[0] != 'r' ==> !("removechannel" <= s)
  {
  }

  /** The same for the prefixes of the other alternatives. */
  lemma PrefixFirstChar(s: string)
    requires |s| > 0
    ensures s[0] != 'r' ==> !("removebl;" <= s)
    ensures s[0] != 'r' ==> !("removec;" <= s)
    ensures s[0] != 's' ==> !("s;" <= s)
    ensures s[0] != 'c' ==> !("chset;" <= s)
    ensures s[0] != 'u' ==> !("userinfo;" <= s)
    ensures s[0] != 'o' ==> !("order;" <= s)
    ensures s[0] != 'c' ==> !("cat;" <= s)
    ensures s[0] != 'r' ==> !("ras;" <= s)
    ensures s[0] != 'l' ==> !("lock;" <= s)
    ensures s[0] != 'r' ==> !("rec;" <= s)
    ensures s[0] != 's' ==> !("ssp;" <= s)
    ensures s[0] != 'd' ==> !("dls;" <= s)
    ensures s[0] != 's' ==> !("sep;" <= s)
    ensures s[0] != 't' ==> !("tex;" <= s)
    ensures s[0] != 'f' ==> !("fav;" <= s)
  {
  }

  /** Text that starts with none of the first nine keywords is not read by
      the first half of the keyword parser. */
  lemma SimpleFirstFails(s: string)
    requires !("start" <= s)
    requires !("settings" <= s)
    requires !("features" <= s)
    requires !("exdia" <= s)
    requires !("pop" <= s)
    requires !("gstats" <= s)
    requires !("pstats" <= s)
    requires !("lsets" <= s)
    requires !("help" <= s)
    ensures SimpleFirst(s).Fail?
  {
  }

  lemma AlternativesAFails(s: string)
    requires !("start" <= s)
    requires !("settings" <= s)
    requires !("features" <= s)
    requires !("exdia" <= s)
    requires !("pop" <= s)
    requires !("gstats" <= s)
    requires !("pstats" <= s)
    requires !("lsets" <= s)
    requires !("help" <= s)
    requires !("blacklist" <= s)
    requires !("info" <= s)
    requires !("noaction" <= s)
    requires !("removeuser" <= s)
    requires !("linkself" <= s)
    requires !("createtag" <= s)
    requires !("removechannel" <= s)
    requires !("removebl;" <= s)
    requires !("removec;" <= s)
    requires !("s;" <= s)
    ensures AlternativesA(s).Fail?
  {
    SimpleFirstFails(s);
  }

  lemma AlternativesBFails(s: string)
    requires !("chset;" <= s)
    requires !("userinfo;" <= s)
    requires !("order;" <= s)
    requires !("cat;" <= s)
    ensures AlternativesB(s).Fail?
  {
  }

  lemma AlternativesCFails(s: string)
    requires !("ras;" <= s)
    requires !("lock;" <= s)
    requires !("rec;" <= s)
    requires !("ssp;" <= s)
    ensures AlternativesC(s).Fail?
  {
  }

  /** A keyword the simple parser reads completely is the whole parse. */
  lemma SimpleWhole(s: string, d: CallbackData)
    requires ParseSimple(s) == Done("", d)
    ensures Alternatives(s) == Done("", d)
  {
  }

  /** A read by the first group is the whole parse. */
  lemma AWhole(s: string, d: CallbackData)
    requires AlternativesA(s) == Done("", d)
    ensures Alternatives(s) == Done("", d)
  {
  }

  /** A read by the second group, after the first fails, is the whole
      parse. */
  lemma BWhole(s: string, d: CallbackData)
    requires AlternativesA(s).Fail? && AlternativesB(s) == Done("", d)
    ensures Alternatives(s) == Done("", d)
  {
  }

  /** A read by the third group, after the first two fail, is the whole
      parse. */
  lemma CWhole(s: string, d: CallbackData)
    requires AlternativesA(s).Fail? && AlternativesB(s).Fail?
    requires AlternativesC(s) == Done("", d)
    ensures Alternatives(s) == Done("", d)
  {
  }

  /** A read by the last group, after the other three fail, is the whole
      parse. */
  lemma DWhole(s: string, d: CallbackData)
    requires AlternativesA(s).Fail? && AlternativesB(s).Fail? && AlternativesC(s).Fail?
    requires AlternativesD(s) == Done("", d)
    ensures Alternatives(s) == Done("", d)
  {
  }

  /** `start` is read by the keyword parser. */
  lemma StartParsed()
    ensures ParseSimple("start") == Done("", Start)
  {
    assert "start"[5..] == "";
  }

  lemma StartRoundTrip()
    ensures Alternatives(Display(Start)) == Done("", Start)
  {
    StartParsed();
    assert Display(Start) == "start";
    SimpleWhole("start", Start);
  }

  /** `settings` is read by the keyword parser. */
  lemma SettingsParsed()
    ensures ParseSimple("settings") == Done("", Settings)
  {
    SimpleFirstChar("settings");
    DifferAt("start", "settings", "", 1);
    assert "settings"[8..] == "";
  }

  lemma SettingsRoundTrip()
    ensures Alternatives(Display(Settings)) == Done("", Settings)
  {
    SettingsParsed();
    assert Display(Settings) == "settings";
    SimpleWhole("settings", Settings);
  }

  /** `features` is read by the keyword parser. */
  lemma FeatureOverviewParsed()
    ensures ParseSimple("features") == Done("", FeatureOverview)
  {
    SimpleFirstChar("features");
    assert "features"[8..] == "";
  }

  lemma FeatureOverviewRoundTrip()
    ensures Alternatives(Display(FeatureOverview)) == Done("", FeatureOverview)
  {
    FeatureOverviewParsed();
    assert Display(FeatureOverview) == "features";
    SimpleWhole("features", FeatureOverview);
  }

  /** `exdia` is read by the keyword parser. */
  lemma ExitDialogParsed()
    ensures ParseSimple("exdia") == Done("", ExitDialog)
  {
    SimpleFirstChar("exdia");
    assert "exdia"[5..] == "";
  }

  lemma ExitDialogRoundTrip()
    ensures Alternatives(Display(ExitDialog)) == Done("", ExitDialog)
  {
    ExitDialogParsed();
    assert Display(ExitDialog) == "exdia";
    SimpleWhole("exdia", ExitDialog);
  }

  /** `pop` is read by the keyword parser. */
  lemma PopularTagsParsed()
    ensures ParseSimple("pop") == Done("", PopularTags)
  {
    SimpleFirstChar("pop");
    assert "pop"[3..] == "";
  }

  lemma PopularTagsRoundTrip()
    ensures Alternatives(Display(PopularTags)) == Done("", PopularTags)
  {
    PopularTagsParsed();
    assert Display(PopularTags) == "pop";
    SimpleWhole("pop", PopularTags);
  }

  /** `gstats` is read by the keyword parser. */
  lemma GeneralStatsParsed()
    ensures ParseSimple("gstats") == Done("", GeneralStats)
  {
    SimpleFirstChar("gstats");
    assert "gstats"[6..] == "";
  }

  lemma GeneralStatsRoundTrip()
    ensures Alternatives(Display(GeneralStats)) == Done("", GeneralStats)
  {
    GeneralStatsParsed();
    assert Display(GeneralStats) == "gstats";
    SimpleWhole("gstats", GeneralStats);
  }

  /** `pstats` is read by the keyword parser. */
  lemma PersonalStatsParsed()
    ensures ParseSimple("pstats") == Done("", PersonalStats)
  {
    SimpleFirstChar("pstats");
    DifferAt("pop", "pstats", "", 1);
    assert "pstats"[6..] == "";
  }

  lemma PersonalStatsRoundTrip()
    ensures Alternatives(Display(PersonalStats)) == Done("", PersonalStats)
  {
    PersonalStatsParsed();
    assert Display(PersonalStats) == "pstats";
    SimpleWhole("pstats", PersonalStats);
  }

  /** `lsets` is read by the keyword parser. */
  lemma LatestSetsParsed()
    ensures ParseSimple("lsets") == Done("", LatestSets)
  {
    SimpleFirstChar("lsets");
    assert "lsets"[5..] == "";
  }

  lemma LatestSetsRoundTrip()
    ensures Alternatives(Display(LatestSets)) == Done("", LatestSets)
  {
    LatestSetsParsed();
    assert Display(LatestSets) == "lsets";
    SimpleWhole("lsets", LatestSets);
  }

  /** `help` is read by the keyword parser. */
  lemma HelpParsed()
    ensures ParseSimple("help") == Done("", Help)
  {
    SimpleFirstChar("help");
    assert "help"[4..] == "";
  }

  lemma HelpRoundTrip()
    ensures Alternatives(Display(Help)) == Done("", Help)
  {
    HelpParsed();
    assert Display(Help) == "help";
    SimpleWhole("help", Help);
  }

  /** `blacklist` is read by the keyword parser. */
  lemma BlacklistParsed()
    ensures ParseSimple("blacklist") == Done("", Blacklist)
  {
    SimpleFirstChar("blacklist");
    assert "blacklist"[9..] == "";
  }

  lemma BlacklistRoundTrip()
    ensures Alternatives(Display(Blacklist)) == Done("", Blacklist)
  {
    BlacklistParsed();
    assert Display(Blacklist) == "blacklist";
    SimpleWhole("blacklist", Blacklist);
  }

  /** `info` is read by the keyword parser. */
  lemma InfoParsed()
    ensures ParseSimple("info") == Done("", Info)
  {
    SimpleFirstChar("info");
    assert "info"[4..] == "";
  }

  lemma InfoRoundTrip()
    ensures Alternatives(Display(Info)) == Done("", Info)
  {
    InfoParsed();
    assert Display(Info) == "info";
    SimpleWhole("info", Info);
  }

  /** `noaction` is read by the keyword parser. */
  lemma NoActionParsed()
    ensures ParseSimple("noaction") == Done("", NoAction)
  {
    SimpleFirstChar("noaction");
    assert "noaction"[8..] == "";
  }

  lemma NoActionRoundTrip()
    ensures Alternatives(Display(NoAction)) == Done("", NoAction)
  {
    NoActionParsed();
    assert Display(NoAction) == "noaction";
    SimpleWhole("noaction", NoAction);
  }

  /** `removeuser` is read by the keyword parser. */
  lemma RemoveLinkedUserParsed()
    ensures ParseSimple("removeuser") == Done("", RemoveLinkedUser)
  {
    SimpleFirstChar("removeuser");
    assert "removeuser"[10..] == "";
  }

  lemma RemoveLinkedUserRoundTrip()
    ensures Alternatives(Display(RemoveLinkedUser)) == Done("", RemoveLinkedUser)
  {
    RemoveLinkedUserParsed();
    assert Display(RemoveLinkedUser) == "removeuser";
    SimpleWhole("removeuser", RemoveLinkedUser);
  }

  /** `linkself` is read by the keyword parser. */
  lemma LinkSelfParsed()
    ensures ParseSimple("linkself") == Done("", LinkSelf)
  {
    SimpleFirstChar("linkself");
    DifferAt("lsets", "linkself", "", 1);
    assert "linkself"[8..] == "";
  }

  lemma LinkSelfRoundTrip()
    ensures Alternatives(Display(LinkSelf)) == Done("", LinkSelf)
  {
    LinkSelfParsed();
    assert Display(LinkSelf) == "linkself";
    SimpleWhole("linkself", LinkSelf);
  }

  /** `createtag` is read by the keyword parser. */
  lemma CreateTagParsed()
    ensures ParseSimple("createtag") == Done("", CreateTag)
  {
    SimpleFirstChar("createtag");
    assert "createtag"[9..] == "";
  }

  lemma CreateTagRoundTrip()
    ensures Alternatives(Display(CreateTag)) == Done("", CreateTag)
  {
    CreateTagParsed();
    assert Display(CreateTag) == "createtag";
    SimpleWhole("createtag", CreateTag);
  }

  /** `removechannel` is read by the keyword parser. */
  lemma RemoveLinkedChannelParsed()
    ensures ParseSimple("removechannel") == Done("", RemoveLinkedChannel)
  {
    SimpleFirstChar("removechannel");
    DifferAt("removeuser", "removechannel", "", 6);
    assert "removechannel"[13..] == "";
  }

  lemma RemoveLinkedChannelRoundTrip()
    ensures Alternatives(Display(RemoveLinkedChannel)) == Done("", RemoveLinkedChannel)
  {
    RemoveLinkedChannelParsed();
    assert Display(RemoveLinkedChannel) == "removechannel";
    SimpleWhole("removechannel", RemoveLinkedChannel);
  }

  lemma RemoveBlacklistedInGroup(t: string)
    requires IsTag(t)
    ensures AlternativesA(Display(RemoveBlacklistedTag(t))) == Done("", RemoveBlacklistedTag(t))
  {
    var s := Display(RemoveBlacklistedTag(t));
    assert s == "removebl;" + t;
    assert s[0] == "removebl;"[0];
    SimpleFirstChar(s);
    PrefixFirstChar(s);
    DifferAtPrefix("removeuser", "removebl;", s, 6);
    DifferAtPrefix("removechannel", "removebl;", s, 6);
    TagAfterRoundTrip("removebl;", t);
  }

  lemma RemoveBlacklistedRoundTrip(t: string)
    requires IsTag(t)
    ensures Alternatives(Display(RemoveBlacklistedTag(t))) == Done("", RemoveBlacklistedTag(t))
  {
    var s := Display(RemoveBlacklistedTag(t));
    assert s == "removebl;" + t;
    RemoveBlacklistedInGroup(t);
    AWhole(s, RemoveBlacklistedTag(t));
  }

  lemma RemoveContinuousInGroup(t: string)
    requires IsTag(t)
    ensures AlternativesA(Display(RemoveContinuousTag(t))) == Done("", RemoveContinuousTag(t))
  {
    var s := Display(RemoveContinuousTag(t));
    assert s == "removec;" + t;
    assert s[0] == "removec;"[0];
    SimpleFirstChar(s);
    PrefixFirstChar(s);
    DifferAtPrefix("removeuser", "removec;", s, 6);
    DifferAtPrefix("removechannel", "removec;", s, 7);
    DifferAtPrefix("removebl;", "removec;", s, 6);
    TagAfterRoundTrip("removec;", t);
  }

  lemma RemoveContinuousRoundTrip(t: string)
    requires IsTag(t)
    ensures Alternatives(Display(RemoveContinuousTag(t))) == Done("", RemoveContinuousTag(t))
  {
    var s := Display(RemoveContinuousTag(t));
    assert s == "removec;" + t;
    RemoveContinuousInGroup(t);
    AWhole(s, RemoveContinuousTag(t));
  }

  lemma StickerInGroup(id: string, op: Option<TagOperation>)
    requires IsStickerId(id) && (op.Some? ==> IsTag(op.value.tag))
    ensures AlternativesA(Display(Sticker(id, op))) == Done("", Sticker(id, op))
  {
    var s := Display(Sticker(id, op));
    PrefixOfConcat("s;", id, ";" + (if op.Some? then TagOperationDisplay(op.value) else ""));
    StickerPrefixSkips(s);
    StickerDataRoundTrip(id, op);
    StickerDataFirst(s, Sticker(id, op));
  }

  /** Text that starts with `s;` matches no keyword and neither tag
      removal. */
  lemma StickerPrefixSkips(s: string)
    requires "s;" <= s
    ensures ParseSimple(s).Fail? && !("removebl;" <= s) && !("removec;" <= s)
  {
    assert s[0] == "s;"[0];
    SimpleFirstChar(s);
    PrefixFirstChar(s);
    DifferAtPrefix("start", "s;", s, 1);
    DifferAtPrefix("settings", "s;", s, 1);
    SimpleFirstFails(s);
  }

  /** Sticker data read completely, after the earlier alternatives of the
      first group fail, is that group's result. */
  lemma StickerDataFirst(s: string, d: CallbackData)
    requires ParseSimple(s).Fail? && !("removebl;" <= s) && !("removec;" <= s)
    requires ParseStickerData(s) == Done("", d)
    ensures AlternativesA(s) == Done("", d)
  {
  }

  lemma StickerRoundTrip(id: string, op: Option<TagOperation>)
    requires IsStickerId(id) && (op.Some? ==> IsTag(op.value.tag))
    ensures Alternatives(Display(Sticker(id, op))) == Done("", Sticker(id, op))
  {
    var s := Display(Sticker(id, op));
    PrefixOfConcat("s;", id, ";" + (if op.Some? then TagOperationDisplay(op.value) else ""));
    StickerInGroup(id, op);
    AWhole(s, Sticker(id, op));
  }

  lemma ChangeSetStatusInGroup(n: string, b: bool)
    requires IsTag(n)
    ensures AlternativesB(Display(ChangeSetStatus(n, b))) == Done("", ChangeSetStatus(n, b))
  {
    assert Display(ChangeSetStatus(n, b)) == "chset;" + n + ";" + BoolWord(b, "ban", "unban");
    ChsetWordRead(n, b);
  }

  lemma ChsetWordRead(n: string, b: bool)
    requires IsTag(n)
    ensures AlternativesB("chset;" + n + ";" + BoolWord(b, "ban", "unban")) == Done("", ChangeSetStatus(n, b))
  {
    SemicolonEndsTag();
    WordChoiceRoundTrip("chset;", n, IsTagChar, "ban", "unban", b, 0);
    ChsetFirst("chset;" + n + ";" + BoolWord(b, "ban", "unban"), n, b);
  }

  /** A set-status read is the first alternative of its group. */
  lemma ChsetFirst(s: string, n: string, b: bool)
    requires WordChoiceAfter("chset;", s, IsTagChar, "ban", "unban") == Done("", (n, b))
    ensures AlternativesB(s) == Done("", ChangeSetStatus(n, b))
  {
  }

  /** Text that starts with `chset;` matches no alternative of the earlier
      groups. */
  lemma ChsetPrefixSkipsA(s: string)
    requires "chset;" <= s
    ensures AlternativesA(s).Fail?
  {
    assert s[0] == "chset;"[0];
    SimpleFirstChar(s);
    PrefixFirstChar(s);
    DifferAtPrefix("createtag", "chset;", s, 1);
    AlternativesAFails(s);
  }

  lemma ChangeSetStatusRoundTrip(n: string, b: bool)
    requires IsTag(n)
    ensures Alternatives(Display(ChangeSetStatus(n, b))) == Done("", ChangeSetStatus(n, b))
  {
    var s := Display(ChangeSetStatus(n, b));
    PrefixOfConcat("chset;", n, ";" + BoolWord(b, "ban", "unban"));
    ChsetPrefixSkipsA(s);
    ChangeSetStatusInGroup(n, b);
    BWhole(s, ChangeSetStatus(n, b));
  }

  lemma UserInfoAltInGroup(u: nat)
    requires u <= U64_MAX
    ensures AlternativesB(Display(UserInfo(u))) == Done("", UserInfo(u))
  {
    var s := Display(UserInfo(u));
    assert s == "userinfo;" + NatToString(u);
    DifferAtPrefix("chset;", "userinfo;", s, 0);
    UserInfoRoundTrip(u);
  }

  lemma UserInfoAltRoundTrip(u: nat)
    requires u <= U64_MAX
    ensures Alternatives(Display(UserInfo(u))) == Done("", UserInfo(u))
  {
    var s := Display(UserInfo(u));
    assert s == "userinfo;" + NatToString(u);
    assert s[0] == "userinfo;"[0];
    SimpleFirstChar(s);
    PrefixFirstChar(s);
    AlternativesAFails(s);
    UserInfoAltInGroup(u);
    BWhole(s, UserInfo(u));
  }

  lemma SetOrderInGroup(o: StickerOrder)
    ensures AlternativesB(Display(SetOrder(o))) == Done("", SetOrder(o))
  {
    OrderDisplayed(o);
    OrderInGroupB(Display(SetOrder(o)), o);
  }

  /** Text the order parser accepts is passed over by the two earlier
      alternatives of its group. */
  lemma OrderInGroupB(s: string, o: StickerOrder)
    requires ParseOrder(s) == Done("", SetOrder(o))
    ensures AlternativesB(s) == Done("", SetOrder(o))
  {
    DifferAtPrefix("chset;", "order;", s, 0);
    DifferAtPrefix("userinfo;", "order;", s, 0);
  }

  lemma OrderDisplayed(o: StickerOrder)
    ensures ParseOrder(Display(SetOrder(o))) == Done("", SetOrder(o))
  {
    var s := Display(SetOrder(o));
    assert "order;" <= s && s[6..] == OrderJson(o);
    OrderJsonReads(o);
  }

  lemma SetOrderRoundTrip(o: StickerOrder)
    ensures Alternatives(Display(SetOrder(o))) == Done("", SetOrder(o))
  {
    var s := Display(SetOrder(o));
    assert s == "order;" + OrderJson(o);
    assert s[0] == "order;"[0];
    SimpleFirstChar(s);
    PrefixFirstChar(s);
    AlternativesAFails(s);
    SetOrderInGroup(o);
    BWhole(s, SetOrder(o));
  }

  lemma SetCategoryAltInGroup(c: Option<Category>)
    ensures AlternativesB(Display(SetCategory(c))) == Done("", SetCategory(c))
  {
    var s := Display(SetCategory(c));
    assert s == "cat;" + (if c.Some? then NatToString(ToU8(c.value)) else "none");
    DifferAtPrefix("chset;", "cat;", s, 1);
    DifferAtPrefix("userinfo;", "cat;", s, 0);
    DifferAtPrefix("order;", "cat;", s, 0);
    SetCategoryRoundTrip(c);
  }

  lemma SetCategoryAltRoundTrip(c: Option<Category>)
    ensures Alternatives(Display(SetCategory(c))) == Done("", SetCategory(c))
  {
    var s := Display(SetCategory(c));
    assert s == "cat;" + (if c.Some? then NatToString(ToU8(c.value)) else "none");
    assert s[0] == "cat;"[0];
    SimpleFirstChar(s);
    PrefixFirstChar(s);
    DifferAtPrefix("createtag", "cat;", s, 1);
    AlternativesAFails(s);
    SetCategoryAltInGroup(c);
    BWhole(s, SetCategory(c));
  }

  lemma RemoveAliasInGroup(t: string)
    requires IsTag(t)
    ensures AlternativesC(Display(RemoveAlias(t))) == Done("", RemoveAlias(t))
  {
    var s := Display(RemoveAlias(t));
    assert s == "ras;" + t;
    TagAfterRoundTrip("ras;", t);
  }

  lemma RemoveAliasRoundTrip(t: string)
    requires IsTag(t)
    ensures Alternatives(Display(RemoveAlias(t))) == Done("", RemoveAlias(t))
  {
    var s := Display(RemoveAlias(t));
    assert s == "ras;" + t;
    assert s[0] == "ras;"[0];
    SimpleFirstChar(s);
    PrefixFirstChar(s);
    DifferAtPrefix("removeuser", "ras;", s, 1);
    DifferAtPrefix("removechannel", "ras;", s, 1);
    DifferAtPrefix("removebl;", "ras;", s, 1);
    DifferAtPrefix("removec;", "ras;", s, 1);
    AlternativesAFails(s);
    AlternativesBFails(s);
    RemoveAliasInGroup(t);
    CWhole(s, RemoveAlias(t));
  }

  lemma SetLockInGroup(id: string, b: bool)
    requires IsStickerId(id)
    ensures AlternativesC(Display(SetLock(id, b))) == Done("", SetLock(id, b))
  {
    var s := Display(SetLock(id, b));
    PrefixOfConcat("lock;", id, ";" + BoolWord(b, "lock", "unlock"));
    DifferAtPrefix("ras;", "lock;", s, 0);
    WordChoiceRoundTrip("lock;", id, IsStickerIdChar, "lock", "unlock", b, 0);
  }

  /** Text that starts with `lock;` matches no alternative of the earlier
      groups. */
  lemma LockPrefixSkipsAB(s: string)
    requires "lock;" <= s
    ensures AlternativesA(s).Fail? && AlternativesB(s).Fail?
  {
    assert s[0] == "lock;"[0];
    SimpleFirstChar(s);
    PrefixFirstChar(s);
    DifferAtPrefix("lsets", "lock;", s, 1);
    DifferAtPrefix("linkself", "lock;", s, 1);
    AlternativesAFails(s);
    AlternativesBFails(s);
  }

  lemma SetLockRoundTrip(id: string, b: bool)
    requires IsStickerId(id)
    ensures Alternatives(Display(SetLock(id, b))) == Done("", SetLock(id, b))
  {
    var s := Display(SetLock(id, b));
    PrefixOfConcat("lock;", id, ";" + BoolWord(b, "lock", "unlock"));
    LockPrefixSkipsAB(s);
    SetLockInGroup(id, b);
    CWhole(s, SetLock(id, b));
  }

  lemma RecommendInGroup(id: string, b: bool)
    requires IsStickerId(id)
    ensures AlternativesC(Display(ToggleRecommendSticker(id, b))) == Done("", ToggleRecommendSticker(id, b))
  {
    var s := Display(ToggleRecommendSticker(id, b));
    PrefixOfConcat("rec;", id, ";" + BoolWord(b, "positive", "negative"));
    DifferAtPrefix("ras;", "rec;", s, 1);
    DifferAtPrefix("lock;", "rec;", s, 0);
    WordChoiceRoundTrip("rec;", id, IsStickerIdChar, "positive", "negative", b, 0);
  }

  /** Text that starts with `rec;` matches no alternative of the earlier
      groups. */
  lemma RecPrefixSkipsAB(s: string)
    requires "rec;" <= s
    ensures AlternativesA(s).Fail? && AlternativesB(s).Fail?
  {
    assert s[0] == "rec;"[0];
    SimpleFirstChar(s);
    PrefixFirstChar(s);
    DifferAtPrefix("removeuser", "rec;", s, 2);
    DifferAtPrefix("removechannel", "rec;", s, 2);
    DifferAtPrefix("removebl;", "rec;", s, 2);
    DifferAtPrefix("removec;", "rec;", s, 2);
    AlternativesAFails(s);
    AlternativesBFails(s);
  }

  lemma RecommendRoundTrip(id: string, b: bool)
    requires IsStickerId(id)
    ensures Alternatives(Display(ToggleRecommendSticker(id, b))) == Done("", ToggleRecommendSticker(id, b))
  {
    var s := Display(ToggleRecommendSticker(id, b));
    PrefixOfConcat("rec;", id, ";" + BoolWord(b, "positive", "negative"));
    RecPrefixSkipsAB(s);
    RecommendInGroup(id, b);
    CWhole(s, ToggleRecommendSticker(id, b));
  }

  lemma StickerSetPageInGroup(id: string)
    requires IsStickerId(id)
    ensures AlternativesC(Display(StickerSetPage(id))) == Done("", StickerSetPage(id))
  {
    var s := Display(StickerSetPage(id));
    assert s == "ssp;" + id;
    DifferAtPrefix("ras;", "ssp;", s, 0);
    DifferAtPrefix("lock;", "ssp;", s, 0);
    DifferAtPrefix("rec;", "ssp;", s, 0);
    IdAfterRoundTrip("ssp;", id);
  }

  lemma StickerSetPageRoundTrip(id: string)
    requires IsStickerId(id)
    ensures Alternatives(Display(StickerSetPage(id))) == Done("", StickerSetPage(id))
  {
    var s := Display(StickerSetPage(id));
    assert s == "ssp;" + id;
    assert s[0] == "ssp;"[0];
    SimpleFirstChar(s);
    PrefixFirstChar(s);
    DifferAtPrefix("start", "ssp;", s, 1);
    DifferAtPrefix("settings", "ssp;", s, 1);
    DifferAtPrefix("s;", "ssp;", s, 1);
    AlternativesAFails(s);
    AlternativesBFails(s);
    StickerSetPageInGroup(id);
    CWhole(s, StickerSetPage(id));
  }

  lemma DownloadStickerInGroup(id: string)
    requires IsStickerId(id)
    ensures AlternativesD(Display(DownloadSticker(id))) == Done("", DownloadSticker(id))
  {
    var s := Display(DownloadSticker(id));
    assert s == "dls;" + id;
    IdAfterRoundTrip("dls;", id);
  }

  lemma DownloadStickerRoundTrip(id: string)
    requires IsStickerId(id)
    ensures Alternatives(Display(DownloadSticker(id))) == Done("", DownloadSticker(id))
  {
    var s := Display(DownloadSticker(id));
    assert s == "dls;" + id;
    assert s[0] == "dls;"[0];
    SimpleFirstChar(s);
    PrefixFirstChar(s);
    AlternativesAFails(s);
    AlternativesBFails(s);
    AlternativesCFails(s);
    DownloadStickerInGroup(id);
    DWhole(s, DownloadSticker(id));
  }

  lemma StickerExplorePageInGroup(id: string)
    requires IsStickerId(id)
    ensures AlternativesD(Display(StickerExplorePage(id))) == Done("", StickerExplorePage(id))
  {
    var s := Display(StickerExplorePage(id));
    assert s == "sep;" + id;
    DifferAtPrefix("dls;", "sep;", s, 0);
    IdAfterRoundTrip("sep;", id);
  }

  lemma StickerExplorePageRoundTrip(id: string)
    requires IsStickerId(id)
    ensures Alternatives(Display(StickerExplorePage(id))) == Done("", StickerExplorePage(id))
  {
    var s := Display(StickerExplorePage(id));
    assert s == "sep;" + id;
    assert s[0] == "sep;"[0];
    SimpleFirstChar(s);
    PrefixFirstChar(s);
    DifferAtPrefix("start", "sep;", s, 1);
    DifferAtPrefix("settings", "sep;", s, 2);
    DifferAtPrefix("s;", "sep;", s, 1);
    DifferAtPrefix("ssp;", "sep;", s, 1);
    AlternativesAFails(s);
    AlternativesBFails(s);
    AlternativesCFails(s);
    StickerExplorePageInGroup(id);
    DWhole(s, StickerExplorePage(id));
  }

  lemma ToggleExampleStickerInGroup(id: string)
    requires IsStickerId(id)
    ensures AlternativesD(Display(ToggleExampleSticker(id))) == Done("", ToggleExampleSticker(id))
  {
    var s := Display(ToggleExampleSticker(id));
    assert s == "tex;" + id;
    DifferAtPrefix("dls;", "tex;", s, 0);
    DifferAtPrefix("sep;", "tex;", s, 0);
    IdAfterRoundTrip("tex;", id);
  }

  lemma ToggleExampleStickerRoundTrip(id: string)
    requires IsStickerId(id)
    ensures Alternatives(Display(ToggleExampleSticker(id))) == Done("", ToggleExampleSticker(id))
  {
    var s := Display(ToggleExampleSticker(id));
    assert s == "tex;" + id;
    assert s[0] == "tex;"[0];
    SimpleFirstChar(s);
    PrefixFirstChar(s);
    AlternativesAFails(s);
    AlternativesBFails(s);
    AlternativesCFails(s);
    ToggleExampleStickerInGroup(id);
    DWhole(s, ToggleExampleSticker(id));
  }

  lemma FavoriteInGroup(id: string, a: FavoriteAction)
    requires IsStickerId(id)
    ensures AlternativesD(Display(FavoriteSticker(id, a))) == Done("", FavoriteSticker(id, a))
  {
    var s := Display(FavoriteSticker(id, a));
    PrefixOfConcat("fav;", id, ";" + BoolWord(a == Favorite, "add", "remove"));
    DifferAtPrefix("dls;", "fav;", s, 0);
    DifferAtPrefix("sep;", "fav;", s, 0);
    DifferAtPrefix("tex;", "fav;", s, 0);
    assert BoolWord(a == Favorite, "add", "remove") == (if a == Favorite then "add" else "remove");
    WordChoiceRoundTrip("fav;", id, IsStickerIdChar, "add", "remove", a == Favorite, 0);
  }

  /** Text that starts with `fav;` matches no alternative of the earlier
      groups. */
  lemma FavPrefixSkipsABC(s: string)
    requires "fav;" <= s
    ensures AlternativesA(s).Fail? && AlternativesB(s).Fail? && AlternativesC(s).Fail?
  {
    assert s[0] == "fav;"[0];
    SimpleFirstChar(s);
    PrefixFirstChar(s);
    DifferAtPrefix("features", "fav;", s, 1);
    AlternativesAFails(s);
    AlternativesBFails(s);
    AlternativesCFails(s);
  }

  lemma FavoriteRoundTrip(id: string, a: FavoriteAction)
    requires IsStickerId(id)
    ensures Alternatives(Display(FavoriteSticker(id, a))) == Done("", FavoriteSticker(id, a))
  {
    var s := Display(FavoriteSticker(id, a));
    PrefixOfConcat("fav;", id, ";" + BoolWord(a == Favorite, "add", "remove"));
    FavPrefixSkipsABC(s);
    FavoriteInGroup(id, a);
    DWhole(s, FavoriteSticker(id, a));
  }

  lemma MergeAltInGroup(a: string, b: string, m: bool)
    requires IsStickerId(a) && IsStickerId(b)
    ensures AlternativesD(Display(Merge(a, b, m))) == Done("", Merge(a, b, m))
  {
    var s := Display(Merge(a, b, m));
    PrefixOfConcat("merge;", a, ";" + b + ";" + BoolWord(m, "true", "false"));
    assert s[0] == "merge;"[0];
    SimpleFirstChar(s);
    PrefixFirstChar(s);
    MergeRoundTrip(a, b, m);
  }

  /** Text that starts with `merge;` matches no alternative of the earlier
      groups. */
  lemma MergePrefixSkipsABC(s: string)
    requires "merge;" <= s
    ensures AlternativesA(s).Fail? && AlternativesB(s).Fail? && AlternativesC(s).Fail?
  {
    assert s[0] == "merge;"[0];
    SimpleFirstChar(s);
    PrefixFirstChar(s);
    AlternativesAFails(s);
    AlternativesBFails(s);
    AlternativesCFails(s);
  }

  lemma MergeAltRoundTrip(a: string, b: string, m: bool)
    requires IsStickerId(a) && IsStickerId(b)
    ensures Alternatives(Display(Merge(a, b, m))) == Done("", Merge(a, b, m))
  {
    var s := Display(Merge(a, b, m));
    PrefixOfConcat("merge;", a, ";" + b + ";" + BoolWord(m, "true", "false"));
    MergePrefixSkipsABC(s);
    MergeAltInGroup(a, b, m);
    DWhole(s, Merge(a, b, m));
  }

  /** `try_from` of the empty string is a parsing error. */
  lemma EmptyRejected()
    ensures Parse("") == None
  {
  }

  /** The examples of the source's tests: a tag and an untag operation on a
      sticker. */
  lemma StickerOperationSamples()
    ensures Parse("s;5uh33fj84;t;male") == Some(Sticker("5uh33fj84", Some(TagOp("male"))))
    ensures Parse("s;5uh33fj84;u;male") == Some(Sticker("5uh33fj84", Some(UntagOp("male"))))
  {
    var t := Sticker("5uh33fj84", Some(TagOp("male")));
    var u := Sticker("5uh33fj84", Some(UntagOp("male")));
    assert Display(t) == "s;5uh33fj84;t;male";
    assert Display(u) == "s;5uh33fj84;u;male";
    RoundTrip(t);
    RoundTrip(u);
  }

  /** `help` and `start` parse to their variants and print back unchanged. */
  lemma KeywordSamples()
    ensures Parse("help") == Some(Help) && Display(Help) == "help"
    ensures Parse("start") == Some(Start) && Display(Start) == "start"
  {
    RoundTrip(Help);
    RoundTrip(Start);
  }

  /** A keyword followed by anything is rejected: `alt` commits to the
      keyword, and the `eof` after it fails instead of trying later
      alternatives. */
  lemma KeywordTrailingRejected()
    ensures Parse("help;") == None
  {
    var s := "help" + ";";
    assert s[0] == "help"[0];
    SimpleFirstChar(s);
    PrefixFirstChar(s);
    assert s[4..] == ";";
  }

  /** Text that starts with `cat;` matches no alternative of the earlier
      groups. */
  lemma CatPrefixSkipsA(s: string)
    requires "cat;" <= s
    ensures AlternativesA(s).Fail?
  {
    assert s[0] == "cat;"[0];
    SimpleFirstChar(s);
    PrefixFirstChar(s);
    DifferAtPrefix("createtag", "cat;", s, 1);
    AlternativesAFails(s);
  }

  /** A category number with no variant (2 is unused) is read as "no
      category", which prints as `cat;none`: parsing is not injective. */
  lemma UnknownCategoryNormalised()
    ensures Parse("cat;2") == Some(SetCategory(None))
    ensures Display(SetCategory(None)) == "cat;none"
  {
    var s := "cat;2";
    assert s == "cat;" + "2";
    CatPrefixSkipsA(s);
    UnknownCategoryInGroup();
    BWhole(s, SetCategory(None));
  }

  lemma UnknownCategoryInGroup()
    ensures AlternativesB("cat;2") == Done("", SetCategory(None))
  {
    var s := "cat;2";
    assert s == "cat;" + "2";
    DifferAtPrefix("chset;", "cat;", s, 1);
    DifferAtPrefix("userinfo;", "cat;", s, 0);
    DifferAtPrefix("order;", "cat;", s, 0);
    assert NatToString(2) == "2";
    NomUnsignedRoundTrip(2, "", U8_MAX);
    assert s[4..] == NatToString(2) + "";
  }
}
