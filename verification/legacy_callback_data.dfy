/** `CallbackData` of the older tree: fewer variants, the sticker operation
    is mandatory, and the grammar is not terminated by `eof`; `try_from`
    rejects unconsumed input instead. The order encoding is taken to be the
    `serde_repr` discriminant of the current tree (the older tree's
    `StickerOrder` is not part of this model). */
module LegacyCallbackData {
  import opened Wrappers
  import opened Strings
  import opened Decimal
  import opened Nom
  import opened Literals
  import C = CallbackData

  datatype CallbackData =
    | Help | Start | Settings | Blacklist | Info
    | Sticker(uniqueId: string, operation: C.TagOperation)
    | RemoveBlacklistedTag(tag: string)
    | ChangeSetStatus(setName: string, banned: bool)
    | UserInfo(userId: nat)
    | SetOrder(order: C.StickerOrder)
    | SetLock(stickerId: string, lock: bool)

  function Display(d: CallbackData): string {
    match d
    case Sticker(id, op) => "s;" + id + ";" + C.TagOperationDisplay(op)
    case Help => "help"
    case Settings => "settings"
    case Start => "start"
    case Blacklist => "blacklist"
    case RemoveBlacklistedTag(t) => "removebl;" + t
    case ChangeSetStatus(name, banned) => "chset;" + name + ";" + C.BoolWord(banned, "ban", "unban")
    case Info => "info"
    case UserInfo(u) => "userinfo;" + NatToString(u)
    case SetOrder(o) => "order;" + C.OrderJson(o)
    case SetLock(id, lock) => "lock;" + id + ";" + C.BoolWord(lock, "lock", "unlock")
  }

  /** The five keywords, in the order of the `alt`. */
  function ParseKeyword(s: string): PResult<CallbackData> {
    if "start" <= s then Done(s[5..], Start)
    else if "settings" <= s then Done(s[8..], Settings)
    else if "help" <= s then Done(s[4..], Help)
    else if "blacklist" <= s then Done(s[9..], Blacklist)
    else if "info" <= s then Done(s[4..], Info)
    else Fail(s)
  }

  /** `parse_tag`: `;` and an older-tree tag literal. */
  function ParseTag(s: string): PResult<string> {
    if ";" <= s then LegacyTagLiteral(s[1..]) else Fail(s)
  }

  /** `parse_tag_operation` */
  function ParseTagOperation(s: string): PResult<C.TagOperation> {
    var a := if "t" <= s then ParseTag(s[1..]) else Fail(s);
    if a.Done? then Done(a.rest, C.TagOp(a.value))
    else
      var b := if "u" <= s then ParseTag(s[1..]) else Fail(s);
      if b.Done? then Done(b.rest, C.UntagOp(b.value)) else Fail(s)
  }

  /** `parse_sticker_data`: the operation is required. */
  function ParseStickerData(s: string): (r: PResult<CallbackData>)
    ensures r.Done? ==> "s;" <= s
  {
    if "s;" <= s then
      match StickerIdLiteral(s[2..])
      case Fail(at) => Fail(at)
      case Done(r1, id) =>
        if ";" <= r1 then
          match ParseTagOperation(r1[1..])
          case Done(r2, op) => Done(r2, Sticker(id, op))
          case Fail(at) => Fail(at)
        else Fail(r1)
    else Fail(s)
  }

  /** `parse_remove_blacklist_data` */
  function ParseRemoveBlacklist(s: string): (r: PResult<CallbackData>)
    ensures r.Done? ==> "removebl;" <= s
  {
    if "removebl;" <= s then
      match LegacyTagLiteral(s[9..])
      case Done(rest, t) => Done(rest, RemoveBlacklistedTag(t))
      case Fail(at) => Fail(at)
    else Fail(s)
  }

  /** `parse_user_info_data` */
  function ParseUserInfo(s: string): (r: PResult<CallbackData>)
    ensures r.Done? ==> "userinfo;" <= s
  {
    if "userinfo;" <= s then
      match NomUnsigned(s[9..], U64_MAX)
      case Done(rest, u) => Done(rest, UserInfo(u))
      case Fail(at) => Fail(at)
    else Fail(s)
  }

  /** `parse_order_data`: the JSON reader takes the whole rest. */
  function ParseOrder(s: string): (r: PResult<CallbackData>)
    ensures r.Done? <==> "order;" <= s && C.OrderFromJson(s[6..]).Some?
    ensures r.Done? ==> r == Done("", SetOrder(C.OrderFromJson(s[6..]).value))
  {
    if "order;" <= s then
      match C.OrderFromJson(s[6..])
      case Some(o) => Done("", SetOrder(o))
      case None => Fail(s[6..])
    else Fail(s)
  }

  /** The order button's text with JSON white space around the digit. */
  lemma ParseOrderPadded(w1: string, o: C.StickerOrder, w2: string)
    requires All(w1, IsMultispace) && All(w2, IsMultispace)
    ensures ParseOrder("order;" + (w1 + C.OrderJson(o) + w2)) == Done("", SetOrder(o))
  {
    var s := "order;" + (w1 + C.OrderJson(o) + w2);
    assert s[6..] == w1 + C.OrderJson(o) + w2;
    C.OrderFromJsonPadded(w1, o, w2);
  }

  /** The `alt` of `parse_callback_data`, in two consecutive groups. */
  function Alternatives(s: string): PResult<CallbackData> {
    var a := AlternativesA(s);
    if a.Done? then a else AlternativesB(s)
  }

  function AlternativesA(s: string): PResult<CallbackData> {
    var r0 := ParseKeyword(s);
    if r0.Done? then r0 else
    var r1 := ParseRemoveBlacklist(s);
    if r1.Done? then r1 else
    ParseStickerData(s)
  }

  function AlternativesB(s: string): PResult<CallbackData> {
    var r3 := C.WordChoiceAfter("chset;", s, IsLegacyTagChar, "ban", "unban");
    if r3.Done? then Done(r3.rest, ChangeSetStatus(r3.value.0, r3.value.1)) else
    var r4 := ParseUserInfo(s);
    if r4.Done? then r4 else
    var r5 := ParseOrder(s);
    if r5.Done? then r5 else
    var r6 := C.WordChoiceAfter("lock;", s, IsStickerIdChar, "lock", "unlock");
    if r6.Done? then Done(r6.rest, SetLock(r6.value.0, r6.value.1)) else Fail(s)
  }

  /** `CallbackData::try_from`: an error when parsing fails or leaves input
      unconsumed. */
  function TryFrom(s: string): (r: Option<CallbackData>)
    ensures r.Some? <==> Alternatives(s).Done? && Alternatives(s).rest == ""
    ensures r.Some? ==> r.value == Alternatives(s).value
  {
    match Alternatives(s)
    case Done(rest, d) => if rest == "" then Some(d) else None
    case Fail(_) => None
  }

  /** String fields satisfy the grammars that read them back. */
  predicate WellFormed(d: CallbackData) {
    match d
    case Sticker(id, op) => IsStickerId(id) && IsLegacyTag(op.tag)
    case RemoveBlacklistedTag(t) => IsLegacyTag(t)
    case ChangeSetStatus(name, _) => IsLegacyTag(name)
    case UserInfo(u) => u <= U64_MAX
    case SetLock(id, _) => IsStickerId(id)
    case _ => true
  }

  /** `;` separates an older-tree tag from what follows it. */
  lemma SemicolonEndsLegacyTag()
    ensures !IsLegacyTagChar(';')
  {
    assert forall i :: 0 <= i < |"_-()/<"| ==> "_-()/<"[i] != ';';
  }

  lemma TagOperationRoundTrip(op: C.TagOperation, rest: string)
    requires IsLegacyTag(op.tag)
    requires |rest| == 0 || !IsLegacyTagChar(rest[0])
    ensures ParseTagOperation(C.TagOperationDisplay(op) + rest) == Done(rest, op)
  {
    var s := C.TagOperationDisplay(op) + rest;
    assert s[1..] == ";" + (op.tag + rest);
    TagAfterSemicolon(op.tag, rest);
    if op.TagOp? {
      assert "t" <= s;
    } else {
      assert s[0] == 'u' && "u" <= s;
    }
  }

  /** `;` and a tag, up to a character that cannot continue it. */
  lemma TagAfterSemicolon(t: string, rest: string)
    requires IsLegacyTag(t)
    requires |rest| == 0 || !IsLegacyTagChar(rest[0])
    ensures ParseTag(";" + (t + rest)) == Done(rest, t)
  {
    assert (";" + (t + rest))[1..] == t + rest;
    LiteralExact(t, rest, IsLegacyTagChar);
  }

  /** The whole `s;{id};{op}` form is read back. */
  lemma StickerDataRoundTrip(id: string, op: C.TagOperation)
    requires IsStickerId(id) && IsLegacyTag(op.tag)
    ensures ParseStickerData(Display(Sticker(id, op))) == Done("", Sticker(id, op))
  {
    var tail := C.TagOperationDisplay(op);
    assert Display(Sticker(id, op)) == "s;" + id + ";" + tail;
    C.StickerHead(id, tail);
    TagOperationRoundTrip(op, "");
    assert tail + "" == tail;
  }

  lemma RemoveBlacklistRoundTrip(t: string)
    requires IsLegacyTag(t)
    ensures ParseRemoveBlacklist("removebl;" + t) == Done("", RemoveBlacklistedTag(t))
  {
    assert ("removebl;" + t)[9..] == t + "";
    LiteralExact(t, "", IsLegacyTagChar);
  }

  lemma UserInfoRoundTrip(u: nat)
    requires u <= U64_MAX
    ensures ParseUserInfo("userinfo;" + NatToString(u)) == Done("", UserInfo(u))
  {
    var s := "userinfo;" + NatToString(u);
    assert s[9..] == NatToString(u) + "";
    NomUnsignedRoundTrip(u, "", U64_MAX);
  }

  /** Round trip: `try_from(d.to_string()) == d` whenever the string fields
      satisfy their literal grammars. */
  lemma RoundTrip(d: CallbackData)
    requires WellFormed(d)
    ensures TryFrom(Display(d)) == Some(d)
  {
    match d {
      case Sticker(id, op) => StickerRoundTrip(id, op);
      case RemoveBlacklistedTag(t) => RemoveBlacklistedRoundTrip(t);
      case ChangeSetStatus(n, b) => ChangeSetStatusRoundTrip(n, b);
      case UserInfo(u) => UserInfoAltRoundTrip(u);
      case SetOrder(o) => SetOrderRoundTrip(o);
      case SetLock(id, b) => SetLockRoundTrip(id, b);
      case Start => StartRoundTrip();
      case Settings => SettingsRoundTrip();
      case Help => HelpRoundTrip();
      case Blacklist => BlacklistRoundTrip();
      case Info => InfoRoundTrip();
    }
  }

  lemma AlternativesAFails(s: string)
    requires !("start" <= s)
    requires !("settings" <= s)
    requires !("help" <= s)
    requires !("blacklist" <= s)
    requires !("info" <= s)
    requires !("removebl;" <= s)
    requires !("s;" <= s)
    ensures AlternativesA(s).Fail?
  {
  }

  lemma StartRoundTrip()
    ensures Alternatives(Display(Start)) == Done("", Start)
  {
    assert "start"[5..] == "";
  }

  lemma SettingsRoundTrip()
    ensures Alternatives(Display(Settings)) == Done("", Settings)
  {
    DifferAt("start", "settings", "", 1);
    assert "settings"[8..] == "";
  }

  lemma HelpRoundTrip()
    ensures Alternatives(Display(Help)) == Done("", Help)
  {
    DifferAt("start", "help", "", 0);
    DifferAt("settings", "help", "", 0);
    assert "help"[4..] == "";
  }

  lemma BlacklistRoundTrip()
    ensures Alternatives(Display(Blacklist)) == Done("", Blacklist)
  {
    DifferAt("start", "blacklist", "", 0);
    DifferAt("settings", "blacklist", "", 0);
    DifferAt("help", "blacklist", "", 0);
    assert "blacklist"[9..] == "";
  }

  lemma InfoRoundTrip()
    ensures Alternatives(Display(Info)) == Done("", Info)
  {
    DifferAt("start", "info", "", 0);
    DifferAt("settings", "info", "", 0);
    DifferAt("help", "info", "", 0);
    DifferAt("blacklist", "info", "", 0);
    assert "info"[4..] == "";
  }

  lemma RemoveBlacklistedInGroup(t: string)
    requires IsLegacyTag(t)
    ensures AlternativesA(Display(RemoveBlacklistedTag(t))) == Done("", RemoveBlacklistedTag(t))
  {
    var s := Display(RemoveBlacklistedTag(t));
    assert s == "removebl;" + t;
    DifferAtPrefix("start", "removebl;", s, 0);
    DifferAtPrefix("settings", "removebl;", s, 0);
    DifferAtPrefix("help", "removebl;", s, 0);
    DifferAtPrefix("blacklist", "removebl;", s, 0);
    DifferAtPrefix("info", "removebl;", s, 0);
    RemoveBlacklistRoundTrip(t);
  }

  lemma RemoveBlacklistedRoundTrip(t: string)
    requires IsLegacyTag(t)
    ensures Alternatives(Display(RemoveBlacklistedTag(t))) == Done("", RemoveBlacklistedTag(t))
  {
    var s := Display(RemoveBlacklistedTag(t));
    assert s == "removebl;" + t;
    RemoveBlacklistedInGroup(t);
  }

  lemma StickerInGroup(id: string, op: C.TagOperation)
    requires IsStickerId(id) && IsLegacyTag(op.tag)
    ensures AlternativesA(Display(Sticker(id, op))) == Done("", Sticker(id, op))
  {
    var s := Display(Sticker(id, op));
    PrefixOfConcat("s;", id, ";" + C.TagOperationDisplay(op));
    DifferAtPrefix("start", "s;", s, 1);
    DifferAtPrefix("settings", "s;", s, 1);
    DifferAtPrefix("help", "s;", s, 0);
    DifferAtPrefix("blacklist", "s;", s, 0);
    DifferAtPrefix("info", "s;", s, 0);
    DifferAtPrefix("removebl;", "s;", s, 0);
    StickerDataRoundTrip(id, op);
  }

  lemma StickerRoundTrip(id: string, op: C.TagOperation)
    requires IsStickerId(id) && IsLegacyTag(op.tag)
    ensures Alternatives(Display(Sticker(id, op))) == Done("", Sticker(id, op))
  {
    var s := Display(Sticker(id, op));
    PrefixOfConcat("s;", id, ";" + C.TagOperationDisplay(op));
    StickerInGroup(id, op);
  }

  lemma ChangeSetStatusInGroup(n: string, b: bool)
    requires IsLegacyTag(n)
    ensures AlternativesB(Display(ChangeSetStatus(n, b))) == Done("", ChangeSetStatus(n, b))
  {
    var s := Display(ChangeSetStatus(n, b));
    PrefixOfConcat("chset;", n, ";" + C.BoolWord(b, "ban", "unban"));
    SemicolonEndsLegacyTag();
    C.WordChoiceRoundTrip("chset;", n, IsLegacyTagChar, "ban", "unban", b, 0);
    assert C.WordChoiceAfter("chset;", s, IsLegacyTagChar, "ban", "unban") == Done("", (n, b));
  }

  lemma ChangeSetStatusRoundTrip(n: string, b: bool)
    requires IsLegacyTag(n)
    ensures Alternatives(Display(ChangeSetStatus(n, b))) == Done("", ChangeSetStatus(n, b))
  {
    var s := Display(ChangeSetStatus(n, b));
    PrefixOfConcat("chset;", n, ";" + C.BoolWord(b, "ban", "unban"));
    DifferAtPrefix("start", "chset;", s, 0);
    DifferAtPrefix("settings", "chset;", s, 0);
    DifferAtPrefix("help", "chset;", s, 0);
    DifferAtPrefix("blacklist", "chset;", s, 0);
    DifferAtPrefix("info", "chset;", s, 0);
    DifferAtPrefix("removebl;", "chset;", s, 0);
    DifferAtPrefix("s;", "chset;", s, 0);
    AlternativesAFails(s);
    ChangeSetStatusInGroup(n, b);
  }

  lemma UserInfoAltInGroup(u: nat)
    requires u <= U64_MAX
    ensures AlternativesB(Display(UserInfo(u))) == Done("", UserInfo(u))
  {
    var s := Display(UserInfo(u));
    assert s == "userinfo;" + NatToString(u);
    DifferAtPrefix("chset;", "userinfo;", s, 0);
    UserInfoRoundTrip(u);
  }

  lemma UserInfoAltRoundTrip(u: nat)
    requires u <= U64_MAX
    ensures Alternatives(Display(UserInfo(u))) == Done("", UserInfo(u))
  {
    var s := Display(UserInfo(u));
    assert s == "userinfo;" + NatToString(u);
    DifferAtPrefix("start", "userinfo;", s, 0);
    DifferAtPrefix("settings", "userinfo;", s, 0);
    DifferAtPrefix("help", "userinfo;", s, 0);
    DifferAtPrefix("blacklist", "userinfo;", s, 0);
    DifferAtPrefix("info", "userinfo;", s, 0);
    DifferAtPrefix("removebl;", "userinfo;", s, 0);
    DifferAtPrefix("s;", "userinfo;", s, 0);
    AlternativesAFails(s);
    UserInfoAltInGroup(u);
  }

  lemma SetOrderInGroup(o: C.StickerOrder)
    ensures AlternativesB(Display(SetOrder(o))) == Done("", SetOrder(o))
  {
    OrderDisplayed(o);
    OrderInGroupB(Display(SetOrder(o)), o);
  }

  /** Text the order parser accepts is passed over by the two earlier
      alternatives of its group. */
  lemma OrderInGroupB(s: string, o: C.StickerOrder)
    requires ParseOrder(s) == Done("", SetOrder(o))
    ensures AlternativesB(s) == Done("", SetOrder(o))
  {
    DifferAtPrefix("chset;", "order;", s, 0);
    DifferAtPrefix("userinfo;", "order;", s, 0);
  }

  lemma OrderDisplayed(o: C.StickerOrder)
    ensures ParseOrder(Display(SetOrder(o))) == Done("", SetOrder(o))
  {
    var s := Display(SetOrder(o));
    assert "order;" <= s && s[6..] == C.OrderJson(o);
    C.OrderJsonReads(o);
  }

  lemma SetOrderRoundTrip(o: C.StickerOrder)
    ensures Alternatives(Display(SetOrder(o))) == Done("", SetOrder(o))
  {
    var s := Display(SetOrder(o));
    assert s == "order;" + C.OrderJson(o);
    DifferAtPrefix("start", "order;", s, 0);
    DifferAtPrefix("settings", "order;", s, 0);
    DifferAtPrefix("help", "order;", s, 0);
    DifferAtPrefix("blacklist", "order;", s, 0);
    DifferAtPrefix("info", "order;", s, 0);
    DifferAtPrefix("removebl;", "order;", s, 0);
    DifferAtPrefix("s;", "order;", s, 0);
    AlternativesAFails(s);
    SetOrderInGroup(o);
  }

  lemma SetLockInGroup(id: string, b: bool)
    requires IsStickerId(id)
    ensures AlternativesB(Display(SetLock(id, b))) == Done("", SetLock(id, b))
  {
    var s := Display(SetLock(id, b));
    PrefixOfConcat("lock;", id, ";" + C.BoolWord(b, "lock", "unlock"));
    DifferAtPrefix("chset;", "lock;", s, 0);
    DifferAtPrefix("userinfo;", "lock;", s, 0);
    DifferAtPrefix("order;", "lock;", s, 0);
    C.WordChoiceRoundTrip("lock;", id, IsStickerIdChar, "lock", "unlock", b, 0);
    assert C.WordChoiceAfter("lock;", s, IsStickerIdChar, "lock", "unlock") == Done("", (id, b));
  }

  lemma SetLockRoundTrip(id: string, b: bool)
    requires IsStickerId(id)
    ensures Alternatives(Display(SetLock(id, b))) == Done("", SetLock(id, b))
  {
    var s := Display(SetLock(id, b));
    PrefixOfConcat("lock;", id, ";" + C.BoolWord(b, "lock", "unlock"));
    DifferAtPrefix("start", "lock;", s, 0);
    DifferAtPrefix("settings", "lock;", s, 0);
    DifferAtPrefix("help", "lock;", s, 0);
    DifferAtPrefix("blacklist", "lock;", s, 0);
    DifferAtPrefix("info", "lock;", s, 0);
    DifferAtPrefix("removebl;", "lock;", s, 0);
    DifferAtPrefix("s;", "lock;", s, 0);
    AlternativesAFails(s);
    SetLockInGroup(id, b);
  }

  /** `try_from` of the empty string is a parsing error. */
  lemma EmptyRejected()
    ensures TryFrom("") == None
  {
  }

  /** The examples of the source's tests. */
  lemma StickerOperationSamples()
    ensures TryFrom("s;5uh33fj84;t;male") == Some(Sticker("5uh33fj84", C.TagOp("male")))
    ensures TryFrom("s;5uh33fj84;u;male") == Some(Sticker("5uh33fj84", C.UntagOp("male")))
  {
    var t := Sticker("5uh33fj84", C.TagOp("male"));
    var u := Sticker("5uh33fj84", C.UntagOp("male"));
    assert Display(t) == "s;5uh33fj84;t;male";
    assert Display(u) == "s;5uh33fj84;u;male";
    RoundTrip(t);
    RoundTrip(u);
  }

  lemma KeywordSamples()
    ensures TryFrom("help") == Some(Help) && Display(Help) == "help"
    ensures TryFrom("start") == Some(Start) && Display(Start) == "start"
  {
    RoundTrip(Help);
    RoundTrip(Start);
  }

  /** A keyword that is followed by more text is parsed, then refused by the
      consumption check. */
  lemma UnconsumedRejected()
    ensures Alternatives("info;") == Done(";", Info)
    ensures TryFrom("info;") == None
  {
    var s := "info" + ";";
    DifferAtPrefix("start", "info", s, 0);
    DifferAtPrefix("settings", "info", s, 0);
    DifferAtPrefix("help", "info", s, 0);
    DifferAtPrefix("blacklist", "info", s, 0);
    assert s[4..] == ";";
  }

  /** A tag that only the current grammar accepts is printed but cut short on
      reading, so the older tree does not read back what it prints. */
  lemma CurrentTagCharRejected()
    ensures TryFrom(Display(RemoveBlacklistedTag("a:b"))) == None
  {
    var s := Display(RemoveBlacklistedTag("a:b"));
    assert s == "removebl;" + "a" + ":b";
    DifferAtPrefix("start", "removebl;", s, 0);
    DifferAtPrefix("settings", "removebl;", s, 0);
    DifferAtPrefix("help", "removebl;", s, 0);
    DifferAtPrefix("blacklist", "removebl;", s, 0);
    DifferAtPrefix("info", "removebl;", s, 0);
    assert s[9..] == "a" + ":b";
    assert !IsLegacyTagChar(':');
    LiteralExact("a", ":b", IsLegacyTagChar);
  }
}
