/** `message_handler` of the current tree: sticker-set links in a message
    are found first; otherwise text is read as a command, tried against
    the regular, hidden and admin command sets in that order. URL parsing
    and the command parsers themselves are parameters. */
module MessageHandler {
  import opened Wrappers
  import opened Strings
  import opened CommandUtil

  /** A parsed URL: what `host_str` and `path` return. */
  datatype Url = Url(host: Option<string>, path: string)

  /** A message entity: a bare URL in the text, a text link carrying its
      URL, or anything else. */
  datatype Entity = UrlEntity(text: string) | TextLink(url: Url) | OtherEntity

  /** `Url::parse`, which is not part of this model. */
  type UrlParser = string -> Option<Url>

  const ADD_STICKERS: string := "/addstickers/"
  const TELEGRAM_HOST: string := "t.me"

  /** Rust `trim_start_matches` with a string pattern: every leading
      repetition of `p` removed. */
  function TrimPrefixRepeats(s: string, p: string): (r: string)
    ensures |r| <= |s| && r == s[|s| - |r|..]
    ensures |p| > 0 ==> !StartsWith(r, p)
    decreases |s|
  {
    if |p| > 0 && StartsWith(s, p) then
      var r := TrimPrefixRepeats(s[|p|..], p);
      assert s[|p|..][|s| - |p| - |r|..] == s[|s| - |r|..];
      r
    else s
  }

  /** Removing the prefix once is enough when it is not repeated. */
  lemma TrimPrefixOnce(p: string, x: string)
    requires |p| > 0 && !StartsWith(x, p)
    ensures TrimPrefixRepeats(p + x, p) == x
  {
    assert (p + x)[..|p|] == p;
    assert (p + x)[|p|..] == x;
  }

  function IsSlash(c: char): bool { c == '/' }

  /** `get_sticker_set_name_from_url`: the path after `/addstickers/` on
      host `t.me`, without repeats of that prefix or trailing slashes. */
  function SetNameFromUrl(url: Url): (r: Option<string>)
    ensures r.Some? <==> url.host == Some(TELEGRAM_HOST) && StartsWith(url.path, ADD_STICKERS)
    ensures r.Some? ==> !StartsWith(r.value, ADD_STICKERS)
    ensures r.Some? ==> |r.value| == 0 || r.value[|r.value| - 1] != '/'
  {
    if url.host == Some(TELEGRAM_HOST) && StartsWith(url.path, ADD_STICKERS) then
      var rest := TrimPrefixRepeats(url.path, ADD_STICKERS);
      var name := TrimEndMatches(rest, IsSlash);
      PrefixOfPrefix(name, rest, ADD_STICKERS);
      Some(name)
    else None
  }

  lemma PrefixOfPrefix(s: string, t: string, p: string)
    requires s <= t
    ensures StartsWith(s, p) ==> StartsWith(t, p)
  {
  }

  /** The link Telegram gives a sticker set. */
  function SetLink(name: string): Url {
    Url(Some(TELEGRAM_HOST), ADD_STICKERS + name)
  }

  /** A set's own link, with or without a trailing slash, reads back as
      the set's name, for every name in the set-name alphabet. */
  lemma SetLinkRoundTrip(name: string, slash: bool)
    requires |name| > 0
    requires forall i :: 0 <= i < |name| ==> IsAsciiAlphanumeric(name[i]) || name[i] == '_'
    ensures SetNameFromUrl(Url(Some(TELEGRAM_HOST), ADD_STICKERS + name + (if slash then "/" else ""))) == Some(name)
  {
    var tail := name + (if slash then "/" else "");
    assert ADD_STICKERS + name + (if slash then "/" else "") == ADD_STICKERS + tail;
    assert !StartsWith(tail, ADD_STICKERS) by {
      assert tail[0] == name[0] && name[0] != '/';
      assert ADD_STICKERS[0] == '/';
    }
    TrimPrefixOnce(ADD_STICKERS, tail);
    assert TrimEndMatches(name, IsSlash) == name by {
      assert !IsSlash(name[|name| - 1]);
    }
    if slash {
      TrimEndDrops(name, '/', IsSlash);
    }
  }

  /** Links to other hosts, or to other paths on `t.me`, give nothing. */
  lemma OtherLinksIgnored(host: string, path: string)
    requires host != TELEGRAM_HOST || !StartsWith(path, ADD_STICKERS)
    ensures SetNameFromUrl(Url(Some(host), path)) == None
  {
  }

  /** `get_all_urls_from_entities`: a bare URL is parsed as written or,
      failing that, with `https://` in front; a text link gives its URL. */
  function EntityUrl(e: Entity, parse: UrlParser): Option<Url> {
    match e
    case UrlEntity(text) => if parse(text).Some? then parse(text) else parse("https://" + text)
    case TextLink(url) => Some(url)
    case OtherEntity => None
  }

  function UrlOf(e: Entity, parse: UrlParser): seq<Url> {
    var url := EntityUrl(e, parse);
    if url.Some? then [url.value] else []
  }

  function Urls(entities: seq<Entity>, parse: UrlParser): seq<Url>
    decreases |entities|
  {
    if |entities| == 0 then [] else UrlOf(entities[0], parse) + Urls(entities[1..], parse)
  }

  /** The name a URL contributes: none, or its set's. */
  function NameOf(url: Url): seq<string> {
    var name := SetNameFromUrl(url);
    if name.Some? then [name.value] else []
  }

  /** The set names of the URLs that are set links, in URL order. */
  function SetNames(urls: seq<Url>): seq<string>
    decreases |urls|
  {
    if |urls| == 0 then [] else NameOf(urls[0]) + SetNames(urls[1..])
  }

  /** Names keep the order of the links: the names of two runs of URLs
      are the names of the first run followed by those of the second. */
  lemma {:induction false} SetNamesConcat(a: seq<Url>, b: seq<Url>)
    ensures SetNames(a + b) == SetNames(a) + SetNames(b)
    decreases |a|
  {
    if |a| == 0 {
      assert a + b == b;
    } else {
      SetNamesConcat(a[1..], b);
      TailOfConcat(a, b);
      PrependAssoc(NameOf(a[0]), SetNames(a[1..]), SetNames(b));
    }
  }

  /** Every name comes from a set link among the URLs, and every set link
      gives its name. */
  lemma {:induction false} SetNamesFromLinks(urls: seq<Url>)
    ensures forall n :: n in SetNames(urls) ==> exists u :: u in urls && SetNameFromUrl(u) == Some(n)
    ensures forall u :: u in urls && SetNameFromUrl(u).Some? ==> SetNameFromUrl(u).value in SetNames(urls)
    decreases |urls|
  {
    if |urls| > 0 {
      SetNamesFromLinks(urls[1..]);
      assert forall u :: u in urls ==> u == urls[0] || u in urls[1..];
      assert forall u :: u in urls[1..] ==> u in urls;
    }
  }

  /** What the handler reads of a message. */
  datatype Sticker = Sticker(uniqueId: string, setName: Option<string>)
  datatype Message = Message(
    captionEntities: seq<Entity>,
    entities: seq<Entity>,
    text: Option<string>,
    sticker: Option<Sticker>)

  /** `find_sticker_set_urls`: caption entities first, then text
      entities. */
  function FindStickerSetUrls(msg: Message, parse: UrlParser): seq<string> {
    SetNames(Urls(msg.captionEntities + msg.entities, parse))
  }

  lemma {:induction false} UrlsConcat(a: seq<Entity>, b: seq<Entity>, parse: UrlParser)
    ensures Urls(a + b, parse) == Urls(a, parse) + Urls(b, parse)
    decreases |a|
  {
    if |a| == 0 {
      assert a + b == b;
    } else {
      UrlsConcat(a[1..], b, parse);
      TailOfConcat(a, b);
      PrependAssoc(UrlOf(a[0], parse), Urls(a[1..], parse), Urls(b, parse));
    }
  }

  /** The caption's set links come before the text's. */
  lemma CaptionLinksFirst(msg: Message, parse: UrlParser)
    ensures FindStickerSetUrls(msg, parse)
            == SetNames(Urls(msg.captionEntities, parse)) + SetNames(Urls(msg.entities, parse))
  {
    UrlsConcat(msg.captionEntities, msg.entities, parse);
    SetNamesConcat(Urls(msg.captionEntities, parse), Urls(msg.entities, parse));
  }

  // Command dispatch

  /** teloxide's `ParseError`, as far as the handler tells errors apart. */
  datatype ParseError = UnknownCommand(name: string) | OtherParseError(message: string)

  datatype CommandSet = RegularCommands | HiddenCommands | AdminCommands

  /** A command parser (`BotCommands::parse`), not part of this model. */
  type CommandParser<C> = string -> Result<C, ParseError>

  datatype Dispatch<C> = Run(commands: CommandSet, command: C) | CommandError(error: ParseError)

  predicate IsUnknown<C>(r: Result<C, ParseError>) {
    r.Failure? && r.error.UnknownCommand?
  }

  /** `handle_text_message` after the text is normalised: a regular
      command runs; an unknown one falls through to the hidden commands;
      an admin gets the admin commands when the hidden ones do not know
      it either. Any other outcome is the last parse error. */
  function DispatchParsed<C>(regular: Result<C, ParseError>, hidden: Result<C, ParseError>,
                             admin: Result<C, ParseError>, isAdmin: bool): Dispatch<C>
  {
    if regular.Success? then Run(RegularCommands, regular.value)
    else if !IsUnknown(regular) then CommandError(regular.error)
    else if hidden.Success? then Run(HiddenCommands, hidden.value)
    else if isAdmin && IsUnknown(hidden) then
      if admin.Success? then Run(AdminCommands, admin.value) else CommandError(admin.error)
    else CommandError(hidden.error)
  }

  /** `handle_text_message`: the normalised text goes to the first command
      set that does not call it unknown (the admin commands only for an
      admin), or the last set's error is reported. */
  function HandleTextMessage<C>(text: string, regular: CommandParser<C>, hidden: CommandParser<C>,
                                admin: CommandParser<C>, isAdmin: bool): (r: Dispatch<C>)
    ensures var t := FixUnderlineCommandSeparatorAndNormalize(text);
            r == FirstDecisive(Tried(regular(t), hidden(t), admin(t), isAdmin))
  {
    var t := FixUnderlineCommandSeparatorAndNormalize(text);
    DispatchIsFirstDecisive(regular(t), hidden(t), admin(t), isAdmin);
    DispatchParsed(regular(t), hidden(t), admin(t), isAdmin)
  }

  /** The reference reading: parsers are tried in order; the first that
      succeeds runs; an error other than "unknown command" stops the
      search; when every parser tried reports an unknown command, the last
      one's error is reported. */
  function FirstDecisive<C>(tried: seq<(CommandSet, Result<C, ParseError>)>): Dispatch<C>
    requires |tried| > 0
    decreases |tried|
  {
    var (set_, r) := tried[0];
    if r.Success? then Run(set_, r.value)
    else if !r.error.UnknownCommand? || |tried| == 1 then CommandError(r.error)
    else FirstDecisive(tried[1..])
  }

  /** The parsers an admin or another user gets. */
  function Tried<C>(regular: Result<C, ParseError>, hidden: Result<C, ParseError>,
                    admin: Result<C, ParseError>, isAdmin: bool): seq<(CommandSet, Result<C, ParseError>)>
  {
    [(RegularCommands, regular), (HiddenCommands, hidden)] + (if isAdmin then [(AdminCommands, admin)] else [])
  }

  /** The handler's nested matches are exactly "first decisive parser"
      over regular, hidden and, for admins only, admin commands. */
  lemma DispatchIsFirstDecisive<C>(regular: Result<C, ParseError>, hidden: Result<C, ParseError>,
                                   admin: Result<C, ParseError>, isAdmin: bool)
    ensures DispatchParsed(regular, hidden, admin, isAdmin) == FirstDecisive(Tried(regular, hidden, admin, isAdmin))
  {
    var tried := Tried(regular, hidden, admin, isAdmin);
    assert tried[0] == (RegularCommands, regular);
    assert tried[1..][0] == (HiddenCommands, hidden);
    if isAdmin {
      assert tried[1..][1..] == [(AdminCommands, admin)];
      assert |tried[1..][1..]| == 1 && tried[1..][1..][0] == (AdminCommands, admin);
      assert FirstDecisive(tried[1..][1..]) == if admin.Success? then Run(AdminCommands, admin.value) else CommandError(admin.error);
    } else {
      assert |tried[1..]| == 1;
    }
  }

  /** Admin commands run only for admins, and only when neither the
      regular nor the hidden commands know the command. */
  lemma AdminOnlyAsLastResort<C>(regular: Result<C, ParseError>, hidden: Result<C, ParseError>,
                                 admin: Result<C, ParseError>, isAdmin: bool)
    ensures DispatchParsed(regular, hidden, admin, isAdmin).Run? && DispatchParsed(regular, hidden, admin, isAdmin).commands == AdminCommands
            <==> isAdmin && IsUnknown(regular) && IsUnknown(hidden) && admin.Success?
  {
  }

  /** For a user who is not an admin, the admin parser's outcome makes no
      difference. */
  lemma NonAdminIgnoresAdmin<C>(regular: Result<C, ParseError>, hidden: Result<C, ParseError>,
                                a1: Result<C, ParseError>, a2: Result<C, ParseError>)
    ensures DispatchParsed(regular, hidden, a1, false) == DispatchParsed(regular, hidden, a2, false)
  {
  }

  // Routing a message

  datatype Route =
    | HandleStickerSets(names: seq<string>)
    | HandleText(text: string)
    | HandleSticker(sticker: Sticker)
    | UnhandledMessageType

  /** `message_handler`: set links take priority, then text, then a
      sticker; anything else is an error for the user. */
  function RouteMessage(msg: Message, parse: UrlParser): (r: Route)
    ensures r.HandleStickerSets? <==> |FindStickerSetUrls(msg, parse)| > 0
    ensures r.HandleText? ==> msg.text == Some(r.text)
    ensures r.HandleSticker? ==> msg.text.None? && msg.sticker == Some(r.sticker)
    ensures r.UnhandledMessageType? <==> |FindStickerSetUrls(msg, parse)| == 0 && msg.text.None? && msg.sticker.None?
  {
    var names := FindStickerSetUrls(msg, parse);
    if |names| > 0 then HandleStickerSets(names)
    else if msg.text.Some? then HandleText(msg.text.value)
    else if msg.sticker.Some? then HandleSticker(msg.sticker.value)
    else UnhandledMessageType
  }

  /** A set link in the caption wins over the message's text. */
  lemma SetLinksBeforeText(msg: Message, parse: UrlParser, url: Url)
    requires TextLink(url) in msg.captionEntities
    requires SetNameFromUrl(url).Some?
    ensures RouteMessage(msg, parse).HandleStickerSets?
  {
    var i :| 0 <= i < |msg.captionEntities| && msg.captionEntities[i] == TextLink(url);
    UrlsIncludes(msg.captionEntities, i, parse);
    CaptionLinksFirst(msg, parse);
    SetNamesFromLinks(Urls(msg.captionEntities, parse));
  }

  lemma {:induction false} UrlsIncludes(entities: seq<Entity>, i: nat, parse: UrlParser)
    requires i < |entities|
    requires EntityUrl(entities[i], parse).Some?
    ensures EntityUrl(entities[i], parse).value in Urls(entities, parse)
    decreases |entities|
  {
    if i > 0 {
      UrlsIncludes(entities[1..], i - 1, parse);
    }
  }

  datatype SetsReply = ShowSticker(stickerId: string) | ProcessSets(names: seq<string>)

  /** `handle_sticker_sets`: a single set already in the database shows
      its first sticker; otherwise every set is queued for processing and
      the reply lists them. `firstSticker` is the database's first sticker
      of the only set. */
  function HandleStickerSetsReply(names: seq<string>, firstSticker: Option<string>): (r: SetsReply)
    ensures r.ShowSticker? <==> |names| == 1 && firstSticker.Some?
    ensures r.ShowSticker? ==> r.stickerId == firstSticker.value
    ensures r.ProcessSets? ==> r.names == names
  {
    if |names| == 1 && firstSticker.Some? then ShowSticker(firstSticker.value) else ProcessSets(names)
  }
}
