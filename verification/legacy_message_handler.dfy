/** `message_handler` of the older tree. Set links are found by the same
    functions as in the current tree; commands are tried in the same
    order, written as nested matches; a message of no known kind gets a
    reply instead of an error, and a sticker outside any set is answered
    according to the continuous tagging mode. */
module LegacyMessageHandler {
  import opened Wrappers
  import opened MessageHandler
  import LegacyCommandUtil

  /** `handle_text_message` of the older tree, after the separator rewrite
      (which does not trim here). */
  function LegacyHandleText<C>(text: string, regular: CommandParser<C>, hidden: CommandParser<C>,
                               admin: CommandParser<C>, isAdmin: bool): Dispatch<C>
  {
    var t := LegacyCommandUtil.FixUnderlineCommandSeparator(text);
    LegacyDispatchParsed(regular(t), hidden(t), admin(t), isAdmin)
  }

  /** The nested matches as the older tree writes them. */
  function LegacyDispatchParsed<C>(regular: Result<C, ParseError>, hidden: Result<C, ParseError>,
                                   admin: Result<C, ParseError>, isAdmin: bool): Dispatch<C>
  {
    match regular
    case Success(command) => Run(RegularCommands, command)
    case Failure(err) =>
      if err.UnknownCommand? then
        match hidden
        case Success(command) => Run(HiddenCommands, command)
        case Failure(err2) =>
          if err2.UnknownCommand? && isAdmin then
            match admin
            case Success(command) => Run(AdminCommands, command)
            case Failure(err3) => CommandError(err3)
          else CommandError(err2)
      else CommandError(err)
  }

  /** Both trees pick the same command, or report the same error. */
  lemma SameDispatch<C>(regular: Result<C, ParseError>, hidden: Result<C, ParseError>,
                        admin: Result<C, ParseError>, isAdmin: bool)
    ensures LegacyDispatchParsed(regular, hidden, admin, isAdmin) == DispatchParsed(regular, hidden, admin, isAdmin)
    ensures LegacyDispatchParsed(regular, hidden, admin, isAdmin) == FirstDecisive(Tried(regular, hidden, admin, isAdmin))
  {
    DispatchIsFirstDecisive(regular, hidden, admin, isAdmin);
  }

  /** What becomes of a sticker message: tagging when it belongs to a set;
      otherwise a note, which in continuous tagging mode also asks for
      another sticker. */
  datatype StickerReply<T> = TagSticker(setName: string, tagMode: Option<T>) | NotInSetContinuous(op: T) | NotInSet

  function LegacyStickerReply<T>(sticker: Sticker, continuousTag: Option<T>): (r: StickerReply<T>)
    ensures r.TagSticker? <==> sticker.setName.Some?
    ensures r.TagSticker? ==> r.setName == sticker.setName.value && r.tagMode == continuousTag
    ensures r.NotInSetContinuous? <==> sticker.setName.None? && continuousTag.Some?
  {
    if sticker.setName.Some? then TagSticker(sticker.setName.value, continuousTag)
    else if continuousTag.Some? then NotInSetContinuous(continuousTag.value)
    else NotInSet
  }

  datatype LegacyRoute<T> =
    | ProcessStickerSets(names: seq<string>)
    | LegacyText(text: string)
    | LegacySticker(reply: StickerReply<T>)
    | NoIdea

  /** The older `message_handler`: every linked set is processed; then
      text, then a sticker; anything else gets the "no idea" reply. It
      routes as the current tree does, except that it answers a message of
      no known kind where the current one reports an error.
      `continuousTag` is what the replied-to message says about the
      continuous tagging mode, which is not part of this model. */
  function LegacyRouteMessage<T>(msg: Message, parse: UrlParser, continuousTag: Option<T>): (r: LegacyRoute<T>)
    ensures var new_ := RouteMessage(msg, parse);
            && (r.ProcessStickerSets? <==> new_.HandleStickerSets?)
            && (r.ProcessStickerSets? ==> r.names == new_.names)
            && (r.LegacyText? <==> new_.HandleText?)
            && (r.LegacyText? ==> r.text == new_.text)
            && (r.LegacySticker? <==> new_.HandleSticker?)
            && (r.NoIdea? <==> new_.UnhandledMessageType?)
  {
    var names := FindStickerSetUrls(msg, parse);
    if |names| > 0 then ProcessStickerSets(names)
    else if msg.text.Some? then LegacyText(msg.text.value)
    else if msg.sticker.Some? then LegacySticker(LegacyStickerReply(msg.sticker.value, continuousTag))
    else NoIdea
  }

  /** A set link always wins: even a single known set is processed anew,
      where the current tree would show its first sticker. */
  lemma SetsAlwaysProcessed<T>(msg: Message, parse: UrlParser, continuousTag: Option<T>)
    requires |FindStickerSetUrls(msg, parse)| > 0
    ensures LegacyRouteMessage(msg, parse, continuousTag) == ProcessStickerSets(FindStickerSetUrls(msg, parse))
  {
  }
}
