/** The bot's error kinds and the text and severity the user is shown for
    each (`end_user_error`). Library errors are reduced to what the mapping
    and the timeout classifier look at. */
module BotErrors {
  import opened Strings
  import opened Decimal

  datatype Severity = Error | Info

  /** A network failure of the HTTP client, as far as `is_timeout` sees it. */
  datatype NetworkFailure = NetworkFailure(timeout: bool)

  /** `teloxide::RequestError` / `DownloadError`: only the network case is
      told apart. */
  datatype RequestError = Network(failure: NetworkFailure) | OtherRequestError

  datatype InternalError =
    | Teloxide(request: RequestError)
    | Download(download: RequestError)
    | Reqwest(reqwestTimeout: bool)
    | Database(databaseMessage: string)
    | VectorDatabase(vectorMessage: string)
    | Grpc
    | GrpcTransport
    | Image
    | UnexpectedNone(typeName: string)
    | Other(message: string)

  /** teloxide's command `ParseError`; a custom parser's failure carries the
      bot's own `UserError::ParseError` fields. */
  datatype CommandParseError =
    | TooFewArguments
    | TooManyArguments
    | IncorrectFormat
    | UnknownCommand(input: string)
    | WrongBotName(botName: string)
    | Custom(position: nat, rest: string)

  datatype UserError =
    | NoPermissionForAction(action: string)
    | InvalidMode
    | UnsupportedStickerType
    | StickerNotPartOfSet
    | UnhandledMessageType
    | CommandError(parse: CommandParseError)
    | ParseError(position: nat, rest: string)
    | TagsNotFound(tags: seq<string>)
    | ListHasZeroResults(name: string)
    | ChannelWithoutUsername
    | UserWithoutUsername
    | InvalidStartParameter
    | ValidationError(description: string)
    | VectorNotFound
    | AlreadyExists(what: string)

  datatype BotError = Internal(internal: InternalError) | User(user: UserError)

  /** `InternalError::is_timeout_error`: a timeout of the HTTP client, seen
      directly or through teloxide's request or download error. */
  predicate IsTimeoutError(e: InternalError) {
    match e
    case Reqwest(timeout) => timeout
    case Teloxide(Network(n)) => n.timeout
    case Download(Network(n)) => n.timeout
    case _ => false
  }

  /** Only the three client-error variants can be timeouts. */
  lemma TimeoutKinds(e: InternalError)
    ensures IsTimeoutError(e) ==> e.Reqwest? || e.Teloxide? || e.Download?
    ensures e.Teloxide? && e.request.OtherRequestError? ==> !IsTimeoutError(e)
    ensures e.Download? && e.download.OtherRequestError? ==> !IsTimeoutError(e)
  {
  }

  const GenericMessage := "Aw, something's wrong. "

  /** `InternalError::end_user_error`: one message for every internal error. */
  function InternalEndUserError(e: InternalError): (r: (string, Severity))
    ensures r == (GenericMessage, Error)
  {
    (GenericMessage, Error)
  }

  /** `rest.chars().take(10)`. */
  function Excerpt(rest: string): (r: string)
    ensures r <= rest
    ensures |r| == if |rest| < 10 then |rest| else 10
  {
    if |rest| <= 10 then rest else rest[..10]
  }

  /** The message half of `UserError::end_user_error`. */
  function UserMessage(e: UserError): string {
    match e
    case NoPermissionForAction(action) => "Oh no, I can't let you do this (" + action + ") yet."
    case InvalidMode => "Can't do that here!"
    case UnsupportedStickerType => "Those don't look like regular stickers."
    case StickerNotPartOfSet => "Stickers must be part of a set!"
    case UnhandledMessageType =>
      "I have no idea what to do with this. Send me text messages containing commands, stickers, or t.me/addsticker links!"
    case CommandError(UnknownCommand(input)) => "What the heck is a \"" + input + "\"?"
    case CommandError(_) => "Invalid arguments!"
    case ParseError(position, rest) => "Invalid input at position " + NatToString(position) + ": " + Excerpt(rest)
    case TagsNotFound(tags) => "Could not find tags: " + Join(tags, ", ")
    case ListHasZeroResults(name) => "No " + name + " here :("
    case ChannelWithoutUsername => "The channel needs to have a public name."
    case UserWithoutUsername =>
      "This user doesn't have a username or their privacy settings don't allow me to see it."
    case InvalidStartParameter => "No idea where to start."
    case ValidationError(description) => "Invalid data: " + description
    case VectorNotFound => "Come back later, looks like I'm not done processing this one"
    case AlreadyExists(what) => "This " + what + " already exists"
  }

  /** The severity half of `UserError::end_user_error`, arm by arm. */
  function UserSeverity(e: UserError): Severity {
    match e
    case NoPermissionForAction(_) => Error
    case InvalidMode => Info
    case UnsupportedStickerType => Error
    case StickerNotPartOfSet => Error
    case UnhandledMessageType => Error
    case CommandError(_) => Error
    case ParseError(_, _) => Error
    case TagsNotFound(_) => Error
    case ListHasZeroResults(_) => Info
    case ChannelWithoutUsername => Error
    case UserWithoutUsername => Error
    case InvalidStartParameter => Error
    case ValidationError(_) => Error
    case VectorNotFound => Error
    case AlreadyExists(_) => Error
  }

  /** `UserError::end_user_error`: only a wrong mode and an empty list are
      informational; every other user error is shown as an error. */
  function UserEndUserError(e: UserError): (r: (string, Severity))
    ensures r.0 == UserMessage(e)
    ensures r.1 == Info <==> e.InvalidMode? || e.ListHasZeroResults?
  {
    (UserMessage(e), UserSeverity(e))
  }

  /** `BotError::end_user_error`: the inner error decides. */
  function EndUserError(e: BotError): (r: (string, Severity))
    ensures e.Internal? ==> r == (GenericMessage, Error)
    ensures e.User? ==> r == UserEndUserError(e.user)
  {
    match e
    case Internal(i) => InternalEndUserError(i)
    case User(u) => UserEndUserError(u)
  }

  /** A parse error shows its position and the first (at most ten)
      characters of the unparsed rest, and nothing after them. */
  lemma ParseErrorShowsExcerpt(position: nat, rest: string)
    ensures var m := UserEndUserError(ParseError(position, rest)).0;
            var head := "Invalid input at position " + NatToString(position) + ": ";
            head <= m && m[|head|..] <= rest && |m| - |head| == (if |rest| < 10 then |rest| else 10)
  {
    var head := "Invalid input at position " + NatToString(position) + ": ";
    var m := head + Excerpt(rest);
    assert m[|head|..] == Excerpt(rest);
  }

  /** The unknown command's text is quoted verbatim. */
  lemma UnknownCommandQuoted(input: string)
    ensures Contains(UserEndUserError(CommandError(UnknownCommand(input))).0, input)
  {
    var m := "What the heck is a \"" + input + "\"?";
    var k := |"What the heck is a \""|;
    assert m[k..k + |input|] == input;
    ContainsWitness(m, input, k);
  }

  /** Every tag that could not be found is named in the message. */
  lemma TagsNotFoundNamesEach(tags: seq<string>, i: nat)
    requires i < |tags|
    ensures Contains(UserEndUserError(TagsNotFound(tags)).0, tags[i])
  {
    JoinContains(tags, ", ", i);
    ContainsGrow("Could not find tags: ", Join(tags, ", "), tags[i]);
  }

  lemma {:induction false} JoinContains(parts: seq<string>, sep: string, i: nat)
    requires i < |parts|
    ensures Contains(Join(parts, sep), parts[i])
    decreases |parts|
  {
    if |parts| == 1 || i == 0 {
      var j := Join(parts, sep);
      if |parts| > 1 {
        assert j == parts[0] + (sep + Join(parts[1..], sep));
      }
      assert j[..|parts[0]|] == parts[0];
      ContainsWitness(j, parts[0], 0);
    } else {
      JoinContains(parts[1..], sep, i - 1);
      assert parts[1..][i - 1] == parts[i];
      ContainsGrow(parts[0] + sep, Join(parts[1..], sep), parts[i]);
      assert Join(parts, sep) == (parts[0] + sep) + Join(parts[1..], sep);
    }
  }
}
