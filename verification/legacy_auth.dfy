/** The older tree's login check: the hash is a required string, and the
    request guard also looks up (or creates) the user, which fails the
    request when it cannot. */
module LegacyAuth {
  import opened Wrappers
  import opened Ordering
  import opened Decimal
  import opened Auth
  import Hex

  datatype LegacyAuthData = LegacyAuthData(
    id: nat,
    firstName: Option<string>,
    lastName: Option<string>,
    username: Option<string>,
    photoUrl: Option<string>,
    authDate: int,
    hash: string)

  /** The same login as the current tree's data, whose hash is optional. */
  function AsCurrent(d: LegacyAuthData): AuthData {
    AuthData(d.id, d.firstName, d.lastName, d.username, d.photoUrl, d.authDate, Some(d.hash))
  }

  /** The older `data_check_string`: the same six fields, alphabetical,
      absent ones left out. */
  function LegacyCheckLines(d: LegacyAuthData): seq<string> {
    PresentLines([
      ("auth_date", Some(IntToString(d.authDate))),
      ("first_name", d.firstName),
      ("id", Some(NatToString(d.id))),
      ("last_name", d.lastName),
      ("photo_url", d.photoUrl),
      ("username", d.username)])
  }

  function LegacyDataCheckString(d: LegacyAuthData): string {
    Strings.Join(LegacyCheckLines(d), "\n")
  }

  /** Both trees sign the same lines. */
  lemma SameCheckLines(d: LegacyAuthData)
    ensures LegacyCheckLines(d) == CheckLines(AsCurrent(d))
    ensures LegacyDataCheckString(d) == DataCheckString(AsCurrent(d))
  {
  }

  /** The lines are sorted, every field reads back by name, and the hash
      is not signed. */
  lemma LegacyCheckLinesFields(d: LegacyAuthData, h: string)
    ensures StrictlySorted(LegacyCheckLines(d))
    ensures Lookup(LegacyCheckLines(d), "auth_date") == Some(IntToString(d.authDate))
    ensures Lookup(LegacyCheckLines(d), "first_name") == d.firstName
    ensures Lookup(LegacyCheckLines(d), "id") == Some(NatToString(d.id))
    ensures Lookup(LegacyCheckLines(d), "last_name") == d.lastName
    ensures Lookup(LegacyCheckLines(d), "photo_url") == d.photoUrl
    ensures Lookup(LegacyCheckLines(d), "username") == d.username
    ensures Lookup(LegacyCheckLines(d), "hash") == None
    ensures LegacyDataCheckString(d.(hash := h)) == LegacyDataCheckString(d)
  {
    SameCheckLines(d);
    CheckLinesFields(AsCurrent(d));
  }

  /** The older `AuthData::check`: a non-hex hash fails; otherwise the
      signature decides. */
  function LegacyCheck(d: LegacyAuthData, token: string, verify: Verifier): (ok: bool)
    ensures Hex.Decode(d.hash).None? ==> !ok
    ensures ok ==> verify(token, LegacyDataCheckString(d), Hex.Decode(d.hash).value)
  {
    match Hex.Decode(d.hash)
    case None => false
    case Some(bytes) => verify(token, LegacyDataCheckString(d), bytes)
  }

  /** The older check decides as the current one does on the same login. */
  lemma SameCheck(d: LegacyAuthData, token: string, verify: Verifier)
    ensures LegacyCheck(d, token, verify) == Check(AsCurrent(d), token, verify)
  {
    SameCheckLines(d);
  }

  datatype LegacyAuthError = CookieMissing | UnparsableCookie | InvalidAuthData | UserLookupFailed

  /** The older `AuthenticatedUser` guard: a missing cookie and a failed
      check are both unauthorised; a cookie that does not parse and a user
      that cannot be fetched are errors of their own. `getUser` stands for
      `get_or_create_user`. */
  function LegacyAuthenticate<M>(cookie: Option<string>, parse: string -> Option<LegacyAuthData>,
                                 token: string, verify: Verifier, getUser: nat -> Option<M>)
    : (r: Result<(LegacyAuthData, M), LegacyAuthError>)
    ensures cookie.None? ==> r == Failure(CookieMissing)
    ensures r.Success? ==> LegacyCheck(r.value.0, token, verify) && getUser(r.value.0.id) == Some(r.value.1)
    ensures r == Failure(InvalidAuthData) ==> cookie.Some? && parse(cookie.value).Some? && !LegacyCheck(parse(cookie.value).value, token, verify)
  {
    match cookie
    case None => Failure(CookieMissing)
    case Some(c) =>
      match parse(c)
      case None => Failure(UnparsableCookie)
      case Some(d) =>
        if !LegacyCheck(d, token, verify) then Failure(InvalidAuthData)
        else match getUser(d.id)
          case None => Failure(UserLookupFailed)
          case Some(meta) => Success((d, meta))
  }

  /** The user is looked up only after the check passes: a login that
      fails the check is refused whatever the user store would say. */
  lemma CheckBeforeLookup<M>(cookie: Option<string>, parse: string -> Option<LegacyAuthData>,
                             token: string, verify: Verifier, getUser: nat -> Option<M>, other: nat -> Option<M>)
    requires cookie.Some? && parse(cookie.value).Some? && !LegacyCheck(parse(cookie.value).value, token, verify)
    ensures LegacyAuthenticate(cookie, parse, token, verify, getUser) == Failure(InvalidAuthData)
    ensures LegacyAuthenticate(cookie, parse, token, verify, other) == Failure(InvalidAuthData)
  {
  }
}
