/** Telegram login data as the web server checks it: the data-check string
    the signature covers, the check itself, the web-app variant whose
    fields arrive as a map, and the request guards built on the check.
    SHA-256 and HMAC are parameters: `Verifier` and `Signer` stand for
    `hmac::verify` and `hmac::sign` under the key derived from the bot
    token. */
module Auth {
  import opened Wrappers
  import opened Strings
  import opened Ordering
  import opened Decimal
  import Hex

  /** The cookie's login data; `authDate` is the Unix timestamp in seconds. */
  datatype AuthData = AuthData(
    id: nat,
    firstName: Option<string>,
    lastName: Option<string>,
    username: Option<string>,
    photoUrl: Option<string>,
    authDate: int,
    hash: Option<string>)

  /** The `user` object of web-app init data. */
  datatype WebAppUser = WebAppUser(id: nat, firstName: Option<string>, lastName: Option<string>, username: Option<string>)

  /** A named field, absent when its value is `None`. */
  type Field = (string, Option<string>)

  function Line(name: string, value: string): string {
    name + "=" + value
  }

  /** The `name=value` lines of the fields that are present, in order. */
  function PresentLines(fields: seq<Field>): seq<string>
    decreases |fields|
  {
    if |fields| == 0 then []
    else
      var head := if fields[0].1.Some? then [Line(fields[0].0, fields[0].1.value)] else [];
      head + PresentLines(fields[1..])
  }

  /** The value of the first line that starts with `name=`: how a reader
      of the data-check string finds a field. */
  function Lookup(lines: seq<string>, name: string): Option<string>
    decreases |lines|
  {
    if |lines| == 0 then None
    else if StartsWith(lines[0], name + "=") then Some(lines[0][|name| + 1..])
    else Lookup(lines[1..], name)
  }

  /** Field names are non-empty and their first letters strictly ascend. */
  predicate DistinctInitials(fields: seq<Field>) {
    && (forall i :: 0 <= i < |fields| ==> |fields[i].0| > 0)
    && (forall i, j :: 0 <= i < j < |fields| ==> fields[i].0[0] < fields[j].0[0])
  }

  lemma DistinctInitialsTail(fields: seq<Field>)
    requires |fields| > 0 && DistinctInitials(fields)
    ensures DistinctInitials(fields[1..])
  {
    var rest := fields[1..];
    forall i, j | 0 <= i < j < |rest| ensures rest[i].0[0] < rest[j].0[0] {
      assert rest[i] == fields[i + 1] && rest[j] == fields[j + 1];
    }
  }

  /** No line is found for a name whose initial no field shares. */
  lemma {:induction false} LookupAbsent(fields: seq<Field>, name: string)
    requires |name| > 0
    requires forall j :: 0 <= j < |fields| ==> |fields[j].0| > 0 && fields[j].0[0] != name[0]
    ensures Lookup(PresentLines(fields), name) == None
    decreases |fields|
  {
    if |fields| > 0 {
      var rest := fields[1..];
      assert forall j :: 0 <= j < |rest| ==> rest[j] == fields[j + 1];
      LookupAbsent(rest, name);
      var lines := PresentLines(fields);
      if fields[0].1.Some? {
        var line := Line(fields[0].0, fields[0].1.value);
        assert line[0] == fields[0].0[0];
        assert (name + "=")[0] == name[0];
        assert lines[0] == line && lines[1..] == PresentLines(rest);
        assert !StartsWith(lines[0], name + "=");
      } else {
        assert lines == PresentLines(rest);
      }
    }
  }

  /** Each field is found again by its name: present with its value, or
      absent. */
  lemma {:induction false} LookupPresent(fields: seq<Field>, i: nat)
    requires DistinctInitials(fields) && i < |fields|
    ensures Lookup(PresentLines(fields), fields[i].0) == fields[i].1
    decreases |fields|
  {
    var name := fields[i].0;
    var rest := fields[1..];
    var lines := PresentLines(fields);
    DistinctInitialsTail(fields);
    if i == 0 {
      forall j | 0 <= j < |rest| ensures |rest[j].0| > 0 && rest[j].0[0] != name[0] {
        assert rest[j] == fields[j + 1];
      }
      LookupAbsent(rest, name);
      if fields[0].1.Some? {
        var line := Line(name, fields[0].1.value);
        assert lines[0] == line;
        assert StartsWith(line, name + "=");
        assert line[|name| + 1..] == fields[0].1.value;
      } else {
        assert lines == PresentLines(rest);
      }
    } else {
      assert rest[i - 1] == fields[i];
      LookupPresent(rest, i - 1);
      if fields[0].1.Some? {
        var line := Line(fields[0].0, fields[0].1.value);
        assert line[0] == fields[0].0[0] != name[0];
        assert (name + "=")[0] == name[0];
        assert lines[0] == line && lines[1..] == PresentLines(rest);
        assert !StartsWith(lines[0], name + "=");
      } else {
        assert lines == PresentLines(rest);
      }
    }
  }

  /** With strictly ascending initials the lines come out sorted, each
      starting no lower than the first field's initial. */
  lemma {:induction false} PresentLinesSorted(fields: seq<Field>)
    requires DistinctInitials(fields)
    ensures StrictlySorted(PresentLines(fields))
    ensures forall k :: 0 <= k < |PresentLines(fields)| ==>
              |PresentLines(fields)[k]| > 0 && fields[0].0[0] <= PresentLines(fields)[k][0]
    decreases |fields|
  {
    if |fields| > 0 {
      var rest := fields[1..];
      DistinctInitialsTail(fields);
      PresentLinesSorted(rest);
      var tail := PresentLines(rest);
      if |rest| > 0 {
        assert rest[0] == fields[1];
      }
      if fields[0].1.Some? {
        var line := Line(fields[0].0, fields[0].1.value);
        assert line[0] == fields[0].0[0];
        forall y | y in tail ensures Less(line, y) {
          var k :| 0 <= k < |tail| && tail[k] == y;
        }
        ConsSorted(line, tail);
      }
    }
  }

  /** No line contains a character that no name or value contains, other
      than `=`. */
  lemma {:induction false} PresentLinesLack(fields: seq<Field>, c: char)
    requires c != '='
    requires forall j :: 0 <= j < |fields| ==> c !in fields[j].0
    requires forall j :: 0 <= j < |fields| && fields[j].1.Some? ==> c !in fields[j].1.value
    ensures forall k :: 0 <= k < |PresentLines(fields)| ==> c !in PresentLines(fields)[k]
    decreases |fields|
  {
    if |fields| > 0 {
      var rest := fields[1..];
      assert forall j :: 0 <= j < |rest| ==> rest[j] == fields[j + 1];
      PresentLinesLack(rest, c);
    }
  }

  /** `AuthData::data_check_string`'s fields, in alphabetical order. */
  function CheckFields(d: AuthData): seq<Field> {
    [ ("auth_date", Some(IntToString(d.authDate))),
      ("first_name", d.firstName),
      ("id", Some(NatToString(d.id))),
      ("last_name", d.lastName),
      ("photo_url", d.photoUrl),
      ("username", d.username) ]
  }

  function CheckLines(d: AuthData): seq<string> {
    PresentLines(CheckFields(d))
  }

  /** The string the login hash signs. */
  function DataCheckString(d: AuthData): string {
    Join(CheckLines(d), "\n")
  }

  lemma CheckFieldsInitials(d: AuthData)
    ensures DistinctInitials(CheckFields(d))
  {
    var f := CheckFields(d);
    assert f[0].0[0] == 'a' && f[1].0[0] == 'f' && f[2].0[0] == 'i';
    assert f[3].0[0] == 'l' && f[4].0[0] == 'p' && f[5].0[0] == 'u';
  }

  /** The lines are sorted, and each field can be read back by its name:
      `auth_date` and `id` always, the optional ones exactly when present;
      the hash is never among them. */
  lemma CheckLinesFields(d: AuthData)
    ensures StrictlySorted(CheckLines(d))
    ensures Lookup(CheckLines(d), "auth_date") == Some(IntToString(d.authDate))
    ensures Lookup(CheckLines(d), "first_name") == d.firstName
    ensures Lookup(CheckLines(d), "id") == Some(NatToString(d.id))
    ensures Lookup(CheckLines(d), "last_name") == d.lastName
    ensures Lookup(CheckLines(d), "photo_url") == d.photoUrl
    ensures Lookup(CheckLines(d), "username") == d.username
    ensures Lookup(CheckLines(d), "hash") == None
  {
    var f := CheckFields(d);
    CheckFieldsInitials(d);
    PresentLinesSorted(f);
    LookupPresent(f, 0);
    LookupPresent(f, 1);
    LookupPresent(f, 2);
    LookupPresent(f, 3);
    LookupPresent(f, 4);
    LookupPresent(f, 5);
    forall j | 0 <= j < |f| ensures |f[j].0| > 0 && f[j].0[0] != 'h' {
    }
    LookupAbsent(f, "hash");
  }

  predicate NoNewline(v: Option<string>) {
    v.Some? ==> '\n' !in v.value
  }

  /** When no value holds a line break, splitting the data-check string at
      line breaks recovers exactly the lines. */
  lemma CheckStringSplits(d: AuthData)
    requires NoNewline(d.firstName) && NoNewline(d.lastName) && NoNewline(d.username) && NoNewline(d.photoUrl)
    ensures Split(DataCheckString(d), '\n') == CheckLines(d)
  {
    var f := CheckFields(d);
    assert '\n' !in IntToString(d.authDate) && '\n' !in NatToString(d.id);
    PresentLinesLack(f, '\n');
    assert f[0].1.Some?;
    assert |CheckLines(d)| >= 1;
    JoinSplit(CheckLines(d), '\n');
  }

  /** The string does not depend on the hash it is checked against. */
  lemma CheckStringIgnoresHash(d: AuthData, h: Option<string>)
    ensures DataCheckString(d.(hash := h)) == DataCheckString(d)
  {
    assert CheckFields(d.(hash := h)) == CheckFields(d);
  }

  /** `hmac::verify(key, data, tag)` under the key derived from the token. */
  type Verifier = (string, string, seq<Hex.Byte>) -> bool
  /** `hmac::sign(key, data)` under the key derived from the token. */
  type Signer = (string, string) -> seq<Hex.Byte>

  /** `AuthData::check`: a missing or non-hex hash fails; otherwise the
      signature over the data-check string decides. The login's age is not
      checked. */
  function Check(d: AuthData, token: string, verify: Verifier): (ok: bool)
    ensures d.hash.None? ==> !ok
    ensures d.hash.Some? && Hex.Decode(d.hash.value).None? ==> !ok
    ensures ok <==> d.hash.Some? && Hex.Decode(d.hash.value).Some?
                    && verify(token, DataCheckString(d), Hex.Decode(d.hash.value).value)
  {
    match d.hash
    case None => false
    case Some(hash) =>
      match Hex.Decode(hash)
      case None => false
      case Some(bytes) => verify(token, DataCheckString(d), bytes)
  }

  /** `as_unhashed_auth_data`: the user's own fields, no photo, no hash. */
  function AsUnhashedAuthData(u: WebAppUser, authDate: int): (d: AuthData)
    ensures d.id == u.id && d.firstName == u.firstName && d.lastName == u.lastName && d.username == u.username
    ensures d.authDate == authDate && d.photoUrl.None? && d.hash.None?
  {
    AuthData(u.id, u.firstName, u.lastName, u.username, None, authDate, None)
  }

  /** Unhashed data never passes the check, and its data-check string has
      no photo line. */
  lemma UnhashedFailsCheck(u: WebAppUser, authDate: int, token: string, verify: Verifier)
    ensures !Check(AsUnhashedAuthData(u, authDate), token, verify)
    ensures Lookup(CheckLines(AsUnhashedAuthData(u, authDate)), "photo_url") == None
  {
    CheckLinesFields(AsUnhashedAuthData(u, authDate));
  }

  /** Web-app init data: the hash and every other field, by name. */
  datatype WebAppInitData = WebAppInitData(hash: string, other: map<string, string>)

  /** Deserialising the init data's fields: `hash` is required and taken
      out; the rest are kept. */
  function ParseInitData(fields: map<string, string>): (r: Option<WebAppInitData>)
    ensures r.Some? <==> "hash" in fields
    ensures r.Some? ==> "hash" !in r.value.other && r.value.hash == fields["hash"]
    ensures r.Some? ==> forall k :: k in fields && k != "hash" ==> k in r.value.other && r.value.other[k] == fields[k]
    ensures r.Some? ==> forall k :: k in r.value.other ==> k in fields
  {
    if "hash" in fields then Some(WebAppInitData(fields["hash"], fields - {"hash"})) else None
  }

  function MapLines(keys: seq<string>, m: map<string, string>): (r: seq<string>)
    requires forall k :: k in keys ==> k in m
    decreases |keys|
  {
    if |keys| == 0 then [] else [Line(keys[0], m[keys[0]])] + MapLines(keys[1..], m)
  }

  lemma {:induction false} MapLinesAt(keys: seq<string>, m: map<string, string>, k: nat)
    requires forall x :: x in keys ==> x in m
    requires k < |keys|
    ensures |MapLines(keys, m)| == |keys|
    ensures MapLines(keys, m)[k] == Line(keys[k], m[keys[k]])
    decreases |keys|
  {
    if k > 0 {
      MapLinesAt(keys[1..], m, k - 1);
    } else if |keys| > 1 {
      MapLinesAt(keys[1..], m, 0);
    }
  }

  /** The keys of `m` in sorted order, given the order in which the hash
      map happens to yield them. */
  function SortedKeys(m: map<string, string>, order: seq<string>): (keys: seq<string>)
    requires forall k :: k in order <==> k in m
    ensures StrictlySorted(keys)
    ensures forall k :: k in keys <==> k in m
  {
    SortDedup(order)
  }

  /** `WebAppInitData::data_check_string`: every non-hash field as
      `key=value`, sorted by key, joined by line breaks. */
  function WebAppCheckString(w: WebAppInitData, order: seq<string>): string
    requires forall k :: k in order <==> k in w.other
  {
    Join(MapLines(SortedKeys(w.other, order), w.other), "\n")
  }

  /** The string depends only on the fields, not on the order the map
      yields them in. */
  lemma WebAppCheckStringOrderFree(w: WebAppInitData, order1: seq<string>, order2: seq<string>)
    requires forall k :: k in order1 <==> k in w.other
    requires forall k :: k in order2 <==> k in w.other
    ensures WebAppCheckString(w, order1) == WebAppCheckString(w, order2)
  {
    SortedUnique(SortedKeys(w.other, order1), SortedKeys(w.other, order2));
  }

  /** Line `i` of the web-app string is the `i`-th smallest key with its
      value; there is one line per field. */
  lemma WebAppLines(w: WebAppInitData, order: seq<string>, i: nat)
    requires forall k :: k in order <==> k in w.other
    requires i < |SortedKeys(w.other, order)|
    ensures |MapLines(SortedKeys(w.other, order), w.other)| == |SortedKeys(w.other, order)|
    ensures var keys := SortedKeys(w.other, order);
            MapLines(keys, w.other)[i] == Line(keys[i], w.other[keys[i]])
  {
    MapLinesAt(SortedKeys(w.other, order), w.other, i);
  }

  /** `WebAppInitData::check`: a non-hex hash fails; otherwise the
      signature under the web-app key decides. */
  function WebAppCheck(w: WebAppInitData, order: seq<string>, token: string, verify: Verifier): (ok: bool)
    requires forall k :: k in order <==> k in w.other
    ensures Hex.Decode(w.hash).None? ==> !ok
    ensures ok <==> Hex.Decode(w.hash).Some? && verify(token, WebAppCheckString(w, order), Hex.Decode(w.hash).value)
  {
    match Hex.Decode(w.hash)
    case None => false
    case Some(bytes) => verify(token, WebAppCheckString(w, order), bytes)
  }

  /** Launch data whose hash is the hex of the signature of its own check
      string passes, whichever order the map yields its fields in. */
  lemma WebAppSignedPasses(w: WebAppInitData, order: seq<string>, token: string, sign: Signer, verify: Verifier)
    requires forall data :: verify(token, data, sign(token, data))
    requires forall k :: k in order <==> k in w.other
    requires w.hash == Hex.Encode(sign(token, WebAppCheckString(w, order)))
    ensures WebAppCheck(w, order, token, verify)
  {
    Hex.EncodeDecode(sign(token, WebAppCheckString(w, order)));
  }

  datatype IntoAuthError = MissingUser | BadUser

  /** `into_auth_data`: the `user` field is required and must parse; the
      result is signed as a login would be, at time `now`. */
  function IntoAuthData(w: WebAppInitData, now: int, token: string,
                        parseUser: string -> Option<WebAppUser>, sign: Signer): (r: Result<AuthData, IntoAuthError>)
    ensures "user" !in w.other ==> r == Failure(MissingUser)
    ensures "user" in w.other && parseUser(w.other["user"]).None? ==> r == Failure(BadUser)
    ensures r.Success? ==> r.value.authDate == now && r.value.photoUrl.None? && r.value.hash.Some?
  {
    if "user" !in w.other then Failure(MissingUser)
    else match parseUser(w.other["user"])
      case None => Failure(BadUser)
      case Some(user) =>
        var unhashed := AsUnhashedAuthData(user, now);
        Success(unhashed.(hash := Some(Hex.Encode(sign(token, DataCheckString(unhashed))))))
  }

  /** Data made by `into_auth_data` passes `check` whenever verification
      accepts what signing produces. */
  lemma IntoAuthDataPassesCheck(w: WebAppInitData, now: int, token: string,
                                parseUser: string -> Option<WebAppUser>, sign: Signer, verify: Verifier)
    requires forall data :: verify(token, data, sign(token, data))
    requires IntoAuthData(w, now, token, parseUser, sign).Success?
    ensures Check(IntoAuthData(w, now, token, parseUser, sign).value, token, verify)
  {
    var user := parseUser(w.other["user"]).value;
    var unhashed := AsUnhashedAuthData(user, now);
    var mac := sign(token, DataCheckString(unhashed));
    var d := unhashed.(hash := Some(Hex.Encode(mac)));
    Hex.EncodeDecode(mac);
    CheckStringIgnoresHash(unhashed, Some(Hex.Encode(mac)));
    assert verify(token, DataCheckString(unhashed), mac);
  }

  datatype AuthError = Unauthorized | BadCookie

  /** `OptionalAuthenticatedUser`: no cookie means no user; a cookie that
      does not parse is an error; otherwise the user is known exactly when
      the check passes. */
  function OptionalUser(cookie: Option<string>, parse: string -> Option<AuthData>,
                        token: string, verify: Verifier): (r: Result<Option<AuthData>, AuthError>)
    ensures cookie.None? ==> r == Success(None)
    ensures cookie.Some? && parse(cookie.value).None? ==> r == Failure(BadCookie)
    ensures r.Success? && r.value.Some? ==> Check(r.value.value, token, verify)
  {
    match cookie
    case None => Success(None)
    case Some(c) =>
      match parse(c)
      case None => Failure(BadCookie)
      case Some(d) => if Check(d, token, verify) then Success(Some(d)) else Success(None)
  }

  /** `AuthenticatedUser`: no user is `Unauthorized`. */
  function RequireUser(cookie: Option<string>, parse: string -> Option<AuthData>,
                       token: string, verify: Verifier): (r: Result<AuthData, AuthError>)
    ensures cookie.None? ==> r == Failure(Unauthorized)
    ensures r.Success? ==> r.value.hash.Some? && Check(r.value, token, verify)
  {
    match OptionalUser(cookie, parse, token, verify)
    case Failure(e) => Failure(e)
    case Success(None) => Failure(Unauthorized)
    case Success(Some(d)) => Success(d)
  }

  /** A user is admitted exactly when the cookie parses and its data pass
      the check. */
  lemma RequireUserIff(cookie: Option<string>, parse: string -> Option<AuthData>, token: string, verify: Verifier)
    ensures RequireUser(cookie, parse, token, verify).Success? <==>
              cookie.Some? && parse(cookie.value).Some? && Check(parse(cookie.value).value, token, verify)
  {
  }
}
