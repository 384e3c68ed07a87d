/** The `start` deep-link parameter of the bot (`/start <parameter>`). */
module StartParameters {
  import opened Wrappers

  datatype StartParameter = Blacklist | Greeting | Regular | Help

  const INVALID_START_PARAMETER: string := "invalid start parameter"

  /** The text that selects each parameter in a deep link. */
  function Display(p: StartParameter): (s: string)
    ensures p == Regular <==> s == ""
  {
    match p
    case Regular => ""
    case Blacklist => "blacklist"
    case Help => "help"
    case Greeting => "beep"
  }

  /** Exactly the four texts `Display` produces are accepted; anything else is
      rejected with the same message. */
  function FromStr(s: string): (r: Result<StartParameter, string>)
    ensures r.Success? <==> s in {"", "blacklist", "help", "beep"}
    ensures r.Failure? ==> r.error == INVALID_START_PARAMETER
  {
    if s == "" then Success(Regular)
    else if s == "blacklist" then Success(Blacklist)
    else if s == "help" then Success(Help)
    else if s == "beep" then Success(Greeting)
    else Failure(INVALID_START_PARAMETER)
  }

  /** Printing then parsing gives the parameter back, and every accepted text
      is the printed form of what it parses to. */
  lemma RoundTrip(p: StartParameter, s: string)
    ensures FromStr(Display(p)) == Success(p)
    ensures FromStr(s).Success? ==> Display(FromStr(s).value) == s
  {
  }

  /** Distinct parameters print differently. */
  lemma DisplayInjective(p: StartParameter, q: StartParameter)
    requires Display(p) == Display(q)
    ensures p == q
  {
    RoundTrip(p, "");
    RoundTrip(q, "");
  }
}
