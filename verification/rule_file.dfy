/** The rule-file grammar of the current tree (`parse_rules` and its nom
    parsers in `rules.rs`). A file is one or more rules, then only white
    space:

      rule = ws lhs+ ws "=>" ws rhs+ ws ";"
      lhs  = ws (call | emoji) ws
      call = [A-Za-z0-9_]+ "(\"" [^"]* "\")"
      rhs  = ws tag ws

    where ws is nom's `multispace0`. The emoji grammar is a parameter `pe`
    (`parse_emoji`, which is not part of this model); the call grammar is
    tried first. */
module RuleFile {
  import opened Wrappers
  import opened Strings
  import opened Emojis
  import opened Nom
  import opened Literals
  import opened TagLists
  import opened Rules

  predicate NotQuote(c: char) { c != '"' }

  /** A left-hand-side pattern as this grammar can produce it: a call whose
      name is an identifier and whose argument holds no `"`, or one emoji. */
  predicate Parsable(l: Lhs) {
    match l
    case Call(f, a) => IsWord(f, IsSetNameChar) && '"' !in a
    case EmojiLhs(es) => |es| == 1
  }

  /** `call`. The identifier grammar `recognize(many1(alt((alphanumeric1,
      tag("_")))))` is the longest non-empty run of ASCII alphanumerics and
      `_`, the set-name character class. */
  function CallItem(s: string): (r: PResult<Lhs>)
    ensures r.Done? ==> Parsable(r.value) && r.value.Call? && |r.rest| < |s|
  {
    match Literal(s, IsSetNameChar)
    case Fail(at) => Fail(at)
    case Done(r1, f) =>
      match Tag("(\"", r1)
      case Fail(at) => Fail(at)
      case Done(r2, _) =>
        var n := SpanLen(r2, NotQuote);
        match Tag("\")", r2[n..])
        case Fail(at) => Fail(at)
        case Done(r3, _) => Done(r3, Call(f, r2[..n]))
  }

  /** One item of `parse_lhs`: white space, a call or else an emoji, white
      space. */
  function LhsItem(s: string, pe: string -> PResult<Emoji>): (r: PResult<Lhs>)
    ensures r.Done? ==> Parsable(r.value)
  {
    var s1 := Ms0(s);
    var item := match CallItem(s1)
      case Done(rest, l) => Done(rest, l)
      case Fail(_) => (match pe(s1) case Done(rest, e) => Done(rest, EmojiLhs([e])) case Fail(at) => Fail(at));
    match item
    case Done(rest, l) => Done(Ms0(rest), l)
    case Fail(at) => Fail(at)
  }

  function LhsParser(pe: string -> PResult<Emoji>): string -> PResult<Lhs> {
    s => LhsItem(s, pe)
  }

  /** One item of `parse_rhs`: white space, a tag literal, white space. */
  function RhsItem(s: string): (r: PResult<string>)
    ensures r.Done? ==> IsTag(r.value)
  {
    match TagLiteral(Ms0(s))
    case Done(rest, t) => Done(Ms0(rest), t)
    case Fail(at) => Fail(at)
  }

  /** A rule as this grammar can produce it. */
  predicate ParsableRule(r: Rule) {
    && |r.lhs| > 0 && (forall i :: 0 <= i < |r.lhs| ==> Parsable(r.lhs[i]))
    && |r.tags| > 0 && (forall i :: 0 <= i < |r.tags| ==> IsTag(r.tags[i]))
  }

  /** `rule`. */
  function RuleItem(s: string, pe: string -> PResult<Emoji>): (r: PResult<Rule>)
    ensures r.Done? ==> ParsableRule(r.value)
  {
    Many1Values(Ms0(s), LhsParser(pe), Parsable);
    match Many1(Ms0(s), LhsParser(pe))
    case Fail(at) => Fail(at)
    case Done(r1, ls) =>
      match Tag("=>", Ms0(r1))
      case Fail(at) => Fail(at)
      case Done(r2, _) =>
        Many1Values(Ms0(r2), RhsItem, IsTag);
        match Many1(Ms0(r2), RhsItem)
        case Fail(at) => Fail(at)
        case Done(r3, ts) =>
          match Tag(";", Ms0(r3))
          case Fail(at) => Fail(at)
          case Done(r4, _) => Done(r4, Rule(ls, ts))
  }

  function RuleParser(pe: string -> PResult<Emoji>): string -> PResult<Rule> {
    s => RuleItem(s, pe)
  }

  /** `parse_rules`: one or more rules, then white space to the end. */
  function ParseRules(s: string, pe: string -> PResult<Emoji>): (r: Result<seq<Rule>, RulesError>)
    ensures r.Success? ==> |r.value| > 0 && forall i :: 0 <= i < |r.value| ==> ParsableRule(r.value[i])
    ensures r.Failure? ==> r.error.SyntaxError?
  {
    Many1Values(s, RuleParser(pe), ParsableRule);
    match Many1(s, RuleParser(pe))
    case Fail(at) => Failure(SyntaxError(at))
    case Done(rest, rules) =>
      if Ms0(rest) == "" then Success(rules) else Failure(SyntaxError(Ms0(rest)))
  }

  /** `TagSuggestionRules::parse`: the grammar, then the build loop. */
  function Parse(s: string, pe: string -> PResult<Emoji>): (r: Result<TagSuggestionRules, RulesError>)
    ensures r.Failure? && r.error.UnknownFunction? ==> !KnownFunction(r.error.name)
  {
    match ParseRules(s, pe)
    case Failure(e) => Failure(e)
    case Success(rules) => Build(rules)
  }

  // ---------------------------------------------------------------------
  // A canonical printer, and the grammar reading it back.

  /** A pattern as written in a rule file. */
  function ShowLhs(l: Lhs): string {
    match l
    case Call(f, a) => f + ("(\"" + (a + "\")"))
    case EmojiLhs(es) => if |es| == 0 then "" else es[0].text
  }

  function LhsParts(ls: seq<Lhs>): (r: seq<string>)
    ensures |r| == |ls| && forall i :: 0 <= i < |ls| ==> r[i] == ShowLhs(ls[i]) + " "
  {
    seq(|ls|, i requires 0 <= i < |ls| => ShowLhs(ls[i]) + " ")
  }

  function TagParts(ts: seq<string>): (r: seq<string>)
    ensures |r| == |ts| && forall i :: 0 <= i < |ts| ==> r[i] == ts[i] + " "
  {
    seq(|ts|, i requires 0 <= i < |ts| => ts[i] + " ")
  }

  /** `lhs lhs => tag tag ;` with a space after each pattern and tag. */
  function ShowRule(r: Rule): string {
    Concat(LhsParts(r.lhs)) + ("=>" + (" " + (Concat(TagParts(r.tags)) + ";")))
  }

  function RuleParts(rules: seq<Rule>): (r: seq<string>)
    ensures |r| == |rules| && forall i :: 0 <= i < |rules| ==> r[i] == "\n" + ShowRule(rules[i])
  {
    seq(|rules|, i requires 0 <= i < |rules| => "\n" + ShowRule(rules[i]))
  }

  /** A rule file, one rule per line. */
  function ShowRules(rules: seq<Rule>): string {
    Concat(RuleParts(rules)) + "\n"
  }

  /** What the round trip needs of the emoji parser: it fails on the empty
      input and on `=>`. */
  ghost predicate StopsAtArrow(pe: string -> PResult<Emoji>) {
    pe("").Fail? && forall x :: pe("=>" + x).Fail?
  }

  /** ... and reads an emoji's text back as that emoji when a space follows;
      the text starts with neither white space nor an identifier character
      (so the call grammar does not take it). */
  ghost predicate ReadsEmoji(pe: string -> PResult<Emoji>, e: Emoji) {
    && |e.text| > 0 && !IsMultispace(e.text[0]) && !IsSetNameChar(e.text[0])
    && forall x :: pe(e.text + (" " + x)) == Done(" " + x, e)
  }

  ghost predicate Printable(l: Lhs, pe: string -> PResult<Emoji>) {
    Parsable(l) && (l.EmojiLhs? ==> ReadsEmoji(pe, l.emojis[0]))
  }

  ghost predicate PrintableRule(r: Rule, pe: string -> PResult<Emoji>) {
    ParsableRule(r) && forall i :: 0 <= i < |r.lhs| ==> Printable(r.lhs[i], pe)
  }

  ghost predicate PrintableFile(rules: seq<Rule>, pe: string -> PResult<Emoji>) {
    |rules| > 0 && forall i :: 0 <= i < |rules| ==> PrintableRule(rules[i], pe)
  }

  predicate SpaceFree(s: string) { |s| == 0 || !IsMultispace(s[0]) }

  lemma Ms0Skip(c: char, x: string)
    requires IsMultispace(c)
    ensures Ms0([c] + x) == Ms0(x)
  {
    assert ([c] + x)[1..] == x;
  }

  lemma CallReads(f: string, a: string, rest: string)
    requires IsWord(f, IsSetNameChar) && '"' !in a
    ensures CallItem(ShowLhs(Call(f, a)) + rest) == Done(rest, Call(f, a))
  {
    var tail := "\")" + rest;
    var r1 := "(\"" + (a + tail);
    assert ShowLhs(Call(f, a)) + rest == f + r1;
    LiteralExact(f, r1, IsSetNameChar);
    TagPrefix("(\"", a + tail);
    SpanLenExact(a, tail, NotQuote);
    assert (a + tail)[|a|..] == tail && (a + tail)[..|a|] == a;
    TagPrefix("\")", rest);
  }

  lemma ShowLhsStart(l: Lhs, pe: string -> PResult<Emoji>)
    requires Printable(l, pe)
    ensures |ShowLhs(l)| > 0 && !IsMultispace(ShowLhs(l)[0])
  {
    match l
    case Call(f, a) =>
      assert ShowLhs(l)[0] == f[0];
    case EmojiLhs(es) =>
  }

  lemma LhsReads(l: Lhs, after: string, pe: string -> PResult<Emoji>)
    requires Printable(l, pe) && SpaceFree(after)
    ensures LhsItem((ShowLhs(l) + " ") + after, pe) == Done(after, l)
  {
    var s := (ShowLhs(l) + " ") + after;
    assert s == ShowLhs(l) + (" " + after);
    ShowLhsStart(l, pe);
    Ms0None(s);
    Ms0Space(after);
    Ms0None(after);
    match l
    case Call(f, a) =>
      CallReads(f, a, " " + after);
    case EmojiLhs(es) =>
      assert es == [es[0]];
      assert CallItem(s).Fail?;
  }

  lemma AfterStart(parts: seq<string>, i: nat, rest: string)
    requires i < |parts|
    ensures i + 1 < |parts| ==> After(parts, i, rest) == parts[i + 1] + After(parts, i + 1, rest)
    ensures i + 1 == |parts| ==> After(parts, i, rest) == rest
  {
    if i + 1 < |parts| {
      assert parts[i + 1..][1..] == parts[i + 2..];
    } else {
      assert Concat(parts[i + 1..]) == "";
    }
  }

  /** The left-hand side as printed is read back by `parse_lhs`, up to the
      arrow. */
  lemma LhsListReads(ls: seq<Lhs>, x: string, pe: string -> PResult<Emoji>)
    requires |ls| > 0 && forall i :: 0 <= i < |ls| ==> Printable(ls[i], pe)
    requires StopsAtArrow(pe)
    ensures Many1(Concat(LhsParts(ls)) + ("=>" + (" " + x)), LhsParser(pe)) == Done("=>" + (" " + x), ls)
  {
    var parts := LhsParts(ls);
    var rest := "=>" + (" " + x);
    var item := LhsParser(pe);
    forall i | 0 <= i < |parts|
      ensures item(parts[i] + After(parts, i, rest)) == Done(After(parts, i, rest), ls[i])
    {
      AfterStart(parts, i, rest);
      if i + 1 < |parts| {
        ShowLhsStart(ls[i + 1], pe);
      }
      LhsReads(ls[i], After(parts, i, rest), pe);
    }
    assert ReadsParts(item, parts, ls, rest);
    Ms0None(rest);
    assert CallItem(rest).Fail?;
    assert item(rest).Fail?;
    Many1Exact(item, parts, ls, rest);
  }

  lemma TagCharsStop()
    ensures !IsTagChar(';') && !IsTagChar(' ')
  {
    assert forall i :: 0 <= i < |"_-()/<>!?':.^"| ==> "_-()/<>!?':.^"[i] != ';' && "_-()/<>!?':.^"[i] != ' ';
  }

  lemma RhsReads(t: string, after: string)
    requires IsTag(t) && SpaceFree(after)
    ensures RhsItem((t + " ") + after) == Done(after, t)
  {
    var s := (t + " ") + after;
    assert s == t + (" " + after);
    TagCharsAreNotSpace();
    TagCharsStop();
    Ms0None(s);
    LiteralExact(t, " " + after, IsTagChar);
    Ms0Space(after);
    Ms0None(after);
  }

  /** The tags as printed are read back by `parse_rhs`, up to the `;`. */
  lemma TagListReads(ts: seq<string>, x: string)
    requires |ts| > 0 && forall i :: 0 <= i < |ts| ==> IsTag(ts[i])
    ensures Many1(Concat(TagParts(ts)) + (";" + x), RhsItem) == Done(";" + x, ts)
  {
    var parts := TagParts(ts);
    var rest := ";" + x;
    TagCharsAreNotSpace();
    TagCharsStop();
    forall i | 0 <= i < |parts|
      ensures RhsItem(parts[i] + After(parts, i, rest)) == Done(After(parts, i, rest), ts[i])
    {
      AfterStart(parts, i, rest);
      RhsReads(ts[i], After(parts, i, rest));
    }
    assert ReadsParts(RhsItem, parts, ts, rest);
    Ms0None(rest);
    Many1Exact(RhsItem, parts, ts, rest);
  }

  lemma ConcatStart(parts: seq<string>, rest: string)
    requires |parts| > 0
    ensures Concat(parts) + rest == parts[0] + After(parts, 0, rest)
  {
    ConcatCons(parts, rest);
  }

  /** The first half of `rule`: white space and the left-hand side. */
  lemma RuleHeadReads(r: Rule, after: string, pe: string -> PResult<Emoji>)
    requires PrintableRule(r, pe) && StopsAtArrow(pe)
    ensures var x := Concat(TagParts(r.tags)) + (";" + after);
      && Ms0(("\n" + ShowRule(r)) + after) == Concat(LhsParts(r.lhs)) + ("=>" + (" " + x))
      && Many1(Concat(LhsParts(r.lhs)) + ("=>" + (" " + x)), LhsParser(pe)) == Done("=>" + (" " + x), r.lhs)
  {
    var x := Concat(TagParts(r.tags)) + (";" + after);
    var s1 := Concat(LhsParts(r.lhs)) + ("=>" + (" " + x));
    assert ("\n" + ShowRule(r)) + after == ['\n'] + s1;
    Ms0Skip('\n', s1);
    ConcatStart(LhsParts(r.lhs), "=>" + (" " + x));
    ShowLhsStart(r.lhs[0], pe);
    Ms0None(s1);
    LhsListReads(r.lhs, x, pe);
  }

  lemma ArrowReads(x: string)
    ensures Tag("=>", Ms0("=>" + (" " + x))) == Done(" " + x, "=>")
  {
    Ms0None("=>" + (" " + x));
    TagPrefix("=>", " " + x);
  }

  lemma SemicolonReads(after: string)
    ensures Tag(";", Ms0(";" + after)) == Done(after, ";")
  {
    Ms0None(";" + after);
    TagPrefix(";", after);
  }

  /** The second half of `rule`: the arrow, the tags and the `;`. */
  lemma RuleTailReads(r: Rule, after: string)
    requires ParsableRule(r)
    ensures var x := Concat(TagParts(r.tags)) + (";" + after);
      && Tag("=>", Ms0("=>" + (" " + x))) == Done(" " + x, "=>")
      && Ms0(" " + x) == x
      && Many1(x, RhsItem) == Done(";" + after, r.tags)
      && Tag(";", Ms0(";" + after)) == Done(after, ";")
  {
    var x := Concat(TagParts(r.tags)) + (";" + after);
    ArrowReads(x);
    Ms0Space(x);
    ConcatStart(TagParts(r.tags), ";" + after);
    TagCharsAreNotSpace();
    Ms0None(x);
    TagListReads(r.tags, after);
    SemicolonReads(after);
  }

  /** One printed rule, on its own line, is read back by `rule`. */
  lemma RuleReads(r: Rule, after: string, pe: string -> PResult<Emoji>)
    requires PrintableRule(r, pe) && StopsAtArrow(pe)
    ensures RuleItem(("\n" + ShowRule(r)) + after, pe) == Done(after, r)
  {
    RuleHeadReads(r, after, pe);
    RuleTailReads(r, after);
  }

  /** A printed file is read back rule for rule. */
  lemma {:induction false} ParseRulesShown(rules: seq<Rule>, pe: string -> PResult<Emoji>)
    requires PrintableFile(rules, pe) && StopsAtArrow(pe)
    ensures ParseRules(ShowRules(rules), pe) == Success(rules)
  {
    var parts := RuleParts(rules);
    var item := RuleParser(pe);
    forall i | 0 <= i < |parts|
      ensures item(parts[i] + After(parts, i, "\n")) == Done(After(parts, i, "\n"), rules[i])
    {
      RuleReads(rules[i], After(parts, i, "\n"), pe);
    }
    assert ReadsParts(item, parts, rules, "\n");
    Ms0Skip('\n', "");
    assert "\n" == ['\n'] + "";
    assert Ms0("\n") == "";
    assert LhsItem("", pe).Fail? by {
      assert CallItem("").Fail?;
    }
    assert item("\n").Fail?;
    Many1Exact(item, parts, rules, "\n");
  }

  /** Parsing a printed file builds the same rules as the rules themselves. */
  lemma ParseShown(rules: seq<Rule>, pe: string -> PResult<Emoji>)
    requires PrintableFile(rules, pe) && StopsAtArrow(pe)
    ensures Parse(ShowRules(rules), pe) == Build(rules)
  {
    ParseRulesShown(rules, pe);
  }

  /** A file without a rule is rejected. */
  lemma BlankRejected(s: string, pe: string -> PResult<Emoji>)
    requires Ms0(s) == "" && StopsAtArrow(pe)
    ensures ParseRules(s, pe).Failure?
  {
    assert LhsItem(s, pe).Fail? by {
      assert CallItem("").Fail?;
    }
    assert RuleItem(s, pe).Fail? by {
      assert Ms0(Ms0(s)) == "";
    }
  }
}
