/** The rule-file grammar of the older tree (`parser()` in `rules.rs`, a
    chumsky grammar over characters):

      file  = (ws rule ws)+ end
      rule  = lhs+ "=>" rhs+ ";"
      lhs   = ws (call | token) ws
      call  = ident "(" "\"" [^"]+ "\"" ")"
      rhs   = ws token ws

    where ws is Unicode white space, a token is one or more characters other
    than space, `=` and `;`, and an identifier is a token character other
    than `(`. A left-hand-side token is one string of emojis, split by
    `Emoji::parse` (a parameter `split` here, which is not part of this
    model). Every repeated item here consumes input, so chumsky's
    backtracking `repeated` behaves like the `Many0` of this model. */
module LegacyRuleFile {
  import opened Wrappers
  import opened Strings
  import opened Emojis
  import opened Nom
  import opened Literals
  import opened Rules

  /** A left-hand-side pattern before the emoji token is split. */
  datatype RawLhs = RawCall(callee: string, arg: string) | RawEmoji(token: string)

  datatype RawRule = RawRule(lhs: seq<RawLhs>, tags: seq<string>)

  predicate IsTokenChar(c: char) { c != ' ' && c != '=' && c != ';' }

  predicate IsIdentChar(c: char) { IsTokenChar(c) && c != '(' }

  predicate IsStringChar(c: char) { c != '"' }

  /** `padded()`: Unicode white space. */
  function Ws(s: string): (r: string)
    ensures |r| <= |s| && (|r| == 0 || !IsWhiteSpace(r[0]))
  {
    TakeWhile(s, IsWhiteSpace)
  }

  /** A pattern as this grammar can produce it. */
  predicate Parsable(l: RawLhs) {
    match l
    case RawCall(f, a) => IsWord(f, IsIdentChar) && IsWord(a, IsStringChar)
    case RawEmoji(t) => IsWord(t, IsTokenChar)
  }

  /** `string`: a non-empty text between double quotes. */
  function StringItem(s: string): (r: PResult<string>)
    ensures r.Done? ==> IsWord(r.value, IsStringChar) && |r.rest| < |s|
  {
    match Tag("\"", s)
    case Fail(at) => Fail(at)
    case Done(r1, _) =>
      match Literal(r1, IsStringChar)
      case Fail(at) => Fail(at)
      case Done(r2, a) =>
        match Tag("\"", r2)
        case Fail(at) => Fail(at)
        case Done(r3, _) => Done(r3, a)
  }

  /** `call`: an identifier and a parenthesised string. */
  function CallItem(s: string): (r: PResult<RawLhs>)
    ensures r.Done? ==> r.value.RawCall? && Parsable(r.value) && |r.rest| < |s|
  {
    match Literal(s, IsIdentChar)
    case Fail(at) => Fail(at)
    case Done(r1, f) =>
      match Tag("(", r1)
      case Fail(at) => Fail(at)
      case Done(r2, _) =>
        match StringItem(r2)
        case Fail(at) => Fail(at)
        case Done(r3, a) =>
          match Tag(")", r3)
          case Fail(at) => Fail(at)
          case Done(r4, _) => Done(r4, RawCall(f, a))
  }

  /** One padded item of `lhs`: a call, or else an emoji token. */
  function LhsItem(s: string): (r: PResult<RawLhs>)
    ensures r.Done? ==> Parsable(r.value)
  {
    var s1 := Ws(s);
    var item := match CallItem(s1)
      case Done(rest, l) => Done(rest, l)
      case Fail(_) => (match Literal(s1, IsTokenChar) case Done(rest, t) => Done(rest, RawEmoji(t)) case Fail(at) => Fail(at));
    match item
    case Done(rest, l) => Done(Ws(rest), l)
    case Fail(at) => Fail(at)
  }

  /** One padded item of `rhs`: a tag token. */
  function RhsItem(s: string): (r: PResult<string>)
    ensures r.Done? ==> IsWord(r.value, IsTokenChar)
  {
    match Literal(Ws(s), IsTokenChar)
    case Done(rest, t) => Done(Ws(rest), t)
    case Fail(at) => Fail(at)
  }

  predicate ParsableRule(r: RawRule) {
    && |r.lhs| > 0 && (forall i :: 0 <= i < |r.lhs| ==> Parsable(r.lhs[i]))
    && |r.tags| > 0 && (forall i :: 0 <= i < |r.tags| ==> IsWord(r.tags[i], IsTokenChar))
  }

  /** `rule.padded()`. */
  function RuleItem(s: string): (r: PResult<RawRule>)
    ensures r.Done? ==> ParsableRule(r.value)
  {
    Many1Values(Ws(s), LhsItem, Parsable);
    match Many1(Ws(s), LhsItem)
    case Fail(at) => Fail(at)
    case Done(r1, ls) =>
      match Tag("=>", r1)
      case Fail(at) => Fail(at)
      case Done(r2, _) =>
        Many1Values(r2, RhsItem, t => IsWord(t, IsTokenChar));
        match Many1(r2, RhsItem)
        case Fail(at) => Fail(at)
        case Done(r3, ts) =>
          match Tag(";", r3)
          case Fail(at) => Fail(at)
          case Done(r4, _) => Done(Ws(r4), RawRule(ls, ts))
  }

  /** `parser()`: one or more rules, then the end of the input. */
  function ParseRaw(s: string): (r: Result<seq<RawRule>, string>)
    ensures r.Success? ==> |r.value| > 0 && forall i :: 0 <= i < |r.value| ==> ParsableRule(r.value[i])
    ensures r.Failure? ==> |r.error| <= |s|
  {
    RulesParsable(s);
    var m := Many1(s, RuleItem);
    if m.Fail? then Failure(if |m.at| <= |s| then m.at else s)
    else if m.rest == "" then Success(m.value)
    else Failure(if |m.rest| <= |s| then m.rest else s)
  }

  lemma RulesParsable(s: string)
    ensures var m := Many1(s, RuleItem);
      m.Done? ==> |m.value| > 0 && forall i :: 0 <= i < |m.value| ==> ParsableRule(m.value[i])
  {
    Many1Values(s, RuleItem, ParsableRule);
  }

  /** The emoji tokens split into emojis. */
  function Cook(l: RawLhs, split: string -> seq<Emoji>): (r: Lhs)
    ensures r.Call? <==> l.RawCall?
    ensures l.RawCall? ==> r == Call(l.callee, l.arg)
  {
    match l
    case RawCall(f, a) => Call(f, a)
    case RawEmoji(t) => EmojiLhs(split(t))
  }

  function CookRule(r: RawRule, split: string -> seq<Emoji>): (c: Rule)
    ensures |c.lhs| == |r.lhs| && c.tags == r.tags
    ensures forall i :: 0 <= i < |r.lhs| ==> c.lhs[i] == Cook(r.lhs[i], split)
  {
    Rule(seq(|r.lhs|, i requires 0 <= i < |r.lhs| => Cook(r.lhs[i], split)), r.tags)
  }

  function CookAll(rs: seq<RawRule>, split: string -> seq<Emoji>): (c: seq<Rule>)
    ensures |c| == |rs| && forall i :: 0 <= i < |rs| ==> c[i] == CookRule(rs[i], split)
  {
    seq(|rs|, i requires 0 <= i < |rs| => CookRule(rs[i], split))
  }

  // ---------------------------------------------------------------------
  // The error message.

  /** The excerpt `input[err.span().start.max(50)..err.span().end]` of the
      error message, as written; `None` is the panic of a slice whose start
      lies past its end or past the input. */
  function ErrorExcerptAsWritten(input: string, start: nat, end: nat): (r: Option<string>)
    ensures r.Some? <==> (if start < 50 then 50 else start) <= end <= |input|
  {
    var lo := if start < 50 then 50 else start;
    if lo <= end <= |input| then Some(input[lo..end]) else None
  }

  /** Every error that ends before the fiftieth character, which includes
      every error in an input shorter than that, panics instead of being
      reported. */
  lemma ShortErrorPanics(input: string, start: nat, end: nat)
    requires start <= end < 50 && end <= |input|
    ensures ErrorExcerptAsWritten(input, start, end) == None
  {
  }

  /** The corrected excerpt: up to 50 characters of context before the
      error, then the erroneous span (`start.saturating_sub(50)`). */
  function ErrorExcerpt(input: string, start: nat, end: nat): (r: string)
    requires start <= end <= |input|
    ensures EndsWith(r, input[start..end])
    ensures |r| <= end - start + 50
    ensures start >= 50 ==> |r| == end - start + 50
    ensures start < 50 ==> r == input[..end]
  {
    var lo := if start < 50 then 0 else start - 50;
    assert input[lo..end][|input[lo..end]| - (end - start)..] == input[start..end];
    input[lo..end]
  }

  /** `TagSuggestionRules::parse` of the older tree: the grammar, the error
      message with the corrected excerpt (the span is the character at which
      the grammar stopped, or the empty span at the end), then the build loop
      over the split emoji tokens. */
  function Parse(s: string, split: string -> seq<Emoji>): (r: Result<TagSuggestionRules, RulesError>)
    ensures r.Failure? && r.error.UnknownFunction? ==> !KnownFunction(r.error.name)
    ensures ParseRaw(s).Failure? ==> r.Failure? && r.error.SyntaxError? && |r.error.at| <= 51
  {
    match ParseRaw(s)
    case Failure(at) =>
      var start := |s| - |at|;
      var end := if start < |s| then start + 1 else start;
      Failure(SyntaxError(ErrorExcerpt(s, start, end)))
    case Success(raws) => Build(CookAll(raws, split))
  }

  // ---------------------------------------------------------------------
  // A canonical printer, and the grammar reading it back.

  function ShowLhs(l: RawLhs): string {
    match l
    case RawCall(f, a) => f + ("(" + ("\"" + (a + ("\"" + ")"))))
    case RawEmoji(t) => t
  }

  function LhsParts(ls: seq<RawLhs>): (r: seq<string>)
    ensures |r| == |ls| && forall i :: 0 <= i < |ls| ==> r[i] == ShowLhs(ls[i]) + " "
  {
    seq(|ls|, i requires 0 <= i < |ls| => ShowLhs(ls[i]) + " ")
  }

  function TagParts(ts: seq<string>): (r: seq<string>)
    ensures |r| == |ts| && forall i :: 0 <= i < |ts| ==> r[i] == ts[i] + " "
  {
    seq(|ts|, i requires 0 <= i < |ts| => ts[i] + " ")
  }

  function ShowRule(r: RawRule): string {
    Concat(LhsParts(r.lhs)) + ("=>" + (" " + (Concat(TagParts(r.tags)) + ";")))
  }

  function RuleParts(rules: seq<RawRule>): (r: seq<string>)
    ensures |r| == |rules| && forall i :: 0 <= i < |rules| ==> r[i] == ShowRule(rules[i]) + "\n"
  {
    seq(|rules|, i requires 0 <= i < |rules| => ShowRule(rules[i]) + "\n")
  }

  /** A rule file, each rule on a line of its own. */
  function ShowRules(rules: seq<RawRule>): string {
    Concat(RuleParts(rules))
  }

  /** What the printer needs beyond the grammar: calls and tokens do not
      start with white space (the padding would take it), and an emoji
      token holds no `(` (the call grammar would read it). */
  predicate Printable(l: RawLhs) {
    match l
    case RawCall(f, a) => IsWord(f, IsIdentChar) && !IsWhiteSpace(f[0]) && IsWord(a, IsStringChar)
    case RawEmoji(t) => IsWord(t, IsIdentChar) && !IsWhiteSpace(t[0])
  }

  predicate PrintableTag(t: string) {
    IsWord(t, IsTokenChar) && !IsWhiteSpace(t[0])
  }

  predicate PrintableRule(r: RawRule) {
    && |r.lhs| > 0 && (forall i :: 0 <= i < |r.lhs| ==> Printable(r.lhs[i]))
    && |r.tags| > 0 && (forall i :: 0 <= i < |r.tags| ==> PrintableTag(r.tags[i]))
  }

  predicate WsFree(s: string) { |s| == 0 || !IsWhiteSpace(s[0]) }

  lemma WsNone(s: string)
    requires WsFree(s)
    ensures Ws(s) == s
  {
  }

  lemma WsSkip(c: char, x: string)
    requires IsWhiteSpace(c)
    ensures Ws([c] + x) == Ws(x)
  {
    assert ([c] + x)[1..] == x;
  }

  lemma WsSpace(x: string)
    requires WsFree(x)
    ensures Ws(" " + x) == x
  {
    WsSkip(' ', x);
  }

  lemma StringReads(a: string, rest: string)
    requires IsWord(a, IsStringChar)
    ensures StringItem("\"" + (a + ("\"" + rest))) == Done(rest, a)
  {
    TagPrefix("\"", a + ("\"" + rest));
    LiteralExact(a, "\"" + rest, IsStringChar);
    TagPrefix("\"", rest);
  }

  lemma CallReads(f: string, a: string, rest: string)
    requires IsWord(f, IsIdentChar) && IsWord(a, IsStringChar)
    ensures CallItem(ShowLhs(RawCall(f, a)) + rest) == Done(rest, RawCall(f, a))
  {
    var r3 := "\"" + (")" + rest);
    var r2 := "\"" + (a + r3);
    assert ShowLhs(RawCall(f, a)) + rest == f + ("(" + r2);
    LiteralExact(f, "(" + r2, IsIdentChar);
    TagPrefix("(", r2);
    StringReads(a, ")" + rest);
    TagPrefix(")", rest);
  }

  lemma LhsReads(l: RawLhs, after: string)
    requires Printable(l) && WsFree(after)
    ensures LhsItem((ShowLhs(l) + " ") + after) == Done(after, l)
  {
    var s := (ShowLhs(l) + " ") + after;
    assert s == ShowLhs(l) + (" " + after);
    WsSpace(after);
    match l
    case RawCall(f, a) =>
      assert s[0] == f[0];
      WsNone(s);
      CallReads(f, a, " " + after);
    case RawEmoji(t) =>
      assert s[0] == t[0];
      WsNone(s);
      LiteralExact(t, " " + after, IsIdentChar);
      assert CallItem(s).Fail?;
      LiteralExact(t, " " + after, IsTokenChar);
  }

  lemma AfterStart(parts: seq<string>, i: nat, rest: string)
    requires i < |parts|
    ensures i + 1 < |parts| ==> After(parts, i, rest) == parts[i + 1] + After(parts, i + 1, rest)
    ensures i + 1 == |parts| ==> After(parts, i, rest) == rest
  {
    if i + 1 < |parts| {
      assert parts[i + 1..][1..] == parts[i + 2..];
    } else {
      assert Concat(parts[i + 1..]) == "";
    }
  }

  lemma LhsListReads(ls: seq<RawLhs>, x: string)
    requires |ls| > 0 && forall i :: 0 <= i < |ls| ==> Printable(ls[i])
    ensures Many1(Concat(LhsParts(ls)) + ("=>" + x), LhsItem) == Done("=>" + x, ls)
  {
    var parts := LhsParts(ls);
    var rest := "=>" + x;
    forall i | 0 <= i < |parts|
      ensures LhsItem(parts[i] + After(parts, i, rest)) == Done(After(parts, i, rest), ls[i])
    {
      AfterStart(parts, i, rest);
      if i + 1 < |parts| {
        assert parts[i + 1][0] == ShowLhs(ls[i + 1])[0];
      }
      LhsReads(ls[i], After(parts, i, rest));
    }
    assert ReadsParts(LhsItem, parts, ls, rest);
    WsNone(rest);
    assert CallItem(rest).Fail?;
    assert LhsItem(rest).Fail?;
    Many1Exact(LhsItem, parts, ls, rest);
  }

  lemma RhsReads(t: string, after: string)
    requires PrintableTag(t) && WsFree(after)
    ensures RhsItem((t + " ") + after) == Done(after, t)
  {
    var s := (t + " ") + after;
    assert s == t + (" " + after);
    WsNone(s);
    LiteralExact(t, " " + after, IsTokenChar);
    WsSpace(after);
  }

  lemma TagListReads(ts: seq<string>, x: string)
    requires |ts| > 0 && forall i :: 0 <= i < |ts| ==> PrintableTag(ts[i])
    ensures Many1(Concat(TagParts(ts)) + (";" + x), RhsItem) == Done(";" + x, ts)
  {
    var parts := TagParts(ts);
    var rest := ";" + x;
    forall i | 0 <= i < |parts|
      ensures RhsItem(parts[i] + After(parts, i, rest)) == Done(After(parts, i, rest), ts[i])
    {
      AfterStart(parts, i, rest);
      RhsReads(ts[i], After(parts, i, rest));
    }
    assert ReadsParts(RhsItem, parts, ts, rest);
    WsNone(rest);
    Many1Exact(RhsItem, parts, ts, rest);
  }

  lemma ConcatStart(parts: seq<string>, rest: string)
    requires |parts| > 0
    ensures Concat(parts) + rest == parts[0] + After(parts, 0, rest)
  {
    ConcatCons(parts, rest);
  }

  lemma RuleHeadReads(r: RawRule, after: string)
    requires PrintableRule(r)
    ensures var x := " " + (Concat(TagParts(r.tags)) + (";" + ("\n" + after)));
      && Ws((ShowRule(r) + "\n") + after) == Concat(LhsParts(r.lhs)) + ("=>" + x)
      && Many1(Concat(LhsParts(r.lhs)) + ("=>" + x), LhsItem) == Done("=>" + x, r.lhs)
  {
    var x := " " + (Concat(TagParts(r.tags)) + (";" + ("\n" + after)));
    var s1 := Concat(LhsParts(r.lhs)) + ("=>" + x);
    assert (ShowRule(r) + "\n") + after == s1;
    ConcatStart(LhsParts(r.lhs), "=>" + x);
    assert WsFree(ShowLhs(r.lhs[0])) && |ShowLhs(r.lhs[0])| > 0 by {
      match r.lhs[0]
      case RawCall(f, a) =>
        assert ShowLhs(r.lhs[0])[0] == f[0];
      case RawEmoji(t) =>
    }
    WsNone(s1);
    LhsListReads(r.lhs, x);
  }

  lemma RuleTailReads(r: RawRule, after: string)
    requires PrintableRule(r) && WsFree(after)
    ensures var x := " " + (Concat(TagParts(r.tags)) + (";" + ("\n" + after)));
      && Tag("=>", "=>" + x) == Done(x, "=>")
      && Many1(x, RhsItem) == Done(";" + ("\n" + after), r.tags)
      && Tag(";", ";" + ("\n" + after)) == Done("\n" + after, ";")
      && Ws("\n" + after) == after
  {
    var y := Concat(TagParts(r.tags)) + (";" + ("\n" + after));
    TagPrefix("=>", " " + y);
    ConcatStart(TagParts(r.tags), ";" + ("\n" + after));
    assert (" " + y)[1..] == y;
    assert WsFree(y) by {
      assert y[0] == r.tags[0][0];
    }
    WsSpace(y);
    TagListReads(r.tags, "\n" + after);
    assert Many1(" " + y, RhsItem) == Many1(y, RhsItem) by {
      RhsSpace(y);
    }
    TagPrefix(";", "\n" + after);
    WsSkip('\n', after);
    WsNone(after);
  }

  /** The padding before the first tag is skipped by the tag item itself. */
  lemma RhsSpace(y: string)
    ensures RhsItem(" " + y) == RhsItem(y)
  {
    WsSkip(' ', y);
    assert Ws(" " + y) == Ws(y);
  }

  /** One printed rule and its line break are read back by `rule.padded()`. */
  lemma RuleReads(r: RawRule, after: string)
    requires PrintableRule(r) && WsFree(after)
    ensures RuleItem((ShowRule(r) + "\n") + after) == Done(after, r)
  {
    RuleHeadReads(r, after);
    RuleTailReads(r, after);
  }

  predicate PrintableFile(rules: seq<RawRule>) {
    |rules| > 0 && forall i :: 0 <= i < |rules| ==> PrintableRule(rules[i])
  }

  lemma ShowRuleStart(r: RawRule)
    requires PrintableRule(r)
    ensures |ShowRule(r)| > 0 && ShowRule(r)[0] == ShowLhs(r.lhs[0])[0] && WsFree(ShowRule(r))
  {
    ConcatStart(LhsParts(r.lhs), "=>" + (" " + (Concat(TagParts(r.tags)) + ";")));
    match r.lhs[0]
    case RawCall(f, a) =>
      assert ShowLhs(r.lhs[0])[0] == f[0];
    case RawEmoji(t) =>
  }

  /** A printed file is read back rule for rule. */
  lemma {:induction false} ParseRawShown(rules: seq<RawRule>)
    requires PrintableFile(rules)
    ensures ParseRaw(ShowRules(rules)) == Success(rules)
  {
    var parts := RuleParts(rules);
    forall i | 0 <= i < |parts|
      ensures RuleItem(parts[i] + After(parts, i, "")) == Done(After(parts, i, ""), rules[i])
    {
      AfterStart(parts, i, "");
      if i + 1 < |parts| {
        ShowRuleStart(rules[i + 1]);
        assert After(parts, i, "")[0] == ShowRule(rules[i + 1])[0];
      }
      RuleReads(rules[i], After(parts, i, ""));
    }
    assert ReadsParts(RuleItem, parts, rules, "");
    assert CallItem("").Fail?;
    assert LhsItem("").Fail?;
    assert RuleItem("").Fail?;
    Many1Exact(RuleItem, parts, rules, "");
    assert ShowRules(rules) == Concat(parts) + "";
  }

  /** Parsing a printed file builds the rules its split tokens stand for. */
  lemma ParseShown(rules: seq<RawRule>, split: string -> seq<Emoji>)
    requires PrintableFile(rules)
    ensures Parse(ShowRules(rules), split) == Build(CookAll(rules, split))
  {
    ParseRawShown(rules);
  }

  /** A file without a rule is rejected. */
  lemma BlankRejected(s: string)
    requires Ws(s) == ""
    ensures ParseRaw(s).Failure?
  {
    assert CallItem("").Fail?;
    assert LhsItem(s).Fail?;
    assert RuleItem(s).Fail?;
  }
}
