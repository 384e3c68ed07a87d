/** `TagSuggestionRules`, the same in both trees once a rule file is parsed:
    each rule's left-hand side lists emojis and string patterns, and each
    pattern that matches a sticker suggests the right-hand side's tags. Only
    the parsers differ (see `RuleFile` and `LegacyRuleFile`). */
module Rules {
  import opened Wrappers
  import opened Strings
  import opened Emojis
  import opened Ordering
  import opened TagSuggestion
  import opened Implied

  /** One pattern of a left-hand side: a function call with a string
      argument, or emojis (one in the current grammar; the older one splits a
      token into several). */
  datatype Lhs = Call(callee: string, arg: string) | EmojiLhs(emojis: seq<Emoji>)

  datatype Rule = Rule(lhs: seq<Lhs>, tags: seq<string>)

  datatype StringRule =
    | AnyStr(pattern: string, tags: seq<string>)
    | Title(pattern: string, tags: seq<string>)
    | TitleSuffix(pattern: string, tags: seq<string>)
    | Name(pattern: string, tags: seq<string>)
    | NameSuffix(pattern: string, tags: seq<string>)

  datatype TagSuggestionRules = TagSuggestionRules(emojiRules: map<Emoji, seq<string>>, stringRules: seq<StringRule>)

  /** Why a rule file is rejected: the grammar stops at `at`, or a call names
      a function that does not exist. */
  datatype RulesError = SyntaxError(at: string) | UnknownFunction(name: string)

  predicate KnownFunction(f: string) {
    f == "any_str" || f == "title" || f == "title_suffix" || f == "name" || f == "name_suffix"
  }

  /** The string rule a call stands for. */
  function StringRuleFor(f: string, arg: string, tags: seq<string>): (r: Option<StringRule>)
    ensures r.Some? <==> KnownFunction(f)
    ensures r.Some? ==> r.value.pattern == arg && r.value.tags == tags
  {
    if f == "any_str" then Some(AnyStr(arg, tags))
    else if f == "title" then Some(Title(arg, tags))
    else if f == "title_suffix" then Some(TitleSuffix(arg, tags))
    else if f == "name" then Some(Name(arg, tags))
    else if f == "name_suffix" then Some(NameSuffix(arg, tags))
    else None
  }

  /** The tags an emoji has so far, none when it has no entry. */
  function Lookup(m: map<Emoji, seq<string>>, e: Emoji): seq<string> {
    if e in m then m[e] else []
  }

  /** `entry(emoji).or_insert_with(Vec::new).extend(tags)` for each emoji. */
  function AddEmojis(m: map<Emoji, seq<string>>, es: seq<Emoji>, tags: seq<string>): (r: map<Emoji, seq<string>>)
    ensures forall e :: e in r <==> e in m || e in es
    ensures forall e :: Lookup(r, e) == Lookup(m, e) + Repeat(tags, Occurrences(e, es))
    decreases |es|
  {
    if |es| == 0 then m
    else
      var m1 := m[es[0] := Lookup(m, es[0]) + tags];
      var r := AddEmojis(m1, es[1..], tags);
      forall e ensures Lookup(r, e) == Lookup(m, e) + Repeat(tags, Occurrences(e, es)) {
        AddEmojisStep(m, es, tags, e);
      }
      assert forall e :: e in es <==> e == es[0] || e in es[1..];
      r
  }

  lemma AddEmojisStep(m: map<Emoji, seq<string>>, es: seq<Emoji>, tags: seq<string>, e: Emoji)
    requires |es| > 0
    ensures Lookup(m[es[0] := Lookup(m, es[0]) + tags], e) + Repeat(tags, Occurrences(e, es[1..]))
         == Lookup(m, e) + Repeat(tags, Occurrences(e, es))
  {
    var k := Occurrences(e, es[1..]);
    LookupUpdate(m, es[0], Lookup(m, es[0]) + tags, e);
    if e == es[0] {
      assert Occurrences(e, es) == k + 1;
      AppendRepeat(Lookup(m, e), tags, k);
    } else {
      assert Occurrences(e, es) == k;
    }
  }

  lemma LookupUpdate(m: map<Emoji, seq<string>>, k: Emoji, v: seq<string>, e: Emoji)
    ensures Lookup(m[k := v], e) == if e == k then v else Lookup(m, e)
  {
  }

  /** How often `e` is listed in `es`. */
  function Occurrences(e: Emoji, es: seq<Emoji>): nat {
    if |es| == 0 then 0 else (if es[0] == e then 1 else 0) + Occurrences(e, es[1..])
  }

  /** `tags` repeated `n` times. */
  function Repeat(tags: seq<string>, n: nat): seq<string> {
    if n == 0 then [] else tags + Repeat(tags, n - 1)
  }

  lemma AppendRepeat(a: seq<string>, tags: seq<string>, k: nat)
    ensures a + tags + Repeat(tags, k) == a + Repeat(tags, k + 1)
  {
    RepeatSucc(tags, k);
    assert a + tags + Repeat(tags, k) == a + (tags + Repeat(tags, k));
  }

  lemma RepeatSucc(tags: seq<string>, n: nat)
    ensures tags + Repeat(tags, n) == Repeat(tags, n + 1)
  {
  }

  const Empty: TagSuggestionRules := TagSuggestionRules(map[], [])

  /** One pattern of a left-hand side added to the rules built so far. */
  function AddLhs(acc: TagSuggestionRules, l: Lhs, tags: seq<string>): (r: Result<TagSuggestionRules, RulesError>)
    ensures r.Failure? <==> l.Call? && !KnownFunction(l.callee)
    ensures r.Failure? ==> r.error == UnknownFunction(l.callee)
    ensures r.Success? ==> r.value.stringRules == acc.stringRules + CallRules([l], tags)
    ensures r.Success? ==> forall e :: Lookup(r.value.emojiRules, e) == Lookup(acc.emojiRules, e) + EmojiTagsIn([l], tags, e)
    ensures r.Success? ==> forall e :: e in r.value.emojiRules <==> e in acc.emojiRules || MentionedIn([l], e)
  {
    match l
    case EmojiLhs(es) =>
      assert forall e :: MentionedIn([l], e) <==> e in es by {
        forall e ensures MentionedIn([l], e) <==> e in es {
          if e in es { assert [l][0] == l; }
        }
      }
      Success(acc.(emojiRules := AddEmojis(acc.emojiRules, es, tags)))
    case Call(f, a) =>
      match StringRuleFor(f, a, tags)
      case None => Failure(UnknownFunction(f))
      case Some(sr) => Success(acc.(stringRules := acc.stringRules + [sr]))
  }

  /** The per-pattern definitions split at the first pattern. */
  lemma LhsSplit(ls: seq<Lhs>, tags: seq<string>)
    requires |ls| > 0
    ensures CallRules(ls, tags) == CallRules([ls[0]], tags) + CallRules(ls[1..], tags)
    ensures forall e :: EmojiTagsIn(ls, tags, e) == EmojiTagsIn([ls[0]], tags, e) + EmojiTagsIn(ls[1..], tags, e)
    ensures forall e :: MentionedIn(ls, e) <==> MentionedIn([ls[0]], e) || MentionedIn(ls[1..], e)
    ensures (exists i :: 0 <= i < |ls| && ls[i].Call? && !KnownFunction(ls[i].callee)) <==>
      (ls[0].Call? && !KnownFunction(ls[0].callee)) ||
      (exists i :: 0 <= i < |ls[1..]| && ls[1..][i].Call? && !KnownFunction(ls[1..][i].callee))
  {
    assert [ls[0]][1..] == [];
    forall e ensures MentionedIn(ls, e) <==> MentionedIn([ls[0]], e) || MentionedIn(ls[1..], e) {
      if MentionedIn(ls, e) {
        var i :| 0 <= i < |ls| && ls[i].EmojiLhs? && e in ls[i].emojis;
        if i == 0 { assert [ls[0]][0] == ls[i]; } else { assert ls[1..][i - 1] == ls[i]; }
      }
      if MentionedIn([ls[0]], e) {
        assert [ls[0]][0] == ls[0];
      }
      if MentionedIn(ls[1..], e) {
        var i :| 0 <= i < |ls[1..]| && ls[1..][i].EmojiLhs? && e in ls[1..][i].emojis;
        assert ls[i + 1] == ls[1..][i];
      }
    }
    if exists i :: 0 <= i < |ls| && ls[i].Call? && !KnownFunction(ls[i].callee) {
      var i :| 0 <= i < |ls| && ls[i].Call? && !KnownFunction(ls[i].callee);
      if i > 0 { assert ls[1..][i - 1] == ls[i]; }
    }
    if exists i :: 0 <= i < |ls[1..]| && ls[1..][i].Call? && !KnownFunction(ls[1..][i].callee) {
      var i :| 0 <= i < |ls[1..]| && ls[1..][i].Call? && !KnownFunction(ls[1..][i].callee);
      assert ls[i + 1] == ls[1..][i];
    }
  }

  /** The loop over one rule's left-hand side, left to right. */
  function AddLhsList(acc: TagSuggestionRules, ls: seq<Lhs>, tags: seq<string>): (r: Result<TagSuggestionRules, RulesError>)
    ensures r.Failure? <==> exists i :: 0 <= i < |ls| && ls[i].Call? && !KnownFunction(ls[i].callee)
    ensures r.Failure? ==> r.error.UnknownFunction? && !KnownFunction(r.error.name)
    ensures r.Success? ==> r.value.stringRules == acc.stringRules + CallRules(ls, tags)
    ensures r.Success? ==> forall e :: Lookup(r.value.emojiRules, e) == Lookup(acc.emojiRules, e) + EmojiTagsIn(ls, tags, e)
    ensures r.Success? ==> forall e :: e in r.value.emojiRules <==> e in acc.emojiRules || MentionedIn(ls, e)
    decreases |ls|
  {
    if |ls| == 0 then Success(acc)
    else
      var next := AddLhs(acc, ls[0], tags);
      LhsSplit(ls, tags);
      if next.Failure? then next
      else AddLhsList(next.value, ls[1..], tags)
  }

  /** The string rules the calls of one left-hand side stand for, in order. */
  function CallRules(ls: seq<Lhs>, tags: seq<string>): seq<StringRule> {
    if |ls| == 0 then []
    else
      var head := match ls[0]
        case Call(f, a) => (match StringRuleFor(f, a, tags) case Some(sr) => [sr] case None => [])
        case EmojiLhs(_) => [];
      head + CallRules(ls[1..], tags)
  }

  /** The tags a left-hand side gives `e`: `tags` once per mention. */
  function EmojiTagsIn(ls: seq<Lhs>, tags: seq<string>, e: Emoji): seq<string> {
    if |ls| == 0 then []
    else
      var head := match ls[0] case EmojiLhs(es) => Repeat(tags, Occurrences(e, es)) case Call(_, _) => [];
      head + EmojiTagsIn(ls[1..], tags, e)
  }

  predicate MentionedIn(ls: seq<Lhs>, e: Emoji) {
    exists i :: 0 <= i < |ls| && ls[i].EmojiLhs? && e in ls[i].emojis
  }

  /** The loop over the rules of a file, left to right. */
  function BuildFrom(acc: TagSuggestionRules, rules: seq<Rule>): (r: Result<TagSuggestionRules, RulesError>)
    ensures r.Failure? <==> !AllKnown(rules)
    ensures r.Failure? ==> r.error.UnknownFunction? && !KnownFunction(r.error.name)
    ensures r.Success? ==> r.value.stringRules == acc.stringRules + AllStringRules(rules)
    ensures r.Success? ==> forall e :: Lookup(r.value.emojiRules, e) == Lookup(acc.emojiRules, e) + AllEmojiTags(rules, e)
    decreases |rules|
  {
    if |rules| == 0 then Success(acc)
    else
      var next := AddLhsList(acc, rules[0].lhs, rules[0].tags);
      if next.Failure? then next
      else
        var r := BuildFrom(next.value, rules[1..]);
        assert forall i :: 1 <= i < |rules| ==> rules[i] == rules[1..][i - 1];
        r
  }

  /** Every call of every rule names a known function. */
  predicate AllKnown(rules: seq<Rule>) {
    forall i, j :: 0 <= i < |rules| && 0 <= j < |rules[i].lhs| && rules[i].lhs[j].Call? ==>
      KnownFunction(rules[i].lhs[j].callee)
  }

  /** Reference: the string rules of a file, rule by rule. */
  function AllStringRules(rules: seq<Rule>): seq<StringRule> {
    if |rules| == 0 then [] else CallRules(rules[0].lhs, rules[0].tags) + AllStringRules(rules[1..])
  }

  /** Reference: the tags a file gives an emoji, rule by rule. */
  function AllEmojiTags(rules: seq<Rule>, e: Emoji): seq<string> {
    if |rules| == 0 then [] else EmojiTagsIn(rules[0].lhs, rules[0].tags, e) + AllEmojiTags(rules[1..], e)
  }

  /** The loop of `TagSuggestionRules::parse` after the grammar: an unknown
      function is an error, otherwise every emoji collects the tags of every
      rule that lists it, and every call becomes a string rule, in file
      order. */
  function Build(rules: seq<Rule>): (r: Result<TagSuggestionRules, RulesError>)
    ensures r.Failure? <==> !AllKnown(rules)
    ensures r.Success? ==> r.value.stringRules == AllStringRules(rules)
    ensures r.Success? ==> forall e :: Lookup(r.value.emojiRules, e) == AllEmojiTags(rules, e)
  {
    BuildFrom(Empty, rules)
  }

  /** Whether a string rule applies to a set with this title and name;
      `any_str` looks at the lower-cased `"{name} {title}"`, the others at the
      title or the name as they are. */
  predicate Matches(rule: StringRule, title: string, name: string) {
    match rule
    case AnyStr(p, _) => Contains(AsciiLower(name + " " + title), p)
    case Title(p, _) => Contains(title, p)
    case TitleSuffix(p, _) => EndsWith(title, p)
    case Name(p, _) => Contains(name, p)
    case NameSuffix(p, _) => EndsWith(name, p)
  }

  /** `apply_string_rules`: the tags of every matching rule, in rule order. */
  function ApplyStringRules(rules: seq<StringRule>, title: string, name: string): (r: seq<string>)
    ensures forall t :: t in r <==> exists i :: 0 <= i < |rules| && Matches(rules[i], title, name) && t in rules[i].tags
  {
    if |rules| == 0 then []
    else
      var rest := ApplyStringRules(rules[1..], title, name);
      assert forall i :: 1 <= i < |rules| ==> rules[i] == rules[1..][i - 1];
      (if Matches(rules[0], title, name) then rules[0].tags else []) + rest
  }

  /** The emoji half of `suggest_tags`: each sticker emoji's rule tags. */
  function EmojiRuleTags(rs: TagSuggestionRules, emojis: seq<Emoji>): (r: seq<string>)
    ensures forall t :: t in r <==> exists i :: 0 <= i < |emojis| && t in Lookup(rs.emojiRules, emojis[i])
  {
    if |emojis| == 0 then []
    else
      var rest := EmojiRuleTags(rs, emojis[1..]);
      assert forall i :: 1 <= i < |emojis| ==> emojis[i] == emojis[1..][i - 1];
      Lookup(rs.emojiRules, emojis[0]) + rest
  }

  /** `compute_score_for_suggestion_count`. */
  function SuggestionScore(count: nat): real {
    if count == 1 then 0.5
    else if count == 2 then 0.6
    else if count == 3 then 0.7
    else if count == 4 then 0.8
    else 0.9
  }

  /** More hits never score less, and five or more all score 0.9. */
  lemma SuggestionScoreGrows(a: nat, b: nat)
    requires 1 <= a <= b
    ensures 0.5 <= SuggestionScore(a) <= SuggestionScore(b) <= 0.9
    ensures a < b <= 5 ==> SuggestionScore(a) < SuggestionScore(b)
  {
  }

  /** All tags `suggest_tags` groups: the emoji tags, then the string-rule tags. */
  function Hits(rs: TagSuggestionRules, emojis: seq<Emoji>, title: string, name: string): seq<string> {
    EmojiRuleTags(rs, emojis) + ApplyStringRules(rs.stringRules, title, name)
  }

  /** `suggest_tags`: one suggestion per distinct hit, in ascending tag
      order (no sort by score here), scored by how often the tag was hit. */
  function SuggestTags(rs: TagSuggestionRules, emojis: seq<Emoji>, title: string, name: string): (r: seq<ScoredTagSuggestion>)
    ensures StrictlySorted(TagsOf(r))
    ensures forall t :: t in TagsOf(r) <==> t in Hits(rs, emojis, title, name)
    ensures forall i :: 0 <= i < |r| ==>
      r[i].score == SuggestionScore(Count(r[i].tag, Hits(rs, emojis, title, name)))
      && Count(r[i].tag, Hits(rs, emojis, title, name)) >= 1
  {
    var all := Hits(rs, emojis, title, name);
    var ts := SortDedup(all);
    var r := Counted(ts, all, SuggestionScore);
    assert TagsOf(r) == ts;
    forall i | 0 <= i < |r| ensures Count(r[i].tag, all) >= 1 {
      assert ts[i] in all;
    }
    r
  }

  /** The string rules of the test's rule file that the samples below
      exercise: `any_str("friends") title(" and ") title(" & ") => duo`,
      `name_suffix("NL") name_suffix("NaL") => nowandlater`,
      `any_str("nsfw") => questionable explicit`. The emoji line's
      `any_str("paws") => foot_focus` is not kept; no sample name or title
      contains `paws`. */
  function SampleStringRules(): seq<StringRule> {
    [ AnyStr("friends", ["duo"]), Title(" and ", ["duo"]), Title(" & ", ["duo"]),
      NameSuffix("NL", ["nowandlater"]), NameSuffix("NaL", ["nowandlater"]),
      AnyStr("nsfw", ["questionable", "explicit"]) ]
  }

  /** A set named `FoxByNaL` is suggested `nowandlater`, by its name suffix. */
  lemma NameSuffixSample(title: string)
    requires !Contains(AsciiLower("FoxByNaL" + " " + title), "friends")
    requires !Contains(AsciiLower("FoxByNaL" + " " + title), "nsfw")
    requires !Contains(title, " and ") && !Contains(title, " & ")
    ensures ApplyStringRules(SampleStringRules(), title, "FoxByNaL") == ["nowandlater"]
  {
    var rs := SampleStringRules();
    assert !EndsWith("FoxByNaL", "NL") by {
      assert "FoxByNaL"[6..] == "aL";
    }
    assert EndsWith("FoxByNaL", "NaL") by {
      assert "FoxByNaL"[5..] == "NaL";
    }
    var name := "FoxByNaL";
    assert !Matches(rs[5], title, name);
    assert ApplyStringRules(rs[5..], title, name) == [] by {
      assert rs[5..][1..] == [];
    }
    assert Matches(rs[4], title, name);
    assert rs[4..][1..] == rs[5..];
    assert ApplyStringRules(rs[4..], title, name) == ["nowandlater"];
    assert !Matches(rs[3], title, name);
    assert rs[3..][1..] == rs[4..];
    assert ApplyStringRules(rs[3..], title, name) == ["nowandlater"];
    assert rs[2..][1..] == rs[3..];
    assert ApplyStringRules(rs[2..], title, name) == ["nowandlater"];
    assert rs[1..][1..] == rs[2..];
    assert ApplyStringRules(rs[1..], title, name) == ["nowandlater"];
  }

  /** The rules of `SampleStringRules` from the last one up: `rs[k..]`
      applied, with the result of `rs[k + 1..]` known. */
  lemma ApplyStep(rs: seq<StringRule>, k: nat, title: string, name: string, tail: seq<string>)
    requires k < |rs| && ApplyStringRules(rs[k + 1..], title, name) == tail
    ensures ApplyStringRules(rs[k..], title, name) == (if Matches(rs[k], title, name) then rs[k].tags else []) + tail
  {
    assert rs[k..][1..] == rs[k + 1..];
  }

  /** "Fox and Friends" by `foxfriends` is suggested `duo`, by the
      `friends` in either string and by the ` and ` in the title. */
  lemma FriendsSample(title: string, name: string)
    requires title == "Fox and Friends" && name == "foxfriends"
    ensures ApplyStringRules(SampleStringRules(), title, name) == ["duo", "duo"]
  {
    var rs := SampleStringRules();
    FriendsHits(title, name);
    FriendsMisses(title, name);
    assert rs[6..] == [];
    ApplyStep(rs, 5, title, name, []);
    ApplyStep(rs, 4, title, name, []);
    ApplyStep(rs, 3, title, name, []);
    ApplyStep(rs, 2, title, name, []);
    ApplyStep(rs, 1, title, name, []);
    ApplyStep(rs, 0, title, name, ["duo"]);
    assert rs[0..] == rs;
  }

  lemma FriendsHits(title: string, name: string)
    requires title == "Fox and Friends" && name == "foxfriends"
    ensures var rs := SampleStringRules(); Matches(rs[0], title, name) && Matches(rs[1], title, name)
  {
    FriendsInBoth(name + " " + title);
    ContainsAt(title, " and ", 3);
  }

  lemma FriendsInBoth(s: string)
    requires s == "foxfriends" + " " + "Fox and Friends"
    ensures Contains(AsciiLower(s), "friends")
  {
    FriendsLowered();
    ContainsWitness(AsciiLower(s), "friends", 3);
  }

  lemma FriendsMisses(title: string, name: string)
    requires title == "Fox and Friends" && name == "foxfriends"
    ensures var rs := SampleStringRules();
            !Matches(rs[2], title, name) && !Matches(rs[3], title, name) &&
            !Matches(rs[4], title, name) && !Matches(rs[5], title, name)
  {
    var both := AsciiLower(name + " " + title);
    FriendsLowered();
    if Contains(both, "nsfw") { ContainsChar(both, "nsfw", 'w'); }
    assert name[7..] == "nds" && name[8..] == "ds";
    assert '&' !in title;
    if Contains(title, " & ") { ContainsChar(title, " & ", '&'); }
  }

  /** A set titled and named `FoxNsfw` is suggested `questionable` and
      `explicit`, by the `nsfw` in its lower-cased name and title. */
  lemma NsfwSample(title: string, name: string)
    requires title == "FoxNsfw" && name == "FoxNsfw"
    ensures ApplyStringRules(SampleStringRules(), title, name) == ["questionable", "explicit"]
  {
    var rs := SampleStringRules();
    var both := AsciiLower(name + " " + title);
    NsfwLowered();
    assert rs[6..] == [];
    assert Matches(rs[5], title, name) by {
      ContainsWitness(both, "nsfw", 3);
    }
    ApplyStep(rs, 5, title, name, []);
    var t := ["questionable", "explicit"];
    assert !EndsWith(name, "NaL") by { assert name[4..] == "sfw"; }
    ApplyStep(rs, 4, title, name, t);
    assert !EndsWith(name, "NL") by { assert name[5..] == "fw"; }
    ApplyStep(rs, 3, title, name, t);
    assert ' ' !in title;
    assert !Matches(rs[2], title, name) by {
      if Contains(title, " & ") { ContainsChar(title, " & ", ' '); }
    }
    ApplyStep(rs, 2, title, name, t);
    assert !Matches(rs[1], title, name) by {
      if Contains(title, " and ") { ContainsChar(title, " and ", ' '); }
    }
    ApplyStep(rs, 1, title, name, t);
    assert !Matches(rs[0], title, name) by {
      if Contains(both, "friends") { ContainsChar(both, "friends", 'r'); }
    }
    ApplyStep(rs, 0, title, name, t);
    assert rs[0..] == rs;
  }

  /** A lower-case letter occurs in the lower-cased text only where it or
      its capital occurs in the text. */
  lemma NotInLower(s: string, c: char, upper: char)
    requires c !in s && upper !in s
    requires forall x :: AsciiLowerChar(x) == c ==> x == c || x == upper
    ensures c !in AsciiLower(s)
  {
    forall i | 0 <= i < |s| ensures AsciiLower(s)[i] != c {
      assert s[i] in s;
    }
  }

  lemma FriendsLowered()
    ensures var both := AsciiLower("foxfriends" + " " + "Fox and Friends");
            'w' !in both && |both| == 26 && both[3..10] == "friends"
  {
    var s := "foxfriends" + " " + "Fox and Friends";
    NotInLower(s, 'w', 'W');
    var both := AsciiLower(s);
    assert both[3] == 'f' && both[4] == 'r' && both[5] == 'i' && both[6] == 'e';
    assert both[7] == 'n' && both[8] == 'd' && both[9] == 's';
    assert both[3..10] == "friends";
  }

  lemma NsfwLowered()
    ensures var both := AsciiLower("FoxNsfw" + " " + "FoxNsfw");
            'r' !in both && |both| == 15 && both[3..7] == "nsfw"
  {
    var s := "FoxNsfw" + " " + "FoxNsfw";
    NotInLower(s, 'r', 'R');
    var both := AsciiLower(s);
    assert both[3] == 'n' && both[4] == 's' && both[5] == 'f' && both[6] == 'w';
    assert both[3..7] == "nsfw";
  }

  /** `sub` occurs in `s` at `i`, character by character. */
  lemma ContainsAt(s: string, sub: string, i: nat)
    requires i + |sub| <= |s| && forall k :: 0 <= k < |sub| ==> s[i + k] == sub[k]
    ensures Contains(s, sub)
  {
    assert s[i..i + |sub|] == sub;
    ContainsWitness(s, sub, i);
  }
}
