/** The tag-list grammars of the inline-query text: a list of literals
    separated by runs of separator characters (nom's `separated_list0`, which
    gives back a trailing separator that is not followed by another item),
    and comma-separated groups of such lists. */
module TagLists {
  import opened Strings
  import opened Nom
  import opened Literals

  /** `separated_list0(take_while1(sep), literal(p))`: the words read and the
      unconsumed rest. */
  function SeparatedWords(s: string, sep: char -> bool, p: char -> bool): (r: (seq<string>, string))
    ensures |r.1| <= |s|
    ensures forall i :: 0 <= i < |r.0| ==> IsWord(r.0[i], p)
    ensures |r.0| == 0 <==> Literal(s, p).Fail?
  {
    match Literal(s, p)
    case Fail(_) => ([], s)
    case Done(r1, w) =>
      var t := MoreWords(r1, sep, p);
      ([w] + t.0, t.1)
  }

  /** The loop of `separated_list0`: a separator run and a word, as long as
      both are there; otherwise the input before the separator is kept. */
  function MoreWords(s: string, sep: char -> bool, p: char -> bool): (r: (seq<string>, string))
    ensures |r.1| <= |s|
    ensures forall i :: 0 <= i < |r.0| ==> IsWord(r.0[i], p)
    decreases |s|
  {
    var n := SpanLen(s, sep);
    if n == 0 then ([], s)
    else
      var l := Literal(s[n..], p);
      if l.Fail? then ([], s)
      else
        assert s[n..] == l.value + l.rest;
        var t := MoreWords(l.rest, sep, p);
        ([l.value] + t.0, t.1)
  }

  /** No further item can be read after `rest`: either no separator follows,
      or what follows the separator run is not a word. */
  predicate NoMoreWords(rest: string, sep: char -> bool, p: char -> bool) {
    var n := SpanLen(rest, sep);
    n == 0 || n == |rest| || !p(rest[n])
  }

  /** No character is both a separator and a word character. */
  predicate Disjoint(sep: char -> bool, p: char -> bool) {
    forall c :: p(c) ==> !sep(c)
  }

  lemma NoMoreWordsStops(rest: string, sep: char -> bool, p: char -> bool)
    requires NoMoreWords(rest, sep, p)
    ensures MoreWords(rest, sep, p) == ([], rest)
  {
  }

  /** One separator and one word are consumed by a step of the loop. */
  lemma MoreWordsStep(w: string, tail: string, sep: char -> bool, p: char -> bool)
    requires IsWord(w, p) && sep(' ') && !sep(w[0]) && Stops(tail, p)
    ensures MoreWords(" " + (w + tail), sep, p) == ([w] + MoreWords(tail, sep, p).0, MoreWords(tail, sep, p).1)
  {
    var s := " " + (w + tail);
    assert (w + tail)[0] == w[0];
    SpanOne(w + tail, sep);
    assert s[1..] == w + tail;
    LiteralExact(w, tail, p);
  }

  /** The first word is read by the head of `separated_list0`. */
  lemma SeparatedWordsStep(w: string, tail: string, sep: char -> bool, p: char -> bool)
    requires IsWord(w, p) && Stops(tail, p)
    ensures SeparatedWords(w + tail, sep, p) == ([w] + MoreWords(tail, sep, p).0, MoreWords(tail, sep, p).1)
  {
    LiteralExact(w, tail, p);
  }

  lemma Assoc3(a: string, b: string, c: string)
    ensures a + b + c == a + (b + c)
  {
  }

  lemma Assoc4(a: string, b: string, c: string, d: string)
    ensures a + b + c + d == a + (b + (c + d))
  {
  }

  /** `Join` peels off its first part. */
  lemma JoinCons(ws: seq<string>, rest: string)
    requires |ws| > 1
    ensures Join(ws, " ") + rest == ws[0] + (" " + (Join(ws[1..], " ") + rest))
  {
    assert Join(ws, " ") == ws[0] + " " + Join(ws[1..], " ");
    Assoc4(ws[0], " ", Join(ws[1..], " "), rest);
  }

  /** Words joined by single spaces, after a leading space and followed by a
      rest that ends the list, are read back exactly. */
  lemma {:induction false} MoreWordsExact(ws: seq<string>, sep: char -> bool, p: char -> bool, rest: string)
    requires forall i :: 0 <= i < |ws| ==> IsWord(ws[i], p)
    requires sep(' ') && !p(' ') && Disjoint(sep, p)
    requires Stops(rest, p) && NoMoreWords(rest, sep, p)
    ensures |ws| > 0 ==> MoreWords(" " + (Join(ws, " ") + rest), sep, p) == (ws, rest)
    decreases |ws|
  {
    if |ws| == 1 {
      assert Join(ws, " ") == ws[0];
      NoMoreWordsStops(rest, sep, p);
      MoreWordsStep(ws[0], rest, sep, p);
      assert [ws[0]] + [] == ws;
    } else if |ws| > 1 {
      MoreWordsExact(ws[1..], sep, p, rest);
      JoinCons(ws, rest);
      MoreWordsCons(" " + (Join(ws[1..], " ") + rest), ws, rest, sep, p);
    }
  }

  /** A step of the loop reading `ws[0]` in front of a tail that is read as
      `(ws[1..], rest)`. */
  lemma MoreWordsCons(tail: string, ws: seq<string>, rest: string, sep: char -> bool, p: char -> bool)
    requires |ws| > 0 && IsWord(ws[0], p) && sep(' ') && !p(' ') && Disjoint(sep, p)
    requires |tail| > 0 && tail[0] == ' '
    requires MoreWords(tail, sep, p) == (ws[1..], rest)
    ensures MoreWords(" " + (ws[0] + tail), sep, p) == (ws, rest)
  {
    MoreWordsStep(ws[0], tail, sep, p);
    HeadTail(ws);
  }

  /** The head of `separated_list0` reading `ws[0]` in front of a tail that
      the loop reads as `(ws[1..], rest)`. */
  lemma SeparatedWordsCons(tail: string, ws: seq<string>, rest: string, sep: char -> bool, p: char -> bool)
    requires |ws| > 0 && IsWord(ws[0], p) && !p(' ')
    requires |tail| > 0 && tail[0] == ' '
    requires MoreWords(tail, sep, p) == (ws[1..], rest)
    ensures SeparatedWords(ws[0] + tail, sep, p) == (ws, rest)
  {
    SeparatedWordsStep(ws[0], tail, sep, p);
    HeadTail(ws);
  }

  /** A single separator before a non-separator is a run of length one. */
  lemma SpanOne(x: string, sep: char -> bool)
    requires sep(' ') && (|x| == 0 || !sep(x[0]))
    ensures SpanLen(" " + x, sep) == 1
  {
    assert (" " + x)[1..] == x;
  }

  /** Words joined by single spaces, followed by a rest that ends the list,
      are read back exactly. */
  lemma WordsExact(ws: seq<string>, sep: char -> bool, p: char -> bool, rest: string)
    requires |ws| > 0 && forall i :: 0 <= i < |ws| ==> IsWord(ws[i], p)
    requires sep(' ') && !p(' ') && Disjoint(sep, p)
    requires Stops(rest, p) && NoMoreWords(rest, sep, p)
    ensures SeparatedWords(Join(ws, " ") + rest, sep, p) == (ws, rest)
  {
    if |ws| == 1 {
      OneWordExact(ws, sep, p, rest);
    } else {
      ManyWordsExact(ws, sep, p, rest);
    }
  }

  lemma ManyWordsExact(ws: seq<string>, sep: char -> bool, p: char -> bool, rest: string)
    requires |ws| > 1 && forall i :: 0 <= i < |ws| ==> IsWord(ws[i], p)
    requires sep(' ') && !p(' ') && Disjoint(sep, p)
    requires Stops(rest, p) && NoMoreWords(rest, sep, p)
    ensures SeparatedWords(Join(ws, " ") + rest, sep, p) == (ws, rest)
  {
    MoreWordsExact(ws[1..], sep, p, rest);
    JoinCons(ws, rest);
    SeparatedWordsCons(" " + (Join(ws[1..], " ") + rest), ws, rest, sep, p);
  }

  lemma OneWordExact(ws: seq<string>, sep: char -> bool, p: char -> bool, rest: string)
    requires |ws| == 1 && IsWord(ws[0], p)
    requires Stops(rest, p) && NoMoreWords(rest, sep, p)
    ensures SeparatedWords(Join(ws, " ") + rest, sep, p) == (ws, rest)
  {
    assert Join(ws, " ") == ws[0];
    NoMoreWordsStops(rest, sep, p);
    SeparatedWordsStep(ws[0], rest, sep, p);
    assert [ws[0]] + [] == ws;
  }

  // ------------------------------------------------------- current tag lists

  /** `multispace0` */
  function Ms0(s: string): (r: string)
    ensures |r| <= |s| && (|r| == 0 || !IsMultispace(r[0]))
  {
    TakeWhile(s, IsMultispace)
  }

  /** Leading white space is skipped in one go. */
  lemma Ms0Space(x: string)
    ensures Ms0(" " + x) == Ms0(x)
  {
    assert (" " + x)[1..] == x;
  }

  lemma Ms0None(x: string)
    requires |x| == 0 || !IsMultispace(x[0])
    ensures Ms0(x) == x
  {
  }

  lemma TagCharsAreNotSpace()
    ensures Disjoint(IsMultispace, IsTagChar) && !IsTagChar(' ') && IsMultispace(' ')
  {
    forall c | IsMultispace(c) ensures !IsTagChar(c) {
      assert forall i :: 0 <= i < |"_-()/<>!?':.^"| ==> "_-()/<>!?':.^"[i] != c;
    }
    assert forall i :: 0 <= i < |"_-()/<>!?':.^"| ==> "_-()/<>!?':.^"[i] != ' ';
  }

  /** `parse_tags`: white space, space-separated tags, white space. */
  function ParseTags(s: string): (r: (seq<string>, string))
    ensures |r.1| <= |s|
    ensures forall i :: 0 <= i < |r.0| ==> IsTag(r.0[i])
  {
    var t := SeparatedWords(Ms0(s), IsMultispace, IsTagChar);
    (t.0, Ms0(t.1))
  }

  /** `separated_list0(tag(","), parse_tags)`: `parse_tags` never fails, so
      every comma starts another group. */
  function Groups(s: string): (r: (seq<seq<string>>, string))
    ensures |r.1| <= |s| && |r.0| > 0
    ensures forall i, j :: 0 <= i < |r.0| && 0 <= j < |r.0[i]| ==> IsTag(r.0[i][j])
    decreases |s|
  {
    var t := ParseTags(s);
    if "," <= t.1 then
      assert |t.1[1..]| < |s|;
      var u := Groups(t.1[1..]);
      ConsTags(t.0, u.0);
      ([t.0] + u.0, u.1)
    else ([t.0], t.1)
  }

  lemma ConsTags(g: seq<string>, gs: seq<seq<string>>)
    requires forall j :: 0 <= j < |g| ==> IsTag(g[j])
    requires forall i, j :: 0 <= i < |gs| && 0 <= j < |gs[i]| ==> IsTag(gs[i][j])
    ensures forall i, j :: 0 <= i < |[g] + gs| && 0 <= j < |([g] + gs)[i]| ==> IsTag(([g] + gs)[i][j])
  {
  }

  /** The groups that are not empty, in order. */
  function NonEmpty(gs: seq<seq<string>>): (r: seq<seq<string>>)
    ensures |r| <= |gs|
    ensures forall i :: 0 <= i < |r| ==> |r[i]| > 0
    ensures forall i :: 0 <= i < |r| ==> r[i] in gs
  {
    if |gs| == 0 then []
    else if |gs[0]| == 0 then NonEmpty(gs[1..])
    else [gs[0]] + NonEmpty(gs[1..])
  }

  /** `parse_comma_separated_tags`: white space, groups, white space; empty
      groups are dropped. */
  function CommaSeparatedTags(s: string): (r: (seq<seq<string>>, string))
    ensures |r.1| <= |s|
    ensures forall i :: 0 <= i < |r.0| ==> |r.0[i]| > 0
  {
    var t := Groups(Ms0(s));
    (NonEmpty(t.0), Ms0(t.1))
  }

  /** The printed form of groups: tags joined by spaces, groups by `, `. */
  function ShowGroups(gs: seq<seq<string>>): string
    decreases |gs|
  {
    if |gs| == 0 then ""
    else if |gs| == 1 then Join(gs[0], " ")
    else Join(gs[0], " ") + ", " + ShowGroups(gs[1..])
  }

  /** Groups of well-formed tags, none empty. */
  predicate TagGroups(gs: seq<seq<string>>) {
    forall i :: 0 <= i < |gs| ==> |gs[i]| > 0 && forall j :: 0 <= j < |gs[i]| ==> IsTag(gs[i][j])
  }

  lemma NonEmptyKeeps(gs: seq<seq<string>>)
    requires forall i :: 0 <= i < |gs| ==> |gs[i]| > 0
    ensures NonEmpty(gs) == gs
  {
  }

  /** One group, followed by text that ends its tag list, is read by
      `parse_tags`. */
  lemma ParseTagsExact(g: seq<string>, rest: string)
    requires |g| > 0 && forall j :: 0 <= j < |g| ==> IsTag(g[j])
    requires Stops(rest, IsTagChar) && NoMoreWords(rest, IsMultispace, IsTagChar)
    requires |rest| == 0 || !IsMultispace(rest[0])
    ensures ParseTags(Join(g, " ") + rest) == (g, rest)
  {
    TagCharsAreNotSpace();
    var s := Join(g, " ") + rest;
    JoinStartsWithWord(g, rest);
    Ms0None(s);
    WordsExact(g, IsMultispace, IsTagChar, rest);
    Ms0None(rest);
  }

  lemma JoinStartsWithWord(g: seq<string>, rest: string)
    requires |g| > 0 && forall j :: 0 <= j < |g| ==> IsTag(g[j])
    ensures |Join(g, " ") + rest| > 0 && IsTagChar((Join(g, " ") + rest)[0])
  {
    TagCharsAreNotSpace();
    if |g| > 1 {
      assert Join(g, " ") == g[0] + " " + Join(g[1..], " ");
    }
    assert (Join(g, " ") + rest)[0] == g[0][0];
  }

  lemma CommaEndsTag()
    ensures !IsTagChar(',') && !IsMultispace(',')
  {
    assert forall i :: 0 <= i < |"_-()/<>!?':.^"| ==> "_-()/<>!?':.^"[i] != ',';
  }

  /** A group followed by `, ` is read, and reading resumes after the comma. */
  lemma GroupsStep(gs: seq<seq<string>>, more: string)
    requires |gs| > 0 && |gs[0]| > 0 && forall j :: 0 <= j < |gs[0]| ==> IsTag(gs[0][j])
    requires Groups(more) == (gs[1..], "")
    ensures Groups(Join(gs[0], " ") + (", " + more)) == (gs, "")
  {
    var g := gs[0];
    var rest := ", " + more;
    CommaEndsTag();
    assert rest[0] == ',';
    assert SpanLen(rest, IsMultispace) == 0;
    ParseTagsExact(g, rest);
    GroupsAfterParse(Join(g, " ") + rest, gs, more);
  }

  /** Text whose tag list is `g`, followed by `, `, continues as `more`. */
  lemma GroupsAfterParse(s: string, gs: seq<seq<string>>, more: string)
    requires |gs| > 0 && ParseTags(s) == (gs[0], ", " + more)
    requires Groups(more) == (gs[1..], "")
    ensures Groups(s) == (gs, "")
  {
    assert "," <= ", " + more;
    TailOfConcat(", ", more);
    assert ", "[1..] == " ";
    GroupsSpace(more);
    HeadTail(gs);
  }

  lemma GroupsLast(g: seq<string>)
    requires |g| > 0 && forall j :: 0 <= j < |g| ==> IsTag(g[j])
    ensures Groups(Join(g, " ")) == ([g], "")
  {
    assert Join(g, " ") + "" == Join(g, " ");
    ParseTagsExact(g, "");
  }

  /** Printed groups are read back, group for group. */
  lemma {:induction false} GroupsExact(gs: seq<seq<string>>)
    requires |gs| > 0 && TagGroups(gs)
    ensures Groups(ShowGroups(gs)) == (gs, "")
    decreases |gs|
  {
    if |gs| == 1 {
      GroupsLast(gs[0]);
      assert [gs[0]] == gs;
    } else {
      var more := ShowGroups(gs[1..]);
      Assoc3(Join(gs[0], " "), ", ", more);
      GroupsExact(gs[1..]);
      GroupsStep(gs, more);
    }
  }

  lemma GroupsSpace(x: string)
    ensures Groups(" " + x) == Groups(x)
  {
    Ms0Space(x);
  }

  /** `parse_comma_separated_tags` reads back what the `Display`s print after
      a mode prefix: a space, then the groups. */
  lemma CommaSeparatedTagsExact(gs: seq<seq<string>>)
    requires TagGroups(gs)
    ensures CommaSeparatedTags(" " + ShowGroups(gs)) == (gs, "")
  {
    Ms0Space(ShowGroups(gs));
    if |gs| == 0 {
      NoGroupsExact();
    } else {
      GroupsStart(gs);
      GroupsExact(gs);
      NonEmptyKeeps(gs);
    }
  }

  lemma NoGroupsExact()
    ensures CommaSeparatedTags("") == ([], "")
  {
    assert Ms0("") == "";
    assert Groups("") == ([[]], "");
  }

  /** Printed groups start with a tag character, which no white space
      precedes. */
  lemma GroupsStart(gs: seq<seq<string>>)
    requires |gs| > 0 && TagGroups(gs)
    ensures Ms0(ShowGroups(gs)) == ShowGroups(gs)
  {
    var rest := if |gs| == 1 then "" else ", " + ShowGroups(gs[1..]);
    if |gs| > 1 {
      Assoc3(Join(gs[0], " "), ", ", ShowGroups(gs[1..]));
    }
    assert ShowGroups(gs) == Join(gs[0], " ") + rest;
    JoinStartsWithWord(gs[0], rest);
    TagCharsAreNotSpace();
    Ms0None(ShowGroups(gs));
  }
}
