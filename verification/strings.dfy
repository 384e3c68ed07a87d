/** Character classes and the string operations of Rust's `str` and
    JavaScript's `String` that the bot relies on, over `seq<char>`. */
module Strings {

  predicate IsAsciiDigit(c: char) { '0' <= c <= '9' }
  predicate IsAsciiUpper(c: char) { 'A' <= c <= 'Z' }
  predicate IsAsciiLower(c: char) { 'a' <= c <= 'z' }
  predicate IsAsciiAlpha(c: char) { IsAsciiUpper(c) || IsAsciiLower(c) }
  predicate IsAsciiAlphanumeric(c: char) { IsAsciiAlpha(c) || IsAsciiDigit(c) }
  predicate IsHexDigit(c: char) { IsAsciiDigit(c) || 'a' <= c <= 'f' || 'A' <= c <= 'F' }

  /** Unicode White_Space, the set Rust's `trim` removes. */
  predicate IsWhiteSpace(c: char) {
    ('\U{0009}' <= c <= '\U{000D}') || c == ' ' || c == '\U{0085}' || c == '\U{00A0}'
    || c == '\U{1680}' || ('\U{2000}' <= c <= '\U{200A}') || c == '\U{2028}' || c == '\U{2029}'
    || c == '\U{202F}' || c == '\U{205F}' || c == '\U{3000}'
  }

  /** The characters nom's `multispace0`/`multispace1` accept. */
  predicate IsMultispace(c: char) { c == ' ' || c == '\t' || c == '\r' || c == '\n' }

  predicate All(s: string, p: char -> bool) { forall i :: 0 <= i < |s| ==> p(s[i]) }

  function AsciiLowerChar(c: char): char {
    if IsAsciiUpper(c) then (c as int + 32) as char else c
  }

  /** Lower-casing restricted to ASCII letters; every other character is kept. */
  function AsciiLower(s: string): (r: string)
    ensures |r| == |s|
    ensures forall i :: 0 <= i < |s| ==> r[i] == AsciiLowerChar(s[i])
  {
    if |s| == 0 then [] else [AsciiLowerChar(s[0])] + AsciiLower(s[1..])
  }

  predicate StartsWith(s: string, p: string) { p <= s }

  predicate EndsWith(s: string, suffix: string) {
    |suffix| <= |s| && s[|s| - |suffix|..] == suffix
  }

  /** `sub` occurs at some position of `s`. */
  predicate Contains(s: string, sub: string)
    decreases |s|
  {
    sub <= s || (|s| > 0 && Contains(s[1..], sub))
  }

  lemma ContainsWitness(s: string, sub: string, i: nat)
    requires i + |sub| <= |s| && s[i..i + |sub|] == sub
    ensures Contains(s, sub)
    decreases i
  {
    if i > 0 {
      assert s[1..][i - 1..i - 1 + |sub|] == sub;
      ContainsWitness(s[1..], sub, i - 1);
    }
  }

  /** Every character of an occurring text occurs in the host. */
  lemma {:induction false} ContainsChar(s: string, sub: string, c: char)
    requires Contains(s, sub) && c in sub
    ensures c in s
    decreases |s|
  {
    if !(sub <= s) {
      ContainsChar(s[1..], sub, c);
    }
  }

  lemma ContainsGrow(s: string, t: string, sub: string)
    requires Contains(t, sub)
    ensures Contains(s + t, sub)
    decreases |s|
  {
    if |s| > 0 {
      assert (s + t)[1..] == s[1..] + t;
      ContainsGrow(s[1..], t, sub);
    } else {
      assert s + t == t;
    }
  }

  /** Every non-overlapping occurrence of `pat`, scanning left to right, replaced
      by `rep` (Rust `str::replace`, JavaScript `replaceAll`). */
  function ReplaceAll(s: string, pat: string, rep: string): string
    requires |pat| > 0
    decreases |s|
  {
    if |s| < |pat| then s
    else if s[..|pat|] == pat then rep + ReplaceAll(s[|pat|..], pat, rep)
    else [s[0]] + ReplaceAll(s[1..], pat, rep)
  }

  /** Replacing a one-character pattern by a text without that character
      leaves no occurrence of it. */
  lemma {:induction false} ReplaceCharRemoves(s: string, c: char, rep: string)
    requires c !in rep
    ensures c !in ReplaceAll(s, [c], rep)
    decreases |s|
  {
    if |s| >= 1 {
      ReplaceCharRemoves(s[1..], c, rep);
    }
  }

  /** Rust `str::split` on one character: empty pieces are kept. */
  function Split(s: string, sep: char): (r: seq<string>)
    ensures |r| >= 1
    ensures sep !in s ==> r == [s]
    decreases |s|
  {
    if |s| == 0 then [""]
    else if s[0] == sep then [""] + Split(s[1..], sep)
    else
      var rest := Split(s[1..], sep);
      assert sep !in s ==> sep !in s[1..] && s == [s[0]] + s[1..];
      [[s[0]] + rest[0]] + rest[1..]
  }

  /** `parts` joined with `sep` between consecutive parts. */
  function Join(parts: seq<string>, sep: string): string
    decreases |parts|
  {
    if |parts| == 0 then ""
    else if |parts| == 1 then parts[0]
    else parts[0] + sep + Join(parts[1..], sep)
  }

  /** Splitting on `sep` and joining with `sep` gives back the input. */
  lemma {:induction false} SplitJoin(s: string, sep: char)
    ensures Join(Split(s, sep), [sep]) == s
    decreases |s|
  {
    if |s| > 0 {
      SplitJoin(s[1..], sep);
      var rest := Split(s[1..], sep);
      var r := Split(s, sep);
      if s[0] == sep {
        assert r == [""] + rest;
        assert Join(r, [sep]) == "" + [sep] + Join(rest, [sep]);
      } else {
        assert r == [[s[0]] + rest[0]] + rest[1..];
        if |rest| == 1 {
          assert Join(r, [sep]) == [s[0]] + rest[0];
        } else {
          assert r[1..] == rest[1..];
          assert Join(rest, [sep]) == rest[0] + [sep] + Join(rest[1..], [sep]);
          assert Join(r, [sep]) == [s[0]] + rest[0] + [sep] + Join(rest[1..], [sep]);
        }
      }
      assert s == [s[0]] + s[1..];
    }
  }

  /** No piece of a split contains the separator. */
  lemma {:induction false} SplitPiecesLackSep(s: string, sep: char)
    ensures forall k :: 0 <= k < |Split(s, sep)| ==> sep !in Split(s, sep)[k]
    decreases |s|
  {
    if |s| > 0 {
      SplitPiecesLackSep(s[1..], sep);
      var rest := Split(s[1..], sep);
      if s[0] != sep {
        assert Split(s, sep) == [[s[0]] + rest[0]] + rest[1..];
      }
    }
  }

  /** The first piece ends at the first separator. */
  lemma {:induction false} SplitAt(a: string, b: string, sep: char)
    requires sep !in a
    ensures Split(a + [sep] + b, sep) == [a] + Split(b, sep)
    decreases |a|
  {
    var s := a + [sep] + b;
    if |a| == 0 {
      assert s == [sep] + b;
      assert s[1..] == b;
    } else {
      assert sep !in a[1..] by {
        forall i | 0 <= i < |a[1..]| ensures a[1..][i] != sep { assert a[1..][i] == a[i + 1]; }
      }
      SplitAt(a[1..], b, sep);
      assert s[0] == a[0];
      assert s[1..] == a[1..] + [sep] + b;
      var rest := Split(s[1..], sep);
      assert rest[0] == a[1..] && rest[1..] == Split(b, sep);
      assert [s[0]] + rest[0] == a;
    }
  }

  /** Joining pieces that lack the separator and splitting again gives
      the pieces back. */
  lemma {:induction false} JoinSplit(parts: seq<string>, sep: char)
    requires |parts| >= 1
    requires forall k :: 0 <= k < |parts| ==> sep !in parts[k]
    ensures Split(Join(parts, [sep]), sep) == parts
    decreases |parts|
  {
    if |parts| > 1 {
      var rest := parts[1..];
      JoinSplit(rest, sep);
      SplitAt(parts[0], Join(rest, [sep]), sep);
      assert parts == [parts[0]] + rest;
    }
  }

  /** Rust `trim_start_matches(p)`: the longest prefix of `p`-characters removed. */
  function TrimStartMatches(s: string, p: char -> bool): (r: string)
    ensures |r| <= |s| && r == s[|s| - |r|..]
    ensures All(s[..|s| - |r|], p)
    ensures |r| == 0 || !p(r[0])
    decreases |s|
  {
    if |s| > 0 && p(s[0]) then
      var r := TrimStartMatches(s[1..], p);
      assert s[..|s| - |r|] == [s[0]] + s[1..][..|s| - 1 - |r|];
      r
    else s
  }

  /** Rust `trim_end_matches(p)`: the longest suffix of `p`-characters removed. */
  function TrimEndMatches(s: string, p: char -> bool): (r: string)
    ensures |r| <= |s| && r == s[..|r|]
    ensures All(s[|r|..], p)
    ensures |r| == 0 || !p(r[|r| - 1])
    decreases |s|
  {
    if |s| > 0 && p(s[|s| - 1]) then
      var r := TrimEndMatches(s[..|s| - 1], p);
      assert s[|r|..] == s[..|s| - 1][|r|..] + [s[|s| - 1]];
      r
    else s
  }

  /** Rust `trim_matches(p)`: both ends stripped of `p`-characters. */
  function TrimMatches(s: string, p: char -> bool): (r: string)
    ensures |r| <= |s|
    ensures |r| == 0 || (!p(r[0]) && !p(r[|r| - 1]))
  {
    TrimEndMatches(TrimStartMatches(s, p), p)
  }

  /** `r` is `s` with the runs of `p`-characters at both ends cut off: it
      neither starts nor ends with a `p`-character, and it is the segment of
      `s` after the leading run, followed only by `p`-characters. */
  predicate TrimmedSegment(s: string, r: string, p: char -> bool) {
    var i := |s| - |TrimStartMatches(s, p)|;
    && |r| <= |s| && (|r| == 0 || (!p(r[0]) && !p(r[|r| - 1])))
    && i + |r| <= |s| && r == s[i..i + |r|] && All(s[..i], p) && All(s[i + |r|..], p)
  }

  lemma TrimMatchesSegment(s: string, p: char -> bool)
    ensures TrimmedSegment(s, TrimMatches(s, p), p)
  {
    var t := TrimStartMatches(s, p);
    var r := TrimEndMatches(t, p);
    var i := |s| - |t|;
    assert TrimMatches(s, p) == r;
    assert r == s[i..i + |r|] by {
      assert t == s[i..] && r == t[..|r|];
    }
    assert All(s[i + |r|..], p) by {
      assert s[i + |r|..] == t[|r|..];
    }
  }


  /** A string whose ends are not `p`-characters is left as it is. */
  lemma TrimMatchesNoOp(s: string, p: char -> bool)
    requires |s| > 0 && !p(s[0]) && !p(s[|s| - 1])
    ensures TrimMatches(s, p) == s
  {
  }

  /** Leading `p`-characters do not change where the leading trim ends. */
  lemma {:induction false} TrimStartPrefix(w: string, t: string, p: char -> bool)
    requires All(w, p)
    ensures TrimStartMatches(w + t, p) == TrimStartMatches(t, p)
    decreases |w|
  {
    if |w| > 0 {
      assert (w + t)[0] == w[0];
      assert (w + t)[1..] == w[1..] + t;
      assert All(w[1..], p) by {
        forall i | 0 <= i < |w[1..]| ensures p(w[1..][i]) { assert w[1..][i] == w[i + 1]; }
      }
      TrimStartPrefix(w[1..], t, p);
    } else {
      assert w + t == t;
    }
  }

  /** Trailing `p`-characters do not change where the trailing trim ends. */
  lemma {:induction false} TrimEndSuffix(t: string, w: string, p: char -> bool)
    requires All(w, p)
    ensures TrimEndMatches(t + w, p) == TrimEndMatches(t, p)
    decreases |w|
  {
    if |w| > 0 {
      var s := t + w;
      assert s[|s| - 1] == w[|w| - 1];
      assert s[..|s| - 1] == t + w[..|w| - 1];
      var u := w[..|w| - 1];
      assert All(u, p) by {
        forall i | 0 <= i < |u| ensures p(u[i]) { assert u[i] == w[i]; }
      }
      TrimEndSuffix(t, u, p);
    } else {
      assert t + w == t;
    }
  }

  /** Trimming a text padded on both sides with `p`-characters gives the
      text back, when its own ends are not `p`-characters. */
  lemma TrimAround(w1: string, core: string, w2: string, p: char -> bool)
    requires All(w1, p) && All(w2, p)
    requires |core| > 0 && !p(core[0]) && !p(core[|core| - 1])
    ensures TrimMatches(w1 + core + w2, p) == core
  {
    assert w1 + core + w2 == w1 + (core + w2);
    TrimStartPrefix(w1, core + w2, p);
    assert (core + w2)[0] == core[0];
    assert TrimStartMatches(core + w2, p) == core + w2;
    TrimEndSuffix(core, w2, p);
  }

  /** Rust `str::trim`: leading and trailing White_Space removed. */
  function Trim(s: string): string {
    TrimMatches(s, IsWhiteSpace)
  }

  /** Appending a character after a string that does not consist only of
      `p`-characters does not change where the leading trim stops. */
  lemma {:induction false} TrimStartAppend(s: string, c: char, p: char -> bool)
    requires !All(s, p)
    ensures TrimStartMatches(s + [c], p) == TrimStartMatches(s, p) + [c]
    decreases |s|
  {
    assert (s + [c])[0] == s[0];
    if p(s[0]) {
      assert (s + [c])[1..] == s[1..] + [c];
      var k :| 0 <= k < |s| && !p(s[k]);
      assert s[1..][k - 1] == s[k];
      TrimStartAppend(s[1..], c, p);
    }
  }

  /** A trailing `p`-character is always trimmed away. */
  lemma TrimEndDrops(s: string, c: char, p: char -> bool)
    requires p(c)
    ensures TrimEndMatches(s + [c], p) == TrimEndMatches(s, p)
  {
    assert (s + [c])[..|s|] == s;
  }

  /** Concatenation regrouped, for the inductive step of a recursive
      function that prepends its head's part. */
  lemma PrependAssoc<T>(h: seq<T>, y: seq<T>, z: seq<T>)
    ensures h + (y + z) == (h + y) + z
  {
  }

  /** The tail of a concatenation whose first part is not empty. */
  lemma TailOfConcat<T>(a: seq<T>, b: seq<T>)
    requires |a| > 0
    ensures (a + b)[0] == a[0]
    ensures (a + b)[1..] == a[1..] + b
  {
  }

  /** A non-empty sequence is its head followed by its tail. */
  lemma HeadTail<T>(s: seq<T>)
    requires |s| > 0
    ensures [s[0]] + s[1..] == s
  {
  }

  /** Filters out every element equal to `x`, keeping the order of the rest
      (Rust `retain(|s| *s != x)` / `filter(|t| t != x)`). */
  function Without<T(==,!new)>(xs: seq<T>, x: T): (r: seq<T>)
    ensures x !in r
    ensures forall y :: y in r <==> y in xs && y != x
    ensures |r| <= |xs|
    ensures multiset(r) == multiset(xs)[x := 0]
    ensures x !in xs ==> r == xs
  {
    if |xs| == 0 then []
    else
      assert xs == [xs[0]] + xs[1..];
      if xs[0] == x then Without(xs[1..], x)
      else [xs[0]] + Without(xs[1..], x)
  }

  /** Filtering works piece by piece, so the kept elements stay in their
      order: filtering a concatenation concatenates the filtered parts. */
  lemma {:induction false} WithoutAppend<T(!new)>(a: seq<T>, b: seq<T>, x: T)
    ensures Without(a + b, x) == Without(a, x) + Without(b, x)
    decreases |a|
  {
    if |a| > 0 {
      assert (a + b)[0] == a[0];
      assert (a + b)[1..] == a[1..] + b;
      WithoutAppend(a[1..], b, x);
    } else {
      assert a + b == b;
    }
  }
}
