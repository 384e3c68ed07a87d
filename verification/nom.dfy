/** The parts of the nom 7 parser-combinator library the bot's grammars use,
    on complete input. A parser either succeeds with the unconsumed rest and a
    value, or fails with the input at which the failing parser stood (nom's
    `Error { input, .. }`). */
module Nom {
  import opened Strings
  import opened Decimal

  datatype PResult<+T> = Done(rest: string, value: T) | Fail(at: string)

  /** Length of the longest prefix of `s` all of whose characters satisfy `p`. */
  function SpanLen(s: string, p: char -> bool): (n: nat)
    ensures n <= |s|
    ensures forall i :: 0 <= i < n ==> p(s[i])
    ensures n == |s| || !p(s[n])
    decreases |s|
  {
    if |s| > 0 && p(s[0]) then 1 + SpanLen(s[1..], p) else 0
  }

  /** `take_while1`: the longest non-empty prefix satisfying `p`. */
  function TakeWhile1(s: string, p: char -> bool): PResult<string> {
    var n := SpanLen(s, p);
    if n == 0 then Fail(s) else Done(s[n..], s[..n])
  }

  /** `take_while` / `multispace0`: the longest (possibly empty) prefix. */
  function TakeWhile(s: string, p: char -> bool): string {
    s[SpanLen(s, p)..]
  }

  /** `tag(t)` */
  function Tag(t: string, s: string): PResult<string> {
    if t <= s then Done(s[|t|..], t) else Fail(s)
  }

  /** Maximal munch: a non-empty word of `p`-characters followed by a rest that
      does not continue it is consumed exactly. */
  lemma {:induction false} SpanLenExact(w: string, rest: string, p: char -> bool)
    requires forall i :: 0 <= i < |w| ==> p(w[i])
    requires |rest| == 0 || !p(rest[0])
    ensures SpanLen(w + rest, p) == |w|
    decreases |w|
  {
    if |w| > 0 {
      assert (w + rest)[1..] == w[1..] + rest;
      SpanLenExact(w[1..], rest, p);
    } else {
      assert w + rest == rest;
    }
  }

  lemma TakeWhile1Exact(w: string, rest: string, p: char -> bool)
    requires |w| > 0 && forall i :: 0 <= i < |w| ==> p(w[i])
    requires |rest| == 0 || !p(rest[0])
    ensures TakeWhile1(w + rest, p) == Done(rest, w)
  {
    SpanLenExact(w, rest, p);
    assert (w + rest)[..|w|] == w && (w + rest)[|w|..] == rest;
  }

  lemma TagPrefix(t: string, rest: string)
    ensures Tag(t, t + rest) == Done(rest, t)
  {
    assert (t + rest)[..|t|] == t && (t + rest)[|t|..] == rest;
  }

  /** nom's `character::complete::u8`/`u64`: the maximal run of ASCII digits,
      failing at the start when there is none or the value exceeds `max`. */
  function NomUnsigned(s: string, max: nat): (r: PResult<nat>)
    ensures r.Done? ==> r.value <= max && |r.rest| < |s|
    ensures r.Done? ==> |r.rest| == 0 || !IsAsciiDigit(r.rest[0])
    ensures r.Fail? ==> r.at == s
  {
    var n := SpanLen(s, IsAsciiDigit);
    if n == 0 then Fail(s)
    else
      var v := DigitsValue(s[..n]);
      if v > max then Fail(s) else Done(s[n..], v)
  }

  /** nom's `character::complete::i64`: an optional `+` or `-`, then the
      maximal digit run, failing at the start when it is empty or out of range. */
  function NomSigned(s: string, min: int, max: int): (r: PResult<int>)
    ensures r.Done? ==> min <= r.value <= max && |r.rest| < |s|
    ensures r.Fail? ==> r.at == s
  {
    var negative := |s| > 0 && s[0] == '-';
    var body := if |s| > 0 && (s[0] == '+' || s[0] == '-') then s[1..] else s;
    var n := SpanLen(body, IsAsciiDigit);
    if n == 0 then Fail(s)
    else
      var magnitude: int := DigitsValue(body[..n]);
      var v := if negative then 0 - magnitude else magnitude;
      if v < min || v > max then Fail(s) else Done(body[n..], v)
  }

  lemma {:induction false} NomUnsignedRoundTrip(n: nat, rest: string, max: nat)
    requires n <= max
    requires |rest| == 0 || !IsAsciiDigit(rest[0])
    ensures NomUnsigned(NatToString(n) + rest, max) == Done(rest, n)
  {
    var w := NatToString(n);
    SpanLenExact(w, rest, IsAsciiDigit);
    assert (w + rest)[..|w|] == w && (w + rest)[|w|..] == rest;
  }

  /** The sign-free body of a signed number is read back exactly. */
  lemma DigitsBodyRead(m: nat, rest: string)
    requires |rest| == 0 || !IsAsciiDigit(rest[0])
    ensures var body := NatToString(m) + rest;
      SpanLen(body, IsAsciiDigit) == |NatToString(m)|
      && body[..|NatToString(m)|] == NatToString(m)
      && body[|NatToString(m)|..] == rest
      && IsAsciiDigit(body[0])
  {
    var w := NatToString(m);
    NatToStringStartsWithDigit(m);
    SpanLenExact(w, rest, IsAsciiDigit);
    var body := w + rest;
    assert body[..|w|] == w && body[|w|..] == rest;
    assert body[0] == w[0];
  }

  /** A `-` followed by the digits of `m` reads back as `-m`. */
  lemma NomSignedNegative(m: nat, rest: string, min: int, max: int)
    requires min <= -(m as int) <= max
    requires |rest| == 0 || !IsAsciiDigit(rest[0])
    ensures NomSigned("-" + (NatToString(m) + rest), min, max) == Done(rest, -(m as int))
  {
    var w := NatToString(m);
    var body := w + rest;
    DigitsBodyRead(m, rest);
    var s := "-" + body;
    assert |s| > 0 && s[0] == '-' && s[1..] == body;
    var n := SpanLen(body, IsAsciiDigit);
    assert n == |w| && body[..n] == w && body[n..] == rest;
    assert DigitsValue(w) == m;
  }

  /** The digits of `m`, unsigned, read back as `m`. */
  lemma NomSignedNonNegative(m: nat, rest: string, min: int, max: int)
    requires min <= m <= max
    requires |rest| == 0 || !IsAsciiDigit(rest[0])
    ensures NomSigned(NatToString(m) + rest, min, max) == Done(rest, m)
  {
    var w := NatToString(m);
    var s := w + rest;
    DigitsBodyRead(m, rest);
    assert s[0] != '+' && s[0] != '-';
    var n := SpanLen(s, IsAsciiDigit);
    assert n == |w| && s[..n] == w && s[n..] == rest;
    assert DigitsValue(w) == m;
  }

  lemma NomSignedRoundTrip(i: int, rest: string, min: int, max: int)
    requires min <= i <= max
    requires |rest| == 0 || !IsAsciiDigit(rest[0])
    ensures NomSigned(IntToString(i) + rest, min, max) == Done(rest, i)
  {
    if i < 0 {
      var m: nat := -i;
      var w := NatToString(m);
      assert IntToString(i) + rest == "-" + (w + rest) by {
        assert IntToString(i) == "-" + w;
        assert ("-" + w) + rest == "-" + (w + rest);
      }
      NomSignedNegative(m, rest, min, max);
    } else {
      assert IntToString(i) == NatToString(i);
      NomSignedNonNegative(i, rest, min, max);
    }
  }

  /** Two literals that disagree at position `i` cannot prefix one another's
      extensions. */
  lemma DifferAt(q: string, p: string, x: string, i: nat)
    requires i < |q| && i < |p| && q[i] != p[i]
    ensures !(q <= p + x)
  {
    assert (p + x)[i] == p[i];
  }

  /** A string that starts with `p` does not start with a `q` that differs
      from `p` at index `i`. */
  lemma DifferAtPrefix(q: string, p: string, s: string, i: nat)
    requires p <= s
    requires i < |q| && i < |p| && q[i] != p[i]
    ensures !(q <= s)
  {
    assert s[i] == p[i];
  }

  /** A prefix of the first part of a concatenation prefixes the whole. */
  lemma PrefixOfConcat(p: string, x: string, y: string)
    ensures p <= p + x + y
  {
    assert (p + x + y)[..|p|] == p;
  }

  /** A string prefixes each of its extensions. */
  lemma PrefixOfAppend(p: string, x: string)
    ensures p <= p + x
  {
    assert (p + x)[..|p|] == p;
  }

  /** `many0(item)`: items for as long as one parses; an item that succeeds
      without consuming input makes the whole repetition fail (nom's guard
      against endless loops). */
  function Many0<T>(s: string, item: string -> PResult<T>): (r: PResult<seq<T>>)
    ensures r.Done? ==> |r.rest| <= |s|
    decreases |s|
  {
    match item(s)
    case Fail(_) => Done(s, [])
    case Done(rest, v) =>
      if |rest| >= |s| then Fail(s)
      else
        match Many0(rest, item)
        case Done(rest2, vs) => Done(rest2, [v] + vs)
        case Fail(at) => Fail(at)
  }

  /** `many1(item)`: one item, then `many0`. */
  function Many1<T>(s: string, item: string -> PResult<T>): (r: PResult<seq<T>>)
    ensures r.Done? ==> |r.value| >= 1
  {
    match item(s)
    case Fail(at) => Fail(at)
    case Done(rest, v) =>
      match Many0(rest, item)
      case Done(rest2, vs) => Done(rest2, [v] + vs)
      case Fail(at) => Fail(at)
  }

  /** The parts laid end to end. */
  function Concat(parts: seq<string>): string {
    if |parts| == 0 then "" else parts[0] + Concat(parts[1..])
  }

  /** What follows part `i`: the later parts and then `rest`. */
  function After(parts: seq<string>, i: nat, rest: string): string
    requires i < |parts|
  {
    Concat(parts[i + 1..]) + rest
  }

  /** Each part is read by exactly one item. */
  ghost predicate ReadsParts<T>(item: string -> PResult<T>, parts: seq<string>, vs: seq<T>, rest: string) {
    && |parts| == |vs|
    && (forall i :: 0 <= i < |parts| ==> |parts[i]| > 0)
    && (forall i :: 0 <= i < |parts| ==> item(parts[i] + After(parts, i, rest)) == Done(After(parts, i, rest), vs[i]))
  }

  lemma ConcatCons(parts: seq<string>, rest: string)
    requires |parts| > 0
    ensures Concat(parts) + rest == parts[0] + After(parts, 0, rest)
  {
  }

  lemma ReadsPartsTail<T>(item: string -> PResult<T>, parts: seq<string>, vs: seq<T>, rest: string)
    requires ReadsParts(item, parts, vs, rest) && |parts| > 0
    ensures ReadsParts(item, parts[1..], vs[1..], rest)
  {
    forall i | 0 <= i < |parts| - 1
      ensures After(parts[1..], i, rest) == After(parts, i + 1, rest)
    {
      assert parts[1..][i + 1..] == parts[i + 2..];
    }
  }

  /** A run of parts, each read by one item, followed by a rest no item
      reads, is read in full by `many0`. */
  lemma {:induction false} Many0Exact<T>(item: string -> PResult<T>, parts: seq<string>, vs: seq<T>, rest: string)
    requires ReadsParts(item, parts, vs, rest)
    requires item(rest).Fail?
    ensures Many0(Concat(parts) + rest, item) == Done(rest, vs)
    decreases |parts|
  {
    if |parts| == 0 {
      assert Concat(parts) + rest == rest;
    } else {
      ConcatCons(parts, rest);
      ReadsPartsTail(item, parts, vs, rest);
      Many0Exact(item, parts[1..], vs[1..], rest);
      assert After(parts, 0, rest) == Concat(parts[1..]) + rest;
      assert vs == [vs[0]] + vs[1..];
    }
  }

  /** The same for `many1`, given at least one part. */
  lemma Many1Exact<T>(item: string -> PResult<T>, parts: seq<string>, vs: seq<T>, rest: string)
    requires ReadsParts(item, parts, vs, rest) && |parts| > 0
    requires item(rest).Fail?
    ensures Many1(Concat(parts) + rest, item) == Done(rest, vs)
  {
    ConcatCons(parts, rest);
    ReadsPartsTail(item, parts, vs, rest);
    Many0Exact(item, parts[1..], vs[1..], rest);
    assert vs == [vs[0]] + vs[1..];
  }

  /** Every value `many0` collects is a value the item produced, so a
      property of all item results holds of all collected values. */
  lemma {:induction false} Many0Values<T>(s: string, item: string -> PResult<T>, P: T -> bool)
    requires forall x :: item(x).Done? ==> P(item(x).value)
    ensures Many0(s, item).Done? ==> forall i :: 0 <= i < |Many0(s, item).value| ==> P(Many0(s, item).value[i])
    decreases |s|
  {
    match item(s)
    case Fail(_) =>
    case Done(rest, v) =>
      if |rest| < |s| {
        Many0Values(rest, item, P);
      }
  }

  lemma Many1Values<T>(s: string, item: string -> PResult<T>, P: T -> bool)
    requires forall x :: item(x).Done? ==> P(item(x).value)
    ensures Many1(s, item).Done? ==> forall i :: 0 <= i < |Many1(s, item).value| ==> P(Many1(s, item).value[i])
  {
    match item(s)
    case Fail(_) =>
    case Done(rest, v) =>
      Many0Values(rest, item, P);
  }
}
