/** `limit_keywords`: the search keywords sent with a new sticker are cut to
    the longest leading run whose combined length stays below Telegram's
    limit. Lengths are counted in characters here (the source counts UTF-8
    bytes; the two agree on ASCII keywords). */
module LimitKeywords {

  const MAX_COMBINED_LENGTH: nat := 64

  /** Combined length of a list of keywords. */
  function TotalLen(ks: seq<string>): nat
    decreases |ks|
  {
    if |ks| == 0 then 0 else TotalLen(ks[..|ks| - 1]) + |ks[|ks| - 1]|
  }

  /** The running sum is checked after each keyword is added, and the first
      keyword that brings it to 64 or more ends the list, itself excluded. */
  method LimitKeywords(keywords: seq<string>) returns (kept: seq<string>)
    ensures kept <= keywords
    ensures TotalLen(kept) < MAX_COMBINED_LENGTH
    ensures |kept| < |keywords| ==> TotalLen(keywords[..|kept| + 1]) >= MAX_COMBINED_LENGTH
  {
    var len := 0;
    var i := 0;
    while i < |keywords|
      invariant 0 <= i <= |keywords|
      invariant len == TotalLen(keywords[..i]) && len < MAX_COMBINED_LENGTH
      decreases |keywords| - i
    {
      assert keywords[..i + 1][..i] == keywords[..i];
      if len + |keywords[i]| >= MAX_COMBINED_LENGTH {
        kept := keywords[..i];
        return;
      }
      len := len + |keywords[i]|;
      i := i + 1;
    }
    assert keywords[..i] == keywords;
    kept := keywords;
  }

  /** Adding keywords never shrinks the combined length. */
  lemma {:induction false} TotalLenMonotone(ks: seq<string>, n: nat)
    requires n <= |ks|
    ensures TotalLen(ks[..n]) <= TotalLen(ks)
    decreases |ks|
  {
    if n < |ks| {
      assert ks[..|ks| - 1][..n] == ks[..n];
      TotalLenMonotone(ks[..|ks| - 1], n);
    } else {
      assert ks[..n] == ks;
    }
  }

  /** The kept list is the only prefix with both properties: any longer
      prefix is too long, any shorter one could take another keyword. */
  lemma LimitIsLongestPrefix(keywords: seq<string>, kept: seq<string>, p: nat)
    requires kept <= keywords && TotalLen(kept) < MAX_COMBINED_LENGTH
    requires |kept| < |keywords| ==> TotalLen(keywords[..|kept| + 1]) >= MAX_COMBINED_LENGTH
    requires |kept| < p <= |keywords|
    ensures TotalLen(keywords[..p]) >= MAX_COMBINED_LENGTH
  {
    assert keywords[..p][..|kept| + 1] == keywords[..|kept| + 1];
    TotalLenMonotone(keywords[..p], |kept| + 1);
  }
}
