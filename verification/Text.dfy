/** The string operations the parsers use, as the Rust standard library documents them. */
module Text {
  import opened Wrappers

  /** The characters with the Unicode White_Space property. */
  predicate IsWhitespace(c: char) {
    || '\t' <= c <= '\r' || c == ' '
    || c == '\U{85}' || c == '\U{A0}' || c == '\U{1680}'
    || '\U{2000}' <= c <= '\U{200A}'
    || c == '\U{2028}' || c == '\U{2029}' || c == '\U{202F}' || c == '\U{205F}' || c == '\U{3000}'
  }

  /** Among the ASCII characters: tab, line feed, vertical tab, form feed, carriage return and space. */
  lemma AsciiWhitespace(c: char)
    requires c < '\U{80}'
    ensures IsWhitespace(c) <==> c as int in {9, 10, 11, 12, 13, 32}
  {
  }

  predicate IsQuote(c: char) { c == '"' }

  predicate IsOpening(c: char) { c == '(' }

  predicate IsClosing(c: char) { c == ')' }

  function TrimStart(s: string, p: char -> bool): string {
    if s != "" && p(s[0]) then TrimStart(s[1..], p) else s
  }

  function TrimEnd(s: string, p: char -> bool): string {
    if s != "" && p(s[|s| - 1]) then TrimEnd(s[..|s| - 1], p) else s
  }

  function TrimBy(s: string, p: char -> bool): string { TrimEnd(TrimStart(s, p), p) }

  function Trim(s: string): string { TrimBy(s, IsWhitespace) }

  /** `split`: cut at every occurrence of the pattern, found from the left, not overlapping. */
  function Split(s: string, pat: string): (parts: seq<string>)
    requires pat != ""
    ensures parts != []
    decreases |s|
  {
    if s == "" then [""]
    else if pat <= s then [""] + Split(s[|pat|..], pat)
    else
      var rest := Split(s[1..], pat);
      [[s[0]] + rest[0]] + rest[1..]
  }

  /** `splitn(2, c)`: what is before the first `c`, and what is after it if there is one. */
  function Cut(s: string, c: char): (string, Option<string>) {
    if s == "" then ("", None)
    else if s[0] == c then ("", Some(s[1..]))
    else
      var (before, after) := Cut(s[1..], c);
      ([s[0]] + before, after)
  }

  const LOWER := "abcdefghijklmnopqrstuvwxyz"
  const UPPER := "ABCDEFGHIJKLMNOPQRSTUVWXYZ"
  const DIGITS := "0123456789"

  lemma LowerIff(c: char)
    ensures c in LOWER <==> 'a' <= c <= 'z'
  {
    if 'a' <= c <= 'z' {
      assert LOWER[(c - 'a') as int] == c;
    }
  }

  lemma UpperIff(c: char)
    ensures c in UPPER <==> 'A' <= c <= 'Z'
  {
    if 'A' <= c <= 'Z' {
      assert UPPER[(c - 'A') as int] == c;
    }
  }

  lemma DigitIff(c: char)
    ensures c in DIGITS <==> '0' <= c <= '9'
  {
    if '0' <= c <= '9' {
      assert DIGITS[(c - '0') as int] == c;
    }
  }

  /** `to_lowercase` on ASCII letters. No other character lower-cases to a letter of the keys
      compared with it in this project. */
  function Lower(s: string): string {
    seq(|s|, i requires 0 <= i < |s| => if 'A' <= s[i] <= 'Z' then s[i] - 'A' + 'a' else s[i])
  }

  /** Letter by letter, along the two alphabets; nothing else changes. */
  lemma LowerByLetter(s: string, i: nat, k: nat)
    requires i < |s| && k < 26
    ensures |Lower(s)| == |s|
    ensures s[i] == UPPER[k] ==> Lower(s)[i] == LOWER[k]
    ensures s[i] !in UPPER ==> Lower(s)[i] == s[i]
  {
    UpperIff(s[i]);
    assert UPPER[k] == 'A' + k as char && LOWER[k] == 'a' + k as char;
  }

  // ---------------------------------------------------------------- trimming

  /** No character of this kind at either end. */
  predicate Tight(s: string, p: char -> bool) {
    s == "" || (!p(s[0]) && !p(s[|s| - 1]))
  }

  predicate AllOf(s: string, p: char -> bool) {
    forall i :: 0 <= i < |s| ==> p(s[i])
  }

  lemma {:induction false} TrimStartPad(pre: string, s: string, p: char -> bool)
    requires AllOf(pre, p) && (s == "" || !p(s[0]))
    ensures TrimStart(pre + s, p) == s
    decreases |pre|
  {
    if pre == "" {
      assert pre + s == s;
    } else {
      assert (pre + s)[1..] == pre[1..] + s;
      TrimStartPad(pre[1..], s, p);
    }
  }

  lemma {:induction false} TrimEndPad(s: string, post: string, p: char -> bool)
    requires AllOf(post, p) && (s == "" || !p(s[|s| - 1]))
    ensures TrimEnd(s + post, p) == s
    decreases |post|
  {
    if post == "" {
      assert s + post == s;
    } else {
      assert (s + post)[..|s + post| - 1] == s + post[..|post| - 1];
      TrimEndPad(s, post[..|post| - 1], p);
    }
  }

  /** Trimming removes exactly the padding around a tight text. */
  lemma TrimPad(pre: string, s: string, post: string, p: char -> bool)
    requires AllOf(pre, p) && AllOf(post, p) && Tight(s, p)
    ensures TrimBy(pre + s + post, p) == s
  {
    if s == "" {
      assert pre + s + post == (pre + post) + "";
      TrimStartPad(pre + post, "", p);
    } else {
      assert pre + s + post == pre + (s + post);
      TrimStartPad(pre, s + post, p);
      TrimEndPad(s, post, p);
    }
  }

  lemma TrimTight(s: string, p: char -> bool)
    requires Tight(s, p)
    ensures TrimBy(s, p) == s && TrimStart(s, p) == s && TrimEnd(s, p) == s
  {
  }

  lemma {:induction false} TrimIsPart(s: string, p: char -> bool)
    ensures forall c :: c in TrimStart(s, p) ==> c in s
    ensures forall c :: c in TrimEnd(s, p) ==> c in s
    ensures |TrimStart(s, p)| <= |s| && |TrimEnd(s, p)| <= |s|
    decreases |s|
  {
    if s != "" {
      TrimIsPart(s[1..], p);
      TrimIsPart(s[..|s| - 1], p);
    }
  }

  lemma {:induction false} TrimStartIsClean(s: string, p: char -> bool)
    ensures var t := TrimStart(s, p); t == "" || !p(t[0])
    decreases |s|
  {
    if s != "" {
      TrimStartIsClean(s[1..], p);
    }
  }

  lemma {:induction false} TrimEndIsClean(s: string, p: char -> bool)
    ensures var t := TrimEnd(s, p); t == "" || (!p(t[|t| - 1]) && t[0] == s[0])
    decreases |s|
  {
    if s != "" {
      TrimEndIsClean(s[..|s| - 1], p);
    }
  }

  lemma TrimByIsTight(s: string, p: char -> bool)
    ensures Tight(TrimBy(s, p), p)
  {
    TrimStartIsClean(s, p);
    TrimEndIsClean(TrimStart(s, p), p);
  }

  // ---------------------------------------------------------------- splitting

  /** The pattern starts nowhere in `s + pat` before the end of `s`. */
  predicate NotWithin(pat: string, s: string) {
    forall i :: 0 <= i < |s| ==> !(pat <= (s + pat)[i..])
  }

  lemma {:induction false} SplitAtFirst(s: string, pat: string, rest: string)
    requires pat != "" && NotWithin(pat, s)
    ensures Split(s + pat + rest, pat) == [s] + Split(rest, pat)
    decreases |s|
  {
    var all := s + pat + rest;
    if s == "" {
      assert all == pat + rest;
      assert all[|pat|..] == rest;
    } else {
      assert !(pat <= (s + pat)[0..]);
      assert all[..|pat|] == (s + pat)[0..][..|pat|];
      assert !(pat <= all);
      assert all[1..] == s[1..] + pat + rest;
      forall i | 0 <= i < |s[1..]|
        ensures !(pat <= (s[1..] + pat)[i..])
      {
        assert (s[1..] + pat)[i..] == (s + pat)[i + 1..];
      }
      SplitAtFirst(s[1..], pat, rest);
      assert [s[0]] + s[1..] == s;
    }
  }

  lemma {:induction false} SplitNone(s: string, pat: string)
    requires pat != "" && forall i :: 0 <= i < |s| ==> !(pat <= s[i..])
    ensures Split(s, pat) == [s]
    decreases |s|
  {
    if s != "" {
      assert s[0..] == s;
      forall i | 0 <= i < |s[1..]|
        ensures !(pat <= s[1..][i..])
      {
        assert s[1..][i..] == s[i + 1..];
      }
      SplitNone(s[1..], pat);
      assert [s[0]] + s[1..] == s;
    }
  }

  /** The parts of a split on one character contain none of it, and nothing new. */
  lemma {:induction false} SplitOnChar(s: string, c: char)
    ensures forall i :: 0 <= i < |Split(s, [c])| ==> c !in Split(s, [c])[i]
    decreases |s|
  {
    if s != "" {
      SplitOnChar(s[1..], c);
    }
  }

  /** Splitting on one character distributes over a text put together with it. */
  lemma {:induction false} SplitAtChar(a: string, c: char, b: string)
    ensures Split(a + [c] + b, [c]) == Split(a, [c]) + Split(b, [c])
    decreases |a|
  {
    var all := a + [c] + b;
    if a == "" {
      assert all == [c] + b && all[1..] == b;
    } else {
      assert all[0] == a[0] && all[1..] == a[1..] + [c] + b;
      assert [c] <= all <==> all[0] == c;
      assert [c] <= a <==> a[0] == c;
      SplitAtChar(a[1..], c, b);
    }
  }

  lemma SplitWithout(s: string, c: char)
    requires c !in s
    ensures Split(s, [c]) == [s]
  {
    forall i | 0 <= i < |s|
      ensures !([c] <= s[i..])
    {
      assert s[i..][0] == s[i];
    }
    SplitNone(s, [c]);
  }

  lemma {:induction false} CutAtFirst(before: string, c: char, after: string)
    requires c !in before
    ensures Cut(before + [c] + after, c) == (before, Some(after))
    decreases |before|
  {
    var all := before + [c] + after;
    if before == "" {
      assert all[1..] == after;
    } else {
      assert all[1..] == before[1..] + [c] + after;
      CutAtFirst(before[1..], c, after);
      assert [before[0]] + before[1..] == before;
    }
  }

  lemma {:induction false} CutWithout(s: string, c: char)
    requires c !in s
    ensures Cut(s, c) == (s, None)
    decreases |s|
  {
    if s != "" {
      CutWithout(s[1..], c);
      assert [s[0]] + s[1..] == s;
    }
  }

  lemma {:induction false} CutIsPart(s: string, c: char)
    ensures forall x :: x in Cut(s, c).0 ==> x in s
    ensures Cut(s, c).1.Some? ==> forall x :: x in Cut(s, c).1.value ==> x in s
    decreases |s|
  {
    if s != "" {
      CutIsPart(s[1..], c);
    }
  }
}
