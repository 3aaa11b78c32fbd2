/** A sample's value and unit, as in `1.2V` or `450 rpm`.

    The gateway reads them with one regular expression: an optional sign, digits, an optional
    decimal part after a point or a comma, blanks, and a unit that starts with neither a digit nor
    a blank and has no line break. `Matches` states that pattern; a backtracking matcher
    prefers the longest number, and `Scan` finds that match without backtracking.

    Which characters are digits is a parameter `d`, since the pattern accepts those of every script.
  */
module TelemetryValue {
  import opened Wrappers
  import opened Text

  predicate IsSign(c: char) { c == '+' || c == '-' }

  predicate IsPoint(c: char) { c == '.' || c == ',' }

  /** All that is used about digits. */
  ghost predicate DigitTable(d: char -> bool) {
    && (forall c :: '0' <= c <= '9' ==> d(c))
    && (forall c :: IsSign(c) || IsPoint(c) || IsWhitespace(c) ==> !d(c))
  }

  // ---------------------------------------------------------------- the pattern

  ghost predicate Digits(s: string, lo: nat, hi: nat, d: char -> bool) {
    lo < hi <= |s| && forall k :: lo <= k < hi ==> d(s[k])
  }

  function SignEnd(s: string): (b: nat)
    ensures b <= |s|
  {
    if s != "" && IsSign(s[0]) then 1 else 0
  }

  ghost predicate Decimal(s: string, m: nat, i: nat, d: char -> bool) {
    m < i <= |s| && Digits(s, SignEnd(s), m, d) && IsPoint(s[m]) && Digits(s, m + 1, i, d)
  }

  /** s[..i] is a number. */
  ghost predicate NumberTo(s: string, i: nat, d: char -> bool) {
    Digits(s, SignEnd(s), i, d) || exists m: nat :: Decimal(s, m, i, d)
  }

  ghost predicate UnitText(u: string, d: char -> bool) {
    u != "" && !d(u[0]) && !IsWhitespace(u[0]) && '\n' !in u
  }

  /** A number to i, blanks to j, a unit or nothing to k, and blanks to the end. */
  ghost predicate Matches(s: string, i: nat, j: nat, k: nat, d: char -> bool) {
    && i <= j <= k <= |s|
    && NumberTo(s, i, d)
    && AllOf(s[i..j], IsWhitespace)
    && (j == k || UnitText(s[j..k], d))
    && AllOf(s[k..], IsWhitespace)
  }

  // ---------------------------------------------------------------- the scanner

  /** The end of the run of such characters from i on. */
  function RunEnd(s: string, i: nat, p: char -> bool): (r: nat)
    requires i <= |s|
    ensures i <= r <= |s|
    ensures forall k :: i <= k < r ==> p(s[k])
    ensures r < |s| ==> !p(s[r])
    decreases |s| - i
  {
    if i < |s| && p(s[i]) then RunEnd(s, i + 1, p) else i
  }

  /** After blanks comes the end, or a unit to the end. */
  predicate TailOk(s: string, i: nat, d: char -> bool)
    requires i <= |s|
  {
    var j := RunEnd(s, i, IsWhitespace);
    j == |s| || (!d(s[j]) && '\n' !in s[j..])
  }

  function WholeEnd(s: string, d: char -> bool): (m: nat)
    ensures m <= |s|
  {
    RunEnd(s, SignEnd(s), d)
  }

  /** The end of the decimal part, or of the whole part when there is none. */
  function DecimalEnd(s: string, d: char -> bool): (i: nat)
    ensures WholeEnd(s, d) <= i <= |s|
  {
    var m := WholeEnd(s, d);
    if m + 1 < |s| && IsPoint(s[m]) && d(s[m + 1]) then RunEnd(s, m + 1, d) else m
  }

  /** Where the number ends and where the unit begins. */
  function Scan(s: string, d: char -> bool): (r: Option<(nat, nat)>)
    ensures r.Some? ==> r.value.0 <= r.value.1 <= |s|
  {
    if WholeEnd(s, d) == SignEnd(s) then None
    else if TailOk(s, DecimalEnd(s, d), d) then Some((DecimalEnd(s, d), RunEnd(s, DecimalEnd(s, d), IsWhitespace)))
    else if TailOk(s, WholeEnd(s, d), d) then Some((WholeEnd(s, d), RunEnd(s, WholeEnd(s, d), IsWhitespace)))
    else None
  }

  lemma RunEndIs(s: string, i: nat, j: nat, p: char -> bool)
    requires i <= j <= |s| && (forall k :: i <= k < j ==> p(s[k])) && (j < |s| ==> !p(s[j]))
    ensures RunEnd(s, i, p) == j
  {
    assert RunEnd(s, i, p) >= j;
  }

  lemma PartAllOf(s: string, i: nat, j: nat, p: char -> bool)
    requires i <= j <= |s| && AllOf(s[i..j], p)
    ensures forall l :: i <= l < j ==> p(s[l])
  {
    forall l | i <= l < j
      ensures p(s[l])
    {
      assert s[i..j][l - i] == s[l];
    }
  }

  /** In a trimmed text a match ends at the end, and its number can not be continued by a digit. */
  lemma MatchReachesEnd(s: string, i: nat, j: nat, k: nat, d: char -> bool)
    requires DigitTable(d) && Tight(s, IsWhitespace) && Matches(s, i, j, k, d)
    ensures k == |s| && j == RunEnd(s, i, IsWhitespace) && TailOk(s, i, d)
    ensures i < |s| ==> !d(s[i])
  {
    PartAllOf(s, i, j, IsWhitespace);
    PartAllOf(s, k, |s|, IsWhitespace);
    assert s[k..|s|] == s[k..];
    if j < |s| {
      assert s[j..k][0] == s[j] && s[j..k] == s[j..];
    }
    RunEndIs(s, i, j, IsWhitespace);
  }

  /** A number that no digit continues ends where the scanner looks. */
  lemma NumberEndsAt(s: string, i: nat, d: char -> bool)
    requires DigitTable(d) && NumberTo(s, i, d) && (i < |s| ==> !d(s[i]))
    ensures WholeEnd(s, d) != SignEnd(s) && (i == WholeEnd(s, d) || i == DecimalEnd(s, d))
  {
    if Digits(s, SignEnd(s), i, d) {
      RunEndIs(s, SignEnd(s), i, d);
    } else {
      var m: nat :| Decimal(s, m, i, d);
      RunEndIs(s, SignEnd(s), m, d);
      RunEndIs(s, m + 1, i, d);
    }
  }

  lemma ScannedMatches(s: string, d: char -> bool)
    requires Scan(s, d).Some?
    ensures Matches(s, Scan(s, d).value.0, Scan(s, d).value.1, |s|, d)
  {
    var (i, j) := Scan(s, d).value;
    var m := WholeEnd(s, d);
    assert Digits(s, SignEnd(s), m, d);
    if i != m {
      assert Decimal(s, m, i, d);
    }
    assert s[j..|s|] == s[j..];
  }

  /** The scanner finds a match if and only if there is one; its number is the longest any
      match has, and its unit that of every match with this number. */
  lemma ScanIsLongestMatch(s: string, d: char -> bool)
    requires DigitTable(d) && Tight(s, IsWhitespace)
    ensures Scan(s, d).Some? ==> Matches(s, Scan(s, d).value.0, Scan(s, d).value.1, |s|, d)
    ensures forall i: nat, j: nat, k: nat :: Matches(s, i, j, k, d) ==>
              && Scan(s, d).Some? && i <= Scan(s, d).value.0
              && (i == Scan(s, d).value.0 ==> s[j..k] == s[Scan(s, d).value.1..])
  {
    if Scan(s, d).Some? {
      ScannedMatches(s, d);
    }
    forall i: nat, j: nat, k: nat | Matches(s, i, j, k, d)
      ensures Scan(s, d).Some? && i <= Scan(s, d).value.0
      ensures i == Scan(s, d).value.0 ==> s[j..k] == s[Scan(s, d).value.1..]
    {
      MatchIsScanned(s, i, j, k, d);
    }
  }

  lemma MatchIsScanned(s: string, i: nat, j: nat, k: nat, d: char -> bool)
    requires DigitTable(d) && Tight(s, IsWhitespace) && Matches(s, i, j, k, d)
    ensures Scan(s, d).Some? && i <= Scan(s, d).value.0
    ensures i == Scan(s, d).value.0 ==> s[j..k] == s[Scan(s, d).value.1..]
  {
    MatchReachesEnd(s, i, j, k, d);
    NumberEndsAt(s, i, d);
    assert s[j..k] == s[j..];
  }

  // ---------------------------------------------------------------- the answer

  /** The number's text, decimal comma replaced; the float parser takes over from here. */
  datatype Reading = Reading(number: Option<string>, unit: Option<string>)

  function WithPoint(s: string): string {
    seq(|s|, k requires 0 <= k < |s| => if s[k] == ',' then '.' else s[k])
  }

  /** Digits of other scripts match the pattern, but the float parser refuses them. */
  function NumberOf(s: string): Option<string> {
    if forall k :: 0 <= k < |s| ==> '0' <= s[k] <= '9' || IsSign(s[k]) || IsPoint(s[k])
    then Some(WithPoint(s))
    else None
  }

  /** A number is given exactly if all its characters are ASCII; it is the text, with only its comma changed. */
  lemma NumberOfIff(n: string)
    ensures NumberOf(n).Some? <==> forall k :: 0 <= k < |n| ==> n[k] in DIGITS || n[k] in "+-.,"
    ensures NumberOf(n).Some? ==>
        && |NumberOf(n).value| == |n|
        && forall k :: 0 <= k < |n| ==> NumberOf(n).value[k] == if n[k] == ',' then '.' else n[k]
  {
    forall k | 0 <= k < |n|
      ensures n[k] in DIGITS <==> '0' <= n[k] <= '9'
    {
      DigitIff(n[k]);
    }
  }

  function ParseValueAndUnit(raw: string, d: char -> bool): Reading {
    var s := Trim(raw);
    match Scan(s, d)
    case None => Reading(None, None)
    case Some((i, j)) => Reading(NumberOf(s[..i]), if j == |s| then None else Some(s[j..]))
  }

  // ---------------------------------------------------------------- what was printed is read back

  ghost predicate Number(n: string, d: char -> bool) { NumberTo(n, |n|, d) }

  /** A unit as it is written: nothing to trim. */
  ghost predicate Unit(u: string, d: char -> bool) { UnitText(u, d) && Tight(u, IsWhitespace) }

  lemma NumberInFront(n: string, rest: string, d: char -> bool)
    requires Number(n, d)
    ensures NumberTo(n + rest, |n|, d) && n != "" && (IsSign(n[0]) || d(n[0]))
    ensures SignEnd(n + rest) == SignEnd(n)
  {
    var s := n + rest;
    if !Digits(n, SignEnd(n), |n|, d) {
      var m: nat :| Decimal(n, m, |n|, d);
      assert Decimal(s, m, |n|, d);
    }
  }

  /** Whatever text arrives, a unit that is read starts with neither a digit nor a blank, ends in no blank
      and has no line break. */
  lemma UnitsAreUnits(raw: string, d: char -> bool)
    ensures var u := ParseValueAndUnit(raw, d).unit;
            u.Some? ==>
              && u.value != "" && !d(u.value[0])
              && Tight(u.value, IsWhitespace) && forall k :: 0 <= k < |u.value| ==> u.value[k] != '\n'
  {
    var s := Trim(raw);
    TrimByIsTight(raw, IsWhitespace);
    if Scan(s, d).Some? && Scan(s, d).value.1 < |s| {
      var u := s[Scan(s, d).value.1..];
      assert u[|u| - 1] == s[|s| - 1];
    }
  }

  /** With at least one blank between them, every number and every unit are read back. */
  lemma SpacedReadsBack(n: string, blank: string, u: string, d: char -> bool)
    requires DigitTable(d) && Number(n, d) && Unit(u, d) && blank != "" && AllOf(blank, IsWhitespace)
    ensures ParseValueAndUnit(n + blank + u, d) == Reading(NumberOf(n), Some(u))
  {
    var s := n + blank + u;
    var i, j := |n|, |n| + |blank|;
    NumberInFront(n, blank + u, d);
    assert s == n + (blank + u);
    assert s[0] == n[0] && s[|s| - 1] == u[|u| - 1];
    assert s[i..j] == blank && s[j..] == u && s[j..|s|] == u;
    assert Matches(s, i, j, |s|, d);
    TrimTight(s, IsWhitespace);
    ScanIsLongestMatch(s, d);
    NothingAcrossBlank(s, i, d);
    assert s[..i] == n;
  }

  /** No number reaches across a blank. */
  lemma NothingAcrossBlank(s: string, i: nat, d: char -> bool)
    requires DigitTable(d) && 0 < i < |s| && IsWhitespace(s[i])
    ensures forall l: nat :: NumberTo(s, l, d) ==> l <= i
  {
    forall l: nat | NumberTo(s, l, d)
      ensures l <= i
    {
      if !Digits(s, SignEnd(s), l, d) {
        var m: nat :| Decimal(s, m, l, d);
      }
    }
  }

  lemma AloneReadsBack(n: string, d: char -> bool)
    requires DigitTable(d) && Number(n, d)
    ensures ParseValueAndUnit(n, d) == Reading(NumberOf(n), None)
  {
    NumberInFront(n, "", d);
    assert n + "" == n;
    NumberHasTightEnd(n, d);
    assert Matches(n, |n|, |n|, |n|, d);
    TrimTight(n, IsWhitespace);
    ScanIsLongestMatch(n, d);
    assert n[..|n|] == n;
  }

  lemma NumberHasTightEnd(n: string, d: char -> bool)
    requires DigitTable(d) && Number(n, d)
    ensures n != "" && d(n[|n| - 1]) && Tight(n, IsWhitespace)
  {
    NumberInFront(n, "", d);
    if !Digits(n, SignEnd(n), |n|, d) {
      var m: nat :| Decimal(n, m, |n|, d);
    }
  }

  /** The unit would be read as a decimal part, with an acceptable rest behind it. */
  predicate Continues(n: string, u: string, d: char -> bool) {
    && (forall k :: 0 <= k < |n| ==> !IsPoint(n[k]))
    && |u| >= 2 && IsPoint(u[0]) && d(u[1]) && TailOk(u, RunEnd(u, 1, d), d)
  }

  /** Written without a blank, number and unit are read back if and only if the unit does not
      look like the number's decimal part: `1.2V` is, but `1` with the unit `.5V` is not. */
  lemma AdjoiningReadsBackIff(n: string, u: string, d: char -> bool)
    requires DigitTable(d) && Number(n, d) && Unit(u, d)
    ensures ParseValueAndUnit(n + u, d) == Reading(NumberOf(n), Some(u)) <==> !Continues(n, u, d)
  {
    var s := n + u;
    NumberInFront(n, u, d);
    NumberHasTightEnd(n, d);
    assert s[0] == n[0] && s[|s| - 1] == u[|u| - 1];
    TrimTight(s, IsWhitespace);
    assert s[|n|..] == u && s[..|n|] == n && s[|n|..|n|] == "" && s[|n|..|s|] == u && s[|s|..] == "";
    assert Matches(s, |n|, |n|, |s|, d);
    ScanIsLongestMatch(s, d);
    var (i, j) := Scan(s, d).value;
    if i == |n| {
      assert s[j..] == u;
    } else {
      assert |s[j..]| < |u|;
    }
    LongerIffContinues(n, u, d);
  }

  /** Looking at the unit inside the whole text is looking at it alone. */
  lemma RunEndBehind(n: string, u: string, i: nat, p: char -> bool)
    requires i <= |u|
    ensures RunEnd(n + u, |n| + i, p) == |n| + RunEnd(u, i, p)
  {
    var j := RunEnd(u, i, p);
    assert forall k :: |n| + i <= k < |n| + j ==> (n + u)[k] == u[k - |n|];
    RunEndIs(n + u, |n| + i, |n| + j, p);
  }

  lemma TailBehind(n: string, u: string, i: nat, d: char -> bool)
    requires i <= |u|
    ensures TailOk(n + u, |n| + i, d) == TailOk(u, i, d)
  {
    RunEndBehind(n, u, i, IsWhitespace);
    var j := RunEnd(u, i, IsWhitespace);
    assert (n + u)[|n| + j..] == u[j..];
  }

  lemma EndsOfWhole(n: string, u: string, d: char -> bool)
    requires DigitTable(d) && Digits(n, SignEnd(n), |n|, d) && Unit(u, d)
    ensures WholeEnd(n + u, d) == |n| && SignEnd(n + u) < |n|
    ensures DecimalEnd(n + u, d) == |n| + (if |u| >= 2 && IsPoint(u[0]) && d(u[1]) then RunEnd(u, 1, d) else 0)
    ensures forall k :: 0 <= k < |n| ==> !IsPoint(n[k])
  {
    assert SignEnd(n + u) == SignEnd(n) && (n + u)[|n|] == u[0];
    assert forall k :: SignEnd(n) <= k < |n| ==> d((n + u)[k]);
    RunEndIs(n + u, SignEnd(n + u), |n|, d);
    if |u| >= 2 {
      assert (n + u)[|n| + 1] == u[1];
      RunEndBehind(n, u, 1, d);
    }
  }

  lemma EndsOfDecimal(n: string, u: string, m: nat, d: char -> bool)
    requires DigitTable(d) && Decimal(n, m, |n|, d) && Unit(u, d)
    ensures WholeEnd(n + u, d) == m < |n| && SignEnd(n + u) < m && DecimalEnd(n + u, d) == |n|
  {
    var s := n + u;
    assert SignEnd(s) == SignEnd(n) && s[|n|] == u[0] && s[m] == n[m] && s[m + 1] == n[m + 1];
    RunEndIs(s, SignEnd(s), m, d);
    RunEndIs(s, m + 1, |n|, d);
  }

  lemma LongerThanWholeIff(n: string, u: string, d: char -> bool)
    requires DigitTable(d) && Digits(n, SignEnd(n), |n|, d) && Unit(u, d) && Scan(n + u, d).Some?
    ensures Scan(n + u, d).value.0 > |n| <==> Continues(n, u, d)
  {
    EndsOfWhole(n, u, d);
    if |u| >= 2 {
      TailBehind(n, u, RunEnd(u, 1, d), d);
    }
  }

  lemma NotLongerThanDecimal(n: string, u: string, m: nat, d: char -> bool)
    requires DigitTable(d) && Decimal(n, m, |n|, d) && Unit(u, d) && Scan(n + u, d).Some?
    ensures Scan(n + u, d).value.0 <= |n| && !Continues(n, u, d)
  {
    EndsOfDecimal(n, u, m, d);
    assert IsPoint(n[m]);
  }

  /** The scanner goes beyond the number exactly when the unit continues it. */
  lemma LongerIffContinues(n: string, u: string, d: char -> bool)
    requires DigitTable(d) && Number(n, d) && Unit(u, d) && Scan(n + u, d).Some?
    ensures Scan(n + u, d).value.0 > |n| <==> Continues(n, u, d)
  {
    if Digits(n, SignEnd(n), |n|, d) {
      LongerThanWholeIff(n, u, d);
    } else {
      var m: nat :| Decimal(n, m, |n|, d);
      NotLongerThanDecimal(n, u, m, d);
    }
  }
}
