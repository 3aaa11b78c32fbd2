/** The round trip of the tuple-list format holds for no more lists than those proved in
    TelemetryParser: what is printed is read back, whatever topic carries it, if and only if
    every sample is printable.

    The counting argument: a tuple has two commas, and a sample with all its fields needs both.
    A field that ends in a parenthesis opens a false tuple boundary, which takes one away.
  */
module TelemetryExactness {
  import opened Wrappers
  import opened Text
  import opened TelemetryParser

  const BOUNDARY := "),"

  // ---------------------------------------------------------------- commas

  function Commas(s: string): nat {
    if s == "" then 0 else (if s[0] == ',' then 1 else 0) + Commas(s[1..])
  }

  lemma {:induction false} CommasConcat(a: string, b: string)
    ensures Commas(a + b) == Commas(a) + Commas(b)
    decreases |a|
  {
    if a == "" {
      assert a + b == b;
    } else {
      assert (a + b)[1..] == a[1..] + b;
      CommasConcat(a[1..], b);
    }
  }

  lemma {:induction false} NoCommas(s: string)
    requires ',' !in s
    ensures Commas(s) == 0
    decreases |s|
  {
    if s != "" {
      NoCommas(s[1..]);
    }
  }

  lemma {:induction false} TrimCommas(s: string, p: char -> bool)
    ensures Commas(TrimStart(s, p)) <= Commas(s) && Commas(TrimEnd(s, p)) <= Commas(s)
    decreases |s|
  {
    if s != "" {
      TrimCommas(s[1..], p);
      TrimCommas(s[..|s| - 1], p);
      CommasConcat(s[..|s| - 1], [s[|s| - 1]]);
      assert s[..|s| - 1] + [s[|s| - 1]] == s;
    }
  }

  lemma TrimByCommas(s: string, p: char -> bool)
    ensures Commas(TrimBy(s, p)) <= Commas(s)
  {
    TrimCommas(s, p);
    TrimCommas(TrimStart(s, p), p);
  }

  lemma CleaningCommas(raw: string)
    ensures Commas(Body(CleanItem(raw))) <= Commas(raw)
  {
    TrimByCommas(raw, IsWhitespace);
    TrimCommas(Trim(raw), IsClosing);
    TrimByCommas(TrimEnd(Trim(raw), IsClosing), IsWhitespace);
    var item := CleanItem(raw);
    TrimByCommas(item, IsWhitespace);
    TrimCommas(Trim(item), IsOpening);
    TrimCommas(TrimStart(Trim(item), IsOpening), IsClosing);
    TrimByCommas(TrimEnd(TrimStart(Trim(item), IsOpening), IsClosing), IsWhitespace);
  }

  lemma {:induction false} PartsAreCommas(s: string)
    ensures |Split(s, ",")| == Commas(s) + 1
    decreases |s|
  {
    if s != "" {
      assert "," <= s <==> s[0] == ',';
      PartsAreCommas(s[1..]);
    }
  }

  function TotalCommas(pieces: seq<string>): nat {
    if pieces == [] then 0 else Commas(pieces[0]) + TotalCommas(pieces[1..])
  }

  /** Every cut at a boundary takes one comma away. */
  lemma {:induction false} CutsTakeCommas(s: string)
    ensures TotalCommas(Split(s, BOUNDARY)) + |Split(s, BOUNDARY)| == Commas(s) + 1
    decreases |s|
  {
    if s == "" {
      assert [""][1..] == [];
    } else if BOUNDARY <= s {
      assert s[1] == BOUNDARY[1] && s[0] == BOUNDARY[0] && s[1..][1..] == s[2..];
      CutsTakeCommas(s[2..]);
      assert ([""] + Split(s[2..], BOUNDARY))[1..] == Split(s[2..], BOUNDARY);
    } else {
      CutsTakeCommas(s[1..]);
      var rest := Split(s[1..], BOUNDARY);
      assert ([[s[0]] + rest[0]] + rest[1..])[1..] == rest[1..];
      assert ([s[0]] + rest[0])[1..] == rest[0];
    }
  }

  lemma {:induction false} PieceCommas(pieces: seq<string>, k: nat)
    requires k < |pieces|
    ensures Commas(pieces[k]) <= TotalCommas(pieces)
    decreases |pieces|
  {
    if k > 0 {
      PieceCommas(pieces[1..], k - 1);
    }
  }

  // ---------------------------------------------------------------- complete samples

  /** With all its fields from the text, m being the topic of the message. */
  predicate Complete(x: Sample, m: string) { x.topic != m && x.datetime.Some? }

  function Known(f: Fields): nat {
    (if f.topic.Some? then 1 else 0) + (if f.data.Some? then 1 else 0) + (if f.datetime.Some? then 1 else 0)
  }

  lemma {:induction false} KnownFromParts(parts: seq<string>)
    ensures Known(FieldsOf(parts)) <= |parts|
    decreases |parts|
  {
    if parts != [] {
      KnownFromParts(parts[..|parts| - 1]);
    }
  }

  lemma CompleteNeedsTwoCommas(raw: string, m: string)
    requires SampleOf(CleanItem(raw), m).Some? && Complete(SampleOf(CleanItem(raw), m).value, m)
    ensures Commas(raw) >= 2
  {
    var body := Body(CleanItem(raw));
    KnownFromParts(Split(body, ","));
    PartsAreCommas(body);
    CleaningCommas(raw);
  }

  // ---------------------------------------------------------------- pieces and their samples

  function Read(pieces: seq<string>, m: string): seq<Sample> { SamplesOf(CleanItems(pieces), m) }

  lemma ReadConcat(a: seq<string>, b: seq<string>, m: string)
    ensures Read(a + b, m) == Read(a, m) + Read(b, m)
  {
    CollectConcat(a, b, KeptItem);
    CollectConcat(CleanItems(a), CleanItems(b), item => SampleOf(item, m));
  }

  lemma ReadOne(raw: string, m: string)
    ensures Read([raw], m) == if SampleOf(CleanItem(raw), m).Some? then [SampleOf(CleanItem(raw), m).value] else []
  {
    CleanOne(raw);
    var item := CleanItem(raw);
    if item == "" {
      TrimTight("", IsWhitespace);
      TrimTight("", IsOpening);
      TrimTight("", IsClosing);
    } else {
      SamplesNext([item], 0, m);
      assert [item][..1] == [item] && [item][..0] == [];
    }
  }

  ghost predicate AllComplete(xs: seq<Sample>, m: string) {
    forall k :: 0 <= k < |xs| ==> Complete(xs[k], m)
  }

  lemma {:induction false} PoorPiecesGiveNothing(pieces: seq<string>, m: string)
    requires forall k :: 0 <= k < |pieces| ==> Commas(pieces[k]) <= 1
    requires AllComplete(Read(pieces, m), m)
    ensures Read(pieces, m) == []
    decreases |pieces|
  {
    if pieces != [] {
      assert pieces == [pieces[0]] + pieces[1..];
      ReadConcat([pieces[0]], pieces[1..], m);
      var head, tail := Read([pieces[0]], m), Read(pieces[1..], m);
      assert forall k :: 0 <= k < |tail| ==> tail[k] == (head + tail)[|head| + k];
      PoorPiecesGiveNothing(pieces[1..], m);
      ReadOne(pieces[0], m);
      if head != [] {
        assert Complete((head + tail)[0], m);
        CompleteNeedsTwoCommas(pieces[0], m);
      }
    }
  }

  /** A text with two commas gives one complete sample at most, and then it was not cut. */
  lemma OneSampleUncut(raw: string, m: string)
    requires Commas(raw) == 2 && AllComplete(Read(Split(raw, BOUNDARY), m), m)
    ensures var xs := Read(Split(raw, BOUNDARY), m);
            |xs| <= 1 && (xs != [] ==> Split(raw, BOUNDARY) == [raw] && SampleOf(CleanItem(raw), m) == Some(xs[0]))
  {
    var pieces := Split(raw, BOUNDARY);
    CutsTakeCommas(raw);
    if |pieces| == 1 {
      UncutIsWhole(raw);
      ReadOne(raw, m);
    } else {
      forall k | 0 <= k < |pieces|
        ensures Commas(pieces[k]) <= 1
      {
        PieceCommas(pieces, k);
      }
      PoorPiecesGiveNothing(pieces, m);
    }
  }

  lemma {:induction false} UncutIsWhole(s: string)
    requires |Split(s, BOUNDARY)| == 1
    ensures Split(s, BOUNDARY) == [s]
    decreases |s|
  {
    if s != "" && !(BOUNDARY <= s) {
      UncutIsWhole(s[1..]);
      assert [s[0]] + s[1..] == s;
    }
  }

  /** Boundaries cannot overlap what surrounds them. */
  lemma {:induction false} CutAtBoundary(a: string, rest: string)
    ensures Split(a + BOUNDARY + rest, BOUNDARY) == Split(a, BOUNDARY) + Split(rest, BOUNDARY)
    decreases |a|
  {
    var all := a + BOUNDARY + rest;
    if a == "" {
      assert all == BOUNDARY + rest && all[|BOUNDARY|..] == rest;
    } else if BOUNDARY <= a {
      assert BOUNDARY <= all && all[2..] == a[2..] + BOUNDARY + rest;
      CutAtBoundary(a[2..], rest);
      var more, tail := Split(a[2..], BOUNDARY), Split(rest, BOUNDARY);
      assert [""] + (more + tail) == ([""] + more) + tail;
    } else {
      NoBoundaryYet(a, rest);
      assert all[1..] == a[1..] + BOUNDARY + rest && all[0] == a[0];
      CutAtBoundary(a[1..], rest);
      GrowFirst(a[0], Split(a[1..], BOUNDARY), Split(rest, BOUNDARY));
    }
  }

  lemma GrowFirst(c: char, parts: seq<string>, more: seq<string>)
    requires parts != []
    ensures [[c] + (parts + more)[0]] + (parts + more)[1..] == [[c] + parts[0]] + parts[1..] + more
  {
  }

  lemma NoBoundaryYet(a: string, rest: string)
    requires a != "" && !(BOUNDARY <= a)
    ensures !(BOUNDARY <= a + BOUNDARY + rest)
  {
    var all := a + BOUNDARY + rest;
    if |a| == 1 {
      assert all[1] == ')';
    } else {
      assert all[0] == a[0] && all[1] == a[1];
      assert a[..2] == [a[0], a[1]];
    }
  }

  // ---------------------------------------------------------------- the tuples of a list

  function Raw(s: Sample, blank: string, closed: bool): string
    requires s.datetime.Some?
  {
    blank + Opened(s) + (if closed then ")" else "")
  }

  predicate Commaless(s: Sample) {
    s.datetime.Some? && ',' !in s.topic && ',' !in s.data && ',' !in s.datetime.value
  }

  lemma RawHasTwoCommas(s: Sample, blank: string, closed: bool)
    requires Commaless(s) && AllOf(blank, IsWhitespace)
    ensures Commas(Raw(s, blank, closed)) == 2
  {
    var front := blank + "( topic: " + s.topic;
    var back := " datetime: " + s.datetime.value + " " + (if closed then ")" else "");
    RawInThree(s, blank, closed);
    TwoCommas(front, " data: " + s.data, back);
  }

  lemma HeadInThree(topic: string, data: string, rest: string)
    ensures ("topic: " + topic + ", data: " + data + ", ") + rest ==
        "topic: " + topic + "," + ((" data: " + data) + "," + (" " + rest))
  {
  }

  lemma Reassociate(blank: string, front: string, rest: string, end: string)
    ensures blank + ("( " + (front + "," + rest) + " ") + end == (blank + "( " + front) + "," + (rest + " " + end)
  {
  }

  lemma RawInThree(s: Sample, blank: string, closed: bool)
    requires s.datetime.Some?
    ensures Raw(s, blank, closed)
         == (blank + "( topic: " + s.topic) + ","
            + ((" data: " + s.data) + "," + (" datetime: " + s.datetime.value + " " + (if closed then ")" else "")))
  {
    var end := if closed then ")" else "";
    var rest := "datetime: " + s.datetime.value;
    HeadInThree(s.topic, s.data, rest);
    var tail := (" data: " + s.data) + "," + (" " + rest);
    assert Opened(s) == "( " + ("topic: " + s.topic + "," + tail) + " ";
    Reassociate(blank, "topic: " + s.topic, tail, end);
    assert blank + "( " + ("topic: " + s.topic) == blank + "( topic: " + s.topic;
    assert tail + " " + end == (" data: " + s.data) + "," + (" datetime: " + s.datetime.value + " " + end);
  }

  lemma TwoCommas(a: string, b: string, c: string)
    requires ',' !in a && ',' !in b && ',' !in c
    ensures Commas(a + "," + (b + "," + c)) == 2
  {
    PartsOfCut(a, b + "," + c);
    PartsOfCut(b, c);
    NoCommas(c);
  }

  lemma PartsOfCut(a: string, b: string)
    requires ',' !in a
    ensures Commas(a + "," + b) == 1 + Commas(b)
  {
    CommasConcat(a + ",", b);
    CommasConcat(a, ",");
    NoCommas(a);
    assert ","[1..] == "";
  }

  /** x is what was read from the uncut tuple of s. */
  ghost predicate ReadFrom(s: Sample, x: Sample, m: string)
    requires s.datetime.Some?
  {
    exists blank, closed :: AllOf(blank, IsWhitespace)
                         && Split(Raw(s, blank, closed), BOUNDARY) == [Raw(s, blank, closed)]
                         && SampleOf(CleanItem(Raw(s, blank, closed)), m) == Some(x)
  }

  lemma OneTuple(s: Sample, blank: string, closed: bool, m: string)
    requires Commaless(s) && AllOf(blank, IsWhitespace)
    requires AllComplete(Read(Split(Raw(s, blank, closed), BOUNDARY), m), m)
    ensures var xs := Read(Split(Raw(s, blank, closed), BOUNDARY), m); |xs| <= 1 && (xs != [] ==> ReadFrom(s, xs[0], m))
  {
    RawHasTwoCommas(s, blank, closed);
    OneSampleUncut(Raw(s, blank, closed), m);
  }

  lemma CompleteParts(head: seq<Sample>, tail: seq<Sample>, m: string)
    requires AllComplete(head + tail, m)
    ensures AllComplete(head, m) && AllComplete(tail, m)
  {
    assert forall k :: 0 <= k < |head| ==> head[k] == (head + tail)[k];
    assert forall k :: 0 <= k < |tail| ==> tail[k] == (head + tail)[|head| + k];
  }

  /** The samples read from the first tuple and from the others. */
  lemma ReadFirst(ss: seq<Sample>, blank: string, m: string)
    requires |ss| >= 2 && forall i :: 0 <= i < |ss| ==> ss[i].datetime.Some?
    ensures Read(Split(blank + Tuples(ss), BOUNDARY), m)
         == Read(Split(Raw(ss[0], blank, false), BOUNDARY), m) + Read(Split(" " + Tuples(ss[1..]), BOUNDARY), m)
  {
    var rest := " " + Tuples(ss[1..]);
    var first := Raw(ss[0], blank, false);
    assert blank + Tuples(ss) == first + BOUNDARY + rest;
    CutAtBoundary(first, rest);
    ReadConcat(Split(first, BOUNDARY), Split(rest, BOUNDARY), m);
  }

  ghost predicate OneEach(ss: seq<Sample>, xs: seq<Sample>, m: string)
    requires forall i :: 0 <= i < |ss| ==> ss[i].datetime.Some?
  {
    |xs| <= |ss| && (|xs| == |ss| ==> forall i :: 0 <= i < |ss| ==> ReadFrom(ss[i], xs[i], m))
  }

  lemma OneMore(ss: seq<Sample>, head: seq<Sample>, tail: seq<Sample>, m: string)
    requires ss != [] && forall i :: 0 <= i < |ss| ==> ss[i].datetime.Some?
    requires |head| <= 1 && (head != [] ==> ReadFrom(ss[0], head[0], m)) && OneEach(ss[1..], tail, m)
    ensures OneEach(ss, head + tail, m)
  {
    var xs := head + tail;
    if |xs| == |ss| {
      assert |head| == 1 && |tail| == |ss| - 1;
      forall i | 0 <= i < |ss|
        ensures ReadFrom(ss[i], xs[i], m)
      {
        if i > 0 {
          assert xs[i] == tail[i - 1] && ss[1..][i - 1] == ss[i];
          assert ReadFrom(ss[1..][i - 1], tail[i - 1], m);
        } else {
          assert xs[0] == head[0];
        }
      }
    }
  }

  lemma {:induction false} TuplesGiveOneEach(ss: seq<Sample>, blank: string, m: string)
    requires ss != [] && AllOf(blank, IsWhitespace)
    requires forall i :: 0 <= i < |ss| ==> ss[i].datetime.Some? && Commaless(ss[i])
    requires AllComplete(Read(Split(blank + Tuples(ss), BOUNDARY), m), m)
    ensures OneEach(ss, Read(Split(blank + Tuples(ss), BOUNDARY), m), m)
    decreases |ss|
  {
    if |ss| == 1 {
      assert blank + Tuples(ss) == Raw(ss[0], blank, true);
      OneTuple(ss[0], blank, true, m);
    } else {
      ReadFirst(ss, blank, m);
      var head := Read(Split(Raw(ss[0], blank, false), BOUNDARY), m);
      var tail := Read(Split(" " + Tuples(ss[1..]), BOUNDARY), m);
      CompleteParts(head, tail, m);
      OneTuple(ss[0], blank, false, m);
      TuplesGiveOneEach(ss[1..], " ", m);
      OneMore(ss, head, tail, m);
    }
  }

  // ---------------------------------------------------------------- what reading takes from a field

  lemma {:induction false} TrimStartIsEnd(s: string, p: char -> bool)
    ensures |TrimStart(s, p)| <= |s| && s[|s| - |TrimStart(s, p)|..] == TrimStart(s, p)
    decreases |s|
  {
    if s != "" {
      TrimStartIsEnd(s[1..], p);
    }
  }

  lemma {:induction false} TrimEndIsPrefix(s: string, p: char -> bool)
    ensures TrimEnd(s, p) <= s
    decreases |s|
  {
    if s != "" {
      TrimEndIsPrefix(s[..|s| - 1], p);
    }
  }

  lemma TrimByShrinks(s: string, p: char -> bool)
    ensures |TrimBy(s, p)| <= |s| && (|TrimBy(s, p)| == |s| ==> TrimBy(s, p) == s)
  {
    TrimStartIsEnd(s, p);
    TrimEndIsPrefix(TrimStart(s, p), p);
  }

  /** A value that survives reading was all there and had nothing to trim. */
  lemma SurvivorIsTight(v: string, w: string)
    requires w <= " " + v && TrimBy(Trim(w), IsQuote) == v
    ensures Tight(v, IsWhitespace) && (v != "" ==> w == " " + v)
  {
    TrimByShrinks(Trim(w), IsQuote);
    if w != "" {
      assert w[0] == ' ';
      assert Trim(w) == Trim(w[1..]);
      TrimByShrinks(w[1..], IsWhitespace);
      TrimByIsTight(w[1..], IsWhitespace);
      assert |w[1..]| <= |v|;
      if v != "" {
        assert |w| == |v| + 1 && w == (" " + v)[..|w|];
        assert w[1..] == v;
      }
    } else {
      TrimTight("", IsWhitespace);
    }
  }

  /** Trimming the end stops at a colon. */
  lemma {:induction false} TrimEndBehind(a: string, y: string, p: char -> bool)
    requires a != "" && !p(a[|a| - 1])
    ensures TrimEnd(a + y, p) == a + TrimEnd(y, p)
    decreases |y|
  {
    if y == "" {
      assert a + y == a;
    } else {
      assert (a + y)[..|a + y| - 1] == a + y[..|y| - 1];
      TrimEndBehind(a, y[..|y| - 1], p);
    }
  }

  // ---------------------------------------------------------------- one uncut tuple, read back

  /** The tuple from its topic to the colon of its datetime. */
  function Stem(s: Sample): string {
    "topic: " + s.topic + ", data: " + s.data + ", datetime:"
  }

  /** One round of trimming at the end. */
  function Cleaned(y: string): string {
    TrimEnd(TrimEnd(TrimEnd(y, IsWhitespace), IsClosing), IsWhitespace)
  }

  /** What is left behind the colon when a raw tuple is cleaned and its body taken. */
  function Left(y: string): string {
    Cleaned(Cleaned(y))
  }

  lemma TrimStem(pre: string, stem: string, y: string)
    requires AllOf(pre, IsWhitespace) && StemLike(stem)
    ensures Trim(pre + (stem + y)) == stem + TrimEnd(y, IsWhitespace)
  {
    TrimStartPad(pre, stem + y, IsWhitespace);
    TrimEndBehind(stem, y, IsWhitespace);
  }

  predicate StemLike(stem: string) {
    stem != "" && !IsWhitespace(stem[0]) && stem[|stem| - 1] == ':'
  }

  lemma CleanedRaw(open: string, blank: string, y: string)
    requires AllOf(blank, IsWhitespace) && StemLike(open)
    ensures CleanItem(blank + (open + y)) == open + Cleaned(y)
  {
    TrimStem(blank, open, y);
    var y1 := TrimEnd(y, IsWhitespace);
    TrimEndBehind(open, y1, IsClosing);
    var y2 := TrimEnd(y1, IsClosing);
    TrimStem("", open, y2);
    assert "" + (open + y2) == open + y2;
  }

  lemma OpeningGoes(stem: string, y: string)
    requires StemLike(stem)
    ensures TrimStart("( " + stem + y, IsOpening) == " " + stem + y
  {
    assert "( " + stem + y == "(" + (" " + stem + y);
    TrimStartPad("(", " " + stem + y, IsOpening);
  }

  lemma BodyBehind(stem: string, y: string)
    requires StemLike(stem)
    ensures Body("( " + stem + y) == stem + Cleaned(y)
  {
    var y1 := TrimEnd(y, IsWhitespace);
    var y2 := TrimEnd(y1, IsClosing);
    assert Trim("( " + stem + y) == "( " + stem + y1 by {
      TrimStem("", "( " + stem, y);
      assert "" + ("( " + stem + y) == "( " + stem + y;
    }
    OpeningGoes(stem, y1);
    TrimEndBehind(" " + stem, y1, IsClosing);
    assert Trim(" " + stem + y2) == stem + TrimEnd(y2, IsWhitespace) by {
      TrimStem(" ", stem, y2);
      assert " " + (stem + y2) == " " + stem + y2;
    }
  }

  lemma BodyOfRaw(stem: string, blank: string, y: string)
    requires AllOf(blank, IsWhitespace) && StemLike(stem)
    ensures Body(CleanItem(blank + ("( " + stem + y))) == stem + Left(y)
  {
    CleanedRaw("( " + stem, blank, y);
    BodyBehind(stem, Cleaned(y));
  }

  lemma LeftIsPrefix(v: string, closed: bool)
    ensures var w := Left(" " + v + " " + (if closed then ")" else ""));
            w <= " " + v && (w == " " + v && v != "" ==> v[|v| - 1] != ')')
  {
    var y0 := " " + v + " " + (if closed then ")" else "");
    var y1 := TrimEnd(y0, IsWhitespace);
    var y2 := TrimEnd(y1, IsClosing);
    var y3 := TrimEnd(y2, IsWhitespace);
    var y4 := TrimEnd(y3, IsWhitespace);
    var y5 := TrimEnd(y4, IsClosing);
    TrimEndIsPrefix(y2, IsWhitespace);
    TrimEndIsPrefix(y3, IsWhitespace);
    TrimEndIsPrefix(y4, IsClosing);
    TrimEndIsPrefix(y5, IsWhitespace);
    TrimEndIsClean(y4, IsClosing);
    ThirdIsPrefix(v, closed);
  }

  lemma ThirdIsPrefix(v: string, closed: bool)
    ensures Cleaned(" " + v + " " + (if closed then ")" else "")) <= " " + v
  {
    var u := " " + v + " ";
    assert u[..|u| - 1] == " " + v;
    TrimEndIsPrefix(" " + v, IsWhitespace);
    if closed {
      TrimEndPad(u + ")", "", IsWhitespace);
      assert u + ")" + "" == u + ")";
      TrimEndPad(u, ")", IsClosing);
    } else {
      assert u + "" == u;
      var y := TrimEnd(" " + v, IsWhitespace);
      TrimEndIsPrefix(y, IsClosing);
      TrimEndIsPrefix(TrimEnd(y, IsClosing), IsWhitespace);
    }
  }

  /** Key and rest of a part whose key is one of the format's. */
  lemma KeyIsFound(blank: string, key: string, rest: string)
    requires KeyLike(key) && AllOf(blank, IsWhitespace)
    ensures KeyValue(blank + (key + ":" + rest)) == (key, TrimBy(Trim(TrimEnd(rest, IsWhitespace)), IsQuote))
  {
    var stem := key + ":";
    assert stem[0] == key[0];
    TrimStem(blank, stem, rest);
    var t := TrimEnd(rest, IsWhitespace);
    assert stem + t == key + [':'] + t;
    CutAtFirst(key, ':', t);
    TrimTight(key, IsWhitespace);
  }

  lemma ThreeParts(a: string, b: string, c: string)
    requires ',' !in a && ',' !in b && ',' !in c
    ensures Split(a + "," + (b + "," + c), ",") == [a, b, c]
  {
    CutHere(a, b + "," + c);
    CutHere(b, c);
    SplitNoComma(c);
  }

  function ValueIn(rest: string): string { TrimBy(Trim(TrimEnd(rest, IsWhitespace)), IsQuote) }

  lemma FieldsOfParts(topic: string, data: string, w: string)
    ensures FieldsOf(["" + ("topic" + ":" + topic), " " + ("data" + ":" + data), " " + ("datetime" + ":" + w)])
         == Fields(Some(ValueIn(topic)), Some(ValueIn(data)), Some(ValueIn(w)))
  {
    KeysAreKeyLike();
    var p0, p1, p2 := "" + ("topic" + ":" + topic), " " + ("data" + ":" + data), " " + ("datetime" + ":" + w);
    assert KeyValue(p0) == ("topic", ValueIn(topic)) by { KeyIsFound("", "topic", topic); }
    assert KeyValue(p1) == ("data", ValueIn(data)) by { KeyIsFound(" ", "data", data); }
    assert KeyValue(p2) == ("datetime", ValueIn(w)) by { KeyIsFound(" ", "datetime", w); }
    ThreeAssignments(p0, p1, p2, ValueIn(topic), ValueIn(data), ValueIn(w));
  }

  /** The three values read from a body. */
  lemma BodyFields(s: Sample, w: string)
    requires Commaless(s) && ',' !in w
    ensures FieldsOf(Split(Stem(s) + w, ","))
         == Fields(Some(ValueIn(" " + s.topic)), Some(ValueIn(" " + s.data)), Some(ValueIn(w)))
  {
    var a := "" + ("topic" + ":" + (" " + s.topic));
    var b, c := " " + ("data" + ":" + (" " + s.data)), " " + ("datetime" + ":" + w);
    BodyInThree(s, w);
    ThreeParts(a, b, c);
    FieldsOfParts(" " + s.topic, " " + s.data, w);
  }

  lemma BodyInThree(s: Sample, w: string)
    ensures Stem(s) + w
         == ("" + ("topic" + ":" + (" " + s.topic))) + ","
            + ((" " + ("data" + ":" + (" " + s.data))) + "," + (" " + ("datetime" + ":" + w)))
  {
  }

  lemma UncutEndsPlainly(a: string, v: string, rest: string)
    requires |Split(a + v + "," + rest, BOUNDARY)| == 1
    ensures v != "" ==> v[|v| - 1] != ')'
  {
    if v != "" {
      var front := a + v[..|v| - 1];
      CutAtBoundary(front, rest);
      assert v[|v| - 1] == ')' ==> a + v + "," + rest == front + BOUNDARY + rest;
    }
  }

  lemma UncutFields(s: Sample, blank: string, closed: bool)
    requires s.datetime.Some? && |Split(Raw(s, blank, closed), BOUNDARY)| == 1
    ensures s.topic != "" ==> s.topic[|s.topic| - 1] != ')'
    ensures s.data != "" ==> s.data[|s.data| - 1] != ')'
  {
    var back := " datetime: " + s.datetime.value + " " + (if closed then ")" else "");
    RawInThree(s, blank, closed);
    UncutEndsPlainly(blank + "( topic: ", s.topic, (" data: " + s.data) + "," + back);
    var front := blank + "( topic: " + s.topic + ",";
    assert Raw(s, blank, closed) == (front + " data: ") + s.data + "," + back;
    UncutEndsPlainly(front + " data: ", s.data, back);
  }

  /** A value read from the text behind its key, which begins with a blank. */
  lemma ReadValueIsTight(v: string, w: string)
    requires w <= " " + v && ValueIn(w) == v
    ensures Tight(v, IsWhitespace) && (v != "" ==> w == " " + v)
  {
    TrimEndIsPrefix(w, IsWhitespace);
    SurvivorIsTight(v, TrimEnd(w, IsWhitespace));
  }

  lemma RawIsStem(s: Sample, blank: string, closed: bool)
    requires s.datetime.Some?
    ensures Raw(s, blank, closed) == blank +
        ("( " + Stem(s) + (" " + s.datetime.value + " " + (if closed then ")" else "")))
    ensures StemLike(Stem(s)) && Stem(s)[0] == 't'
  {
    assert Stem(s)[0] == "topic: "[0];
  }

  function Behind(s: Sample, closed: bool): string
    requires s.datetime.Some?
  {
    Left(" " + s.datetime.value + " " + (if closed then ")" else ""))
  }

  lemma BodyOfTuple(s: Sample, blank: string, closed: bool)
    requires s.datetime.Some? && AllOf(blank, IsWhitespace)
    ensures Body(CleanItem(Raw(s, blank, closed))) == Stem(s) + Behind(s, closed)
  {
    RawIsStem(s, blank, closed);
    BodyOfRaw(Stem(s), blank, " " + s.datetime.value + " " + (if closed then ")" else ""));
  }

  lemma FieldsOfRaw(s: Sample, blank: string, closed: bool)
    requires Commaless(s) && AllOf(blank, IsWhitespace)
    ensures Behind(s, closed) <= " " + s.datetime.value
    ensures FieldsOf(Split(Body(CleanItem(Raw(s, blank, closed))), ","))
         == Fields(Some(ValueIn(" " + s.topic)), Some(ValueIn(" " + s.data)), Some(ValueIn(Behind(s, closed))))
  {
    BodyOfTuple(s, blank, closed);
    LeftIsPrefix(s.datetime.value, closed);
    BodyFields(s, Behind(s, closed));
  }

  /** A sample read back from its own uncut tuple is printable. */
  lemma ReadBackIsPrintable(s: Sample, blank: string, closed: bool, m: string)
    requires Commaless(s) && ReadableSample(s, m) && Readable(s.topic) && AllOf(blank, IsWhitespace)
    requires Split(Raw(s, blank, closed), BOUNDARY) == [Raw(s, blank, closed)]
    requires SampleOf(CleanItem(Raw(s, blank, closed)), m) == Some(s)
    ensures PrintableSample(s)
  {
    FieldsOfRaw(s, blank, closed);
    ReadValueIsTight(s.topic, " " + s.topic);
    ReadValueIsTight(s.data, " " + s.data);
    ReadValueIsTight(s.datetime.value, Behind(s, closed));
    LeftIsPrefix(s.datetime.value, closed);
    UncutFields(s, blank, closed);
  }

  // ---------------------------------------------------------------- the list

  /** A printed list loses its braces whatever it holds. */
  lemma PrintUnbraces(ss: seq<Sample>)
    requires forall i :: 0 <= i < |ss| ==> ss[i].datetime.Some?
    ensures Unbraced(Print(ss)) == Tuples(ss)
  {
    if ss != [] {
      TuplesAreTight(ss);
    }
    UnbracedBraces(Tuples(ss));
  }

  lemma ReadBackMeansPrintable(ss: seq<Sample>)
    requires forall i :: 0 <= i < |ss| ==> ss[i].datetime.Some?
    requires Parse(Print(ss), ",") == ss && Parse(Print(ss), ",,") == ss
    ensures AllPrintable(ss)
  {
    if ss != [] {
      ParsedIsReadable(Print(ss), ",");
      ParsedIsReadable(Print(ss), ",,");
      PrintUnbraces(ss);
      forall i | 0 <= i < |ss|
        ensures Commaless(ss[i]) && Readable(ss[i].topic) && ReadableSample(ss[i], ",") && Complete(ss[i], ",")
      {
        assert ss[i] in ss;
      }
      assert "" + Tuples(ss) == Tuples(ss);
      TuplesGiveOneEach(ss, "", ",");
      forall i | 0 <= i < |ss|
        ensures PrintableSample(ss[i])
      {
        assert ReadFrom(ss[i], ss[i], ",");
        var blank, closed :| AllOf(blank, IsWhitespace)
                          && Split(Raw(ss[i], blank, closed), BOUNDARY) == [Raw(ss[i], blank, closed)]
                          && SampleOf(CleanItem(Raw(ss[i], blank, closed)), ",") == Some(ss[i]);
        ReadBackIsPrintable(ss[i], blank, closed, ",");
      }
    }
  }

  /** What is printed is read back under every message topic if and only if all samples are printable. */
  lemma RoundTripIff(ss: seq<Sample>)
    requires forall i :: 0 <= i < |ss| ==> ss[i].datetime.Some?
    ensures (forall m :: Parse(Print(ss), m) == ss) <==> AllPrintable(ss)
  {
    if AllPrintable(ss) {
      forall m
        ensures Parse(Print(ss), m) == ss
      {
        RoundTrip(ss, m);
      }
    }
    if forall m :: Parse(Print(ss), m) == ss {
      assert Parse(Print(ss), ",") == ss && Parse(Print(ss), ",,") == ss;
      ReadBackMeansPrintable(ss);
    }
  }
}
