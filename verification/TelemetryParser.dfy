/** The tuple-list telemetry format: the parser of the gateway, and a printer for it. */
module TelemetryParser {
  import opened Wrappers
  import opened Text

  /** A parsed sample; the datetime is kept as its raw text, None standing for "now". */
  datatype Sample = Sample(topic: string, data: string, datetime: Option<string>)

  /** The three variables the parser assigns while it reads one tuple. */
  datatype Fields = Fields(topic: Option<string>, data: Option<string>, datetime: Option<string>)

  const NO_FIELDS := Fields(None, None, None)

  /** `key : value`, both trimmed, the value also of quotes. */
  function KeyValue(part: string): (string, string) {
    var (k, v) := Cut(Trim(part), ':');
    (Lower(Trim(k)), TrimBy(Trim(if v.Some? then v.value else ""), IsQuote))
  }

  function Assigned(f: Fields, part: string): Fields {
    var (k, v) := KeyValue(part);
    if k == "topic" then f.(topic := Some(v))
    else if k == "data" || k == "value" then f.(data := Some(v))
    else if k == "datetime" || k == "ts" || k == "time" then f.(datetime := Some(v))
    else f
  }

  function FieldsOf(parts: seq<string>): Fields {
    if parts == [] then NO_FIELDS else Assigned(FieldsOf(parts[..|parts| - 1]), parts[|parts| - 1])
  }

  /** The body of a tuple: outer parentheses and whitespace removed. */
  function Body(item: string): string {
    Trim(TrimEnd(TrimStart(Trim(item), IsOpening), IsClosing))
  }

  function SampleOf(item: string, mqttTopic: string): Option<Sample> {
    if Body(item) == "" then None
    else
      var f := FieldsOf(Split(Body(item), ","));
      if f.data.None? || f.data.value == "" then None
      else Some(Sample(if f.topic.Some? then f.topic.value else mqttTopic, f.data.value, f.datetime))
  }

  /** The answers present, in order. */
  function Collect<T>(items: seq<string>, read: string -> Option<T>): seq<T> {
    if items == [] then []
    else
      var last := read(items[|items| - 1]);
      Collect(items[..|items| - 1], read) + (if last.Some? then [last.value] else [])
  }

  lemma {:induction false} CollectConcat<T>(a: seq<string>, b: seq<string>, read: string -> Option<T>)
    ensures Collect(a + b, read) == Collect(a, read) + Collect(b, read)
    decreases |b|
  {
    if b == [] {
      assert a + b == a;
    } else {
      assert (a + b)[..|a + b| - 1] == a + b[..|b| - 1];
      CollectConcat(a, b[..|b| - 1], read);
    }
  }

  lemma CollectOne<T>(item: string, read: string -> Option<T>)
    ensures Collect([item], read) == if read(item).Some? then [read(item).value] else []
  {
    assert [item][..0] == [];
    assert Collect([item][..0], read) == [];
  }

  function SamplesOf(items: seq<string>, mqttTopic: string): seq<Sample> {
    Collect(items, item => SampleOf(item, mqttTopic))
  }

  lemma SamplesNext(items: seq<string>, i: nat, mqttTopic: string)
    requires i < |items|
    ensures SamplesOf(items[..i + 1], mqttTopic)
         == SamplesOf(items[..i], mqttTopic)
            + var last := SampleOf(items[i], mqttTopic); if last.Some? then [last.value] else []
  {
    assert items[..i + 1][..i] == items[..i];
  }

  lemma FieldsNext(parts: seq<string>, j: nat)
    requires j < |parts|
    ensures FieldsOf(parts[..j + 1]) == Assigned(FieldsOf(parts[..j]), parts[j])
  {
    assert parts[..j + 1][..j] == parts[..j];
  }

  /** Strip the outer braces, if both are there. */
  function Unbraced(t: string): string {
    var s := Trim(t);
    if |s| >= 2 && s[0] == '{' && s[|s| - 1] == '}' then Trim(s[1..|s| - 1]) else s
  }

  function CleanItem(raw: string): string {
    Trim(TrimEnd(Trim(raw), IsClosing))
  }

  function KeptItem(raw: string): Option<string> {
    if CleanItem(raw) != "" then Some(CleanItem(raw)) else None
  }

  function CleanItems(raws: seq<string>): seq<string> { Collect(raws, KeptItem) }

  function Parse(t: string, mqttTopic: string): seq<Sample> {
    SamplesOf(CleanItems(Split(Unbraced(t), "),")), mqttTopic)
  }

  /** The loop over the parts of one tuple; a later part overrides an earlier one of its key. */
  method ReadTuple(x: string) returns (topic: Option<string>, data: Option<string>, datetime: Option<string>)
    ensures Fields(topic, data, datetime) == FieldsOf(Split(x, ","))
  {
    topic, data, datetime := None, None, None;
    var parts := Split(x, ",");
    for j := 0 to |parts|
      invariant Fields(topic, data, datetime) == FieldsOf(parts[..j])
    {
      FieldsNext(parts, j);
      var (k, v) := KeyValue(parts[j]);
      if k == "topic" {
        topic := Some(v);
      } else if k == "data" || k == "value" {
        data := Some(v);
      } else if k == "datetime" || k == "ts" || k == "time" {
        datetime := Some(v);
      }
    }
    assert parts[..|parts|] == parts;
  }

  /** The loop over the tuples. */
  method ParseCustomTupleList(t: string, mqttTopic: string) returns (out: seq<Sample>)
    ensures out == Parse(t, mqttTopic)
  {
    var items := CleanItems(Split(Unbraced(t), "),"));
    out := [];
    for i := 0 to |items|
      invariant out == SamplesOf(items[..i], mqttTopic)
    {
      SamplesNext(items, i, mqttTopic);
      var x := Body(items[i]);
      if x == "" {
        continue;
      }
      var topic, data, datetime := ReadTuple(x);
      if data.None? || data.value == "" {
        continue;
      }
      out := out + [Sample(if topic.Some? then topic.value else mqttTopic, data.value, datetime)];
    }
    assert items[..|items|] == items;
  }

  // ---------------------------------------------------------------- the printer

  /** What a tuple can carry: no comma, no closing parenthesis at its end, no whitespace or
      quote at either end. */
  predicate Printable(v: string) {
    && ',' !in v
    && Tight(v, IsWhitespace) && Tight(v, IsQuote)
    && (v != "" ==> v[|v| - 1] != ')')
  }

  /** A sample as the printer takes it: data present, datetime given as text. */
  predicate PrintableSample(s: Sample) {
    && Printable(s.topic) && Printable(s.data) && s.data != ""
    && s.datetime.Some? && Printable(s.datetime.value)
  }

  function Head(s: Sample): string {
    "topic: " + s.topic + ", data: " + s.data + ", "
  }

  /** The tuple up to its closing parenthesis. */
  function Opened(s: Sample): string
    requires s.datetime.Some?
  {
    "( " + (Head(s) + ("datetime: " + s.datetime.value)) + " "
  }

  function Tuples(ss: seq<Sample>): string
    requires forall i :: 0 <= i < |ss| ==> ss[i].datetime.Some?
  {
    if ss == [] then ""
    else if |ss| == 1 then Opened(ss[0]) + ")"
    else Opened(ss[0]) + ")," + (" " + Tuples(ss[1..]))
  }

  function Print(ss: seq<Sample>): string
    requires forall i :: 0 <= i < |ss| ==> ss[i].datetime.Some?
  {
    "{ " + Tuples(ss) + " }"
  }

  // ---------------------------------------------------------------- one field

  /** `key: value` without the blank that trimming takes when the value is empty. */
  function FieldText(key: string, v: string): string {
    if v == "" then key + ":" else key + ": " + v
  }

  predicate KeyText(key: string) { key != "" && Tight(key, IsWhitespace) && ':' !in key && ',' !in key }

  predicate KeyLike(key: string) { KeyText(key) && Lower(key) == key }

  lemma KeysAreKeyLike()
    ensures KeyLike("topic") && KeyLike("data") && KeyLike("datetime")
  {
    assert Lower("topic") == "topic";
    assert Lower("data") == "data";
    assert Lower("datetime") == "datetime";
  }

  lemma FieldTextIsTight(key: string, v: string)
    requires KeyText(key) && Printable(v)
    ensures Tight(FieldText(key, v), IsWhitespace) && ',' !in FieldText(key, v)
  {
  }

  lemma ValueReadsBack(v: string)
    requires Printable(v)
    ensures TrimBy(Trim(if v == "" then "" else " " + v), IsQuote) == v
  {
    var blank := if v == "" then "" else " ";
    TrimPad(blank, v, "", IsWhitespace);
    assert blank + v + "" == if v == "" then "" else " " + v;
    TrimTight(v, IsQuote);
  }

  lemma FieldReadsBack(key: string, v: string, blank: string)
    requires KeyText(key) && Printable(v) && AllOf(blank, IsWhitespace)
    ensures KeyValue(blank + FieldText(key, v)) == (Lower(key), v)
  {
    var text := FieldText(key, v);
    var tail := if v == "" then "" else " " + v;
    FieldTextIsTight(key, v);
    TrimPad(blank, text, "", IsWhitespace);
    assert blank + text + "" == blank + text;
    assert text == key + [':'] + tail;
    CutAtFirst(key, ':', tail);
    TrimTight(key, IsWhitespace);
    ValueReadsBack(v);
  }

  // ---------------------------------------------------------------- one tuple

  /** The tuple without parentheses and outer whitespace. */
  function Inside(s: Sample): string
    requires s.datetime.Some?
  {
    Head(s) + FieldText("datetime", s.datetime.value)
  }

  /** Cutting the inside at its commas gives the three fields, whatever their padding. */
  lemma InsideSplits(s: Sample)
    requires PrintableSample(s)
    ensures Split(Inside(s), ",")
         == ["topic: " + s.topic, " data: " + s.data, " " + FieldText("datetime", s.datetime.value)]
  {
    KeysAreKeyLike();
    var a, b := "topic: " + s.topic, " data: " + s.data;
    var c := " " + FieldText("datetime", s.datetime.value);
    FieldTextIsTight("datetime", s.datetime.value);
    assert Inside(s) == a + "," + (b + "," + c);
    CutHere(a, b + "," + c);
    CutHere(b, c);
    SplitNoComma(c);
  }

  lemma CutHere(a: string, rest: string)
    requires ',' !in a
    ensures Split(a + "," + rest, ",") == [a] + Split(rest, ",")
  {
    forall i | 0 <= i < |a|
      ensures !("," <= (a + ",")[i..])
    {
      assert (a + ",")[i..][0] == a[i];
    }
    SplitAtFirst(a, ",", rest);
  }

  lemma SplitNoComma(c: string)
    requires ',' !in c
    ensures Split(c, ",") == [c]
  {
    forall i | 0 <= i < |c|
      ensures !("," <= c[i..])
    {
      assert c[i..][0] == c[i];
    }
    SplitNone(c, ",");
  }

  /** `topic: ` with an empty topic keeps its blank inside the tuple. */
  lemma TopicReadsBack(v: string)
    requires Printable(v)
    ensures KeyValue("topic: " + v) == ("topic", v)
  {
    KeysAreKeyLike();
    if v == "" {
      var text := "topic:";
      TrimPad("", text, " ", IsWhitespace);
      assert "" + text + " " == "topic: " + v;
      FieldReadsBack("topic", "", "");
      assert "" + FieldText("topic", "") == text;
      TrimTight(text, IsWhitespace);
    } else {
      FieldReadsBack("topic", v, "");
      assert "" + FieldText("topic", v) == "topic: " + v;
    }
  }

  lemma FieldsOfThree(p0: string, p1: string, p2: string)
    ensures FieldsOf([p0, p1, p2]) == Assigned(Assigned(Assigned(NO_FIELDS, p0), p1), p2)
  {
    assert [p0, p1, p2][..2] == [p0, p1];
    assert [p0, p1][..1] == [p0];
    assert [p0][..0] == [];
    assert FieldsOf([p0]) == Assigned(FieldsOf([]), p0);
    assert FieldsOf([p0, p1]) == Assigned(FieldsOf([p0]), p1);
  }

  lemma ThreeAssignments(p0: string, p1: string, p2: string, topic: string, data: string, datetime: string)
    requires KeyValue(p0) == ("topic", topic) && KeyValue(p1) == ("data", data) &&
        KeyValue(p2) == ("datetime", datetime)
    ensures FieldsOf([p0, p1, p2]) == Fields(Some(topic), Some(data), Some(datetime))
  {
    FieldsOfThree(p0, p1, p2);
    assert Assigned(NO_FIELDS, p0) == Fields(Some(topic), None, None);
    assert Assigned(Fields(Some(topic), None, None), p1) == Fields(Some(topic), Some(data), None);
  }

  lemma InsideReadsBack(s: Sample)
    requires PrintableSample(s)
    ensures FieldsOf(Split(Inside(s), ",")) == Fields(Some(s.topic), Some(s.data), s.datetime)
  {
    InsideSplits(s);
    KeysAreKeyLike();
    var p0, p1, p2 := "topic: " + s.topic, " data: " + s.data, " " + FieldText("datetime", s.datetime.value);
    assert KeyValue(p0) == ("topic", s.topic) by { TopicReadsBack(s.topic); }
    assert KeyValue(p1) == ("data", s.data) by { DataReadsBack(s.data); }
    assert KeyValue(p2) == ("datetime", s.datetime.value) by { FieldReadsBack("datetime", s.datetime.value, " "); }
    ThreeAssignments(p0, p1, p2, s.topic, s.data, s.datetime.value);
  }

  lemma DataReadsBack(v: string)
    requires Printable(v) && v != ""
    ensures KeyValue(" data: " + v) == ("data", v)
  {
    KeysAreKeyLike();
    FieldReadsBack("data", v, " ");
    assert " " + FieldText("data", v) == " data: " + v;
  }

  // ---------------------------------------------------------------- from the list to one tuple

  /** A tuple after the list is cut: everything but the closing parenthesis, trimmed. */
  function Item(s: Sample): string
    requires s.datetime.Some?
  {
    "( " + Inside(s)
  }

  function Pad(s: Sample): string
    requires s.datetime.Some?
  {
    if s.datetime.value == "" then "  " else " "
  }

  lemma InsideEnds(s: Sample)
    requires PrintableSample(s)
    ensures var t := Inside(s); t != "" && t[0] == 't' && t[|t| - 1] != ')' && !IsWhitespace(t[|t| - 1])
  {
  }

  lemma OpenedIsItem(s: Sample)
    requires PrintableSample(s)
    ensures Opened(s) == Item(s) + Pad(s)
    ensures Tight(Item(s), IsWhitespace) && Tight(Inside(s), IsWhitespace)
  {
  }

  /** What is left of a tuple when its body is taken. */
  lemma BodyOfItem(s: Sample)
    requires PrintableSample(s)
    ensures Body(Item(s)) == Inside(s)
  {
    OpenedIsItem(s);
    InsideEnds(s);
    BodyInside(Inside(s));
  }

  lemma BodyInside(inside: string)
    requires inside != "" && Tight(inside, IsWhitespace) && inside[|inside| - 1] != ')'
    ensures Body("( " + inside) == inside
  {
    var item := "( " + inside;
    assert item == "(" + (" " + inside) && item[|item| - 1] == inside[|inside| - 1];
    TrimTight(item, IsWhitespace);
    TrimStartPad("(", " " + inside, IsOpening);
    TrimEndPad(" " + inside, "", IsClosing);
    assert " " + inside + "" == " " + inside;
    TrimPad(" ", inside, "", IsWhitespace);
  }

  lemma ItemReadsBack(s: Sample, mqttTopic: string)
    requires PrintableSample(s)
    ensures SampleOf(Item(s), mqttTopic) == Some(s)
  {
    BodyOfItem(s);
    InsideEnds(s);
    InsideReadsBack(s);
  }

  /** Cleaning recovers the item from what the split leaves, with or without the parenthesis. */
  lemma CleanRecovers(s: Sample, blank: string, closed: bool)
    requires PrintableSample(s) && AllOf(blank, IsWhitespace)
    ensures CleanItem(blank + Opened(s) + (if closed then ")" else "")) == Item(s)
  {
    OpenedIsItem(s);
    InsideEnds(s);
    OpenedStarts(s);
    if closed {
      CleanClosed(blank, Item(s), Pad(s));
    } else {
      CleanUnclosed(blank, Item(s), Pad(s));
      assert blank + Opened(s) + "" == blank + (Item(s) + Pad(s));
    }
  }

  predicate ItemLike(item: string) {
    item != "" && Tight(item, IsWhitespace) && item[|item| - 1] != ')'
  }

  lemma TrimClosed(blank: string, padded: string)
    requires padded != "" && !IsWhitespace(padded[0]) && AllOf(blank, IsWhitespace)
    ensures Trim(blank + padded + ")") == padded + ")"
  {
    var text := padded + ")";
    assert text[0] == padded[0] && text[|text| - 1] == ')';
    TrimPad(blank, text, "", IsWhitespace);
    assert blank + text + "" == blank + padded + ")";
  }

  lemma CleanClosed(blank: string, item: string, pad: string)
    requires ItemLike(item) && AllOf(blank, IsWhitespace) && AllOf(pad, IsWhitespace)
    ensures CleanItem(blank + (item + pad) + ")") == item
  {
    var padded := item + pad;
    assert padded[0] == item[0];
    assert padded[|padded| - 1] == if pad == "" then item[|item| - 1] else pad[|pad| - 1];
    TrimClosed(blank, padded);
    TrimEndPad(padded, ")", IsClosing);
    TrimPad("", item, pad, IsWhitespace);
    assert "" + item + pad == padded;
  }

  lemma CleanUnclosed(blank: string, item: string, pad: string)
    requires ItemLike(item) && AllOf(blank, IsWhitespace) && AllOf(pad, IsWhitespace)
    ensures CleanItem(blank + (item + pad)) == item
  {
    TrimPad(blank, item, pad, IsWhitespace);
    assert blank + item + pad == blank + (item + pad);
    TrimEndPad(item, "", IsClosing);
    assert item + "" == item;
    TrimTight(item, IsWhitespace);
  }

  /** No comma follows a closing parenthesis, and none could if one came next. */
  predicate Unbroken(a: string) {
    && (a != "" ==> a[|a| - 1] != ')')
    && (forall j :: 0 < j < |a| && a[j] == ',' ==> a[j - 1] != ')')
  }

  lemma UnbrokenConcat(a: string, b: string)
    requires Unbroken(a) && Unbroken(b)
    ensures Unbroken(a + b)
  {
  }

  lemma OpenedIsUnbroken(s: Sample)
    requires PrintableSample(s)
    ensures Unbroken(Opened(s))
  {
    UnbrokenConcat("topic: ", s.topic);
    UnbrokenConcat("topic: " + s.topic, ", data: ");
    UnbrokenConcat("topic: " + s.topic + ", data: ", s.data);
    UnbrokenConcat("topic: " + s.topic + ", data: " + s.data, ", ");
    UnbrokenConcat("datetime: ", s.datetime.value);
    UnbrokenConcat(Head(s), "datetime: " + s.datetime.value);
    UnbrokenConcat("( ", Head(s) + ("datetime: " + s.datetime.value));
    UnbrokenConcat("( " + (Head(s) + ("datetime: " + s.datetime.value)), " ");
  }

  /** So the first tuple boundary after an unbroken text is the one printed after it. */
  lemma BoundaryIsFirst(a: string, rest: string)
    requires Unbroken(a)
    ensures Split(a + ")," + rest, "),") == [a] + Split(rest, "),")
  {
    var text := a + "),";
    forall i | 0 <= i < |a|
      ensures !(")," <= text[i..])
    {
      assert text[i..][0] == text[i] && text[i..][1] == text[i + 1];
    }
    SplitAtFirst(a, "),", rest);
  }

  /** The last tuple has its closing parenthesis and nothing behind it. */
  lemma NoBoundaryInLast(a: string)
    requires Unbroken(a)
    ensures Split(a + ")", "),") == [a + ")"]
  {
    var text := a + ")";
    forall i | 0 <= i < |text|
      ensures !(")," <= text[i..])
    {
      if i < |a| {
        assert text[i..][0] == text[i] && text[i..][1] == text[i + 1];
      }
    }
    SplitNone(text, "),");
  }

  // ---------------------------------------------------------------- the list

  ghost predicate AllPrintable(ss: seq<Sample>) {
    forall i :: 0 <= i < |ss| ==> PrintableSample(ss[i])
  }

  function Items(ss: seq<Sample>): seq<string>
    requires forall i :: 0 <= i < |ss| ==> ss[i].datetime.Some?
  {
    if ss == [] then [] else [Item(ss[0])] + Items(ss[1..])
  }

  lemma LastReadsBack(s: Sample, blank: string)
    requires PrintableSample(s) && AllOf(blank, IsWhitespace)
    ensures CleanItems(Split(blank + Opened(s) + ")", "),")) == [Item(s)]
  {
    var first := blank + Opened(s);
    OpenedIsUnbroken(s);
    BlankIsUnbroken(blank);
    UnbrokenConcat(blank, Opened(s));
    NoBoundaryInLast(first);
    CleanRecovers(s, blank, true);
    CleanOne(first + ")");
  }

  lemma NextReadsBack(s: Sample, blank: string, rest: string)
    requires PrintableSample(s) && AllOf(blank, IsWhitespace)
    ensures CleanItems(Split(blank + Opened(s) + ")," + rest, "),")) == [Item(s)] + CleanItems(Split(rest, "),"))
  {
    var first := blank + Opened(s);
    OpenedIsUnbroken(s);
    BlankIsUnbroken(blank);
    UnbrokenConcat(blank, Opened(s));
    BoundaryIsFirst(first, rest);
    CleanRecovers(s, blank, false);
    assert first + "" == first;
    CollectConcat([first], Split(rest, "),"), KeptItem);
    CleanOne(first);
  }

  lemma BlankIsUnbroken(blank: string)
    requires AllOf(blank, IsWhitespace)
    ensures Unbroken(blank)
  {
    assert forall i :: 0 <= i < |blank| ==> IsWhitespace(blank[i]);
  }

  lemma {:induction false} TuplesReadBack(ss: seq<Sample>, blank: string)
    requires AllPrintable(ss) && ss != [] && AllOf(blank, IsWhitespace)
    ensures CleanItems(Split(blank + Tuples(ss), "),")) == Items(ss)
    decreases |ss|
  {
    var s := ss[0];
    if |ss| == 1 {
      assert blank + Tuples(ss) == blank + Opened(s) + ")";
      LastReadsBack(s, blank);
      assert Items(ss) == [Item(s)] + Items(ss[1..]);
    } else {
      var rest := " " + Tuples(ss[1..]);
      assert blank + Tuples(ss) == blank + Opened(s) + ")," + rest;
      NextReadsBack(s, blank, rest);
      TuplesReadBack(ss[1..], " ");
    }
  }

  lemma CleanOne(raw: string)
    ensures CleanItems([raw]) == if CleanItem(raw) != "" then [CleanItem(raw)] else []
  {
    CollectOne(raw, KeptItem);
  }

  lemma {:induction false} CollectAll<T>(items: seq<string>, read: string -> Option<T>, out: seq<T>)
    requires |items| == |out| && forall i :: 0 <= i < |out| ==> read(items[i]) == Some(out[i])
    ensures Collect(items, read) == out
    decreases |items|
  {
    if items != [] {
      var n := |items| - 1;
      CollectAll(items[..n], read, out[..n]);
      assert out[..n] + [out[n]] == out;
    }
  }

  lemma {:induction false} ItemAt(ss: seq<Sample>, i: nat)
    requires i < |ss| && forall j :: 0 <= j < |ss| ==> ss[j].datetime.Some?
    ensures |Items(ss)| == |ss| && Items(ss)[i] == Item(ss[i])
    decreases |ss|
  {
    if |ss| > 1 {
      ItemAt(ss[1..], if i > 0 then i - 1 else 0);
    }
  }

  lemma ItemsReadBack(ss: seq<Sample>, mqttTopic: string)
    requires AllPrintable(ss)
    ensures SamplesOf(Items(ss), mqttTopic) == ss
  {
    forall i | 0 <= i < |ss|
      ensures |Items(ss)| == |ss| && SampleOf(Items(ss)[i], mqttTopic) == Some(ss[i])
    {
      ItemAt(ss, i);
      ItemReadsBack(ss[i], mqttTopic);
    }
    CollectAll(Items(ss), item => SampleOf(item, mqttTopic), ss);
  }

  lemma OpenedStarts(s: Sample)
    requires s.datetime.Some?
    ensures Opened(s) != "" && Opened(s)[0] == '('
  {
    assert Opened(s)[0] == "( "[0];
  }

  predicate Bracketed(t: string) { t != "" && t[0] == '(' && t[|t| - 1] == ')' }

  lemma BracketsClose(a: string)
    requires a != "" && a[0] == '('
    ensures Bracketed(a + ")")
  {
  }

  lemma BracketsGoOn(a: string, rest: string)
    requires a != "" && a[0] == '(' && Bracketed(rest)
    ensures Bracketed(a + ")," + (" " + rest))
  {
  }

  lemma {:induction false} TuplesAreTight(ss: seq<Sample>)
    requires ss != [] && forall i :: 0 <= i < |ss| ==> ss[i].datetime.Some?
    ensures Bracketed(Tuples(ss))
    decreases |ss|
  {
    OpenedStarts(ss[0]);
    if |ss| == 1 {
      BracketsClose(Opened(ss[0]));
    } else {
      TuplesAreTight(ss[1..]);
      BracketsGoOn(Opened(ss[0]), Tuples(ss[1..]));
    }
  }

  lemma UnbracedBraces(ts: string)
    requires Tight(ts, IsWhitespace)
    ensures Unbraced("{ " + ts + " }") == ts
  {
    var p := "{ " + ts + " }";
    assert p[0] == '{' && p[|p| - 1] == '}';
    TrimTight(p, IsWhitespace);
    assert p[1..|p| - 1] == " " + ts + " ";
    TrimPad(" ", ts, " ", IsWhitespace);
  }

  /** Printing any list of printable samples and parsing it gives the list back, in order,
      whatever the topic of the message that carried it. */
  lemma RoundTrip(ss: seq<Sample>, mqttTopic: string)
    requires AllPrintable(ss)
    ensures Parse(Print(ss), mqttTopic) == ss
  {
    if ss != [] {
      TuplesAreTight(ss);
    }
    UnbracedBraces(Tuples(ss));
    if ss == [] {
      assert Split("", "),") == [""];
      TrimTight("", IsWhitespace);
      TrimTight("", IsClosing);
      CleanOne("");
    } else {
      TuplesReadBack(ss, "");
      assert "" + Tuples(ss) == Tuples(ss);
      ItemsReadBack(ss, mqttTopic);
    }
  }

  // ---------------------------------------------------------------- tuples in any spelling

  /** Keys and values of a tuple as somebody may write them: any order and case, aliases, repeated and unknown keys. */
  type Spelling = seq<(string, string)>

  predicate Spellable(pairs: Spelling) {
    forall i :: 0 <= i < |pairs| ==> KeyText(pairs[i].0) && Printable(pairs[i].1)
  }

  function Rest(pairs: Spelling): string {
    if pairs == [] then "" else ", " + FieldText(pairs[0].0, pairs[0].1) + Rest(pairs[1..])
  }

  function Written(pairs: Spelling): string
    requires pairs != []
  {
    FieldText(pairs[0].0, pairs[0].1) + Rest(pairs[1..])
  }

  /** The parts it is cut into. */
  function Parts(pairs: Spelling, blank: string): seq<string> {
    if pairs == [] then [] else [blank + FieldText(pairs[0].0, pairs[0].1)] + Parts(pairs[1..], " ")
  }

  lemma {:induction false} WrittenSplits(pairs: Spelling, blank: string)
    requires pairs != [] && Spellable(pairs) && AllOf(blank, IsWhitespace)
    ensures Split(blank + Written(pairs), ",") == Parts(pairs, blank)
    decreases |pairs|
  {
    var first, rest := blank + FieldText(pairs[0].0, pairs[0].1), pairs[1..];
    FieldTextIsTight(pairs[0].0, pairs[0].1);
    NoCommaIn(blank, FieldText(pairs[0].0, pairs[0].1));
    if rest == [] {
      assert blank + Written(pairs) == first;
      SplitNoComma(first);
    } else {
      WrittenInTwo(pairs, blank);
      CutHere(first, " " + Written(rest));
      WrittenSplits(rest, " ");
    }
  }

  lemma NoCommaIn(blank: string, text: string)
    requires AllOf(blank, IsWhitespace) && ',' !in text
    ensures ',' !in blank + text
  {
  }

  lemma WrittenInTwo(pairs: Spelling, blank: string)
    requires |pairs| > 1
    ensures blank + Written(pairs)
         == blank + FieldText(pairs[0].0, pairs[0].1) + "," + (" " + Written(pairs[1..]))
  {
    assert Rest(pairs[1..]) == "," + (" " + Written(pairs[1..]));
  }

  lemma {:induction false} PartAt(pairs: Spelling, blank: string, i: nat)
    requires i < |pairs| && Spellable(pairs) && AllOf(blank, IsWhitespace)
    ensures |Parts(pairs, blank)| == |pairs|
    ensures KeyValue(Parts(pairs, blank)[i]) == (Lower(pairs[i].0), pairs[i].1)
    decreases |pairs|
  {
    FieldReadsBack(pairs[0].0, pairs[0].1, blank);
    if |pairs| > 1 {
      PartAt(pairs[1..], " ", if i > 0 then i - 1 else 0);
    }
  }

  /** The value of the last pair whose key is one of these names, but for its case. */
  function LastOf(pairs: Spelling, names: set<string>): Option<string> {
    if pairs == [] then None
    else if Lower(pairs[|pairs| - 1].0) in names then Some(pairs[|pairs| - 1].1)
    else LastOf(pairs[..|pairs| - 1], names)
  }

  function Spelled(pairs: Spelling): Fields {
    Fields(LastOf(pairs, {"topic"}), LastOf(pairs, {"data", "value"}), LastOf(pairs, {"datetime", "ts", "time"}))
  }

  lemma {:induction false} FieldsAreLast(pairs: Spelling, parts: seq<string>)
    requires |parts| == |pairs|
    requires forall i :: 0 <= i < |pairs| ==> KeyValue(parts[i]) == (Lower(pairs[i].0), pairs[i].1)
    ensures FieldsOf(parts) == Spelled(pairs)
    decreases |pairs|
  {
    if pairs != [] {
      var n := |pairs| - 1;
      FieldsAreLast(pairs[..n], parts[..n]);
      AssignedIs(FieldsOf(parts[..n]), parts[n], Lower(pairs[n].0), pairs[n].1);
    }
  }

  /** One pair sets the variable its key names, and no other. */
  lemma AssignedIs(f: Fields, part: string, k: string, v: string)
    requires KeyValue(part) == (k, v)
    ensures Assigned(f, part).topic == if k in {"topic"} then Some(v) else f.topic
    ensures Assigned(f, part).data == if k in {"data", "value"} then Some(v) else f.data
    ensures Assigned(f, part).datetime == if k in {"datetime", "ts", "time"} then Some(v) else f.datetime
  {
    assert |"topic"| == 5 && |"data"| == 4 && |"value"| == 5 && |"datetime"| == 8 && |"ts"| == 2 && |"time"| == 4;
    assert "topic"[0] == 't' && "data"[0] == 'd' && "value"[0] == 'v' && "time"[0] == 't';
  }

  lemma {:induction false} RestEnds(pairs: Spelling)
    requires Spellable(pairs) && pairs != []
    ensures var t := Rest(pairs); t != "" && t[|t| - 1] != ')' && !IsWhitespace(t[|t| - 1])
    decreases |pairs|
  {
    FieldTextIsTight(pairs[0].0, pairs[0].1);
    if |pairs| > 1 {
      RestEnds(pairs[1..]);
    }
  }

  lemma WrittenIsBody(pairs: Spelling)
    requires pairs != [] && Spellable(pairs)
    ensures Written(pairs) != "" && Body("( " + Written(pairs)) == Written(pairs)
  {
    FieldTextIsTight(pairs[0].0, pairs[0].1);
    if |pairs| > 1 {
      RestEnds(pairs[1..]);
    }
    BodyInside(Written(pairs));
  }

  /** A tuple in any spelling: the last value under each name counts, whichever alias it has; the topic of the message
      stands in for a missing one and a missing datetime means now; without data, or with empty data, there is no
      sample. */
  lemma AnySpellingReads(pairs: Spelling, mqttTopic: string)
    requires pairs != [] && Spellable(pairs)
    ensures var topic, data := LastOf(pairs, {"topic"}), LastOf(pairs, {"data", "value"});
            SampleOf("( " + Written(pairs), mqttTopic) ==
            if data.None? || data.value == "" then None
            else Some(Sample(if topic.Some? then topic.value else mqttTopic, data.value,
                             LastOf(pairs, {"datetime", "ts", "time"})))
  {
    WrittenIsBody(pairs);
    WrittenSplits(pairs, "");
    assert "" + Written(pairs) == Written(pairs);
    forall i | 0 <= i < |pairs|
      ensures |Parts(pairs, "")| == |pairs|
      ensures KeyValue(Parts(pairs, "")[i]) == (Lower(pairs[i].0), pairs[i].1)
    {
      PartAt(pairs, "", i);
    }
    FieldsAreLast(pairs, Parts(pairs, ""));
    SampleIsSpelled("( " + Written(pairs), pairs, mqttTopic);
  }

  lemma SampleIsSpelled(item: string, pairs: Spelling, mqttTopic: string)
    requires Body(item) != "" && FieldsOf(Split(Body(item), ",")) == Spelled(pairs)
    ensures var topic, data := LastOf(pairs, {"topic"}), LastOf(pairs, {"data", "value"});
            SampleOf(item, mqttTopic) ==
            if data.None? || data.value == "" then None
            else Some(Sample(if topic.Some? then topic.value else mqttTopic, data.value,
                             LastOf(pairs, {"datetime", "ts", "time"})))
  {
  }

  /** The outer braces and the blanks around them change nothing. */
  lemma BracesAreOptional(ts: string, a: string, b: string, mqttTopic: string)
    requires Tight(ts, IsWhitespace) && AllOf(a, IsWhitespace) && AllOf(b, IsWhitespace)
    requires !(ts != "" && ts[0] == '{' && ts[|ts| - 1] == '}')
    ensures Parse("{" + a + ts + b + "}", mqttTopic) == Parse(a + ts + b, mqttTopic) == Parse(ts, mqttTopic)
  {
    UnbracesTo(a + ts + b);
    TrimPad(a, ts, b, IsWhitespace);
    TrimTight(ts, IsWhitespace);
    assert "{" + (a + ts + b) + "}" == "{" + a + ts + b + "}";
  }

  lemma UnbracesTo(inner: string)
    ensures Unbraced("{" + inner + "}") == Trim(inner)
  {
    var p := "{" + inner + "}";
    assert p[0] == '{' && p[|p| - 1] == '}';
    TrimTight(p, IsWhitespace);
    assert p[1..|p| - 1] == inner;
  }

  // ---------------------------------------------------------------- what can come out at all

  predicate Readable(v: string) {
    ',' !in v && Tight(v, IsQuote)
  }

  lemma ValueIsReadable(part: string)
    requires ',' !in part
    ensures Readable(KeyValue(part).1)
  {
    var (_, v) := Cut(Trim(part), ':');
    var raw := if v.Some? then v.value else "";
    TrimIsPart(TrimStart(part, IsWhitespace), IsWhitespace);
    TrimIsPart(part, IsWhitespace);
    CutIsPart(Trim(part), ':');
    TrimIsPart(TrimStart(raw, IsWhitespace), IsWhitespace);
    TrimIsPart(raw, IsWhitespace);
    TrimIsPart(TrimStart(Trim(raw), IsQuote), IsQuote);
    TrimIsPart(Trim(raw), IsQuote);
    TrimByIsTight(Trim(raw), IsQuote);
  }

  predicate ReadableFields(f: Fields) {
    && (f.topic.Some? ==> Readable(f.topic.value))
    && (f.data.Some? ==> Readable(f.data.value))
    && (f.datetime.Some? ==> Readable(f.datetime.value))
  }

  lemma AssignedIsReadable(f: Fields, part: string)
    requires ReadableFields(f) && ',' !in part
    ensures ReadableFields(Assigned(f, part))
  {
    ValueIsReadable(part);
  }

  lemma {:induction false} FieldsAreReadable(parts: seq<string>)
    requires forall i :: 0 <= i < |parts| ==> ',' !in parts[i]
    ensures ReadableFields(FieldsOf(parts))
    decreases |parts|
  {
    if parts != [] {
      FieldsAreReadable(parts[..|parts| - 1]);
      AssignedIsReadable(FieldsOf(parts[..|parts| - 1]), parts[|parts| - 1]);
    }
  }

  predicate ReadableSample(s: Sample, mqttTopic: string) {
    && (s.topic == mqttTopic || Readable(s.topic))
    && s.data != "" && Readable(s.data)
    && (s.datetime.Some? ==> Readable(s.datetime.value))
  }

  lemma {:induction false} SamplesAreReadable(items: seq<string>, mqttTopic: string)
    ensures forall s :: s in SamplesOf(items, mqttTopic) ==> ReadableSample(s, mqttTopic)
    decreases |items|
  {
    if items != [] {
      SamplesAreReadable(items[..|items| - 1], mqttTopic);
      SplitOnChar(Body(items[|items| - 1]), ',');
      FieldsAreReadable(Split(Body(items[|items| - 1]), ","));
    }
  }

  /** Whatever text arrives, every sample has data, and no field read from it has a comma or
      a quote at an end. */
  lemma ParsedIsReadable(t: string, mqttTopic: string)
    ensures forall s :: s in Parse(t, mqttTopic) ==> ReadableSample(s, mqttTopic)
  {
    SamplesAreReadable(CleanItems(Split(Unbraced(t), "),")), mqttTopic);
  }
}
