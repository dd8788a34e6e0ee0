/** The INI parser as configured: lines of at most 199 characters, inline
    comments after ';', continuation lines, and no stop at the first error. */
module Ini {

  /** One more than the longest chunk that the reader hands out. */
  const MAX_LINE: nat := 200
  /** The section and the remembered name are cut to fit their buffers. */
  const MAX_NAME: nat := 50

  const NUL: char := '\0'

  predicate IsSpace(c: char) {
    c == ' ' || '\t' <= c <= '\r'
  }

  function RStrip(s: string): (r: string)
    ensures r <= s
  {
    if s != "" && IsSpace(s[|s| - 1]) then RStrip(s[..|s| - 1]) else s
  }

  function LSkip(s: string): (r: string)
    ensures |r| <= |s|
  {
    if s != "" && IsSpace(s[0]) then LSkip(s[1..]) else s
  }

  /** LSkip drops the spaces in front and nothing else. */
  lemma {:induction false} SkipsTo(s: string) returns (n: nat)
    ensures n <= |s| && LSkip(s) == s[n..]
    ensures (forall i :: 0 <= i < n ==> IsSpace(s[i])) && (n < |s| ==> !IsSpace(s[n]))
  {
    n := 0;
    if s != "" && IsSpace(s[0]) {
      n := SkipsTo(s[1..]);
      assert forall i :: 0 < i < n + 1 ==> s[i] == s[1..][i - 1];
      n := n + 1;
    }
  }

  /** How far it is to the first of `stops` or to an inline comment; `spaced`
      tells whether a space came before. */
  function StopAt(s: string, stops: string, spaced: bool): (i: nat)
    ensures i <= |s|
  {
    if s == "" || s[0] in stops || (spaced && s[0] == ';') then 0
    else StopAt(s[1..], stops, IsSpace(s[0])) + 1
  }

  /** What one line asks for. */
  datatype Act = Nothing | Section(name: string) | Pair(name: string, value: string) | More(value: string) | Bad

  predicate HasBom(text: string) {
    |text| >= 3 && text[0] == '\U{ef}' && text[1] == '\U{bb}' && text[2] == '\U{bf}'
  }

  /** A line that starts a section, names a value, or neither. */
  function PlainAct(start: string): Act
    requires start != ""
  {
    if start[0] == '[' then
      var e := StopAt(start[1..], "]", false) + 1;
      if e < |start| && start[e] == ']' then Section(start[1..e]) else Bad
    else
      var e := StopAt(start, "=:", false);
      if e < |start| && start[e] in "=:" then Pair(RStrip(start[..e]), ValueOf(start[e + 1..])) else Bad
  }

  function ValueOf(raw: string): string {
    RStrip(LSkip(raw[..StopAt(raw, "", false)]))
  }

  function StartAct(start: string, indented: bool, named: bool): Act {
    if start == "" || start[0] in ";#" then Nothing
    else if named && indented then More(RStrip(start[..StopAt(start, "", false)]))
    else PlainAct(start)
  }

  /** `first` tells whether it is the first line, `named` whether a name is remembered. */
  function LineAct(text: string, first: bool, named: bool): Act {
    var bom := first && HasBom(text);
    var body := RStrip(if bom then text[3..] else text);
    StartAct(LSkip(body), bom || LSkip(body) != body, named)
  }

  // ----- all lines -----

  /** What the parser remembers from line to line. */
  datatype Context = Context(section: string, prevName: string)

  datatype Call = Call(section: string, name: string, value: string)

  function Cut(s: string): string {
    if |s| < MAX_NAME then s else s[..MAX_NAME - 1]
  }

  function Next(c: Context, act: Act): Context {
    match act
    case Section(name) => Context(Cut(name), "")
    case Pair(name, _) => c.(prevName := Cut(name))
    case _ => c
  }

  function CallOf(c: Context, act: Act): seq<Call> {
    match act
    case Pair(name, value) => [Call(c.section, name, value)]
    case More(value) => [Call(c.section, c.prevName, value)]
    case _ => []
  }

  /** The context after some lines, given what they asked for. */
  function ContextAfter(acts: seq<Act>): Context {
    if acts == [] then Context("", "") else Next(ContextAfter(acts[..|acts| - 1]), acts[|acts| - 1])
  }

  /** The handler's calls for some lines. */
  function Calls(acts: seq<Act>): seq<Call> {
    if acts == [] then []
    else
      var before := acts[..|acts| - 1];
      Calls(before) + CallOf(ContextAfter(before), acts[|acts| - 1])
  }

  /** What each line asks for, in the context that the lines before it leave. */
  function Acts(lines: seq<string>): (acts: seq<Act>)
    ensures |acts| == |lines|
  {
    if lines == [] then []
    else
      var before := Acts(lines[..|lines| - 1]);
      before + [LineAct(lines[|lines| - 1], before == [], ContextAfter(before).prevName != "")]
  }

  /** A line is bad, or the handler refuses its call; `answers` are the
      handler's answers in the order of its calls. */
  predicate Refused(act: Act, answers: nat -> bool, calls: nat) {
    act.Bad? || ((act.Pair? || act.More?) && !answers(calls))
  }

  predicate Fails(acts: seq<Act>, i: nat, answers: nat -> bool)
    requires i < |acts|
  {
    Refused(acts[i], answers, |Calls(acts[..i])|)
  }

  /** `error` is the number of the first line that fails, or 0. */
  ghost predicate FirstFailure(acts: seq<Act>, answers: nat -> bool, error: nat) {
    && error <= |acts|
    && (error > 0 ==> Fails(acts, error - 1, answers))
    && (forall i :: 0 <= i < |acts| && (error > 0 ==> i < error - 1) ==> !Fails(acts, i, answers))
  }

  // ----- the reader -----

  /** The length of the next chunk: through a newline, or as much as fits. */
  function ChunkSize(s: string, room: nat): (n: nat)
    ensures n <= |s| && n <= room && (s != "" && room > 0 ==> n > 0)
  {
    if s == "" || room == 0 then 0
    else if s[0] == '\n' then 1
    else ChunkSize(s[1..], room - 1) + 1
  }

  function Chunks(s: string): seq<string> {
    if s == "" then []
    else
      var n := ChunkSize(s, MAX_LINE - 1);
      [s[..n]] + Chunks(s[n..])
  }

  function Joined(lines: seq<string>): string {
    if lines == [] then "" else lines[0] + Joined(lines[1..])
  }

  /** The chunks are the whole input, cut up. */
  lemma {:induction false} ChunksJoin(s: string)
    ensures Joined(Chunks(s)) == s
    decreases |s|
  {
    if s != "" {
      var n := ChunkSize(s, MAX_LINE - 1);
      ChunksJoin(s[n..]);
      assert Chunks(s)[1..] == Chunks(s[n..]);
    }
  }

  // ----- what was rendered is what is parsed -----

  /** A document: section headings and named values, in order. */
  datatype Item = Heading(section: string) | Entry(name: string, value: string)

  function Line(item: Item): string {
    match item
    case Heading(section) => "[" + section + "]\n"
    case Entry(name, value) => name + "=" + value + "\n"
  }

  function Lines(items: seq<Item>): (r: seq<string>)
    ensures |r| == |items| && forall i :: 0 <= i < |items| ==> r[i] == Line(items[i])
  {
    seq(|items|, i requires 0 <= i < |items| => Line(items[i]))
  }

  function Render(items: seq<Item>): string {
    Joined(Lines(items))
  }

  /** Printable ASCII with none of `stops`, and no ';' after a space. */
  predicate Clean(s: string, stops: string) {
    && (forall i :: 0 <= i < |s| ==> ' ' <= s[i] <= '~' && s[i] !in stops)
    && (forall i :: 0 < i < |s| && s[i - 1] == ' ' ==> s[i] != ';')
  }

  predicate Trimmed(s: string) {
    s != "" ==> s[0] != ' ' && s[|s| - 1] != ' '
  }

  /** An item that one short line can hold. */
  predicate Fits(item: Item) {
    match item
    case Heading(section) => Clean(section, "]") && |section| < MAX_NAME
    case Entry(name, value) =>
      && Clean(name, "=:") && Trimmed(name) && name != "" && name[0] !in ";#["
      && Clean(value, "") && Trimmed(value)
      && |name| + |value| + 2 < MAX_LINE
  }

  ghost predicate AllFit(items: seq<Item>) {
    forall i :: 0 <= i < |items| ==> Fits(items[i])
  }

  /** The last heading of some items. */
  function SectionAfter(items: seq<Item>): string {
    if items == [] then ""
    else if items[|items| - 1].Heading? then items[|items| - 1].section
    else SectionAfter(items[..|items| - 1])
  }

  /** One call for each entry, with the heading it stands under. */
  function Expected(items: seq<Item>): seq<Call> {
    if items == [] then []
    else
      var before, item := items[..|items| - 1], items[|items| - 1];
      Expected(before) + if item.Entry? then [Call(SectionAfter(before), item.name, item.value)] else []
  }

  lemma {:induction false} ChunkOfLine(s: string, rest: string, room: nat)
    requires |s| < room && forall i :: 0 <= i < |s| ==> s[i] != '\n'
    ensures ChunkSize(s + "\n" + rest, room) == |s| + 1
    decreases |s|
  {
    if s != "" {
      ChunkOfLine(s[1..], rest, room - 1);
      assert (s + "\n" + rest)[1..] == s[1..] + "\n" + rest;
    }
  }

  function WithoutEnd(item: Item): string {
    match item
    case Heading(section) => "[" + section + "]"
    case Entry(name, value) => name + "=" + value
  }

  /** Short lines come back from the reader as they are. */
  lemma {:induction false} ChunksOfLines(items: seq<Item>)
    requires AllFit(items)
    ensures Chunks(Render(items)) == Lines(items)
    decreases |items|
  {
    if items != [] {
      var line, rest := WithoutEnd(items[0]), Render(items[1..]);
      ChunksOfLines(items[1..]);
      assert Lines(items)[1..] == Lines(items[1..]);
      assert Line(items[0]) == line + "\n";
      ChunkOfLine(line, rest, MAX_LINE - 1);
      assert Render(items) == line + "\n" + rest;
    }
  }

  lemma {:induction false} StopsThere(s: string, rest: string, stops: string, spaced: bool)
    requires Clean(s, stops) && !(spaced && s != "" && s[0] == ';')
    requires rest == "" || rest[0] in stops
    ensures StopAt(s + rest, stops, spaced) == |s|
    decreases |s|
  {
    if s == "" {
      assert s + rest == rest;
    } else {
      assert (s + rest)[1..] == s[1..] + rest;
      assert Clean(s[1..], stops) by {
        assert forall i :: 0 <= i < |s| - 1 ==> s[1..][i] == s[i + 1];
      }
      StopsThere(s[1..], rest, stops, IsSpace(s[0]));
    }
  }

  lemma StripLine(s: string)
    requires s != "" && !IsSpace(s[|s| - 1])
    ensures RStrip(s + "\n") == s
  {
    assert (s + "\n")[..|s|] == s;
  }

  lemma NothingToStrip(s: string)
    requires Clean(s, "") && Trimmed(s)
    ensures RStrip(s) == s && LSkip(s) == s
  {
  }

  lemma CleanOfFewer(s: string, stops: string)
    requires Clean(s, stops)
    ensures Clean(s, "")
  {
  }

  /** A line that starts and ends with other than spaces and is no comment. */
  lemma PlainLine(start: string, first: bool, named: bool)
    requires start != "" && ' ' < start[0] <= '~' && start[0] !in ";#" && !IsSpace(start[|start| - 1])
    ensures LineAct(start + "\n", first, named) == PlainAct(start)
  {
    StripLine(start);
    var text := start + "\n";
    assert text[0] == start[0] != '\U{ef}';
    assert LSkip(start) == start;
    assert LineAct(text, first, named) == StartAct(start, false, named);
  }

  lemma HeadingPlain(section: string)
    requires Clean(section, "]")
    ensures PlainAct("[" + section + "]") == Section(section)
  {
    var start := "[" + section + "]";
    assert start[1..] == section + "]";
    StopsThere(section, "]", "]", false);
  }

  lemma EntryName(name: string, value: string)
    requires Clean(name, "=:") && Trimmed(name)
    ensures var start := name + "=" + value;
            && StopAt(start, "=:", false) == |name| && RStrip(start[..|name|]) == name
            && start[|name| + 1..] == value
  {
    var start := name + "=" + value;
    assert start == name + ("=" + value);
    StopsThere(name, "=" + value, "=:", false);
    assert start[..|name|] == name;
    CleanOfFewer(name, "=:");
    NothingToStrip(name);
  }

  lemma CleanValue(value: string)
    requires Clean(value, "") && Trimmed(value)
    ensures ValueOf(value) == value
  {
    StopsThere(value, "", "", false);
    assert value + "" == value && value[..|value|] == value;
    NothingToStrip(value);
  }

  lemma EntryPlain(name: string, value: string)
    requires Fits(Entry(name, value))
    ensures PlainAct(name + "=" + value) == Pair(name, value)
  {
    EntryName(name, value);
    CleanValue(value);
  }

  /** What an item asks for. */
  function Meaning(item: Item): Act {
    match item
    case Heading(section) => Section(section)
    case Entry(name, value) => Pair(name, value)
  }

  lemma EntryEnds(name: string, value: string)
    requires Fits(Entry(name, value))
    ensures var start := name + "=" + value;
            ' ' < start[0] <= '~' && start[0] !in ";#[" && !IsSpace(start[|start| - 1])
  {
    var start := name + "=" + value;
    assert start[0] == name[0];
    assert start[|start| - 1] == if value == "" then '=' else value[|value| - 1];
  }

  lemma HeadingAct(section: string, first: bool, named: bool)
    requires Clean(section, "]")
    ensures LineAct("[" + section + "]" + "\n", first, named) == Section(section)
  {
    var start := "[" + section + "]";
    PlainLine(start, first, named);
    HeadingPlain(section);
  }

  lemma EntryAct(name: string, value: string, first: bool, named: bool)
    requires Fits(Entry(name, value))
    ensures LineAct(name + "=" + value + "\n", first, named) == Pair(name, value)
  {
    var start := name + "=" + value;
    EntryEnds(name, value);
    PlainLine(start, first, named);
    EntryPlain(name, value);
  }

  lemma ItemAct(item: Item, first: bool, named: bool)
    requires Fits(item)
    ensures LineAct(Line(item), first, named) == Meaning(item)
  {
    match item
    case Heading(section) =>
      HeadingAct(section, first, named);
      assert Line(item) == "[" + section + "]" + "\n";
    case Entry(name, value) =>
      EntryAct(name, value, first, named);
  }

  function Meanings(items: seq<Item>): (r: seq<Act>)
    ensures |r| == |items|
  {
    seq(|items|, i requires 0 <= i < |items| => Meaning(items[i]))
  }

  lemma OneMoreItem(lines: seq<string>, item: Item)
    requires Fits(item)
    ensures Acts(lines + [Line(item)]) == Acts(lines) + [Meaning(item)]
  {
    var all := lines + [Line(item)];
    assert all[..|lines|] == lines;
    ItemAct(item, Acts(lines) == [], ContextAfter(Acts(lines)).prevName != "");
  }

  lemma LastItem(items: seq<Item>)
    requires items != []
    ensures var before, item := items[..|items| - 1], items[|items| - 1];
            Lines(items) == Lines(before) + [Line(item)] && Meanings(items) == Meanings(before) + [Meaning(item)]
  {
  }

  lemma {:induction false} ItemActs(items: seq<Item>)
    requires AllFit(items)
    ensures Acts(Lines(items)) == Meanings(items)
    decreases |items|
  {
    if items != [] {
      var before, item := items[..|items| - 1], items[|items| - 1];
      ItemActs(before);
      LastItem(items);
      OneMoreItem(Lines(before), item);
    }
  }

  lemma {:induction false} SectionSeen(items: seq<Item>)
    requires AllFit(items)
    ensures ContextAfter(Meanings(items)).section == SectionAfter(items)
    decreases |items|
  {
    if items != [] {
      var before := items[..|items| - 1];
      SectionSeen(before);
      assert Meanings(items)[..|items| - 1] == Meanings(before);
      assert Fits(items[|items| - 1]);
    }
  }

  /** The calls for a rendered document are its entries under their headings. */
  lemma {:induction false} RenderedCalls(items: seq<Item>)
    requires AllFit(items)
    ensures Calls(Meanings(items)) == Expected(items)
    decreases |items|
  {
    if items != [] {
      var before := items[..|items| - 1];
      RenderedCalls(before);
      SectionSeen(before);
      assert Meanings(items)[..|items| - 1] == Meanings(before);
    }
  }

  /** Exactly the document's calls are made, and a line fails exactly when its
      entry's call is refused. */
  ghost predicate Matches(acts: seq<Act>, items: seq<Item>, answers: nat -> bool) {
    && |acts| == |items|
    && Calls(acts) == Expected(items)
    && forall i :: 0 <= i < |items| ==>
        (Fails(acts, i, answers) <==> items[i].Entry? && !answers(|Expected(items[..i])|))
  }

  lemma MeaningsMatch(items: seq<Item>, answers: nat -> bool)
    requires AllFit(items)
    ensures Matches(Meanings(items), items, answers)
  {
    RenderedCalls(items);
    forall i | 0 <= i < |items|
      ensures Fails(Meanings(items), i, answers) <==> items[i].Entry? && !answers(|Expected(items[..i])|)
    {
      RenderedCalls(items[..i]);
      assert Meanings(items)[..i] == Meanings(items[..i]);
    }
  }

  /** Rendering a document and parsing it gives the document back. */
  lemma RoundTrip(items: seq<Item>, answers: nat -> bool)
    requires AllFit(items)
    ensures Matches(Acts(Chunks(Render(items))), items, answers)
  {
    ChunksOfLines(items);
    ItemActs(items);
    MeaningsMatch(items, answers);
  }
}
