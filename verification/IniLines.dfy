/** Every kind of line that the parser tells apart, in its general form: with
    spaces around its parts, either separator, comments and continuations. */
module IniLines {
  import opened Ini

  /** Spaces and tabs. */
  predicate Blank(s: string) {
    forall i :: 0 <= i < |s| ==> s[i] == ' ' || s[i] == '\t'
  }

  lemma {:induction false} SkipsBlank(sp: string, s: string)
    requires Blank(sp) && (s != "" ==> !IsSpace(s[0]))
    ensures LSkip(sp + s) == s
    decreases |sp|
  {
    if sp == "" {
      assert sp + s == s;
    } else {
      assert (sp + s)[1..] == sp[1..] + s;
      SkipsBlank(sp[1..], s);
    }
  }

  lemma {:induction false} StripsBlank(s: string, sp: string)
    requires Blank(sp) && (s != "" ==> !IsSpace(s[|s| - 1]))
    ensures RStrip(s + sp) == s
    decreases |sp|
  {
    if sp == "" {
      assert s + sp == s;
    } else {
      var n := |sp| - 1;
      assert (s + sp)[..|s + sp| - 1] == s + sp[..n];
      StripsBlank(s, sp[..n]);
    }
  }

  /** What ends in a space loses nothing before its last other character. */
  lemma {:induction false} StripsTail(s: string, t: string)
    requires s != "" ==> !IsSpace(s[|s| - 1])
    ensures RStrip(s + t) == s + RStrip(t)
    decreases |t|
  {
    if t == "" {
      assert s + t == s;
    } else if IsSpace(t[|t| - 1]) {
      var n := |t| - 1;
      assert (s + t)[..|s + t| - 1] == s + t[..n];
      StripsTail(s, t[..n]);
    }
  }

  /** A search goes on past spaces, and then looks out for a comment. */
  lemma {:induction false} StopPastBlank(sp: string, s: string, stops: string, spaced: bool)
    requires Blank(sp) && ' ' !in stops && '\t' !in stops
    ensures StopAt(sp + s, stops, spaced) == |sp| + StopAt(s, stops, spaced || sp != "")
    decreases |sp|
  {
    if sp == "" {
      assert sp + s == s;
    } else {
      assert (sp + s)[1..] == sp[1..] + s;
      StopPastBlank(sp[1..], s, stops, true);
    }
  }

  /** A search goes on past clean text. */
  lemma {:induction false} StopPastClean(u: string, s: string, stops: string, spaced: bool)
    requires Clean(u, stops) && !(spaced && u != "" && u[0] == ';')
    ensures StopAt(u + s, stops, spaced) == |u| + StopAt(s, stops, if u == "" then spaced else u[|u| - 1] == ' ')
    decreases |u|
  {
    if u == "" {
      assert u + s == s;
    } else {
      assert (u + s)[1..] == u[1..] + s;
      assert Clean(u[1..], stops) by {
        assert forall i :: 0 <= i < |u| - 1 ==> u[1..][i] == u[i + 1];
      }
      StopPastClean(u[1..], s, stops, IsSpace(u[0]));
    }
  }

  /** What may follow a value: spaces, and after them a comment. */
  predicate Trailer(sp: string, comment: string) {
    Blank(sp) && (comment != "" ==> comment[0] == ';' && sp != "")
  }

  lemma ValueStop(sp: string, value: string, end: string, comment: string)
    requires Blank(sp) && Clean(value, "") && Trailer(end, comment)
    requires sp != "" && value != "" ==> value[0] != ';'
    ensures StopAt(sp + (value + (end + comment)), "", false) == |sp| + |value| + |end|
  {
    StopPastBlank(sp, value + (end + comment), "", false);
    StopPastClean(value, end + comment, "", sp != "");
    StopPastBlank(end, comment, "", if value == "" then sp != "" else value[|value| - 1] == ' ');
  }

  /** A value is found between the spaces around it, up to a comment. */
  lemma ValueFound(sp: string, value: string, end: string, comment: string)
    requires Blank(sp) && Clean(value, "") && Trimmed(value) && Trailer(end, comment)
    requires sp != "" && value != "" ==> value[0] != ';'
    ensures ValueOf(sp + (value + (end + comment))) == value
  {
    var raw := sp + (value + (end + comment));
    ValueStop(sp, value, end, comment);
    FirstThree(sp, value, end, comment);
    ValueAt(raw, |sp| + |value| + |end|, sp + value + end);
    ValueStripped(sp, value, end);
  }

  lemma FirstThree(a: string, b: string, c: string, d: string)
    ensures (a + (b + (c + d)))[..|a| + |b| + |c|] == a + b + c
  {
  }

  lemma ValueAt(raw: string, i: nat, kept: string)
    requires StopAt(raw, "", false) == i && raw[..i] == kept
    ensures ValueOf(raw) == RStrip(LSkip(kept))
  {
  }

  lemma ValueStripped(sp: string, value: string, end: string)
    requires Blank(sp) && Blank(end) && Clean(value, "") && Trimmed(value)
    ensures RStrip(LSkip(sp + value + end)) == value
  {
    if value == "" {
      assert sp + value + end == (sp + end) + "";
      assert Blank(sp + end);
      SkipsBlank(sp + end, "");
    } else {
      assert sp + value + end == sp + (value + end);
      SkipsBlank(sp, value + end);
      StripsBlank(value, end);
    }
  }

  // ----- kinds of lines -----

  /** The line without the spaces around it. */
  lemma LineStart(sp: string, start: string, first: bool, named: bool)
    requires Blank(sp) && start != "" && !IsSpace(start[0]) && !IsSpace(start[|start| - 1]) && start[0] != '\U{ef}'
    ensures LineAct(sp + start + "\n", first, named) == StartAct(start, sp != "", named)
  {
    var text, body := sp + start + "\n", sp + start;
    StripsTail(body, "\n");
    assert body + "" == body && body + "\n" == text;
    SkipsBlank(sp, start);
    assert text[0] == if sp == "" then start[0] else sp[0];
    BodyAct(text, body, start, first, named);
  }

  lemma BodyAct(text: string, body: string, start: string, first: bool, named: bool)
    requires RStrip(text) == body && LSkip(body) == start && (text != "" ==> text[0] != '\U{ef}')
    ensures LineAct(text, first, named) == StartAct(start, start != body, named)
  {
  }

  /** A comment line, and an empty one, ask for nothing. */
  lemma CommentLine(sp: string, start: string, first: bool, named: bool)
    requires Blank(sp) && start != "" && start[0] in ";#" && !IsSpace(start[|start| - 1])
    ensures LineAct(sp + start + "\n", first, named) == Nothing
  {
    LineStart(sp, start, first, named);
  }

  lemma BlankLine(sp: string, first: bool, named: bool)
    requires Blank(sp)
    ensures LineAct(sp + "\n", first, named) == Nothing
  {
    var text := sp + "\n";
    assert !HasBom(text) by {
      assert text[0] == if sp == "" then '\n' else sp[0];
    }
    assert text[..|text| - 1] == sp;
    assert "" + sp == sp;
    StripsBlank("", sp);
    assert RStrip(text) == RStrip(sp) == "";
  }

  /** A heading is what stands between the brackets; the rest of the line is not read. */
  lemma HeadingLine(section: string, rest: string)
    requires Clean(section, "]")
    ensures PlainAct("[" + section + "]" + rest) == Section(section)
  {
    var start := "[" + section + "]" + rest;
    assert start[1..] == section + ("]" + rest);
    StopPastClean(section, "]" + rest, "]", false);
  }

  /** Without the closing bracket, or without a separator, a line is bad. */
  lemma OpenHeading(s: string)
    requires Clean(s, "]")
    ensures PlainAct("[" + s) == Bad
  {
    assert ("[" + s)[1..] == s && s + "" == s;
    StopPastClean(s, "", "]", false);
  }

  lemma NoSeparator(s: string)
    requires s != "" && s[0] != '[' && Clean(s, "=:")
    ensures PlainAct(s) == Bad
  {
    assert s + "" == s;
    StopPastClean(s, "", "=:", false);
  }

  lemma EntryStop(name: string, sp1: string, rest: string, stops: string)
    requires Clean(name, stops) && name != "" && Blank(sp1) && rest != "" && rest[0] in stops
    requires ' ' !in stops && '\t' !in stops
    ensures StopAt(name + (sp1 + rest), stops, false) == |name| + |sp1|
  {
    StopPastClean(name, sp1 + rest, stops, false);
    StopPastBlank(sp1, rest, stops, name[|name| - 1] == ' ');
  }

  lemma PairAt(start: string, e: nat)
    requires e < |start| && start[0] != '[' && StopAt(start, "=:", false) == e && start[e] in "=:"
    ensures PlainAct(start) == Pair(RStrip(start[..e]), ValueOf(start[e + 1..]))
  {
  }

  lemma EntrySplit(name: string, sp1: string, sep: char, raw: string)
    requires Clean(name, "=:") && Trimmed(name) && name != "" && name[0] != '[' && Blank(sp1) && sep in "=:"
    ensures PlainAct(name + (sp1 + ([sep] + raw))) == Pair(name, ValueOf(raw))
  {
    var start, e := name + (sp1 + ([sep] + raw)), |name| + |sp1|;
    EntryStop(name, sp1, [sep] + raw, "=:");
    assert start[e] == sep && start[0] == name[0];
    assert start[..e] == name + sp1 && start[e + 1..] == raw;
    StripsBlank(name, sp1);
    PairAt(start, e);
  }

  /** A name and a value, with '=' or ':' between them, spaces around each and
      perhaps a comment at the end. */
  lemma EntryLine(name: string, sp1: string, sep: char, sp2: string, value: string, end: string, comment: string)
    requires Clean(name, "=:") && Trimmed(name) && name != "" && name[0] != '['
    requires Blank(sp1) && sep in "=:" && Blank(sp2) && Clean(value, "") && Trimmed(value) && Trailer(end, comment)
    requires sp2 != "" && value != "" ==> value[0] != ';'
    ensures PlainAct(name + (sp1 + ([sep] + (sp2 + (value + (end + comment)))))) == Pair(name, value)
  {
    EntrySplit(name, sp1, sep, sp2 + (value + (end + comment)));
    ValueFound(sp2, value, end, comment);
  }

  /** After a name, an indented line gives it another value. */
  lemma ContinuationLine(sp: string, value: string, end: string, comment: string)
    requires Blank(sp) && sp != "" && Clean(value, "") && Trimmed(value) && value != "" && value[0] !in ";#"
    requires Trailer(end, comment)
    ensures StartAct(value + (end + comment), true, true) == More(value)
  {
    var start := value + (end + comment);
    StopPastClean(value, end + comment, "", false);
    StopPastBlank(end, comment, "", value[|value| - 1] == ' ');
    assert start[..|value| + |end|] == value + end;
    StripsBlank(value, end);
  }

  /** With no name before it, or without spaces, a line stands for itself. */
  lemma PlainStart(start: string, indented: bool, named: bool)
    requires start != "" && start[0] !in ";#" && !(indented && named)
    ensures StartAct(start, indented, named) == PlainAct(start)
  {
  }

  /** A byte order mark before the first line is passed over. */
  lemma MarkedLine(text: string)
    requires !HasBom(text)
    ensures LineAct("\U{ef}\U{bb}\U{bf}" + text, true, false) == LineAct(text, true, false)
  {
    var marked := "\U{ef}\U{bb}\U{bf}" + text;
    assert marked[3..] == text && HasBom(marked);
    NoName(LSkip(RStrip(text)), true, LSkip(RStrip(text)) != RStrip(text));
  }

  /** The mark counts at the start of the input alone. */
  lemma {:induction false} MarkedInput(text: string, rest: seq<string>)
    requires !HasBom(text)
    ensures Acts(["\U{ef}\U{bb}\U{bf}" + text] + rest) == Acts([text] + rest)
    decreases |rest|
  {
    var marked := ["\U{ef}\U{bb}\U{bf}" + text];
    if rest == [] {
      MarkedLine(text);
      FirstAct(marked[0]);
      FirstAct(text);
      assert marked + rest == marked && [text] + rest == [text];
    } else {
      var n := |rest| - 1;
      MarkedInput(text, rest[..n]);
      LaterAct(marked, rest);
      LaterAct([text], rest);
    }
  }

  lemma FirstAct(text: string)
    ensures Acts([text]) == [LineAct(text, true, false)]
  {
    assert [text][..0] == [];
  }

  lemma LaterAct(lines: seq<string>, rest: seq<string>)
    requires lines != [] && rest != []
    ensures var n := |rest| - 1;
            var before := Acts(lines + rest[..n]);
            Acts(lines + rest) == before + [LineAct(rest[n], false, ContextAfter(before).prevName != "")]
  {
    var n := |rest| - 1;
    assert (lines + rest)[..|lines + rest| - 1] == lines + rest[..n];
  }

  lemma NoName(start: string, one: bool, other: bool)
    ensures StartAct(start, one, false) == StartAct(start, other, false)
  {
  }

  /** A continuation calls the handler again with the name before it, cut to its
      buffer, under the same section; a heading forgets the name. */
  lemma ContinuationCalls(before: seq<Act>, name: string, value: string, more: string)
    ensures var acts := before + [Pair(name, value)] + [More(more)];
            var section := ContextAfter(before).section;
            Calls(acts) == Calls(before) + [Call(section, name, value)] + [Call(section, Cut(name), more)]
  {
    var one := before + [Pair(name, value)];
    assert one[..|before|] == before;
    assert (one + [More(more)])[..|one|] == one;
  }

  lemma HeadingContext(before: seq<Act>, section: string)
    ensures ContextAfter(before + [Section(section)]) == Context(Cut(section), "")
    ensures Calls(before + [Section(section)]) == Calls(before)
  {
    assert (before + [Section(section)])[..|before|] == before;
  }

  /** Names are cut to 49 characters. */
  lemma CutIs(s: string)
    ensures Cut(s) <= s && |Cut(s)| == if |s| <= 49 then |s| else 49
  {
  }

  /** A chunk ends at its only newline, at 199 characters, or at the end of the input. */
  lemma {:induction false} ChunkIs(s: string, room: nat)
    ensures var n := ChunkSize(s, room);
            && n <= room && n <= |s|
            && (forall i :: 0 <= i < n - 1 ==> s[i] != '\n')
            && (n == room || n == |s| || (n > 0 && s[n - 1] == '\n'))
  {
    if s != "" && room > 0 && s[0] != '\n' {
      ChunkIs(s[1..], room - 1);
    }
  }

  lemma FirstChunk(s: string)
    requires s != ""
    ensures Chunks(s)[0] == s[..ChunkSize(s, 199)] && Chunks(s)[1..] == Chunks(s[ChunkSize(s, 199)..])
  {
  }

  /** The spaces are those of the C locale. */
  lemma SpacesAre(c: char)
    ensures IsSpace(c) <==> c as int == 32 || 9 <= c as int <= 13
  {
  }

  // ----- which line fails -----

  /** No line fails exactly when none is bad and the handler accepts every call. */
  lemma {:induction false} NoneFailsIff(acts: seq<Act>, answers: nat -> bool)
    ensures (forall i :: 0 <= i < |acts| ==> !Fails(acts, i, answers)) <==>
            (forall i :: 0 <= i < |acts| ==> !acts[i].Bad?) && (forall k :: 0 <= k < |Calls(acts)| ==> answers(k))
    decreases |acts|
  {
    if acts != [] {
      var n := |acts| - 1;
      var before := acts[..n];
      NoneFailsIff(before, answers);
      forall i | 0 <= i < n
        ensures Fails(acts, i, answers) <==> Fails(before, i, answers)
      {
        assert acts[..i] == before[..i];
      }
      assert Calls(acts) == Calls(before) + CallOf(ContextAfter(before), acts[n]);
      assert Fails(acts, n, answers) <==> acts[n].Bad? || ((acts[n].Pair? || acts[n].More?) && !answers(|Calls(before)|));
    }
  }

  /** The parser returns 0 exactly when every line is good and the handler
      accepts every call, and otherwise no later a line than the first bad one. */
  lemma ErrorIff(acts: seq<Act>, answers: nat -> bool, error: nat)
    requires FirstFailure(acts, answers, error)
    ensures error == 0 <==>
            (forall i :: 0 <= i < |acts| ==> !acts[i].Bad?) && (forall k :: 0 <= k < |Calls(acts)| ==> answers(k))
    ensures forall i :: 0 <= i < |acts| && acts[i].Bad? ==> 0 < error <= i + 1
  {
    NoneFailsIff(acts, answers);
    forall i | 0 <= i < |acts| && acts[i].Bad?
      ensures 0 < error <= i + 1
    {
      assert Fails(acts, i, answers);
    }
  }
}
