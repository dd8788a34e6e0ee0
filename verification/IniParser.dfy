/** The parser as the program text has it: a line buffer that is cut up in place
    by writing NULs into it, read again as NUL-terminated strings. */
module IniParser {
  import opened Ini

  /** The buffer holds the NUL-terminated string `t` at `s`. */
  ghost predicate Holds(b: seq<char>, s: nat, t: string) {
    && s + |t| < |b| && b[s + |t|] == NUL
    && forall i :: 0 <= i < |t| ==> b[s + i] == t[i] != NUL
  }

  lemma HoldsTail(b: seq<char>, s: nat, t: string, k: nat)
    requires Holds(b, s, t) && k <= |t|
    ensures Holds(b, s + k, t[k..])
  {
  }

  /** A NUL written into a string ends it there; what follows is a string of its own. */
  lemma HoldsCut(b: seq<char>, s: nat, t: string, k: nat)
    requires Holds(b, s, t) && k <= |t|
    ensures Holds(b[s + k := NUL], s, t[..k])
    ensures k < |t| ==> Holds(b[s + k := NUL], s + k + 1, t[k + 1..])
  {
  }

  lemma HoldsStill(b: seq<char>, b': seq<char>, s: nat, t: string)
    requires Holds(b, s, t) && |b| == |b'|
    requires forall i :: s <= i <= s + |t| ==> b'[i] == b[i]
    ensures Holds(b', s, t)
  {
  }

  lemma EndOfString(b: seq<char>, s: nat, t: string, k: nat)
    requires Holds(b, s, t) && k <= |t| && b[s + k] == NUL
    ensures k == |t|
  {
    if k < |t| {
      InString(b, s, t, k);
    }
  }

  lemma InString(b: seq<char>, s: nat, t: string, k: nat)
    requires Holds(b, s, t) && k < |t|
    ensures b[s + k] == t[k] != NUL
  {
  }

  /** What the handler sees behind a pointer into the buffer. */
  method ReadString(line: array<char>, s: nat, ghost t: string) returns (r: string)
    requires Holds(line[..], s, t)
    ensures r == t
  {
    r := "";
    while line[s + |r|] != NUL
      invariant |r| <= |t| && r == t[..|r|]
      decreases |t| - |r|
    {
      r := r + [line[s + |r|]];
    }
    EndOfString(line[..], s, t, |r|);
  }

  /** ini_rstrip */
  method RStripInPlace(line: array<char>, s: nat, ghost t: string)
    requires Holds(line[..], s, t)
    modifies line
    ensures Holds(line[..], s, RStrip(t))
    ensures forall i :: 0 <= i < line.Length && !(s <= i < s + |t|) ==> line[i] == old(line[i])
  {
    var text := ReadString(line, s, t);
    var p := s + |text|;
    ghost var r := t;
    while p > s
      invariant r <= t && p == s + |r| && Holds(line[..], s, r) && RStrip(r) == RStrip(t)
      invariant forall i :: 0 <= i < line.Length && !(s <= i < s + |t|) ==> line[i] == old(line[i])
    {
      p := p - 1;
      if !IsSpace(line[p]) {
        break;
      }
      HoldsCut(line[..], s, r, |r| - 1);
      ghost var b := line[..];
      line[p] := NUL;
      assert line[..] == b[p := NUL];
      r := r[..|r| - 1];
    }
  }

  /** ini_lskip */
  method LSkipFrom(line: array<char>, s: nat, ghost t: string) returns (p: nat)
    requires Holds(line[..], s, t)
    ensures p == s + (|t| - |LSkip(t)|) && Holds(line[..], p, LSkip(t))
  {
    p := s;
    ghost var b, r := line[..], t;
    while line[p] != NUL && IsSpace(line[p])
      invariant |r| <= |t| && p == s + |t| - |r| && Holds(b, p, r) && LSkip(r) == LSkip(t)
      decreases |r|
    {
      assert r != "" && r[0] == b[p];
      HoldsTail(b, p, r, 1);
      p := p + 1;
      r := r[1..];
    }
    assert r != "" ==> r[0] == b[p];
  }

  /** ini_find_chars_or_comment; no characters stand for NULL. */
  method FindCharsOrComment(line: array<char>, s: nat, chars: string, ghost t: string) returns (e: nat)
    requires Holds(line[..], s, t)
    ensures e == s + StopAt(t, chars, false)
    ensures line[e] == if e < s + |t| then t[e - s] else NUL
  {
    e := s;
    var wasSpace := false;
    ghost var r := t;
    while line[e] != NUL && line[e] !in chars && !(wasSpace && line[e] == ';')
      invariant |r| <= |t| && e == s + (|t| - |r|) && r == t[e - s..] && Holds(line[..], e, r)
      invariant StopAt(t, chars, false) == e - s + StopAt(r, chars, wasSpace)
      decreases |r|
    {
      HoldsTail(line[..], e, r, 1);
      wasSpace := IsSpace(line[e]);
      e := e + 1;
      r := r[1..];
    }
  }

  /** Cuts the string at an inline comment. */
  method CutComment(line: array<char>, s: nat, ghost t: string)
    requires Holds(line[..], s, t)
    modifies line
    ensures Holds(line[..], s, t[..StopAt(t, "", false)])
    ensures forall i :: 0 <= i < line.Length && !(s <= i < s + |t|) ==> line[i] == old(line[i])
  {
    var end := FindCharsOrComment(line, s, "", t);
    HoldsCut(line[..], s, t, end - s);
    ghost var b := line[..];
    if line[end] != NUL {
      line[end] := NUL;
    }
    assert line[..] == b[end := NUL];
  }

  /** ini_reader_string, on the characters of `input` from `pos` on. */
  method ReadChunk(line: array<char>, num: nat, input: string, pos: nat) returns (ok: bool, next: nat)
    requires num <= line.Length && pos <= |input| && NUL !in input
    modifies line
    ensures ok <==> pos < |input| && num >= 2
    ensures ok ==> next == pos + ChunkSize(input[pos..], num - 1) && Holds(line[..], 0, input[pos..next])
    ensures !ok ==> next == pos
  {
    next := pos;
    if pos == |input| || num < 2 {
      return false, pos;
    }
    var room, n := num, 0;
    while room > 1 && next < |input|
      invariant room + n == num && room >= 1 && next == pos + n <= |input|
      invariant n + ChunkSize(input[next..], room - 1) == ChunkSize(input[pos..], num - 1)
      invariant forall i :: 0 <= i < n ==> line[i] == input[pos + i]
    {
      var c := input[next];
      ghost var rest := input[next..];
      assert rest[1..] == input[next + 1..];
      next := next + 1;
      line[n] := c;
      n := n + 1;
      if c == '\n' {
        break;
      }
      room := room - 1;
    }
    line[n] := NUL;
    ok := true;
  }

  /** Strips a value of its comment and of the spaces around it. */
  method StripValue(line: array<char>, s: nat, ghost raw: string) returns (value: nat)
    requires Holds(line[..], s, raw)
    modifies line
    ensures Holds(line[..], value, ValueOf(raw))
    ensures forall i :: 0 <= i < line.Length && i < s ==> line[i] == old(line[i])
  {
    CutComment(line, s, raw);
    ghost var cut := raw[..StopAt(raw, "", false)];
    value := LSkipFrom(line, s, cut);
    RStripInPlace(line, value, LSkip(cut));
  }

  /** Ends the string before `end`; what follows is a string of its own. */
  method CutAt(line: array<char>, s: nat, end: nat, ghost t: string)
    requires Holds(line[..], s, t) && s <= end < s + |t|
    modifies line
    ensures Holds(line[..], s, t[..end - s]) && Holds(line[..], end + 1, t[end - s + 1..])
  {
    HoldsCut(line[..], s, t, end - s);
    ghost var b := line[..];
    line[end] := NUL;
    assert line[..] == b[end := NUL];
  }

  /** A line that names a value, from the separator at `end`. */
  method ParsePair(line: array<char>, start: nat, end: nat, ghost t: string) returns (act: Act)
    requires Holds(line[..], start, t) && start <= end < start + |t|
    modifies line
    ensures act == Pair(RStrip(t[..end - start]), ValueOf(t[end - start + 1..]))
  {
    ghost var left, raw := t[..end - start], t[end - start + 1..];
    CutAt(line, start, end, t);
    ghost var b := line[..];
    RStripInPlace(line, start, left);
    HoldsStill(b, line[..], end + 1, raw);
    b := line[..];
    var value := StripValue(line, end + 1, raw);
    HoldsStill(b, line[..], start, RStrip(left));
    var n := ReadString(line, start, RStrip(left));
    var v := ReadString(line, value, ValueOf(raw));
    return Pair(n, v);
  }

  /** The branches for a line that is neither a comment nor a continuation. */
  method ParsePlain(line: array<char>, start: nat, ghost t: string) returns (act: Act)
    requires Holds(line[..], start, t) && t != ""
    modifies line
    ensures act == PlainAct(t)
  {
    if line[start] == '[' {
      HoldsTail(line[..], start, t, 1);
      var end := FindCharsOrComment(line, start + 1, "]", t[1..]);
      if line[end] == ']' {
        CutAt(line, start + 1, end, t[1..]);
        var name := ReadString(line, start + 1, t[1..][..end - start - 1]);
        assert t[1..][..end - start - 1] == t[1..end - start];
        return Section(name);
      }
      return Bad;
    }
    var end := FindCharsOrComment(line, start, "=:", t);
    if line[end] == '=' || line[end] == ':' {
      act := ParsePair(line, start, end, t);
    } else {
      act := Bad;
    }
  }

  /** Skips a byte order mark at the start of the first line. */
  method SkipBom(line: array<char>, lineno: nat, ghost text: string) returns (start: nat)
    requires Holds(line[..], 0, text) && line.Length >= 3
    ensures start == if lineno == 1 && HasBom(text) then 3 else 0
    ensures start <= |text| && Holds(line[..], start, text[start..])
  {
    start := 0;
    if lineno == 1 && line[0] == '\U{ef}' && line[1] == '\U{bb}' && line[2] == '\U{bf}' {
      start := 3;
    }
    HoldsTail(line[..], 0, text, start);
  }

  /** One line of the main loop, up to what it asks for. */
  method ParseLine(line: array<char>, lineno: nat, named: bool, ghost text: string) returns (act: Act)
    requires Holds(line[..], 0, text) && line.Length >= 3
    modifies line
    ensures act == LineAct(text, lineno == 1, named)
  {
    var start := SkipBom(line, lineno, text);
    ghost var bom, body := start > 0, RStrip(text[start..]);
    assert text[0..] == text;
    RStripInPlace(line, start, text[start..]);
    start := LSkipFrom(line, start, body);
    assert start > 0 <==> bom || LSkip(body) != body;
    act := ParseStart(line, start, named, LSkip(body));
  }

  /** The branches of the main loop, for the stripped line. */
  method ParseStart(line: array<char>, start: nat, named: bool, ghost t: string) returns (act: Act)
    requires Holds(line[..], start, t)
    modifies line
    ensures act == StartAct(t, start > 0, named)
  {
    if line[start] == NUL || line[start] in ";#" {
      return Nothing;
    }
    if named && start > 0 {
      CutComment(line, start, t);
      ghost var cut := t[..StopAt(t, "", false)];
      RStripInPlace(line, start, cut);
      var value := ReadString(line, start, RStrip(cut));
      return More(value);
    }
    act := ParsePlain(line, start, t);
  }

  // ----- all lines -----

  lemma OneMoreLine(lines: seq<string>, text: string)
    ensures Acts(lines + [text]) == Acts(lines) + [LineAct(text, lines == [], ContextAfter(Acts(lines)).prevName != "")]
  {
    assert (lines + [text])[..|lines|] == lines;
  }

  lemma OneMoreAct(acts: seq<Act>, act: Act)
    ensures ContextAfter(acts + [act]) == Next(ContextAfter(acts), act)
    ensures Calls(acts + [act]) == Calls(acts) + CallOf(ContextAfter(acts), act)
  {
    assert (acts + [act])[..|acts|] == acts;
  }

  lemma OneMoreFailure(acts: seq<Act>, act: Act, answers: nat -> bool, error: nat)
    requires FirstFailure(acts, answers, error)
    ensures var next := if error == 0 && Refused(act, answers, |Calls(acts)|) then |acts| + 1 else error;
            FirstFailure(acts + [act], answers, next)
  {
    var more := acts + [act];
    assert more[..|acts|] == acts;
    forall i | 0 <= i < |acts|
      ensures Fails(more, i, answers) == Fails(acts, i, answers)
    {
      assert more[..i] == acts[..i];
    }
  }

  lemma OneMoreChunk(all: seq<string>, lines: seq<string>, rest: string, n: nat)
    requires rest != "" && n == ChunkSize(rest, MAX_LINE - 1)
    requires all == lines + Chunks(rest)
    ensures all == lines + [rest[..n]] + Chunks(rest[n..])
  {
  }

  /** What the main loop does about a line: the handler's answer does not stop it. */
  method Handle(act: Act, section: string, prevName: string, lineno: nat,
                calls: seq<Call>, answers: nat -> bool, error: nat)
    returns (section': string, prevName': string, calls': seq<Call>, error': nat)
    ensures Context(section', prevName') == Next(Context(section, prevName), act)
    ensures calls' == calls + CallOf(Context(section, prevName), act)
    ensures error' == if error == 0 && Refused(act, answers, |calls|) then lineno else error
  {
    section', prevName', calls', error' := section, prevName, calls, error;
    match act
    case Section(name) => section', prevName' := Cut(name), "";
    case Pair(name, value) =>
      prevName' := Cut(name);
      calls' := calls + [Call(section, name, value)];
      if !answers(|calls|) && error == 0 { error' := lineno; }
    case More(value) =>
      calls' := calls + [Call(section, prevName, value)];
      if !answers(|calls|) && error == 0 { error' := lineno; }
    case Bad => if error == 0 { error' := lineno; }
    case Nothing =>
  }

  /** What the loop has read. */
  ghost predicate HasRead(input: string, pos: nat, lines: seq<string>)
    requires pos <= |input|
  {
    Chunks(input) == lines + Chunks(input[pos..])
  }

  lemma OneMoreRead(input: string, pos: nat, next: nat, lines: seq<string>)
    requires pos < |input| && next == pos + ChunkSize(input[pos..], MAX_LINE - 1)
    requires HasRead(input, pos, lines)
    ensures HasRead(input, next, lines + [input[pos..next]])
  {
    var rest := input[pos..];
    OneMoreChunk(Chunks(input), lines, rest, next - pos);
    assert rest[..next - pos] == input[pos..next] && rest[next - pos..] == input[next..];
  }

  lemma AllRead(input: string, lines: seq<string>)
    requires HasRead(input, |input|, lines)
    ensures lines == Chunks(input)
  {
  }

  lemma NoneRead(input: string)
    ensures HasRead(input, 0, [])
  {
    assert input[0..] == input;
  }

  /** Reads the next line and finds what it asks for. */
  method ReadAct(line: array<char>, input: string, pos: nat, lineno: nat, named: bool, ghost lines: seq<string>)
    returns (more: bool, next: nat, act: Act)
    requires line.Length == MAX_LINE && pos <= |input| && NUL !in input
    requires lineno == |lines| && HasRead(input, pos, lines)
    requires named <==> ContextAfter(Acts(lines)).prevName != ""
    modifies line
    ensures pos <= next <= |input| && (if more then pos < next else next == pos == |input|)
    ensures more ==> var all := lines + [input[pos..next]];
                     HasRead(input, next, all) && Acts(all) == Acts(lines) + [act]
  {
    act := Nothing;
    more, next := ReadChunk(line, MAX_LINE, input, pos);
    if more {
      ghost var text := input[pos..next];
      act := ParseLine(line, lineno + 1, named, text);
      OneMoreRead(input, pos, next, lines);
      OneMoreLine(lines, text);
    }
  }

  /** The handler answers the i-th call with `answers(i)`; it is called all the
      same, and the number of the first line that fails is returned. */
  method ParseString(input: string, answers: nat -> bool) returns (calls: seq<Call>, error: nat)
    requires NUL !in input
    ensures calls == Calls(Acts(Chunks(input)))
    ensures FirstFailure(Acts(Chunks(input)), answers, error)
  {
    var line := new char[MAX_LINE](_ => NUL);
    var section, prevName, lineno, pos := "", "", 0, 0;
    calls, error := [], 0;
    ghost var lines: seq<string>, acts := [], [];
    NoneRead(input);
    var more, act := true, Nothing;
    while true
      invariant pos <= |input| && HasRead(input, pos, lines)
      invariant acts == Acts(lines) && lineno == |lines| == |acts|
      invariant Context(section, prevName) == ContextAfter(acts) && calls == Calls(acts)
      invariant FirstFailure(acts, answers, error)
      decreases |input| - pos
    {
      ghost var was := pos;
      more, pos, act := ReadAct(line, input, pos, lineno, prevName != "", lines);
      if !more {
        break;
      }
      lineno := lineno + 1;
      OneMoreAct(acts, act);
      OneMoreFailure(acts, act, answers, error);
      section, prevName, calls, error := Handle(act, section, prevName, lineno, calls, answers, error);
      lines, acts := lines + [input[was..pos]], acts + [act];
    }
    AllRead(input, lines);
  }
}
