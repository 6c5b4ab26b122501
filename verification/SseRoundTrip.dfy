/** What the printer writes, the parser reads: whole streams, and streams cut anywhere. */
module SseRoundTrip {
  import opened Common
  import opened Text
  import opened Sse

  /** The callbacks the written events stand for, in order. */
  function Calls(writes: seq<Write>): seq<Call> {
    if writes == [] then []
    else Calls(writes[..|writes| - 1]) + match writes[|writes| - 1] case Emit(e) => [CallOf(e)] case Heartbeat => []
  }

  function Bodies(c: Codec, writes: seq<Write>): seq<string> {
    if writes == [] then [] else Bodies(c, writes[..|writes| - 1]) + [Body(c, writes[|writes| - 1])]
  }

  // ----- frames of printed text

  /** No blank line inside, and no line break at the end. */
  predicate Clean(s: string) {
    && (forall i :: 0 <= i < |s| - 1 ==> !(s[i] == '\n' && s[i + 1] == '\n'))
    && (s != "" ==> s[|s| - 1] != '\n')
  }

  lemma {:induction false} SeparatorAfterClean(s: string, t: string)
    requires Clean(s)
    ensures Separator(s + BLANK + t) == |s|
  {
    if s != "" {
      assert (s + BLANK + t)[1..] == s[1..] + BLANK + t;
      assert Clean(s[1..]) by {
        forall i | 0 <= i < |s[1..]| - 1 ensures !(s[1..][i] == '\n' && s[1..][i + 1] == '\n') {
          assert s[1..][i] == s[i + 1] && s[1..][i + 1] == s[i + 2];
        }
      }
      SeparatorAfterClean(s[1..], t);
    }
  }

  /** A clean text, or one with a single line break after it, holds no separator. */
  lemma {:induction false} NoSeparator(s: string)
    requires forall i :: 0 <= i < |s| - 1 ==> !(s[i] == '\n' && s[i + 1] == '\n')
    ensures Separator(s) == |s|
  {
    if |s| >= 2 {
      forall i | 0 <= i < |s[1..]| - 1 ensures !(s[1..][i] == '\n' && s[1..][i + 1] == '\n') {
        assert s[1..][i] == s[i + 1] && s[1..][i + 1] == s[i + 2];
      }
      NoSeparator(s[1..]);
    }
  }

  function Head(e: StreamEvent): string { "event: " + TypeName(e) }

  function Line(c: Codec, e: StreamEvent): string { "data: " + c.stringify(e) }

  lemma HeadHasNoBreak(e: StreamEvent)
    ensures '\n' !in Head(e) && !StartsWith(Head(e), "data:")
    ensures forall n :: 0 <= n <= |Head(e)| ==> !StartsWith(Head(e)[..n], "data:") && '\n' !in Head(e)[..n]
  {
    assert '\n' !in TypeName(e);
    assert Head(e)[0] == 'e' && "data:"[0] == 'd';
  }

  lemma OneBreak(a: string, b: string)
    requires '\n' !in a && '\n' !in b && b != ""
    ensures Clean(a + ['\n'] + b)
  {
    var s := a + ['\n'] + b;
    assert s[|s| - 1] == b[|b| - 1];
    forall i | 0 <= i < |s| - 1 ensures !(s[i] == '\n' && s[i + 1] == '\n') {
      assert i < |a| ==> s[i] == a[i];
      assert i >= |a| ==> s[i + 1] == b[i - |a|];
    }
  }

  lemma BodyClean(c: Codec, w: Write)
    requires IsJson(c)
    ensures Clean(Body(c, w))
  {
    match w
    case Emit(e) =>
      HeadHasNoBreak(e);
      assert '\n' !in Line(c, e);
      OneBreak(Head(e), Line(c, e));
      assert Body(c, w) == Head(e) + ['\n'] + Line(c, e);
    case Heartbeat =>
  }

  /** The frames of printed text, whatever follows it. */
  lemma {:induction false} FramesPrinted(c: Codec, writes: seq<Write>, t: string)
    requires IsJson(c)
    ensures Frames(Printed(c, writes) + t) == Bodies(c, writes) + Frames(t)
    ensures Rest(Printed(c, writes) + t) == Rest(t)
  {
    hide IsJson, Body, Frames, Rest;
    if writes == [] {
      assert Printed(c, writes) + t == t;
    } else {
      var front, body := writes[..|writes| - 1], Body(c, writes[|writes| - 1]);
      var s := body + BLANK + t;
      FramesPrinted(c, front, s);
      assert Printed(c, writes) + t == Printed(c, front) + s;
      BodyClean(c, writes[|writes| - 1]);
      SeparatorAfterClean(body, t);
      FramesStep(s);
      assert s[..|body|] == body && s[|body| + 2..] == t;
    }
  }

  // ----- what one frame, whole or cut, dispatches

  lemma TrimmedData(j: string)
    requires j != "" ==> j[0] == '{'
    ensures TrimStart([' '] + j) == j && TrimStart(j) == j
  {
    assert ([' '] + j)[1..] == j;
  }

  lemma DataOfTwo(a: string, b: string)
    requires !StartsWith(a, "data:")
    ensures DataOf([a]) == ""
    ensures DataOf([a, b]) == if StartsWith(b, "data:") then TrimStart(b[5..]) else ""
  {
    assert [a][..0] == [] && [a, b][..1] == [a];
  }

  /** The data of a frame whose second line is the first n characters of the data line. */
  lemma DataOfCut(c: Codec, e: StreamEvent, n: nat)
    requires IsJson(c) && n <= |Line(c, e)|
    ensures DataOf([Head(e), Line(c, e)[..n]]) == if n >= 6 then c.stringify(e)[..n - 6] else ""
  {
    HeadHasNoBreak(e);
    var b := Line(c, e)[..n];
    DataOfTwo(Head(e), b);
    if n >= 6 {
      var j := c.stringify(e)[..n - 6];
      assert b[5..] == [' '] + j && b[..5] == "data:";
      TrimmedData(j);
    } else if n == 5 {
      assert b[5..] == "";
    }
  }

  lemma DispatchBody(c: Codec, w: Write)
    requires IsJson(c)
    ensures DispatchOf(c, Body(c, w)) == match w case Emit(e) => Called(CallOf(e)) case Heartbeat => Ignored
  {
    match w
    case Emit(e) => DispatchEvent(c, e);
    case Heartbeat =>
      hide IsJson;
      SplitFree(": ping", '\n');
      DataOfTwo(": ping", "");
  }

  lemma DispatchEvent(c: Codec, e: StreamEvent)
    requires IsJson(c)
    ensures DispatchOf(c, Body(c, Emit(e))) == Called(CallOf(e))
  {
    hide DispatchOf, Line, Head, DataOf, Split;
    var n := |Line(c, e)|;
    HeadHasNoBreak(e);
    LineHasNoBreak(c, e);
    BodyParts(c, e);
    SplitFirst(Head(e), '\n', Line(c, e));
    SplitFree(Line(c, e), '\n');
    assert Line(c, e)[..n] == Line(c, e) && [Head(e)] + [Line(c, e)] == [Head(e), Line(c, e)];
    DataOfCut(c, e, n);
    assert c.stringify(e)[..n - 6] == c.stringify(e);
    DispatchByData(c, Body(c, Emit(e)), c.stringify(e));
  }

  /** A cut frame is either ignored or, if nothing of the data is missing, dispatched like the whole. */
  lemma DispatchCut(c: Codec, w: Write, p: string)
    requires IsJson(c) && p <= Body(c, w) + ['\n']
    ensures DispatchOf(c, p) == Ignored || (w.Emit? && DispatchOf(c, p) == Called(CallOf(w.event)))
  {
    match w
    case Heartbeat =>
      assert ": ping" + ['\n'] == ": ping\n";
      if |p| <= 6 {
        assert p == ": ping"[..|p|];
        SplitFree(p, '\n');
        DataOfTwo(p, "");
      } else {
        assert p == ": ping" + ['\n'] + "";
        SplitFirst(": ping", '\n', "");
        DataOfTwo(": ping", "");
      }
    case Emit(e) =>
      DispatchCutEvent(c, e, p);
  }

  lemma DispatchCutEvent(c: Codec, e: StreamEvent, p: string)
    requires IsJson(c) && p <= Body(c, Emit(e)) + ['\n']
    ensures DispatchOf(c, p) == Ignored || DispatchOf(c, p) == Called(CallOf(e))
  {
    hide DispatchOf, Line, Head;
    HeadHasNoBreak(e);
    LineHasNoBreak(c, e);
    var h, l := Head(e), Line(c, e);
    assert Body(c, Emit(e)) == h + ['\n'] + l by { BodyParts(c, e); }
    if |p| <= |h| {
      assert p == h[..|p|];
      SplitFree(p, '\n');
      DataOfTwo(p, "");
      DispatchByData(c, p, "");
    } else if |p| <= |h| + 1 + |l| {
      var n := |p| - |h| - 1;
      assert p == h + ['\n'] + l[..n];
      SplitFirst(h, '\n', l[..n]);
      SplitFree(l[..n], '\n');
      DataOfCut(c, e, n);
      DispatchByData(c, p, if n >= 6 then c.stringify(e)[..n - 6] else "");
      CutData(c, e, n);
    } else {
      assert p == h + ['\n'] + (l + ['\n'] + "");
      SplitFirst(h, '\n', l + ['\n'] + "");
      SplitFirst(l, '\n', "");
      SplitFree("", '\n');
      assert [h] + ([l] + [""]) == [h, l, ""];
      assert [h, l, ""][..2] == [h, l];
      assert l[..|l|] == l;
      DataOfCut(c, e, |l|);
      CutData(c, e, |l|);
      DispatchByData(c, p, c.stringify(e)[..|l| - 6]);
    }
  }

  lemma LineHasNoBreak(c: Codec, e: StreamEvent)
    requires IsJson(c)
    ensures '\n' !in Line(c, e) && forall n :: 0 <= n <= |Line(c, e)| ==> '\n' !in Line(c, e)[..n]
    ensures |Line(c, e)| == |c.stringify(e)| + 6
  {
  }

  lemma BodyParts(c: Codec, e: StreamEvent)
    ensures Body(c, Emit(e)) == Head(e) + ['\n'] + Line(c, e)
  {
  }

  lemma DispatchByData(c: Codec, p: string, data: string)
    requires DataOf(Split(p, '\n')) == data
    ensures data == "" ==> DispatchOf(c, p) == Ignored
    ensures data != "" && c.parse(data) == Invalid ==> DispatchOf(c, p) == Ignored
    ensures forall call :: data != "" && c.parse(data) == Value(Some(call)) ==> DispatchOf(c, p) == Called(call)
  {
  }

  lemma CutData(c: Codec, e: StreamEvent, n: nat)
    requires IsJson(c) && n <= |c.stringify(e)| + 6
    ensures n >= 6 ==> c.parse(c.stringify(e)[..n - 6]) == Invalid || c.parse(c.stringify(e)[..n - 6]) == Value(Some(CallOf(e)))
  {
    if n >= 6 && n - 6 == |c.stringify(e)| { assert c.stringify(e)[..n - 6] == c.stringify(e); }
  }

  // ----- whole streams

  lemma {:induction false} ProcessBodies(c: Codec, writes: seq<Write>)
    requires IsJson(c)
    ensures Process(c, Bodies(c, writes)) == (Calls(writes), false)
  {
    hide IsJson, DispatchOf, Body;
    if writes != [] {
      var front, w := writes[..|writes| - 1], writes[|writes| - 1];
      var all := Bodies(c, writes);
      assert all[..|all| - 1] == Bodies(c, front) && all[|all| - 1] == Body(c, w);
      ProcessBodies(c, front);
      DispatchBody(c, w);
      assert Calls(front) + [] == Calls(front);
    }
  }

  /** Printing then parsing is the identity on events, heartbeats notwithstanding. */
  lemma PrintThenParse(c: Codec, writes: seq<Write>)
    requires IsJson(c)
    ensures Outcome(c, Printed(c, writes)) == Calls(writes)
  {
    hide IsJson, DispatchOf, Body;
    FramesPrinted(c, writes, "");
    FramesOfNothing();
    ProcessBodies(c, writes);
    assert Printed(c, writes) + "" == Printed(c, writes);
    assert Bodies(c, writes) + [] + [] == Bodies(c, writes);
  }

  // ----- streams cut anywhere

  lemma CutFrame(c: Codec, w: Write, p: string)
    requires IsJson(c) && p <= Body(c, w) + ['\n']
    ensures Frames(p) == [] && Rest(p) == p
  {
    hide IsJson, Body;
    BodyClean(c, w);
    var b := Body(c, w);
    forall i | 0 <= i < |p| - 1 ensures !(p[i] == '\n' && p[i + 1] == '\n') {
      assert p[i] == (b + ['\n'])[i] && p[i + 1] == (b + ['\n'])[i + 1];
      assert i + 1 < |b| ==> (b + ['\n'])[i + 1] == b[i + 1];
    }
    NoSeparator(p);
    FramesStep(p);
  }

  /** A stream that ends after k whole writes and part of the next. */
  lemma CutAfter(c: Codec, writes: seq<Write>, w: Write, p: string)
    requires IsJson(c) && p <= Body(c, w) + ['\n']
    ensures var out := Outcome(c, Printed(c, writes) + p);
      out == Calls(writes) || out == Calls(writes + [w])
  {
    hide IsJson, DispatchOf, Body;
    FramesPrinted(c, writes, p);
    CutFrame(c, w, p);
    ProcessBodies(c, writes);
    DispatchCut(c, w, p);
    var bodies := Bodies(c, writes);
    assert bodies + [] == bodies;
    assert (bodies + [p])[..|bodies|] == bodies;
    assert (writes + [w])[..|writes|] == writes;
    assert Calls(writes) + [] == Calls(writes);
  }

  lemma {:induction false} CutPoint(c: Codec, writes: seq<Write>, n: nat) returns (k: nat, p: string)
    requires n <= |Printed(c, writes)|
    ensures k <= |writes| && Printed(c, writes)[..n] == Printed(c, writes[..k]) + p
    ensures k == |writes| ==> p == "" && n == |Printed(c, writes)|
    ensures k < |writes| ==> p <= Body(c, writes[k]) + ['\n'] && |Printed(c, writes[..k])| <= n < |Printed(c, writes[..k + 1])|
  {
    hide Body;
    if n == |Printed(c, writes)| {
      k, p := |writes|, "";
      assert writes[..k] == writes && Printed(c, writes)[..n] == Printed(c, writes);
    } else {
      var front, b := writes[..|writes| - 1], Body(c, writes[|writes| - 1]);
      var m := |Printed(c, front)|;
      if n < m {
        k, p := CutPoint(c, front, n);
        assert Printed(c, writes)[..n] == Printed(c, front)[..n] && front[..k] == writes[..k];
        if k < |front| { assert front[..k + 1] == writes[..k + 1]; }
      } else {
        k, p := |front|, (b + BLANK)[..n - m];
        assert Printed(c, writes) == Printed(c, front) + (b + BLANK);
        assert writes[..k] == front && writes[..k + 1] == writes;
        assert p == (b + ['\n'])[..n - m];
      }
    }
  }

  /** The first k writes, or all of them but the end of the last, fit in n characters, and one more does not. */
  predicate CutFits(c: Codec, writes: seq<Write>, n: nat, k: nat)
    requires k <= |writes|
  {
    && (k < |writes| ==> n < |Printed(c, writes[..k + 1])|)
    && (k > 0 ==> |Printed(c, writes[..k - 1])| <= n)
  }

  /** Cut anywhere, the stream gives the events before some write: those written whole before the
      cut, perhaps with the one being written if only its line ends are missing. */
  lemma CutStreamGivesPrefix(c: Codec, writes: seq<Write>, n: nat)
    requires IsJson(c) && n <= |Printed(c, writes)|
    ensures exists k :: 0 <= k <= |writes| && CutFits(c, writes, n, k) && Outcome(c, Printed(c, writes)[..n]) == Calls(writes[..k])
  {
    hide IsJson, Body, Outcome, Printed, CutFits, Calls;
    var k, p := CutPoint(c, writes, n);
    CutFitsAt(c, writes, n, k);
    if k == |writes| {
      assert writes[..k] == writes && Printed(c, writes)[..n] == Printed(c, writes);
      PrintThenParse(c, writes);
    } else {
      CutAfter(c, writes[..k], writes[k], p);
      assert writes[..k] + [writes[k]] == writes[..k + 1];
    }
  }

  lemma CutFitsAt(c: Codec, writes: seq<Write>, n: nat, k: nat)
    requires k <= |writes|
    requires if k == |writes| then n == |Printed(c, writes)| else |Printed(c, writes[..k])| <= n < |Printed(c, writes[..k + 1])|
    ensures CutFits(c, writes, n, k) && (k < |writes| ==> CutFits(c, writes, n, k + 1))
  {
    hide Printed;
    if k == |writes| { assert writes[..k] == writes; }
    PrintedGrows(c, writes, k as int - 1);
    PrintedGrows(c, writes, k + 1);
  }

  lemma PrintedGrows(c: Codec, writes: seq<Write>, k: int)
    ensures 0 <= k < |writes| ==> |Printed(c, writes[..k])| <= |Printed(c, writes[..k + 1])|
  {
    if 0 <= k < |writes| { assert writes[..k + 1][..k] == writes[..k]; }
  }

  lemma {:induction false} CallsPrefix(writes: seq<Write>, k: nat)
    requires k <= |writes|
    ensures Calls(writes[..k]) <= Calls(writes)
    decreases |writes| - k
  {
    if k == |writes| {
      assert writes[..k] == writes;
    } else {
      assert writes[..k + 1][..k] == writes[..k];
      CallsPrefix(writes, k + 1);
    }
  }

  // ----- the printed frames, read as the standard reads them (section 9.2.6)

  datatype Buffers = Buffers(eventType: string, data: string)

  function FirstColon(s: string): (i: nat)
    ensures i <= |s|
  {
    if s == "" || s[0] == ':' then 0 else 1 + FirstColon(s[1..])
  }

  /** A comment line starts with a colon; otherwise the field name ends at the first colon, and one
      space after it is dropped. */
  function ProcessLine(b: Buffers, line: string): Buffers {
    var i := FirstColon(line);
    var value := if i == |line| then "" else if i + 1 < |line| && line[i + 1] == ' ' then line[i + 2..] else line[i + 1..];
    if line != "" && i == 0 then b
    else if line[..i] == "event" then b.(eventType := value)
    else if line[..i] == "data" then b.(data := b.data + value + ['\n'])
    else b
  }

  function ProcessLines(lines: seq<string>): Buffers {
    if lines == [] then Buffers("", "") else ProcessLine(ProcessLines(lines[..|lines| - 1]), lines[|lines| - 1])
  }

  /** The event dispatched at the blank line after a block: its type and its data. */
  function StandardEvent(block: string): Option<(string, string)> {
    var b := ProcessLines(Split(block, '\n'));
    if b.data == "" then None
    else Some((if b.eventType == "" then "message" else b.eventType, b.data[..|b.data| - 1]))
  }

  lemma {:induction false} ColonAfter(name: string, rest: string)
    requires ':' !in name
    ensures FirstColon(name + [':'] + rest) == |name|
  {
    if name != "" {
      assert (name + [':'] + rest)[1..] == name[1..] + [':'] + rest;
      ColonAfter(name[1..], rest);
    }
  }

  lemma FieldLine(b: Buffers, name: string, value: string)
    requires name == "event" || name == "data"
    ensures ProcessLine(b, name + [':'] + ([' '] + value)) ==
              if name == "event" then b.(eventType := value) else b.(data := b.data + value + ['\n'])
  {
    var line := name + [':'] + ([' '] + value);
    ColonAfter(name, [' '] + value);
    assert line[..|name|] == name && line[|name| + 2..] == value;
    assert "event"[0] != "data"[0];
  }

  lemma TwoLines(a: string, b: string)
    ensures ProcessLines([a]) == ProcessLine(Buffers("", ""), a)
    ensures ProcessLines([a, b]) == ProcessLine(ProcessLine(Buffers("", ""), a), b)
  {
    hide ProcessLine;
    assert [a][..0] == [] && [a, b][..1] == [a];
  }

  lemma EventReading(c: Codec, e: StreamEvent)
    requires IsJson(c)
    ensures ProcessLines(Split(Body(c, Emit(e)), '\n')) == Buffers(TypeName(e), c.stringify(e) + ['\n'])
  {
    HeadHasNoBreak(e);
    LineHasNoBreak(c, e);
    hide IsJson, Split, Body, ProcessLine, ProcessLines, Head, Line, TypeName;
    BodyParts(c, e);
    SplitFirst(Head(e), '\n', Line(c, e));
    SplitFree(Line(c, e), '\n');
    assert [Head(e)] + [Line(c, e)] == [Head(e), Line(c, e)];
    TwoLines(Head(e), Line(c, e));
    HeadAndLine(c, e);
    FieldLine(Buffers("", ""), "event", TypeName(e));
    FieldLine(Buffers(TypeName(e), ""), "data", c.stringify(e));
    assert "" + c.stringify(e) == c.stringify(e);
    assert "event" != "data" by { assert |"event"| == 5 && |"data"| == 4; }
  }

  /** A reader that follows the standard gets each event with its type and its JSON text, and nothing
      from a heartbeat. */
  lemma StandardReading(c: Codec, w: Write)
    requires IsJson(c)
    ensures StandardEvent(Body(c, w)) == match w case Emit(e) => Some((TypeName(e), c.stringify(e))) case Heartbeat => None
  {
    match w
    case Emit(e) =>
      hide IsJson, Split, Body, ProcessLines;
      EventReading(c, e);
      var data := c.stringify(e) + ['\n'];
      assert data[..|data| - 1] == c.stringify(e);
    case Heartbeat =>
      hide IsJson, ProcessLine;
      SplitFree(": ping", '\n');
      TwoLines(": ping", "");
      CommentLine();
  }

  lemma CommentLine()
    ensures ProcessLine(Buffers("", ""), ": ping") == Buffers("", "")
  {
  }

  lemma HeadAndLine(c: Codec, e: StreamEvent)
    ensures Head(e) == "event" + [':'] + ([' '] + TypeName(e))
    ensures Line(c, e) == "data" + [':'] + ([' '] + c.stringify(e))
  {
  }
}
