/** llm-bridge/src/index.ts and frontend/src/services/aiApi.ts: printing chat events as
    server-sent events (WHATWG HTML, sections 9.2.5 and 9.2.6) and parsing them incrementally. */
module Sse {
  import opened Common
  import opened Text
  import opened Json

  datatype StreamEvent =
    | TextDelta(delta: string)
    | Thinking(delta: string)
    | ToolUse(name: string, id: string)
    | ToolResult(name: string, ok: bool)
    | Done(model: string)
    | Failure(error: string)

  function TypeName(e: StreamEvent): string {
    match e
    case TextDelta(_) => "text"
    case Thinking(_) => "thinking"
    case ToolUse(_, _) => "tool_use"
    case ToolResult(_, _) => "tool_result"
    case Done(_) => "done"
    case Failure(_) => "error"
  }

  /** The callbacks of the page, with the fields of the event as they are; an absent field is None.
      Interrupted: the error callback with the reason of a broken stream. */
  datatype Call =
    | OnText(delta: Option<Json>)
    | OnThinking(delta: Option<Json>)
    | OnToolUse(name: Option<Json>)
    | OnToolResult(name: Option<Json>, ok: Option<Json>)
    | OnDone(model: Option<Json>)
    | OnError(error: Option<Json>)
    | Interrupted

  function CallOf(e: StreamEvent): Call {
    match e
    case TextDelta(d) => OnText(Some(JString(d)))
    case Thinking(d) => OnThinking(Some(JString(d)))
    case ToolUse(n, _) => OnToolUse(Some(JString(n)))
    case ToolResult(n, ok) => OnToolResult(Some(JString(n)), Some(JBool(ok)))
    case Done(m) => OnDone(Some(JString(m)))
    case Failure(m) => OnError(Some(JString(m)))
  }

  /** What JSON.parse and the switch on the type make of a text: a syntax error, the value null
      (whose type cannot be read), or a value with its callback, if its type has one. */
  datatype Parsed = Invalid | NullValue | Value(call: Option<Call>)

  datatype Codec = Codec(stringify: StreamEvent -> string, parse: string -> Parsed)

  /** JSON, as far as the stream depends on it: an object text has no line break, starts with a
      brace, reads back as the event, and is not valid JSON when cut short. */
  ghost predicate IsJson(c: Codec) {
    && (forall e :: '\n' !in c.stringify(e) && c.stringify(e) != "" && c.stringify(e)[0] == '{')
    && (forall e :: c.parse(c.stringify(e)) == Value(Some(CallOf(e))))
    && (forall e, n :: 0 <= n < |c.stringify(e)| ==> c.parse(c.stringify(e)[..n]) == Invalid)
  }

  // ----- the printer

  datatype Write = Emit(event: StreamEvent) | Heartbeat

  function Body(c: Codec, w: Write): string {
    match w
    case Emit(e) => "event: " + TypeName(e) + ['\n'] + "data: " + c.stringify(e)
    case Heartbeat => ": ping"
  }

  const BLANK: string := ['\n', '\n']

  function Printed(c: Codec, writes: seq<Write>): string {
    if writes == [] then "" else Printed(c, writes[..|writes| - 1]) + Body(c, writes[|writes| - 1]) + BLANK
  }

  class Response {
    const codec: Codec
    var written: string

    constructor (codec: Codec)
      ensures this.codec == codec && written == ""
    {
      this.codec, written := codec, "";
    }

    method EmitEvent(event: StreamEvent)
      modifies this
      ensures written == old(written) + Body(codec, Emit(event)) + BLANK
    {
      written := written + ("event: " + TypeName(event) + "\ndata: " + codec.stringify(event) + "\n\n");
    }

    method Ping()
      modifies this
      ensures written == old(written) + Body(codec, Heartbeat) + BLANK
    {
      written := written + ": ping\n\n";
    }

    method WriteAll(writes: seq<Write>)
      requires written == ""
      modifies this
      ensures written == Printed(codec, writes)
    {
      for i := 0 to |writes|
        invariant written == Printed(codec, writes[..i])
      {
        assert writes[..i + 1][..i] == writes[..i];
        match writes[i]
        case Emit(e) => EmitEvent(e);
        case Heartbeat => Ping();
      }
      assert writes[..|writes|] == writes;
    }
  }

  // ----- one frame

  predicate IsSpace(c: char) {
    || c == ' ' || '\t' <= c <= '\r' || c == '\U{00A0}' || c == '\U{1680}' || '\U{2000}' <= c <= '\U{200A}'
    || c == '\U{2028}' || c == '\U{2029}' || c == '\U{202F}' || c == '\U{205F}' || c == '\U{3000}' || c == '\U{FEFF}'
  }

  function TrimStart(s: string): string {
    if s != "" && IsSpace(s[0]) then TrimStart(s[1..]) else s
  }

  predicate StartsWith(s: string, p: string) { p <= s }

  /** The data lines, without their field name and leading space, run together. */
  function DataOf(lines: seq<string>): string {
    if lines == [] then ""
    else DataOf(lines[..|lines| - 1]) +
         if StartsWith(lines[|lines| - 1], "data:") then TrimStart(lines[|lines| - 1][5..]) else ""
  }

  datatype Dispatched = Ignored | Called(call: Call) | Threw

  function DispatchOf(c: Codec, frame: string): Dispatched {
    var data := DataOf(Split(frame, '\n'));
    if data == "" then Ignored
    else match c.parse(data)
      case Invalid => Ignored
      case NullValue => Threw
      case Value(Some(call)) => Called(call)
      case Value(None) => Ignored
  }

  method Dispatch(c: Codec, frame: string) returns (r: Dispatched)
    ensures r == DispatchOf(c, frame)
  {
    var lines := Split(frame, '\n');
    var dataLine := "";
    for i := 0 to |lines|
      invariant dataLine == DataOf(lines[..i])
    {
      assert lines[..i + 1][..i] == lines[..i];
      if StartsWith(lines[i], "data:") { dataLine := dataLine + TrimStart(lines[i][5..]); }
    }
    assert lines[..|lines|] == lines;
    if dataLine == "" { return Ignored; }
    match c.parse(dataLine) {
      case Invalid => return Ignored;
      case NullValue => return Threw;
      case Value(Some(call)) => return Called(call);
      case Value(None) => return Ignored;
    }
  }

  // ----- the whole stream

  /** indexOf("\n\n"), or the length if there is none. */
  function Separator(s: string): (i: nat)
    ensures i <= |s| && (i < |s| ==> i + 2 <= |s| && s[i] == '\n' && s[i + 1] == '\n')
  {
    if |s| < 2 then |s|
    else if s[0] == '\n' && s[1] == '\n' then 0
    else 1 + Separator(s[1..])
  }

  /** The complete frames of a text, and what is left after the last separator. */
  function Frames(s: string): seq<string>
    decreases |s|
  {
    var i := Separator(s);
    if i == |s| then [] else [s[..i]] + Frames(s[i + 2..])
  }

  function Rest(s: string): string
    decreases |s|
  {
    var i := Separator(s);
    if i == |s| then s else Rest(s[i + 2..])
  }

  /** The callbacks made for a list of frames; a throw ends the stream with an error. */
  function Process(c: Codec, frames: seq<string>): (r: (seq<Call>, bool)) {
    if frames == [] then ([], false)
    else
      var (calls, stopped) := Process(c, frames[..|frames| - 1]);
      if stopped then (calls, true)
      else match DispatchOf(c, frames[|frames| - 1])
        case Ignored => (calls, false)
        case Called(call) => (calls + [call], false)
        case Threw => (calls + [Interrupted], true)
  }

  function LastFrame(rest: string): seq<string> {
    if TrimStart(rest) != "" then [rest] else []
  }

  /** What the page gets from a whole stream. */
  function Outcome(c: Codec, stream: string): seq<Call> {
    Process(c, Frames(stream) + LastFrame(Rest(stream))).0
  }

  function Joined(chunks: seq<string>): string {
    if chunks == [] then "" else Joined(chunks[..|chunks| - 1]) + chunks[|chunks| - 1]
  }

  lemma {:induction false} SeparatorExtends(a: string, b: string)
    ensures Separator(a) < |a| ==> Separator(a + b) == Separator(a)
    decreases |a|
  {
    if |a| >= 2 && !(a[0] == '\n' && a[1] == '\n') {
      assert (a + b)[1..] == a[1..] + b;
      SeparatorExtends(a[1..], b);
    }
  }

  lemma FramesStep(s: string)
    ensures Separator(s) == |s| ==> Frames(s) == [] && Rest(s) == s
    ensures Separator(s) < |s| ==> Frames(s) == [s[..Separator(s)]] + Frames(s[Separator(s) + 2..])
                                   && Rest(s) == Rest(s[Separator(s) + 2..])
  {
    hide Separator;
  }

  /** Reading more text: the frames found so far stand, the rest is looked at again. */
  lemma {:induction false} FramesExtend(a: string, b: string)
    ensures Frames(a + b) == Frames(a) + Frames(Rest(a) + b)
    ensures Rest(a + b) == Rest(Rest(a) + b)
    decreases |a|
  {
    hide Frames, Rest;
    FramesStep(a);
    FramesStep(a + b);
    var i := Separator(a);
    if i < |a| {
      var tail := a[i + 2..];
      SeparatorExtends(a, b);
      assert (a + b)[i + 2..] == tail + b && (a + b)[..i] == a[..i];
      FramesExtend(tail, b);
      assert [a[..i]] + (Frames(tail) + Frames(Rest(tail) + b)) == ([a[..i]] + Frames(tail)) + Frames(Rest(tail) + b);
    }
  }

  lemma {:induction false} StoppedStays(c: Codec, a: seq<string>, b: seq<string>)
    requires Process(c, a).1
    ensures Process(c, a + b) == Process(c, a)
  {
    if b == [] {
      assert a + b == a;
    } else {
      assert (a + b)[..|a + b| - 1] == a + b[..|b| - 1];
      StoppedStays(c, a, b[..|b| - 1]);
    }
  }

  /** The read loop: whatever the split into chunks, the callbacks are those of the joined stream. */
  method StreamChat(c: Codec, chunks: seq<string>) returns (calls: seq<Call>)
    ensures calls == Outcome(c, Joined(chunks))
  {
    hide DispatchOf, Frames, Rest;
    var buffer := "";
    calls := [];
    FramesOfNothing();
    for k := 0 to |chunks|
      invariant buffer == Rest(Joined(chunks[..k]))
      invariant Process(c, Frames(Joined(chunks[..k]))) == (calls, false)
    {
      assert chunks[..k + 1][..k] == chunks[..k];
      ghost var before, soFar := Joined(chunks[..k]), Joined(chunks[..k + 1]);
      FramesExtend(before, chunks[k]);
      buffer := buffer + chunks[k];
      var stopped;
      calls, buffer, stopped := Drain(c, calls, buffer, Frames(before));
      if stopped {
        JoinedExtends(chunks, k + 1);
        ghost var later := Joined(chunks[k + 1..]);
        FramesExtend(soFar, later);
        ghost var tail := Frames(Rest(soFar) + later) + LastFrame(Rest(soFar + later));
        assert Frames(soFar + later) + LastFrame(Rest(soFar + later)) == Frames(soFar) + tail;
        StoppedStays(c, Frames(soFar), tail);
        return;
      }
    }
    assert chunks[..|chunks|] == chunks;
    ghost var frames := Frames(Joined(chunks));
    if TrimStart(buffer) != "" {
      var r := Dispatch(c, buffer);
      ProcessSnoc(c, frames, buffer);
      match r {
        case Ignored =>
        case Called(call) => calls := calls + [call];
        case Threw => calls := calls + [Interrupted];
      }
    } else {
      assert frames + [] == frames;
    }
  }

  /** The inner loop, after the frames done: cuts complete frames off the front of the buffer and
      dispatches them, up to a throw. */
  method Drain(c: Codec, calls0: seq<Call>, buffer0: string, ghost done: seq<string>)
    returns (calls: seq<Call>, buffer: string, stopped: bool)
    requires Process(c, done) == (calls0, false)
    ensures (calls, stopped) == Process(c, done + Frames(buffer0))
    ensures !stopped ==> buffer == Rest(buffer0)
  {
    hide DispatchOf, Process, Frames, Rest, Separator;
    calls, buffer, stopped := calls0, buffer0, false;
    ghost var frames := done;
    var sep := Separator(buffer);
    while sep < |buffer|
      invariant sep == Separator(buffer)
      invariant Process(c, frames) == (calls, false)
      invariant frames + Frames(buffer) == done + Frames(buffer0) && Rest(buffer) == Rest(buffer0)
      decreases |buffer|
    {
      FramesStep(buffer);
      ProcessSnoc(c, frames, buffer[..sep]);
      assert frames + [buffer[..sep]] + Frames(buffer[sep + 2..]) == frames + Frames(buffer);
      frames := frames + [buffer[..sep]];
      var r := Dispatch(c, buffer[..sep]);
      match r {
        case Ignored =>
        case Called(call) => calls := calls + [call];
        case Threw =>
          calls := calls + [Interrupted];
          stopped := true;
          StoppedStays(c, frames, Frames(buffer[sep + 2..]));
          return;
      }
      buffer := buffer[sep + 2..];
      sep := Separator(buffer);
    }
    FramesStep(buffer);
    assert frames + [] == frames;
  }

  lemma ProcessSnoc(c: Codec, frames: seq<string>, frame: string)
    requires !Process(c, frames).1
    ensures var calls := Process(c, frames).0;
      Process(c, frames + [frame]) ==
        match DispatchOf(c, frame)
        case Ignored => (calls, false)
        case Called(call) => (calls + [call], false)
        case Threw => (calls + [Interrupted], true)
  {
    hide DispatchOf;
    assert (frames + [frame])[..|frames|] == frames;
  }

  lemma FramesOfNothing()
    ensures Frames("") == [] && Rest("") == ""
  {
  }

  lemma {:induction false} JoinedExtends(chunks: seq<string>, k: nat)
    requires k <= |chunks|
    ensures Joined(chunks) == Joined(chunks[..k]) + Joined(chunks[k..])
    decreases |chunks| - k
  {
    if k == |chunks| {
      assert chunks[..k] == chunks;
    } else {
      JoinedExtends(chunks, k + 1);
      assert chunks[..k + 1][..k] == chunks[..k];
      JoinedCons(chunks[k..]);
      assert chunks[k..][1..] == chunks[k + 1..];
    }
  }

  lemma JoinedStep(chunks: seq<string>)
    ensures chunks == [] ==> Joined(chunks) == ""
    ensures chunks != [] ==> Joined(chunks) == Joined(chunks[..|chunks| - 1]) + chunks[|chunks| - 1]
  {
  }

  lemma {:induction false} JoinedCons(chunks: seq<string>)
    requires chunks != []
    ensures Joined(chunks) == chunks[0] + Joined(chunks[1..])
  {
    hide Joined;
    JoinedStep(chunks);
    JoinedStep(chunks[1..]);
    var front, last := chunks[..|chunks| - 1], chunks[|chunks| - 1];
    if |chunks| == 1 {
      assert front == [] && chunks[1..] == [];
      JoinedStep(front);
    } else {
      JoinedCons(front);
      assert chunks[1..][..|chunks| - 2] == front[1..];
      assert Joined(chunks) == chunks[0] + Joined(front[1..]) + last;
    }
  }
}
