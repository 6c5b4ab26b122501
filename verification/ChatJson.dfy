/** The chat events as JSON texts, and what the page makes of any JSON text. They meet what
    SseRoundTrip asks of a codec, so its results hold of real streams. */
module ChatJson {
  import opened Common
  import opened Text
  import opened Json
  import opened Sse

  function MembersOf(e: StreamEvent): Members {
    match e
    case TextDelta(d) => Member("delta", JString(d), NoMembers)
    case Thinking(d) => Member("delta", JString(d), NoMembers)
    case ToolUse(n, id) => Member("name", JString(n), Member("id", JString(id), NoMembers))
    case ToolResult(n, ok) => Member("name", JString(n), Member("ok", JBool(ok), NoMembers))
    case Done(m) => Member("model", JString(m), NoMembers)
    case Failure(m) => Member("error", JString(m), NoMembers)
  }

  function ObjectOf(e: StreamEvent): Json {
    JObject(Member("type", JString(TypeName(e)), MembersOf(e)))
  }

  /** JSON.stringify of an event. */
  function Stringify(e: StreamEvent): string { Print(ObjectOf(e)) }

  /** The switch on the type of a parsed value. Arrays, texts, numbers and truth values have no type. */
  function CallFor(v: Json): Parsed {
    match v
    case JNull => NullValue
    case JObject(ms) =>
      (match Get(ms, "type")
       case Some(JString(t)) =>
         if t == "text" then Value(Some(OnText(Get(ms, "delta"))))
         else if t == "thinking" then Value(Some(OnThinking(Get(ms, "delta"))))
         else if t == "tool_use" then Value(Some(OnToolUse(Get(ms, "name"))))
         else if t == "tool_result" then Value(Some(OnToolResult(Get(ms, "name"), Get(ms, "ok"))))
         else if t == "done" then Value(Some(OnDone(Get(ms, "model"))))
         else if t == "error" then Value(Some(OnError(Get(ms, "error"))))
         else Value(None)
       case _ => Value(None))
    case _ => Value(None)
  }

  function Parse(s: string): Parsed {
    match ParseText(s)
    case None => Invalid
    case Some(v) => CallFor(v)
  }

  lemma KeysDiffer()
    ensures "type" != "delta" && "type" != "name" && "type" != "model" && "type" != "error" && "type" != "id" && "type" != "ok"
    ensures "name" != "id" && "name" != "ok"
  {
    assert "type"[0] != "delta"[0] && "type"[0] != "name"[0] && "type"[0] != "model"[0] && "type"[0] != "error"[0];
  }

  lemma TypesDiffer()
    ensures "text" != "thinking" && "text" != "tool_use" && "text" != "tool_result" && "text" != "done" && "text" != "error"
    ensures "thinking" != "tool_use" && "thinking" != "tool_result" && "thinking" != "done" && "thinking" != "error"
    ensures "tool_use" != "tool_result" && "tool_use" != "done" && "tool_use" != "error"
    ensures "tool_result" != "done" && "tool_result" != "error" && "done" != "error"
  {
    assert "text"[0] != "done"[0] && "text"[0] != "error"[0] && "done"[0] != "error"[0];
  }

  lemma GetOne(k: string, v: Json, key: string)
    ensures Get(Member(k, v, NoMembers), key) == if k == key then Some(v) else None
  {
  }

  lemma GetTwo(k: string, v: Json, k': string, v': Json, key: string)
    requires k != k'
    ensures Get(Member(k, v, Member(k', v', NoMembers)), key) == if k == key then Some(v) else if k' == key then Some(v') else None
  {
    GetOne(k', v', key);
  }

  /** The fields of an event, as the page reads them. */
  lemma FieldsRead(e: StreamEvent, key: string)
    requires key != "type"
    ensures Get(ObjectOf(e).members, key) == Get(MembersOf(e), key)
    ensures Get(ObjectOf(e).members, "type") == Some(JString(TypeName(e)))
  {
    KeysDiffer();
    match e
    case ToolUse(n, id) => GetTwo("name", JString(n), "id", JString(id), "type");
    case ToolResult(n, ok) => GetTwo("name", JString(n), "ok", JBool(ok), "type");
    case TextDelta(d) => GetOne("delta", JString(d), "type");
    case Thinking(d) => GetOne("delta", JString(d), "type");
    case Done(m) => GetOne("model", JString(m), "type");
    case Failure(m) => GetOne("error", JString(m), "type");
  }

  /** The switch finds the callback of an event and its fields. */
  lemma SwitchFindsEvent(e: StreamEvent)
    ensures CallFor(ObjectOf(e)) == Value(Some(CallOf(e)))
  {
    hide Get;
    KeysDiffer();
    TypesDiffer();
    match e
    case TextDelta(d) => FieldsRead(e, "delta"); GetOne("delta", JString(d), "delta");
    case Thinking(d) => FieldsRead(e, "delta"); GetOne("delta", JString(d), "delta");
    case ToolUse(n, id) => FieldsRead(e, "name"); GetTwo("name", JString(n), "id", JString(id), "name");
    case ToolResult(n, ok) =>
      FieldsRead(e, "name");
      FieldsRead(e, "ok");
      GetTwo("name", JString(n), "ok", JBool(ok), "name");
      GetTwo("name", JString(n), "ok", JBool(ok), "ok");
    case Done(m) => FieldsRead(e, "model"); GetOne("model", JString(m), "model");
    case Failure(m) => FieldsRead(e, "error"); GetOne("error", JString(m), "error");
  }

  lemma ObjectWellFormed(e: StreamEvent)
    ensures WellFormed(ObjectOf(e))
  {
    var ms := MembersOf(e);
    assert WellFormedMembers(NoMembers);
    assert WellFormedMembers(ms.rest) by { if ms.rest.Member? { assert WellFormed(ms.rest.value) && ms.rest.rest == NoMembers; } }
    assert WellFormedMembers(ms);
  }

  const CHAT_JSON: Codec := Codec(Stringify, Parse)

  /** The texts of the chat events have no line break, read back, and are unreadable when cut. */
  lemma ChatJsonIsJson()
    ensures IsJson(CHAT_JSON)
  {
    hide ObjectOf, ParseText, CallFor, CallOf, WellFormed;
    forall e: StreamEvent
      ensures '\n' !in Stringify(e) && Stringify(e) != "" && Stringify(e)[0] == '{'
      ensures Parse(Stringify(e)) == Value(Some(CallOf(e)))
    {
      ObjectWellFormed(e);
      StringifyForm(e);
      PrintParse(ObjectOf(e));
      SwitchFindsEvent(e);
    }
    forall e: StreamEvent, n: nat | n < |Stringify(e)| ensures Parse(Stringify(e)[..n]) == Invalid {
      ObjectWellFormed(e);
      StringifyForm(e);
      CutIsUnreadable(ObjectOf(e), n);
    }
  }

  lemma StringifyForm(e: StreamEvent)
    ensures ObjectOf(e).JObject?
    ensures '\n' !in Stringify(e) && Stringify(e) != "" && Stringify(e)[0] == '{'
  {
    hide PrintMembers;
    ObjectWellFormed(e);
    PrintHasNoBreak(ObjectOf(e));
  }
}
