/** The chat stream end to end, from the bridge's writes to the page's callbacks. The network is a
    function that says in which chunks a written text arrives. */
module ChatStream {
  import opened Sse
  import opened SseRoundTrip
  import opened ChatJson

  /** For any events, any heartbeats between them and any split of the written text into chunks,
      the page gets exactly the events, in order. */
  method Chat(writes: seq<Write>, network: string -> seq<string>) returns (calls: seq<Call>)
    requires forall s :: Joined(network(s)) == s
    ensures calls == Calls(writes)
  {
    hide IsJson, Outcome;
    ChatJsonIsJson();
    PrintThenParse(CHAT_JSON, writes);
    var response := new Response(CHAT_JSON);
    response.WriteAll(writes);
    calls := StreamChat(CHAT_JSON, network(response.written));
  }

  /** And when the connection ends early, a prefix of them. */
  method BrokenChat(writes: seq<Write>, network: string -> seq<string>) returns (calls: seq<Call>)
    requires forall s :: Joined(network(s)) <= s
    ensures calls <= Calls(writes)
  {
    hide IsJson, Outcome;
    ChatJsonIsJson();
    var response := new Response(CHAT_JSON);
    response.WriteAll(writes);
    var chunks := network(response.written);
    ghost var n := |Joined(chunks)|;
    assert Joined(chunks) == Printed(CHAT_JSON, writes)[..n];
    CutStreamGivesPrefix(CHAT_JSON, writes, n);
    ghost var k :| 0 <= k <= |writes| && CutFits(CHAT_JSON, writes, n, k)
      && Outcome(CHAT_JSON, Printed(CHAT_JSON, writes)[..n]) == Calls(writes[..k]);
    CallsPrefix(writes, k);
    calls := StreamChat(CHAT_JSON, chunks);
  }
}
