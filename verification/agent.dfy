/** src/archivist/agent.ts: the tool loop, against a model that may reply anything and a visitor who may leave at any time. */
module Agent {
  import opened Optional

  datatype Usage = Usage(input: nat, output: nat, cacheRead: nat, cacheWrite: nat)

  datatype Block = Prose(text: string) | ToolUse(id: string, name: string, input: string)

  datatype ToolResult = ToolResult(id: string, isError: bool)

  datatype Message = Given(text: string) | Assistant(content: seq<Block>) | ToolResults(results: seq<ToolResult>)

  datatype Streamed = ToolStart(id: string, name: string) | Text(text: string) | OtherChunk

  /** One streamed event, and whether the visitor was found gone when it arrived. */
  datatype Chunk = Chunk(what: Streamed, gone: bool)

  /** finalMessage(): the whole reply; a usage field may be missing. */
  datatype Final = Final(usage: Option<Usage>, content: seq<Block>, stopReason: Option<string>)

  /** What one request may do: fail, or stream and then break, yield its final message, or fail to; `partial` is its usage after an abort. */
  datatype Reply = Refused | Reply(chunks: seq<Chunk>, broken: bool, partial: Option<Usage>, final: Option<Final>)

  datatype StopReason = ClientDisconnected | MaxToolIterations | ModelStop(reason: string)

  datatype Failure = Offline | RequestFailed | StreamError

  datatype Event =
    | TextDelta(text: string)
    | ToolUseStart(id: string, name: string)
    | ClientTool(id: string, name: string, input: string)
    | ToolUseEnd(id: string, name: string, ok: bool)
    | UsageReport(usage: Usage)
    | Links
    | Stop(reason: StopReason)
    | Failed(failure: Failure)

  /** Everything the run does not decide: the replies, the tools there are, which executions throw, whether the visitor is gone at the end. */
  datatype Env = Env(
    replies: seq<Reply>, handlers: set<string>, clientTools: set<string>, throws: (nat, nat) -> bool, goneAtEnd: bool)

  datatype Outcome = Outcome(events: seq<Event>, messages: seq<Message>, calls: nat, threw: bool)

  const MAX_TOOL_ITERATIONS := 8
  const NO_ANSWER_FALLBACK := "(no answer)"

  predicate Enough(env: Env)
  {
    |env.replies| > MAX_TOOL_ITERATIONS
  }

  function Plus(a: Usage, more: Option<Usage>): Usage
  {
    if more.None? then a
    else Usage(a.input + more.value.input, a.output + more.value.output,
               a.cacheRead + more.value.cacheRead, a.cacheWrite + more.value.cacheWrite)
  }

  // ---- one reply -------------------------------------------------------------------------

  /** The closing call relays prose only. */
  function Emit(c: Streamed, toolsShown: bool): seq<Event>
  {
    match c
    case ToolStart(id, name) => if toolsShown then [ToolUseStart(id, name)] else []
    case Text(text) => [TextDelta(text)]
    case OtherChunk => []
  }

  /** The chunks read before the visitor is found gone. */
  function Read(chunks: seq<Chunk>): seq<Chunk>
  {
    if chunks == [] || chunks[0].gone then [] else [chunks[0]] + Read(chunks[1..])
  }

  predicate GoneDuring(chunks: seq<Chunk>)
  {
    exists i :: 0 <= i < |chunks| && chunks[i].gone
  }

  function Emitted(chunks: seq<Chunk>, toolsShown: bool): seq<Event>
  {
    if chunks == [] then []
    else Emitted(chunks[..|chunks| - 1], toolsShown) + Emit(chunks[|chunks| - 1].what, toolsShown)
  }

  predicate HasText(chunks: seq<Chunk>)
  {
    chunks != [] && (HasText(chunks[..|chunks| - 1]) || chunks[|chunks| - 1].what.Text?)
  }

  function ToolUses(content: seq<Block>): seq<Block>
  {
    if content == [] then []
    else (if content[0].ToolUse? then [content[0]] else []) + ToolUses(content[1..])
  }

  // ---- running the tools ------------------------------------------------------------------

  predicate Works(env: Env, turn: nat, index: nat, b: Block)
    requires b.ToolUse?
  {
    b.name in env.handlers && !env.throws(turn, index)
  }

  function Acted(env: Env, turn: nat, index: nat, b: Block): seq<Event>
  {
    if b.Prose? then []
    else
      (if b.name in env.clientTools then [ClientTool(b.id, b.name, b.input)] else [])
      + [ToolUseEnd(b.id, b.name, Works(env, turn, index, b))]
  }

  function ActedAll(env: Env, turn: nat, calls: seq<Block>): seq<Event>
  {
    if calls == [] then []
    else ActedAll(env, turn, calls[..|calls| - 1]) + Acted(env, turn, |calls| - 1, calls[|calls| - 1])
  }

  function Results(env: Env, turn: nat, calls: seq<Block>): seq<ToolResult>
  {
    if calls == [] then []
    else
      var last := calls[|calls| - 1];
      Results(env, turn, calls[..|calls| - 1])
      + if last.ToolUse? then [ToolResult(last.id, !Works(env, turn, |calls| - 1, last))] else []
  }

  // ---- the whole run ---------------------------------------------------------------------------

  function Fallback(spoke: bool): seq<Event>
  {
    if spoke then [] else [TextDelta(NO_ANSWER_FALLBACK)]
  }

  /** After the last tool round: one more call, tools off, unless the visitor left; its failures are swallowed. */
  function Closing(env: Env, messages: seq<Message>, used: Usage, spoke: bool): Outcome
    requires Enough(env)
  {
    var last := env.replies[MAX_TOOL_ITERATIONS];
    if env.goneAtEnd then
      Outcome(Fallback(spoke) + [UsageReport(used), Stop(MaxToolIterations)], messages, MAX_TOOL_ITERATIONS, false)
    else if last.Refused? then
      Outcome(Fallback(spoke) + [UsageReport(used), Stop(MaxToolIterations)], messages, MAX_TOOL_ITERATIONS + 1, false)
    else
      Outcome(
        Emitted(Read(last.chunks), false) + Fallback(spoke || HasText(Read(last.chunks)))
        + [UsageReport(Plus(used, ClosingUsage(last))), Stop(MaxToolIterations)],
        messages, MAX_TOOL_ITERATIONS + 1, false)
  }

  function ClosingUsage(r: Reply): Option<Usage>
    requires r.Reply?
  {
    if GoneDuring(r.chunks) then r.partial
    else if r.broken || r.final.None? then None
    else r.final.value.usage
  }

  function Prepend(events: seq<Event>, o: Outcome): Outcome
  {
    o.(events := events + o.events)
  }

  /** The run from its k-th call on. */
  function Loop(env: Env, k: nat, messages: seq<Message>, used: Usage, spoke: bool): Outcome
    requires Enough(env) && k <= MAX_TOOL_ITERATIONS
    decreases MAX_TOOL_ITERATIONS - k
  {
    if k == MAX_TOOL_ITERATIONS then Closing(env, messages, used, spoke)
    else
      match env.replies[k]
      case Refused => Outcome([Failed(RequestFailed)], messages, k + 1, false)
      case Reply(chunks, broken, partial, final) =>
        var heard := Emitted(Read(chunks), true);
        if GoneDuring(chunks) then
          Outcome(heard + [UsageReport(Plus(used, partial)), Stop(ClientDisconnected)], messages, k + 1, false)
        else if broken then Outcome(heard + [Failed(StreamError)], messages, k + 1, false)
        else if final.None? then Outcome(heard, messages, k + 1, true)
        else
          var total, said, calls := Plus(used, final.value.usage), spoke || HasText(chunks), ToolUses(final.value.content);
          if calls == [] then
            var reason := if final.value.stopReason.Some? then final.value.stopReason.value else "end_turn";
            Outcome(heard + Fallback(said) + [UsageReport(total), Stop(ModelStop(reason))], messages, k + 1, false)
          else
            var round := [Assistant(final.value.content), ToolResults(Results(env, k, calls))];
            Prepend(heard + ActedAll(env, k, calls), Loop(env, k + 1, messages + round, total, said))
  }

  const NOTHING := Usage(0, 0, 0, 0)

  function Run(env: Env, online: bool, given: seq<Message>): Outcome
    requires Enough(env)
  {
    if !online then Outcome([Failed(Offline)], given, 0, false) else Loop(env, 0, given, NOTHING, false)
  }

  // ---- the loop as it runs ------------------------------------------------------------------------

  lemma {:induction false} ReadAll(chunks: seq<Chunk>)
    requires !GoneDuring(chunks)
    ensures Read(chunks) == chunks
  {
    if chunks != [] {
      assert !chunks[0].gone;
      forall i | 0 <= i < |chunks| - 1 ensures !chunks[1..][i].gone { assert chunks[1..][i] == chunks[i + 1]; }
      ReadAll(chunks[1..]);
    }
  }

  /** Read so far, and what is left to read. */
  lemma {:induction false} ReadSplit(chunks: seq<Chunk>, i: nat)
    requires i <= |chunks| && forall j :: 0 <= j < i ==> !chunks[j].gone
    ensures Read(chunks) == chunks[..i] + Read(chunks[i..])
  {
    if i > 0 {
      ReadSplit(chunks[1..], i - 1);
      assert chunks[1..][..i - 1] == chunks[1..i] && chunks[1..][i - 1..] == chunks[i..];
      assert chunks[..i] == [chunks[0]] + chunks[1..i];
    } else {
      assert chunks[0..] == chunks;
    }
  }

  /** Relays one stream; `toolsShown` is off for the closing call. */
  method Relay(chunks: seq<Chunk>, toolsShown: bool) returns (events: seq<Event>, gone: bool, spoke: bool)
    ensures gone == GoneDuring(chunks)
    ensures events == Emitted(Read(chunks), toolsShown) && spoke == HasText(Read(chunks))
  {
    events, gone, spoke := [], false, false;
    for i := 0 to |chunks|
      invariant forall j :: 0 <= j < i ==> !chunks[j].gone
      invariant events == Emitted(chunks[..i], toolsShown) && spoke == HasText(chunks[..i])
    {
      var c := chunks[i];
      if c.gone {
        ReadSplit(chunks, i);
        assert Read(chunks[i..]) == [] && chunks[..i] + [] == chunks[..i];
        gone := true;
        return;
      }
      assert chunks[..i + 1][..i] == chunks[..i];
      if c.what.ToolStart? && toolsShown {
        events := events + [ToolUseStart(c.what.id, c.what.name)];
      } else if c.what.Text? {
        spoke := true;
        events := events + [TextDelta(c.what.text)];
      }
    }
    assert chunks[..|chunks|] == chunks;
    ReadAll(chunks);
  }

  method Execute(env: Env, turn: nat, calls: seq<Block>) returns (events: seq<Event>, results: seq<ToolResult>)
    requires forall b :: b in calls ==> b.ToolUse?
    ensures events == ActedAll(env, turn, calls) && results == Results(env, turn, calls)
    ensures |results| == |calls|
    ensures forall i :: 0 <= i < |calls| ==>
      results[i] == ToolResult(calls[i].id, calls[i].name !in env.handlers || env.throws(turn, i))
  {
    events, results := [], [];
    for i := 0 to |calls|
      invariant events == ActedAll(env, turn, calls[..i]) && results == Results(env, turn, calls[..i])
    {
      var call := calls[i];
      assert calls[..i + 1][..i] == calls[..i];
      if call.name in env.clientTools { events := events + [ClientTool(call.id, call.name, call.input)]; }
      var ok := true;
      if call.name !in env.handlers { ok := false; } else if env.throws(turn, i) { ok := false; }
      events := events + [ToolUseEnd(call.id, call.name, ok)];
      results := results + [ToolResult(call.id, !ok)];
    }
    assert calls[..|calls|] == calls;
    ResultOfEach(env, turn, calls);
  }

  lemma {:induction false} ResultOfEach(env: Env, turn: nat, calls: seq<Block>)
    requires forall b :: b in calls ==> b.ToolUse?
    ensures |Results(env, turn, calls)| == |calls|
    ensures forall i :: 0 <= i < |calls| ==>
      Results(env, turn, calls)[i] == ToolResult(calls[i].id, calls[i].name !in env.handlers || env.throws(turn, i))
  {
    if calls != [] { ResultOfEach(env, turn, calls[..|calls| - 1]); }
  }

  method CollectCalls(content: seq<Block>) returns (calls: seq<Block>)
    ensures calls == ToolUses(content) && forall b :: b in calls ==> b.ToolUse?
  {
    calls := [];
    for i := 0 to |content|
      invariant calls + ToolUses(content[i..]) == ToolUses(content)
      invariant forall b :: b in calls ==> b.ToolUse?
    {
      assert content[i..][1..] == content[i + 1..] && content[i..][0] == content[i];
      if content[i].ToolUse? { calls := calls + [content[i]]; }
    }
  }

  method RunTurn(env: Env, online: bool, given: seq<Message>) returns (o: Outcome)
    requires Enough(env)
    ensures o == Run(env, online, given)
  {
    if !online { return Outcome([Failed(Offline)], given, 0, false); }
    var messages, events, used, spoke := given, [], NOTHING, false;
    var iterations: nat := 0;
    while iterations < MAX_TOOL_ITERATIONS
      invariant iterations <= MAX_TOOL_ITERATIONS
      invariant Run(env, online, given) == Prepend(events, Loop(env, iterations, messages, used, spoke))
    {
      var ended, shown, more, total, said := Turn(env, iterations, messages, used, spoke);
      if ended.Some? { return Prepend(events, ended.value); }
      iterations := iterations + 1;
      PrependTwice(events, shown, Loop(env, iterations, messages + more, total, said));
      events, messages, used, spoke := events + shown, messages + more, total, said;
    }
    o := Close(env, messages, events, used, spoke);
  }

  lemma PrependTwice(a: seq<Event>, b: seq<Event>, o: Outcome)
    ensures Prepend(a, Prepend(b, o)) == Prepend(a + b, o)
  {
    assert a + (b + o.events) == a + b + o.events;
  }

  /** One turn of the loop: the outcome it ends the run with, or what it adds to events, messages and usage. */
  method Turn(env: Env, k: nat, messages: seq<Message>, used: Usage, spoke: bool)
    returns (ended: Option<Outcome>, shown: seq<Event>, more: seq<Message>, total: Usage, said: bool)
    requires Enough(env) && k < MAX_TOOL_ITERATIONS
    ensures ended.Some? ==> ended.value == Loop(env, k, messages, used, spoke)
    ensures ended.None? ==> Loop(env, k, messages, used, spoke) == Prepend(shown, Loop(env, k + 1, messages + more, total, said))
  {
    shown, more, total, said := [], [], used, spoke;
    var reply := env.replies[k];
    if reply.Refused? {
      ended := Some(Outcome([Failed(RequestFailed)], messages, k + 1, false));
      return;
    }
    var heard, gone, text := Relay(reply.chunks, true);
    if gone {
      ended := Some(Outcome(heard + [UsageReport(Plus(used, reply.partial)), Stop(ClientDisconnected)], messages, k + 1, false));
      return;
    }
    ReadAll(reply.chunks);
    said := spoke || text;
    if reply.broken {
      ended := Some(Outcome(heard + [Failed(StreamError)], messages, k + 1, false));
      return;
    }
    if reply.final.None? {
      ended := Some(Outcome(heard, messages, k + 1, true));
      return;
    }
    var final := reply.final.value;
    total := Plus(used, final.usage);
    var calls := CollectCalls(final.content);
    if calls == [] {
      var reason := if final.stopReason.Some? then final.stopReason.value else "end_turn";
      ended := Some(Outcome(heard + Fallback(said) + [UsageReport(total), Stop(ModelStop(reason))], messages, k + 1, false));
      return;
    }
    var acted, results := Execute(env, k, calls);
    ended, shown, more := None, heard + acted, [Assistant(final.content), ToolResults(results)];
  }

  /** The closing call: relayed without tools, billed as far as it got. */
  method Conclude(reply: Reply, used: Usage) returns (heard: seq<Event>, said: bool, total: Usage)
    requires reply.Reply?
    ensures heard == Emitted(Read(reply.chunks), false) && said == HasText(Read(reply.chunks))
    ensures total == Plus(used, ClosingUsage(reply))
  {
    var gone;
    heard, gone, said := Relay(reply.chunks, false);
    total := used;
    if gone {
      total := Plus(used, reply.partial);
    } else if !reply.broken && reply.final.Some? {
      total := Plus(used, reply.final.value.usage);
    }
  }

  lemma EndsAlike(sofar: seq<Event>, heard: seq<Event>, said: bool, tail: seq<Event>)
    ensures sofar + (heard + Fallback(said) + tail) == (if said then sofar + heard else sofar + heard + [TextDelta(NO_ANSWER_FALLBACK)]) + tail
    ensures sofar + (Fallback(said) + tail) == (if said then sofar else sofar + [TextDelta(NO_ANSWER_FALLBACK)]) + tail
  {
  }

  method Close(env: Env, messages: seq<Message>, sofar: seq<Event>, usedSoFar: Usage, spokeSoFar: bool) returns (o: Outcome)
    requires Enough(env)
    ensures o == Closing(env, messages, usedSoFar, spokeSoFar).(events := sofar + Closing(env, messages, usedSoFar, spokeSoFar).events)
  {
    var events, used, spoke, calls := sofar, usedSoFar, spokeSoFar, MAX_TOOL_ITERATIONS;
    ghost var streamed: seq<Event> := [];
    if !env.goneAtEnd {
      calls := calls + 1;
      if !env.replies[MAX_TOOL_ITERATIONS].Refused? {
        var heard, said, total := Conclude(env.replies[MAX_TOOL_ITERATIONS], used);
        events, spoke, used := events + heard, spoke || said, total;
        streamed := heard;
      }
    }
    EndsAlike(sofar, streamed, spoke, [UsageReport(used), Stop(MaxToolIterations)]);
    if !spoke { events := events + [TextDelta(NO_ANSWER_FALLBACK)]; }
    o := Outcome(events + [UsageReport(used), Stop(MaxToolIterations)], messages, calls, false);
  }
}
