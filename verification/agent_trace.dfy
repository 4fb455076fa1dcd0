/** What every trace of the tool loop promises, whatever the model replies and whenever the visitor leaves. */
module AgentTrace {
  import opened Optional
  import opened Agent

  // ---- what a run bills -------------------------------------------------------------

  /** What the i-th call is billed: its final usage, or its partial usage when cut by the visitor leaving. */
  function Billed(env: Env, i: nat): Option<Usage>
    requires Enough(env) && i <= MAX_TOOL_ITERATIONS
  {
    var r := env.replies[i];
    if r.Refused? then None
    else if GoneDuring(r.chunks) then r.partial
    else if r.broken || r.final.None? then None
    else r.final.value.usage
  }

  function Total(env: Env, calls: nat): Usage
    requires Enough(env) && calls <= MAX_TOOL_ITERATIONS + 1
  {
    if calls == 0 then NOTHING else Plus(Total(env, calls - 1), Billed(env, calls - 1))
  }

  // ---- the shape of a trace ---------------------------------------------------------------

  datatype Ending = Threw | Erred(failure: Failure) | Stopped(reason: StopReason)

  /** The last events of a run that made this many calls: nothing, one error, or the bill and one stop. */
  function Tail(env: Env, calls: nat, ending: Ending): seq<Event>
    requires Enough(env) && calls <= MAX_TOOL_ITERATIONS + 1
  {
    match ending
    case Threw => []
    case Erred(f) => [Failed(f)]
    case Stopped(r) => [UsageReport(Total(env, calls)), Stop(r)]
  }

  /** Nothing here ends or bills the run. */
  ghost predicate Quiet(events: seq<Event>)
  {
    forall e :: e in events ==> e.TextDelta? || e.ToolUseStart? || e.ClientTool? || e.ToolUseEnd?
  }

  /** Streamed to its end, yet no final message came: the one failure nothing catches. */
  predicate Silent(r: Reply)
  {
    r.Reply? && !GoneDuring(r.chunks) && !r.broken && r.final.None?
  }

  /** Quiet events, then the tail; and when the run throws. */
  ghost predicate Shaped(env: Env, k: nat, o: Outcome, body: seq<Event>, ending: Ending)
    requires Enough(env)
  {
    && k <= o.calls <= MAX_TOOL_ITERATIONS + 1
    && o.events == body + Tail(env, o.calls, ending) && Quiet(body)
    && (o.threw <==> ending == Threw)
    && (o.threw <==> k < o.calls <= MAX_TOOL_ITERATIONS && Silent(env.replies[o.calls - 1]))
  }

  lemma {:induction false} EmittedQuiet(chunks: seq<Chunk>, toolsShown: bool)
    ensures Quiet(Emitted(chunks, toolsShown))
  {
    if chunks != [] { EmittedQuiet(chunks[..|chunks| - 1], toolsShown); }
  }

  lemma {:induction false} ActedQuiet(env: Env, turn: nat, calls: seq<Block>)
    ensures Quiet(ActedAll(env, turn, calls))
  {
    if calls != [] { ActedQuiet(env, turn, calls[..|calls| - 1]); }
  }

  lemma ClosingShape(env: Env, messages: seq<Message>, spoke: bool) returns (body: seq<Event>)
    requires Enough(env)
    ensures Shaped(env, MAX_TOOL_ITERATIONS, Closing(env, messages, Total(env, MAX_TOOL_ITERATIONS), spoke), body, Stopped(MaxToolIterations))
  {
    var last := env.replies[MAX_TOOL_ITERATIONS];
    if env.goneAtEnd || last.Refused? {
      body := Fallback(spoke);
    } else {
      EmittedQuiet(Read(last.chunks), false);
      body := Emitted(Read(last.chunks), false) + Fallback(spoke || HasText(Read(last.chunks)));
    }
  }

  /** A turn that hands its tools back and goes on adds only quiet events. */
  lemma OnwardShape(env: Env, k: nat, shown: seq<Event>, o: Outcome, body: seq<Event>, ending: Ending)
    requires Enough(env) && k < MAX_TOOL_ITERATIONS && !Silent(env.replies[k])
    requires Shaped(env, k + 1, o, body, ending) && Quiet(shown)
    ensures Shaped(env, k, Prepend(shown, o), shown + body, ending)
  {
    assert shown + (body + Tail(env, o.calls, ending)) == shown + body + Tail(env, o.calls, ending);
  }

  predicate GoesOn(r: Reply)
  {
    r.Reply? && !GoneDuring(r.chunks) && !r.broken && r.final.Some? && ToolUses(r.final.value.content) != []
  }

  lemma LastTurnShape(env: Env, k: nat, messages: seq<Message>, spoke: bool) returns (body: seq<Event>, ending: Ending)
    requires Enough(env) && k < MAX_TOOL_ITERATIONS && !GoesOn(env.replies[k])
    ensures Shaped(env, k, Loop(env, k, messages, Total(env, k), spoke), body, ending)
  {
    var r := env.replies[k];
    if r.Refused? {
      body, ending := [], Erred(RequestFailed);
    } else {
      body := Emitted(Read(r.chunks), true);
      EmittedQuiet(Read(r.chunks), true);
      if GoneDuring(r.chunks) {
        ending := Stopped(ClientDisconnected);
      } else if r.broken {
        ending := Erred(StreamError);
      } else if r.final.None? {
        ending := Threw;
      } else {
        body, ending := PlainEndShape(env, k, messages, spoke);
      }
    }
  }

  /** The model is done: no tools asked for. */
  lemma PlainEndShape(env: Env, k: nat, messages: seq<Message>, spoke: bool) returns (body: seq<Event>, ending: Ending)
    requires Enough(env) && k < MAX_TOOL_ITERATIONS && !GoesOn(env.replies[k])
    requires var r := env.replies[k]; r.Reply? && !GoneDuring(r.chunks) && !r.broken && r.final.Some?
    ensures Shaped(env, k, Loop(env, k, messages, Total(env, k), spoke), body, ending)
  {
    var r := env.replies[k];
    ReadAll(r.chunks);
    EmittedQuiet(r.chunks, true);
    var said := spoke || HasText(r.chunks);
    body := Emitted(r.chunks, true) + Fallback(said);
    ending := Stopped(ModelStop(if r.final.value.stopReason.Some? then r.final.value.stopReason.value else "end_turn"));
  }

  lemma {:induction false} LoopShape(env: Env, k: nat, messages: seq<Message>, spoke: bool) returns (body: seq<Event>, ending: Ending)
    requires Enough(env) && k <= MAX_TOOL_ITERATIONS
    ensures Shaped(env, k, Loop(env, k, messages, Total(env, k), spoke), body, ending)
    decreases MAX_TOOL_ITERATIONS - k
  {
    if k == MAX_TOOL_ITERATIONS {
      body := ClosingShape(env, messages, spoke);
      ending := Stopped(MaxToolIterations);
    } else if GoesOn(env.replies[k]) {
      var r := env.replies[k];
      var said, calls := spoke || HasText(r.chunks), ToolUses(r.final.value.content);
      var more := messages + [Assistant(r.final.value.content), ToolResults(Results(env, k, calls))];
      body, ending := LoopShape(env, k + 1, more, said);
      var heard, acted := Emitted(Read(r.chunks), true), ActedAll(env, k, calls);
      ReadAll(r.chunks);
      EmittedQuiet(r.chunks, true);
      ActedQuiet(env, k, calls);
      OnwardShape(env, k, heard + acted, Loop(env, k + 1, more, Total(env, k + 1), said), body, ending);
      body := heard + acted + body;
    } else {
      body, ending := LastTurnShape(env, k, messages, spoke);
    }
  }

  predicate IsEnd(e: Event)
  {
    e.Stop? || e.Failed?
  }

  /** A run that does not throw has exactly one stop or error, as its last event. */
  lemma EndsOnce(env: Env, given: seq<Message>)
    requires Enough(env)
    ensures var o := Run(env, true, given);
      if o.threw then forall e :: e in o.events ==> !IsEnd(e)
      else o.events != [] && forall i :: 0 <= i < |o.events| ==> (IsEnd(o.events[i]) <==> i == |o.events| - 1)
  {
    var body, ending := LoopShape(env, 0, given, false);
    var o := Run(env, true, given);
    forall i | 0 <= i < |body| ensures !IsEnd(o.events[i]) { assert o.events[i] == body[i] && body[i] in body; }
  }

  /** At most nine model calls; the run throws exactly when its last call, one of the first eight, is silent. */
  lemma CallsBounded(env: Env, given: seq<Message>)
    requires Enough(env)
    ensures var o := Run(env, true, given);
      o.calls <= 9 && (o.threw <==> 0 < o.calls <= MAX_TOOL_ITERATIONS && Silent(env.replies[o.calls - 1]))
  {
    var body, ending := LoopShape(env, 0, given, false);
  }

  /** A run that stops is billed once, just before, the sum over the calls it made; one that fails is not billed. */
  lemma UsageIsSum(env: Env, given: seq<Message>)
    requires Enough(env)
    ensures var o := Run(env, true, given); var n := |o.events|;
      && o.calls <= MAX_TOOL_ITERATIONS + 1
      && (n > 0 && o.events[n - 1].Stop? ==>
            n > 1 && forall i :: 0 <= i < n ==> (o.events[i].UsageReport? <==> i == n - 2) && (i == n - 2 ==> o.events[i].usage == Total(env, o.calls)))
      && (n > 0 && !o.events[n - 1].Stop? ==> forall e :: e in o.events ==> !e.UsageReport?)
  {
    var body, ending := LoopShape(env, 0, given, false);
    var o := Run(env, true, given);
    forall i | 0 <= i < |body| ensures !o.events[i].UsageReport? && !o.events[i].Stop? {
      assert o.events[i] == body[i] && body[i] in body;
    }
  }

  // ---- what the visitor reads ----------------------------------------------------------------

  /** All the text of a trace. */
  function AllText(events: seq<Event>): string
  {
    if events == [] then ""
    else AllText(events[..|events| - 1]) + TextOf(events[|events| - 1])
  }

  function Texts(chunks: seq<Chunk>): string
  {
    if chunks == [] then ""
    else Texts(chunks[..|chunks| - 1]) + if chunks[|chunks| - 1].what.Text? then chunks[|chunks| - 1].what.text else ""
  }

  /** What the model streamed in its first n calls, as far as the visitor stayed to read it. */
  function StreamedText(env: Env, n: nat): string
    requires Enough(env) && n <= MAX_TOOL_ITERATIONS + 1
  {
    if n == 0 then ""
    else StreamedText(env, n - 1) + if env.replies[n - 1].Reply? then Texts(Read(env.replies[n - 1].chunks)) else ""
  }

  /** Some text delta came in the first n calls, be it an empty one. */
  predicate StreamedAny(env: Env, n: nat)
    requires Enough(env) && n <= MAX_TOOL_ITERATIONS + 1
  {
    n > 0 && (StreamedAny(env, n - 1) || (env.replies[n - 1].Reply? && HasText(Read(env.replies[n - 1].chunks))))
  }

  function TextOf(e: Event): string
  {
    if e.TextDelta? then e.text else ""
  }

  lemma {:induction false} TextAppend(a: seq<Event>, b: seq<Event>)
    ensures AllText(a + b) == AllText(a) + AllText(b)
  {
    if b == [] {
      assert a + b == a && AllText(a) + "" == AllText(a);
    } else {
      var front, last := b[..|b| - 1], b[|b| - 1];
      assert (a + b)[..|a + b| - 1] == a + front && (a + b)[|a + b| - 1] == last;
      TextAppend(a, front);
      Associates(AllText(a), AllText(front), TextOf(last));
    }
  }

  lemma {:induction false} NoText(events: seq<Event>)
    requires forall e :: e in events ==> !e.TextDelta?
    ensures AllText(events) == ""
  {
    if events != [] { NoText(events[..|events| - 1]); }
  }

  lemma {:induction false} EmittedText(chunks: seq<Chunk>, toolsShown: bool)
    ensures AllText(Emitted(chunks, toolsShown)) == Texts(chunks)
  {
    if chunks != [] {
      EmittedText(chunks[..|chunks| - 1], toolsShown);
      TextAppend(Emitted(chunks[..|chunks| - 1], toolsShown), Emit(chunks[|chunks| - 1].what, toolsShown));
    }
  }

  lemma {:induction false} ActedSilently(env: Env, turn: nat, calls: seq<Block>)
    ensures forall e :: e in ActedAll(env, turn, calls) ==> !e.TextDelta?
  {
    if calls != [] { ActedSilently(env, turn, calls[..|calls| - 1]); }
  }

  /** The events end in a stop that is not the visitor leaving. */
  predicate Concludes(events: seq<Event>)
  {
    events != [] && events[|events| - 1].Stop? && events[|events| - 1].reason != ClientDisconnected
  }

  /** Streamed text from call k on, and the fallback where a concluding run streamed no delta at all. */
  ghost predicate Reads(env: Env, k: nat, o: Outcome)
    requires Enough(env) && k <= MAX_TOOL_ITERATIONS + 1
  {
    && o.calls <= MAX_TOOL_ITERATIONS + 1
    && StreamedText(env, k) + AllText(o.events)
       == StreamedText(env, o.calls) + if Concludes(o.events) && !StreamedAny(env, o.calls) then NO_ANSWER_FALLBACK else ""
  }

  /** A call's stream, then events without text but for the fallback. */
  lemma StreamThen(env: Env, k: nat, o: Outcome, toolsShown: bool, said: bool, tail: seq<Event>)
    requires Enough(env) && k <= MAX_TOOL_ITERATIONS && env.replies[k].Reply? && o.calls == k + 1
    requires o.events == Emitted(Read(env.replies[k].chunks), toolsShown) + Fallback(said) + tail
    requires forall e :: e in tail ==> !e.TextDelta?
    requires !said <==> Concludes(o.events) && !StreamedAny(env, k + 1)
    ensures Reads(env, k, o)
  {
    var read, rest := Read(env.replies[k].chunks), if said then "" else NO_ANSWER_FALLBACK;
    assert AllText(o.events) == Texts(read) + rest by { StreamText(read, toolsShown, said, tail); }
    assert StreamedText(env, k + 1) == StreamedText(env, k) + Texts(read);
    Associates(StreamedText(env, k), Texts(read), rest);
  }

  lemma StreamText(read: seq<Chunk>, toolsShown: bool, said: bool, tail: seq<Event>)
    requires forall e :: e in tail ==> !e.TextDelta?
    ensures AllText(Emitted(read, toolsShown) + Fallback(said) + tail) == Texts(read) + if said then "" else NO_ANSWER_FALLBACK
  {
    var heard := Emitted(read, toolsShown);
    TextAppend(heard + Fallback(said), tail);
    TextAppend(heard, Fallback(said));
    NoText(tail);
    EmittedText(read, toolsShown);
    FallbackText(said);
  }

  lemma FallbackText(said: bool)
    ensures AllText(Fallback(said)) == if said then "" else NO_ANSWER_FALLBACK
  {
  }

  /** No stream, only the fallback where nothing was said, and the end. */
  lemma UnheardReads(env: Env, k: nat, o: Outcome, said: bool, tail: seq<Event>)
    requires Enough(env) && k <= o.calls <= MAX_TOOL_ITERATIONS + 1
    requires StreamedText(env, o.calls) == StreamedText(env, k) && StreamedAny(env, o.calls) == StreamedAny(env, k)
    requires o.events == Fallback(said) + tail && forall e :: e in tail ==> !e.TextDelta?
    requires !said <==> Concludes(o.events) && !StreamedAny(env, k)
    ensures Reads(env, k, o)
  {
    TextAppend(Fallback(said), tail);
    NoText(tail);
    FallbackText(said);
  }

  lemma RefusedStreamsNothing(env: Env, k: nat)
    requires Enough(env) && k <= MAX_TOOL_ITERATIONS && env.replies[k].Refused?
    ensures StreamedText(env, k + 1) == StreamedText(env, k) && StreamedAny(env, k + 1) == StreamedAny(env, k)
  {
    assert StreamedText(env, k) + "" == StreamedText(env, k);
  }

  lemma ClosingReads(env: Env, messages: seq<Message>, used: Usage, spoke: bool)
    requires Enough(env) && spoke == StreamedAny(env, MAX_TOOL_ITERATIONS)
    ensures Reads(env, MAX_TOOL_ITERATIONS, Closing(env, messages, used, spoke))
  {
    var o, last := Closing(env, messages, used, spoke), env.replies[MAX_TOOL_ITERATIONS];
    if env.goneAtEnd || last.Refused? {
      if !env.goneAtEnd { RefusedStreamsNothing(env, MAX_TOOL_ITERATIONS); }
      UnheardReads(env, MAX_TOOL_ITERATIONS, o, spoke, [UsageReport(used), Stop(MaxToolIterations)]);
    } else {
      var tail := [UsageReport(Plus(used, ClosingUsage(last))), Stop(MaxToolIterations)];
      StreamThen(env, MAX_TOOL_ITERATIONS, o, false, spoke || HasText(Read(last.chunks)), tail);
    }
  }

  lemma LastTurnReads(env: Env, k: nat, messages: seq<Message>, used: Usage, spoke: bool)
    requires Enough(env) && k < MAX_TOOL_ITERATIONS && !GoesOn(env.replies[k]) && spoke == StreamedAny(env, k)
    ensures Reads(env, k, Loop(env, k, messages, used, spoke))
  {
    var o, r := Loop(env, k, messages, used, spoke), env.replies[k];
    if r.Refused? {
      RefusedStreamsNothing(env, k);
      UnheardReads(env, k, o, true, o.events);
    } else if !GoneDuring(r.chunks) && !r.broken && r.final.Some? {
      ReadAll(r.chunks);
      var reason := if r.final.value.stopReason.Some? then r.final.value.stopReason.value else "end_turn";
      var tail := [UsageReport(Plus(used, r.final.value.usage)), Stop(ModelStop(reason))];
      StreamThen(env, k, o, true, spoke || HasText(r.chunks), tail);
    } else {
      CutShortReads(env, k, o,
        if GoneDuring(r.chunks) then [UsageReport(Plus(used, r.partial)), Stop(ClientDisconnected)]
        else if r.broken then [Failed(StreamError)] else []);
    }
  }

  lemma CutShortReads(env: Env, k: nat, o: Outcome, tail: seq<Event>)
    requires Enough(env) && k <= MAX_TOOL_ITERATIONS && env.replies[k].Reply? && o.calls == k + 1
    requires o.events == Emitted(Read(env.replies[k].chunks), true) + tail
    requires (forall e :: e in tail ==> !e.TextDelta?) && !Concludes(tail)
    ensures Reads(env, k, o)
  {
    var heard := Emitted(Read(env.replies[k].chunks), true);
    EmittedQuiet(Read(env.replies[k].chunks), true);
    assert heard + Fallback(true) == heard;
    QuietThen(heard, tail);
    StreamThen(env, k, o, true, true, tail);
  }

  lemma OnwardReads(env: Env, k: nat, calls: seq<Block>, o: Outcome)
    requires Enough(env) && k < MAX_TOOL_ITERATIONS && env.replies[k].Reply? && Reads(env, k + 1, o)
    ensures Reads(env, k, Prepend(Emitted(Read(env.replies[k].chunks), true) + ActedAll(env, k, calls), o))
  {
    var heard, acted := Emitted(Read(env.replies[k].chunks), true), ActedAll(env, k, calls);
    EmittedQuiet(Read(env.replies[k].chunks), true);
    ActedQuiet(env, k, calls);
    QuietThen(heard + acted, o.events);
    ShownText(env, k, heard, calls, o.events);
    Associates(StreamedText(env, k), AllText(heard), AllText(o.events));
    EmittedText(Read(env.replies[k].chunks), true);
  }

  lemma QuietThen(shown: seq<Event>, events: seq<Event>)
    requires Quiet(shown)
    ensures Concludes(shown + events) <==> Concludes(events)
  {
    if events == [] {
      assert shown + events == shown;
      if shown != [] { assert shown[|shown| - 1] in shown; }
    }
  }

  lemma ShownText(env: Env, k: nat, heard: seq<Event>, calls: seq<Block>, events: seq<Event>)
    ensures AllText(heard + ActedAll(env, k, calls) + events) == AllText(heard) + AllText(events)
  {
    var acted := ActedAll(env, k, calls);
    ActedSilently(env, k, calls);
    NoText(acted);
    TextAppend(heard, acted);
    TextAppend(heard + acted, events);
    assert AllText(heard) + "" == AllText(heard);
  }

  lemma GoingOn(env: Env, k: nat, messages: seq<Message>, used: Usage, spoke: bool, o: Outcome)
    requires Enough(env) && k < MAX_TOOL_ITERATIONS && GoesOn(env.replies[k])
    requires var r := env.replies[k]; var calls := ToolUses(r.final.value.content);
      o == Loop(env, k + 1, messages + [Assistant(r.final.value.content), ToolResults(Results(env, k, calls))],
                Plus(used, r.final.value.usage), spoke || HasText(r.chunks))
    ensures var r := env.replies[k];
      Loop(env, k, messages, used, spoke)
      == Prepend(Emitted(Read(r.chunks), true) + ActedAll(env, k, ToolUses(r.final.value.content)), o)
  {
  }

  /** The visitor reads exactly what the model streamed, or the fallback. */
  lemma {:induction false} LoopReads(env: Env, k: nat, messages: seq<Message>, used: Usage, spoke: bool)
    requires Enough(env) && k <= MAX_TOOL_ITERATIONS && spoke == StreamedAny(env, k)
    ensures Reads(env, k, Loop(env, k, messages, used, spoke))
    decreases MAX_TOOL_ITERATIONS - k
  {
    if k == MAX_TOOL_ITERATIONS {
      ClosingReads(env, messages, used, spoke);
    } else if GoesOn(env.replies[k]) {
      var r := env.replies[k];
      var calls, total, said := ToolUses(r.final.value.content), Plus(used, r.final.value.usage), spoke || HasText(r.chunks);
      var more := messages + [Assistant(r.final.value.content), ToolResults(Results(env, k, calls))];
      ReadAll(r.chunks);
      assert said == StreamedAny(env, k + 1);
      LoopReads(env, k + 1, more, total, said);
      var o := Loop(env, k + 1, more, total, said);
      GoingOn(env, k, messages, used, spoke, o);
      OnwardReads(env, k, calls, o);
    } else {
      LastTurnReads(env, k, messages, used, spoke);
    }
  }

  /**
   * A run that stops for any reason but the visitor leaving says exactly what the model streamed, or the fallback when no delta
   * came: so it ends in silence exactly when deltas came and all of them were empty.
   */
  lemma NeverEndsInSilence(env: Env, given: seq<Message>)
    requires Enough(env)
    ensures var o := Run(env, true, given);
      && o.calls <= MAX_TOOL_ITERATIONS + 1
      && (Concludes(o.events) ==>
            && AllText(o.events) == (if StreamedAny(env, o.calls) then StreamedText(env, o.calls) else NO_ANSWER_FALLBACK)
            && (AllText(o.events) != "" <==> StreamedText(env, o.calls) != "" || !StreamedAny(env, o.calls)))
  {
    var o := Run(env, true, given);
    LoopReads(env, 0, given, NOTHING, false);
    NoneStreamedNoText(env, o.calls);
    assert "" + AllText(o.events) == AllText(o.events);
    assert StreamedText(env, o.calls) + "" == StreamedText(env, o.calls) && "" + NO_ANSWER_FALLBACK == NO_ANSWER_FALLBACK;
  }

  lemma {:induction false} NoTexts(chunks: seq<Chunk>)
    ensures !HasText(chunks) ==> Texts(chunks) == ""
  {
    if chunks != [] { NoTexts(chunks[..|chunks| - 1]); }
  }

  lemma {:induction false} NoneStreamedNoText(env: Env, n: nat)
    requires Enough(env) && n <= MAX_TOOL_ITERATIONS + 1
    ensures !StreamedAny(env, n) ==> StreamedText(env, n) == ""
  {
    if n > 0 {
      NoneStreamedNoText(env, n - 1);
      if env.replies[n - 1].Reply? { NoTexts(Read(env.replies[n - 1].chunks)); }
    }
  }

  /** One empty delta and a plain end: no fallback, and not a word. */
  lemma AnEmptyDeltaIsSilence(env: Env, given: seq<Message>)
    requires Enough(env)
    requires env.replies[0] == Reply([Chunk(Text(""), false)], false, None, Some(Final(None, [], Some("end_turn"))))
    ensures var o := Run(env, true, given);
      o.events == [TextDelta(""), UsageReport(NOTHING), Stop(ModelStop("end_turn"))] && Concludes(o.events) && AllText(o.events) == ""
  {
    var said, tail := [TextDelta("")], [UsageReport(NOTHING), Stop(ModelStop("end_turn"))];
    OneEmptyDelta(env.replies[0].chunks);
    assert Run(env, true, given).events == said + Fallback(true) + tail == said + tail;
    TextAppend(said, tail);
    NoText(tail);
  }

  lemma OneEmptyDelta(chunks: seq<Chunk>)
    requires chunks == [Chunk(Text(""), false)]
    ensures !GoneDuring(chunks) && HasText(chunks) && Emitted(Read(chunks), true) == [TextDelta("")]
  {
    ReadAll(chunks);
    assert chunks[..0] == [];
  }

  // ---- every tool use is answered ------------------------------------------------------------

  function Ids(calls: seq<Block>): seq<string>
  {
    if calls == [] then []
    else Ids(calls[..|calls| - 1]) + if calls[|calls| - 1].ToolUse? then [calls[|calls| - 1].id] else []
  }

  function ResultIds(results: seq<ToolResult>): seq<string>
  {
    if results == [] then [] else ResultIds(results[..|results| - 1]) + [results[|results| - 1].id]
  }

  /** Each assistant message asks for tools, and the next message answers them, one result each, in order. */
  predicate Rounds(messages: seq<Message>)
    decreases messages
  {
    messages == []
    || (&& |messages| >= 2 && messages[0].Assistant? && messages[1].ToolResults?
        && ToolUses(messages[0].content) != []
        && ResultIds(messages[1].results) == Ids(ToolUses(messages[0].content))
        && Rounds(messages[2..]))
  }

  /** All the answers, in order. */
  function Answers(messages: seq<Message>): seq<ToolResult>
  {
    if messages == [] then []
    else (if messages[0].ToolResults? then messages[0].results else []) + Answers(messages[1..])
  }

  /** What the visitor is told of each tool's end, as the result it stands for. */
  function Told(events: seq<Event>): seq<ToolResult>
  {
    if events == [] then []
    else ToldOf(events[0]) + Told(events[1..])
  }

  function ToldOf(e: Event): seq<ToolResult>
  {
    if e.ToolUseEnd? then [ToolResult(e.id, !e.ok)] else []
  }

  lemma {:induction false} ToldAppend(a: seq<Event>, b: seq<Event>)
    ensures Told(a + b) == Told(a) + Told(b)
  {
    if a == [] {
      assert a + b == b;
    } else {
      calc {
        Told(a + b);
      == { assert (a + b)[0] == a[0] && (a + b)[1..] == a[1..] + b; }
        ToldOf(a[0]) + Told(a[1..] + b);
      == { ToldAppend(a[1..], b); }
        ToldOf(a[0]) + (Told(a[1..]) + Told(b));
      == { Associates(ToldOf(a[0]), Told(a[1..]), Told(b)); }
        Told(a) + Told(b);
      }
    }
  }

  lemma Associates<T>(a: seq<T>, b: seq<T>, c: seq<T>)
    ensures a + (b + c) == a + b + c
  {
  }

  lemma {:induction false} ResultsAnswer(env: Env, turn: nat, calls: seq<Block>)
    ensures ResultIds(Results(env, turn, calls)) == Ids(calls)
    ensures Told(ActedAll(env, turn, calls)) == Results(env, turn, calls)
  {
    if calls != [] {
      var front, last := calls[..|calls| - 1], calls[|calls| - 1];
      ResultsAnswer(env, turn, front);
      ToldAppend(ActedAll(env, turn, front), Acted(env, turn, |calls| - 1, last));
      ActedTells(env, turn, |calls| - 1, last);
      if last.ToolUse? {
        var r := ToolResult(last.id, !Works(env, turn, |calls| - 1, last));
        assert (Results(env, turn, front) + [r])[..|Results(env, turn, front)|] == Results(env, turn, front);
      } else {
        assert Results(env, turn, calls) == Results(env, turn, front) + [] == Results(env, turn, front);
      }
    }
  }

  lemma ActedTells(env: Env, turn: nat, index: nat, b: Block)
    ensures Told(Acted(env, turn, index, b)) == if b.ToolUse? then [ToolResult(b.id, !Works(env, turn, index, b))] else []
  {
    if b.ToolUse? {
      var end := [ToolUseEnd(b.id, b.name, Works(env, turn, index, b))];
      assert end[1..] == [];
      if b.name in env.clientTools {
        var shown := [ClientTool(b.id, b.name, b.input)];
        ToldAppend(shown, end);
        NoEndsTold(shown);
      } else {
        assert Acted(env, turn, index, b) == end;
      }
    }
  }

  lemma {:induction false} NoEndsTold(events: seq<Event>)
    requires forall e :: e in events ==> !e.ToolUseEnd?
    ensures Told(events) == []
  {
    if events != [] { NoEndsTold(events[1..]); }
  }

  lemma {:induction false} EmittedTellsNone(chunks: seq<Chunk>, toolsShown: bool)
    ensures Told(Emitted(chunks, toolsShown)) == []
  {
    if chunks != [] {
      EmittedTellsNone(chunks[..|chunks| - 1], toolsShown);
      ToldAppend(Emitted(chunks[..|chunks| - 1], toolsShown), Emit(chunks[|chunks| - 1].what, toolsShown));
      NoEndsTold(Emit(chunks[|chunks| - 1].what, toolsShown));
    }
  }

  /** What a run added to the conversation. */
  ghost predicate Answered(before: seq<Message>, o: Outcome)
  {
    && before <= o.messages
    && Rounds(o.messages[|before|..])
    && Told(o.events) == Answers(o.messages[|before|..])
  }

  lemma NoRound(before: seq<Message>, o: Outcome)
    requires o.messages == before && Told(o.events) == []
    ensures Answered(before, o)
  {
    assert o.messages[|before|..] == [];
  }

  lemma TellsNone(chunks: seq<Chunk>, toolsShown: bool, tail: seq<Event>)
    requires forall e :: e in tail ==> !e.ToolUseEnd?
    ensures Told(Emitted(chunks, toolsShown) + tail) == []
  {
    EmittedTellsNone(chunks, toolsShown);
    NoEndsTold(tail);
    ToldAppend(Emitted(chunks, toolsShown), tail);
  }

  lemma ClosingAnswers(env: Env, messages: seq<Message>, used: Usage, spoke: bool)
    requires Enough(env)
    ensures Answered(messages, Closing(env, messages, used, spoke))
  {
    var o, last := Closing(env, messages, used, spoke), env.replies[MAX_TOOL_ITERATIONS];
    if env.goneAtEnd || last.Refused? {
      NoEndsTold(o.events);
    } else {
      var heard := Emitted(Read(last.chunks), false);
      var tail := Fallback(spoke || HasText(Read(last.chunks))) + [UsageReport(Plus(used, ClosingUsage(last))), Stop(MaxToolIterations)];
      assert o.events == heard + tail;
      TellsNone(Read(last.chunks), false, tail);
    }
    NoRound(messages, o);
  }

  lemma LastTurnAnswers(env: Env, k: nat, messages: seq<Message>, used: Usage, spoke: bool)
    requires Enough(env) && k < MAX_TOOL_ITERATIONS && !GoesOn(env.replies[k])
    ensures Answered(messages, Loop(env, k, messages, used, spoke))
  {
    var o, r := Loop(env, k, messages, used, spoke), env.replies[k];
    if r.Refused? {
      NoEndsTold(o.events);
    } else {
      var heard := Emitted(Read(r.chunks), true);
      var tail :=
        if GoneDuring(r.chunks) then [UsageReport(Plus(used, r.partial)), Stop(ClientDisconnected)]
        else if r.broken then [Failed(StreamError)]
        else if r.final.None? then []
        else Fallback(spoke || HasText(r.chunks)) + o.events[|o.events| - 2..];
      assert o.events == heard + tail;
      TellsNone(Read(r.chunks), true, tail);
    }
    NoRound(messages, o);
  }

  lemma {:induction false} LoopAnswers(env: Env, k: nat, messages: seq<Message>, used: Usage, spoke: bool)
    requires Enough(env) && k <= MAX_TOOL_ITERATIONS
    ensures Answered(messages, Loop(env, k, messages, used, spoke))
    decreases MAX_TOOL_ITERATIONS - k
  {
    if k < MAX_TOOL_ITERATIONS && GoesOn(env.replies[k]) {
      var r := env.replies[k];
      var calls := ToolUses(r.final.value.content);
      var round := [Assistant(r.final.value.content), ToolResults(Results(env, k, calls))];
      var total, said := Plus(used, r.final.value.usage), spoke || HasText(r.chunks);
      LoopAnswers(env, k + 1, messages + round, total, said);
      RoundAnswers(env, k, messages, r.chunks, calls, round, Loop(env, k + 1, messages + round, total, said));
    } else if k == MAX_TOOL_ITERATIONS {
      ClosingAnswers(env, messages, used, spoke);
    } else {
      LastTurnAnswers(env, k, messages, used, spoke);
    }
  }

  lemma RoundAnswers(env: Env, k: nat, messages: seq<Message>, chunks: seq<Chunk>, calls: seq<Block>, round: seq<Message>, o: Outcome)
    requires Answered(messages + round, o) && calls != []
    requires |round| == 2 && round[0].Assistant? && ToolUses(round[0].content) == calls && round[1] == ToolResults(Results(env, k, calls))
    ensures Answered(messages, Prepend(Emitted(Read(chunks), true) + ActedAll(env, k, calls), o))
  {
    var added, later := o.messages[|messages|..], o.messages[|messages + round|..];
    assert messages + round <= o.messages;
    assert added == round + later;
    ResultsAnswer(env, k, calls);
    OneMoreRound(round, later);
    RoundTold(env, k, chunks, calls, o.events);
  }

  lemma OneMoreRound(round: seq<Message>, later: seq<Message>)
    requires |round| == 2 && round[0].Assistant? && round[1].ToolResults? && ToolUses(round[0].content) != []
    requires ResultIds(round[1].results) == Ids(ToolUses(round[0].content)) && Rounds(later)
    ensures Rounds(round + later) && Answers(round + later) == round[1].results + Answers(later)
  {
    var all := round + later;
    assert all[2..] == later && all[1..][1..] == later && all[1..][0] == round[1];
  }

  lemma RoundTold(env: Env, k: nat, chunks: seq<Chunk>, calls: seq<Block>, events: seq<Event>)
    ensures Told(Emitted(Read(chunks), true) + ActedAll(env, k, calls) + events) == Results(env, k, calls) + Told(events)
  {
    ResultsAnswer(env, k, calls);
    EmittedTellsNone(Read(chunks), true);
    OneTold(Emitted(Read(chunks), true), ActedAll(env, k, calls), events);
  }

  lemma OneTold(heard: seq<Event>, acted: seq<Event>, events: seq<Event>)
    requires Told(heard) == []
    ensures Told(heard + acted + events) == Told(acted) + Told(events)
  {
    ThreeTold(heard, acted, events);
    assert [] + Told(acted) == Told(acted);
  }

  lemma ThreeTold(a: seq<Event>, b: seq<Event>, c: seq<Event>)
    ensures Told(a + b + c) == Told(a) + Told(b) + Told(c)
  {
    ToldAppend(a + b, c);
    ToldAppend(a, b);
  }

  /** Each round asks for tools and answers them in the next message, and the visitor is told what the model is. */
  lemma AnswersAreTold(env: Env, online: bool, given: seq<Message>)
    requires Enough(env)
    ensures Answered(given, Run(env, online, given))
  {
    if online {
      LoopAnswers(env, 0, given, NOTHING, false);
    } else {
      NoEndsTold([Failed(Offline)]);
      NoRound(given, Run(env, online, given));
    }
  }

  // ---- runArchivist -------------------------------------------------------------------------------

  predicate LinksDue(events: seq<Event>, finds: string -> bool)
  {
    var n := |events|;
    n > 0 && events[n - 1].Stop? && AllText(events) != "" && finds(AllText(events))
  }

  /** Each event as it comes; before a stop, the links of the text so far when there are any. */
  function WithLinks(events: seq<Event>, finds: string -> bool): seq<Event>
  {
    if events == [] then []
    else
      WithLinks(events[..|events| - 1], finds) + (if LinksDue(events, finds) then [Links] else []) + [events[|events| - 1]]
  }

  lemma {:induction false} NothingAdded(events: seq<Event>, finds: string -> bool)
    requires forall e :: e in events ==> !e.Stop?
    ensures WithLinks(events, finds) == events
  {
    if events != [] {
      var front, last := events[..|events| - 1], events[|events| - 1];
      NothingAdded(front, finds);
      assert !last.Stop? && front + [] + [last] == events;
    }
  }

  /** The events with the links before the last, when it is a stop and the text has some. */
  function LinksLast(events: seq<Event>, finds: string -> bool): seq<Event>
  {
    var n := |events|;
    if LinksDue(events, finds) then events[..n - 1] + [Links] + [events[n - 1]] else events
  }

  lemma OnlyLastStops(events: seq<Event>, finds: string -> bool)
    requires events != [] && forall e :: e in events[..|events| - 1] ==> !e.Stop?
    ensures WithLinks(events, finds) == LinksLast(events, finds)
  {
    NothingAdded(events[..|events| - 1], finds);
    LinksTacked(events, finds, WithLinks(events[..|events| - 1], finds));
  }

  lemma LinksTacked(events: seq<Event>, finds: string -> bool, front: seq<Event>)
    requires events != [] && front == events[..|events| - 1]
    ensures front + (if LinksDue(events, finds) then [Links] else []) + [events[|events| - 1]] == LinksLast(events, finds)
  {
    Tacked(front, events[|events| - 1]);
    assert front + [events[|events| - 1]] == events;
  }

  lemma Tacked(front: seq<Event>, last: Event)
    ensures front + [] + [last] == front + [last]
  {
  }

  lemma NoneStops(events: seq<Event>, finds: string -> bool)
    requires forall e :: e in events ==> !e.Stop?
    ensures WithLinks(events, finds) == LinksLast(events, finds)
  {
    NothingAdded(events, finds);
    if events != [] { assert events[|events| - 1] in events; }
  }

  /** Links are added once at most, right before the stop, and only for text that has some. */
  lemma LinksBeforeStop(env: Env, given: seq<Message>, finds: string -> bool)
    requires Enough(env)
    ensures WithLinks(Run(env, true, given).events, finds) == LinksLast(Run(env, true, given).events, finds)
  {
    EndsOnce(env, given);
    EndsWithLinks(Run(env, true, given), finds);
  }

  lemma EndsWithLinks(o: Outcome, finds: string -> bool)
    requires if o.threw then forall e :: e in o.events ==> !IsEnd(e)
      else o.events != [] && forall i :: 0 <= i < |o.events| ==> (IsEnd(o.events[i]) <==> i == |o.events| - 1)
    ensures WithLinks(o.events, finds) == LinksLast(o.events, finds)
  {
    if o.threw {
      forall e | e in o.events ensures !e.Stop? { assert !IsEnd(e); }
      NoneStops(o.events, finds);
    } else {
      var front := o.events[..|o.events| - 1];
      forall e | e in front ensures !e.Stop? {
        var i :| 0 <= i < |front| && front[i] == e;
        assert !IsEnd(o.events[i]);
      }
      OnlyLastStops(o.events, finds);
    }
  }

  /** runArchivist: `finds` is resolveLinks finding some. */
  method RunArchivist(env: Env, online: bool, given: seq<Message>, finds: string -> bool) returns (events: seq<Event>)
    requires Enough(env)
    ensures events == WithLinks(Run(env, online, given).events, finds)
  {
    var o := RunTurn(env, online, given);
    events := [];
    var text := "";
    for i := 0 to |o.events|
      invariant text == AllText(o.events[..i]) && events == WithLinks(o.events[..i], finds)
    {
      var e := o.events[i];
      assert o.events[..i + 1][..i] == o.events[..i];
      if e.TextDelta? { text := text + e.text; }
      if e.Stop? && text != "" {
        if finds(text) { events := events + [Links]; }
      }
      events := events + [e];
    }
    assert o.events[..|o.events|] == o.events;
  }
}
