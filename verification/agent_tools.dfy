/** A run of the tool loop in closed form: so many rounds of tools, then one ending; what each tool use came to, told and answered. */
module AgentTools {
  import opened Optional
  import opened Agent
  import opened AgentTrace

  // ---- one round of tools -----------------------------------------------------------------------

  /** The tool uses before the p-th block of a message. */
  ghost function UsesBefore(content: seq<Block>, p: nat): set<nat>
    requires p <= |content|
  {
    set q: nat | q < p && content[q].ToolUse?
  }

  /** One result for each tool use of the first p blocks, in order: of its id, an error exactly when there is no such tool or running it
      threw. */
  ghost predicate AnsweredUpTo(env: Env, call: nat, content: seq<Block>, p: nat, results: seq<ToolResult>)
    requires p <= |content|
  {
    && |results| == |UsesBefore(content, p)|
    && forall q :: 0 <= q < p && content[q].ToolUse? ==>
         var use := |UsesBefore(content, q)|;
         use < |results| && results[use] == ToolResult(content[q].id, content[q].name !in env.handlers || env.throws(call, use))
  }

  ghost predicate AnswersOf(env: Env, call: nat, content: seq<Block>, results: seq<ToolResult>)
  {
    AnsweredUpTo(env, call, content, |content|, results)
  }

  /** What the visitor sees of the tools of a message: what the browser has to do, and how each ended. */
  ghost function Shown(env: Env, call: nat, content: seq<Block>, p: nat): seq<Event>
    requires p <= |content|
  {
    if p == 0 then []
    else
      var b := content[p - 1];
      Shown(env, call, content, p - 1)
      + if b.Prose? then []
        else (if b.name in env.clientTools then [ClientTool(b.id, b.name, b.input)] else [])
             + [ToolUseEnd(b.id, b.name, b.name in env.handlers && !env.throws(call, |UsesBefore(content, p - 1)|))]
  }

  lemma OneMoreUse(content: seq<Block>, p: nat)
    requires p < |content|
    ensures |UsesBefore(content, p + 1)| == |UsesBefore(content, p)| + if content[p].ToolUse? then 1 else 0
  {
    assert UsesBefore(content, p + 1) == UsesBefore(content, p) + if content[p].ToolUse? then {p} else {};
  }

  lemma {:induction false} UsesAppend(a: seq<Block>, b: Block)
    ensures ToolUses(a + [b]) == ToolUses(a) + if b.ToolUse? then [b] else []
  {
    if a == [] {
      assert [b][1..] == [];
    } else {
      UsesAppend(a[1..], b);
      assert (a + [b])[0] == a[0] && (a + [b])[1..] == a[1..] + [b];
      Associates(if a[0].ToolUse? then [a[0]] else [], ToolUses(a[1..]), if b.ToolUse? then [b] else []);
    }
  }

  lemma OneMoreCall(env: Env, call: nat, calls: seq<Block>, b: Block)
    requires b.ToolUse?
    ensures var works := b.name in env.handlers && !env.throws(call, |calls|);
      && ActedAll(env, call, calls + [b])
         == ActedAll(env, call, calls)
            + ((if b.name in env.clientTools then [ClientTool(b.id, b.name, b.input)] else []) + [ToolUseEnd(b.id, b.name, works)])
      && Results(env, call, calls + [b]) == Results(env, call, calls) + [ToolResult(b.id, !works)]
  {
    assert (calls + [b])[..|calls|] == calls;
  }

  lemma OneMoreAnswer(env: Env, call: nat, content: seq<Block>, p: nat, results: seq<ToolResult>, r: ToolResult)
    requires p < |content| && AnsweredUpTo(env, call, content, p, results) && content[p].ToolUse?
    requires r == ToolResult(content[p].id, content[p].name !in env.handlers || env.throws(call, |results|))
    ensures AnsweredUpTo(env, call, content, p + 1, results + [r])
  {
    OneMoreUse(content, p);
  }

  /** These calls, told and answered, are the uses of the first p blocks. */
  ghost predicate Covers(env: Env, call: nat, content: seq<Block>, p: nat, calls: seq<Block>)
    requires p <= |content|
  {
    && |calls| == |UsesBefore(content, p)|
    && AnsweredUpTo(env, call, content, p, Results(env, call, calls))
    && ActedAll(env, call, calls) == Shown(env, call, content, p)
  }

  lemma UseCovered(env: Env, call: nat, content: seq<Block>, p: nat, calls: seq<Block>)
    requires p < |content| && content[p].ToolUse? && Covers(env, call, content, p, calls)
    ensures Covers(env, call, content, p + 1, calls + [content[p]])
  {
    var b := content[p];
    OneMoreUse(content, p);
    OneMoreCall(env, call, calls, b);
    OneMoreAnswer(env, call, content, p, Results(env, call, calls), ToolResult(b.id, !(b.name in env.handlers && !env.throws(call, |calls|))));
  }

  lemma ProseCovered(env: Env, call: nat, content: seq<Block>, p: nat, calls: seq<Block>)
    requires p < |content| && content[p].Prose? && Covers(env, call, content, p, calls)
    ensures Covers(env, call, content, p + 1, calls)
  {
    OneMoreUse(content, p);
    assert Shown(env, call, content, p + 1) == Shown(env, call, content, p) + [];
  }

  lemma {:induction false} AllBlocks(env: Env, call: nat, content: seq<Block>, p: nat)
    requires p <= |content|
    ensures Covers(env, call, content, p, ToolUses(content[..p]))
  {
    if p == 0 {
      assert UsesBefore(content, 0) == {};
    } else {
      AllBlocks(env, call, content, p - 1);
      var calls := ToolUses(content[..p - 1]);
      assert content[..p] == content[..p - 1] + [content[p - 1]];
      UsesAppend(content[..p - 1], content[p - 1]);
      if content[p - 1].ToolUse? {
        UseCovered(env, call, content, p - 1, calls);
      } else {
        ProseCovered(env, call, content, p - 1, calls);
        assert calls + [] == calls;
      }
    }
  }

  /** Running the tools of a message tells and answers each of its uses. */
  lemma RoundExactly(env: Env, call: nat, content: seq<Block>)
    ensures AnswersOf(env, call, content, Results(env, call, ToolUses(content)))
    ensures ActedAll(env, call, ToolUses(content)) == Shown(env, call, content, |content|)
    ensures ToolUses(content) == [] <==> forall p :: 0 <= p < |content| ==> content[p].Prose?
  {
    AllBlocks(env, call, content, |content|);
    assert content[..|content|] == content;
    if p :| 0 <= p < |content| && content[p].ToolUse? { assert |UsesBefore(content, p)| < |ToolUses(content)|; }
    if forall p :: 0 <= p < |content| ==> content[p].Prose? { assert UsesBefore(content, |content|) == {}; }
  }

  // ---- the run in closed form ----------------------------------------------------------------------

  /** What a stream shows until the visitor is found gone: text, and in all calls but the closing one the tools it begins to ask for. */
  function Stream(chunks: seq<Chunk>, toolsShown: bool): seq<Event>
  {
    if chunks == [] || chunks[0].gone then []
    else
      (match chunks[0].what
       case Text(text) => [TextDelta(text)]
       case ToolStart(id, name) => if toolsShown then [ToolUseStart(id, name)] else []
       case OtherChunk => [])
      + Stream(chunks[1..], toolsShown)
  }

  lemma {:induction false} EmittedCons(c: Chunk, rest: seq<Chunk>, toolsShown: bool)
    ensures Emitted([c] + rest, toolsShown) == Emit(c.what, toolsShown) + Emitted(rest, toolsShown)
  {
    var all := [c] + rest;
    if rest == [] {
      assert all[..0] == [];
    } else {
      EmittedCons(c, rest[..|rest| - 1], toolsShown);
      assert all[..|all| - 1] == [c] + rest[..|rest| - 1] && all[|all| - 1] == rest[|rest| - 1];
      Associates(Emit(c.what, toolsShown), Emitted(rest[..|rest| - 1], toolsShown), Emit(rest[|rest| - 1].what, toolsShown));
    }
  }

  lemma {:induction false} StreamIsEmitted(chunks: seq<Chunk>, toolsShown: bool)
    ensures Emitted(Read(chunks), toolsShown) == Stream(chunks, toolsShown)
  {
    if chunks != [] && !chunks[0].gone {
      StreamIsEmitted(chunks[1..], toolsShown);
      EmittedCons(chunks[0], Read(chunks[1..]), toolsShown);
    }
  }

  /** The reply came whole, and asks for tools. */
  predicate AsksForTools(r: Reply)
  {
    && r.Reply? && (forall i :: 0 <= i < |r.chunks| ==> !r.chunks[i].gone) && !r.broken && r.final.Some?
    && exists p :: 0 <= p < |r.final.value.content| && r.final.value.content[p].ToolUse?
  }

  lemma AsksExactly(r: Reply)
    ensures AsksForTools(r) <==> GoesOn(r)
  {
    if r.Reply? && r.final.Some? { RoundExactly(Env([], {}, {}, (a, b) => false, false), 0, r.final.value.content); }
  }

  /** What a reply that came whole says. */
  function ContentOf(r: Reply): seq<Block>
  {
    if r.Reply? && r.final.Some? then r.final.value.content else []
  }

  function ChunksOf(r: Reply): seq<Chunk>
  {
    if r.Reply? then r.chunks else []
  }

  /** What one round shows. */
  ghost function OneRound(env: Env, k: nat): seq<Event>
    requires k < |env.replies|
  {
    var content := ContentOf(env.replies[k]);
    Stream(ChunksOf(env.replies[k]), true) + Shown(env, k, content, |content|)
  }

  /** The rounds from the k-th to before the n-th: each streams, then runs its tools. */
  ghost function RoundEvents(env: Env, k: nat, n: nat): seq<Event>
    requires k <= n <= |env.replies|
    decreases n - k
  {
    if k == n then [] else OneRound(env, k) + RoundEvents(env, k + 1, n)
  }

  /** How many calls are made when n rounds come first. */
  function CallsAfter(env: Env, n: nat): nat
  {
    if n < 8 || !env.goneAtEnd then n + 1 else n
  }

  /** The fallback, unless some text came in the first so many calls. */
  function FallbackAfter(env: Env, calls: nat): seq<Event>
    requires Enough(env) && calls <= 9
  {
    if StreamedAny(env, calls) then [] else [TextDelta(NO_ANSWER_FALLBACK)]
  }

  /** What comes after the stream of the last call, when n rounds came first. */
  function Ending(env: Env, n: nat): seq<Event>
    requires Enough(env) && n <= 8
  {
    var calls := CallsAfter(env, n);
    if n == 8 then FallbackAfter(env, calls) + [UsageReport(Total(env, calls)), Stop(MaxToolIterations)]
    else
      match env.replies[n]
      case Refused => [Failed(RequestFailed)]
      case Reply(chunks, broken, _, final) =>
        if exists i :: 0 <= i < |chunks| && chunks[i].gone then [UsageReport(Total(env, calls)), Stop(ClientDisconnected)]
        else if broken then [Failed(StreamError)]
        else if final.None? then []
        else
          FallbackAfter(env, calls)
          + [UsageReport(Total(env, calls)),
             Stop(ModelStop(if final.value.stopReason.Some? then final.value.stopReason.value else "end_turn"))]
  }

  /** The stream of the last call: the closing one asks for no tools, and is not made once the visitor is gone. */
  function LastStream(env: Env, n: nat): seq<Event>
    requires Enough(env) && n <= 8
  {
    if n < 8 then Stream(ChunksOf(env.replies[n]), true)
    else if env.goneAtEnd then []
    else Stream(ChunksOf(env.replies[8]), false)
  }

  /** The messages the rounds from k to before n add: what the model said, and the results of its tools. */
  ghost predicate AddsRounds(env: Env, k: nat, n: nat, before: seq<Message>, after: seq<Message>)
    requires k <= n <= |env.replies|
  {
    && |after| == |before| + 2 * (n - k) && before <= after
    && forall i :: k <= i < n ==>
         && after[|before| + 2 * (i - k)] == Assistant(ContentOf(env.replies[i]))
         && after[|before| + 2 * (i - k) + 1].ToolResults?
         && AnswersOf(env, i, ContentOf(env.replies[i]), after[|before| + 2 * (i - k) + 1].results)
  }

  /** This outcome is the rounds from k to before n, then the stream of one more call and the ending. */
  ghost predicate InRounds(env: Env, k: nat, n: nat, before: seq<Message>, o: Outcome)
    requires Enough(env)
  {
    && k <= n <= 8 && (forall i :: k <= i < n ==> AsksForTools(env.replies[i])) && (n < 8 ==> !AsksForTools(env.replies[n]))
    && o.events == RoundEvents(env, k, n) + (LastStream(env, n) + Ending(env, n))
    && AddsRounds(env, k, n, before, o.messages)
    && o.calls == CallsAfter(env, n) && (o.threw <==> n < 8 && Silent(env.replies[n]))
  }

  lemma ClosingEnd(env: Env, messages: seq<Message>, spoke: bool)
    requires Enough(env) && spoke == StreamedAny(env, 8)
    ensures Loop(env, 8, messages, Total(env, 8), spoke)
         == Outcome(LastStream(env, 8) + Ending(env, 8), messages, CallsAfter(env, 8), false)
  {
    var last, calls := env.replies[8], CallsAfter(env, 8);
    var tail := [UsageReport(Total(env, calls)), Stop(MaxToolIterations)];
    if env.goneAtEnd {
      assert [] + (Fallback(spoke) + tail) == Fallback(spoke) + tail;
    } else if last.Refused? {
      RefusedStreamsNothing(env, 8);
      assert [] + (Fallback(spoke) + tail) == Fallback(spoke) + tail;
    } else {
      StreamIsEmitted(last.chunks, false);
      Associates(Stream(last.chunks, false), Fallback(spoke || HasText(Read(last.chunks))), tail);
    }
  }

  /** No round at all: just this outcome's stream and ending. */
  lemma NoRounds(env: Env, k: nat, messages: seq<Message>, o: Outcome)
    requires Enough(env) && k <= 8 && (k < 8 ==> !AsksForTools(env.replies[k]))
    requires o == Outcome(LastStream(env, k) + Ending(env, k), messages, CallsAfter(env, k), k < 8 && Silent(env.replies[k]))
    ensures InRounds(env, k, k, messages, o)
  {
    assert [] + o.events == o.events;
  }

  lemma PlainEnd(env: Env, k: nat, messages: seq<Message>, spoke: bool)
    requires Enough(env) && k < 8 && !GoesOn(env.replies[k]) && spoke == StreamedAny(env, k)
    requires var r := env.replies[k]; r.Reply? && !GoneDuring(r.chunks) && !r.broken && r.final.Some?
    ensures Loop(env, k, messages, Total(env, k), spoke)
         == Outcome(LastStream(env, k) + Ending(env, k), messages, CallsAfter(env, k), false)
  {
    var r := env.replies[k];
    ReadAll(r.chunks);
    StreamIsEmitted(r.chunks, true);
    assert StreamedAny(env, k + 1) == (spoke || HasText(r.chunks));
    assert Total(env, k + 1) == Plus(Total(env, k), r.final.value.usage);
    var reason := if r.final.value.stopReason.Some? then r.final.value.stopReason.value else "end_turn";
    Associates(Stream(r.chunks, true), Fallback(spoke || HasText(r.chunks)), [UsageReport(Total(env, k + 1)), Stop(ModelStop(reason))]);
  }

  lemma CutEnd(env: Env, k: nat, messages: seq<Message>, spoke: bool)
    requires Enough(env) && k < 8
    requires var r := env.replies[k]; r.Refused? || GoneDuring(r.chunks) || r.broken || r.final.None?
    ensures Loop(env, k, messages, Total(env, k), spoke)
         == Outcome(LastStream(env, k) + Ending(env, k), messages, CallsAfter(env, k), Silent(env.replies[k]))
  {
    var r := env.replies[k];
    if r.Reply? { StreamIsEmitted(r.chunks, true); }
  }

  lemma LastInRounds(env: Env, k: nat, messages: seq<Message>, spoke: bool)
    requires Enough(env) && k <= 8 && (k < 8 ==> !AsksForTools(env.replies[k])) && spoke == StreamedAny(env, k)
    ensures InRounds(env, k, k, messages, Loop(env, k, messages, Total(env, k), spoke))
  {
    var r := env.replies[k];
    if k == 8 {
      ClosingEnd(env, messages, spoke);
    } else if r.Refused? || GoneDuring(r.chunks) || r.broken || r.final.None? {
      CutEnd(env, k, messages, spoke);
    } else {
      AsksExactly(r);
      PlainEnd(env, k, messages, spoke);
    }
    NoRounds(env, k, messages, Loop(env, k, messages, Total(env, k), spoke));
  }

  /** One round before the rest. */
  lemma RoundFirst(env: Env, k: nat, n: nat, before: seq<Message>, spoke: bool, o: Outcome)
    requires Enough(env) && k < 8 && AsksForTools(env.replies[k])
    requires var content := ContentOf(env.replies[k]);
      InRounds(env, k + 1, n, before + [Assistant(content), ToolResults(Results(env, k, ToolUses(content)))], o)
    ensures var content := ContentOf(env.replies[k]);
      InRounds(env, k, n, before, Prepend(Emitted(Read(ChunksOf(env.replies[k])), true) + ActedAll(env, k, ToolUses(content)), o))
  {
    var content, chunks := ContentOf(env.replies[k]), ChunksOf(env.replies[k]);
    RoundExactly(env, k, content);
    StreamIsEmitted(chunks, true);
    RoundMessages(env, k, n, before, Results(env, k, ToolUses(content)), o.messages);
    var round := Stream(chunks, true) + Shown(env, k, content, |content|);
    Associates(round, RoundEvents(env, k + 1, n), LastStream(env, n) + Ending(env, n));
  }

  lemma RoundMessages(env: Env, k: nat, n: nat, before: seq<Message>, results: seq<ToolResult>, after: seq<Message>)
    requires k < n <= |env.replies| && AnswersOf(env, k, ContentOf(env.replies[k]), results)
    requires AddsRounds(env, k + 1, n, before + [Assistant(ContentOf(env.replies[k])), ToolResults(results)], after)
    ensures AddsRounds(env, k, n, before, after)
  {
    var more := before + [Assistant(ContentOf(env.replies[k])), ToolResults(results)];
    assert after[|before|] == more[|before|] && after[|before| + 1] == more[|before| + 1];
    assert before <= after by { assert after[..|more|] == more && more[..|before|] == before; }
    forall i | k <= i < n
      ensures after[|before| + 2 * (i - k)] == Assistant(ContentOf(env.replies[i]))
      ensures after[|before| + 2 * (i - k) + 1].ToolResults?
        && AnswersOf(env, i, ContentOf(env.replies[i]), after[|before| + 2 * (i - k) + 1].results)
    {
      if i > k { assert |before| + 2 * (i - k) == |more| + 2 * (i - (k + 1)); }
    }
  }

  lemma NextTurn(env: Env, k: nat, messages: seq<Message>, spoke: bool) returns (more: seq<Message>, said: bool)
    requires Enough(env) && k < 8 && AsksForTools(env.replies[k]) && spoke == StreamedAny(env, k)
    ensures said == StreamedAny(env, k + 1)
    ensures var content := ContentOf(env.replies[k]);
      && more == messages + [Assistant(content), ToolResults(Results(env, k, ToolUses(content)))]
      && Loop(env, k, messages, Total(env, k), spoke)
         == Prepend(Emitted(Read(ChunksOf(env.replies[k])), true) + ActedAll(env, k, ToolUses(content)),
                    Loop(env, k + 1, more, Total(env, k + 1), said))
  {
    var r := env.replies[k];
    AsksExactly(r);
    ReadAll(r.chunks);
    said := spoke || HasText(r.chunks);
    more := messages + [Assistant(r.final.value.content), ToolResults(Results(env, k, ToolUses(r.final.value.content)))];
    assert Total(env, k + 1) == Plus(Total(env, k), r.final.value.usage);
    GoingOn(env, k, messages, Total(env, k), spoke, Loop(env, k + 1, more, Total(env, k + 1), said));
  }

  lemma {:induction false} LoopInRounds(env: Env, k: nat, messages: seq<Message>, spoke: bool) returns (n: nat)
    requires Enough(env) && k <= 8 && spoke == StreamedAny(env, k)
    ensures InRounds(env, k, n, messages, Loop(env, k, messages, Total(env, k), spoke))
    decreases 8 - k
  {
    if k == 8 || !AsksForTools(env.replies[k]) {
      n := k;
      LastInRounds(env, k, messages, spoke);
    } else {
      var more, said := NextTurn(env, k, messages, spoke);
      n := LoopInRounds(env, k + 1, more, said);
      RoundFirst(env, k, n, messages, spoke, Loop(env, k + 1, more, Total(env, k + 1), said));
    }
  }

  /**
   * A run is as many rounds of tools as the first replies ask for, eight at most, then one more call and its ending: a stop with its
   * reason, one error, or a throw. Each round streams, runs the tools in order, and adds two messages: what the model said and one
   * result for each of its tool uses, an error exactly when there is no such tool or running it threw; the visitor is told the same.
   */
  lemma RunInRounds(env: Env, given: seq<Message>) returns (n: nat)
    requires Enough(env)
    ensures InRounds(env, 0, n, given, Run(env, true, given))
  {
    n := LoopInRounds(env, 0, given, false);
  }

  /** Without a key nothing is asked: one error. */
  lemma OfflineIsOneError(env: Env, given: seq<Message>)
    requires Enough(env)
    ensures Run(env, false, given) == Outcome([Failed(Offline)], given, 0, false)
  {
  }

  lemma RoundAnswered(env: Env, n: nat, given: seq<Message>, after: seq<Message>, k: nat, p: nat) returns (use: nat)
    requires k < n <= |env.replies| && AddsRounds(env, 0, n, given, after)
    requires p < |ContentOf(env.replies[k])| && ContentOf(env.replies[k])[p].ToolUse?
    ensures use == |UsesBefore(ContentOf(env.replies[k]), p)| && |given| + 2 * k + 1 < |after|
    ensures var b := ContentOf(env.replies[k])[p];
      && after[|given| + 2 * k] == Assistant(ContentOf(env.replies[k]))
      && after[|given| + 2 * k + 1].ToolResults? && use < |after[|given| + 2 * k + 1].results|
      && after[|given| + 2 * k + 1].results[use] == ToolResult(b.id, b.name !in env.handlers || env.throws(k, use))
  {
    use := |UsesBefore(ContentOf(env.replies[k]), p)|;
    assert after[|given| + 2 * (k - 0) + 1].ToolResults?;
  }

  lemma {:induction false} ShownIn(env: Env, call: nat, content: seq<Block>, p: nat, upTo: nat)
    requires p < upTo <= |content| && content[p].ToolUse?
    ensures var b := content[p]; var shown := Shown(env, call, content, upTo);
      && ToolUseEnd(b.id, b.name, b.name in env.handlers && !env.throws(call, |UsesBefore(content, p)|)) in shown
      && (b.name in env.clientTools ==> ClientTool(b.id, b.name, b.input) in shown)
  {
    if p < upTo - 1 { ShownIn(env, call, content, p, upTo - 1); }
  }

  lemma InEither<T>(a: seq<T>, b: seq<T>, e: T)
    requires e in a || e in b
    ensures e in a + b
  {
  }

  lemma RoundInRest(env: Env, k: nat, n: nat, e: Event)
    requires k < n <= |env.replies| && (e in OneRound(env, k) || e in RoundEvents(env, k + 1, n))
    ensures e in RoundEvents(env, k, n)
  {
    InEither(OneRound(env, k), RoundEvents(env, k + 1, n), e);
  }

  lemma {:induction false} RoundIn(env: Env, k: nat, n: nat, i: nat, e: Event)
    requires k <= i < n <= |env.replies| && e in OneRound(env, i)
    ensures e in RoundEvents(env, k, n)
    decreases n - k
  {
    if k < i { RoundIn(env, k + 1, n, i, e); }
    RoundInRest(env, k, n, e);
  }

  /** Every tool use of every round is answered once, in the next message, an error exactly when there is no such tool or running it
      threw; and the visitor was told so. */
  lemma EveryToolUseIsAnswered(env: Env, given: seq<Message>, k: nat, p: nat) returns (use: nat)
    requires Enough(env)
    requires k <= 8 && |given| + 2 * k + 1 < |Run(env, true, given).messages|
    requires p < |ContentOf(env.replies[k])| && ContentOf(env.replies[k])[p].ToolUse?
    ensures use == |UsesBefore(ContentOf(env.replies[k]), p)|
    ensures var after, b := Run(env, true, given).messages, ContentOf(env.replies[k])[p];
      && after[|given| + 2 * k] == Assistant(ContentOf(env.replies[k]))
      && after[|given| + 2 * k + 1].ToolResults? && use < |after[|given| + 2 * k + 1].results|
      && after[|given| + 2 * k + 1].results[use] == ToolResult(b.id, b.name !in env.handlers || env.throws(k, use))
    ensures var events, b := Run(env, true, given).events, ContentOf(env.replies[k])[p];
      && ToolUseEnd(b.id, b.name, b.name in env.handlers && !env.throws(k, use)) in events
      && (b.name in env.clientTools ==> ClientTool(b.id, b.name, b.input) in events)
  {
    var n := RunInRounds(env, given);
    var content, o := ContentOf(env.replies[k]), Run(env, true, given);
    use := RoundAnswered(env, n, given, o.messages, k, p);
    ShownIn(env, k, content, p, |content|);
    var b := content[p];
    var end := ToolUseEnd(b.id, b.name, b.name in env.handlers && !env.throws(k, use));
    InEither(Stream(ChunksOf(env.replies[k]), true), Shown(env, k, content, |content|), end);
    RoundIn(env, 0, n, k, end);
    InEither(RoundEvents(env, 0, n), LastStream(env, n) + Ending(env, n), end);
    if b.name in env.clientTools {
      InEither(Stream(ChunksOf(env.replies[k]), true), Shown(env, k, content, |content|), ClientTool(b.id, b.name, b.input));
      RoundIn(env, 0, n, k, ClientTool(b.id, b.name, b.input));
      InEither(RoundEvents(env, 0, n), LastStream(env, n) + Ending(env, n), ClientTool(b.id, b.name, b.input));
    }
  }

  // ---- the bill ------------------------------------------------------------------------------------

  /** One field of the usage, summed over the calls. */
  ghost function SumOf(env: Env, calls: nat, field: Usage -> nat): nat
    requires Enough(env) && calls <= 9
  {
    if calls == 0 then 0
    else SumOf(env, calls - 1, field) + if Billed(env, calls - 1).Some? then field(Billed(env, calls - 1).value) else 0
  }

  /** The four figures are summed each for itself. */
  lemma {:induction false} TotalIsSum(env: Env, calls: nat)
    requires Enough(env) && calls <= 9
    ensures Total(env, calls).input == SumOf(env, calls, (u: Usage) => u.input)
    ensures Total(env, calls).output == SumOf(env, calls, (u: Usage) => u.output)
    ensures Total(env, calls).cacheRead == SumOf(env, calls, (u: Usage) => u.cacheRead)
    ensures Total(env, calls).cacheWrite == SumOf(env, calls, (u: Usage) => u.cacheWrite)
  {
    if calls > 0 { TotalIsSum(env, calls - 1); }
  }
}
