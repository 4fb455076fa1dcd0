/** What notes, queue rows, signals and relations keep through every run. */
module NoteRuns {
  import opened Optional
  import opened Notes

  /**
   * `World` is everything other writers may do to the tables notes only read. `Retire` is retireBatch as far as it
   * reaches signals and queue rows, `Clear` the derive pass dropping its waiting suggestions, the rows it submitted, before
   * it inserts anew. A pending claim that is ended refuses its row as a negative verdict on it does.
   */
  datatype Action =
    | File(filing: Filing)
    | Read(reading: ReadingFiling)
    | Withdraw(signal: nat, contributor: string)
    | Verdict(id: nat, approve: bool, anchor: nat, goesThrough: bool)
    | World(edges: seq<Edge>, metadata: map<string, map<string, string>>, priors: map<nat, seq<Prior>>,
            holders: set<(string, string)>, retired: set<string>, elapsed: nat)
    | Revoke(signal: nat)
    | NewSignal(signal: nat, batch: Option<string>)
    | Contribute(id: nat, signal: nat, batch: Option<string>, touches: set<string>)
    | Enqueue(id: nat, aClaim: bool, touches: set<string>)
    | Clear
    | Retire(batchId: string)

  function Exec(s: State, a: Action): State
  {
    match a
    case File(f) => FileNote(s, f).1
    case Read(f) => FileReading(s, f).1
    case Withdraw(signal, contributor) => WithdrawNote(s, signal, contributor).1
    case Verdict(id, approve, anchor, goesThrough) => Review(s, id, approve, anchor, goesThrough).1
    case World(edges, metadata, priors, holders, retired, elapsed) =>
      s.(edges := edges, metadata := metadata, priors := priors, holders := holders, retired := retired, clock := s.clock + elapsed)
    case Revoke(signal) =>
      if signal in s.signals then s.(signals := s.signals[signal := RevokedSignal(s.signals[signal])]) else s
    case NewSignal(signal, batch) =>
      if signal in s.signals then s else s.(signals := s.signals[signal := Signal(Active, {}, batch)])
    case Contribute(id, signal, batch, touches) =>
      if id in s.queue || signal in s.signals then s
      else
        s.(signals := s.signals[signal := Signal(Active, {InReview}, batch)],
           queue := s.queue[id := Item(Contribution, Waiting, Some(signal), touches)])
    case Enqueue(id, aClaim, touches) =>
      if id in s.queue then s
      else s.(queue := s.queue[id := Item(if aClaim then ClaimItem else Suggestion, Waiting, None, touches)])
    case Clear => s.(queue := s.queue - WaitingSuggestions(s.queue))
    case Retire(batch) => RetireBatch(s, InBatch(s.signals, batch))
  }

  function RevokedSignal(g: Signal): Signal
  {
    g.(status := SignalStatus.Revoked, held := g.held + {WasRevoked})
  }

  function WaitingSuggestions(queue: map<nat, Item>): set<nat>
  {
    set id | id in queue && queue[id].kind == Suggestion && queue[id].status == Waiting
  }

  function InBatch(signals: map<nat, Signal>, batch: string): set<nat>
  {
    set x | x in signals && signals[x].batch == Some(batch)
  }

  /** src/utils/admin-actions.ts retireBatch: active signals are revoked, waiting rows of the signals refused; no note is touched. */
  function RetireBatch(s: State, batch: set<nat>): State
  {
    s.(signals := map x | x in s.signals ::
         if x in batch && s.signals[x].status == Active then RevokedSignal(s.signals[x]) else s.signals[x],
       queue := map id | id in s.queue ::
         if s.queue[id].signal.Some? && s.queue[id].signal.value in batch && s.queue[id].status == Waiting
         then s.queue[id].(status := Refused) else s.queue[id])
  }

  function After(s: State, actions: seq<Action>): State
    decreases actions
  {
    if actions == [] then s else After(Exec(s, actions[0]), actions[1..])
  }

  // ---- what holds after every run -------------------------------------------------------

  ghost predicate Keyed(notes: seq<Note>, signals: map<nat, Signal>)
  {
    && (forall i, j :: 0 <= i < j < |notes| ==> notes[i].signal != notes[j].signal)
    && (forall i :: 0 <= i < |notes| ==> notes[i].signal in signals)
  }

  predicate InReviewQueue(st: NoteState)
  {
    st == Open || st == Pending
  }

  /** What other writers took away so far: signals whose batch was retired, suggestions cleared and not proposed again. */
  datatype History = History(retired: set<nat>, cleared: set<nat>)

  function Since(h: History, s: State, a: Action): History
  {
    History(
      h.retired + if a.Retire? then InBatch(s.signals, a.batchId) else {},
      h.cleared + (if a.Clear? then WaitingSuggestions(s.queue) else {}) - Exec(s, a).queue.Keys)
  }

  function HistoryOf(h: History, s: State, actions: seq<Action>): History
    decreases actions
  {
    if actions == [] then h else HistoryOf(Since(h, s, actions[0]), Exec(s, actions[0]), actions[1..])
  }

  /** A note's own queue row waits exactly while the note is open or pending and its batch was not retired. */
  ghost predicate RowAgrees(n: Note, queue: map<nat, Item>, h: History)
  {
    && (n.kind == Objection <==> n.queue.None?)
    && (n.queue.Some? ==>
          && n.queue.value in queue && queue[n.queue.value].kind == NoteItem(n.kind)
          && queue[n.queue.value].signal == Some(n.signal)
          && (queue[n.queue.value].status == Waiting <==> InReviewQueue(n.state) && n.signal !in h.retired))
  }

  ghost predicate RowsAgree(notes: seq<Note>, queue: map<nat, Item>, h: History)
  {
    && (forall i :: 0 <= i < |notes| ==> RowAgrees(notes[i], queue, h))
    && (forall i, j :: 0 <= i < j < |notes| && notes[i].queue.Some? ==> notes[i].queue != notes[j].queue)
  }

  predicate StateFits(n: Note)
  {
    && (n.kind == Objection <==> n.about.OnItem?)
    && (Gated(n.kind) ==> n.about.OnRelation?)
    && if Gated(n.kind) then n.state in {Pending, Live, Rejected, Withdrawn} else n.state in {Open, Upheld, Dismissed, Withdrawn}
  }

  /** Words in review, turned down or meant for the curator are not published; an approved note's are not held for review. */
  predicate WordsFit(n: Note, g: Signal)
  {
    && (n.state == Pending ==> InReview in g.held)
    && (n.state == Live ==> InReview !in g.held)
    && (n.state == Rejected ==> TurnedDown in g.held && g.status != Active)
    && (n.state == Withdrawn ==> g.status != Active)
    && (n.kind == Objection ==> ForCurator in g.held)
  }

  ghost predicate NotesFit(notes: seq<Note>, signals: map<nat, Signal>)
  {
    forall i :: 0 <= i < |notes| ==> notes[i].signal in signals && StateFits(notes[i]) && WordsFit(notes[i], signals[notes[i].signal])
  }

  /** Nobody has two open contests on one relation. */
  ghost predicate OneContestEach(notes: seq<Note>)
  {
    forall i, j :: 0 <= i < j < |notes| && notes[i].about.OnRelation? && SameContest(notes[i], notes[i].contributor, notes[i].about.relation) ==>
      !SameContest(notes[j], notes[i].contributor, notes[i].about.relation)
  }

  /** The history when nothing was taken away but rows may have been put back. */
  function Filled(h: History, t: State): History
  {
    h.(cleared := h.cleared - t.queue.Keys)
  }

  predicate Proposed(k: ItemKind)
  {
    k == Contribution || k == Suggestion
  }

  /** The item is gone exactly when derive cleared it, and an item that is a contribution waits exactly when its batch was not retired. */
  predicate ItemFits(item: nat, queue: map<nat, Item>, h: History)
  {
    && (item in queue <==> item !in h.cleared)
    && (item in queue && Proposed(queue[item].kind) ==>
          (queue[item].status == Waiting <==> !(queue[item].signal.Some? && queue[item].signal.value in h.retired)))
  }

  /** What an open objection speaks of. */
  ghost predicate ObjectionsFit(notes: seq<Note>, queue: map<nat, Item>, h: History)
  {
    forall i :: 0 <= i < |notes| && notes[i].about.OnItem? && notes[i].state == Open ==> ItemFits(notes[i].about.item, queue, h)
  }

  /** Only signals that carry a batch are retired with one; nothing reactivates them, and no row of theirs waits. */
  ghost predicate RetiredFit(s: State, h: History)
  {
    && (forall x :: x in h.retired ==> x in s.signals && s.signals[x].batch.Some? && s.signals[x].status != Active)
    && (forall id :: id in s.queue && s.queue[id].signal.Some? ==>
          s.queue[id].signal.value in s.signals && (s.queue[id].status == Waiting ==> s.queue[id].signal.value !in h.retired))
    && h.cleared !! s.queue.Keys
  }

  /** Only readings are filed in a batch. */
  ghost predicate BatchesFit(notes: seq<Note>, signals: map<nat, Signal>)
  {
    forall i :: 0 <= i < |notes| && notes[i].signal in signals && signals[notes[i].signal].batch.Some? ==> notes[i].kind == Reading
  }

  /** Nobody filed more than `most` readings in any `span` seconds, both ends included. */
  ghost predicate AtMostIn(notes: seq<Note>, span: nat, most: nat)
  {
    forall c, from, to :: to - from <= span ==> ReadingsIn(notes, c, from, to) <= most
  }

  /** Stamps are not in the future, and no minute or day holds more readings than allowed. */
  ghost predicate QuotaKept(notes: seq<Note>, clock: nat)
  {
    && (forall i :: 0 <= i < |notes| ==> notes[i].at <= clock / 1000)
    && AtMostIn(notes, MINUTE, READINGS_PER_MINUTE)
    && AtMostIn(notes, DAY, READINGS_PER_DAY)
  }

  ghost predicate Valid(s: State, h: History)
  {
    && Keyed(s.notes, s.signals)
    && RowsAgree(s.notes, s.queue, h)
    && NotesFit(s.notes, s.signals)
    && OneContestEach(s.notes)
    && ObjectionsFit(s.notes, s.queue, h)
    && RetiredFit(s, h) && BatchesFit(s.notes, s.signals)
    && QuotaKept(s.notes, s.clock)
  }

  const NOTHING_YET := History({}, {})

  /** Before anyone has said anything, with no queue row of an unknown signal. */
  lemma UnnotedIsValid(s: State)
    requires s.notes == [] && forall id :: id in s.queue && s.queue[id].signal.Some? ==> s.queue[id].signal.value in s.signals
    ensures Valid(s, NOTHING_YET)
  {
    forall c, from, to ensures ReadingsIn(s.notes, c, from, to) == 0 { }
  }

  // ---- a note moves ------------------------------------------------------------------------

  predicate Allowed(from: NoteState, to: NoteState)
  {
    match from
    case Open => to in {Upheld, Dismissed, Withdrawn}
    case Pending => to in {Live, Rejected, Withdrawn}
    case Live => to == Withdrawn
    case _ => false
  }

  function MovedSignal(g: Signal, from: NoteState, to: NoteState): Signal
  {
    match to
    case Live => g.(held := g.held - {InReview})
    case Rejected => g.(status := Superseded, held := g.held + {TurnedDown})
    case Withdrawn =>
      g.(status := if g.status == SignalStatus.Revoked then g.status else Superseded,
         held := if from == Pending then g.held + {TakenBack} else g.held)
    case _ => g
  }

  ghost predicate SignalMoved(was: map<nat, Signal>, now: map<nat, Signal>, id: nat, from: NoteState, to: NoteState)
  {
    && id in was && id in now && now[id] == MovedSignal(was[id], from, to)
    && (forall x :: x in was ==> x in now && (x != id ==> now[x] == was[x]))
  }

  /** One note takes one allowed step, its queue row and its signal with it. */
  ghost predicate Moved(s: State, t: State, i: nat, to: NoteState)
  {
    && i < |s.notes| && Allowed(s.notes[i].state, to)
    && t.notes == s.notes[i := s.notes[i].(state := to)] && t.clock == s.clock
    && t.queue == SettleItem(s.queue, s.notes[i].queue, if to == Upheld || to == Live then Accepted else Refused)
    && SignalMoved(s.signals, t.signals, s.notes[i].signal, s.notes[i].state, to)
  }

  lemma MovedRowsAgree(s: State, h: History, t: State, i: nat, to: NoteState)
    requires RowsAgree(s.notes, s.queue, h) && NotesFit(s.notes, s.signals) && Moved(s, t, i, to)
    ensures RowsAgree(t.notes, t.queue, h)
  {
    forall j | 0 <= j < |t.notes| ensures RowAgrees(t.notes[j], t.queue, h) {
      assert RowAgrees(s.notes[j], s.queue, h) && RowAgrees(s.notes[i], s.queue, h);
      assert j < i ==> s.notes[j].queue != s.notes[i].queue || s.notes[j].queue.None?;
      assert j > i && s.notes[i].queue.Some? ==> s.notes[j].queue != s.notes[i].queue;
      assert StateFits(s.notes[i]);
    }
    forall j, k | 0 <= j < k < |t.notes| && t.notes[j].queue.Some? ensures t.notes[j].queue != t.notes[k].queue {
      assert t.notes[j].queue == s.notes[j].queue && t.notes[k].queue == s.notes[k].queue;
    }
  }

  lemma MovedNotesFit(s: State, t: State, i: nat, to: NoteState)
    requires Keyed(s.notes, s.signals) && NotesFit(s.notes, s.signals) && Moved(s, t, i, to)
    ensures Keyed(t.notes, t.signals) && NotesFit(t.notes, t.signals)
  {
    forall j | 0 <= j < |t.notes|
      ensures t.notes[j].signal in t.signals && StateFits(t.notes[j]) && WordsFit(t.notes[j], t.signals[t.notes[j].signal])
    {
      assert StateFits(s.notes[j]) && WordsFit(s.notes[j], s.signals[s.notes[j].signal]);
      assert j != i ==> s.notes[j].signal != s.notes[i].signal;
    }
    forall j, k | 0 <= j < k < |t.notes| ensures t.notes[j].signal != t.notes[k].signal {
      assert t.notes[j].signal == s.notes[j].signal && t.notes[k].signal == s.notes[k].signal;
    }
  }

  lemma MovedContestsFit(s: State, t: State, i: nat, to: NoteState)
    requires OneContestEach(s.notes) && NotesFit(s.notes, s.signals) && Moved(s, t, i, to)
    ensures OneContestEach(t.notes)
  {
    assert StateFits(s.notes[i]);
    forall j, k | 0 <= j < k < |t.notes| && t.notes[j].about.OnRelation?
      && SameContest(t.notes[j], t.notes[j].contributor, t.notes[j].about.relation)
      ensures !SameContest(t.notes[k], t.notes[j].contributor, t.notes[j].about.relation)
    {
      assert SameContest(s.notes[j], s.notes[j].contributor, s.notes[j].about.relation);
    }
  }

  lemma MovedObjectionsFit(s: State, h: History, t: State, i: nat, to: NoteState)
    requires ObjectionsFit(s.notes, s.queue, h) && RowsAgree(s.notes, s.queue, h) && Moved(s, t, i, to)
    ensures ObjectionsFit(t.notes, t.queue, h)
  {
    assert RowAgrees(s.notes[i], s.queue, h);
    forall j | 0 <= j < |t.notes| && t.notes[j].about.OnItem? && t.notes[j].state == Open
      ensures ItemFits(t.notes[j].about.item, t.queue, h)
    {
      assert s.notes[j].about == t.notes[j].about && s.notes[j].state == Open;
    }
  }

  lemma {:induction false} SameReadings(a: seq<Note>, b: seq<Note>, contributor: string, from: int, to: int)
    requires |a| == |b|
    requires forall i :: 0 <= i < |a| ==> a[i].kind == b[i].kind && a[i].contributor == b[i].contributor && a[i].at == b[i].at
    ensures ReadingsIn(a, contributor, from, to) == ReadingsIn(b, contributor, from, to)
  {
    if a != [] {
      SameReadings(a[..|a| - 1], b[..|b| - 1], contributor, from, to);
    }
  }

  lemma SameStampsKeepQuota(a: seq<Note>, b: seq<Note>, clock: nat)
    requires QuotaKept(a, clock) && |a| == |b|
    requires forall i :: 0 <= i < |a| ==> a[i].kind == b[i].kind && a[i].contributor == b[i].contributor && a[i].at == b[i].at
    ensures QuotaKept(b, clock)
  {
    forall c, from, to ensures ReadingsIn(b, c, from, to) == ReadingsIn(a, c, from, to) { SameReadings(a, b, c, from, to); }
  }

  lemma MovedIsValid(s: State, h: History, t: State, i: nat, to: NoteState)
    requires Valid(s, h) && Moved(s, t, i, to)
    ensures Valid(t, h)
  {
    MovedRowsAgree(s, h, t, i, to);
    MovedNotesFit(s, t, i, to);
    MovedContestsFit(s, t, i, to);
    MovedObjectionsFit(s, h, t, i, to);
    SameStampsKeepQuota(s.notes, t.notes, s.clock);
  }

  // ---- which note an operation moves ------------------------------------------------------------

  lemma {:induction false} BySignalMeaning(notes: seq<Note>, signal: nat)
    ensures BySignal(notes, signal) < |notes| ==> notes[BySignal(notes, signal)].signal == signal
  {
    if notes != [] { BySignalMeaning(notes[1..], signal); }
  }

  lemma {:induction false} ByQueueMeaning(notes: seq<Note>, queue: nat)
    ensures ByQueue(notes, queue) < |notes| ==> notes[ByQueue(notes, queue)].queue == Some(queue)
  {
    if notes != [] { ByQueueMeaning(notes[1..], queue); }
  }

  lemma WithdrawMoves(s: State, signal: nat, contributor: string)
    requires NotesFit(s.notes, s.signals) && WithdrawNote(s, signal, contributor).0.Ok?
    ensures Moved(s, WithdrawNote(s, signal, contributor).1, BySignal(s.notes, signal), Withdrawn)
  {
    BySignalMeaning(s.notes, signal);
    assert StateFits(s.notes[BySignal(s.notes, signal)]);
  }

  lemma SettleMoves(s: State, i: nat, to: NoteState)
    requires NotesFit(s.notes, s.signals) && i < |s.notes| && Allowed(s.notes[i].state, to) && to != Withdrawn
    ensures Moved(s, Settle(s, i, to), i, to)
  {
    assert StateFits(s.notes[i]);
  }

  lemma UpholdMoves(s: State, queue: nat, anchor: nat)
    requires NotesFit(s.notes, s.signals) && UpholdContest(s, queue, anchor).0.Ok?
    ensures Moved(s, UpholdContest(s, queue, anchor).1, ByQueue(s.notes, queue), Upheld)
  {
    var i := ByQueue(s.notes, queue);
    var t := Redress(s.(signals := s.signals[anchor := Signal(Active, {}, None)]), s.notes[i], anchor).1;
    assert t.notes == s.notes && t.queue == s.queue && t.clock == s.clock;
    assert s.notes[i].signal in s.signals && s.notes[i].signal != anchor;
  }

  // ---- a note is filed -----------------------------------------------------------------------------

  /** What a filing has checked before it writes. */
  ghost predicate Fileable(s: State, n: Note, held: set<Reason>, batch: Option<string>)
  {
    && StateFits(n) && (n.kind == Objection <==> n.queue.None?) && n.at == s.clock / 1000
    && (InReviewQueue(n.state) || n.state == Live)
    && WordsFit(n, Signal(Active, held, batch)) && (batch.Some? ==> n.kind == Reading)
    && (n.kind == Contest && n.about.OnRelation? ==> forall m :: m in s.notes ==> !SameContest(m, n.contributor, n.about.relation))
    && (n.about.OnItem? ==> n.about.item in s.queue && s.queue[n.about.item].status == Waiting)
    && (n.kind == Reading ==> !QuotaReached(s.notes, n.contributor, n.at))
  }

  lemma {:induction false} ReadingsGrow(notes: seq<Note>, contributor: string, from: int, to: int, now: int)
    requires from <= now && forall i :: 0 <= i < |notes| ==> notes[i].at <= now
    ensures forall low :: low <= from ==> ReadingsIn(notes, contributor, from, to) <= ReadingsIn(notes, contributor, low, now)
  {
    forall low | low <= from ensures ReadingsIn(notes, contributor, from, to) <= ReadingsIn(notes, contributor, low, now) {
      if notes != [] {
        ReadingsGrow(notes[..|notes| - 1], contributor, from, to, now);
      }
    }
  }

  lemma OneMoreReading(notes: seq<Note>, n: Note, span: nat, most: nat)
    requires AtMostIn(notes, span, most) && forall i :: 0 <= i < |notes| ==> notes[i].at <= n.at
    requires n.kind == Reading ==> ReadingsIn(notes, n.contributor, n.at - span, n.at) < most
    ensures AtMostIn(notes + [n], span, most)
  {
    forall c, from, to | to - from <= span ensures ReadingsIn(notes + [n], c, from, to) <= most {
      assert (notes + [n])[..|notes|] == notes;
      if n.kind == Reading && n.contributor == c && from <= n.at <= to {
        ReadingsGrow(notes, c, from, to, n.at);
      }
    }
  }

  lemma FiledRows(s: State, h: History, n: Note, held: set<Reason>, batch: Option<string>)
    requires Valid(s, h) && Fileable(s, n, held, batch) && Record(s, n, held, batch).0.Ok?
    ensures var t := Record(s, n, held, batch).1; RowsAgree(t.notes, t.queue, h) && ObjectionsFit(t.notes, t.queue, Filled(h, t))
  {
    var t := Record(s, n, held, batch).1;
    forall i | 0 <= i < |t.notes| ensures RowAgrees(t.notes[i], t.queue, h) {
      if i < |s.notes| { assert RowAgrees(s.notes[i], s.queue, h); }
    }
  }

  lemma FiledSignals(s: State, h: History, n: Note, held: set<Reason>, batch: Option<string>)
    requires Valid(s, h) && Fileable(s, n, held, batch) && Record(s, n, held, batch).0.Ok?
    ensures var t := Record(s, n, held, batch).1;
      Keyed(t.notes, t.signals) && NotesFit(t.notes, t.signals) && BatchesFit(t.notes, t.signals) && RetiredFit(t, Filled(h, t))
  {
  }

  lemma FiledContests(s: State, h: History, n: Note, held: set<Reason>, batch: Option<string>)
    requires Valid(s, h) && Fileable(s, n, held, batch) && Record(s, n, held, batch).0.Ok?
    ensures OneContestEach(Record(s, n, held, batch).1.notes)
  {
    var notes := s.notes + [n];
    forall j, k | 0 <= j < k < |notes| && notes[j].about.OnRelation? && SameContest(notes[j], notes[j].contributor, notes[j].about.relation)
      ensures !SameContest(notes[k], notes[j].contributor, notes[j].about.relation)
    {
      if k == |s.notes| { assert notes[j] in s.notes; }
    }
  }

  lemma FiledIsValid(s: State, h: History, n: Note, held: set<Reason>, batch: Option<string>)
    requires Valid(s, h) && Fileable(s, n, held, batch)
    ensures Valid(Record(s, n, held, batch).1, Filled(h, Record(s, n, held, batch).1))
  {
    if Record(s, n, held, batch).0.Ok? {
      FiledRows(s, h, n, held, batch);
      FiledSignals(s, h, n, held, batch);
      FiledContests(s, h, n, held, batch);
      OneMoreReading(s.notes, n, MINUTE, READINGS_PER_MINUTE);
      OneMoreReading(s.notes, n, DAY, READINGS_PER_DAY);
    }
  }

  lemma FileIsFileable(s: State, f: Filing) returns (n: Note, held: set<Reason>, batch: Option<string>)
    requires FileNote(s, f).0.Ok? || FileNote(s, f).0.error == IdTaken
    ensures FileNote(s, f) == Record(s, n, held, batch) && Fileable(s, n, held, batch)
  {
    held, batch := HeldAtFirst(f.kind, f.auto), None;
    n := Note(f.signal, f.kind, SubjectOf(s, f).value, f.node, f.contributor, Trim(f.note), FirstState(f.kind, f.auto),
      if f.kind == Objection then None else Some(f.queue), s.clock / 1000);
  }

  lemma ReadIsFileable(s: State, f: ReadingFiling) returns (n: Note, held: set<Reason>, batch: Option<string>)
    requires FileReading(s, f).0.Ok? || FileReading(s, f).0.error == IdTaken
    ensures FileReading(s, f) == Record(s, n, held, batch) && Fileable(s, n, held, batch)
  {
    held, batch := HeldAtFirst(Reading, f.auto) + if f.structuralOnly then {StructuralOnly} else {}, f.batch;
    n := Note(f.signal, Reading, OnRelation(f.relation.value), f.relation.value.source, f.contributor, Trim(f.note),
      FirstState(Reading, f.auto), Some(f.queue), s.clock / 1000);
  }

  // ---- a contribution is reviewed ------------------------------------------------------------------

  predicate Concerns(n: Note, item: nat)
  {
    n.about == OnItem(item) && n.kind == Objection && n.state == Open
  }

  lemma {:induction false} SettleObjectionsAt(notes: seq<Note>, item: nat, approved: bool, i: nat)
    requires i < |notes|
    ensures SettleObjections(notes, item, approved)[i]
         == if Concerns(notes[i], item) then notes[i].(state := if approved then Dismissed else Upheld) else notes[i]
  {
    if i < |notes| - 1 {
      SettleObjectionsAt(notes[..|notes| - 1], item, approved, i);
    }
  }

  /** The verdict on a contribution: its row settles, and every open objection to it. */
  ghost predicate Reviewed(s: State, t: State, item: nat, approve: bool)
  {
    && item in s.queue && Proposed(s.queue[item].kind) && s.queue[item].status == Waiting
    && t.clock == s.clock && t.signals == s.signals && |t.notes| == |s.notes|
    && t.queue == s.queue[item := s.queue[item].(status := if approve then Accepted else Refused)]
    && forall i :: 0 <= i < |s.notes| ==>
      t.notes[i] == if Concerns(s.notes[i], item) then s.notes[i].(state := if approve then Dismissed else Upheld) else s.notes[i]
  }

  lemma ReviewReviews(s: State, item: nat, approve: bool, anchor: nat, goesThrough: bool)
    requires item in s.queue && Proposed(s.queue[item].kind) && s.queue[item].status == Waiting && goesThrough
    ensures Reviewed(s, Review(s, item, approve, anchor, goesThrough).1, item, approve)
  {
    forall i | 0 <= i < |s.notes| ensures SettleObjections(s.notes, item, approve)[i]
      == if Concerns(s.notes[i], item) then s.notes[i].(state := if approve then Dismissed else Upheld) else s.notes[i]
    {
      SettleObjectionsAt(s.notes, item, approve, i);
    }
  }

  lemma ReviewedRows(s: State, h: History, t: State, item: nat, approve: bool)
    requires Valid(s, h) && Reviewed(s, t, item, approve)
    ensures RowsAgree(t.notes, t.queue, h) && ObjectionsFit(t.notes, t.queue, h)
  {
    forall i | 0 <= i < |t.notes| ensures RowAgrees(t.notes[i], t.queue, h) {
      assert RowAgrees(s.notes[i], s.queue, h) && StateFits(s.notes[i]);
    }
    forall i | 0 <= i < |t.notes| && t.notes[i].about.OnItem? && t.notes[i].state == Open
      ensures ItemFits(t.notes[i].about.item, t.queue, h)
    {
      assert StateFits(s.notes[i]) && s.notes[i].about == t.notes[i].about;
    }
    forall i, j | 0 <= i < j < |t.notes| && t.notes[i].queue.Some? ensures t.notes[i].queue != t.notes[j].queue {
      assert t.notes[i].queue == s.notes[i].queue && t.notes[j].queue == s.notes[j].queue;
    }
  }

  lemma ReviewedNotes(s: State, h: History, t: State, item: nat, approve: bool)
    requires Valid(s, h) && Reviewed(s, t, item, approve)
    ensures Keyed(t.notes, t.signals) && NotesFit(t.notes, t.signals)
  {
    forall i | 0 <= i < |t.notes|
      ensures t.notes[i].signal in t.signals && StateFits(t.notes[i]) && WordsFit(t.notes[i], t.signals[t.notes[i].signal])
    {
      assert StateFits(s.notes[i]) && WordsFit(s.notes[i], s.signals[s.notes[i].signal]);
    }
    forall i, j | 0 <= i < j < |t.notes| ensures t.notes[i].signal != t.notes[j].signal {
      assert t.notes[i].signal == s.notes[i].signal && t.notes[j].signal == s.notes[j].signal;
    }
  }

  lemma ReviewedContests(s: State, h: History, t: State, item: nat, approve: bool)
    requires Valid(s, h) && Reviewed(s, t, item, approve)
    ensures OneContestEach(t.notes)
  {
    forall j, k | 0 <= j < k < |t.notes| && t.notes[j].about.OnRelation?
      && SameContest(t.notes[j], t.notes[j].contributor, t.notes[j].about.relation)
      ensures !SameContest(t.notes[k], t.notes[j].contributor, t.notes[j].about.relation)
    {
      assert t.notes[j] == s.notes[j];
      assert t.notes[k] == s.notes[k] || t.notes[k].kind == Objection;
    }
  }

  lemma ReviewedIsValid(s: State, h: History, t: State, item: nat, approve: bool)
    requires Valid(s, h) && Reviewed(s, t, item, approve)
    ensures Valid(t, h)
  {
    ReviewedRows(s, h, t, item, approve);
    ReviewedNotes(s, h, t, item, approve);
    ReviewedContests(s, h, t, item, approve);
    SameStampsKeepQuota(s.notes, t.notes, s.clock);
  }

  // ---- every step, every run -----------------------------------------------------------------------

  /** What a verdict on a note's own row does. */
  lemma VerdictMoves(s: State, id: nat, approve: bool, anchor: nat, goesThrough: bool) returns (i: nat, to: NoteState)
    requires NotesFit(s.notes, s.signals)
    requires id in s.queue && s.queue[id].kind.NoteItem? && Review(s, id, approve, anchor, goesThrough).0.Ok?
    ensures Moved(s, Review(s, id, approve, anchor, goesThrough).1, i, to) && s.notes[i].queue == Some(id)
    ensures to == if s.queue[id].kind.kind == Contest then (if approve then Upheld else Dismissed) else if approve then Live else Rejected
  {
    i := ByQueue(s.notes, id);
    ByQueueMeaning(s.notes, id);
    assert StateFits(s.notes[i]);
    if s.queue[id].kind.kind == Contest {
      to := if approve then Upheld else Dismissed;
      if approve { UpholdMoves(s, id, anchor); } else { SettleMoves(s, i, to); }
    } else {
      to := if approve then Live else Rejected;
      SettleMoves(s, i, to);
    }
  }

  lemma RefusedVerdict(s: State, id: nat, approve: bool, anchor: nat, goesThrough: bool)
    requires Review(s, id, approve, anchor, goesThrough).0.Err?
    ensures Review(s, id, approve, anchor, goesThrough).1 == s
  {
  }

  lemma VerdictKeepsValid(s: State, h: History, id: nat, approve: bool, anchor: nat, goesThrough: bool)
    requires Valid(s, h)
    ensures Valid(Review(s, id, approve, anchor, goesThrough).1, h)
  {
    if Review(s, id, approve, anchor, goesThrough).0.Err? {
      RefusedVerdict(s, id, approve, anchor, goesThrough);
    } else if Proposed(s.queue[id].kind) {
      ReviewReviews(s, id, approve, anchor, goesThrough);
      ReviewedIsValid(s, h, Review(s, id, approve, anchor, goesThrough).1, id, approve);
    } else if s.queue[id].kind == ClaimItem {
      var t := Review(s, id, approve, anchor, goesThrough).1;
      forall i | 0 <= i < |t.notes| ensures RowAgrees(t.notes[i], t.queue, h) {
        assert RowAgrees(s.notes[i], s.queue, h);
      }
    } else {
      var i, to := VerdictMoves(s, id, approve, anchor, goesThrough);
      MovedIsValid(s, h, Review(s, id, approve, anchor, goesThrough).1, i, to);
    }
  }

  lemma FileKeepsValid(s: State, h: History, f: Filing)
    requires Valid(s, h)
    ensures Valid(FileNote(s, f).1, Filled(h, FileNote(s, f).1))
  {
    if FileNote(s, f).0.Ok? {
      var n, held, batch := FileIsFileable(s, f);
      FiledIsValid(s, h, n, held, batch);
    } else {
      assert Filled(h, s) == h;
    }
  }

  lemma ReadKeepsValid(s: State, h: History, f: ReadingFiling)
    requires Valid(s, h)
    ensures Valid(FileReading(s, f).1, Filled(h, FileReading(s, f).1))
  {
    if FileReading(s, f).0.Ok? {
      var n, held, batch := ReadIsFileable(s, f);
      FiledIsValid(s, h, n, held, batch);
    }
  }

  /** A row is added, with a signal of its own or none; `s` had neither. */
  ghost predicate Queued(s: State, t: State, id: nat, item: Item)
  {
    && id !in s.queue && item.status == Waiting
    && (item.signal.Some? ==> item.signal.value !in s.signals && item.signal.value in t.signals)
    && t.notes == s.notes && t.clock == s.clock && t.queue == s.queue[id := item]
    && (forall x :: x in s.signals ==> x in t.signals && t.signals[x] == s.signals[x])
  }

  lemma QueuedRows(s: State, h: History, t: State, id: nat, item: Item)
    requires Valid(s, h) && Queued(s, t, id, item)
    ensures RowsAgree(t.notes, t.queue, h) && ObjectionsFit(t.notes, t.queue, Filled(h, t)) && RetiredFit(t, Filled(h, t))
  {
    forall i | 0 <= i < |t.notes| ensures RowAgrees(t.notes[i], t.queue, h) {
      assert RowAgrees(s.notes[i], s.queue, h);
    }
    forall i | 0 <= i < |t.notes| && t.notes[i].about.OnItem? && t.notes[i].state == Open
      ensures ItemFits(t.notes[i].about.item, t.queue, Filled(h, t))
    {
      assert ItemFits(s.notes[i].about.item, s.queue, h);
    }
  }

  lemma QueuedIsValid(s: State, h: History, t: State, id: nat, item: Item)
    requires Valid(s, h) && Queued(s, t, id, item)
    ensures Valid(t, Filled(h, t))
  {
    QueuedRows(s, h, t, id, item);
  }

  lemma WorldKeepsValid(s: State, h: History, a: Action)
    requires Valid(s, h) && a.World?
    ensures Valid(Exec(s, a), h)
  {
    assert QuotaKept(s.notes, s.clock) ==> QuotaKept(s.notes, s.clock + a.elapsed);
  }

  lemma NewSignalKeepsValid(s: State, h: History, signal: nat, batch: Option<string>)
    requires Valid(s, h)
    ensures Valid(Exec(s, NewSignal(signal, batch)), h)
  {
  }

  lemma RevokeKeepsValid(s: State, h: History, signal: nat)
    requires Valid(s, h)
    ensures Valid(Exec(s, Revoke(signal)), h)
  {
    var t := Exec(s, Revoke(signal));
    forall i | 0 <= i < |t.notes|
      ensures t.notes[i].signal in t.signals && StateFits(t.notes[i]) && WordsFit(t.notes[i], t.signals[t.notes[i].signal])
    {
      assert StateFits(s.notes[i]) && WordsFit(s.notes[i], s.signals[s.notes[i].signal]);
    }
  }

  lemma ClearKeepsValid(s: State, h: History)
    requires Valid(s, h)
    ensures Valid(Exec(s, Clear), Since(h, s, Clear))
  {
    var t, g := Exec(s, Clear), Since(h, s, Clear);
    forall i | 0 <= i < |t.notes| ensures RowAgrees(t.notes[i], t.queue, g) {
      assert RowAgrees(s.notes[i], s.queue, h);
    }
  }

  lemma RetireKeepsRows(s: State, h: History, batch: string)
    requires Valid(s, h)
    ensures var t, g := Exec(s, Retire(batch)), Since(h, s, Retire(batch));
      RowsAgree(t.notes, t.queue, g) && ObjectionsFit(t.notes, t.queue, g)
  {
    var t, g := Exec(s, Retire(batch)), Since(h, s, Retire(batch));
    forall i | 0 <= i < |t.notes| ensures RowAgrees(t.notes[i], t.queue, g) {
      assert RowAgrees(s.notes[i], s.queue, h);
    }
    forall i | 0 <= i < |t.notes| && t.notes[i].about.OnItem? && t.notes[i].state == Open
      ensures ItemFits(t.notes[i].about.item, t.queue, g)
    {
      assert ItemFits(s.notes[i].about.item, s.queue, h);
    }
  }

  lemma RetireKeepsValid(s: State, h: History, batch: string)
    requires Valid(s, h)
    ensures Valid(Exec(s, Retire(batch)), Since(h, s, Retire(batch)))
  {
    var t, g := Exec(s, Retire(batch)), Since(h, s, Retire(batch));
    RetireKeepsRows(s, h, batch);
    forall i | 0 <= i < |t.notes|
      ensures t.notes[i].signal in t.signals && StateFits(t.notes[i]) && WordsFit(t.notes[i], t.signals[t.notes[i].signal])
    {
      assert StateFits(s.notes[i]) && WordsFit(s.notes[i], s.signals[s.notes[i].signal]);
    }
  }

  lemma QueueKeepsValid(s: State, h: History, a: Action)
    requires Valid(s, h) && (a.Contribute? || a.Enqueue?)
    ensures Valid(Exec(s, a), Filled(h, Exec(s, a)))
  {
    var t := Exec(s, a);
    if t == s {
      assert Filled(h, s) == h;
    } else {
      QueuedIsValid(s, h, t, a.id, t.queue[a.id]);
    }
  }

  lemma WithdrawKeepsValid(s: State, h: History, signal: nat, contributor: string)
    requires Valid(s, h)
    ensures Valid(WithdrawNote(s, signal, contributor).1, h)
  {
    if WithdrawNote(s, signal, contributor).0.Ok? {
      WithdrawMoves(s, signal, contributor);
      MovedIsValid(s, h, WithdrawNote(s, signal, contributor).1, BySignal(s.notes, signal), Withdrawn);
    }
  }

  lemma NothingTaken(s: State, h: History, a: Action)
    requires Valid(s, h) && !a.Clear? && !a.Retire?
    ensures Since(h, s, a) == Filled(h, Exec(s, a))
  {
  }

  lemma StepKeepsValid(s: State, h: History, a: Action)
    requires Valid(s, h)
    ensures Valid(Exec(s, a), Since(h, s, a))
  {
    if a.Clear? {
      ClearKeepsValid(s, h);
    } else if a.Retire? {
      RetireKeepsValid(s, h, a.batchId);
    } else {
      assert Valid(Exec(s, a), Filled(h, Exec(s, a))) by { FillingStepKeepsValid(s, h, a); }
      assert Since(h, s, a) == Filled(h, Exec(s, a)) by { NothingTaken(s, h, a); }
    }
  }

  /** A step that takes nothing away. */
  lemma FillingStepKeepsValid(s: State, h: History, a: Action)
    requires Valid(s, h) && !a.Clear? && !a.Retire?
    ensures Valid(Exec(s, a), Filled(h, Exec(s, a)))
  {
    if a.File? {
      FileKeepsValid(s, h, a.filing);
    } else if a.Read? {
      ReadKeepsValid(s, h, a.reading);
    } else if a.Contribute? || a.Enqueue? {
      QueueKeepsValid(s, h, a);
    } else {
      assert Valid(Exec(s, a), h) by { QuietStepKeepsValid(s, h, a); }
      NothingFilled(Exec(s, a), h);
    }
  }

  lemma NothingFilled(t: State, h: History)
    requires Valid(t, h)
    ensures Filled(h, t) == h
  {
  }

  lemma QuietStepKeepsValid(s: State, h: History, a: Action)
    requires Valid(s, h) && (a.Withdraw? || a.Verdict? || a.World? || a.Revoke? || a.NewSignal?)
    ensures Valid(Exec(s, a), h)
  {
    if a.Withdraw? {
      WithdrawKeepsValid(s, h, a.signal, a.contributor);
    } else if a.Verdict? {
      VerdictKeepsValid(s, h, a.id, a.approve, a.anchor, a.goesThrough);
    } else if a.World? {
      WorldKeepsValid(s, h, a);
    } else if a.Revoke? {
      RevokeKeepsValid(s, h, a.signal);
    } else {
      NewSignalKeepsValid(s, h, a.signal, a.batch);
    }
  }

  /** Notes, queue rows and signals stay in step through every run, given what the run took away. */
  lemma {:induction false} RunKeepsValid(s: State, h: History, actions: seq<Action>)
    requires Valid(s, h)
    ensures Valid(After(s, actions), HistoryOf(h, s, actions))
    decreases actions
  {
    if actions != [] {
      StepKeepsValid(s, h, actions[0]);
      RunKeepsValid(Exec(s, actions[0]), Since(h, s, actions[0]), actions[1..]);
    }
  }

  // ---- where note and queue row part ---------------------------------------------------------------

  /** Open or pending, with a queue row nobody waits on. */
  predicate Stranded(s: State, n: Note)
  {
    && InReviewQueue(n.state) && n.queue.Some?
    && !(n.queue.value in s.queue && s.queue[n.queue.value].status == Waiting)
  }

  /** After every run a waiting row's note is open or pending, and an open or pending note lost its row exactly when its batch was retired. */
  lemma StrandedExactlyByRetiring(s: State, actions: seq<Action>, i: nat)
    requires Valid(s, NOTHING_YET) && i < |After(s, actions).notes|
    ensures var t, h := After(s, actions), HistoryOf(NOTHING_YET, s, actions);
      var n := t.notes[i];
      && (n.queue.Some? && n.queue.value in t.queue && t.queue[n.queue.value].status == Waiting ==> InReviewQueue(n.state))
      && (Stranded(t, n) <==> InReviewQueue(n.state) && n.queue.Some? && n.signal in h.retired)
      && (Stranded(t, n) ==> n.kind == Reading && n.signal in t.signals && t.signals[n.signal].status != Active)
  {
    var t, h := After(s, actions), HistoryOf(NOTHING_YET, s, actions);
    RunKeepsValid(s, NOTHING_YET, actions);
    assert RowAgrees(t.notes[i], t.queue, h) && t.notes[i].signal in t.signals;
  }

  /** Retiring a batch strands each of its readings that is still in review. */
  lemma RetiringStrands(s: State, h: History, i: nat)
    requires Valid(s, h) && i < |s.notes| && s.notes[i].queue.Some? && InReviewQueue(s.notes[i].state)
    requires s.signals[s.notes[i].signal].batch.Some?
    ensures var t := Exec(s, Retire(s.signals[s.notes[i].signal].batch.value)); t.notes == s.notes && Stranded(t, s.notes[i])
  {
    var batch := s.signals[s.notes[i].signal].batch.value;
    RetireKeepsRows(s, h, batch);
    assert RowAgrees(Exec(s, Retire(batch)).notes[i], Exec(s, Retire(batch)).queue, Since(h, s, Retire(batch)));
  }

  /** A verdict on a waiting row never moves this note. */
  lemma StrandedVerdict(s: State, h: History, id: nat, approve: bool, anchor: nat, goesThrough: bool, i: nat)
    requires Valid(s, h) && i < |s.notes| && s.notes[i].signal in h.retired && s.notes[i].state == Pending
    ensures var t := Review(s, id, approve, anchor, goesThrough).1; i < |t.notes| && t.notes[i] == s.notes[i]
  {
    if Review(s, id, approve, anchor, goesThrough).0.Err? {
      RefusedVerdict(s, id, approve, anchor, goesThrough);
    } else if Proposed(s.queue[id].kind) {
      ReviewReviews(s, id, approve, anchor, goesThrough);
    } else if s.queue[id].kind.NoteItem? {
      var k, to := VerdictMoves(s, id, approve, anchor, goesThrough);
      assert RowAgrees(s.notes[i], s.queue, h);
      assert k != i;
    }
  }

  lemma StrandedStep(s: State, h: History, a: Action, i: nat)
    requires Valid(s, h) && i < |s.notes| && s.notes[i].signal in h.retired && s.notes[i].state == Pending
    ensures i < |Exec(s, a).notes|
    ensures Exec(s, a).notes[i] == s.notes[i] || Exec(s, a).notes[i] == s.notes[i].(state := Withdrawn)
  {
    if a.Verdict? {
      StrandedVerdict(s, h, a.id, a.approve, a.anchor, a.goesThrough, i);
    } else {
      StepEvolves(s, h, a);
      assert Advances(s.notes[i], Exec(s, a).notes[i]);
      NothingElseApproves(s, a, i);
    }
  }

  lemma NothingElseApproves(s: State, a: Action, i: nat)
    requires !a.Verdict? && i < |s.notes| && i < |Exec(s, a).notes|
    ensures Exec(s, a).notes[i].state == s.notes[i].state || Exec(s, a).notes[i].state == Withdrawn
  {
  }

  /** No verdict reaches a stranded note: whatever follows, it stays pending until its author withdraws it. */
  lemma {:induction false} StrandedForGood(s: State, h: History, actions: seq<Action>, i: nat)
    requires Valid(s, h) && i < |s.notes| && s.notes[i].signal in h.retired
    requires s.notes[i].state == Pending || s.notes[i].state == Withdrawn
    ensures i < |After(s, actions).notes|
    ensures var n := After(s, actions).notes[i]; n == s.notes[i] || n == s.notes[i].(state := Withdrawn)
    decreases actions
  {
    if actions != [] {
      var t := Exec(s, actions[0]);
      StepKeepsValid(s, h, actions[0]);
      StepEvolves(s, h, actions[0]);
      assert Advances(s.notes[i], t.notes[i]);
      if s.notes[i].state == Pending { StrandedStep(s, h, actions[0], i); }
      StrandedForGood(t, Since(h, s, actions[0]), actions[1..], i);
    }
  }

  /** A run that strands a reading: filed in a batch, awaiting review, the batch retired. */
  lemma RunThatStrands(s: State, r: Triple)
    requires s.notes == [] && s.queue == map[] && s.signals == map[] && s.retired == {} && LiveRelation(s.edges, r)
    requires r.source != "" && r.edge != "" && r.target != ""
    ensures var t := After(s, [Read(ReadingFiling("c", false, Some(r), "w", None, false, Some("b"), 0, 0)), Retire("b")]);
      |t.notes| == 1 && t.notes[0].state == Pending && 0 in t.queue && t.queue[0].status == Refused && Stranded(t, t.notes[0])
  {
    var read := Read(ReadingFiling("c", false, Some(r), "w", None, false, Some("b"), 0, 0));
    assert Trim("w") == "w" by { assert Claims.TrimLeft("w") == "w" && Claims.TrimRight("w") == "w"; }
    var t := Exec(s, read);
    assert t.notes == [Note(0, Reading, OnRelation(r), r.source, "c", "w", Pending, Some(0), s.clock / 1000)];
    assert After(s, [read, Retire("b")]) == Exec(t, Retire("b")) by {
      assert [read, Retire("b")][1..] == [Retire("b")] && After(t, [Retire("b")]) == After(Exec(t, Retire("b")), []);
    }
  }

  /** Clearing suggestions leaves the objections to them open, with no item; no verdict on it can come unless it is proposed anew. */
  lemma ClearingOrphansObjections(s: State, h: History, i: nat)
    requires Valid(s, h) && i < |s.notes| && s.notes[i].about.OnItem? && s.notes[i].state == Open
    requires s.notes[i].about.item in WaitingSuggestions(s.queue)
    ensures var t, item := Exec(s, Clear), s.notes[i].about.item;
      && t.notes == s.notes && item !in t.queue
      && forall approve, anchor, goesThrough :: Review(t, item, approve, anchor, goesThrough) == (Err(NotFound), t)
  {
    var item := s.notes[i].about.item;
    assert ItemFits(item, s.queue, h);
  }

  // ---- what a run cannot undo ----------------------------------------------------------------------

  predicate Reaches(from: NoteState, to: NoteState)
  {
    from == to || Allowed(from, to) || (from == Pending && to == Withdrawn)
  }

  /** The same note, as far along or further; a settled note stays as it was settled. */
  predicate Advances(n: Note, m: Note)
  {
    m == n.(state := m.state) && Reaches(n.state, m.state)
  }

  /** Words once kept private for good, and signals once out of use, stay so. */
  predicate SignalAdvances(g: Signal, h: Signal)
  {
    (h.status == Active ==> g.status == Active) && g.held - {InReview} <= h.held && h.batch == g.batch
  }

  ghost predicate Evolves(s: State, t: State)
  {
    && |s.notes| <= |t.notes|
    && (forall i :: 0 <= i < |s.notes| ==> Advances(s.notes[i], t.notes[i]))
    && (forall x :: x in s.signals ==> x in t.signals && SignalAdvances(s.signals[x], t.signals[x]))
  }

  lemma MovedEvolves(s: State, t: State, i: nat, to: NoteState)
    requires Moved(s, t, i, to)
    ensures Evolves(s, t)
  {
    forall x | x in s.signals ensures x in t.signals && SignalAdvances(s.signals[x], t.signals[x]) {
      if x != s.notes[i].signal { assert t.signals[x] == s.signals[x]; }
    }
  }

  lemma ReviewedEvolves(s: State, t: State, item: nat, approve: bool)
    requires Reviewed(s, t, item, approve)
    ensures Evolves(s, t)
  {
    forall i | 0 <= i < |s.notes| ensures Advances(s.notes[i], t.notes[i]) {
      assert Concerns(s.notes[i], item) || t.notes[i] == s.notes[i];
    }
  }

  lemma VerdictEvolves(s: State, h: History, id: nat, approve: bool, anchor: nat, goesThrough: bool)
    requires Valid(s, h)
    ensures Evolves(s, Review(s, id, approve, anchor, goesThrough).1)
  {
    var t := Review(s, id, approve, anchor, goesThrough).1;
    if Review(s, id, approve, anchor, goesThrough).0.Err? {
      RefusedVerdict(s, id, approve, anchor, goesThrough);
    } else if Proposed(s.queue[id].kind) {
      ReviewReviews(s, id, approve, anchor, goesThrough);
      ReviewedEvolves(s, t, id, approve);
    } else if s.queue[id].kind.NoteItem? {
      var i, to := VerdictMoves(s, id, approve, anchor, goesThrough);
      MovedEvolves(s, t, i, to);
    }
  }

  lemma OthersEvolve(s: State, a: Action)
    requires !a.File? && !a.Read? && !a.Withdraw? && !a.Verdict?
    ensures Evolves(s, Exec(s, a))
  {
  }

  lemma StepEvolves(s: State, h: History, a: Action)
    requires Valid(s, h)
    ensures Evolves(s, Exec(s, a))
  {
    match a
    case Withdraw(signal, contributor) =>
      if WithdrawNote(s, signal, contributor).0.Ok? {
        WithdrawMoves(s, signal, contributor);
        MovedEvolves(s, Exec(s, a), BySignal(s.notes, signal), Withdrawn);
      }
    case Verdict(id, approve, anchor, goesThrough) => VerdictEvolves(s, h, id, approve, anchor, goesThrough);
    case File(f) => FileEvolves(s, f);
    case Read(f) => ReadEvolves(s, f);
    case _ => OthersEvolve(s, a);
  }

  lemma FileEvolves(s: State, f: Filing)
    ensures Evolves(s, FileNote(s, f).1)
  {
    if FileNote(s, f).0.Ok? {
      var n, held, batch := FileIsFileable(s, f);
    }
  }

  lemma ReadEvolves(s: State, f: ReadingFiling)
    ensures Evolves(s, FileReading(s, f).1)
  {
    if FileReading(s, f).0.Ok? {
      var n, held, batch := ReadIsFileable(s, f);
    }
  }

  lemma EvolvesTransitive(s: State, t: State, u: State)
    requires Evolves(s, t) && Evolves(t, u)
    ensures Evolves(s, u)
  {
    forall i | 0 <= i < |s.notes| ensures Advances(s.notes[i], u.notes[i]) {
      assert Advances(s.notes[i], t.notes[i]) && Advances(t.notes[i], u.notes[i]);
    }
    forall x | x in s.signals ensures x in u.signals && SignalAdvances(s.signals[x], u.signals[x]) {
      assert SignalAdvances(s.signals[x], t.signals[x]) && SignalAdvances(t.signals[x], u.signals[x]);
    }
  }

  /** Notes only move forward through a run, and upheld, dismissed, rejected and withdrawn are final. */
  lemma {:induction false} RunEvolves(s: State, h: History, actions: seq<Action>)
    requires Valid(s, h)
    ensures Evolves(s, After(s, actions))
    ensures forall i :: 0 <= i < |s.notes| && !Standing(s.notes[i].state) ==> After(s, actions).notes[i] == s.notes[i]
    decreases actions
  {
    if actions != [] {
      var t := Exec(s, actions[0]);
      StepEvolves(s, h, actions[0]);
      StepKeepsValid(s, h, actions[0]);
      RunEvolves(t, Since(h, s, actions[0]), actions[1..]);
      EvolvesTransitive(s, t, After(s, actions));
    }
    forall i | 0 <= i < |s.notes| && !Standing(s.notes[i].state) ensures After(s, actions).notes[i] == s.notes[i] {
      assert Advances(s.notes[i], After(s, actions).notes[i]);
    }
  }

  /** A note that stops being public comes back only as a reading whose relation had ended and lives again. */
  lemma ReturnsOnlyWithItsRelation(s: State, h: History, first: seq<Action>, later: seq<Action>, i: nat, node: string)
    requires Valid(s, h) && i < |s.notes| && IsPublic(s, s.notes[i], node)
    ensures var t := After(s, first); var u := After(t, later);
      && i < |t.notes| && i < |u.notes|
      && (!IsPublic(t, t.notes[i], node) && IsPublic(u, u.notes[i], node) ==>
            && s.notes[i].kind == Reading
            && !LiveRelation(t.edges, s.notes[i].about.relation) && LiveRelation(u.edges, s.notes[i].about.relation))
  {
    var t := After(s, first);
    RunEvolves(s, h, first);
    RunKeepsValid(s, h, first);
    RunEvolves(t, HistoryOf(h, s, first), later);
    assert Advances(s.notes[i], t.notes[i]) && Advances(t.notes[i], After(t, later).notes[i]);
    assert StateFits(s.notes[i]) && s.notes[i].signal in s.signals;
  }

  /** Neither withdrawn nor revoked: what a reading that was public needs besides its relation. */
  predicate Stands(s: State, i: nat)
    requires i < |s.notes|
  {
    s.notes[i].state == Live && s.notes[i].signal in s.signals && s.signals[s.notes[i].signal].status == Active
  }

  /** A reading that was public is public later exactly when it still stands and its relation lives, also after times when it was not. */
  lemma ReadingReturns(s: State, h: History, first: seq<Action>, later: seq<Action>, i: nat, node: string)
    requires Valid(s, h) && i < |s.notes| && s.notes[i].kind == Reading && IsPublic(s, s.notes[i], node)
    ensures var t := After(s, first); var u := After(t, later);
      && i < |t.notes| && i < |u.notes|
      && (IsPublic(u, u.notes[i], node) <==> Stands(u, i) && LiveRelation(u.edges, s.notes[i].about.relation))
      && (Stands(u, i) ==> Stands(t, i))
  {
    var t := After(s, first);
    RunEvolves(s, h, first);
    RunKeepsValid(s, h, first);
    RunEvolves(t, HistoryOf(h, s, first), later);
    assert Advances(s.notes[i], t.notes[i]) && Advances(t.notes[i], After(t, later).notes[i]);
    assert s.notes[i].signal in s.signals && SignalAdvances(s.signals[s.notes[i].signal], t.signals[s.notes[i].signal]);
    assert SignalAdvances(t.signals[s.notes[i].signal], After(t, later).signals[s.notes[i].signal]);
  }

  /** A contest or context note that stops being public never is again. */
  lemma NeverPublicAgain(s: State, h: History, first: seq<Action>, later: seq<Action>, i: nat, node: string)
    requires Valid(s, h) && i < |s.notes| && s.notes[i].kind != Reading && IsPublic(s, s.notes[i], node)
    ensures var t := After(s, first); var u := After(t, later);
      i < |t.notes| && i < |u.notes| && (!IsPublic(t, t.notes[i], node) ==> !IsPublic(u, u.notes[i], node))
  {
    ReturnsOnlyWithItsRelation(s, h, first, later, i, node);
  }

  /** The words of a note taken back before it was published stay private for good. */
  lemma TakenBackStaysPrivate(s: State, h: History, signal: nat, contributor: string, actions: seq<Action>)
    requires Valid(s, h) && WithdrawNote(s, signal, contributor).0.Ok?
    ensures var i := BySignal(s.notes, signal); var t := After(WithdrawNote(s, signal, contributor).1, actions);
      s.notes[i].state == Pending ==> signal in t.signals && TakenBack in t.signals[signal].held
  {
    var i, t := BySignal(s.notes, signal), WithdrawNote(s, signal, contributor).1;
    BySignalMeaning(s.notes, signal);
    WithdrawMoves(s, signal, contributor);
    MovedIsValid(s, h, t, i, Withdrawn);
    RunEvolves(t, h, actions);
    assert SignalAdvances(t.signals[signal], After(t, actions).signals[signal]);
  }

  // ---- upholding a contest ------------------------------------------------------------------------

  ghost function LiveAmong(edges: seq<Edge>, r: Triple, n: nat): set<nat>
    requires n <= |edges|
  {
    set i: nat | i < n && edges[i].triple == r && edges[i].live
  }

  ghost function LiveRows(edges: seq<Edge>, r: Triple): set<nat>
  {
    LiveAmong(edges, r, |edges|)
  }

  lemma OneMoreLive(edges: seq<Edge>, r: Triple, n: nat)
    requires n < |edges|
    ensures |LiveAmong(edges, r, n + 1)| == |LiveAmong(edges, r, n)| + if edges[n].triple == r && edges[n].live then 1 else 0
  {
    assert LiveAmong(edges, r, n + 1) == LiveAmong(edges, r, n) + if edges[n].triple == r && edges[n].live then {n} else {};
  }

  lemma {:induction false} EndTripleCounts(edges: seq<Edge>, r: Triple, n: nat)
    requires n <= |edges|
    ensures EndTriple(edges[..n], r).1 == |LiveAmong(edges, r, n)|
  {
    if n > 0 {
      EndTripleCounts(edges, r, n - 1);
      OneMoreLive(edges, r, n - 1);
      assert edges[..n][..n - 1] == edges[..n - 1];
    }
  }

  lemma {:induction false} EndTripleRows(edges: seq<Edge>, r: Triple)
    ensures |EndTriple(edges, r).0| == |edges|
    ensures forall i :: 0 <= i < |edges| ==>
      EndTriple(edges, r).0[i] == if edges[i].triple == r then edges[i].(live := false) else edges[i]
  {
    if edges != [] { EndTripleRows(edges[..|edges| - 1], r); }
  }

  /** Every live row of the triple ends, every other row stays as it was, and the count is exact. */
  lemma EndTripleMeaning(edges: seq<Edge>, r: Triple)
    ensures var (after, count) := EndTriple(edges, r);
      && |after| == |edges| && count == |LiveRows(edges, r)|
      && forall i :: 0 <= i < |edges| ==> after[i] == if edges[i].triple == r then edges[i].(live := false) else edges[i]
  {
    EndTripleRows(edges, r);
    EndTripleCounts(edges, r, |edges|);
    assert edges[..|edges|] == edges;
  }

  lemma NoRowNoRelation(s: State, t: State, r: Triple, q: Triple)
    requires t.edges == EndTriple(s.edges, r).0
    ensures LiveRelation(t.edges, q) <==> q != r && LiveRelation(s.edges, q)
  {
    EndTripleMeaning(s.edges, r);
    if q != r && LiveRelation(s.edges, q) {
      var i :| 0 <= i < |s.edges| && s.edges[i].triple == q && s.edges[i].live && !s.edges[i].derived;
      assert t.edges[i] == s.edges[i];
    }
  }

  /** An upheld relation contest: the relation is gone, no other is touched, and no reading of it is public. */
  lemma UpholdEndsRelation(s: State, queue: nat, anchor: nat)
    requires NotesFit(s.notes, s.signals) && UpholdContest(s, queue, anchor).0.Ok?
    requires s.notes[ByQueue(s.notes, queue)].about.OnRelation?
    ensures var (done, t) := UpholdContest(s, queue, anchor);
      var i := ByQueue(s.notes, queue);
      var r := s.notes[i].about.relation;
      && t.notes[i].state == Upheld && done.value.edgesEnded == |LiveRows(s.edges, r)| && LiveRows(t.edges, r) == {}
      && |t.edges| == |s.edges| && (forall e :: 0 <= e < |s.edges| && s.edges[e].triple != r ==> t.edges[e] == s.edges[e])
      && (forall q :: LiveRelation(t.edges, q) <==> q != r && LiveRelation(s.edges, q))
      && (forall j, node :: 0 <= j < |t.notes| && t.notes[j].kind == Reading && t.notes[j].about == OnRelation(r) ==>
            !IsPublic(t, t.notes[j], node))
  {
    var i := ByQueue(s.notes, queue);
    var r, t := s.notes[i].about.relation, UpholdContest(s, queue, anchor).1;
    UpholdMoves(s, queue, anchor);
    assert t.edges == EndTriple(s.edges, r).0;
    EndTripleMeaning(s.edges, r);
    forall q ensures LiveRelation(t.edges, q) <==> q != r && LiveRelation(s.edges, q) { NoRowNoRelation(s, t, r, q); }
  }

  /** And it can: a reading hidden by an upheld contest of its relation is public again once the relation is asserted anew. */
  lemma ReadingReturnsAfterContest(s: State, h: History, queue: nat, anchor: nat, j: nat, node: string)
    requires Valid(s, h) && UpholdContest(s, queue, anchor).0.Ok? && j < |s.notes|
    requires s.notes[j].kind == Reading && s.notes[j].about == s.notes[ByQueue(s.notes, queue)].about && IsPublic(s, s.notes[j], node)
    ensures var t := UpholdContest(s, queue, anchor).1;
      var again := World(t.edges + [Edge(s.notes[j].about.relation, true, false)], t.metadata, t.priors, t.holders, t.retired, 0);
      && j < |t.notes| && !IsPublic(t, t.notes[j], node)
      && j < |Exec(t, again).notes| && IsPublic(Exec(t, again), Exec(t, again).notes[j], node)
  {
    var i, r := ByQueue(s.notes, queue), s.notes[j].about.relation;
    var t := UpholdContest(s, queue, anchor).1;
    UpholdMoves(s, queue, anchor);
    UpholdEndsRelation(s, queue, anchor);
    assert j != i && t.notes[j] == s.notes[j] && s.notes[j].signal in s.signals && s.notes[j].signal != s.notes[i].signal;
    assert t.signals[s.notes[j].signal] == s.signals[s.notes[j].signal];
    var edges := t.edges + [Edge(r, true, false)];
    assert edges[|t.edges|].triple == r && LiveRelation(edges, r);
  }

  function EdgesBecome(s: State, edges: seq<Edge>): Action
  {
    World(edges, s.metadata, s.priors, s.holders, s.retired, 0)
  }

  /** A run that brings a reading back: filed by a trusted contributor, its relation ended, its relation asserted anew. */
  lemma RunThatRevives(s: State, r: Triple)
    requires s.notes == [] && s.queue == map[] && s.signals == map[] && s.retired == {} && LiveRelation(s.edges, r)
    requires r.source != "" && r.edge != "" && r.target != ""
    ensures
      var t := Exec(s, Read(ReadingFiling("c", true, Some(r), "w", None, false, None, 0, 0)));
      var u := Exec(t, EdgesBecome(t, []));
      var v := Exec(u, EdgesBecome(u, s.edges));
      && t.notes == u.notes == v.notes && |t.notes| == 1
      && IsPublic(t, t.notes[0], r.source) && !IsPublic(u, u.notes[0], r.source) && IsPublic(v, v.notes[0], r.source)
  {
    assert Trim("w") == "w" by { assert Claims.TrimLeft("w") == "w" && Claims.TrimRight("w") == "w"; }
    var t := Exec(s, Read(ReadingFiling("c", true, Some(r), "w", None, false, None, 0, 0)));
    assert t.notes == [Note(0, Reading, OnRelation(r), r.source, "c", "w", Live, Some(0), s.clock / 1000)];
    assert t.signals[0].status == Active;
  }

  /** An upheld edit contest: the one key goes back to its before-image, when the edit recorded one. */
  lemma UpholdRestoresKey(s: State, queue: nat, anchor: nat, node: string, key: string)
    requires UpholdContest(s, queue, anchor).0.Ok? && s.notes[ByQueue(s.notes, queue)].about.OnEdit?
    ensures var (done, t) := UpholdContest(s, queue, anchor);
      var n := s.notes[ByQueue(s.notes, queue)];
      var image := BeforeImage(PriorsOf(s, n.about.edit), n.node, n.about.key);
      && t.edges == s.edges && done.value == Upholding(0, image.Some?)
      && KeyOf(t, node, key)
         == if image.Some? && node == n.node && key == n.about.key && node in s.metadata then image.value else KeyOf(s, node, key)
  {
  }

  /** Upholding records what it replaced: contesting it in turn, and winning, brings the key back. */
  lemma UpholdIsUndoable(s: State, queue: nat, anchor: nat, t: State, again: nat, other: nat)
    requires UpholdContest(s, queue, anchor).0 == Ok(Upholding(0, true))
    requires anchor !in s.priors && s.notes[ByQueue(s.notes, queue)].node in s.metadata
    requires var n, u := s.notes[ByQueue(s.notes, queue)], UpholdContest(s, queue, anchor).1;
      && t.priors == u.priors && t.metadata == u.metadata && UpholdContest(t, again, other).0.Ok?
      && n.about.OnEdit? && t.notes[ByQueue(t.notes, again)].about == OnEdit(n.about.key, anchor)
      && t.notes[ByQueue(t.notes, again)].node == n.node
    ensures var n := s.notes[ByQueue(s.notes, queue)];
      KeyOf(UpholdContest(t, again, other).1, n.node, n.about.key) == KeyOf(s, n.node, n.about.key)
  {
    var n := s.notes[ByQueue(s.notes, queue)];
    UpholdRestoresKey(s, queue, anchor, n.node, n.about.key);
    UpholdRestoresKey(t, again, other, n.node, n.about.key);
    assert PriorsOf(t, anchor) == [Prior(n.node, map[n.about.key := KeyOf(s, n.node, n.about.key)])];
    assert BeforeImage(PriorsOf(t, anchor), n.node, n.about.key) == Some(KeyOf(s, n.node, n.about.key));
  }

  // ---- objections -------------------------------------------------------------------------------------

  ghost predicate HasOpenObjection(s: State, item: nat)
  {
    exists i :: 0 <= i < |s.notes| && Concerns(s.notes[i], item)
  }

  /** A verdict leaves an objection to its item open exactly when the item is a claim or a note, not a contribution. */
  lemma VerdictSettlesObjections(s: State, h: History, id: nat, approve: bool, anchor: nat, goesThrough: bool)
    requires Valid(s, h) && Review(s, id, approve, anchor, goesThrough).0.Ok?
    ensures var t := Review(s, id, approve, anchor, goesThrough).1;
      HasOpenObjection(t, id) <==> HasOpenObjection(s, id) && !Proposed(s.queue[id].kind)
  {
    var t := Review(s, id, approve, anchor, goesThrough).1;
    if Proposed(s.queue[id].kind) {
      ReviewReviews(s, id, approve, anchor, goesThrough);
    } else if s.queue[id].kind.NoteItem? {
      var i, to := VerdictMoves(s, id, approve, anchor, goesThrough);
      assert RowAgrees(s.notes[i], s.queue, h) && StateFits(s.notes[i]);
      if j :| 0 <= j < |s.notes| && Concerns(s.notes[j], id) { assert t.notes[j] == s.notes[j]; }
      if j :| 0 <= j < |t.notes| && Concerns(t.notes[j], id) { assert t.notes[j] == s.notes[j]; }
    }
  }
}
