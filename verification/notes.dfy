/** src/claim/notes.ts: what claimants and readers say about relations and edits, and how it is settled. */
module Notes {
  import opened Optional
  import Claims

  datatype Kind = Contest | Context | Objection | Reading

  datatype NoteState = Open | Pending | Live | Upheld | Dismissed | Rejected | Withdrawn

  datatype Triple = Triple(source: string, edge: string, target: string)

  /** What a note is about: a relation, a metadata edit, or a pending queue item. */
  datatype Subject = OnRelation(relation: Triple) | OnEdit(key: string, edit: nat) | OnItem(item: nat)

  /** A row of relation_notes; `signal` is its primary key, `at` its created_at in seconds. */
  datatype Note = Note(
    signal: nat, kind: Kind, about: Subject, node: string, contributor: string, words: string,
    state: NoteState, queue: Option<nat>, at: int)

  /** A suggestion is a contribution the derive pass proposes. */
  datatype ItemKind = NoteItem(kind: Kind) | ClaimItem | Contribution | Suggestion

  datatype ItemStatus = Waiting | Accepted | Refused

  /**
   * An intake_queue row; `touches` are the nodes its proposal names. A waiting claim has no signal; a suggestion has
   * derive's own, which carries no batch, written None here.
   */
  datatype Item = Item(kind: ItemKind, status: ItemStatus, signal: Option<nat>, touches: set<string>)

  datatype SignalStatus = Active | Superseded | Revoked

  /** Why a signal's words are kept private (signal_private.reasons). */
  datatype Reason = InReview | ForCurator | TurnedDown | TakenBack | WasRevoked | StructuralOnly

  datatype Signal = Signal(status: SignalStatus, held: set<Reason>, batch: Option<string>)

  datatype Edge = Edge(triple: Triple, live: bool, derived: bool)

  /** One before-image: the values the named keys of a node had. */
  datatype Prior = Prior(node: string, before: map<string, Option<string>>)

  /** `clock` is Date.now(); `holders` are the (contributor, node) pairs with an approved claim. */
  datatype State = State(
    clock: nat, notes: seq<Note>, queue: map<nat, Item>, signals: map<nat, Signal>, edges: seq<Edge>,
    metadata: map<string, map<string, string>>, priors: map<nat, seq<Prior>>,
    holders: set<(string, string)>, retired: set<string>)

  datatype Error =
    | NoteRequired | NoteTooLong | NotClaimant | QueueIdRequired | NotPending | NotAboutYou | BadKind | EditRequired
    | RelationRequired | RelationNotLive | AlreadyContested | AlreadyRead | TooManyReadings | NoteNotFound | NotYourNote
    | NoteSettled | ContestNotFound | ContestSettled | ContextNotFound | ContextSettled | NotFound | IdTaken | BadSource | NotCarriedOut

  datatype Result<T> = Ok(value: T) | Err(error: Error)

  const NOTE_MAX := 2000
  const SOURCE_MAX := 2000
  const READINGS_PER_MINUTE := 5
  const READINGS_PER_DAY := 30
  const MINUTE := 60
  const DAY := 86400

  // ---- reading the tables ---------------------------------------------------------------

  function Trim(raw: string): string
  {
    Claims.TrimRight(Claims.TrimLeft(raw))
  }

  /** liveRelation: derived rows do not count. */
  predicate LiveRelation(edges: seq<Edge>, r: Triple)
  {
    exists i :: 0 <= i < |edges| && edges[i].triple == r && edges[i].live && !edges[i].derived
  }

  predicate Standing(st: NoteState)
  {
    st == Open || st == Pending || st == Live
  }

  /** The first row that is this note, or the number of rows. */
  function BySignal(notes: seq<Note>, signal: nat): (i: nat)
    ensures i <= |notes|
  {
    if notes == [] then 0 else if notes[0].signal == signal then 0 else 1 + BySignal(notes[1..], signal)
  }

  function ByQueue(notes: seq<Note>, queue: nat): (i: nat)
    ensures i <= |notes|
  {
    if notes == [] then 0 else if notes[0].queue == Some(queue) then 0 else 1 + ByQueue(notes[1..], queue)
  }

  predicate SameContest(n: Note, contributor: string, r: Triple)
  {
    n.kind == Contest && n.contributor == contributor && n.about == OnRelation(r) && Standing(n.state)
  }

  predicate SameReading(n: Note, contributor: string, r: Triple, words: string)
  {
    && n.kind == Reading && n.contributor == contributor && n.about == OnRelation(r) && n.words == words
    && (n.state == Pending || n.state == Live)
  }

  /** Readings this contributor filed with a stamp from `from` to `to`. */
  function ReadingsIn(notes: seq<Note>, contributor: string, from: int, to: int): nat
  {
    if notes == [] then 0
    else
      var last := notes[|notes| - 1];
      ReadingsIn(notes[..|notes| - 1], contributor, from, to)
      + if last.kind == Reading && last.contributor == contributor && from <= last.at <= to then 1 else 0
  }

  // ---- filing -------------------------------------------------------------------------------

  type FiledKind = k: Kind | k != Reading witness Contest

  datatype Edit = Edit(key: string, signal: Option<nat>)

  /** `auto` is isAutoMerge of the contributor's trust tier; the two ids are the random ones. */
  datatype Filing = Filing(
    contributor: string, auto: bool, kind: FiledKind, node: string, note: string,
    relation: Option<Triple>, edit: Option<Edit>, item: Option<nat>, signal: nat, queue: nat)

  function SubjectOf(s: State, f: Filing): Result<Subject>
  {
    if f.kind == Objection then
      if f.item.None? then Err(QueueIdRequired)
      else if f.item.value !in s.queue || s.queue[f.item.value].status != Waiting then Err(NotPending)
      else if f.node !in s.queue[f.item.value].touches then Err(NotAboutYou)
      else Ok(OnItem(f.item.value))
    else if f.edit.Some? then
      if f.kind != Contest then Err(BadKind)
      else if f.edit.value.key == "" || f.edit.value.signal.None? then Err(EditRequired)
      else Ok(OnEdit(f.edit.value.key, f.edit.value.signal.value))
    else if f.relation.None? || f.relation.value.source == "" || f.relation.value.edge == "" || f.relation.value.target == "" then
      Err(RelationRequired)
    else
      var r := f.relation.value;
      if r.source != f.node && r.target != f.node then Err(NotAboutYou)
      else if !LiveRelation(s.edges, r) then Err(RelationNotLive)
      else if f.kind == Contest && exists n :: n in s.notes && SameContest(n, f.contributor, r) then Err(AlreadyContested)
      else Ok(OnRelation(r))
  }

  function Ends(about: Subject): set<string>
  {
    if about.OnRelation? then {about.relation.source, about.relation.target} else {}
  }

  function FirstState(kind: Kind, auto: bool): NoteState
  {
    if kind == Context || kind == Reading then (if auto then Live else Pending) else Open
  }

  function HeldAtFirst(kind: Kind, auto: bool): set<Reason>
  {
    if kind == Objection then {ForCurator} else if FirstState(kind, auto) == Pending then {InReview} else {}
  }

  /** The transaction both filings end in: signal, queue row and note, or nothing when an id is taken. */
  function Record(s: State, n: Note, held: set<Reason>, batch: Option<string>): (Result<Note>, State)
  {
    if n.signal in s.signals || (n.queue.Some? && n.queue.value in s.queue) then (Err(IdTaken), s)
    else
      var status := if n.state == Live then Accepted else Waiting;
      (Ok(n),
       s.(signals := s.signals[n.signal := Signal(Active, held, batch)],
          queue :=
            if n.queue.None? then s.queue
            else s.queue[n.queue.value := Item(NoteItem(n.kind), status, Some(n.signal), {n.node} + Ends(n.about))],
          notes := s.notes + [n]))
  }

  function FileNote(s: State, f: Filing): (Result<Note>, State)
  {
    var words := Trim(f.note);
    if words == "" then (Err(NoteRequired), s)
    else if |words| > NOTE_MAX then (Err(NoteTooLong), s)
    else if (f.contributor, f.node) !in s.holders then (Err(NotClaimant), s)
    else
      var about := SubjectOf(s, f);
      if about.Err? then (Err(about.error), s)
      else
        var queue := if f.kind == Objection then None else Some(f.queue);
        var n := Note(f.signal, f.kind, about.value, f.node, f.contributor, words, FirstState(f.kind, f.auto), queue, s.clock / 1000);
        Record(s, n, HeldAtFirst(f.kind, f.auto), None)
  }

  datatype ReadingFiling = ReadingFiling(
    contributor: string, auto: bool, relation: Option<Triple>, note: string, source: Option<string>, structuralOnly: bool,
    batch: Option<string>, signal: nat, queue: nat)

  /** A web address, in any letter case: /^https?:\/\//i */
  predicate IsWebAddress(url: string)
  {
    var plain := seq(|url|, i requires 0 <= i < |url| => Claims.LowerChar(url[i]));
    "http://" <= plain || "https://" <= plain
  }

  /** No source, or a web address of at most 2000 characters once trimmed. */
  predicate SourceAllowed(source: Option<string>)
  {
    source.None? || source.value == "" || (IsWebAddress(Trim(source.value)) && |Trim(source.value)| <= SOURCE_MAX)
  }

  function FileReading(s: State, f: ReadingFiling): (Result<Note>, State)
  {
    var words, now := Trim(f.note), s.clock / 1000;
    if words == "" then (Err(NoteRequired), s)
    else if |words| > NOTE_MAX then (Err(NoteTooLong), s)
    else if f.relation.None? || f.relation.value.source == "" || f.relation.value.edge == "" || f.relation.value.target == "" then
      (Err(RelationRequired), s)
    else
      var r := f.relation.value;
      if !LiveRelation(s.edges, r) || r.source in s.retired || r.target in s.retired then (Err(RelationNotLive), s)
      else if !SourceAllowed(f.source) then (Err(BadSource), s)
      else if exists n :: n in s.notes && SameReading(n, f.contributor, r, words) then (Err(AlreadyRead), s)
      else if QuotaReached(s.notes, f.contributor, now) then (Err(TooManyReadings), s)
      else
        var n := Note(f.signal, Reading, OnRelation(r), r.source, f.contributor, words, FirstState(Reading, f.auto), Some(f.queue), now);
        Record(s, n, HeldAtFirst(Reading, f.auto) + if f.structuralOnly then {StructuralOnly} else {}, f.batch)
  }

  /** readingQuota; no stamp is later than now. */
  predicate QuotaReached(notes: seq<Note>, contributor: string, now: int)
  {
    || ReadingsIn(notes, contributor, now - MINUTE, now) >= READINGS_PER_MINUTE
    || ReadingsIn(notes, contributor, now - DAY, now) >= READINGS_PER_DAY
  }

  // ---- settling ---------------------------------------------------------------------------

  /** UPDATE intake_queue ... WHERE id = ? AND status = 'pending' */
  function SettleItem(queue: map<nat, Item>, id: Option<nat>, status: ItemStatus): map<nat, Item>
  {
    if id.Some? && id.value in queue && queue[id.value].status == Waiting
    then queue[id.value := queue[id.value].(status := status)]
    else queue
  }

  function Drop(signals: map<nat, Signal>, id: nat, sparesRevoked: bool): map<nat, Signal>
  {
    if id in signals && !(sparesRevoked && signals[id].status == Revoked)
    then signals[id := signals[id].(status := Superseded)]
    else signals
  }

  /** withholdSignal */
  function Withhold(signals: map<nat, Signal>, id: nat, reason: Reason): map<nat, Signal>
  {
    if id in signals then signals[id := signals[id].(held := signals[id].held + {reason})] else signals
  }

  /** publishSignal */
  function Publish(signals: map<nat, Signal>, id: nat, reason: Reason): map<nat, Signal>
  {
    if id in signals then signals[id := signals[id].(held := signals[id].held - {reason})] else signals
  }

  function SetState(s: State, i: nat, st: NoteState): State
    requires i < |s.notes|
  {
    s.(notes := s.notes[i := s.notes[i].(state := st)])
  }

  function WithdrawNote(s: State, signal: nat, contributor: string): (Result<Note>, State)
  {
    var i := BySignal(s.notes, signal);
    if i == |s.notes| then (Err(NoteNotFound), s)
    else
      var n := s.notes[i];
      if n.contributor != contributor then (Err(NotYourNote), s)
      else if !Standing(n.state) then (Err(NoteSettled), s)
      else
        var dropped := Drop(s.signals, signal, true);
        (Ok(n.(state := Withdrawn)),
         SetState(s, i, Withdrawn).(
           signals := if n.state == Pending then Withhold(dropped, signal, TakenBack) else dropped,
           queue := SettleItem(s.queue, n.queue, Refused)))
  }

  /** settle */
  function Settle(s: State, i: nat, st: NoteState): State
    requires i < |s.notes|
  {
    var n := s.notes[i];
    SetState(s, i, st).(
      queue := SettleItem(s.queue, n.queue, if st == Upheld || st == Live then Accepted else Refused),
      signals :=
        if st == Live then Publish(s.signals, n.signal, InReview)
        else if st == Rejected then Withhold(Drop(s.signals, n.signal, false), n.signal, TurnedDown)
        else s.signals)
  }

  /** UPDATE edges SET valid_until = now WHERE the triple matches AND valid_until IS NULL; derived rows too. */
  function EndTriple(edges: seq<Edge>, r: Triple): (seq<Edge>, nat)
  {
    if edges == [] then ([], 0)
    else
      var (front, count) := EndTriple(edges[..|edges| - 1], r);
      var e := edges[|edges| - 1];
      if e.triple == r && e.live then (front + [e.(live := false)], count + 1) else (front + [e], count)
  }

  /** The first before-image the edit recorded of this key of this node. */
  function BeforeImage(priors: seq<Prior>, node: string, key: string): Option<Option<string>>
  {
    if priors == [] then None
    else if priors[0].node == node && key in priors[0].before then Some(priors[0].before[key])
    else BeforeImage(priors[1..], node, key)
  }

  function PriorsOf(s: State, signal: nat): seq<Prior>
  {
    if signal in s.priors then s.priors[signal] else []
  }

  function KeyOf(s: State, node: string, key: string): Option<string>
  {
    if node in s.metadata && key in s.metadata[node] then Some(s.metadata[node][key]) else None
  }

  function WithKey(metadata: map<string, map<string, string>>, node: string, key: string, value: Option<string>): map<string, map<string, string>>
  {
    if node !in metadata then metadata
    else metadata[node := if value.Some? then metadata[node][key := value.value] else metadata[node] - {key}]
  }

  datatype Upholding = Upholding(edgesEnded: nat, restored: bool)

  /** What upholding does besides settling the note; `anchor` is the admin signal, new before this runs. */
  function Redress(s: State, n: Note, anchor: nat): (Upholding, State)
  {
    match n.about
    case OnRelation(r) => (Upholding(EndTriple(s.edges, r).1, false), s.(edges := EndTriple(s.edges, r).0))
    case OnEdit(key, edit) =>
      var image := BeforeImage(PriorsOf(s, edit), n.node, key);
      if image.None? then (Upholding(0, false), s)
      else
        (Upholding(0, true),
         s.(priors := s.priors[anchor := PriorsOf(s, anchor) + [Prior(n.node, map[key := KeyOf(s, n.node, key)])]],
            metadata := WithKey(s.metadata, n.node, key, image.value)))
    case OnItem(item) => (Upholding(0, false), s)
  }

  function UpholdContest(s: State, queue: nat, anchor: nat): (Result<Upholding>, State)
  {
    var i := ByQueue(s.notes, queue);
    if i == |s.notes| || s.notes[i].kind != Contest then (Err(ContestNotFound), s)
    else if s.notes[i].state != Open then (Err(ContestSettled), s)
    else if anchor in s.signals then (Err(IdTaken), s)
    else
      var (done, t) := Redress(s.(signals := s.signals[anchor := Signal(Active, {}, None)]), s.notes[i], anchor);
      (Ok(done), Settle(t, i, Upheld))
  }

  function DismissContest(s: State, queue: nat): (Result<nat>, State)
  {
    var i := ByQueue(s.notes, queue);
    if i == |s.notes| || s.notes[i].kind != Contest then (Err(ContestNotFound), s)
    else if s.notes[i].state != Open then (Err(ContestSettled), s)
    else (Ok(queue), Settle(s, i, Dismissed))
  }

  predicate Gated(k: Kind)
  {
    k == Context || k == Reading
  }

  function ApproveContext(s: State, queue: nat): (Result<nat>, State)
  {
    var i := ByQueue(s.notes, queue);
    if i == |s.notes| || !Gated(s.notes[i].kind) then (Err(ContextNotFound), s)
    else if s.notes[i].state != Pending then (Err(ContextSettled), s)
    else (Ok(queue), Settle(s, i, Live))
  }

  function RejectContext(s: State, queue: nat): (Result<nat>, State)
  {
    var i := ByQueue(s.notes, queue);
    if i == |s.notes| || !Gated(s.notes[i].kind) then (Err(ContextNotFound), s)
    else if s.notes[i].state != Pending then (Err(ContextSettled), s)
    else (Ok(queue), Settle(s, i, Rejected))
  }

  /** UPDATE relation_notes SET state = ... WHERE queue_ref = ? AND kind = 'objection' AND state = 'open' */
  function SettleObjections(notes: seq<Note>, item: nat, approved: bool): (r: seq<Note>)
    ensures |r| == |notes|
  {
    if notes == [] then []
    else
      var n := notes[|notes| - 1];
      SettleObjections(notes[..|notes| - 1], item, approved)
      + [if n.about == OnItem(item) && n.kind == Objection && n.state == Open
         then n.(state := if approved then Dismissed else Upheld) else n]
  }

  /**
   * src/utils/review.ts: a curator's verdict on a queue row. Only the last branch settles objections.
   * `goesThrough` says whether the code behind a claim or a contribution carries the verdict out; otherwise it rolls back.
   */
  function Review(s: State, id: nat, approve: bool, anchor: nat, goesThrough: bool): (Result<nat>, State)
  {
    if id !in s.queue || s.queue[id].status != Waiting then (Err(NotFound), s)
    else
      match s.queue[id].kind
      case NoteItem(Contest) =>
        if approve then
          var (done, t) := UpholdContest(s, id, anchor);
          (if done.Ok? then Ok(id) else Err(done.error), t)
        else DismissContest(s, id)
      case NoteItem(Objection) => (Err(NotFound), s)
      case NoteItem(_) => if approve then ApproveContext(s, id) else RejectContext(s, id)
      case ClaimItem =>
        if !goesThrough then (Err(NotCarriedOut), s)
        else (Ok(id), s.(queue := s.queue[id := s.queue[id].(status := if approve then Accepted else Refused)]))
      case _ =>
        if !goesThrough then (Err(NotCarriedOut), s)
        else
          (Ok(id),
           s.(queue := s.queue[id := s.queue[id].(status := if approve then Accepted else Refused)],
              notes := SettleObjections(s.notes, id, approve)))
  }

  // ---- the public predicate -------------------------------------------------------------------

  predicate Touches(n: Note, node: string)
  {
    || (n.about.OnRelation? && (n.about.relation.source == node || n.about.relation.target == node))
    || (n.about.OnEdit? && n.node == node)
  }

  /** A note whose signal row is missing counts as active. */
  predicate SignalActive(s: State, n: Note)
  {
    n.signal in s.signals ==> s.signals[n.signal].status == Active
  }

  /** PUBLIC_NOTES_FROM */
  predicate IsPublic(s: State, n: Note, node: string)
  {
    && (|| (n.kind == Contest && n.state == Open)
        || (n.kind == Context && n.state == Live)
        || (n.kind == Reading && n.state == Live && n.about.OnRelation? && LiveRelation(s.edges, n.about.relation)))
    && Touches(n, node)
    && SignalActive(s, n)
  }
}
