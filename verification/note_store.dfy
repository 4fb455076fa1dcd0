/** src/claim/notes.ts as it runs: each step updates relation_notes, intake_queue, signals and edges in turn. */
module NoteStore {
  import opened Optional
  import opened Notes

  class Store {
    var clock: nat
    var notes: seq<Note>
    var queue: map<nat, Item>
    var signals: map<nat, Signal>
    var edges: seq<Edge>
    var metadata: map<string, map<string, string>>
    var priors: map<nat, seq<Prior>>
    var holders: set<(string, string)>
    var retired: set<string>

    constructor ()
      ensures View() == State(0, [], map[], map[], [], map[], map[], {}, {})
    {
      clock, notes, queue, signals, edges := 0, [], map[], map[], [];
      metadata, priors, holders, retired := map[], map[], {}, {};
    }

    function View(): State
      reads this
    {
      State(clock, notes, queue, signals, edges, metadata, priors, holders, retired)
    }

    method Rollback(begun: State)
      requires begun == View().(notes := begun.notes, queue := begun.queue, signals := begun.signals)
      modifies this`notes, this`queue, this`signals
      ensures View() == begun
    {
      notes, queue, signals := begun.notes, begun.queue, begun.signals;
    }

    /** The three inserts of a filing, in one transaction. */
    method RecordNote(n: Note, held: set<Reason>, batch: Option<string>) returns (result: Result<Note>)
      modifies this`notes, this`queue, this`signals
      ensures (result, View()) == Record(old(View()), n, held, batch)
    {
      var begun := View();
      if n.signal in signals { return Err(IdTaken); }
      signals := signals[n.signal := Signal(Active, held, batch)];
      if n.queue.Some? {
        if n.queue.value in queue {
          Rollback(begun);
          return Err(IdTaken);
        }
        var status := if n.state == Live then Accepted else Waiting;
        queue := queue[n.queue.value := Item(NoteItem(n.kind), status, Some(n.signal), {n.node} + Ends(n.about))];
      }
      notes := notes + [n];
      result := Ok(n);
    }

    method FileNote(f: Filing) returns (result: Result<Note>)
      modifies this
      ensures (result, View()) == Notes.FileNote(old(View()), f)
      ensures result.Ok? ==> result.value.state == if f.kind != Context then Open else if f.auto then Live else NoteState.Pending
    {
      var words := Trim(f.note);
      if words == "" { return Err(NoteRequired); }
      if |words| > NOTE_MAX { return Err(NoteTooLong); }
      if (f.contributor, f.node) !in holders { return Err(NotClaimant); }
      var about := Concerned(f);
      if about.Err? { return Err(about.error); }
      var own := if f.kind == Objection then None else Some(f.queue);
      var n := Note(f.signal, f.kind, about.value, f.node, f.contributor, words, FirstState(f.kind, f.auto), own, clock / 1000);
      result := RecordNote(n, HeldAtFirst(f.kind, f.auto), None);
    }

    method Concerned(f: Filing) returns (about: Result<Subject>)
      ensures about == SubjectOf(View(), f)
    {
      if f.kind == Objection {
        if f.item.None? { return Err(QueueIdRequired); }
        var id := f.item.value;
        if id !in queue || queue[id].status != Waiting { return Err(NotPending); }
        if f.node !in queue[id].touches { return Err(NotAboutYou); }
        return Ok(OnItem(id));
      }
      if f.edit.Some? {
        if f.kind != Contest { return Err(BadKind); }
        if f.edit.value.key == "" || f.edit.value.signal.None? { return Err(EditRequired); }
        return Ok(OnEdit(f.edit.value.key, f.edit.value.signal.value));
      }
      if f.relation.None? || f.relation.value.source == "" || f.relation.value.edge == "" || f.relation.value.target == "" {
        return Err(RelationRequired);
      }
      var r := f.relation.value;
      if r.source != f.node && r.target != f.node { return Err(NotAboutYou); }
      if !LiveRelation(edges, r) { return Err(RelationNotLive); }
      if f.kind == Contest && exists n :: n in notes && SameContest(n, f.contributor, r) { return Err(AlreadyContested); }
      about := Ok(OnRelation(r));
    }

    method FileReading(f: ReadingFiling) returns (result: Result<Note>)
      modifies this
      ensures (result, View()) == Notes.FileReading(old(View()), f)
      ensures result.Ok? ==> result.value.state == if f.auto then Live else NoteState.Pending
    {
      var words, now := Trim(f.note), clock / 1000;
      if words == "" { return Err(NoteRequired); }
      if |words| > NOTE_MAX { return Err(NoteTooLong); }
      if f.relation.None? || f.relation.value.source == "" || f.relation.value.edge == "" || f.relation.value.target == "" {
        return Err(RelationRequired);
      }
      var r := f.relation.value;
      if !LiveRelation(edges, r) { return Err(RelationNotLive); }
      if r.source in retired || r.target in retired { return Err(RelationNotLive); }
      if !SourceAllowed(f.source) { return Err(BadSource); }
      if exists n :: n in notes && SameReading(n, f.contributor, r, words) { return Err(AlreadyRead); }
      var lastMinute := CountReadings(f.contributor, now - MINUTE, now);
      if lastMinute >= READINGS_PER_MINUTE { return Err(TooManyReadings); }
      var lastDay := CountReadings(f.contributor, now - DAY, now);
      if lastDay >= READINGS_PER_DAY { return Err(TooManyReadings); }
      var n := Note(f.signal, Reading, OnRelation(r), r.source, f.contributor, words, FirstState(Reading, f.auto), Some(f.queue), now);
      result := RecordNote(n, HeldAtFirst(Reading, f.auto) + if f.structuralOnly then {StructuralOnly} else {}, f.batch);
    }

    method CountReadings(contributor: string, from: int, to: int) returns (count: nat)
      ensures count == ReadingsIn(notes, contributor, from, to)
    {
      count := 0;
      for i := 0 to |notes|
        invariant count == ReadingsIn(notes[..i], contributor, from, to)
      {
        assert notes[..i + 1][..i] == notes[..i];
        if notes[i].kind == Reading && notes[i].contributor == contributor && from <= notes[i].at <= to { count := count + 1; }
      }
      assert notes[..|notes|] == notes;
    }

    method SettleOwnItem(id: Option<nat>, status: ItemStatus)
      modifies this`queue
      ensures queue == SettleItem(old(queue), id, status)
    {
      if id.Some? && id.value in queue && queue[id.value].status == Waiting {
        queue := queue[id.value := queue[id.value].(status := status)];
      }
    }

    method WithdrawNote(signal: nat, contributor: string) returns (result: Result<Note>)
      modifies this`notes, this`queue, this`signals
      ensures (result, View()) == Notes.WithdrawNote(old(View()), signal, contributor)
    {
      var i := BySignal(notes, signal);
      if i == |notes| { return Err(NoteNotFound); }
      var n := notes[i];
      if n.contributor != contributor { return Err(NotYourNote); }
      if n.state != Open && n.state != Pending && n.state != Live { return Err(NoteSettled); }
      notes := notes[i := n.(state := Withdrawn)];
      if signal in signals && signals[signal].status != Revoked {
        signals := signals[signal := signals[signal].(status := Superseded)];
      }
      SettleOwnItem(n.queue, Refused);
      if n.state == Pending && signal in signals {
        signals := signals[signal := signals[signal].(held := signals[signal].held + {TakenBack})];
      }
      result := Ok(notes[i]);
    }

    /** settle */
    method SettleNote(i: nat, st: NoteState)
      requires i < |notes|
      modifies this`notes, this`queue, this`signals
      ensures View() == Settle(old(View()), i, st)
    {
      var n := notes[i];
      notes := notes[i := n.(state := st)];
      SettleOwnItem(n.queue, if st == Upheld || st == Live then Accepted else Refused);
      if st == Live { signals := Publish(signals, n.signal, InReview); }
      if st == Rejected {
        if n.signal in signals { signals := signals[n.signal := signals[n.signal].(status := Superseded)]; }
        signals := Withhold(signals, n.signal, TurnedDown);
      }
    }

    /** One UPDATE over the live rows of the triple; returns how many it changed. */
    method EndRelation(r: Triple) returns (changes: nat)
      modifies this`edges
      ensures (edges, changes) == EndTriple(old(edges), r)
    {
      changes := 0;
      ghost var was := edges;
      for i := 0 to |edges|
        invariant |edges| == |was| && edges[i..] == was[i..]
        invariant (edges[..i], changes) == EndTriple(was[..i], r)
      {
        assert was[..i + 1][..i] == was[..i] && edges[i] == edges[i..][0] == was[i..][0];
        ghost var before := edges[..i];
        if edges[i].triple == r && edges[i].live {
          edges := edges[i := edges[i].(live := false)];
          changes := changes + 1;
        }
        assert edges[..i] == before && edges[..i + 1] == before + [edges[i]];
      }
      assert edges[..|edges|] == edges && was[..|was|] == was;
    }

    method UpholdContest(id: nat, anchor: nat) returns (result: Result<Upholding>)
      modifies this
      ensures (result, View()) == Notes.UpholdContest(old(View()), id, anchor)
    {
      var i := ByQueue(notes, id);
      if i == |notes| || notes[i].kind != Contest { return Err(ContestNotFound); }
      var n := notes[i];
      if n.state != Open { return Err(ContestSettled); }
      if anchor in signals { return Err(IdTaken); }
      signals := signals[anchor := Signal(Active, {}, None)];
      var ended, restored := 0, false;
      if n.about.OnRelation? {
        ended := EndRelation(n.about.relation);
      } else if n.about.OnEdit? {
        restored := RestoreKey(n.node, n.about.key, n.about.edit, anchor);
      }
      SettleNote(i, Upheld);
      result := Ok(Upholding(ended, restored));
    }

    method RestoreKey(node: string, key: string, edit: nat, anchor: nat) returns (restored: bool)
      modifies this`priors, this`metadata
      ensures var image := BeforeImage(PriorsOf(old(View()), edit), node, key);
        && restored == image.Some?
        && priors == (if restored
                      then old(priors)[anchor := PriorsOf(old(View()), anchor) + [Prior(node, map[key := KeyOf(old(View()), node, key)])]]
                      else old(priors))
        && metadata == (if restored then WithKey(old(metadata), node, key, image.value) else old(metadata))
    {
      var image := BeforeImage(PriorsOf(View(), edit), node, key);
      if image.None? { return false; }
      priors := priors[anchor := PriorsOf(View(), anchor) + [Prior(node, map[key := KeyOf(View(), node, key)])]];
      if node in metadata {
        var base := metadata[node];
        base := if image.value.None? then base - {key} else base[key := image.value.value];
        metadata := metadata[node := base];
      }
      restored := true;
    }

    method DismissContest(id: nat) returns (result: Result<nat>)
      modifies this`notes, this`queue, this`signals
      ensures (result, View()) == Notes.DismissContest(old(View()), id)
    {
      var i := ByQueue(notes, id);
      if i == |notes| || notes[i].kind != Contest { return Err(ContestNotFound); }
      if notes[i].state != Open { return Err(ContestSettled); }
      SettleNote(i, Dismissed);
      result := Ok(id);
    }

    method ApproveContext(id: nat) returns (result: Result<nat>)
      modifies this`notes, this`queue, this`signals
      ensures (result, View()) == Notes.ApproveContext(old(View()), id)
    {
      var i := ByQueue(notes, id);
      if i == |notes| || !Gated(notes[i].kind) { return Err(ContextNotFound); }
      if notes[i].state != Pending { return Err(ContextSettled); }
      SettleNote(i, Live);
      result := Ok(id);
    }

    method RejectContext(id: nat) returns (result: Result<nat>)
      modifies this`notes, this`queue, this`signals
      ensures (result, View()) == Notes.RejectContext(old(View()), id)
    {
      var i := ByQueue(notes, id);
      if i == |notes| || !Gated(notes[i].kind) { return Err(ContextNotFound); }
      if notes[i].state != Pending { return Err(ContextSettled); }
      SettleNote(i, Rejected);
      result := Ok(id);
    }

    method SettleItemObjections(item: nat, approved: bool)
      modifies this`notes
      ensures notes == SettleObjections(old(notes), item, approved)
    {
      ghost var was := notes;
      for i := 0 to |notes|
        invariant |notes| == |was| && notes[i..] == was[i..]
        invariant notes[..i] == SettleObjections(was[..i], item, approved)
      {
        assert notes[i] == was[i] by { assert notes[i..][0] == was[i..][0]; }
        var n := notes[i];
        if n.about == OnItem(item) && n.kind == Objection && n.state == Open {
          n := n.(state := if approved then Dismissed else Upheld);
        }
        SettleStep(was, i, item, approved, n);
        UpdatedPrefix(notes, i, n);
        notes := notes[i := n];
      }
      assert notes[..|notes|] == notes && was[..|was|] == was;
    }

    /** approveIntakeItem and rejectIntakeItem, as far as they touch notes. */
    method Review(id: nat, approve: bool, anchor: nat, goesThrough: bool) returns (result: Result<nat>)
      modifies this
      ensures (result, View()) == Notes.Review(old(View()), id, approve, anchor, goesThrough)
    {
      if id !in queue || queue[id].status != Waiting { return Err(NotFound); }
      match queue[id].kind
      case NoteItem(Contest) =>
        if approve {
          var done := UpholdContest(id, anchor);
          result := if done.Ok? then Ok(id) else Err(done.error);
        } else {
          result := DismissContest(id);
        }
      case NoteItem(Objection) => result := Err(NotFound);
      case NoteItem(_) =>
        if approve { result := ApproveContext(id); } else { result := RejectContext(id); }
      case ClaimItem =>
        if !goesThrough { return Err(NotCarriedOut); }
        queue := queue[id := queue[id].(status := if approve then Accepted else Refused)];
        result := Ok(id);
      case _ =>
        if !goesThrough { return Err(NotCarriedOut); }
        queue := queue[id := queue[id].(status := if approve then Accepted else Refused)];
        SettleItemObjections(id, approve);
        result := Ok(id);
    }
  }

  lemma SettleStep(was: seq<Note>, i: nat, item: nat, approved: bool, n: Note)
    requires i < |was|
    requires n == if was[i].about == OnItem(item) && was[i].kind == Objection && was[i].state == Open
                  then was[i].(state := if approved then Dismissed else Upheld) else was[i]
    ensures SettleObjections(was[..i + 1], item, approved) == SettleObjections(was[..i], item, approved) + [n]
  {
    assert was[..i + 1][..i] == was[..i];
  }

  lemma UpdatedPrefix<T>(s: seq<T>, i: nat, x: T)
    requires i < |s|
    ensures s[i := x][..i + 1] == s[..i] + [x] && s[i := x][i + 1..] == s[i..][1..]
  {
  }
}
