/** Whose note it is, who may move it, and what lets its words out: each note's life over single steps and whole runs. */
module NoteLives {
  import opened Optional
  import opened Notes
  import opened NoteRuns
  import Claims

  // ---- what a filing leaves --------------------------------------------------------------------

  /** A relation note speaks of a live relation of its own page; an edit note, always a contest, of a key and a signal; an objection
      of a waiting item that names its page. Nobody contests a relation twice at a time. */
  ghost predicate MaySpeak(s: State, f: Filing, about: Subject)
  {
    match about
    case OnItem(item) =>
      f.kind == Objection && f.item == Some(item) && item in s.queue && s.queue[item].status == Waiting && f.node in s.queue[item].touches
    case OnEdit(key, edit) =>
      f.kind == Contest && f.edit == Some(Edit(key, Some(edit))) && key != ""
    case OnRelation(r) =>
      && f.kind in {Contest, Context} && f.edit.None? && f.relation == Some(r)
      && r.source != "" && r.edge != "" && r.target != "" && f.node in {r.source, r.target} && LiveRelation(s.edges, r)
      && (f.kind == Contest ==> forall i :: 0 <= i < |s.notes| ==> !OwnContest(s.notes[i], f.contributor, r))
  }

  predicate OwnContest(n: Note, contributor: string, r: Triple)
  {
    n.kind == Contest && n.contributor == contributor && n.about == OnRelation(r) && n.state in {Open, Pending, Live}
  }

  lemma SubjectExactly(s: State, f: Filing, about: Subject)
    ensures SubjectOf(s, f) == Ok(about) <==> MaySpeak(s, f, about)
  {
    if f.kind == Contest && f.relation.Some? {
      var r := f.relation.value;
      if n :| n in s.notes && SameContest(n, f.contributor, r) {
        var i :| 0 <= i < |s.notes| && s.notes[i] == n;
        assert OwnContest(s.notes[i], f.contributor, r);
      }
      if i :| 0 <= i < |s.notes| && OwnContest(s.notes[i], f.contributor, r) { assert s.notes[i] in s.notes; }
    }
  }

  /** What the row of a new note, its signal and its queue row look like. */
  ghost predicate FiledAs(s: State, t: State, n: Note, signal: nat, queue: nat, objection: bool)
  {
    && t.notes == s.notes + [n] && n.signal == signal && n.at == s.clock / 1000 && n.queue == (if objection then None else Some(queue))
    && signal !in s.signals && signal in t.signals && t.signals[signal].status == Active
    && t.signals == s.signals[signal := t.signals[signal]]
    && (objection ==> t.queue == s.queue)
    && (!objection ==>
          && queue !in s.queue && queue in t.queue && t.queue == s.queue[queue := t.queue[queue]]
          && t.queue[queue].kind == NoteItem(n.kind) && t.queue[queue].signal == Some(signal)
          && t.queue[queue].touches == {n.node} + (if n.about.OnRelation? then {n.about.relation.source, n.about.relation.target} else {})
          && (t.queue[queue].status == Accepted <==> n.state == Live) && (t.queue[queue].status == Waiting <==> n.state != Live))
  }

  /**
   * A claimant's note. It is taken exactly when it has words, not too many, is written from a page its writer holds and about
   * something it may speak of. A context note is live at once exactly when its writer is trusted, else pending with its words
   * withheld; a contest or an objection is open, an objection's words for the curator only.
   */
  lemma NoteFiled(s: State, f: Filing)
    ensures var (result, t) := FileNote(s, f);
      && (result.Ok? <==>
            && 1 <= |Trim(f.note)| <= 2000 && (f.contributor, f.node) in s.holders && (exists about :: MaySpeak(s, f, about))
            && f.signal !in s.signals && (f.kind == Objection || f.queue !in s.queue))
      && (result.Err? ==> t == s)
      && (result.Ok? ==>
            var n := result.value;
            && FiledAs(s, t, n, f.signal, f.queue, f.kind == Objection)
            && n.kind == f.kind && n.node == f.node && n.contributor == f.contributor && n.words == Trim(f.note) && MaySpeak(s, f, n.about)
            && n.state == (if f.kind != Context then Open else if f.auto then Live else Pending)
            && t.signals[f.signal].held == (if f.kind == Objection then {ForCurator} else if n.state == Pending then {InReview} else {}))
  {
    var about := SubjectOf(s, f);
    if about.Ok? { SubjectExactly(s, f, about.value); }
    if a :| MaySpeak(s, f, a) { SubjectExactly(s, f, a); }
  }

  /** The readings of this contributor stamped in the last so many seconds. */
  ghost function ReadingsSince(notes: seq<Note>, contributor: string, from: int, to: int): set<nat>
  {
    set i: nat | i < |notes| && notes[i].kind == Reading && notes[i].contributor == contributor && from <= notes[i].at <= to
  }

  lemma OneMoreSince(front: seq<Note>, last: Note, contributor: string, from: int, to: int)
    ensures |ReadingsSince(front + [last], contributor, from, to)|
         == |ReadingsSince(front, contributor, from, to)|
            + if last.kind == Reading && last.contributor == contributor && from <= last.at <= to then 1 else 0
  {
    var was, now := ReadingsSince(front, contributor, from, to), ReadingsSince(front + [last], contributor, from, to);
    if last.kind == Reading && last.contributor == contributor && from <= last.at <= to {
      assert now == was + {|front|};
    } else {
      assert now == was;
    }
  }

  lemma {:induction false} ReadingsCounted(notes: seq<Note>, contributor: string, from: int, to: int)
    ensures ReadingsIn(notes, contributor, from, to) == |ReadingsSince(notes, contributor, from, to)|
  {
    if notes == [] {
      assert ReadingsSince(notes, contributor, from, to) == {};
    } else {
      var front, last := notes[..|notes| - 1], notes[|notes| - 1];
      ReadingsCounted(front, contributor, from, to);
      OneMoreSince(front, last, contributor, from, to);
      assert notes == front + [last];
    }
  }

  /** A relation one may read: live, named in full, with no retired end. */
  predicate Readable(s: State, relation: Option<Triple>)
  {
    relation.Some? &&
    (var r := relation.value;
     r.source != "" && r.edge != "" && r.target != "" && LiveRelation(s.edges, r) && r.source !in s.retired && r.target !in s.retired)
  }

  predicate OwnReading(n: Note, contributor: string, r: Triple, words: string)
  {
    n.kind == Reading && n.contributor == contributor && n.about == OnRelation(r) && n.words == words && n.state in {Pending, Live}
  }

  /** Fewer than five in the last minute and fewer than thirty in the last day. */
  ghost predicate QuotaLeft(s: State, contributor: string)
  {
    var now := s.clock / 1000;
    |ReadingsSince(s.notes, contributor, now - 60, now)| < 5 && |ReadingsSince(s.notes, contributor, now - 86400, now)| < 30
  }

  lemma QuotaExactly(s: State, contributor: string)
    ensures QuotaReached(s.notes, contributor, s.clock / 1000) <==> !QuotaLeft(s, contributor)
  {
    var now := s.clock / 1000;
    ReadingsCounted(s.notes, contributor, now - 60, now);
    ReadingsCounted(s.notes, contributor, now - 86400, now);
  }

  /**
   * Anyone's reading. It is taken exactly when it has words, not too many, of a readable relation, from an allowed source, not
   * given before and within the quota. It is live at once exactly when its writer is trusted, else pending with its words withheld;
   * structural-only words stay withheld either way.
   */
  lemma ReadingFiled(s: State, f: ReadingFiling)
    ensures var (result, t) := FileReading(s, f);
      && (result.Ok? <==>
            && 1 <= |Trim(f.note)| <= 2000 && Readable(s, f.relation) && SourceAllowed(f.source)
            && (forall i :: 0 <= i < |s.notes| ==> !OwnReading(s.notes[i], f.contributor, f.relation.value, Trim(f.note)))
            && QuotaLeft(s, f.contributor) && f.signal !in s.signals && f.queue !in s.queue)
      && (result.Err? ==> t == s)
      && (result.Ok? ==>
            var n := result.value;
            && FiledAs(s, t, n, f.signal, f.queue, false) && t.signals[f.signal].batch == f.batch
            && n.kind == Reading && n.contributor == f.contributor && n.words == Trim(f.note)
            && n.about == OnRelation(f.relation.value) && n.node == f.relation.value.source
            && n.state == (if f.auto then Live else Pending)
            && t.signals[f.signal].held == (if f.auto then {} else {InReview}) + (if f.structuralOnly then {StructuralOnly} else {}))
  {
    QuotaExactly(s, f.contributor);
    if f.relation.Some? { GivenBefore(s, f.contributor, f.relation.value, Trim(f.note)); }
  }

  /** The same but for the case of letters. */
  predicate LikeIgnoringCase(s: string, small: string)
  {
    |s| == |small| && forall i :: 0 <= i < |s| ==> s[i] == small[i] || ('A' <= s[i] <= 'Z' && s[i] as int + 32 == small[i] as int)
  }

  /** A source is allowed when there is none, or it begins as a web address does, in any case, and has at most 2000 characters. */
  lemma SourceExactly(source: string)
    ensures var url := Trim(source);
      SourceAllowed(Some(source))
      <==> source == ""
           || (|url| <= 2000 && ((|url| >= 7 && LikeIgnoringCase(url[..7], "http://")) || (|url| >= 8 && LikeIgnoringCase(url[..8], "https://"))))
  {
    var url := Trim(source);
    BeginsIgnoringCase(url, "http://");
    BeginsIgnoringCase(url, "https://");
  }

  lemma BeginsIgnoringCase(url: string, small: string)
    requires forall i :: 0 <= i < |small| ==> !('A' <= small[i] <= 'Z')
    ensures small <= seq(|url|, i requires 0 <= i < |url| => Claims.LowerChar(url[i]))
      <==> |url| >= |small| && LikeIgnoringCase(url[..|small|], small)
  {
    var plain := seq(|url|, i requires 0 <= i < |url| => Claims.LowerChar(url[i]));
    if |url| >= |small| {
      forall i | 0 <= i < |small|
        ensures plain[i] == small[i] <==> url[i] == small[i] || ('A' <= url[i] <= 'Z' && url[i] as int + 32 == small[i] as int)
      {
        assert 'A' <= url[i] <= 'Z' ==> plain[i] as int == url[i] as int + 32;
      }
      assert small <= plain <==> forall i :: 0 <= i < |small| ==> plain[i] == small[i];
    }
  }

  lemma GivenBefore(s: State, contributor: string, r: Triple, words: string)
    ensures (exists n :: n in s.notes && SameReading(n, contributor, r, words))
      <==> exists i :: 0 <= i < |s.notes| && OwnReading(s.notes[i], contributor, r, words)
  {
    if n :| n in s.notes && SameReading(n, contributor, r, words) {
      var i :| 0 <= i < |s.notes| && s.notes[i] == n;
      assert OwnReading(s.notes[i], contributor, r, words);
    }
    if i :| 0 <= i < |s.notes| && OwnReading(s.notes[i], contributor, r, words) { assert s.notes[i] in s.notes; }
  }

  /** After every run, from no notes on, nobody has more than five readings in a minute or thirty in a day. */
  lemma ReadingsBounded(s: State, actions: seq<Action>, contributor: string, from: int)
    requires Valid(s, NOTHING_YET)
    ensures |ReadingsSince(After(s, actions).notes, contributor, from, from + 60)| <= 5
    ensures |ReadingsSince(After(s, actions).notes, contributor, from, from + 86400)| <= 30
  {
    RunKeepsValid(s, NOTHING_YET, actions);
    ReadingsCounted(After(s, actions).notes, contributor, from, from + 60);
    ReadingsCounted(After(s, actions).notes, contributor, from, from + 86400);
  }

  /** A contest, and a trusted writer's context note, is public at once at the pages it speaks of, and no other; an objection nowhere. */
  lemma FiledIsPublic(s: State, f: Filing, page: string)
    requires FileNote(s, f).0.Ok?
    ensures var (result, t) := FileNote(s, f); var about := result.value.about;
      IsPublic(t, result.value, page)
      <==> (f.kind == Contest || (f.kind == Context && f.auto))
           && (about.OnRelation? ==> page in {about.relation.source, about.relation.target}) && (about.OnEdit? ==> page == f.node)
  {
    NoteFiled(s, f);
  }

  /** A trusted contributor's reading is public at once at both ends of its relation; another's nowhere yet. */
  lemma ReadingIsPublic(s: State, f: ReadingFiling, page: string)
    requires FileReading(s, f).0.Ok?
    ensures var (result, t) := FileReading(s, f);
      IsPublic(t, result.value, page) <==> f.auto && page in {f.relation.value.source, f.relation.value.target}
  {
    ReadingFiled(s, f);
    assert LiveRelation(FileReading(s, f).1.edges, f.relation.value);
  }

  // ---- who may move a note ----------------------------------------------------------------------

  /** The action that takes this note to this state. */
  predicate MovesTo(a: Action, n: Note, to: NoteState)
  {
    match to
    case Withdrawn => a.Withdraw? && a.signal == n.signal && a.contributor == n.contributor
    case Live => a.Verdict? && a.approve && n.queue == Some(a.id) && n.kind in {Context, Reading}
    case Rejected => a.Verdict? && !a.approve && n.queue == Some(a.id) && n.kind in {Context, Reading}
    case Upheld => a.Verdict? && ((n.kind == Contest && a.approve && n.queue == Some(a.id)) || (n.about == OnItem(a.id) && !a.approve))
    case Dismissed => a.Verdict? && ((n.kind == Contest && !a.approve && n.queue == Some(a.id)) || (n.about == OnItem(a.id) && a.approve))
    case Open => false
    case Pending => false
  }

  /** A note stays as it is, or its state alone changes, by the action that takes it there. */
  predicate Follows(a: Action, n: Note, m: Note)
  {
    m == n || (m == n.(state := m.state) && MovesTo(a, n, m.state))
  }

  /** A verdict on a contribution moves the open objections to it. */
  lemma ObjectionFollows(s: State, a: Action, t: State, i: nat)
    requires a.Verdict? && i < |s.notes| && Reviewed(s, t, a.id, a.approve)
    ensures i < |t.notes| && Follows(a, s.notes[i], t.notes[i])
  {
  }

  /** A verdict on a note's own row moves that note. */
  lemma OwnVerdictFollows(s: State, h: History, a: Action, i: nat)
    requires Valid(s, h) && a.Verdict? && i < |s.notes| && a.id in s.queue && s.queue[a.id].kind.NoteItem?
    requires Review(s, a.id, a.approve, a.anchor, a.goesThrough).0.Ok?
    ensures i < |Exec(s, a).notes| && Follows(a, s.notes[i], Exec(s, a).notes[i])
  {
    var k := VerdictDecides(s, h, a);
  }

  lemma VerdictFollows(s: State, h: History, a: Action, i: nat)
    requires Valid(s, h) && a.Verdict? && i < |s.notes|
    ensures i < |Exec(s, a).notes| && Follows(a, s.notes[i], Exec(s, a).notes[i])
  {
    if Review(s, a.id, a.approve, a.anchor, a.goesThrough).0.Err? {
      RefusedVerdict(s, a.id, a.approve, a.anchor, a.goesThrough);
    } else if Proposed(s.queue[a.id].kind) {
      ReviewReviews(s, a.id, a.approve, a.anchor, a.goesThrough);
      ObjectionFollows(s, a, Exec(s, a), i);
    } else if s.queue[a.id].kind.NoteItem? {
      OwnVerdictFollows(s, h, a, i);
    }
  }

  /** A verdict on a note's own row: a contest is upheld or dismissed, a gated note goes live or is rejected. */
  lemma VerdictDecides(s: State, h: History, a: Action) returns (k: nat)
    requires Valid(s, h) && a.Verdict? && a.id in s.queue && s.queue[a.id].kind.NoteItem?
    requires Review(s, a.id, a.approve, a.anchor, a.goesThrough).0.Ok?
    ensures k < |s.notes| && s.notes[k].queue == Some(a.id) && s.notes[k].kind != Objection
    ensures s.notes[k].state == if s.notes[k].kind == Contest then Open else Pending
    ensures var n := s.notes[k];
      var to := if n.kind == Contest then (if a.approve then Upheld else Dismissed) else if a.approve then Live else Rejected;
      && Exec(s, a).notes == s.notes[k := n.(state := to)]
      && Exec(s, a).queue == s.queue[a.id := s.queue[a.id].(status := if a.approve then Accepted else Refused)]
  {
    var i, to := VerdictMoves(s, a.id, a.approve, a.anchor, a.goesThrough);
    k := i;
    OwnRow(s, h, i, a.id);
    assert Allowed(s.notes[i].state, to);
  }

  lemma OwnRow(s: State, h: History, i: nat, id: nat)
    requires Valid(s, h) && i < |s.notes| && s.notes[i].queue == Some(id)
    ensures id in s.queue && s.queue[id].kind == NoteItem(s.notes[i].kind) && s.notes[i].kind != Objection
    ensures s.notes[i].state in if s.notes[i].kind == Contest then {Open, Upheld, Dismissed, Withdrawn} else {Pending, Live, Rejected, Withdrawn}
  {
    assert RowAgrees(s.notes[i], s.queue, h) && StateFits(s.notes[i]);
  }

  lemma WithdrawFollows(s: State, h: History, a: Action, i: nat)
    requires Valid(s, h) && a.Withdraw? && i < |s.notes|
    ensures i < |Exec(s, a).notes| && Follows(a, s.notes[i], Exec(s, a).notes[i])
  {
    BySignalMeaning(s.notes, a.signal);
  }

  lemma FilingFollows(s: State, a: Action, i: nat)
    requires (a.File? || a.Read?) && i < |s.notes|
    ensures i < |Exec(s, a).notes| && Exec(s, a).notes[i] == s.notes[i]
  {
    if a.File? { NoteFiled(s, a.filing); } else { ReadingFiled(s, a.reading); }
  }

  lemma OthersFollow(s: State, a: Action)
    requires !a.File? && !a.Read? && !a.Withdraw? && !a.Verdict?
    ensures Exec(s, a).notes == s.notes
  {
  }

  lemma StepFollows(s: State, h: History, a: Action, i: nat)
    requires Valid(s, h) && i < |s.notes|
    ensures i < |Exec(s, a).notes| && Follows(a, s.notes[i], Exec(s, a).notes[i])
  {
    if a.Verdict? {
      VerdictFollows(s, h, a, i);
    } else if a.Withdraw? {
      WithdrawFollows(s, h, a, i);
    } else if a.File? || a.Read? {
      FilingFollows(s, a, i);
    } else {
      OthersFollow(s, a);
    }
  }

  ghost predicate MovedIn(actions: seq<Action>, n: Note, to: NoteState)
  {
    exists k :: 0 <= k < |actions| && MovesTo(actions[k], n, to)
  }

  lemma MovedLater(actions: seq<Action>, n: Note, to: NoteState)
    requires actions != []
    ensures MovesTo(actions[0], n, to) || MovedIn(actions[1..], n, to) ==> MovedIn(actions, n, to)
  {
    if k :| 0 <= k < |actions| - 1 && MovesTo(actions[1..][k], n, to) { assert MovesTo(actions[k + 1], n, to); }
  }

  /**
   * Through every run a note keeps its words, its writer and what it is about; and its state is as it was, or the run took it there:
   * withdrawn only by its own writer, live or rejected only by a verdict on its row, upheld or dismissed only by a verdict on the
   * contest's row or on the item objected to.
   */
  lemma {:induction false} RunFollows(s: State, h: History, actions: seq<Action>, i: nat)
    requires Valid(s, h) && i < |s.notes|
    ensures i < |After(s, actions).notes|
    ensures var n, m := s.notes[i], After(s, actions).notes[i];
      m == n.(state := m.state) && (m.state != n.state ==> MovedIn(actions, n, m.state))
    decreases actions
  {
    if actions != [] {
      var t := Exec(s, actions[0]);
      StepFollows(s, h, actions[0], i);
      StepKeepsValid(s, h, actions[0]);
      RunFollows(t, Since(h, s, actions[0]), actions[1..], i);
      var m := After(s, actions).notes[i];
      MovedLater(actions, s.notes[i], m.state);
      SameMoves(actions[1..], s.notes[i], t.notes[i], m.state);
    }
  }

  lemma SameMoves(actions: seq<Action>, n: Note, m: Note, to: NoteState)
    requires m == n.(state := m.state)
    ensures MovedIn(actions, m, to) ==> MovedIn(actions, n, to)
  {
    if k :| 0 <= k < |actions| && MovesTo(actions[k], m, to) { assert MovesTo(actions[k], n, to); }
  }

  // ---- where a note came from -------------------------------------------------------------------------

  /** This action, taken at s, filed this note. */
  ghost predicate Filed(s: State, a: Action, n: Note)
  {
    || (a.File? && FileNote(s, a.filing).0 == Ok(n))
    || (a.Read? && FileReading(s, a.reading).0 == Ok(n))
  }

  lemma NewRow(s: State, h: History, a: Action)
    requires Valid(s, h)
    ensures |s.notes| <= |Exec(s, a).notes| <= |s.notes| + 1
    ensures |Exec(s, a).notes| > |s.notes| ==> Filed(s, a, Exec(s, a).notes[|s.notes|])
  {
    if a.File? {
      NoteFiled(s, a.filing);
    } else if a.Read? {
      ReadingFiled(s, a.reading);
    } else if a.Verdict? {
      VerdictRows(s, h, a);
    }
  }

  lemma VerdictRows(s: State, h: History, a: Action)
    requires Valid(s, h) && a.Verdict?
    ensures |Exec(s, a).notes| == |s.notes|
  {
    if Review(s, a.id, a.approve, a.anchor, a.goesThrough).0.Err? {
      RefusedVerdict(s, a.id, a.approve, a.anchor, a.goesThrough);
    } else if Proposed(s.queue[a.id].kind) {
      ReviewReviews(s, a.id, a.approve, a.anchor, a.goesThrough);
    } else if s.queue[a.id].kind.NoteItem? {
      var k := VerdictDecides(s, h, a);
    }
  }

  lemma AfterPrefix(s: State, actions: seq<Action>, k: nat)
    requires k < |actions|
    ensures After(s, actions[..k + 1]) == After(Exec(s, actions[0]), actions[1..][..k])
  {
    assert actions[..k + 1][1..] == actions[1..][..k] && actions[..k + 1][0] == actions[0];
  }

  /** A note that was not there before was filed in the run, and is as it was filed but for its state, which the run may have moved. */
  lemma {:induction false} NewNoteWasFiled(s: State, h: History, actions: seq<Action>, i: nat) returns (k: nat, n: Note)
    requires Valid(s, h) && |s.notes| <= i < |After(s, actions).notes|
    ensures k < |actions| && Filed(After(s, actions[..k]), actions[k], n)
    ensures var m := After(s, actions).notes[i]; m == n.(state := m.state) && (m.state != n.state ==> MovedIn(actions, n, m.state))
    decreases actions
  {
    if actions == [] { assert false; }
    var t := Exec(s, actions[0]);
    StepKeepsValid(s, h, actions[0]);
    NewRow(s, h, actions[0]);
    if i < |t.notes| {
      k, n := 0, t.notes[i];
      RunFollows(t, Since(h, s, actions[0]), actions[1..], i);
      assert actions[..0] == [];
    } else {
      var later, filed := NewNoteWasFiled(t, Since(h, s, actions[0]), actions[1..], i);
      k, n := later + 1, filed;
      AfterPrefix(s, actions, later);
    }
    assert After(s, actions) == After(t, actions[1..]);
    MovedLater(actions, n, After(s, actions).notes[i].state);
  }

  /** Whoever filed it with a trusted tier. */
  predicate Trusted(a: Action)
  {
    (a.File? && a.filing.auto) || (a.Read? && a.reading.auto)
  }

  /** A gated note speaks of a relation, and is filed live exactly when its writer is trusted. */
  lemma FiledGate(u: State, a: Action, n: Note)
    requires Filed(u, a, n) && n.kind in {Context, Reading}
    ensures n.about.OnRelation? && n.state == if Trusted(a) then Live else Pending
  {
    if a.File? { NoteFiled(u, a.filing); } else { ReadingFiled(u, a.reading); }
  }

  /**
   * The gate: from no notes on, a context note or a reading is public only if its writer was trusted when it was filed or a verdict
   * approved its own row; and then only at a page it touches.
   */
  lemma PublicWasGated(s: State, actions: seq<Action>, i: nat, page: string) returns (k: nat, n: Note)
    requires Valid(s, NOTHING_YET) && s.notes == [] && i < |After(s, actions).notes|
    requires After(s, actions).notes[i].kind in {Context, Reading} && IsPublic(After(s, actions), After(s, actions).notes[i], page)
    ensures k < |actions| && Filed(After(s, actions[..k]), actions[k], n) && n.signal == After(s, actions).notes[i].signal
    ensures Trusted(actions[k]) || exists v :: 0 <= v < |actions| && actions[v].Verdict? && actions[v].approve && n.queue == Some(actions[v].id)
    ensures n.about.OnRelation? && page in {n.about.relation.source, n.about.relation.target}
  {
    k, n := NewNoteWasFiled(s, NOTHING_YET, actions, i);
    FiledGate(After(s, actions[..k]), actions[k], n);
    if n.state != Live {
      var v :| 0 <= v < |actions| && MovesTo(actions[v], n, Live);
    }
  }

  // ---- withdrawing, and verdicts that come through ---------------------------------------------------------

  /** A writer takes a standing note back: its signal is superseded unless an admin revoked it, its row no longer waits, and words never
      published are withheld for that. */
  lemma Withdrawing(s: State, h: History, i: nat, contributor: string)
    requires Valid(s, h) && i < |s.notes|
    ensures var n := s.notes[i]; var (result, t) := WithdrawNote(s, n.signal, contributor);
      && (result.Ok? <==> n.contributor == contributor && n.state in {Open, Pending, Live})
      && (result.Err? ==> t == s)
      && (result.Ok? ==>
            && t.notes == s.notes[i := n.(state := Withdrawn)]
            && t.signals[n.signal].status != Active
            && (s.signals[n.signal].status == SignalStatus.Revoked ==> t.signals[n.signal].status == SignalStatus.Revoked)
            && t.signals[n.signal].held == s.signals[n.signal].held + (if n.state == Pending then {TakenBack} else {})
            && (n.queue.Some? ==> t.queue[n.queue.value].status != Waiting))
  {
    OnlyRow(s, h, i);
    assert RowAgrees(s.notes[i], s.queue, h);
  }

  lemma OnlyRow(s: State, h: History, i: nat)
    requires Valid(s, h) && i < |s.notes|
    ensures BySignal(s.notes, s.notes[i].signal) == i
  {
    FirstRow(s.notes, i);
  }

  lemma {:induction false} FirstRow(notes: seq<Note>, i: nat)
    requires i < |notes| && forall j, k :: 0 <= j < k < |notes| ==> notes[j].signal != notes[k].signal
    ensures BySignal(notes, notes[i].signal) == i
  {
    if i > 0 {
      FirstRow(notes[1..], i - 1);
      assert notes[1..][i - 1] == notes[i];
    }
  }

  /** A verdict on a claim, a contribution or a suggestion settles its row, when its own code carries it out; else nothing happens. */
  lemma ItemVerdict(s: State, a: Action)
    requires a.Verdict? && a.id in s.queue && s.queue[a.id].status == Waiting && s.queue[a.id].kind in {ClaimItem, Contribution, Suggestion}
    ensures !a.goesThrough ==> Exec(s, a) == s
    ensures a.goesThrough ==>
      Exec(s, a).queue == s.queue[a.id := s.queue[a.id].(status := if a.approve then Accepted else Refused)] && Exec(s, a).signals == s.signals
  {
  }

  lemma {:induction false} FirstQueued(notes: seq<Note>, i: nat)
    requires i < |notes| && notes[i].queue.Some?
    requires forall j, k :: 0 <= j < k < |notes| && notes[j].queue.Some? ==> notes[j].queue != notes[k].queue
    ensures ByQueue(notes, notes[i].queue.value) == i
  {
    if i > 0 {
      FirstQueued(notes[1..], i - 1);
      assert notes[1..][i - 1] == notes[i];
    }
  }

  /** A verdict on a row that waits for a note comes through, but for an upholding whose own signal id is taken. */
  lemma VerdictComesThrough(s: State, h: History, a: Action, i: nat)
    requires Valid(s, h) && a.Verdict? && i < |s.notes| && s.notes[i].queue == Some(a.id)
    requires a.id in s.queue && s.queue[a.id].status == Waiting
    ensures var n := s.notes[i];
      var taken := n.kind == Contest && a.approve && a.anchor in s.signals;
      var to := if n.kind == Contest then (if a.approve then Upheld else Dismissed) else if a.approve then Live else Rejected;
      i < |Exec(s, a).notes| && Exec(s, a).notes[i] == if taken then n else n.(state := to)
  {
    FirstQueued(s.notes, i);
    OwnRow(s, h, i, a.id);
    assert RowAgrees(s.notes[i], s.queue, h);
    if Review(s, a.id, a.approve, a.anchor, a.goesThrough).0.Ok? { var k := VerdictDecides(s, h, a); }
  }
}
