/** src/embed/derive.ts, derive: compute on a read snapshot, re-check the inputs under the write lock, apply or retry. */
module Derive {
  import opened Finite
  import opened EdgeRows
  import opened DerivedEdges
  import opened DeriveInputs
  import opened DerivePlan
  import opened DerivePass
  import opened Optional
  import opened Ordering

  const MAX_ATTEMPTS := 3

  function Key(s: Suggestion): string
  {
    s.art + "|" + s.creator
  }

  /** DELETE FROM intake_queue WHERE submitted_by = <pipeline> AND status = 'pending' */
  function Cleared(queue: map<QueueId, QueueRow>): map<QueueId, QueueRow>
  {
    map id | id in queue && !(queue[id].submittedBy == Pipeline && queue[id].status == Pending) :: queue[id]
  }

  function Queued(queue: map<QueueId, QueueRow>, s: seq<Suggestion>, now: string): map<QueueId, QueueRow>
  {
    if s == [] then queue
    else
      var last := s[|s| - 1];
      Queued(queue, s[..|s| - 1], now)[AiSuggestion(Key(last)) := QueueRow(Pending, Pipeline, last.art, last.creator, now)]
  }

  /** No insert meets an id already taken: by a settled row, by someone else's, or by an earlier suggestion. */
  ghost predicate Fits(queue: map<QueueId, QueueRow>, s: seq<Suggestion>)
  {
    && (forall x :: x in s ==> AiSuggestion(Key(x)) !in queue)
    && (forall i, j :: 0 <= i < j < |s| ==> Key(s[i]) != Key(s[j]))
  }

  function CentroidRows(opts: Options, cs: map<string, Vec>): map<string, VectorRow>
  {
    map c | c in cs :: VectorRow(opts.model, DIMS, cs[c], Null, Null)
  }

  /** The database once a plan is written. */
  ghost function Applied(opts: Options, t: Tables, p: Plan): Tables
  {
    t.(
    centroids := if p.centroids.Keep? then t.centroids else CentroidRows(opts, p.centroids.centroids),
    queue := Queued(Cleared(t.queue), p.suggestions, p.now),
    edges := Synced(t.edges, p.desired, p.now))
  }

  datatype Outcome =
    | DryRun(changes: Counters)
    | Done(attempt: nat, plan: Plan, changes: Counters)
    | Failed(attempt: nat, plan: Plan)   // an insert hit a taken queue id: rolled back, rethrown
    | InputsChanged                      // every attempt found its inputs changed

  /** Nothing derive reads differs between the two states. */
  ghost predicate Steady(opts: Options, read: Tables, apply: Tables)
  {
    FingerprintOf(opts, read) == FingerprintOf(opts, apply)
  }

  /** Each of the first n attempts found its inputs changed. */
  ghost predicate AllChanged(opts: Options, atRead: seq<Tables>, atApply: seq<Tables>, n: nat)
    requires n <= |atRead| == |atApply|
  {
    forall i :: 0 <= i < n ==> !Steady(opts, atRead[i], atApply[i])
  }

  /** How one attempt may end: `read` is what it read, `apply` what it found under the write lock, `after` what it left. */
  ghost predicate Ends(geo: Geometry, opts: Options, dry: bool, read: Tables, apply: Tables, r: Outcome, after: Tables)
  {
    match r
    case DryRun(changes) =>
      dry && after == read && exists p :: IsPlan(geo, opts, FingerprintOf(opts, read), p) && changes == Changes(read.edges, p.desired)
    case Done(_, p, changes) =>
      && !dry && Steady(opts, read, apply) && IsPlan(geo, opts, FingerprintOf(opts, apply), p)
      && Fits(Cleared(apply.queue), p.suggestions)
      && after == Applied(opts, apply, p) && changes == Changes(apply.edges, p.desired)
    case Failed(_, p) =>
      && !dry && Steady(opts, read, apply) && IsPlan(geo, opts, FingerprintOf(opts, apply), p)
      && !Fits(Cleared(apply.queue), p.suggestions)
      && after == apply
    case InputsChanged =>
      !dry && !Steady(opts, read, apply) && after == apply
  }

  function AttemptOf(r: Outcome): nat
  {
    match r
    case DryRun(_) => 0
    case Done(n, _, _) => n
    case Failed(n, _) => n
    case InputsChanged => MAX_ATTEMPTS - 1
  }

  /** The attempt that ended the run is the first whose inputs did not change between its read and its apply. */
  ghost predicate Explains(geo: Geometry, opts: Options, dry: bool, atRead: seq<Tables>, atApply: seq<Tables>, r: Outcome, after: Tables)
    requires |atRead| == |atApply| == MAX_ATTEMPTS
  {
    var n := AttemptOf(r);
    && n < MAX_ATTEMPTS
    && AllChanged(opts, atRead, atApply, n)
    && Ends(geo, opts, dry, atRead[n], atApply[n], r, after)
  }

  lemma Concludes(geo: Geometry, opts: Options, dry: bool, atRead: seq<Tables>, atApply: seq<Tables>, n: nat, r: Outcome, after: Tables)
    requires n < |atRead| == |atApply| == MAX_ATTEMPTS && AllChanged(opts, atRead, atApply, n)
    requires Ends(geo, opts, dry, atRead[n], atApply[n], r, after)
    requires dry ==> r.DryRun? && n == 0
    requires r.Done? || r.Failed? ==> AttemptOf(r) == n
    ensures !r.InputsChanged? || n == MAX_ATTEMPTS - 1 ==> Explains(geo, opts, dry, atRead, atApply, r, after)
    ensures r.InputsChanged? ==> AllChanged(opts, atRead, atApply, n + 1)
  {
    if r.InputsChanged? { OneMoreChanged(opts, atRead, atApply, n); }
  }

  lemma OneMoreChanged(opts: Options, atRead: seq<Tables>, atApply: seq<Tables>, n: nat)
    requires n < |atRead| == |atApply| && AllChanged(opts, atRead, atApply, n) && !Steady(opts, atRead[n], atApply[n])
    ensures AllChanged(opts, atRead, atApply, n + 1)
  {
    forall i | 0 <= i < n + 1 ensures !Steady(opts, atRead[i], atApply[i]) {
      if i == n { assert atRead[i] == atRead[n] && atApply[i] == atApply[n]; }
    }
  }

  class Database {
    var nodes: map<string, Node>
    var identity: map<string, VectorRow>
    var centroids: map<string, VectorRow>
    var queue: map<QueueId, QueueRow>
    var rejected: set<string>
    const edges: EdgeTable

    constructor (edges: EdgeTable)
      ensures this.edges == edges
    {
      nodes, identity, centroids, queue, rejected := map[], map[], map[], map[], {};
      this.edges := edges;
    }

    ghost function View(): Tables
      reads this, edges
    {
      Tables(nodes, identity, centroids, edges.rows, queue, rejected)
    }

    /** The committed state other connections left behind, or a rollback to one. */
    method Become(t: Tables)
      modifies this, edges
      ensures View() == t
    {
      nodes, identity, centroids, queue, rejected := t.nodes, t.identity, t.centroids, t.queue, t.rejected;
      edges.rows := t.edges;
    }

    method Save() returns (t: Tables)
      ensures t == View()
    {
      t := Tables(nodes, identity, centroids, edges.rows, queue, rejected);
    }

    /** One unordered SELECT source_id, target_id over the edges. */
    method ReadEdges(wanted: Edge -> bool) returns (r: seq<(string, string)>)
      ensures multiset(r) == Pairs(Selected(edges.rows, wanted))
    {
      var rows := map id | id in edges.rows && wanted(edges.rows[id]) :: edges.rows[id];
      r := Query(rows);
    }

    /** loadAll gives the stored centroids in the order their rows come. */
    method InSomeOrder(keys: set<string>) returns (order: seq<string>)
      ensures ListsOnce(order, keys)
    {
      order := [];
      var left := keys;
      while left != {}
        invariant left <= keys && ListsOnce(order, keys - left)
      {
        var c :| c in left;
        order, left := order + [c], left - {c};
      }
    }

    method Read(opts: Options) returns (s: Snapshot)
      ensures SnapshotOf(s, FingerprintOf(opts, View()))
    {
      var own := map id | id in identity && Standing(nodes, id) && identity[id].model == opts.model :: identity[id];
      var stored := map[];
      var attributions := ReadEdges(IsAttribution);
      var centroidEdges := [];
      if opts.skipCentroids {
        stored := map id | id in centroids && Standing(nodes, id) && centroids[id].model == opts.model :: centroids[id];
      } else {
        centroidEdges := ReadEdges(CentroidEdge(nodes));
      }
      var members := ReadEdges(IsMembership);
      var scan := InSomeOrder(Usable(stored).Keys);
      s := Snapshot(own, stored, scan, attributions, centroidEdges, members, rejected);
    }

    /** inputFingerprint: exactly the queries the computation runs, in an order of their own. */
    method InputFingerprint(opts: Options) returns (fp: Fingerprint)
      ensures fp == FingerprintOf(opts, View())
    {
      var s := Read(opts);
      fp := Fingerprint(s.identity, s.centroids, multiset(s.attributions), multiset(s.centroidEdges), multiset(s.members), s.rejected);
    }

    /** Replace the pending AI suggestions; false when an insert hits a taken id. */
    method ReplaceSuggestions(s: seq<Suggestion>, now: string) returns (ok: bool)
      modifies this`queue
      ensures ok <==> Fits(Cleared(old(queue)), s)
      ensures ok ==> queue == Queued(Cleared(old(queue)), s, now)
      ensures ok ==> forall x :: x in s ==>
        AiSuggestion(x.art + "|" + x.creator) in queue
        && queue[AiSuggestion(x.art + "|" + x.creator)] == QueueRow(Pending, Pipeline, x.art, x.creator, now)
    {
      queue := Cleared(queue);
      ghost var start := queue;
      for i := 0 to |s|
        invariant Fits(start, s[..i])
        invariant queue == Queued(start, s[..i], now)
      {
        QueuedKeys(start, s[..i], now, AiSuggestion(Key(s[i])));
        assert s[..i + 1][..i] == s[..i];
        if AiSuggestion(Key(s[i])) in queue {
          Taken(start, s, i);
          return false;
        }
        FitsOneMore(start, s, i);
        queue := queue[AiSuggestion(Key(s[i])) := QueueRow(Pending, Pipeline, s[i].art, s[i].creator, now)];
      }
      assert s[..|s|] == s;
      forall x | x in s
        ensures AiSuggestion(x.art + "|" + x.creator) in queue
        ensures queue[AiSuggestion(x.art + "|" + x.creator)] == QueueRow(Pending, Pipeline, x.art, x.creator, now)
      {
        PendingAreSuggestions(old(queue), s, now, AiSuggestion(Key(x)), x);
      }
      ok := true;
    }

    /** atRead[i], atApply[i]: the tables as other writers have left them when attempt i reads, and when it gets the write lock. */
    method Run(geo: Geometry, opts: Options, dry: bool, atRead: seq<Tables>, atApply: seq<Tables>, now: seq<string>) returns (r: Outcome)
      requires |atRead| == |atApply| == |now| == MAX_ATTEMPTS
      modifies this, edges
      ensures Explains(geo, opts, dry, atRead, atApply, r, View())
      ensures r.Done? ==> r.plan.now == now[r.attempt]
    {
      r := InputsChanged;
      for attempt := 0 to MAX_ATTEMPTS
        invariant AllChanged(opts, atRead, atApply, attempt) && (dry ==> attempt == 0)
        invariant attempt == MAX_ATTEMPTS ==> Explains(geo, opts, dry, atRead, atApply, r, View())
        invariant !r.Done?
      {
        r := Attempt(geo, opts, dry, attempt, atRead[attempt], atApply[attempt], now[attempt]);
        Concludes(geo, opts, dry, atRead, atApply, attempt, r, View());
        if !r.InputsChanged? { return; }
      }
    }

    method Attempt(geo: Geometry, opts: Options, dry: bool, n: nat, read: Tables, apply: Tables, now: string) returns (r: Outcome)
      modifies this, edges
      ensures Ends(geo, opts, dry, read, apply, r, View())
      ensures dry ==> r.DryRun?
      ensures !r.InputsChanged? && !dry ==> AttemptOf(r) == n
      ensures r.Done? ==> r.plan.now == now
    {
      Become(read);
      var fp, p := Prepare(geo, opts, now);
      if dry {
        var changes := edges.ApplyDerived(p.desired, p.now, true);
        assert View() == read;
        return DryRun(changes);
      }
      Become(apply);
      var again := InputFingerprint(opts);
      if again != fp { return InputsChanged; }
      r := Apply(opts, n, p);
    }

    /** The read transaction: fingerprint and plan of one snapshot. */
    method Prepare(geo: Geometry, opts: Options, now: string) returns (fp: Fingerprint, p: Plan)
      ensures fp == FingerprintOf(opts, View())
      ensures IsPlan(geo, opts, fp, p) && DerivedIds(p.desired) && p.now == now
    {
      fp := InputFingerprint(opts);
      var snapshot := Read(opts);
      p := ComputePlan(geo, opts, fp, snapshot, now);
      PlansAreDerived(geo, opts, fp, p);
    }

    /** The write transaction: everything, or a rollback to how it began. */
    method Apply(opts: Options, attempt: nat, p: Plan) returns (r: Outcome)
      requires DerivedIds(p.desired)
      modifies this, edges
      ensures old(Fits(Cleared(queue), p.suggestions)) ==>
        r == Done(attempt, p, Changes(old(edges.rows), p.desired)) && View() == Applied(opts, old(View()), p)
      ensures !old(Fits(Cleared(queue), p.suggestions)) ==> r == Failed(attempt, p) && View() == old(View())
    {
      var begun := Save();
      if p.centroids.Replace? { centroids := CentroidRows(opts, p.centroids.centroids); }
      var ok := ReplaceSuggestions(p.suggestions, p.now);
      if !ok {
        Become(begun);
        return Failed(attempt, p);
      }
      var changes := edges.ApplyDerived(p.desired, p.now, false);
      r := Done(attempt, p, changes);
    }
  }

  lemma {:induction false} QueuedKeys(queue: map<QueueId, QueueRow>, s: seq<Suggestion>, now: string, id: QueueId)
    ensures id in Queued(queue, s, now) <==> id in queue || exists x :: x in s && id == AiSuggestion(Key(x))
  {
    if s != [] {
      QueuedKeys(queue, s[..|s| - 1], now, id);
      assert s == s[..|s| - 1] + [s[|s| - 1]];
    }
  }

  lemma Taken(queue: map<QueueId, QueueRow>, s: seq<Suggestion>, i: nat)
    requires i < |s|
    requires AiSuggestion(Key(s[i])) in queue || exists x :: x in s[..i] && Key(x) == Key(s[i])
    ensures !Fits(queue, s)
  {
    if AiSuggestion(Key(s[i])) !in queue {
      var x :| x in s[..i] && Key(x) == Key(s[i]);
      var j :| 0 <= j < i && s[j] == x;
    }
  }

  lemma FitsOneMore(queue: map<QueueId, QueueRow>, s: seq<Suggestion>, i: nat)
    requires i < |s| && Fits(queue, s[..i])
    requires AiSuggestion(Key(s[i])) !in queue && forall x :: x in s[..i] ==> Key(x) != Key(s[i])
    ensures Fits(queue, s[..i + 1])
  {
    var t := s[..i + 1];
    assert t == s[..i] + [s[i]];
    forall m, n | 0 <= m < n < |t| ensures Key(t[m]) != Key(t[n]) {
      assert t[m] == s[..i][m];
      if n < i { assert t[n] == s[..i][n]; }
    }
  }

  // ---- derive's output never feeds its input ------------------------------------------------

  /** Some row the diff owns is read by one of derive's own queries. */
  ghost predicate ReadsItself(t: Tables)
  {
    OwnRowRead(t.edges, IsAttribution) || OwnRowRead(t.edges, IsMembership)
  }

  /** Writing a plan leaves what derive reads as it was, exactly when no row it owns is one it reads. */
  lemma OutputIsNotInput(geo: Geometry, opts: Options, t: Tables, p: Plan)
    requires IsPlan(geo, opts, FingerprintOf(opts, t), p)
    ensures FingerprintOf(opts, Applied(opts, t, p)) == FingerprintOf(opts, t) <==> !ReadsItself(t)
  {
    PlansAreDerived(geo, opts, FingerprintOf(opts, t), p);
    assert opts.skipCentroids ==> p.centroids.Keep?;
    ReadAlike(t, p, IsAttribution);
    ReadAlike(t, p, IsMembership);
    ReadAlike(t, p, CentroidEdge(t.nodes));
    CentroidEdgesAreAttributions(t);
  }

  /** One edge query reads the same afterwards exactly when it reads no row the diff owns. */
  lemma ReadAlike(t: Tables, p: Plan, q: Edge -> bool)
    requires DerivedIds(p.desired) && DerivedTypes(p.desired) && forall e :: q(e) ==> Feeds(e)
    ensures Pairs(Selected(Synced(t.edges, p.desired, p.now), q)) == Pairs(Selected(t.edges, q)) <==> !OwnRowRead(t.edges, q)
  {
    OutputNeverFeedsInput(t.edges, p.desired, p.now, q);
    Shrinks(t.edges, Synced(t.edges, p.desired, p.now), q);
  }

  lemma CentroidEdgesAreAttributions(t: Tables)
    ensures OwnRowRead(t.edges, CentroidEdge(t.nodes)) ==> OwnRowRead(t.edges, IsAttribution)
  {
    if OwnRowRead(t.edges, CentroidEdge(t.nodes)) {
      var id :| id in t.edges && Current(id, t.edges[id]) && CentroidEdge(t.nodes)(t.edges[id]);
      assert IsAttribution(t.edges[id]);
    }
  }

  lemma Shrinks(rows: Rows, after: Rows, q: Edge -> bool)
    ensures |Selected(after, q)| < |Selected(rows, q)| ==> Pairs(Selected(after, q)) != Pairs(Selected(rows, q))
  {
    PairsCount(Selected(rows, q));
    PairsCount(Selected(after, q));
    assert |Selected(rows, q)| == |Selected(rows, q).Keys| && |Selected(after, q)| == |Selected(after, q).Keys|;
  }

  /** However the rows began, after one applied plan they are well formed, so from then on derive never reads itself. */
  lemma AppliedIsWellFormed(geo: Geometry, opts: Options, fp: Fingerprint, t: Tables, p: Plan)
    requires IsPlan(geo, opts, fp, p)
    ensures !ReadsItself(Applied(opts, t, p))
  {
    PlansAreDerived(geo, opts, fp, p);
    SyncedMeaning(t.edges, p.desired, p.now);
    var after := Applied(opts, t, p).edges;
    forall id | id in after && Current(id, after[id])
      ensures after[id].createdBy == DeriveTag && IsDerivedType(after[id].edgeType)
    {
      assert id in CurrentIds(after);
    }
    TaggedRowsAreNotRead(after, IsAttribution);
    TaggedRowsAreNotRead(after, IsMembership);
  }

  /** A second run on the result of the first has no edge to insert, delete or update, and the same centroids to write. */
  lemma SecondRunChangesNothing(geo: Geometry, opts: Options, t: Tables, p: Plan, q: Plan, arts: seq<string>)
    requires !ReadsItself(t)
    requires IsPlan(geo, opts, FingerprintOf(opts, t), p)
    requires InOrder(arts, FingerprintOf(opts, t)) && IdsTellApart(WantedEdges(geo, opts, FingerprintOf(opts, t), arts))
    requires IsPlan(geo, opts, FingerprintOf(opts, Applied(opts, t, p)), q)
    ensures var once := Applied(opts, t, p);
      && Changes(once.edges, q.desired) == Counters(0, 0, 0, 0)
      && Applied(opts, once, q).edges == once.edges
      && Applied(opts, once, q).centroids == once.centroids
  {
    var fp := FingerprintOf(opts, t);
    assert FingerprintOf(opts, Applied(opts, t, p)) == fp by { OutputIsNotInput(geo, opts, t, p); }
    EqualInputsEqualEdges(geo, opts, fp, p, q, arts);
    assert DerivedIds(p.desired) by { PlansAreDerived(geo, opts, fp, p); }
    AppliedTwice(opts, t, p, q);
  }

  lemma AppliedTwice(opts: Options, t: Tables, p: Plan, q: Plan)
    requires DerivedIds(p.desired) && p.desired == q.desired && p.centroids == q.centroids
    ensures var once := Applied(opts, t, p);
      && Changes(once.edges, q.desired) == Counters(0, 0, 0, 0)
      && Applied(opts, once, q).edges == once.edges
      && Applied(opts, once, q).centroids == once.centroids
  {
    SecondSyncIsEmpty(t.edges, p.desired, p.now);
    NoChangesMeansSame(Synced(t.edges, p.desired, p.now), q.desired, q.now);
  }

  // ---- when a run can not go through ------------------------------------------------------------

  /** The queue id of this pair is taken by a row the run does not clear: one already settled, or someone else's. */
  predicate IdTaken(t: Tables, art: string, creator: string)
  {
    AiSuggestion(Key(Suggestion(art, creator))) in Cleared(t.queue)
  }

  /** What the scan would suggest for some artwork has its id taken. */
  ghost predicate MeetsTakenId(geo: Geometry, opts: Options, t: Tables, order: seq<string>)
  {
    var fp := FingerprintOf(opts, t);
    exists a, c :: a in Artworks(fp) && FirstIn(order, Choices(geo, opts, fp)[a]) == Some(c)
      && PairHash(a, c) !in t.rejected && IdTaken(t, a, c)
  }

  predicate DistinctArtworks(s: seq<Suggestion>)
  {
    forall i, j :: 0 <= i < j < |s| ==> s[i].art != s[j].art
  }

  lemma {:induction false} OncePerArtwork(choices: map<string, set<string>>, rejected: set<string>, arts: seq<string>, order: seq<string>)
    requires (forall a :: a in arts ==> a in choices) && forall i, j :: 0 <= i < j < |arts| ==> arts[i] != arts[j]
    ensures DistinctArtworks(Suggested(choices, rejected, arts, order))
  {
    if arts != [] {
      var a, front := arts[|arts| - 1], arts[..|arts| - 1];
      assert a !in front;
      OncePerArtwork(choices, rejected, front, order);
      var earlier := Suggested(choices, rejected, front, order);
      forall i | 0 <= i < |earlier| ensures earlier[i].art != a {
        SuggestedMeaning(choices, rejected, front, order, earlier[i]);
      }
    }
  }

  lemma KeyTellsArtwork(x: Suggestion, y: Suggestion)
    requires '|' !in x.art && '|' !in y.art && Key(x) == Key(y)
    ensures x.art == y.art
  {
    assert forall i :: 0 <= i < |x.art| ==> Key(x)[i] == x.art[i];
    assert forall i :: 0 <= i < |y.art| ==> Key(y)[i] == y.art[i];
    assert Key(x)[|x.art|] == '|' && Key(y)[|y.art|] == '|';
    assert |x.art| == |y.art|;
  }

  /** The suggestions of a plan fit exactly when none meets a taken id and no two share one. */
  lemma FitsExactly(geo: Geometry, opts: Options, t: Tables, order: seq<string>, p: Plan)
    requires IsPlanIn(geo, opts, FingerprintOf(opts, t), order, p)
    ensures Fits(Cleared(t.queue), p.suggestions) <==> !MeetsTakenId(geo, opts, t, order) && KeysDiffer(p.suggestions)
  {
    var fp := FingerprintOf(opts, t);
    var choices := Choices(geo, opts, fp);
    var arts :| InOrder(arts, fp) && p.suggestions == Suggested(choices, fp.rejected, arts, order);
    if MeetsTakenId(geo, opts, t, order) {
      var a, c :| a in Artworks(fp) && FirstIn(order, choices[a]) == Some(c) && PairHash(a, c) !in t.rejected && IdTaken(t, a, c);
      SuggestedMeaning(choices, fp.rejected, arts, order, Suggestion(a, c));
    } else {
      forall x | x in p.suggestions ensures AiSuggestion(Key(x)) !in Cleared(t.queue) {
        SuggestedMeaning(choices, fp.rejected, arts, order, x);
        assert !IdTaken(t, x.art, x.creator);
      }
    }
  }

  /** Without bars in artwork ids no two suggestions share an id. */
  lemma BarFreeKeysDiffer(geo: Geometry, opts: Options, t: Tables, order: seq<string>, p: Plan)
    requires IsPlanIn(geo, opts, FingerprintOf(opts, t), order, p)
    requires forall a :: a in Artworks(FingerprintOf(opts, t)) ==> '|' !in a
    ensures KeysDiffer(p.suggestions)
  {
    var fp := FingerprintOf(opts, t);
    var choices := Choices(geo, opts, fp);
    var arts :| InOrder(arts, fp) && p.suggestions == Suggested(choices, fp.rejected, arts, order);
    LessIsStrictTotalOrder();
    SuggestedKeysDiffer(choices, fp.rejected, arts, order);
  }

  predicate KeysDiffer(s: seq<Suggestion>)
  {
    forall i, j :: 0 <= i < j < |s| ==> Key(s[i]) != Key(s[j])
  }

  lemma SuggestedKeysDiffer(choices: map<string, set<string>>, rejected: set<string>, arts: seq<string>, order: seq<string>)
    requires (forall a :: a in arts ==> a in choices && '|' !in a) && forall i, j :: 0 <= i < j < |arts| ==> arts[i] != arts[j]
    ensures KeysDiffer(Suggested(choices, rejected, arts, order))
  {
    var s := Suggested(choices, rejected, arts, order);
    OncePerArtwork(choices, rejected, arts, order);
    forall i, j | 0 <= i < j < |s| ensures Key(s[i]) != Key(s[j]) {
      SuggestedMeaning(choices, rejected, arts, order, s[i]);
      SuggestedMeaning(choices, rejected, arts, order, s[j]);
      if Key(s[i]) == Key(s[j]) { KeyTellsArtwork(s[i], s[j]); }
    }
  }

  /** An artwork without a creator whose every best creator was suggested and settled before, none of them rejected. */
  ghost predicate Blocked(geo: Geometry, opts: Options, t: Tables, a: string)
  {
    var fp := FingerprintOf(opts, t);
    && a in Artworks(fp) && !Attributed(fp, a) && BestCreators(geo, opts, fp, a) != {}
    && forall c :: c in BestCreators(geo, opts, fp, a) ==> PairHash(a, c) !in t.rejected && IdTaken(t, a, c)
  }

  /** One such artwork, say after an approved suggestion whose attribution has ended, and every run on steady inputs fails. */
  lemma SettledSuggestionBlocks(geo: Geometry, opts: Options, atRead: seq<Tables>, atApply: seq<Tables>, r: Outcome, after: Tables, a: string)
    requires |atRead| == |atApply| == MAX_ATTEMPTS && Steady(opts, atRead[0], atApply[0])
    requires Blocked(geo, opts, atApply[0], a)
    requires Explains(geo, opts, false, atRead, atApply, r, after)
    ensures r.Failed? && r.attempt == 0 && after == atApply[0]
  {
    var t, n := atApply[0], AttemptOf(r);
    assert n == 0;
    var fp := FingerprintOf(opts, t);
    if r.Done? {
      var order :| IsPlanIn(geo, opts, fp, order, r.plan);
      BlockedNeverFits(geo, opts, t, order, r.plan, a);
    }
  }

  lemma BlockedNeverFits(geo: Geometry, opts: Options, t: Tables, order: seq<string>, p: Plan, a: string)
    requires Blocked(geo, opts, t, a) && IsPlanIn(geo, opts, FingerprintOf(opts, t), order, p)
    ensures !Fits(Cleared(t.queue), p.suggestions)
  {
    var fp := FingerprintOf(opts, t);
    var choices := Choices(geo, opts, fp);
    var arts :| InOrder(arts, fp) && p.suggestions == Suggested(choices, fp.rejected, arts, order);
    assert choices[a] == BestCreators(geo, opts, fp, a);
    var some :| some in choices[a];
    assert some in order;
    var x := Suggestion(a, FirstIn(order, choices[a]).value);
    SuggestedMeaning(choices, fp.rejected, arts, order, x);
    assert IdTaken(t, a, x.creator);
  }

  /** One artwork, one stored centroid close to it, the pair approved once and its attribution ended since. */
  function OnceApproved(opts: Options, v: Vec, w: Vec): Tables
  {
    var a, c := "artwork:a", "practitioner:c";
    Tables(
      map[a := Node(false), c := Node(false)],
      map[a := VectorRow(opts.model, DIMS, v, Null, Null)],
      map[c := VectorRow(opts.model, DIMS, w, Null, Null)],
      map[Plain("e") := Edge(a, c, CreatedBy, NoSignal, Null, Null, NoWriter, Null, Text("ended"), Null, "", "")],
      map[AiSuggestion(Key(Suggestion(a, c))) := QueueRow(Approved, Pipeline, a, c, "")],
      {})
  }

  lemma OnceApprovedRows(opts: Options, v: Vec, w: Vec)
    ensures FingerprintOf(opts, OnceApproved(opts, v, w)).attributions == multiset{}
  {
    var t := OnceApproved(opts, v, w);
    assert forall id :: id in t.edges ==> !IsAttribution(t.edges[id]);
    assert Selected(t.edges, IsAttribution) == map[];
  }

  lemma OneVector(nodes: map<string, Node>, model: string, id: string, v: Vec)
    requires Standing(nodes, id)
    ensures Usable(ReadVectors(nodes, map[id := VectorRow(model, DIMS, v, Null, Null)], model)) == map[id := v]
  {
    var rows := map[id := VectorRow(model, DIMS, v, Null, Null)];
    assert ReadVectors(nodes, rows, model) == rows;
  }

  lemma OnceApprovedReads(opts: Options, v: Vec, w: Vec)
    requires opts.skipCentroids
    ensures var fp := FingerprintOf(opts, OnceApproved(opts, v, w));
      && fp.attributions == multiset{}
      && Usable(fp.centroids) == map["practitioner:c" := w]
      && Usable(fp.identity) == map["artwork:a" := v]
  {
    var t := OnceApproved(opts, v, w);
    OnceApprovedRows(opts, v, w);
    OneVector(t.nodes, opts.model, "practitioner:c", w);
    OneVector(t.nodes, opts.model, "artwork:a", v);
  }

  lemma OnceApprovedIsBlocked(geo: Geometry, opts: Options, v: Vec, w: Vec)
    requires opts.skipCentroids && geo.cosine(v, w) >= opts.tauAttribute
    ensures Blocked(geo, opts, OnceApproved(opts, v, w), "artwork:a")
  {
    var fp := FingerprintOf(opts, OnceApproved(opts, v, w));
    OnceApprovedReads(opts, v, w);
    assert Identities(fp) == map["artwork:a" := v] && CentroidsOf(geo, opts, fp) == map["practitioner:c" := w];
    OnlyChoice(geo, opts, fp, "artwork:a", "practitioner:c", v, w);
  }

  lemma OnlyChoice(geo: Geometry, opts: Options, fp: Fingerprint, a: string, c: string, v: Vec, w: Vec)
    requires Identities(fp) == map[a := v] && IsArtwork(a) && CentroidsOf(geo, opts, fp) == map[c := w]
    requires geo.cosine(v, w) >= opts.tauAttribute
    ensures a in Artworks(fp) && BestCreators(geo, opts, fp, a) == {c}
  {
    assert a in Artworks(fp) && Artworks(fp)[a] == v;
    var cs := CentroidsOf(geo, opts, fp);
    assert c in cs && cs[c] == w;
    assert forall o :: o in cs ==> o == c;
    assert c in BestCreators(geo, opts, fp, a);
  }

  /** After a run that is done, the pending pipeline rows are exactly the planned suggestions, each with its artwork and creator,
      and every row the run does not clear is as it was. */
  lemma {:induction false} PendingAreSuggestions(queue: map<QueueId, QueueRow>, s: seq<Suggestion>, now: string, id: QueueId, x: Suggestion)
    requires Fits(Cleared(queue), s)
    ensures var after := Queued(Cleared(queue), s, now);
      && (x in s ==>
            && AiSuggestion(x.art + "|" + x.creator) in after
            && after[AiSuggestion(x.art + "|" + x.creator)] == QueueRow(Pending, Pipeline, x.art, x.creator, now))
      && (id in after && after[id].submittedBy == Pipeline && after[id].status == Pending ==>
            Suggestion(after[id].art, after[id].creator) in s && id == AiSuggestion(after[id].art + "|" + after[id].creator))
      && (id in Cleared(queue) ==> id in after && after[id] == queue[id])
      && (id in after && id !in Cleared(queue) ==> after[id].submittedBy == Pipeline && after[id].status == Pending)
  {
    if s != [] {
      var front, last := s[..|s| - 1], s[|s| - 1];
      assert s == front + [last];
      PendingAreSuggestions(queue, front, now, id, x);
    }
  }
}
