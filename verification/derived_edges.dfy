/** src/embed/inputs.ts: which edge rows the derive pass reads, and how rows are told apart. */
module EdgeRows {

  datatype EdgeType = StyleKin | VisuallyAffine | Embodies | CreatedBy | OtherType(name: string)

  /** edges.created_by: NULL, derive's own tag, or anyone else. */
  datatype Writer = NoWriter | DeriveTag | SomeWriter(name: string)

  datatype SignalRef = NoSignal | DeriveSignal | SomeSignal(name: string)

  datatype Cell = Null | Text(text: string)

  /** An edge id either ends in the derived tag, or does not. */
  datatype RowId = Derived(stem: string) | Plain(name: string)

  datatype Edge = Edge(
    source: string, target: string, edgeType: EdgeType, signal: SignalRef, confidence: Cell, charge: Cell,
    createdBy: Writer, eventTime: Cell, validUntil: Cell, invalidatedBy: Cell,
    createdAt: string, validFrom: string)

  predicate Live(e: Edge)
  {
    e.validUntil == Null
  }

  predicate IsArtwork(id: string)
  {
    "artwork:" <= id
  }

  predicate IsCreator(id: string)
  {
    "practitioner:" <= id || "collective:" <= id
  }

  predicate IsConcept(id: string)
  {
    "concept:" <= id
  }

  /** CREATED_BY_SQL: a live attribution of an artwork to a practitioner or collective. */
  predicate IsAttribution(e: Edge)
  {
    e.edgeType == CreatedBy && Live(e) && IsArtwork(e.source) && IsCreator(e.target)
  }

  /** EMBODIES_MEMBERS_SQL: live membership not written by derive itself; a NULL writer counts. */
  predicate IsMembership(e: Edge)
  {
    e.edgeType == Embodies && Live(e) && e.createdBy != DeriveTag && IsArtwork(e.source) && IsConcept(e.target)
  }

  predicate Feeds(e: Edge)
  {
    IsAttribution(e) || IsMembership(e)
  }

  predicate IsDerivedType(t: EdgeType)
  {
    t == StyleKin || t == VisuallyAffine || t == Embodies
  }

  function Label(t: EdgeType): string
  {
    match t
    case StyleKin => "STYLE_KIN"
    case VisuallyAffine => "VISUALLY_AFFINE"
    case Embodies => "EMBODIES"
    case CreatedBy => "CREATED_BY"
    case OtherType(name) => name
  }

  /** `source--TYPE--target`; the derived tag that follows it is the constructor. */
  function EdgeId(source: string, edgeType: EdgeType, target: string): (id: RowId)
    ensures id.Derived?
  {
    Derived(source + (DASHES + Label(edgeType)) + (DASHES + target))
  }

  const DASHES: string := ['-', '-']

  /** `s`, a derived label and its dashes begin `longer` and its dashes: where an edge of one may pass for one of the other. */
  predicate Swallows(longer: string, s: string, t: EdgeType)
  {
    s + (DASHES + Label(t)) + DASHES <= longer + DASHES
  }

  /** Edges from these sources, of any derived type to any target, have ids of their own. */
  ghost predicate IdsTellApartFrom(sources: set<string>)
  {
    forall s, t, a, s', t', a' ::
      s in sources && s' in sources && IsDerivedType(t) && IsDerivedType(t') && EdgeId(s, t, a) == EdgeId(s', t', a') ==>
        s == s' && t == t' && a == a'
  }

  ghost predicate NoneSwallows(sources: set<string>)
  {
    forall s, s', t :: s in sources && s' in sources && IsDerivedType(t) ==> !Swallows(s', s, t)
  }

  /** Ids tell the edges of some sources apart exactly when no source, with a label, begins another. */
  lemma IdsTellApartExactly(sources: set<string>)
    ensures IdsTellApartFrom(sources) <==> NoneSwallows(sources)
  {
    if NoneSwallows(sources) {
      forall s, t, a, s', t', a' | s in sources && s' in sources && IsDerivedType(t) && IsDerivedType(t')
        && EdgeId(s, t, a) == EdgeId(s', t', a')
        ensures s == s' && t == t' && a == a'
      {
        if |s| == |s'| {
          SameSource(s, t, a, s', t', a');
        } else if |s| < |s'| {
          LongerSwallows(s, t, a, s', t', a');
        } else {
          LongerSwallows(s', t', a', s, t, a);
        }
      }
    } else {
      var s, s', t :| s in sources && s' in sources && IsDerivedType(t) && Swallows(s', s, t);
      var a := SwallowedCollides(s, s', t, t, []);
      assert EdgeId(s, t, a) == EdgeId(s', t, []) && s != s';
    }
  }

  lemma LabelHasNoDash(t: EdgeType)
    requires IsDerivedType(t)
    ensures |Label(t)| > 0 && forall i :: 0 <= i < |Label(t)| ==> Label(t)[i] != '-'
    ensures Label(t)[0] == (if t == StyleKin then 'S' else if t == VisuallyAffine then 'V' else 'E')
  {
  }

  lemma SameSource(s: string, t: EdgeType, a: string, s': string, t': EdgeType, a': string)
    requires IsDerivedType(t) && IsDerivedType(t') && |s| == |s'| && EdgeId(s, t, a) == EdgeId(s', t', a')
    ensures s == s' && t == t' && a == a'
  {
    LabelHasNoDash(t);
    LabelHasNoDash(t');
    PartsOf(EdgeId(s, t, a).stem, s, Label(t), a);
    PartsOf(EdgeId(s, t, a).stem, s', Label(t'), a');
    assert EdgeId(s, t, a).stem[|s| + 2] == Label(t)[0] == Label(t')[0];
  }

  /** Where the parts of an id lie. */
  lemma PartsOf(id: string, s: string, l: string, a: string)
    requires id == s + (DASHES + l) + (DASHES + a)
    ensures |id| == |s| + 4 + |l| + |a| && id[|s|] == '-' && id[|s| + 1] == '-'
    ensures forall k :: |s| + 2 <= k < |s| + 2 + |l| ==> id[k] == l[k - |s| - 2]
    ensures id[..|s|] == s && id[|s| + 4 + |l|..] == a
    ensures id[..|s| + 2] == s + DASHES && id[..|s| + 4 + |l|] == s + (DASHES + l) + DASHES
  {
  }

  /** The dashes after the longer source cannot fall inside the other's label. */
  lemma LongerSwallows(s: string, t: EdgeType, a: string, s': string, t': EdgeType, a': string)
    requires IsDerivedType(t) && IsDerivedType(t') && |s| < |s'| && EdgeId(s, t, a) == EdgeId(s', t', a')
    ensures Swallows(s', s, t)
  {
    LabelHasNoDash(t);
    DashesFallBehind(EdgeId(s, t, a).stem, s, Label(t), a, s', Label(t'), a');
  }

  lemma DashesFallBehind(id: string, s: string, l: string, a: string, s': string, l': string, a': string)
    requires |s| < |s'| && l != [] && forall i :: 0 <= i < |l| ==> l[i] != '-'
    requires id == s + (DASHES + l) + (DASHES + a) && id == s' + (DASHES + l') + (DASHES + a')
    ensures s + (DASHES + l) + DASHES <= s' + DASHES
  {
    PartsOf(id, s, l, a);
    PartsOf(id, s', l', a');
    var d := |s'| - |s|;
    assert d > |l| + 1;
    assert id[..|s'| + 2][..|s| + 4 + |l|] == id[..|s| + 4 + |l|];
  }

  /** What remains of the longer source, with its own label, can be the other's target. */
  lemma SwallowedCollides(s: string, s': string, t: EdgeType, t': EdgeType, a': string) returns (a: string)
    requires Swallows(s', s, t)
    ensures |s| < |s'| && EdgeId(s, t, a) == EdgeId(s', t', a')
  {
    a := Remaining(s, Label(t), s', Label(t'), a');
  }

  lemma Remaining(s: string, l: string, s': string, l': string, a': string) returns (a: string)
    requires s + (DASHES + l) + DASHES <= s' + DASHES
    ensures |s| < |s'| && s + (DASHES + l) + (DASHES + a) == s' + (DASHES + l') + (DASHES + a')
  {
    var begun := s + (DASHES + l) + DASHES;
    var rest := (s' + DASHES)[|begun|..];
    var tail := l' + (DASHES + a');
    a := rest + tail;
    calc {
      s' + (DASHES + l') + (DASHES + a');
      (s' + DASHES) + tail;
      { assert s' + DASHES == begun + rest; }
      (begun + rest) + tail;
      begun + a;
      s + (DASHES + l) + (DASHES + a);
    }
  }

  /** Slugs of the older rules have no capitals; today's have no two dashes in a row. */
  predicate NoCapitals(s: string)
  {
    forall i :: 0 <= i < |s| ==> !('A' <= s[i] <= 'Z')
  }

  predicate NoDoubleDash(s: string)
  {
    forall i :: 0 <= i < |s| - 1 ==> !(s[i] == '-' && s[i + 1] == '-')
  }

  lemma MintedNeverSwallows(s: string, s': string, t: EdgeType)
    requires (NoCapitals(s') || NoDoubleDash(s')) && IsDerivedType(t)
    ensures !Swallows(s', s, t)
  {
    LabelHasNoDash(t);
    var begun := s + (DASHES + Label(t)) + DASHES;
    assert begun[|s| + 2] == Label(t)[0] && begun[|s|] == '-' && begun[|s| + 1] == '-';
    assert |s| + 2 < |s'| ==> forall i :: |s| <= i <= |s| + 2 ==> (s' + DASHES)[i] == s'[i];
  }

  /** So ids made of slugs, old or new, are always told apart. */
  lemma MintedTellApart(sources: set<string>)
    requires forall s :: s in sources ==> NoCapitals(s) || NoDoubleDash(s)
    ensures IdsTellApartFrom(sources)
  {
    forall s, s', t | s in sources && s' in sources && IsDerivedType(t) ensures !Swallows(s', s, t) {
      MintedNeverSwallows(s, s', t);
    }
    IdsTellApartExactly(sources);
  }

  /** Four creators, two edges, one id: it takes a label inside a creator's id, which no slug has. */
  lemma CreatorsCanCollide()
    ensures var a, b, c := "practitioner:a", "practitioner:b", "practitioner:c";
      var longer := a + DASHES + "STYLE_KIN" + DASHES + b;
      IsCreator(longer) && EdgeId(longer, StyleKin, c) == EdgeId(a, StyleKin, b + DASHES + "STYLE_KIN" + DASHES + c)
  {
    var a, b, c := "practitioner:a", "practitioner:b", "practitioner:c";
    var l, longer := "STYLE_KIN", "practitioner:a" + DASHES + "STYLE_KIN" + DASHES + "practitioner:b";
    assert longer + (DASHES + l) + (DASHES + c) == a + (DASHES + l) + (DASHES + (b + DASHES + l + DASHES + c));
  }
}

/** src/embed/derive.ts, applyDerivedEdges: bring the derived rows to the desired set with the smallest write. */
module DerivedEdges {
  import opened Finite
  import opened EdgeRows
  import opened Sorting

  datatype Desired = Desired(source: string, target: string, edgeType: EdgeType)

  type Rows = map<RowId, Edge>
  type Wanted = map<RowId, Desired>

  datatype Counters = Counters(inserted: nat, deleted: nat, updatedRows: nat, updatedCells: nat)

  datatype Column = Source | Target | Kind | Signal | Confidence | Charge | Creator | EventTime | ValidUntil | InvalidatedBy

  /** The rows applyDerivedEdges looks at: tagged as derived, or carrying a derived id. */
  predicate Current(id: RowId, e: Edge)
  {
    e.createdBy == DeriveTag || id.Derived?
  }

  /** The wanted content of a derived row; both timestamps belong to the row itself. */
  function Want(d: Desired, createdAt: string, validFrom: string): Edge
  {
    Edge(d.source, d.target, d.edgeType, DeriveSignal, Text("low"), Null, DeriveTag, Null, Null, Null, createdAt, validFrom)
  }

  function Corrected(e: Edge, d: Desired): Edge
  {
    Want(d, e.createdAt, e.validFrom)
  }

  predicate Agrees(e: Edge, w: Edge, c: Column)
  {
    match c
    case Source => e.source == w.source
    case Target => e.target == w.target
    case Kind => e.edgeType == w.edgeType
    case Signal => e.signal == w.signal
    case Confidence => e.confidence == w.confidence
    case Charge => e.charge == w.charge
    case Creator => e.createdBy == w.createdBy
    case EventTime => e.eventTime == w.eventTime
    case ValidUntil => e.validUntil == w.validUntil
    case InvalidatedBy => e.invalidatedBy == w.invalidatedBy
  }

  function Differing(e: Edge, d: Desired): set<Column>
  {
    set c: Column | !Agrees(e, Corrected(e, d), c)
  }

  /** UPDATE edges SET <cols> = <wanted values>. */
  function SetCells(e: Edge, w: Edge, cols: set<Column>): Edge
  {
    Edge(
      if Source in cols then w.source else e.source,
      if Target in cols then w.target else e.target,
      if Kind in cols then w.edgeType else e.edgeType,
      if Signal in cols then w.signal else e.signal,
      if Confidence in cols then w.confidence else e.confidence,
      if Charge in cols then w.charge else e.charge,
      if Creator in cols then w.createdBy else e.createdBy,
      if EventTime in cols then w.eventTime else e.eventTime,
      if ValidUntil in cols then w.validUntil else e.validUntil,
      if InvalidatedBy in cols then w.invalidatedBy else e.invalidatedBy,
      e.createdAt, e.validFrom)
  }

  /** Writing only the differing cells gives the whole wanted row; no differing cell means it was right. */
  lemma DifferingCells(e: Edge, d: Desired)
    ensures SetCells(e, Corrected(e, d), Differing(e, d)) == Corrected(e, d)
    ensures Differing(e, d) == {} <==> e == Corrected(e, d)
  {
    var w := Corrected(e, d);
    if Differing(e, d) == {} {
      assert forall c: Column :: c !in Differing(e, d) ==> Agrees(e, w, c);
      assert Agrees(e, w, Source) && Agrees(e, w, Target) && Agrees(e, w, Kind) && Agrees(e, w, Signal)
          && Agrees(e, w, Confidence) && Agrees(e, w, Charge) && Agrees(e, w, Creator) && Agrees(e, w, EventTime)
          && Agrees(e, w, ValidUntil) && Agrees(e, w, InvalidatedBy);
    }
  }

  ghost function CurrentIds(rows: Rows): set<RowId>
  {
    set id | id in rows && Current(id, rows[id])
  }

  ghost function Unwanted(rows: Rows, desired: Wanted): set<RowId>
  {
    CurrentIds(rows) - desired.Keys
  }

  /** Among `ids`: to insert, to correct, and the cells to correct. */
  ghost function Missing(rows: Rows, desired: Wanted, ids: set<RowId>): set<RowId>
  {
    set id | id in ids && id in desired && id !in rows
  }

  ghost function Stale(rows: Rows, desired: Wanted, ids: set<RowId>): set<RowId>
  {
    set id | id in ids && id in desired && id in rows && rows[id] != Corrected(rows[id], desired[id])
  }

  ghost function StaleCells(rows: Rows, desired: Wanted, ids: set<RowId>): set<(RowId, Column)>
  {
    set id, c | id in ids && id in desired && id in rows && c in Differing(rows[id], desired[id]) :: (id, c)
  }

  /** What row `id` ends as. */
  ghost function After(rows: Rows, desired: Wanted, now: string, id: RowId): Edge
    requires id in rows || id in desired
  {
    if id !in desired then rows[id]
    else if id in rows then Corrected(rows[id], desired[id])
    else Want(desired[id], now, now)
  }

  /** The edges table once the derived rows are the desired ones. */
  ghost function Synced(rows: Rows, desired: Wanted, now: string): Rows
  {
    map id | id in rows.Keys - Unwanted(rows, desired) + desired.Keys :: After(rows, desired, now, id)
  }

  ghost function Changes(rows: Rows, desired: Wanted): Counters
  {
    Counters(|Missing(rows, desired, desired.Keys)|, |Unwanted(rows, desired)|,
             |Stale(rows, desired, desired.Keys)|, |StaleCells(rows, desired, desired.Keys)|)
  }

  ghost function Touched(rows: Rows, desired: Wanted): set<RowId>
  {
    Unwanted(rows, desired) + Missing(rows, desired, desired.Keys) + Stale(rows, desired, desired.Keys)
  }

  ghost predicate DerivedIds(desired: Wanted)
  {
    forall id :: id in desired ==> id.Derived?
  }

  /** The edges table; `touched` remembers which rows any statement wrote. */
  class EdgeTable {
    var rows: Rows
    ghost var touched: set<RowId>

    constructor (rows: Rows)
      ensures this.rows == rows && touched == {}
    {
      this.rows := rows;
      touched := {};
    }

    method Delete(id: RowId)
      requires id in rows
      modifies this
      ensures rows == old(rows) - {id} && touched == old(touched) + {id}
    {
      rows := rows - {id};
      touched := touched + {id};
    }

    /** The primary key makes inserting over an existing id an error: callers must show there is none. */
    method Insert(id: RowId, e: Edge)
      requires id !in rows
      modifies this
      ensures rows == old(rows)[id := e] && touched == old(touched) + {id}
    {
      rows := rows[id := e];
      touched := touched + {id};
    }

    method Update(id: RowId, w: Edge, cols: set<Column>)
      requires id in rows
      modifies this
      ensures rows == old(rows)[id := SetCells(old(rows)[id], w, cols)] && touched == old(touched) + {id}
    {
      rows := rows[id := SetCells(rows[id], w, cols)];
      touched := touched + {id};
    }

    method ApplyDerived(desired: Wanted, now: string, dry: bool) returns (out: Counters)
      requires DerivedIds(desired)
      modifies this
      ensures out == Changes(old(rows), desired)
      ensures rows == if dry then old(rows) else Synced(old(rows), desired, now)
      ensures touched == if dry then old(touched) else old(touched) + Touched(old(rows), desired)
    {
      var byId := map id | id in rows && Current(id, rows[id]) :: rows[id];
      assert byId.Keys - desired.Keys == Unwanted(rows, desired);
      var deleted := DeleteUnwanted(byId.Keys, byId.Keys - desired.Keys, desired, dry);
      NothingWrittenYet(old(rows), desired, now);
      var inserted, updatedRows, updatedCells := WriteDesired(byId, desired, now, dry, old(rows));
      Regroup(old(touched), Unwanted(old(rows), desired), Missing(old(rows), desired, desired.Keys),
              Stale(old(rows), desired, desired.Keys));
      out := Counters(inserted, deleted, updatedRows, updatedCells);
    }

    method DeleteUnwanted(ids: set<RowId>, ghost unwanted: set<RowId>, desired: Wanted, dry: bool) returns (deleted: nat)
      requires forall id :: id in unwanted <==> id in ids && id !in desired
      requires forall id :: id in ids ==> id in rows
      modifies this
      ensures deleted == |unwanted|
      ensures rows == if dry then old(rows) else old(rows) - unwanted
      ensures touched == if dry then old(touched) else old(touched) + unwanted
    {
      deleted := 0;
      ghost var gone: set<RowId> := {};
      ghost var log: seq<RowId> := [];
      var left := ids;
      while left != {}
        invariant forall id :: id in left ==> id in ids && id in rows
        invariant forall id :: id in gone <==> id in unwanted && id !in left
        invariant deleted == |log| && ListsOnce(log, gone)
        invariant dry ==> unchanged(this)
        invariant !dry ==> rows == old(rows) - gone && touched == old(touched) + gone
      {
        var id :| id in left;
        left := left - {id};
        if id !in desired {
          MinusOneMore(old(rows), gone, id, old(touched));
          gone, log := gone + {id}, log + [id];
          deleted := deleted + 1;
          if !dry { Delete(id); }
        }
      }
      assert gone == unwanted;
      CountListed(log, unwanted);
    }

    method WriteDesired(byId: Rows, desired: Wanted, now: string, dry: bool, ghost start: Rows)
      returns (inserted: nat, updatedRows: nat, updatedCells: nat)
      requires DerivedIds(desired)
      requires Holds(byId, start)
      requires rows == if dry then start else Partly(start, desired, now, {})
      modifies this
      ensures rows == if dry then start else Partly(start, desired, now, desired.Keys)
      ensures inserted == |Missing(start, desired, desired.Keys)|
      ensures updatedRows == |Stale(start, desired, desired.Keys)|
      ensures updatedCells == |StaleCells(start, desired, desired.Keys)|
      ensures touched == if dry then old(touched) else
        old(touched) + Missing(start, desired, desired.Keys) + Stale(start, desired, desired.Keys)
    {
      inserted, updatedRows, updatedCells := 0, 0, 0;
      ghost var done: set<RowId> := {};
      ghost var was := touched;
      var todo := desired.Keys;
      NothingHandled(start, desired, was);
      while todo != {}
        invariant forall id :: id in todo ==> id in desired
        invariant forall id :: id in done <==> id in desired && id !in todo
        invariant Midway(rows, touched, was, start, desired, now, dry, done)
        invariant Counted(start, desired, done, inserted, updatedRows, updatedCells)
      {
        var id :| id in todo;
        todo := todo - {id};
        var i, r, c := WriteNext(id, byId, desired, now, dry, start, was, done);
        CountOneMore(start, desired, done, id, inserted, updatedRows, updatedCells);
        inserted, updatedRows, updatedCells := inserted + i, updatedRows + r, updatedCells + c;
        done := done + {id};
      }
      assert done == desired.Keys;
    }

    method WriteNext(id: RowId, byId: Rows, desired: Wanted, now: string, dry: bool, ghost start: Rows, ghost was: set<RowId>, ghost done: set<RowId>)
      returns (inserted: nat, updatedRows: nat, updatedCells: nat)
      requires DerivedIds(desired) && Holds(byId, start) && id in desired && id !in done
      requires Midway(rows, touched, was, start, desired, now, dry, done)
      modifies this
      ensures Midway(rows, touched, was, start, desired, now, dry, done + {id})
      ensures inserted == if id in start then 0 else 1
      ensures updatedCells == if id in start then |Differing(start[id], desired[id])| else 0
      ensures updatedRows == if id in start && start[id] != Corrected(start[id], desired[id]) then 1 else 0
    {
      GrowRows(start, desired, now, done, id);
      GrowTouched(start, desired, done, id, was);
      inserted, updatedRows, updatedCells := WriteOne(id, byId, desired[id], now, dry, start);
    }

    /** One desired edge: insert it, correct its differing cells, or leave it alone. */
    method WriteOne(id: RowId, byId: Rows, d: Desired, now: string, dry: bool, ghost start: Rows)
      returns (inserted: nat, updatedRows: nat, updatedCells: nat)
      requires id.Derived?
      requires Holds(byId, start)
      requires !dry ==> (id in rows <==> id in start) && (id in start ==> rows[id] == start[id])
      modifies this
      ensures inserted == if id in start then 0 else 1
      ensures updatedCells == if id in start then |Differing(start[id], d)| else 0
      ensures updatedRows == if id in start && start[id] != Corrected(start[id], d) then 1 else 0
      ensures rows == if dry then old(rows) else old(rows)[id := if id in start then Corrected(start[id], d) else Want(d, now, now)]
      ensures touched == if dry then old(touched)
        else old(touched) + if id in start && start[id] == Corrected(start[id], d) then {} else {id}
    {
      if id !in byId {
        if !dry { Insert(id, Want(d, now, now)); }
        return 1, 0, 0;
      }
      DifferingCells(byId[id], d);
      var cols := Differing(byId[id], d);
      if cols == {} { return 0, 0, 0; }
      if !dry { Update(id, Corrected(byId[id], d), cols); }
      return 0, 1, |cols|;
    }
  }

  lemma CountListed(log: seq<RowId>, ids: set<RowId>)
    requires ListsOnce(log, ids)
    ensures |log| == |ids|
  {
    DistinctCount(log);
    assert Elements(log) == ids;
  }

  /** Every row a desired id could meet is among those read. */
  ghost predicate Holds(byId: Rows, rows: Rows)
  {
    forall id: RowId :: id.Derived? ==> (id in byId <==> id in rows) && (id in rows ==> byId[id] == rows[id])
  }

  lemma MinusOneMore(rows: Rows, gone: set<RowId>, id: RowId, was: set<RowId>)
    ensures (rows - gone) - {id} == rows - (gone + {id})
    ensures was + gone + {id} == was + (gone + {id})
  {
  }

  lemma Regroup(a: set<RowId>, b: set<RowId>, c: set<RowId>, d: set<RowId>)
    ensures a + b + c + d == a + (b + c + d)
  {
  }

  lemma NothingWrittenYet(rows: Rows, desired: Wanted, now: string)
    ensures rows - Unwanted(rows, desired) == Partly(rows, desired, now, {})
    ensures Partly(rows, desired, now, desired.Keys) == Synced(rows, desired, now)
  {
    var all := Partly(rows, desired, now, desired.Keys);
    assert desired.Keys * desired.Keys == desired.Keys;
    assert all.Keys == Synced(rows, desired, now).Keys;
  }

  /** The table after the deletions and the desired ids in `done`. */
  ghost function Partly(rows: Rows, desired: Wanted, now: string, done: set<RowId>): Rows
  {
    map id | id in rows.Keys - Unwanted(rows, desired) + (done * desired.Keys) ::
      if id in done then After(rows, desired, now, id) else rows[id]
  }

  lemma GrowRows(rows: Rows, desired: Wanted, now: string, done: set<RowId>, id: RowId)
    requires DerivedIds(desired) && id in desired && id !in done
    ensures var was := Partly(rows, desired, now, done);
      && (id in was <==> id in rows) && (id in rows ==> was[id] == rows[id])
      && Partly(rows, desired, now, done + {id}) == was[id := After(rows, desired, now, id)]
  {
  }

  lemma GrowCounts(rows: Rows, desired: Wanted, done: set<RowId>, id: RowId)
    requires id in desired && id !in done
    ensures |Missing(rows, desired, done + {id})| == |Missing(rows, desired, done)| + if id in rows then 0 else 1
    ensures |Stale(rows, desired, done + {id})|
         == |Stale(rows, desired, done)| + if id in rows && rows[id] != Corrected(rows[id], desired[id]) then 1 else 0
    ensures |StaleCells(rows, desired, done + {id})|
         == |StaleCells(rows, desired, done)| + if id in rows then |Differing(rows[id], desired[id])| else 0
  {
    GrowSets(rows, desired, done, id);
    GrowCells(rows, desired, done, id);
  }

  /** The table and the touched rows once the ids in `done` are handled. */
  ghost predicate Midway(rows: Rows, touched: set<RowId>, was: set<RowId>, start: Rows, desired: Wanted, now: string, dry: bool, done: set<RowId>)
  {
    && rows == (if dry then start else Partly(start, desired, now, done))
    && touched == (if dry then was else was + Missing(start, desired, done) + Stale(start, desired, done))
  }

  ghost predicate Counted(start: Rows, desired: Wanted, done: set<RowId>, inserted: nat, updatedRows: nat, updatedCells: nat)
  {
    && inserted == |Missing(start, desired, done)|
    && updatedRows == |Stale(start, desired, done)|
    && updatedCells == |StaleCells(start, desired, done)|
  }

  lemma NothingHandled(start: Rows, desired: Wanted, was: set<RowId>)
    ensures Counted(start, desired, {}, 0, 0, 0)
    ensures was + Missing(start, desired, {}) + Stale(start, desired, {}) == was
  {
    assert Missing(start, desired, {}) == {} && Stale(start, desired, {}) == {} && StaleCells(start, desired, {}) == {};
  }

  lemma CountOneMore(start: Rows, desired: Wanted, done: set<RowId>, id: RowId, i: nat, r: nat, c: nat)
    requires Counted(start, desired, done, i, r, c) && id in desired && id !in done
    ensures Counted(start, desired, done + {id},
      i + (if id in start then 0 else 1),
      r + (if id in start && start[id] != Corrected(start[id], desired[id]) then 1 else 0),
      c + (if id in start then |Differing(start[id], desired[id])| else 0))
  {
    GrowCounts(start, desired, done, id);
  }

  lemma GrowSets(rows: Rows, desired: Wanted, done: set<RowId>, id: RowId)
    requires id in desired && id !in done
    ensures Missing(rows, desired, done + {id}) == Missing(rows, desired, done) + if id in rows then {} else {id}
    ensures Stale(rows, desired, done + {id})
         == Stale(rows, desired, done) + if id in rows && rows[id] != Corrected(rows[id], desired[id]) then {id} else {}
  {
  }

  lemma GrowTouched(rows: Rows, desired: Wanted, done: set<RowId>, id: RowId, was: set<RowId>)
    requires id in desired && id !in done
    ensures was + Missing(rows, desired, done + {id}) + Stale(rows, desired, done + {id})
         == was + Missing(rows, desired, done) + Stale(rows, desired, done)
            + if id in rows && rows[id] == Corrected(rows[id], desired[id]) then {} else {id}
  {
    GrowSets(rows, desired, done, id);
  }

  lemma GrowCells(rows: Rows, desired: Wanted, done: set<RowId>, id: RowId)
    requires id in desired && id !in done
    ensures |StaleCells(rows, desired, done + {id})|
         == |StaleCells(rows, desired, done)| + if id in rows then |Differing(rows[id], desired[id])| else 0
  {
    var was, now := StaleCells(rows, desired, done), StaleCells(rows, desired, done + {id});
    if id in rows {
      var mine := set c | c in Differing(rows[id], desired[id]) :: (id, c);
      CellCount(id, Differing(rows[id], desired[id]));
      assert now == was + mine;
      assert was !! mine;
    } else {
      assert now == was;
    }
  }

  lemma {:induction false} CellCount(id: RowId, cols: set<Column>)
    ensures |(set c | c in cols :: (id, c))| == |cols|
  {
    if cols != {} {
      var x :| x in cols;
      CellCount(id, cols - {x});
      assert (set c | c in cols :: (id, c)) == (set c | c in cols - {x} :: (id, c)) + {(id, x)};
    }
  }

  // ---- what the diff promises ------------------------------------------------------

  /** The derived rows end as exactly the desired ones, every other row as it was, old timestamps kept. */
  lemma SyncedMeaning(rows: Rows, desired: Wanted, now: string)
    requires DerivedIds(desired)
    ensures var after := Synced(rows, desired, now);
      && CurrentIds(after) == desired.Keys
      && (forall id :: id in desired ==> after[id] == Corrected(after[id], desired[id]))
      && (forall id :: id in desired && id in rows ==>
            after[id].createdAt == rows[id].createdAt && after[id].validFrom == rows[id].validFrom)
      && (forall id :: id in rows && !Current(id, rows[id]) ==> id in after && after[id] == rows[id])
      && after.Keys == (rows.Keys - CurrentIds(rows)) + desired.Keys
  {
  }

  /** A row is touched exactly when its presence or its content has to change: the write is minimal. */
  lemma TouchesOnlyWhatDiffers(rows: Rows, desired: Wanted, now: string, id: RowId)
    requires DerivedIds(desired)
    ensures var after := Synced(rows, desired, now);
      id in Touched(rows, desired)
      <==> (id in rows) != (id in after) || (id in rows && id in after && rows[id] != after[id])
  {
  }

  /** Syncing again counts nothing. */
  lemma SecondSyncIsEmpty(rows: Rows, desired: Wanted, now: string)
    requires DerivedIds(desired)
    ensures Changes(Synced(rows, desired, now), desired) == Counters(0, 0, 0, 0)
  {
    var after := Synced(rows, desired, now);
    SyncedMeaning(rows, desired, now);
    assert Missing(after, desired, desired.Keys) == {};
    assert Unwanted(after, desired) == {};
    assert Stale(after, desired, desired.Keys) == {};
    forall id | id in desired ensures Differing(after[id], desired[id]) == {} {
      DifferingCells(after[id], desired[id]);
    }
    assert StaleCells(after, desired, desired.Keys) == {};
  }

  lemma NoChangesMeansInPlace(rows: Rows, desired: Wanted)
    requires Changes(rows, desired) == Counters(0, 0, 0, 0)
    ensures Unwanted(rows, desired) == {}
    ensures forall id :: id in desired ==> id in rows && rows[id] == Corrected(rows[id], desired[id])
  {
    assert Missing(rows, desired, desired.Keys) == {} && Stale(rows, desired, desired.Keys) == {};
    forall id | id in desired ensures id in rows && rows[id] == Corrected(rows[id], desired[id]) {
      assert id !in Missing(rows, desired, desired.Keys) && id !in Stale(rows, desired, desired.Keys);
    }
  }

  /** Where nothing counts as a change, a sync leaves the table as it is. */
  lemma NoChangesMeansSame(rows: Rows, desired: Wanted, now: string)
    requires Changes(rows, desired) == Counters(0, 0, 0, 0)
    ensures Synced(rows, desired, now) == rows
  {
    NoChangesMeansInPlace(rows, desired);
    InPlaceStays(rows, desired, now);
  }

  lemma InPlaceStays(rows: Rows, desired: Wanted, now: string)
    requires Unwanted(rows, desired) == {}
    requires forall id :: id in desired ==> id in rows && rows[id] == Corrected(rows[id], desired[id])
    ensures Synced(rows, desired, now) == rows
  {
    assert rows.Keys - Unwanted(rows, desired) + desired.Keys == rows.Keys;
    assert forall id :: id in rows ==> After(rows, desired, now, id) == rows[id];
  }

  // ---- derive's output never feeds its input ----------------------------------------

  ghost function Selected(rows: Rows, p: Edge -> bool): Rows
  {
    map id | id in rows && p(rows[id]) :: rows[id]
  }

  ghost predicate DerivedTypes(desired: Wanted)
  {
    forall id :: id in desired ==> IsDerivedType(desired[id].edgeType)
  }

  /** Some row the diff owns is one this query reads. */
  ghost predicate OwnRowRead(rows: Rows, p: Edge -> bool)
  {
    exists id :: id in rows && Current(id, rows[id]) && p(rows[id])
  }

  /** Well-formed data, where a derived id or tag comes with the tag and a derived type, has no such row. */
  lemma TaggedRowsAreNotRead(rows: Rows, p: Edge -> bool)
    requires forall id :: id in rows && Current(id, rows[id]) ==>
      rows[id].createdBy == DeriveTag && IsDerivedType(rows[id].edgeType)
    requires forall e :: p(e) ==> Feeds(e)
    ensures !OwnRowRead(rows, p)
  {
  }

  /** The rows a query selects after the diff are those it selected before, minus the diff's own rows. */
  lemma SelectedAfter(rows: Rows, desired: Wanted, now: string, p: Edge -> bool)
    requires DerivedIds(desired) && DerivedTypes(desired)
    requires forall e :: p(e) ==> Feeds(e)
    ensures Selected(Synced(rows, desired, now), p) == Selected(rows, p) - CurrentIds(rows)
  {
    var after := Synced(rows, desired, now);
    SyncedMeaning(rows, desired, now);
    forall id | id in desired ensures !p(after[id]) {
      assert !Feeds(Corrected(after[id], desired[id]));
    }
  }

  /** Exactly when a sync leaves what a query reads alone, and otherwise it reads strictly fewer rows. */
  lemma OutputNeverFeedsInput(rows: Rows, desired: Wanted, now: string, p: Edge -> bool)
    requires DerivedIds(desired) && DerivedTypes(desired)
    requires forall e :: p(e) ==> Feeds(e)
    ensures !OwnRowRead(rows, p) ==> Selected(Synced(rows, desired, now), p) == Selected(rows, p)
    ensures OwnRowRead(rows, p) ==> |Selected(Synced(rows, desired, now), p)| < |Selected(rows, p)|
  {
    SelectedAfter(rows, desired, now, p);
    var before, after := Selected(rows, p), Selected(Synced(rows, desired, now), p);
    if OwnRowRead(rows, p) {
      var id :| id in rows && Current(id, rows[id]) && p(rows[id]);
      assert id in before && id !in after;
      Subset(after.Keys, before.Keys - {id});
      assert |after| == |after.Keys| && |before| == |before.Keys|;
    }
  }

}
