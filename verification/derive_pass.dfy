/** src/embed/derive.ts, plan: the loops that compute a plan, proved to compute what DerivePlan asks for. */
module DerivePass {
  import opened Finite
  import opened Ordering
  import opened Sorting
  import opened EdgeRows
  import opened DerivedEdges
  import opened DeriveInputs
  import opened DerivePlan
  import opened NearestTable
  import opened Optional
  import M = MutualTopK

  // ---- reading --------------------------------------------------------------------

  lemma Swap<T>(x: multiset<T>, a: multiset<T>, b: multiset<T>)
    ensures (x + a) + b == (x + b) + a
  {
  }

  lemma TakeTwo<T>(x: multiset<T>, a: T, b: T)
    requires a in x && b in x - multiset{a}
    ensures b in x && a in x - multiset{b}
    ensures x - multiset{a} - multiset{b} == x - multiset{b} - multiset{a}
  {
  }

  lemma {:induction false} WorksPick(edges: multiset<(string, string)>, e: (string, string), creator: string, vecs: map<string, Vec>)
    requires e in edges
    ensures Works(edges, creator, vecs) == Works(edges - multiset{e}, creator, vecs) + Share(e, creator, vecs)
    decreases |edges|
  {
    var f := AnyPair(edges);
    if f != e {
      TakeTwo(edges, f, e);
      WorksPick(edges - multiset{f}, e, creator, vecs);
      WorksPick(edges - multiset{e}, f, creator, vecs);
      Swap(Works(edges - multiset{f} - multiset{e}, creator, vecs), Share(e, creator, vecs), Share(f, creator, vecs));
    }
  }

  lemma WorksAdd(edges: multiset<(string, string)>, e: (string, string), creator: string, vecs: map<string, Vec>)
    ensures Works(edges + multiset{e}, creator, vecs) == Works(edges, creator, vecs) + Share(e, creator, vecs)
  {
    WorksPick(edges + multiset{e}, e, creator, vecs);
    assert edges + multiset{e} - multiset{e} == edges;
  }

  /** A creator has works to average exactly when some attribution row names an artwork that has a vector. */
  lemma {:induction false} WorksNonempty(edges: multiset<(string, string)>, creator: string, vecs: map<string, Vec>)
    ensures Works(edges, creator, vecs) != multiset{} <==> exists e :: e in edges && e.0 in vecs && e.1 == creator
    decreases |edges|
  {
    if edges != multiset{} {
      var f := AnyPair(edges);
      WorksNonempty(edges - multiset{f}, creator, vecs);
      forall e | e in edges ensures e == f || e in edges - multiset{f} {
      }
      assert forall e :: e in edges - multiset{f} ==> e in edges;
    }
  }

  function Found(byCreator: map<string, multiset<Vec>>, c: string): multiset<Vec>
  {
    if c in byCreator then byCreator[c] else multiset{}
  }

  /** `byCreator.get(e.target_id)!.push(art.vec)`, when the artwork has a vector. */
  function Credit(byCreator: map<string, multiset<Vec>>, e: (string, string), ids: map<string, Vec>): map<string, multiset<Vec>>
  {
    if e.0 in ids then byCreator[e.1 := Found(byCreator, e.1) + multiset{ids[e.0]}] else byCreator
  }

  ghost predicate Gathered(byCreator: map<string, multiset<Vec>>, edges: multiset<(string, string)>, ids: map<string, Vec>)
  {
    && (forall c :: Works(edges, c, ids) == Found(byCreator, c))
    && (forall c :: c in byCreator ==> byCreator[c] != multiset{})
  }

  /** The creators as the rows first name them, an artwork without a vector not counting: a Map's insertion order. */
  function FirstSeen(rows: seq<(string, string)>, ids: map<string, Vec>): seq<string>
  {
    if rows == [] then []
    else
      var e, front := rows[|rows| - 1], FirstSeen(rows[..|rows| - 1], ids);
      if e.0 in ids && e.1 !in front then front + [e.1] else front
  }

  /** centroidsInMemory: gather each creator's artwork vectors, one per attribution row. */
  method Gather(rows: seq<(string, string)>, ids: map<string, Vec>) returns (byCreator: map<string, multiset<Vec>>, order: seq<string>)
    ensures Gathered(byCreator, multiset(rows), ids)
    ensures order == FirstSeen(rows, ids) && ListsOnce(order, byCreator.Keys)
  {
    byCreator, order := map[], [];
    for i := 0 to |rows|
      invariant Gathered(byCreator, multiset(rows[..i]), ids)
      invariant order == FirstSeen(rows[..i], ids) && ListsOnce(order, byCreator.Keys)
    {
      var e := rows[i];
      GatherStep(byCreator, multiset(rows[..i]), ids, e);
      OneMore(rows, i);
      SeenStep(rows, i, ids, byCreator, order);
      if e.0 in ids && e.1 !in byCreator { order := order + [e.1]; }
      byCreator := Credit(byCreator, e, ids);
    }
    assert rows[..|rows|] == rows;
  }

  lemma SeenStep(rows: seq<(string, string)>, i: nat, ids: map<string, Vec>, byCreator: map<string, multiset<Vec>>, order: seq<string>)
    requires i < |rows| && order == FirstSeen(rows[..i], ids) && ListsOnce(order, byCreator.Keys)
    ensures var e := rows[i]; var next := if e.0 in ids && e.1 !in byCreator then order + [e.1] else order;
      FirstSeen(rows[..i + 1], ids) == next && ListsOnce(next, Credit(byCreator, e, ids).Keys)
  {
    assert rows[..i + 1][..i] == rows[..i];
  }

  lemma OneMore(rows: seq<(string, string)>, i: nat)
    requires i < |rows|
    ensures multiset(rows[..i + 1]) == multiset(rows[..i]) + multiset{rows[i]}
  {
    assert rows[..i + 1] == rows[..i] + [rows[i]];
  }

  lemma GatherStep(was: map<string, multiset<Vec>>, before: multiset<(string, string)>, ids: map<string, Vec>, e: (string, string))
    requires Gathered(was, before, ids)
    ensures Gathered(Credit(was, e, ids), before + multiset{e}, ids)
  {
    forall c ensures Works(before + multiset{e}, c, ids) == Found(Credit(was, e, ids), c) {
      WorksAdd(before, e, c, ids);
      CreditShare(was, e, ids, c);
    }
  }

  lemma CreditShare(was: map<string, multiset<Vec>>, e: (string, string), ids: map<string, Vec>, c: string)
    ensures Found(Credit(was, e, ids), c) == Found(was, c) + Share(e, c, ids)
  {
  }

  /** The centroids a run scores against: recomputed, or the stored ones when told to skip. */
  method ChooseCentroids(geo: Geometry, opts: Options, ghost fp: Fingerprint, stored: map<string, Vec>, scan: seq<string>,
                         rows: seq<(string, string)>, ids: map<string, Vec>) returns (c: map<string, Vec>, order: seq<string>)
    requires ids == Identities(fp) && stored == Usable(fp.centroids) && multiset(rows) == fp.centroidEdges
    requires ListsOnce(scan, stored.Keys)
    ensures c == CentroidsOf(geo, opts, fp) && ListsOnce(order, c.Keys)
    ensures order == if opts.skipCentroids then scan else FirstSeen(rows, ids)
  {
    if opts.skipCentroids { return stored, scan; }
    var byCreator, seen := Gather(rows, ids);
    c, order := Means(geo, byCreator), seen;
    MeansAreCentroids(geo, opts, fp, byCreator);
  }

  function Means(geo: Geometry, byCreator: map<string, multiset<Vec>>): map<string, Vec>
  {
    map creator | creator in byCreator :: geo.mean(byCreator[creator])
  }

  lemma MeansAreCentroids(geo: Geometry, opts: Options, fp: Fingerprint, byCreator: map<string, multiset<Vec>>)
    requires Gathered(byCreator, fp.centroidEdges, Identities(fp)) && !opts.skipCentroids
    ensures Means(geo, byCreator) == CentroidsOf(geo, opts, fp)
  {
    GatheredCreators(fp, byCreator);
  }

  lemma GatheredCreators(fp: Fingerprint, byCreator: map<string, multiset<Vec>>)
    requires Gathered(byCreator, fp.centroidEdges, Identities(fp))
    ensures byCreator.Keys == Creators(fp)
    ensures forall c :: c in byCreator ==> byCreator[c] == Works(fp.centroidEdges, c, Identities(fp))
  {
    forall c ensures c in byCreator <==> c in Creators(fp) {
      WorksNonempty(fp.centroidEdges, c, Identities(fp));
      assert Works(fp.centroidEdges, c, Identities(fp)) == Found(byCreator, c);
    }
  }

  ghost predicate CreatorsBy(byArt: map<string, set<string>>, edges: multiset<(string, string)>)
  {
    && (forall a, c :: a in byArt && c in byArt[a] <==> (a, c) in edges)
    && (forall a :: a in byArt ==> byArt[a] != {})
  }

  method IndexCreators(rows: seq<(string, string)>) returns (byArt: map<string, set<string>>)
    ensures CreatorsBy(byArt, multiset(rows))
  {
    byArt := map[];
    for i := 0 to |rows|
      invariant CreatorsBy(byArt, multiset(rows[..i]))
    {
      assert rows[..i + 1] == rows[..i] + [rows[i]];
      var e := rows[i];
      ghost var was := byArt;
      byArt := byArt[e.0 := (if e.0 in byArt then byArt[e.0] else {}) + {e.1}];
      assert forall c :: c in byArt[e.0] <==> c == e.1 || (e.0 in was && c in was[e.0]);
    }
    assert rows[..|rows|] == rows;
  }

  /** `[...keys].sort()` */
  method SortedKeys(keys: set<string>) returns (order: seq<string>)
    ensures Sorted(order, Less) && forall id :: id in order <==> id in keys
  {
    var list: seq<string> := [];
    var left := keys;
    while left != {}
      invariant forall id :: id in keys <==> id in left || id in list
      invariant forall id :: id in list ==> id !in left
      invariant forall i, j :: 0 <= i < j < |list| ==> list[i] != list[j]
    {
      var id :| id in left;
      left, list := left - {id}, list + [id];
    }
    LessIsStrictTotalOrder();
    order := Sort(list, AtMost);
    SortSorted(list, AtMost);
    SortPermutes(list, AtMost);
    M.SameMultisetDistinct(list, order);
    assert Sorted(order, Less);
  }

  // ---- the two symmetric edge types -------------------------------------------------

  predicate Shares(byArt: map<string, set<string>>, a: string, b: string)
  {
    a in byArt && b in byArt && exists c :: c in byArt[a] && c in byArt[b]
  }

  predicate Close(geo: Geometry, vecs: map<string, Vec>, tau: real, byArt: map<string, set<string>>, a: string, b: string)
    requires a in vecs && b in vecs
  {
    geo.cosine(vecs[a], vecs[b]) >= tau && !Shares(byArt, a, b)
  }

  function PairAt(geo: Geometry, vecs: map<string, Vec>, order: seq<string>, i: nat, j: nat): M.Pair
    requires i < |order| && j < |order| && forall id :: id in order ==> id in vecs
  {
    M.Pair(order[i], order[j], geo.cosine(vecs[order[i]], vecs[order[j]]))
  }

  /** The pairs of row i with columns below j, then of all rows below i. */
  function Row(geo: Geometry, vecs: map<string, Vec>, order: seq<string>, tau: real, byArt: map<string, set<string>>, i: nat, j: nat): seq<M.Pair>
    requires i < j <= |order| && forall id :: id in order ==> id in vecs
  {
    if j == i + 1 then []
    else
      Row(geo, vecs, order, tau, byArt, i, j - 1)
      + if Close(geo, vecs, tau, byArt, order[i], order[j - 1]) then [PairAt(geo, vecs, order, i, j - 1)] else []
  }

  function Rows(geo: Geometry, vecs: map<string, Vec>, order: seq<string>, tau: real, byArt: map<string, set<string>>, i: nat): seq<M.Pair>
    requires i <= |order| && forall id :: id in order ==> id in vecs
  {
    if i == 0 then [] else Rows(geo, vecs, order, tau, byArt, i - 1) + Row(geo, vecs, order, tau, byArt, i - 1, |order|)
  }

  method RowOf(geo: Geometry, vecs: map<string, Vec>, order: seq<string>, tau: real, byArt: map<string, set<string>>, i: nat)
    returns (row: seq<M.Pair>)
    requires i < |order| && forall id :: id in order ==> id in vecs
    ensures row == Row(geo, vecs, order, tau, byArt, i, |order|)
  {
    row := [];
    for j := i + 1 to |order|
      invariant row == Row(geo, vecs, order, tau, byArt, i, j)
    {
      if Close(geo, vecs, tau, byArt, order[i], order[j]) {
        row := row + [PairAt(geo, vecs, order, i, j)];
      }
    }
  }

  /** Every pair above the threshold, each once, skipping pairs that share a known creator. */
  method Candidates(geo: Geometry, vecs: map<string, Vec>, order: seq<string>, tau: real, byArt: map<string, set<string>>)
    returns (pairs: seq<M.Pair>)
    requires Sorted(order, Less) && forall id :: id in order ==> id in vecs
    ensures pairs == Rows(geo, vecs, order, tau, byArt, |order|)
    ensures M.Simple(pairs)
  {
    pairs := [];
    for i := 0 to |order|
      invariant pairs == Rows(geo, vecs, order, tau, byArt, i)
    {
      var row := RowOf(geo, vecs, order, tau, byArt, i);
      pairs := pairs + row;
    }
    RowsAreSimple(geo, vecs, order, tau, byArt, |order|);
  }

  /** What makes p a candidate: an ordered pair of listed nodes, its similarity, above the threshold, no shared creator. */
  ghost predicate IsCandidate(geo: Geometry, vecs: map<string, Vec>, order: seq<string>, tau: real, byArt: map<string, set<string>>, p: M.Pair)
    requires forall id :: id in order ==> id in vecs
  {
    && p.a in order && p.b in order && Less(p.a, p.b)
    && p.sim == geo.cosine(vecs[p.a], vecs[p.b])
    && Close(geo, vecs, tau, byArt, p.a, p.b)
  }

  lemma {:induction false} RowMember(geo: Geometry, vecs: map<string, Vec>, order: seq<string>, tau: real, byArt: map<string, set<string>>, i: nat, j: nat, p: M.Pair)
    requires i < j <= |order| && forall id :: id in order ==> id in vecs
    ensures p in Row(geo, vecs, order, tau, byArt, i, j) <==>
      exists n :: i < n < j && Close(geo, vecs, tau, byArt, order[i], order[n]) && p == PairAt(geo, vecs, order, i, n)
  {
    if j > i + 1 {
      RowMember(geo, vecs, order, tau, byArt, i, j - 1, p);
    }
  }

  lemma RowMembership(geo: Geometry, vecs: map<string, Vec>, order: seq<string>, tau: real, byArt: map<string, set<string>>, i: nat, p: M.Pair)
    requires i < |order| && forall id :: id in order ==> id in vecs
    requires Sorted(order, Less)
    ensures p in Row(geo, vecs, order, tau, byArt, i, |order|) <==> p.a == order[i] && IsCandidate(geo, vecs, order, tau, byArt, p)
  {
    RowMember(geo, vecs, order, tau, byArt, i, |order|, p);
    if p.a == order[i] && IsCandidate(geo, vecs, order, tau, byArt, p) {
      var n :| 0 <= n < |order| && order[n] == p.b;
      LaterIsGreater(order, i, n);
      assert p == PairAt(geo, vecs, order, i, n);
    }
  }

  ghost predicate ColumnsDistinct(row: seq<M.Pair>)
  {
    row == [] || (ColumnsDistinct(row[..|row| - 1]) && forall q :: q in row[..|row| - 1] ==> q.b != row[|row| - 1].b)
  }

  lemma {:induction false} ColumnsDiffer(row: seq<M.Pair>, m: nat, n: nat)
    requires ColumnsDistinct(row) && m < n < |row|
    ensures row[m].b != row[n].b
  {
    var front := row[..|row| - 1];
    if n < |front| { ColumnsDiffer(front, m, n); } else { assert front[m] in front; }
  }

  lemma ColumnsAppend(row: seq<M.Pair>, p: M.Pair, next: seq<M.Pair>)
    requires ColumnsDistinct(row) && (next == row || next == row + [p]) && forall q :: q in row ==> q.b != p.b
    ensures ColumnsDistinct(next)
  {
    assert (row + [p])[..|row|] == row;
  }

  lemma SortedIsDistinct(order: seq<string>)
    requires Sorted(order, Less)
    ensures Distinct(order)
  {
    forall m, n | 0 <= m < n < |order| ensures order[m] != order[n] { LessIrreflexive(order[m]); }
  }

  lemma ColumnsAreNew(geo: Geometry, vecs: map<string, Vec>, order: seq<string>, tau: real, byArt: map<string, set<string>>, i: nat, j: nat)
    requires i < j < |order| && forall id :: id in order ==> id in vecs
    requires Distinct(order)
    ensures forall q :: q in Row(geo, vecs, order, tau, byArt, i, j) ==> q.b != PairAt(geo, vecs, order, i, j).b
  {
    forall q | q in Row(geo, vecs, order, tau, byArt, i, j) ensures q.b != order[j] {
      RowMember(geo, vecs, order, tau, byArt, i, j, q);
    }
  }

  lemma RowGrows(geo: Geometry, vecs: map<string, Vec>, order: seq<string>, tau: real, byArt: map<string, set<string>>, i: nat, j: nat)
    requires i < j < |order| && forall id :: id in order ==> id in vecs
    ensures var row, next := Row(geo, vecs, order, tau, byArt, i, j), Row(geo, vecs, order, tau, byArt, i, j + 1);
      next == row || next == row + [PairAt(geo, vecs, order, i, j)]
  {
    var row := Row(geo, vecs, order, tau, byArt, i, j);
    assert row + [] == row;
  }

  lemma RowStep(geo: Geometry, vecs: map<string, Vec>, order: seq<string>, tau: real, byArt: map<string, set<string>>, i: nat, j: nat)
    requires i < j < |order| && forall id :: id in order ==> id in vecs
    requires Distinct(order) && ColumnsDistinct(Row(geo, vecs, order, tau, byArt, i, j))
    ensures ColumnsDistinct(Row(geo, vecs, order, tau, byArt, i, j + 1))
  {
    var row, next, p := Row(geo, vecs, order, tau, byArt, i, j), Row(geo, vecs, order, tau, byArt, i, j + 1), PairAt(geo, vecs, order, i, j);
    assert next == row || next == row + [p] by { RowGrows(geo, vecs, order, tau, byArt, i, j); }
    assert forall q :: q in row ==> q.b != p.b by { ColumnsAreNew(geo, vecs, order, tau, byArt, i, j); }
    ColumnsAppend(row, p, next);
  }

  /** One pair to a column. */
  lemma {:induction false} RowDistinct(geo: Geometry, vecs: map<string, Vec>, order: seq<string>, tau: real, byArt: map<string, set<string>>, i: nat, j: nat)
    requires i < j <= |order| && forall id :: id in order ==> id in vecs
    requires Distinct(order)
    ensures ColumnsDistinct(Row(geo, vecs, order, tau, byArt, i, j))
    decreases j
  {
    if j > i + 1 {
      RowDistinct(geo, vecs, order, tau, byArt, i, j - 1);
      RowStep(geo, vecs, order, tau, byArt, i, j - 1);
    }
  }

  /** One of the first i rows has the pair. */
  ghost predicate InSomeRow(geo: Geometry, vecs: map<string, Vec>, order: seq<string>, tau: real, byArt: map<string, set<string>>, i: nat, p: M.Pair)
    requires i <= |order| && forall id :: id in order ==> id in vecs
  {
    i > 0 && (InSomeRow(geo, vecs, order, tau, byArt, i - 1, p) || p in Row(geo, vecs, order, tau, byArt, i - 1, |order|))
  }

  lemma {:induction false} RowsUnion(geo: Geometry, vecs: map<string, Vec>, order: seq<string>, tau: real, byArt: map<string, set<string>>, i: nat, p: M.Pair)
    requires i <= |order| && forall id :: id in order ==> id in vecs
    ensures p in Rows(geo, vecs, order, tau, byArt, i) <==> InSomeRow(geo, vecs, order, tau, byArt, i, p)
  {
    if i > 0 { RowsUnion(geo, vecs, order, tau, byArt, i - 1, p); }
  }

  lemma {:induction false} SomeRow(geo: Geometry, vecs: map<string, Vec>, order: seq<string>, tau: real, byArt: map<string, set<string>>, i: nat, p: M.Pair)
    returns (k: nat)
    requires i <= |order| && (forall id :: id in order ==> id in vecs) && InSomeRow(geo, vecs, order, tau, byArt, i, p)
    ensures k < i && p in Row(geo, vecs, order, tau, byArt, k, |order|)
  {
    k := i - 1;
    if InSomeRow(geo, vecs, order, tau, byArt, i - 1, p) { k := SomeRow(geo, vecs, order, tau, byArt, i - 1, p); }
  }

  lemma {:induction false} ThatRow(geo: Geometry, vecs: map<string, Vec>, order: seq<string>, tau: real, byArt: map<string, set<string>>, i: nat, p: M.Pair, k: nat)
    requires k < i <= |order| && (forall id :: id in order ==> id in vecs) && p in Row(geo, vecs, order, tau, byArt, k, |order|)
    ensures InSomeRow(geo, vecs, order, tau, byArt, i, p)
  {
    if k < i - 1 { ThatRow(geo, vecs, order, tau, byArt, i - 1, p, k); }
  }

  lemma RowsMembers(geo: Geometry, vecs: map<string, Vec>, order: seq<string>, tau: real, byArt: map<string, set<string>>, p: M.Pair)
    requires Sorted(order, Less) && forall id :: id in order ==> id in vecs
    ensures p in Rows(geo, vecs, order, tau, byArt, |order|) <==> IsCandidate(geo, vecs, order, tau, byArt, p)
  {
    RowsUnion(geo, vecs, order, tau, byArt, |order|, p);
    if p in Rows(geo, vecs, order, tau, byArt, |order|) {
      var k := SomeRow(geo, vecs, order, tau, byArt, |order|, p);
      RowMembership(geo, vecs, order, tau, byArt, k, p);
    }
    if IsCandidate(geo, vecs, order, tau, byArt, p) {
      var k :| 0 <= k < |order| && order[k] == p.a;
      RowMembership(geo, vecs, order, tau, byArt, k, p);
      ThatRow(geo, vecs, order, tau, byArt, |order|, p, k);
    }
  }

  lemma RowOrdered(geo: Geometry, vecs: map<string, Vec>, order: seq<string>, tau: real, byArt: map<string, set<string>>, i: nat)
    requires i < |order| && forall id :: id in order ==> id in vecs
    requires Sorted(order, Less)
    ensures forall p :: p in Row(geo, vecs, order, tau, byArt, i, |order|) ==> p.a == order[i] && Less(p.a, p.b)
  {
    forall p | p in Row(geo, vecs, order, tau, byArt, i, |order|) ensures p.a == order[i] && Less(p.a, p.b) {
      RowMembership(geo, vecs, order, tau, byArt, i, p);
    }
  }

  lemma {:induction false} RowsOrdered(geo: Geometry, vecs: map<string, Vec>, order: seq<string>, tau: real, byArt: map<string, set<string>>, i: nat)
    requires i <= |order| && forall id :: id in order ==> id in vecs
    requires Sorted(order, Less)
    ensures forall p :: p in Rows(geo, vecs, order, tau, byArt, i) ==> p.a in order[..i] && Less(p.a, p.b)
  {
    if i > 0 {
      RowsOrdered(geo, vecs, order, tau, byArt, i - 1);
      RowOrdered(geo, vecs, order, tau, byArt, i - 1);
      assert order[..i] == order[..i - 1] + [order[i - 1]];
    }
  }

  lemma LaterIsGreater(order: seq<string>, m: nat, n: nat)
    requires Sorted(order, Less) && m < |order| && n < |order| && Less(order[m], order[n])
    ensures m < n
  {
    LessIsStrictTotalOrder();
    assert forall i :: 0 <= i < m ==> Less(order[i], order[m]);
    assert !Less(order[n], order[m]) && !Less(order[m], order[m]);
  }

  lemma RowsStep(geo: Geometry, vecs: map<string, Vec>, order: seq<string>, tau: real, byArt: map<string, set<string>>, i: nat)
    requires i < |order| && forall id :: id in order ==> id in vecs
    requires Sorted(order, Less) && M.Simple(Rows(geo, vecs, order, tau, byArt, i))
    ensures M.Simple(Rows(geo, vecs, order, tau, byArt, i) + Row(geo, vecs, order, tau, byArt, i, |order|))
  {
    var above, row := Rows(geo, vecs, order, tau, byArt, i), Row(geo, vecs, order, tau, byArt, i, |order|);
    assert Distinct(order) by { SortedIsDistinct(order); }
    assert ColumnsDistinct(row) by { RowDistinct(geo, vecs, order, tau, byArt, i, |order|); }
    assert forall p :: p in above ==> p.a in order[..i] && Less(p.a, p.b) by { RowsOrdered(geo, vecs, order, tau, byArt, i); }
    assert forall p :: p in row ==> p.a == order[i] && Less(p.a, p.b) by { RowOrdered(geo, vecs, order, tau, byArt, i); }
    JoinSimple(above, row, order, i);
  }

  lemma {:induction false} RowsAreSimple(geo: Geometry, vecs: map<string, Vec>, order: seq<string>, tau: real, byArt: map<string, set<string>>, i: nat)
    requires i <= |order| && forall id :: id in order ==> id in vecs
    requires Sorted(order, Less)
    ensures M.Simple(Rows(geo, vecs, order, tau, byArt, i))
  {
    if i > 0 {
      RowsAreSimple(geo, vecs, order, tau, byArt, i - 1);
      RowsStep(geo, vecs, order, tau, byArt, i - 1);
    }
  }

  lemma JoinSimple(above: seq<M.Pair>, row: seq<M.Pair>, order: seq<string>, i: nat)
    requires i < |order| && Distinct(order) && M.Simple(above)
    requires forall p :: p in above ==> p.a in order[..i] && Less(p.a, p.b)
    requires forall p :: p in row ==> p.a == order[i] && Less(p.a, p.b)
    requires ColumnsDistinct(row)
    ensures M.Simple(above + row)
  {
    var all := above + row;
    forall m, n | 0 <= m < n < |all|
      ensures !(all[m].a == all[n].a && all[m].b == all[n].b) && !(all[m].a == all[n].b && all[m].b == all[n].a)
    {
      JoinApart(above, row, order, i, m, n);
    }
    forall m | 0 <= m < |all| ensures all[m].a != all[m].b {
      assert all[m] in above || all[m] in row;
      LessIrreflexive(all[m].a);
    }
  }

  lemma JoinApart(above: seq<M.Pair>, row: seq<M.Pair>, order: seq<string>, i: nat, m: nat, n: nat)
    requires i < |order| && Distinct(order) && M.Simple(above)
    requires forall p :: p in above ==> p.a in order[..i] && Less(p.a, p.b)
    requires forall p :: p in row ==> p.a == order[i] && Less(p.a, p.b)
    requires ColumnsDistinct(row) && m < n < |above + row|
    ensures var p, q := (above + row)[m], (above + row)[n]; !(p.a == q.a && p.b == q.b) && !(p.a == q.b && p.b == q.a)
  {
    var p, q := (above + row)[m], (above + row)[n];
    if n >= |above| {
      assert q in row;
      if m >= |above| {
        ColumnsDiffer(row, m - |above|, n - |above|);
        assert p in row;
      } else {
        assert p in above;
        NotYet(order, i, p.a);
      }
      LessOneWay(p.a, p.b, q.a, q.b);
    }
  }

  lemma NotYet(order: seq<string>, i: nat, id: string)
    requires i < |order| && Distinct(order) && id in order[..i]
    ensures id != order[i]
  {
    var j :| 0 <= j < i && order[..i][j] == id;
  }

  /** Two ordered pairs are never each other's mirror. */
  lemma LessOneWay(a: string, b: string, c: string, d: string)
    requires Less(a, b) && Less(c, d)
    ensures !(a == d && b == c)
  {
    LessIrreflexive(a);
    if a == d && b == c { LessTransitive(a, b, a); }
  }

  // ---- collecting the desired edges ---------------------------------------------------

  lemma RealisesOneMore(desired: Wanted, edges: set<Desired>, d: Desired)
    requires Realises(desired, edges)
    ensures Realises(desired[IdOf(d) := d], edges + {d})
  {
  }

  /** insertEdge.run, twice per surviving pair. */
  method CollectBothWays(desired: Wanted, ghost edges: set<Desired>, pairs: seq<M.Pair>, t: EdgeType) returns (r: Wanted)
    requires Realises(desired, edges)
    ensures Realises(r, edges + BothWays(Elements(pairs), t))
  {
    r := desired;
    assert edges + BothWays(Elements(pairs[..0]), t) == edges;
    for i := 0 to |pairs|
      invariant Realises(r, edges + BothWays(Elements(pairs[..i]), t))
    {
      var p := pairs[i];
      var there, back := Desired(p.a, p.b, t), Desired(p.b, p.a, t);
      RealisesOneMore(r, edges + BothWays(Elements(pairs[..i]), t), there);
      r := r[IdOf(there) := there];
      RealisesOneMore(r, edges + BothWays(Elements(pairs[..i]), t) + {there}, back);
      r := r[IdOf(back) := back];
      BothWaysOneMore(edges, pairs, i, t);
    }
    assert pairs[..|pairs|] == pairs;
  }

  lemma BothWaysOneMore(edges: set<Desired>, pairs: seq<M.Pair>, i: nat, t: EdgeType)
    requires i < |pairs|
    ensures edges + BothWays(Elements(pairs[..i + 1]), t)
         == edges + BothWays(Elements(pairs[..i]), t) + {Desired(pairs[i].a, pairs[i].b, t)} + {Desired(pairs[i].b, pairs[i].a, t)}
  {
    assert pairs[..i + 1] == pairs[..i] + [pairs[i]];
    assert Elements(pairs[..i + 1]) == Elements(pairs[..i]) + {pairs[i]};
  }

  method StyleKinEdges(geo: Geometry, opts: Options, centroids: map<string, Vec>) returns (kept: seq<M.Pair>)
    ensures Elements(kept) == M.Kept(KinPairs(geo, opts, centroids), opts.kinTopK)
  {
    var creators := SortedKeys(centroids.Keys);
    var candidates := Candidates(geo, centroids, creators, opts.tauKin, map[]);
    kept := M.Cap(candidates, opts.kinTopK);
    forall p ensures p in candidates <==> p in KinPairs(geo, opts, centroids) {
      RowsMembers(geo, centroids, creators, opts.tauKin, map[], p);
    }
    assert Elements(candidates) == KinPairs(geo, opts, centroids);
  }

  method VisuallyAffineEdges(geo: Geometry, opts: Options, ghost fp: Fingerprint, vecs: map<string, Vec>, arts: seq<string>,
                             byArt: map<string, set<string>>) returns (kept: seq<M.Pair>)
    requires InOrder(arts, fp) && vecs == Artworks(fp) && CreatorsBy(byArt, fp.attributions)
    ensures Elements(kept) == M.Kept(VisualPairs(geo, opts, fp), opts.visualTopK)
  {
    var candidates := Candidates(geo, vecs, arts, opts.tauVisual, byArt);
    kept := M.Cap(candidates, opts.visualTopK);
    forall p ensures p in candidates <==> p in VisualPairs(geo, opts, fp) {
      RowsMembers(geo, vecs, arts, opts.tauVisual, byArt, p);
      SharesMeansSameCreator(fp, byArt, p.a, p.b);
    }
    assert Elements(candidates) == VisualPairs(geo, opts, fp);
  }

  lemma SharesMeansSameCreator(fp: Fingerprint, byArt: map<string, set<string>>, a: string, b: string)
    requires CreatorsBy(byArt, fp.attributions)
    ensures Shares(byArt, a, b) <==> SameCreator(fp, a, b)
  {
    if SameCreator(fp, a, b) {
      var c :| (a, c) in fp.attributions && (b, c) in fp.attributions;
      assert c in byArt[a] && c in byArt[b];
    }
  }

  // ---- concept propagation ----------------------------------------------------------------

  ghost predicate MembersBy(byConcept: map<string, set<string>>, rows: multiset<(string, string)>, ids: map<string, Vec>)
  {
    && (forall c, a :: c in byConcept && a in byConcept[c] <==> (a, c) in rows && a in ids)
    && (forall c :: c in byConcept ==> byConcept[c] != {})
  }

  method GroupMembers(rows: seq<(string, string)>, ids: map<string, Vec>) returns (byConcept: map<string, set<string>>)
    ensures MembersBy(byConcept, multiset(rows), ids)
  {
    byConcept := map[];
    for i := 0 to |rows|
      invariant MembersBy(byConcept, multiset(rows[..i]), ids)
    {
      OneMore(rows, i);
      var e := rows[i];
      if e.0 in ids {
        ghost var was := byConcept;
        byConcept := byConcept[e.1 := (if e.1 in byConcept then byConcept[e.1] else {}) + {e.0}];
        assert forall a :: a in byConcept[e.1] <==> a == e.0 || (e.1 in was && a in was[e.1]);
      }
    }
    assert rows[..|rows|] == rows;
  }

  method CentreRows(geo: Geometry, ghost fp: Fingerprint, vecs: map<string, Vec>, arts: seq<string>) returns (mat: seq<Vec>)
    requires InOrder(arts, fp) && vecs == Artworks(fp)
    ensures mat == Centred(geo, fp, arts)
  {
    mat := [];
    for i := 0 to |arts|
      invariant mat == Centred(geo, fp, arts)[..i]
    {
      mat := mat + [geo.centre(vecs, vecs[arts[i]])];
    }
  }

  /** The mean-centred rows and, for each, its nearest others. */
  method NearestRows(geo: Geometry, opts: Options, ghost fp: Fingerprint, vecs: map<string, Vec>, arts: seq<string>)
    returns (knn: seq<seq<Scored>>)
    requires InOrder(arts, fp) && vecs == Artworks(fp)
    ensures |knn| == |arts|
    ensures forall i :: 0 <= i < |arts| ==>
      knn[i] == Table(Centred(geo, fp, arts), geo.cosine, i, opts.concept.knnK, |arts|)
  {
    var mat := CentreRows(geo, fp, vecs, arts);
    knn := NearestOfEach(geo, opts, mat);
  }

  method NearestOfEach(geo: Geometry, opts: Options, mat: seq<Vec>) returns (knn: seq<seq<Scored>>)
    ensures |knn| == |mat|
    ensures forall i :: 0 <= i < |mat| ==> knn[i] == Table(mat, geo.cosine, i, opts.concept.knnK, |mat|)
  {
    knn := [];
    for i := 0 to |mat|
      invariant |knn| == i
      invariant forall j :: 0 <= j < i ==> knn[j] == Table(mat, geo.cosine, j, opts.concept.knnK, |mat|)
    {
      var top := Nearest(mat, geo.cosine, i, opts.concept.knnK);
      knn := knn + [top];
    }
  }

  method CountHits(neigh: seq<Scored>, arts: seq<string>, members: set<string>) returns (hit: nat)
    requires forall t :: t in neigh ==> t.j < |arts|
    ensures hit == Hits(neigh, arts, members)
  {
    hit := 0;
    for t := 0 to |neigh|
      invariant hit == Hits(neigh[..t], arts, members)
    {
      assert neigh[..t + 1][..t] == neigh[..t];
      if arts[neigh[t].j] in members { hit := hit + 1; }
    }
    assert neigh[..|neigh|] == neigh;
  }

  ghost predicate VotedSoFar(candidates: seq<M.Link>, geo: Geometry, opts: Options, fp: Fingerprint, arts: seq<string>, concept: string, upTo: nat)
    requires InOrder(arts, fp) && upTo <= |arts|
  {
    && (forall l :: l in candidates <==> l in Voted(geo, opts, fp, arts, concept) && l.other in arts[..upTo])
    && (forall i, j :: 0 <= i < j < |candidates| ==> candidates[i] != candidates[j])
  }

  /** The kNN vote over every non-member. */
  method VoteFor(geo: Geometry, opts: Options, ghost fp: Fingerprint, arts: seq<string>, knn: seq<seq<Scored>>,
                 ghost concept: string, members: set<string>) returns (candidates: seq<M.Link>)
    requires InOrder(arts, fp) && |knn| == |arts| && members == Members(fp, concept)
    requires forall i :: 0 <= i < |arts| ==> knn[i] == Table(Centred(geo, fp, arts), geo.cosine, i, opts.concept.knnK, |arts|)
    ensures VotedSoFar(candidates, geo, opts, fp, arts, concept, |arts|)
  {
    candidates := [];
    for i := 0 to |arts|
      invariant VotedSoFar(candidates, geo, opts, fp, arts, concept, i)
    {
      VotedStep(geo, opts, fp, arts, concept, i);
      if arts[i] in members { continue; }
      var neigh := knn[i];
      TableScores(Centred(geo, fp, arts), geo.cosine, i, opts.concept.knnK, |arts|);
      var hit := CountHits(neigh, arts, members);
      var frac := if |neigh| > 0 then hit as real / |neigh| as real else 0.0;
      if frac >= opts.concept.voteThreshold {
        candidates := candidates + [M.Link(arts[i], frac)];
      }
    }
  }

  lemma VotedStep(geo: Geometry, opts: Options, fp: Fingerprint, arts: seq<string>, concept: string, i: nat)
    requires InOrder(arts, fp) && i < |arts|
    ensures forall l :: l in Voted(geo, opts, fp, arts, concept) && l.other == arts[i] <==>
      (l == M.Link(arts[i], VoteOf(geo, opts, fp, arts, i, Members(fp, concept))) && arts[i] !in Members(fp, concept)
       && VoteOf(geo, opts, fp, arts, i, Members(fp, concept)) >= opts.concept.voteThreshold)
    ensures arts[i] !in arts[..i]
    ensures forall id :: id in arts[..i + 1] <==> id in arts[..i] || id == arts[i]
  {
    LessIsStrictTotalOrder();
    assert arts[..i + 1] == arts[..i] + [arts[i]];
    assert forall j :: 0 <= j < |arts| && arts[j] == arts[i] ==> j == i;
  }

  /** Sort by vote, then keep the first maxPerConcept (0 = all). */
  method CutCandidates(candidates: seq<M.Link>, cap: int) returns (emit: seq<M.Link>)
    requires forall i, j :: 0 <= i < j < |candidates| ==> candidates[i] != candidates[j]
    ensures Elements(emit) == CutTo(Elements(candidates), cap)
  {
    var sorted := Sort(candidates, M.StrongerOrSame);
    emit := if cap > 0 then First(cap, sorted) else sorted;
    CutIsFirst(candidates, cap);
  }

  lemma CutIsFirst(candidates: seq<M.Link>, cap: int)
    requires forall i, j :: 0 <= i < j < |candidates| ==> candidates[i] != candidates[j]
    ensures var sorted := Sort(candidates, M.StrongerOrSame);
      Elements(if cap > 0 then First(cap, sorted) else sorted) == CutTo(Elements(candidates), cap)
  {
    var sorted := Sort(candidates, M.StrongerOrSame);
    M.StrongerIsStrictTotal();
    SortSorted(candidates, M.StrongerOrSame);
    SortPermutes(candidates, M.StrongerOrSame);
    M.SameMultisetDistinct(candidates, sorted);
    assert Sorted(sorted, M.Stronger);
    assert Elements(sorted) == Elements(candidates);
    if cap > 0 {
      forall l ensures l in First(cap, sorted) <==> l in CutTo(Elements(candidates), cap) {
        if l in sorted {
          var i :| 0 <= i < |sorted| && sorted[i] == l;
          RankIsPosition(sorted, i, M.Stronger);
          assert l in First(cap, sorted) <==> i < cap by {
            if i < cap { assert First(cap, sorted)[i] == l; }
          }
        }
      }
    }
  }

  ghost function ConceptShare(geo: Geometry, opts: Options, fp: Fingerprint, arts: seq<string>, c: string): set<Desired>
    requires InOrder(arts, fp)
  {
    if c in Concepts(fp) && Passes(geo, opts, fp, c)
    then set l | l in CutTo(Voted(geo, opts, fp, arts, c), opts.concept.maxPerConcept) :: Desired(l.other, c, Embodies)
    else {}
  }

  ghost function ConceptShares(geo: Geometry, opts: Options, fp: Fingerprint, arts: seq<string>, cs: set<string>): set<Desired>
    requires InOrder(arts, fp)
  {
    set c, d | c in cs && d in ConceptShare(geo, opts, fp, arts, c) :: d
  }

  ghost function EmbodiesOf(emit: seq<M.Link>, concept: string): set<Desired>
  {
    set l | l in Elements(emit) :: Desired(l.other, concept, Embodies)
  }

  lemma OneMoreEmbodies(edges: set<Desired>, emit: seq<M.Link>, i: nat, concept: string)
    requires i < |emit|
    ensures edges + EmbodiesOf(emit[..i + 1], concept) == edges + EmbodiesOf(emit[..i], concept) + {Desired(emit[i].other, concept, Embodies)}
  {
    assert emit[..i + 1] == emit[..i] + [emit[i]];
    assert Elements(emit[..i + 1]) == Elements(emit[..i]) + {emit[i]};
  }

  method CollectEmbodies(desired: Wanted, ghost edges: set<Desired>, emit: seq<M.Link>, concept: string) returns (r: Wanted)
    requires Realises(desired, edges)
    ensures Realises(r, edges + set l | l in Elements(emit) :: Desired(l.other, concept, Embodies))
  {
    r := desired;
    assert edges + EmbodiesOf(emit[..0], concept) == edges;
    for i := 0 to |emit|
      invariant Realises(r, edges + EmbodiesOf(emit[..i], concept))
    {
      var d := Desired(emit[i].other, concept, Embodies);
      RealisesOneMore(r, edges + EmbodiesOf(emit[..i], concept), d);
      OneMoreEmbodies(edges, emit, i, concept);
      r := r[IdOf(d) := d];
    }
    assert emit[..|emit|] == emit;
    assert EmbodiesOf(emit, concept) == set l | l in Elements(emit) :: Desired(l.other, concept, Embodies);
  }

  predicate GatesOpen(geo: Geometry, opts: Options, vecs: map<string, Vec>, byArt: map<string, set<string>>, members: set<string>)
  {
    && |members| >= opts.concept.minMembers
    && geo.coherence(map m | m in members && m in vecs :: geo.centre(vecs, vecs[m])) >= opts.concept.tauCoherence
    && |(set m, c | m in members && m in byArt && c in byArt[m] :: c)| >= opts.concept.minCreators
  }

  lemma GatesMatch(geo: Geometry, opts: Options, fp: Fingerprint, byArt: map<string, set<string>>, concept: string)
    requires CreatorsBy(byArt, fp.attributions)
    ensures GatesOpen(geo, opts, Artworks(fp), byArt, Members(fp, concept)) <==> Passes(geo, opts, fp, concept)
  {
    var members := Members(fp, concept);
    assert (set m, c | m in members && m in byArt && c in byArt[m] :: c) == CreatorsAmong(fp, members) by {
      forall c | c in CreatorsAmong(fp, members) ensures c in (set m, c | m in members && m in byArt && c in byArt[m] :: c) {
        var e :| e in fp.attributions && e.0 in members && e.1 == c;
        assert c in byArt[e.0];
      }
      forall c | c in (set m, c | m in members && m in byArt && c in byArt[m] :: c) ensures c in CreatorsAmong(fp, members) {
        var m :| m in members && m in byArt && c in byArt[m];
        assert (m, c) in fp.attributions;
      }
    }
  }

  method Propagate(geo: Geometry, opts: Options, ghost fp: Fingerprint, rows: seq<(string, string)>, ids: map<string, Vec>,
                   vecs: map<string, Vec>, arts: seq<string>, byArt: map<string, set<string>>,
                   desired: Wanted, ghost edges: set<Desired>) returns (r: Wanted)
    requires multiset(rows) == fp.members && ids == Identities(fp) && vecs == Artworks(fp)
    requires InOrder(arts, fp) && CreatorsBy(byArt, fp.attributions) && Realises(desired, edges)
    ensures Realises(r, edges + ConceptEdges(geo, opts, fp, arts))
  {
    var byConcept := GroupMembers(rows, ids);
    GroupedMembers(fp, byConcept);
    var knn := NearestRows(geo, opts, fp, vecs, arts);
    r := desired;
    ghost var done: set<string> := {};
    assert edges + ConceptShares(geo, opts, fp, arts, done) == edges;
    var left := byConcept.Keys;
    while left != {}
      invariant forall c :: c in left ==> c in byConcept
      invariant forall c :: c in done <==> c in byConcept && c !in left
      invariant Realises(r, edges + ConceptShares(geo, opts, fp, arts, done))
    {
      var concept :| concept in left;
      left := left - {concept};
      SharesOneMore(geo, opts, fp, arts, edges, done, concept);
      GatesMatch(geo, opts, fp, byArt, concept);
      if GatesOpen(geo, opts, vecs, byArt, byConcept[concept]) {
        r := PropagateOne(geo, opts, fp, arts, knn, concept, byConcept[concept], r, edges + ConceptShares(geo, opts, fp, arts, done));
      }
      done := done + {concept};
    }
    AllShares(geo, opts, fp, arts, done);
  }

  method PropagateOne(geo: Geometry, opts: Options, ghost fp: Fingerprint, arts: seq<string>, knn: seq<seq<Scored>>,
                      concept: string, members: set<string>, desired: Wanted, ghost edges: set<Desired>) returns (r: Wanted)
    requires InOrder(arts, fp) && |knn| == |arts| && members == Members(fp, concept)
    requires forall i :: 0 <= i < |arts| ==> knn[i] == Table(Centred(geo, fp, arts), geo.cosine, i, opts.concept.knnK, |arts|)
    requires concept in Concepts(fp) && Passes(geo, opts, fp, concept) && Realises(desired, edges)
    ensures Realises(r, edges + ConceptShare(geo, opts, fp, arts, concept))
  {
    var candidates := VoteFor(geo, opts, fp, arts, knn, concept, members);
    assert Elements(candidates) == Voted(geo, opts, fp, arts, concept) by {
      assert arts[..|arts|] == arts;
      forall l | l in Voted(geo, opts, fp, arts, concept) ensures l in candidates {
        VotedAreListed(geo, opts, fp, arts, concept, l);
      }
    }
    var emit := CutCandidates(candidates, opts.concept.maxPerConcept);
    r := CollectEmbodies(desired, edges, emit, concept);
  }

  lemma VotedAreListed(geo: Geometry, opts: Options, fp: Fingerprint, arts: seq<string>, concept: string, l: M.Link)
    requires InOrder(arts, fp) && l in Voted(geo, opts, fp, arts, concept)
    ensures l.other in arts
  {
    var i: nat :| i < |arts| && arts[i] == l.other;
  }

  lemma GroupedMembers(fp: Fingerprint, byConcept: map<string, set<string>>)
    requires MembersBy(byConcept, fp.members, Identities(fp))
    ensures byConcept.Keys == Concepts(fp)
    ensures forall c :: c in byConcept ==> byConcept[c] == Members(fp, c)
  {
    forall c | c in byConcept ensures byConcept[c] == Members(fp, c) && c in Concepts(fp) {
      forall a ensures a in byConcept[c] <==> a in Members(fp, c) {
        assert (a, c) in fp.members && a in Identities(fp) ==> a in Members(fp, c);
      }
      var a :| a in byConcept[c];
      assert (a, c) in fp.members;
    }
    forall c | c in Concepts(fp) ensures c in byConcept {
      var e :| e in fp.members && e.0 in Identities(fp) && e.1 == c;
      assert (e.0, c) in fp.members;
    }
  }

  lemma SharesOneMore(geo: Geometry, opts: Options, fp: Fingerprint, arts: seq<string>, edges: set<Desired>, done: set<string>, c: string)
    requires InOrder(arts, fp)
    ensures edges + ConceptShares(geo, opts, fp, arts, done + {c})
         == edges + ConceptShares(geo, opts, fp, arts, done) + ConceptShare(geo, opts, fp, arts, c)
  {
  }

  lemma AllShares(geo: Geometry, opts: Options, fp: Fingerprint, arts: seq<string>, all: set<string>)
    requires InOrder(arts, fp) && forall c :: c in all <==> c in Concepts(fp)
    ensures ConceptShares(geo, opts, fp, arts, all) == ConceptEdges(geo, opts, fp, arts)
  {
    forall d ensures d in ConceptShares(geo, opts, fp, arts, all) <==> d in ConceptEdges(geo, opts, fp, arts) {
      if d in ConceptEdges(geo, opts, fp, arts) {
        var c, l :| c in Concepts(fp) && Passes(geo, opts, fp, c)
          && l in CutTo(Voted(geo, opts, fp, arts, c), opts.concept.maxPerConcept) && d == Desired(l.other, c, Embodies);
        assert d in ConceptShare(geo, opts, fp, arts, c);
      }
      if d in ConceptShares(geo, opts, fp, arts, all) {
        var c :| c in all && d in ConceptShare(geo, opts, fp, arts, c);
      }
    }
  }

  // ---- attribution suggestions ---------------------------------------------------------------

  datatype Best = NoneAbove | BestIs(creator: string, sim: real)

  /** Among the creators of `seen`: none reaches the threshold, or this is the first of those that do and nobody beats. */
  ghost predicate BestOf(geo: Geometry, v: Vec, centroids: map<string, Vec>, seen: seq<string>, tau: real, best: Best)
    requires forall c :: c in seen ==> c in centroids
  {
    match best
    case NoneAbove =>
      forall c :: c in seen ==> geo.cosine(v, centroids[c]) < tau
    case BestIs(creator, sim) =>
      && creator in seen && sim == geo.cosine(v, centroids[creator]) && sim >= tau
      && (forall c :: c in seen ==> geo.cosine(v, centroids[c]) <= sim)
      && exists k :: 0 <= k < |seen| && seen[k] == creator && forall j :: 0 <= j < k ==> geo.cosine(v, centroids[seen[j]]) < sim
  }

  /** Scan every centroid in turn and keep the strictly better one. */
  method FindBest(geo: Geometry, v: Vec, centroids: map<string, Vec>, order: seq<string>, tau: real) returns (best: Best)
    requires forall c :: c in order ==> c in centroids
    ensures BestOf(geo, v, centroids, order, tau, best)
  {
    best := NoneAbove;
    for i := 0 to |order|
      invariant BestOf(geo, v, centroids, order[..i], tau, best)
    {
      var c := order[i];
      assert order[..i + 1] == order[..i] + [c];
      var sim := geo.cosine(v, centroids[c]);
      OneMoreScanned(geo, v, centroids, order[..i], c, tau, best);
      if sim >= tau && (best.NoneAbove? || sim > best.sim) { best := BestIs(c, sim); }
    }
    assert order[..|order|] == order;
  }

  lemma OneMoreScanned(geo: Geometry, v: Vec, centroids: map<string, Vec>, seen: seq<string>, c: string, tau: real, best: Best)
    requires (forall x :: x in seen + [c] ==> x in centroids) && BestOf(geo, v, centroids, seen, tau, best) && c in centroids
    ensures var sim := geo.cosine(v, centroids[c]);
      BestOf(geo, v, centroids, seen + [c], tau, if sim >= tau && (best.NoneAbove? || sim > best.sim) then BestIs(c, sim) else best)
  {
    var sim, next := geo.cosine(v, centroids[c]), seen + [c];
    if sim >= tau && (best.NoneAbove? || sim > best.sim) {
      assert next[|seen|] == c;
      forall j | 0 <= j < |seen| ensures geo.cosine(v, centroids[next[j]]) < sim { assert next[j] in seen; }
    } else if best.BestIs? {
      var k :| 0 <= k < |seen| && seen[k] == best.creator && forall j :: 0 <= j < k ==> geo.cosine(v, centroids[seen[j]]) < best.sim;
      assert next[k] == best.creator;
      assert forall j :: 0 <= j < k ==> next[j] == seen[j];
    }
  }

  method SuggestAll(geo: Geometry, opts: Options, ghost fp: Fingerprint, vecs: map<string, Vec>, arts: seq<string>,
                    byArt: map<string, set<string>>, centroids: map<string, Vec>, order: seq<string>, rejected: set<string>)
    returns (s: seq<Suggestion>)
    requires InOrder(arts, fp) && vecs == Artworks(fp) && CreatorsBy(byArt, fp.attributions)
    requires centroids == CentroidsOf(geo, opts, fp) && ListsOnce(order, centroids.Keys)
    ensures s == Suggested(Choices(geo, opts, fp), rejected, arts, order)
  {
    s := [];
    for i := 0 to |arts|
      invariant s == Suggested(Choices(geo, opts, fp), rejected, arts[..i], order)
    {
      var a := arts[i];
      var best := BestFor(geo, opts, fp, vecs, byArt, centroids, order, a);
      SuggestedStep(Choices(geo, opts, fp), rejected, arts, i, order);
      if best.NoneAbove? { continue; }
      if PairHash(a, best.creator) in rejected { continue; }
      s := s + [Suggestion(a, best.creator)];
    }
    assert arts[..|arts|] == arts;
  }

  /** Nothing for an attributed artwork, else the first of the best in the scan. */
  method BestFor(geo: Geometry, opts: Options, ghost fp: Fingerprint, vecs: map<string, Vec>, byArt: map<string, set<string>>,
                 centroids: map<string, Vec>, order: seq<string>, a: string) returns (best: Best)
    requires vecs == Artworks(fp) && a in vecs && CreatorsBy(byArt, fp.attributions)
    requires centroids == CentroidsOf(geo, opts, fp) && ListsOnce(order, centroids.Keys)
    ensures FirstIn(order, Choices(geo, opts, fp)[a]) == if best.BestIs? then Some(best.creator) else None
  {
    AttributedMeans(fp, byArt, a);
    if a in byArt && byArt[a] != {} { return NoneAbove; }
    best := FindBest(geo, vecs[a], centroids, order, opts.tauAttribute);
    BestIsFirst(geo, vecs[a], centroids, BestCreators(geo, opts, fp, a), order, opts.tauAttribute, best);
  }

  lemma SuggestedStep(choices: map<string, set<string>>, rejected: set<string>, arts: seq<string>, i: nat, order: seq<string>)
    requires i < |arts| && forall a :: a in arts ==> a in choices
    ensures var first := FirstIn(order, choices[arts[i]]); var front := Suggested(choices, rejected, arts[..i], order);
      Suggested(choices, rejected, arts[..i + 1], order)
      == if first.None? || PairHash(arts[i], first.value) in rejected then front else front + [Suggestion(arts[i], first.value)]
  {
    assert arts[..i + 1][..i] == arts[..i];
  }

  lemma AttributedMeans(fp: Fingerprint, byArt: map<string, set<string>>, a: string)
    requires CreatorsBy(byArt, fp.attributions)
    ensures a in byArt && byArt[a] != {} <==> Attributed(fp, a)
  {
    if a in byArt && byArt[a] != {} {
      var c :| c in byArt[a];
      assert (a, c) in fp.attributions;
    }
    if Attributed(fp, a) {
      var c :| (a, c) in fp.attributions;
      assert c in byArt[a];
    }
  }

  /** The scan ends with the first of the creators nobody beats. */
  lemma BestIsFirst(geo: Geometry, v: Vec, cs: map<string, Vec>, choices: set<string>, order: seq<string>, tau: real, best: Best)
    requires (forall c :: c in order <==> c in cs) && BestOf(geo, v, cs, order, tau, best)
    requires forall c :: c in choices <==> c in cs && geo.cosine(v, cs[c]) >= tau && forall o :: o in cs ==> geo.cosine(v, cs[o]) <= geo.cosine(v, cs[c])
    ensures FirstIn(order, choices) == if best.BestIs? then Some(best.creator) else None
  {
    if best.BestIs? {
      var k :| 0 <= k < |order| && order[k] == best.creator
        && forall j :: 0 <= j < k ==> geo.cosine(v, cs[order[j]]) < best.sim;
      assert best.creator in choices;
      forall j | 0 <= j < k ensures order[j] !in choices { assert geo.cosine(v, cs[order[j]]) < geo.cosine(v, cs[order[k]]); }
      FirstAt(order, choices, k);
    }
  }

  lemma {:induction false} FirstAt(order: seq<string>, best: set<string>, k: nat)
    requires k < |order| && order[k] in best && forall j :: 0 <= j < k ==> order[j] !in best
    ensures FirstIn(order, best) == Some(order[k])
  {
    if k > 0 { FirstAt(order[1..], best, k - 1); }
  }

  // ---- the whole plan ------------------------------------------------------------------------

  /** What the queries of one read snapshot return; `scan` is the order the stored centroids came in. */
  datatype Snapshot = Snapshot(
    identity: map<string, VectorRow>, centroids: map<string, VectorRow>, scan: seq<string>,
    attributions: seq<(string, string)>, centroidEdges: seq<(string, string)>,
    members: seq<(string, string)>, rejected: set<string>)

  ghost predicate SnapshotOf(s: Snapshot, fp: Fingerprint)
  {
    && s.identity == fp.identity && s.centroids == fp.centroids && s.rejected == fp.rejected
    && ListsOnce(s.scan, Usable(s.centroids).Keys)
    && multiset(s.attributions) == fp.attributions
    && multiset(s.centroidEdges) == fp.centroidEdges
    && multiset(s.members) == fp.members
  }

  /** The order this snapshot's centroids are scanned in. */
  function ScanOf(opts: Options, s: Snapshot): seq<string>
  {
    if opts.skipCentroids then s.scan else FirstSeen(s.centroidEdges, Usable(s.identity))
  }

  /** plan(): the result depends on the snapshot only through its fingerprint and the order its centroids are scanned in. */
  method ComputePlan(geo: Geometry, opts: Options, ghost fp: Fingerprint, s: Snapshot, now: string) returns (p: Plan)
    requires SnapshotOf(s, fp)
    ensures IsPlanIn(geo, opts, fp, ScanOf(opts, s), p) && p.now == now
  {
    var ids := Usable(s.identity);
    var vecs := map id | id in ids && IsArtwork(id) :: ids[id];
    var arts := SortedKeys(vecs.Keys);
    var centroids, order := ChooseCentroids(geo, opts, fp, Usable(s.centroids), s.scan, s.centroidEdges, ids);
    var byArt := IndexCreators(s.attributions);
    var desired: Wanted := map[];
    var kin := StyleKinEdges(geo, opts, centroids);
    desired := CollectBothWays(desired, {}, kin, StyleKin);
    var vis := VisuallyAffineEdges(geo, opts, fp, vecs, arts, byArt);
    desired := CollectBothWays(desired, {} + BothWays(Elements(kin), StyleKin), vis, VisuallyAffine);
    desired := Propagate(geo, opts, fp, s.members, ids, vecs, arts, byArt, desired,
                         {} + BothWays(Elements(kin), StyleKin) + BothWays(Elements(vis), VisuallyAffine));
    assert {} + BothWays(Elements(kin), StyleKin) + BothWays(Elements(vis), VisuallyAffine) + ConceptEdges(geo, opts, fp, arts)
      == WantedEdges(geo, opts, fp, arts);
    var suggestions := SuggestAll(geo, opts, fp, vecs, arts, byArt, centroids, order, s.rejected);
    p := Plan(desired, suggestions, if opts.skipCentroids then Keep else Replace(centroids), now);
    assert InOrder(arts, fp);
  }

  // ---- every scan order arises ---------------------------------------------------------------

  lemma FirstSeenRest(ids: map<string, Vec>, rows: seq<(string, string)>, more: seq<(string, string)>)
    requires forall e :: e in more && e.0 in ids ==> e.1 in FirstSeen(rows, ids)
    ensures FirstSeen(rows + more, ids) == FirstSeen(rows, ids)
  {
    if more == [] {
      assert rows + more == rows;
    } else {
      FirstSeenRest(ids, rows, more[..|more| - 1]);
      assert (rows + more)[..|rows + more| - 1] == rows + more[..|more| - 1];
    }
  }

  lemma OneNewRow(rows: seq<(string, string)>, edges: multiset<(string, string)>, ids: map<string, Vec>, e: (string, string))
    requires multiset(rows) <= edges && e in edges && e.0 in ids && e !in rows && e.1 !in FirstSeen(rows, ids)
    ensures multiset(rows + [e]) <= edges && FirstSeen(rows + [e], ids) == FirstSeen(rows, ids) + [e.1]
  {
    assert (rows + [e])[..|rows|] == rows;
    assert multiset(rows)[e] == 0;
  }

  ghost predicate Credited(edges: multiset<(string, string)>, ids: map<string, Vec>, c: string)
  {
    exists e :: e in edges && e.0 in ids && e.1 == c
  }

  /** One attribution row per creator, in the order asked for. */
  lemma {:induction false} OneRowEach(edges: multiset<(string, string)>, ids: map<string, Vec>, order: seq<string>)
    returns (rows: seq<(string, string)>)
    requires Distinct(order) && forall c :: c in order ==> Credited(edges, ids, c)
    ensures FirstSeen(rows, ids) == order && multiset(rows) <= edges
    ensures forall e :: e in rows ==> e.1 in order
  {
    if order == [] {
      rows := [];
    } else {
      var front, c := order[..|order| - 1], order[|order| - 1];
      assert order == front + [c] && c !in front;
      assert forall x :: x in front ==> x in order;
      var earlier := OneRowEach(edges, ids, front);
      assert c in order && Credited(edges, ids, c);
      var e :| e in edges && e.0 in ids && e.1 == c;
      OneNewRow(earlier, edges, ids, e);
      rows := earlier + [e];
    }
  }

  lemma {:induction false} Listing<T>(m: multiset<T>) returns (s: seq<T>)
    ensures multiset(s) == m
  {
    if m == multiset{} {
      s := [];
    } else {
      var x :| x in m;
      var rest := Listing(m - multiset{x});
      s := rest + [x];
    }
  }

  /** Rows may come so that the centroids are scanned in any order whatever: a tie that matters is settled by chance. */
  lemma EveryScanArises(geo: Geometry, opts: Options, fp: Fingerprint, order: seq<string>) returns (s: Snapshot)
    requires ListsOnce(order, CentroidsOf(geo, opts, fp).Keys)
    ensures SnapshotOf(s, fp) && ScanOf(opts, s) == order
  {
    var attributions := Listing(fp.attributions);
    var members := Listing(fp.members);
    if opts.skipCentroids {
      var rows := Listing(fp.centroidEdges);
      s := Snapshot(fp.identity, fp.centroids, order, attributions, rows, members, fp.rejected);
    } else {
      var scan := AnyScan(Usable(fp.centroids).Keys);
      forall c | c in order ensures Credited(fp.centroidEdges, Identities(fp), c) { assert c in Creators(fp); }
      var first := OneRowEach(fp.centroidEdges, Identities(fp), order);
      var rest := Listing(fp.centroidEdges - multiset(first));
      assert forall e :: e in rest ==> e in multiset(rest);
      FirstSeenRest(Identities(fp), first, rest);
      s := Snapshot(fp.identity, fp.centroids, scan, attributions, first + rest, members, fp.rejected);
    }
  }
}
