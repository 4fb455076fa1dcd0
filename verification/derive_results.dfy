/** What a done run of derive leaves, cell by cell, said of the tables it found under the write lock. */
module DeriveResults {
  import opened Finite
  import opened Ordering
  import opened Sorting
  import opened EdgeRows
  import opened DerivedEdges
  import opened DeriveInputs
  import opened DerivePlan
  import opened DerivePass
  import opened Derive
  import opened Optional
  import M = MutualTopK
  import N = NearestTable

  // ---- what the queries read, row by row ------------------------------------------------------

  /** A live CREATED_BY row from this artwork to this practitioner or collective. */
  ghost predicate Credits(t: Tables, art: string, creator: string)
  {
    exists id :: id in t.edges && CreditRow(t.edges[id], art, creator)
  }

  predicate CreditRow(e: Edge, art: string, creator: string)
  {
    && e.source == art && e.target == creator && e.edgeType == CreatedBy && e.validUntil == Null
    && "artwork:" <= art && ("practitioner:" <= creator || "collective:" <= creator)
  }

  /** A live EMBODIES row from this artwork to this concept that derive did not write. */
  ghost predicate Attests(t: Tables, art: string, concept: string)
  {
    exists id :: id in t.edges && AttestRow(t.edges[id], art, concept)
  }

  predicate AttestRow(e: Edge, art: string, concept: string)
  {
    && e.source == art && e.target == concept && e.edgeType == Embodies && e.validUntil == Null && e.createdBy != DeriveTag
    && "artwork:" <= art && "concept:" <= concept
  }

  /** A vector of today's model and size, of a node that is there and not retired. */
  predicate HasVector(opts: Options, t: Tables, rows: map<string, VectorRow>, n: string)
  {
    n in rows && rows[n].model == opts.model && rows[n].dims == 768 && n in t.nodes && !t.nodes[n].retired
  }

  lemma {:induction false} PairsHave(rows: Rows, p: (string, string))
    ensures p in Pairs(rows) <==> exists id :: id in rows && (rows[id].source, rows[id].target) == p
    decreases rows.Keys
  {
    if rows != map[] {
      var first := AnyId(rows);
      PairsHave(rows - {first}, p);
      assert forall id :: id in rows <==> id == first || id in rows - {first};
    }
  }

  /** One unordered query gives a pair exactly when some row it selects has these ends. */
  lemma ReadPair(rows: Rows, q: Edge -> bool, p: (string, string))
    ensures p in Pairs(Selected(rows, q)) <==> exists id :: id in rows && q(rows[id]) && (rows[id].source, rows[id].target) == p
  {
    PairsHave(Selected(rows, q), p);
    if id :| id in rows && q(rows[id]) && (rows[id].source, rows[id].target) == p { assert id in Selected(rows, q); }
  }

  lemma AttributionsRead(opts: Options, t: Tables, a: string, c: string)
    ensures (a, c) in FingerprintOf(opts, t).attributions <==> Credits(t, a, c)
    ensures !opts.skipCentroids ==>
      ((a, c) in FingerprintOf(opts, t).centroidEdges <==> Credits(t, a, c) && c in t.nodes && !t.nodes[c].retired)
  {
    ReadPair(t.edges, IsAttribution, (a, c));
    ReadPair(t.edges, CentroidEdge(t.nodes), (a, c));
    if Credits(t, a, c) {
      var id :| id in t.edges && CreditRow(t.edges[id], a, c);
      assert IsAttribution(t.edges[id]);
    }
    if id :| id in t.edges && IsAttribution(t.edges[id]) && (t.edges[id].source, t.edges[id].target) == (a, c) {
      assert CreditRow(t.edges[id], a, c);
    }
  }

  lemma MembershipsRead(opts: Options, t: Tables, a: string, c: string)
    ensures (a, c) in FingerprintOf(opts, t).members <==> Attests(t, a, c)
  {
    ReadPair(t.edges, IsMembership, (a, c));
    if Attests(t, a, c) {
      var id :| id in t.edges && AttestRow(t.edges[id], a, c);
      assert IsMembership(t.edges[id]);
    }
    if id :| id in t.edges && IsMembership(t.edges[id]) && (t.edges[id].source, t.edges[id].target) == (a, c) {
      assert AttestRow(t.edges[id], a, c);
    }
  }

  lemma VectorsRead(opts: Options, t: Tables)
    ensures var fp := FingerprintOf(opts, t);
      && (forall n :: n in Identities(fp) <==> HasVector(opts, t, t.identity, n))
      && (forall n :: n in Identities(fp) ==> Identities(fp)[n] == t.identity[n].vec)
      && (opts.skipCentroids ==> forall n :: n in Usable(fp.centroids) <==> HasVector(opts, t, t.centroids, n))
      && (opts.skipCentroids ==> forall n :: n in Usable(fp.centroids) ==> Usable(fp.centroids)[n] == t.centroids[n].vec)
  {
  }

  /** The live attribution rows to a creator that stands, of artworks that have this very vector. */
  ghost function RowsWith(opts: Options, t: Tables, creator: string, v: Vec): set<RowId>
  {
    set id | id in t.edges && CreditRow(t.edges[id], t.edges[id].source, creator) && Standing(t.nodes, creator)
      && HasVector(opts, t, t.identity, t.edges[id].source) && t.identity[t.edges[id].source].vec == v
  }

  /** Of some rows, those whose artwork is in `vecs` with this vector and whose target is this creator. */
  ghost function Matching(rows: Rows, creator: string, vecs: map<string, Vec>, v: Vec): set<RowId>
  {
    set id | id in rows && rows[id].target == creator && rows[id].source in vecs && vecs[rows[id].source] == v
  }

  lemma MatchingPick(rows: Rows, id: RowId, creator: string, vecs: map<string, Vec>, v: Vec)
    requires id in rows
    ensures |Matching(rows, creator, vecs, v)| == |Matching(rows - {id}, creator, vecs, v)| + Share(PairOf(rows[id]), creator, vecs)[v]
  {
    var rest := Matching(rows - {id}, creator, vecs, v);
    if id in Matching(rows, creator, vecs, v) {
      assert Matching(rows, creator, vecs, v) == rest + {id};
    } else {
      assert Matching(rows, creator, vecs, v) == rest;
    }
  }

  lemma {:induction false} WorksCounted(rows: Rows, creator: string, vecs: map<string, Vec>, v: Vec)
    ensures Works(Pairs(rows), creator, vecs)[v] == |Matching(rows, creator, vecs, v)|
    decreases rows.Keys
  {
    if rows == map[] {
      assert Matching(rows, creator, vecs, v) == {};
    } else {
      var id := AnyId(rows);
      WorksCounted(rows - {id}, creator, vecs, v);
      WorksAdd(Pairs(rows - {id}), PairOf(rows[id]), creator, vecs);
      MatchingPick(rows, id, creator, vecs, v);
    }
  }

  lemma CreatorsCredited(opts: Options, t: Tables, c: string)
    requires !opts.skipCentroids
    ensures c in Creators(FingerprintOf(opts, t))
      <==> Standing(t.nodes, c) && exists a :: Credits(t, a, c) && HasVector(opts, t, t.identity, a)
  {
    var fp := FingerprintOf(opts, t);
    VectorsRead(opts, t);
    if c in Creators(fp) {
      var e :| e in fp.centroidEdges && e.0 in Identities(fp) && e.1 == c;
      AttributionsRead(opts, t, e.0, c);
      assert Credits(t, e.0, c);
    }
    if a :| Credits(t, a, c) && HasVector(opts, t, t.identity, a) {
      AttributionsRead(opts, t, a, c);
      assert Standing(t.nodes, c) ==> (a, c) in fp.centroidEdges;
    }
  }

  lemma MatchingOver(opts: Options, t: Tables, c: string, ids: map<string, Vec>, v: Vec)
    requires forall n :: n in ids <==> HasVector(opts, t, t.identity, n)
    requires forall n :: n in ids ==> n in t.identity && ids[n] == t.identity[n].vec
    ensures Matching(Selected(t.edges, CentroidEdge(t.nodes)), c, ids, v) == RowsWith(opts, t, c, v)
  {
  }

  lemma WorksOver(opts: Options, t: Tables, c: string, v: Vec)
    requires !opts.skipCentroids
    ensures Works(FingerprintOf(opts, t).centroidEdges, c, Identities(FingerprintOf(opts, t)))[v] == |RowsWith(opts, t, c, v)|
  {
    var ids := Identities(FingerprintOf(opts, t));
    assert Matching(Selected(t.edges, CentroidEdge(t.nodes)), c, ids, v) == RowsWith(opts, t, c, v) by {
      VectorsRead(opts, t);
      MatchingOver(opts, t, c, ids, v);
    }
    WorksCounted(Selected(t.edges, CentroidEdge(t.nodes)), c, ids, v);
  }

  /** Recomputed: a creator has a centroid exactly when it stands and a live row credits it with an artwork that has a vector;
      the centroid is the mean of those vectors, one per row. */
  lemma CentroidMeaning(geo: Geometry, opts: Options, t: Tables, c: string) returns (works: multiset<Vec>)
    requires !opts.skipCentroids
    ensures var cs := CentroidsOf(geo, opts, FingerprintOf(opts, t));
      && (c in cs <==> Standing(t.nodes, c) && exists a :: Credits(t, a, c) && HasVector(opts, t, t.identity, a))
      && (c in cs ==> cs[c] == geo.mean(works))
    ensures forall v :: works[v] == |RowsWith(opts, t, c, v)|
  {
    works := Works(FingerprintOf(opts, t).centroidEdges, c, Identities(FingerprintOf(opts, t)));
    forall v ensures works[v] == |RowsWith(opts, t, c, v)| { WorksOver(opts, t, c, v); }
    CreatorsCredited(opts, t, c);
  }

  /** Told to skip them: the stored ones of today's model and size, of creators that stand. */
  lemma StoredCentroidMeaning(geo: Geometry, opts: Options, t: Tables, c: string)
    requires opts.skipCentroids
    ensures var cs := CentroidsOf(geo, opts, FingerprintOf(opts, t));
      (c in cs <==> HasVector(opts, t, t.centroids, c)) && (c in cs ==> cs[c] == t.centroids[c].vec)
  {
    VectorsRead(opts, t);
  }

  // ---- the suggestions -----------------------------------------------------------------------

  /** This creator's centroid is close enough to the artwork, and no other is closer. */
  ghost predicate Closest(geo: Geometry, opts: Options, v: Vec, cs: map<string, Vec>, c: string)
  {
    c in cs && geo.cosine(v, cs[c]) >= opts.tauAttribute && forall o :: o in cs ==> geo.cosine(v, cs[o]) <= geo.cosine(v, cs[c])
  }

  /** An artwork with a vector and no live credit row. */
  ghost predicate Unattributed(opts: Options, t: Tables, a: string)
  {
    "artwork:" <= a && HasVector(opts, t, t.identity, a) && forall c :: !Credits(t, a, c)
  }

  lemma ArtworksOver(opts: Options, t: Tables, a: string)
    ensures var arts := Artworks(FingerprintOf(opts, t));
      && (a in arts <==> "artwork:" <= a && HasVector(opts, t, t.identity, a))
      && (a in arts ==> arts[a] == t.identity[a].vec)
  {
    VectorsRead(opts, t);
  }

  lemma AttributedOver(opts: Options, t: Tables, a: string)
    ensures Attributed(FingerprintOf(opts, t), a) <==> exists c :: Credits(t, a, c)
  {
    var fp := FingerprintOf(opts, t);
    if Attributed(fp, a) {
      var c :| (a, c) in fp.attributions;
      AttributionsRead(opts, t, a, c);
    }
    if c :| Credits(t, a, c) { AttributionsRead(opts, t, a, c); }
  }

  lemma ChoicesOver(geo: Geometry, opts: Options, t: Tables, a: string, c: string)
    ensures var fp := FingerprintOf(opts, t); var choices := Choices(geo, opts, fp);
      && (a in choices <==> a in Artworks(fp))
      && (a in choices ==>
           (c in choices[a] <==> Unattributed(opts, t, a) && Closest(geo, opts, t.identity[a].vec, CentroidsOf(geo, opts, fp), c)))
  {
    var fp := FingerprintOf(opts, t);
    ArtworksOver(opts, t, a);
    if a in Artworks(fp) {
      assert Unattributed(opts, t, a) <==> !Attributed(fp, a) by { AttributedOver(opts, t, a); }
      assert c in BestCreators(geo, opts, fp, a) <==> Closest(geo, opts, t.identity[a].vec, CentroidsOf(geo, opts, fp), c);
    }
  }

  /** What the scan arrives at for one artwork. */
  lemma SuggestedFirst(geo: Geometry, opts: Options, fp: Fingerprint, p: Plan, a: string) returns (first: Option<string>)
    requires IsPlan(geo, opts, fp, p)
    ensures first.Some? ==> a in Artworks(fp) && first.value in Choices(geo, opts, fp)[a]
    ensures first.None? && a in Artworks(fp) ==> Choices(geo, opts, fp)[a] == {}
    ensures forall c :: Suggestion(a, c) in p.suggestions <==> first == Some(c) && PairHash(a, c) !in fp.rejected
  {
    var order :| IsPlanIn(geo, opts, fp, order, p);
    var choices := Choices(geo, opts, fp);
    var arts :| InOrder(arts, fp) && p.suggestions == Suggested(choices, fp.rejected, arts, order);
    first := if a in Artworks(fp) then FirstIn(order, choices[a]) else None;
    forall c ensures Suggestion(a, c) in p.suggestions <==> first == Some(c) && PairHash(a, c) !in fp.rejected {
      SuggestedMeaning(choices, fp.rejected, arts, order, Suggestion(a, c));
    }
    if first.None? && a in Artworks(fp) {
      forall c ensures c !in choices[a] { assert c in choices[a] ==> c in order; }
    }
  }

  /** Who is suggested: only unattributed artworks, a closest creator, one each, never a rejected pair. */
  lemma SuggestedOver(geo: Geometry, opts: Options, t: Tables, p: Plan, a: string, c: string)
    requires IsPlan(geo, opts, FingerprintOf(opts, t), p) && Suggestion(a, c) in p.suggestions
    ensures Unattributed(opts, t, a) && a + "|CREATED_BY|" + c !in t.rejected
    ensures Closest(geo, opts, t.identity[a].vec, CentroidsOf(geo, opts, FingerprintOf(opts, t)), c)
    ensures forall d :: Suggestion(a, d) in p.suggestions ==> d == c
  {
    var first := SuggestedFirst(geo, opts, FingerprintOf(opts, t), p, a);
    ChoicesOver(geo, opts, t, a, c);
  }

  /** And an unattributed artwork with a closest creator is suggested one, unless that pair was rejected. */
  lemma NobodyForgotten(geo: Geometry, opts: Options, t: Tables, p: Plan, a: string, c: string) returns (d: string)
    requires IsPlan(geo, opts, FingerprintOf(opts, t), p)
    requires Unattributed(opts, t, a) && Closest(geo, opts, t.identity[a].vec, CentroidsOf(geo, opts, FingerprintOf(opts, t)), c)
    ensures Closest(geo, opts, t.identity[a].vec, CentroidsOf(geo, opts, FingerprintOf(opts, t)), d)
    ensures Suggestion(a, d) in p.suggestions || a + "|CREATED_BY|" + d in t.rejected
  {
    var fp := FingerprintOf(opts, t);
    var first := SuggestedFirst(geo, opts, fp, p, a);
    assert a in Artworks(fp) by { ArtworksOver(opts, t, a); }
    assert c in Choices(geo, opts, fp)[a] by { ChoicesOver(geo, opts, t, a, c); }
    d := first.value;
    assert Closest(geo, opts, t.identity[a].vec, CentroidsOf(geo, opts, fp), d) by { ChoicesOver(geo, opts, t, a, d); }
    assert PairHash(a, d) == a + "|CREATED_BY|" + d;
  }

  /** An artwork with a live credit row is never suggested anyone. */
  lemma AttributedIsNotSuggested(geo: Geometry, opts: Options, t: Tables, p: Plan, id: RowId, c: string)
    requires IsPlan(geo, opts, FingerprintOf(opts, t), p)
    requires id in t.edges && t.edges[id].edgeType == CreatedBy && t.edges[id].validUntil == Null
    requires "artwork:" <= t.edges[id].source && ("practitioner:" <= t.edges[id].target || "collective:" <= t.edges[id].target)
    ensures Suggestion(t.edges[id].source, c) !in p.suggestions
  {
    var e := t.edges[id];
    assert CreditRow(e, e.source, e.target);
    assert Credits(t, e.source, e.target);
    if Suggestion(e.source, c) in p.suggestions { SuggestedOver(geo, opts, t, p, e.source, c); }
  }

  // ---- the two symmetric edge types -------------------------------------------------------------

  /** The similarity of two nodes, computed with the lesser id first. */
  ghost function Likeness(geo: Geometry, vecs: map<string, Vec>, a: string, b: string): real
    requires a in vecs && b in vecs
  {
    if Less(a, b) then geo.cosine(vecs[a], vecs[b]) else geo.cosine(vecs[b], vecs[a])
  }

  /** The creators close enough to this one, with how close they are. */
  ghost function KinOf(geo: Geometry, opts: Options, cs: map<string, Vec>, n: string): map<string, real>
  {
    map o | n in cs && o in cs && o != n && Likeness(geo, cs, n, o) >= opts.tauKin :: Likeness(geo, cs, n, o)
  }

  ghost predicate ShareCreator(t: Tables, a: string, b: string)
  {
    exists c :: Credits(t, a, c) && Credits(t, b, c)
  }

  /** The artworks that look close enough to this one and have no creator in common with it. */
  ghost function AffineOf(geo: Geometry, opts: Options, t: Tables, arts: map<string, Vec>, n: string): map<string, real>
  {
    map o | n in arts && o in arts && o != n && Likeness(geo, arts, n, o) >= opts.tauVisual && !ShareCreator(t, n, o)
      :: Likeness(geo, arts, n, o)
  }

  /** Who is closer than o, or as close with a lesser id. */
  ghost function CloserThan(near: map<string, real>, o: string): set<string>
    requires o in near
  {
    set x | x in near && (near[x] > near[o] || (near[x] == near[o] && Less(x, o)))
  }

  /** Fewer than k come before o; k of 0 or less sets no limit. */
  ghost predicate AmongClosest(near: map<string, real>, k: int, o: string)
  {
    o in near && (k <= 0 || |CloserThan(near, o)| < k)
  }

  ghost predicate LinksAre(all: set<M.Pair>, n: string, near: map<string, real>)
  {
    forall l :: l in M.LinksOf(all, n) <==> l.other in near && l.sim == near[l.other]
  }

  ghost function OtherEnds(links: set<M.Link>): set<string>
  {
    set l | l in links :: l.other
  }

  lemma {:induction false} OthersCount(links: set<M.Link>)
    requires forall l, m :: l in links && m in links && l.other == m.other ==> l == m
    ensures |OtherEnds(links)| == |links|
  {
    if links != {} {
      var x :| x in links;
      OthersCount(links - {x});
      assert OtherEnds(links) == OtherEnds(links - {x}) + {x.other};
    }
  }

  /** Ranking links is ranking the nodes at their ends. */
  lemma RankAmong(links: set<M.Link>, near: map<string, real>, o: string)
    requires (forall l :: l in links <==> l.other in near && l.sim == near[l.other]) && o in near
    ensures |Ahead(links, M.Link(o, near[o]), M.Stronger)| == |CloserThan(near, o)|
  {
    var ahead := Ahead(links, M.Link(o, near[o]), M.Stronger);
    OthersCount(ahead);
    forall x | x in CloserThan(near, o) ensures x in OtherEnds(ahead) { assert M.Link(x, near[x]) in ahead; }
    assert OtherEnds(ahead) == CloserThan(near, o);
  }

  lemma RankOfLink(all: set<M.Pair>, n: string, near: map<string, real>, o: string, k: nat)
    requires LinksAre(all, n, near) && o in near
    ensures M.AmongBest(all, n, M.Link(o, near[o]), k) <==> |CloserThan(near, o)| < k
  {
    RankAmong(M.LinksOf(all, n), near, o);
  }

  lemma KeptMeans(all: set<M.Pair>, p: M.Pair, nearA: map<string, real>, nearB: map<string, real>, k: int)
    requires LinksAre(all, p.a, nearA) && LinksAre(all, p.b, nearB) && p in all
    ensures p in M.Kept(all, k) <==> AmongClosest(nearA, k, p.b) && AmongClosest(nearB, k, p.a)
  {
    assert M.Link(p.b, p.sim) in M.LinksOf(all, p.a);
    assert M.Link(p.a, p.sim) in M.LinksOf(all, p.b);
    if k > 0 {
      RankOfLink(all, p.a, nearA, p.b, k);
      RankOfLink(all, p.b, nearB, p.a, k);
    }
  }

  /** Both ways of the survivors: an edge from a to b exactly when each is among the closest of the other. */
  lemma JoinedExactly(all: set<M.Pair>, a: string, b: string, t: EdgeType, nearA: map<string, real>, nearB: map<string, real>, k: int)
    requires LinksAre(all, a, nearA) && LinksAre(all, b, nearB)
    ensures Desired(a, b, t) in BothWays(M.Kept(all, k), t) <==> AmongClosest(nearA, k, b) && AmongClosest(nearB, k, a)
  {
    if Desired(a, b, t) in BothWays(M.Kept(all, k), t) {
      var p :| p in M.Kept(all, k) && ((p.a == a && p.b == b) || (p.a == b && p.b == a));
      if p.a == a { KeptMeans(all, p, nearA, nearB, k); } else { KeptMeans(all, p, nearB, nearA, k); }
    }
    if AmongClosest(nearA, k, b) && AmongClosest(nearB, k, a) {
      var l := M.Link(b, nearA[b]);
      assert l in M.LinksOf(all, a);
      var p :| p in all && ((p.a == a && p.b == b) || (p.b == a && p.a == b));
      if p.a == a { KeptMeans(all, p, nearA, nearB, k); } else { KeptMeans(all, p, nearB, nearA, k); }
      assert p in M.Kept(all, k);
    }
  }

  lemma LessOneWayOnly(a: string, b: string)
    ensures a != b ==> (Less(a, b) <==> !Less(b, a))
    ensures a == b ==> !Less(a, b)
  {
    LessIrreflexive(a);
    LessTotal(a, b);
    if Less(a, b) && Less(b, a) { LessTransitive(a, b, a); }
  }

  lemma KinLinks(geo: Geometry, opts: Options, cs: map<string, Vec>, n: string)
    ensures LinksAre(KinPairs(geo, opts, cs), n, KinOf(geo, opts, cs, n))
  {
    var all, near := KinPairs(geo, opts, cs), KinOf(geo, opts, cs, n);
    forall l ensures l in M.LinksOf(all, n) <==> l.other in near && l.sim == near[l.other] {
      LessOneWayOnly(n, l.other);
      var forth, back := M.Pair(n, l.other, l.sim), M.Pair(l.other, n, l.sim);
      assert l in M.LinksOf(all, n) <==> forth in all || back in all;
      assert forth in all <==> (n in cs && l.other in cs && Less(n, l.other)
        && geo.cosine(cs[n], cs[l.other]) >= opts.tauKin && l.sim == geo.cosine(cs[n], cs[l.other]));
      assert back in all <==> (n in cs && l.other in cs && Less(l.other, n)
        && geo.cosine(cs[l.other], cs[n]) >= opts.tauKin && l.sim == geo.cosine(cs[l.other], cs[n]));
    }
  }

  /** STYLE_KIN joins two creators exactly when each is among the closest of those close enough to the other. */
  lemma KinExactly(geo: Geometry, opts: Options, fp: Fingerprint, arts: seq<string>, a: string, b: string)
    requires InOrder(arts, fp)
    ensures var cs := CentroidsOf(geo, opts, fp);
      Desired(a, b, StyleKin) in WantedEdges(geo, opts, fp, arts)
      <==> AmongClosest(KinOf(geo, opts, cs, a), opts.kinTopK, b) && AmongClosest(KinOf(geo, opts, cs, b), opts.kinTopK, a)
  {
    var cs := CentroidsOf(geo, opts, fp);
    WantedOfType(geo, opts, fp, arts, Desired(a, b, StyleKin));
    KinLinks(geo, opts, cs, a);
    KinLinks(geo, opts, cs, b);
    JoinedExactly(KinPairs(geo, opts, cs), a, b, StyleKin, KinOf(geo, opts, cs, a), KinOf(geo, opts, cs, b), opts.kinTopK);
  }

  lemma SharedOver(opts: Options, t: Tables, a: string, b: string)
    ensures SameCreator(FingerprintOf(opts, t), a, b) <==> ShareCreator(t, a, b)
  {
    var fp := FingerprintOf(opts, t);
    if SameCreator(fp, a, b) {
      var c :| (a, c) in fp.attributions && (b, c) in fp.attributions;
      AttributionsRead(opts, t, a, c);
      AttributionsRead(opts, t, b, c);
    }
    if c :| Credits(t, a, c) && Credits(t, b, c) {
      AttributionsRead(opts, t, a, c);
      AttributionsRead(opts, t, b, c);
    }
  }

  lemma AffineLinks(geo: Geometry, opts: Options, t: Tables, n: string)
    ensures var fp := FingerprintOf(opts, t);
      LinksAre(VisualPairs(geo, opts, fp), n, AffineOf(geo, opts, t, Artworks(fp), n))
  {
    var fp := FingerprintOf(opts, t);
    var arts := Artworks(fp);
    var all, near := VisualPairs(geo, opts, fp), AffineOf(geo, opts, t, arts, n);
    forall l ensures l in M.LinksOf(all, n) <==> l.other in near && l.sim == near[l.other] {
      LessOneWayOnly(n, l.other);
      SharedOver(opts, t, n, l.other);
      SharedOver(opts, t, l.other, n);
      var forth, back := M.Pair(n, l.other, l.sim), M.Pair(l.other, n, l.sim);
      assert l in M.LinksOf(all, n) <==> forth in all || back in all;
      assert forth in all <==> (n in arts && l.other in arts && Less(n, l.other) && !SameCreator(fp, n, l.other)
        && geo.cosine(arts[n], arts[l.other]) >= opts.tauVisual && l.sim == geo.cosine(arts[n], arts[l.other]));
      assert back in all <==> (n in arts && l.other in arts && Less(l.other, n) && !SameCreator(fp, l.other, n)
        && geo.cosine(arts[l.other], arts[n]) >= opts.tauVisual && l.sim == geo.cosine(arts[l.other], arts[n]));
    }
  }

  /** VISUALLY_AFFINE joins two artworks exactly when each is among the closest of those that look close enough to the other and
      share no creator with it. */
  lemma AffineExactly(geo: Geometry, opts: Options, t: Tables, arts: seq<string>, a: string, b: string)
    requires InOrder(arts, FingerprintOf(opts, t))
    ensures var fp := FingerprintOf(opts, t); var vecs := Artworks(fp);
      Desired(a, b, VisuallyAffine) in WantedEdges(geo, opts, fp, arts)
      <==> AmongClosest(AffineOf(geo, opts, t, vecs, a), opts.visualTopK, b)
           && AmongClosest(AffineOf(geo, opts, t, vecs, b), opts.visualTopK, a)
  {
    var fp := FingerprintOf(opts, t);
    var vecs := Artworks(fp);
    WantedOfType(geo, opts, fp, arts, Desired(a, b, VisuallyAffine));
    AffineLinks(geo, opts, t, a);
    AffineLinks(geo, opts, t, b);
    JoinedExactly(VisualPairs(geo, opts, fp), a, b, VisuallyAffine, AffineOf(geo, opts, t, vecs, a), AffineOf(geo, opts, t, vecs, b),
                  opts.visualTopK);
  }

  // ---- propagated concepts ----------------------------------------------------------------------

  /** The artworks with a vector that attestedly embody a concept. */
  ghost predicate Embodied(opts: Options, t: Tables, a: string, concept: string)
  {
    Attests(t, a, concept) && HasVector(opts, t, t.identity, a)
  }

  lemma MembersOver(opts: Options, t: Tables, concept: string)
    ensures var fp := FingerprintOf(opts, t);
      && (forall a :: a in Members(fp, concept) <==> Embodied(opts, t, a, concept))
      && (concept in Concepts(fp) <==> exists a :: Embodied(opts, t, a, concept))
  {
    var fp := FingerprintOf(opts, t);
    VectorsRead(opts, t);
    forall a ensures a in Members(fp, concept) <==> Embodied(opts, t, a, concept) {
      MembershipsRead(opts, t, a, concept);
      assert (a, concept) in fp.members && a in Identities(fp) ==> a in Members(fp, concept);
    }
    if concept in Concepts(fp) {
      var e :| e in fp.members && e.0 in Identities(fp) && e.1 == concept;
      assert e.0 in Members(fp, concept);
    }
    if a :| Embodied(opts, t, a, concept) {
      MembershipsRead(opts, t, a, concept);
      assert (a, concept) in fp.members;
    }
  }

  lemma CreatorsOver(opts: Options, t: Tables, members: set<string>, c: string)
    ensures c in CreatorsAmong(FingerprintOf(opts, t), members) <==> exists a :: a in members && Credits(t, a, c)
  {
    var fp := FingerprintOf(opts, t);
    if c in CreatorsAmong(fp, members) {
      var e :| e in fp.attributions && e.0 in members && e.1 == c;
      AttributionsRead(opts, t, e.0, c);
    }
    if a :| a in members && Credits(t, a, c) {
      AttributionsRead(opts, t, a, c);
      assert (a, c) in fp.attributions;
    }
  }

  /** The three gates, over the tables: enough members, by enough creators, close enough together. */
  lemma GatesOver(geo: Geometry, opts: Options, t: Tables, concept: string, members: set<string>, creators: set<string>)
    requires forall a :: a in members <==> Embodied(opts, t, a, concept)
    requires forall c :: c in creators <==> exists a :: a in members && Credits(t, a, c)
    ensures var arts := Artworks(FingerprintOf(opts, t));
      Passes(geo, opts, FingerprintOf(opts, t), concept)
      <==> |members| >= opts.concept.minMembers && |creators| >= opts.concept.minCreators
           && geo.coherence(map m | m in members && m in arts :: geo.centre(arts, arts[m])) >= opts.concept.tauCoherence
  {
    var fp := FingerprintOf(opts, t);
    assert members == Members(fp, concept) by { MembersOver(opts, t, concept); }
    forall c ensures c in creators <==> c in CreatorsAmong(fp, members) { CreatorsOver(opts, t, members, c); }
    assert creators == CreatorsAmong(fp, members);
    assert Coherent(geo, opts, fp, members)
      <==> geo.coherence(map m | m in members && m in Artworks(fp) :: geo.centre(Artworks(fp), Artworks(fp)[m])) >= opts.concept.tauCoherence;
  }

  /** The rows of the matrix next to row i. */
  ghost function NextTo(geo: Geometry, opts: Options, fp: Fingerprint, arts: seq<string>, i: nat): set<nat>
    requires InOrder(arts, fp) && i < |arts|
  {
    var mat := Centred(geo, fp, arts);
    N.Kept(N.Table(mat, geo.cosine, i, opts.concept.knnK, |mat|))
  }

  /** How close two rows are. */
  ghost function Closeness(geo: Geometry, fp: Fingerprint, arts: seq<string>, i: nat, j: nat): real
    requires InOrder(arts, fp) && i < |arts| && j < |arts|
  {
    var vecs := Artworks(fp);
    geo.cosine(geo.centre(vecs, vecs[arts[i]]), geo.centre(vecs, vecs[arts[j]]))
  }

  /** NextTo, without the table: knnK other rows, or all when there are fewer, none left out closer than one of them. */
  lemma NextToMeaning(geo: Geometry, opts: Options, fp: Fingerprint, arts: seq<string>, i: nat)
    requires InOrder(arts, fp) && i < |arts|
    ensures var near, k := NextTo(geo, opts, fp, arts, i), opts.concept.knnK;
      && |near| == (if k < 0 then 0 else if k < |arts| - 1 then k else |arts| - 1)
      && (forall j :: j in near ==> j < |arts| && j != i)
      && (forall j, o: nat :: j in near && o < |arts| && o != i && o !in near ==>
            Closeness(geo, fp, arts, i, o) <= Closeness(geo, fp, arts, i, j))
  {
    var mat := Centred(geo, fp, arts);
    var top := N.Table(mat, geo.cosine, i, opts.concept.knnK, |mat|);
    N.TableIsNearest(mat, geo.cosine, i, opts.concept.knnK);
    KeptCount(top);
    forall j | j in N.Kept(top)
      ensures j < |arts| && j != i
      ensures forall o: nat :: o < |arts| && o != i && o !in N.Kept(top) ==>
        Closeness(geo, fp, arts, i, o) <= Closeness(geo, fp, arts, i, j)
    {
      var x :| x in top && x.j == j;
      assert x.s == Closeness(geo, fp, arts, i, j);
      assert forall o: nat :: o < |arts| ==> Closeness(geo, fp, arts, i, o) == geo.cosine(mat[i], mat[o]);
    }
  }

  lemma LastIsApart(top: seq<N.Scored>)
    requires N.NoneTwice(top) && top != []
    ensures var front, last := top[..|top| - 1], top[|top| - 1];
      N.NoneTwice(front) && last.j !in N.Kept(front) && N.Kept(top) == N.Kept(front) + {last.j}
  {
    var front, last := top[..|top| - 1], top[|top| - 1];
    assert top == front + [last];
    N.KeptOf(front, last, |front|);
  }

  lemma {:induction false} KeptCount(top: seq<N.Scored>)
    requires N.NoneTwice(top)
    ensures |N.Kept(top)| == |top|
  {
    if top == [] {
      assert N.Kept(top) == {};
    } else {
      LastIsApart(top);
      KeptCount(top[..|top| - 1]);
    }
  }

  ghost function MembersIn(rows: set<nat>, arts: seq<string>, members: set<string>): set<nat>
  {
    set j | j in rows && j < |arts| && arts[j] in members
  }

  lemma {:induction false} HitsCount(neigh: seq<N.Scored>, arts: seq<string>, members: set<string>)
    requires N.NoneTwice(neigh) && forall x :: x in neigh ==> x.j < |arts|
    ensures Hits(neigh, arts, members) == |MembersIn(N.Kept(neigh), arts, members)|
  {
    if neigh == [] {
      assert MembersIn(N.Kept(neigh), arts, members) == {};
    } else {
      var front, last := neigh[..|neigh| - 1], neigh[|neigh| - 1];
      LastIsApart(neigh);
      HitsCount(front, arts, members);
      var was := MembersIn(N.Kept(front), arts, members);
      assert MembersIn(N.Kept(neigh), arts, members) == if arts[last.j] in members then was + {last.j} else was;
    }
  }

  /** The share of the artworks next to this one that embody the concept; nothing when there are none next to it. */
  ghost function ShareOf(near: set<nat>, arts: seq<string>, members: set<string>): real
  {
    if near == {} then 0.0 else |MembersIn(near, arts, members)| as real / |near| as real
  }

  lemma VoteIsShare(geo: Geometry, opts: Options, fp: Fingerprint, arts: seq<string>, i: nat, members: set<string>)
    requires InOrder(arts, fp) && i < |arts|
    ensures VoteOf(geo, opts, fp, arts, i, members) == ShareOf(NextTo(geo, opts, fp, arts, i), arts, members)
  {
    var mat := Centred(geo, fp, arts);
    var top := N.Table(mat, geo.cosine, i, opts.concept.knnK, |mat|);
    N.TableScores(mat, geo.cosine, i, opts.concept.knnK, |mat|);
    N.TableNoneTwice(mat, geo.cosine, i, opts.concept.knnK, |mat|);
    HitsCount(top, arts, members);
    KeptCount(top);
  }

  ghost function PositionOf(arts: seq<string>, a: string): (i: nat)
    requires a in arts
    ensures i < |arts| && arts[i] == a
  {
    var i: nat :| i < |arts| && arts[i] == a;
    i
  }

  ghost function ShareNextTo(geo: Geometry, opts: Options, fp: Fingerprint, arts: seq<string>, a: string, members: set<string>): real
    requires InOrder(arts, fp) && a in arts
  {
    ShareOf(NextTo(geo, opts, fp, arts, PositionOf(arts, a)), arts, members)
  }

  /** The artworks that do not embody the concept but enough next to them do, with the share that does. */
  ghost function Elected(geo: Geometry, opts: Options, fp: Fingerprint, arts: seq<string>, members: set<string>): map<string, real>
    requires InOrder(arts, fp)
  {
    map a | a in arts && a !in members && ShareNextTo(geo, opts, fp, arts, a, members) >= opts.concept.voteThreshold
      :: ShareNextTo(geo, opts, fp, arts, a, members)
  }

  lemma OnePosition(arts: seq<string>, fp: Fingerprint, i: nat)
    requires InOrder(arts, fp) && i < |arts|
    ensures PositionOf(arts, arts[i]) == i
  {
    LessIrreflexive(arts[i]);
  }

  lemma VotedAre(geo: Geometry, opts: Options, fp: Fingerprint, arts: seq<string>, concept: string, l: M.Link)
    requires InOrder(arts, fp)
    ensures var near := Elected(geo, opts, fp, arts, Members(fp, concept));
      l in Voted(geo, opts, fp, arts, concept) <==> l.other in near && l.sim == near[l.other]
  {
    var members := Members(fp, concept);
    if l in Voted(geo, opts, fp, arts, concept) {
      var i: nat :| i < |arts| && arts[i] !in members && VoteOf(geo, opts, fp, arts, i, members) >= opts.concept.voteThreshold
        && l == M.Link(arts[i], VoteOf(geo, opts, fp, arts, i, members));
      VoteIsShare(geo, opts, fp, arts, i, members);
      OnePosition(arts, fp, i);
      assert arts[i] in arts;
    }
    var near := Elected(geo, opts, fp, arts, members);
    if l.other in near && l.sim == near[l.other] {
      var i := PositionOf(arts, l.other);
      VoteIsShare(geo, opts, fp, arts, i, members);
      assert l == M.Link(arts[i], VoteOf(geo, opts, fp, arts, i, members));
    }
  }

  /** EMBODIES is propagated exactly from concepts through the gates to the most voted for, by share and then by id. */
  lemma PropagatedExactly(geo: Geometry, opts: Options, t: Tables, arts: seq<string>, a: string, concept: string, members: set<string>)
    requires InOrder(arts, FingerprintOf(opts, t)) && forall m :: m in members <==> Embodied(opts, t, m, concept)
    ensures var fp := FingerprintOf(opts, t);
      Desired(a, concept, Embodies) in WantedEdges(geo, opts, fp, arts)
      <==> members != {} && Passes(geo, opts, fp, concept)
           && AmongClosest(Elected(geo, opts, fp, arts, members), opts.concept.maxPerConcept, a)
  {
    var fp := FingerprintOf(opts, t);
    MembersOver(opts, t, concept);
    assert members == Members(fp, concept);
    var near, voted := Elected(geo, opts, fp, arts, members), Voted(geo, opts, fp, arts, concept);
    WantedOfType(geo, opts, fp, arts, Desired(a, concept, Embodies));
    forall l ensures l in voted <==> l.other in near && l.sim == near[l.other] { VotedAre(geo, opts, fp, arts, concept, l); }
    var cut := CutTo(voted, opts.concept.maxPerConcept);
    if a in near { RankAmong(voted, near, a); }
    assert Desired(a, concept, Embodies) in ConceptEdges(geo, opts, fp, arts)
      <==> (concept in Concepts(fp) && Passes(geo, opts, fp, concept) && exists l :: l in cut && l.other == a);
    if a in near { assert M.Link(a, near[a]) in voted; }
  }

  // ---- what a done run leaves ---------------------------------------------------------------------

  function TypeName(t: EdgeType): string
  {
    match t
    case StyleKin => "STYLE_KIN"
    case VisuallyAffine => "VISUALLY_AFFINE"
    case Embodies => "EMBODIES"
    case CreatedBy => "CREATED_BY"
    case OtherType(name) => name
  }

  /** The id a derived edge has before the derived tag. */
  function StemOf(d: Desired): string
  {
    d.source + ("--" + TypeName(d.edgeType)) + ("--" + d.target)
  }

  /** A wanted edge as a row: low confidence, derive's own signal and tag, live, the timestamps its own. */
  predicate RowOfWanted(e: Edge, d: Desired)
  {
    && e.source == d.source && e.target == d.target && e.edgeType == d.edgeType
    && e.confidence == Text("low") && e.charge == Null && e.signal == DeriveSignal && e.createdBy == DeriveTag
    && e.eventTime == Null && e.validUntil == Null && e.invalidatedBy == Null
  }

  lemma RowsAfter(rows: Rows, desired: Wanted, wanted: set<Desired>, now: string, id: RowId)
    requires DerivedIds(desired) && Realises(desired, wanted)
    ensures var after := Synced(rows, desired, now);
      && (id in after && (after[id].createdBy == DeriveTag || id.Derived?) ==>
            id in desired && desired[id] in wanted && id == Derived(StemOf(desired[id])) && RowOfWanted(after[id], desired[id]))
      && (id in rows && rows[id].createdBy != DeriveTag && !id.Derived? ==> id in after && after[id] == rows[id])
      && (id in after && id in rows ==> after[id].createdAt == rows[id].createdAt && after[id].validFrom == rows[id].validFrom)
      && (id in after && id !in rows ==> after[id].createdAt == now && after[id].validFrom == now)
  {
    SyncedMeaning(rows, desired, now);
    var after := Synced(rows, desired, now);
    if id in after && (after[id].createdBy == DeriveTag || id.Derived?) {
      assert id in CurrentIds(after);
      assert IdOf(desired[id]) == Derived(StemOf(desired[id]));
    }
  }

  lemma WantedAfter(rows: Rows, desired: Wanted, wanted: set<Desired>, now: string, d: Desired)
    requires DerivedIds(desired) && Realises(desired, wanted) && d in wanted
    ensures Derived(StemOf(d)) in Synced(rows, desired, now)
  {
    assert IdOf(d) == Derived(StemOf(d));
    assert IdOf(d) in desired;
  }

  lemma Realised(geo: Geometry, opts: Options, fp: Fingerprint, p: Plan, arts: seq<string>)
    requires InOrder(arts, fp) && IsPlan(geo, opts, fp, p)
    ensures DerivedIds(p.desired) && Realises(p.desired, WantedEdges(geo, opts, fp, arts))
  {
    PlansAreDerived(geo, opts, fp, p);
    var order :| IsPlanIn(geo, opts, fp, order, p);
    var mine :| InOrder(mine, fp) && Realises(p.desired, WantedEdges(geo, opts, fp, mine));
    OrderIsUnique(mine, arts, fp);
  }

  /** The edges: derive's own rows are the wanted ones, new ones stamped with the plan's time, and every other row is as it was. */
  lemma EdgesAfter(geo: Geometry, opts: Options, t: Tables, p: Plan, arts: seq<string>, id: RowId, d: Desired)
    requires InOrder(arts, FingerprintOf(opts, t)) && IsPlan(geo, opts, FingerprintOf(opts, t), p)
    ensures var wanted := WantedEdges(geo, opts, FingerprintOf(opts, t), arts); var after := Applied(opts, t, p).edges;
      && (id in after && (after[id].createdBy == DeriveTag || id.Derived?) ==>
            exists w :: w in wanted && id == Derived(StemOf(w)) && RowOfWanted(after[id], w))
      && (d in wanted ==> Derived(StemOf(d)) in after)
      && (id in t.edges && t.edges[id].createdBy != DeriveTag && !id.Derived? ==> id in after && after[id] == t.edges[id])
      && (id in after && id in t.edges ==> after[id].createdAt == t.edges[id].createdAt && after[id].validFrom == t.edges[id].validFrom)
      && (id in after && id !in t.edges ==> after[id].createdAt == p.now && after[id].validFrom == p.now)
  {
    var wanted := WantedEdges(geo, opts, FingerprintOf(opts, t), arts);
    Realised(geo, opts, FingerprintOf(opts, t), p, arts);
    RowsAfter(t.edges, p.desired, wanted, p.now, id);
    if d in wanted { WantedAfter(t.edges, p.desired, wanted, p.now, d); }
  }

  /** The queue: each planned suggestion waits as a pipeline row with its artwork and creator, no other pipeline row waits,
      and every row that was not one of those is as it was. */
  lemma QueueAfter(opts: Options, t: Tables, p: Plan, id: QueueId, x: Suggestion)
    requires Fits(Cleared(t.queue), p.suggestions)
    ensures var after := Applied(opts, t, p).queue;
      && (x in p.suggestions ==>
            && AiSuggestion(x.art + "|" + x.creator) in after
            && after[AiSuggestion(x.art + "|" + x.creator)] == QueueRow(Pending, Pipeline, x.art, x.creator, p.now))
      && (id in after && after[id].submittedBy == Pipeline && after[id].status == Pending ==>
            Suggestion(after[id].art, after[id].creator) in p.suggestions && id == AiSuggestion(after[id].art + "|" + after[id].creator))
      && (id in t.queue && !(t.queue[id].submittedBy == Pipeline && t.queue[id].status == Pending) ==>
            id in after && after[id] == t.queue[id])
      && (id in after && !(after[id].submittedBy == Pipeline && after[id].status == Pending) ==>
            id in t.queue && after[id] == t.queue[id])
  {
    PendingAreSuggestions(t.queue, p.suggestions, p.now, id, x);
  }

  lemma DoneApplies(geo: Geometry, opts: Options, dry: bool, atRead: seq<Tables>, atApply: seq<Tables>, r: Outcome, after: Tables)
    requires |atRead| == |atApply| == MAX_ATTEMPTS && Explains(geo, opts, dry, atRead, atApply, r, after) && r.Done?
    ensures var t := atApply[r.attempt];
      && IsPlan(geo, opts, FingerprintOf(opts, t), r.plan) && Fits(Cleared(t.queue), r.plan.suggestions)
      && after == Applied(opts, t, r.plan)
  {
  }

  /** After a run that is done, each waiting pipeline row proposes, for an unattributed artwork, a closest creator nobody rejected
      for it, and the other queue rows are as they were. */
  lemma DoneQueue(geo: Geometry, opts: Options, dry: bool, atRead: seq<Tables>, atApply: seq<Tables>, r: Outcome, after: Tables, id: QueueId)
    requires |atRead| == |atApply| == MAX_ATTEMPTS && Explains(geo, opts, dry, atRead, atApply, r, after) && r.Done?
    ensures var t := atApply[r.attempt]; var cs := CentroidsOf(geo, opts, FingerprintOf(opts, t));
      && (id in after.queue && after.queue[id].submittedBy == Pipeline && after.queue[id].status == Pending ==>
            var a, c := after.queue[id].art, after.queue[id].creator;
            && id == AiSuggestion(a + "|" + c) && after.queue[id].createdAt == r.plan.now
            && Unattributed(opts, t, a) && Closest(geo, opts, t.identity[a].vec, cs, c) && a + "|CREATED_BY|" + c !in t.rejected)
      && (id in t.queue && !(t.queue[id].submittedBy == Pipeline && t.queue[id].status == Pending) ==>
            id in after.queue && after.queue[id] == t.queue[id])
      && (id in after.queue && !(after.queue[id].submittedBy == Pipeline && after.queue[id].status == Pending) ==>
            id in t.queue && after.queue[id] == t.queue[id])
  {
    var t := atApply[r.attempt];
    DoneApplies(geo, opts, dry, atRead, atApply, r, after);
    if id in after.queue {
      var x := Suggestion(after.queue[id].art, after.queue[id].creator);
      QueueAfter(opts, t, r.plan, id, x);
      if x in r.plan.suggestions { SuggestedOver(geo, opts, t, r.plan, x.art, x.creator); }
    } else {
      QueueAfter(opts, t, r.plan, id, Suggestion("", ""));
    }
  }

  /** And every unattributed artwork with a closest creator has such a row waiting, unless a closest pair was rejected. */
  lemma DoneSuggestsAll(geo: Geometry, opts: Options, dry: bool, atRead: seq<Tables>, atApply: seq<Tables>, r: Outcome, after: Tables,
                        a: string, c: string) returns (d: string)
    requires |atRead| == |atApply| == MAX_ATTEMPTS && Explains(geo, opts, dry, atRead, atApply, r, after) && r.Done?
    requires var t := atApply[r.attempt];
      Unattributed(opts, t, a) && Closest(geo, opts, t.identity[a].vec, CentroidsOf(geo, opts, FingerprintOf(opts, t)), c)
    ensures var t := atApply[r.attempt];
      && Closest(geo, opts, t.identity[a].vec, CentroidsOf(geo, opts, FingerprintOf(opts, t)), d)
      && (a + "|CREATED_BY|" + d in t.rejected
          || (AiSuggestion(a + "|" + d) in after.queue
              && after.queue[AiSuggestion(a + "|" + d)] == QueueRow(Pending, Pipeline, a, d, r.plan.now)))
  {
    var t := atApply[r.attempt];
    DoneApplies(geo, opts, dry, atRead, atApply, r, after);
    d := NobodyForgotten(geo, opts, t, r.plan, a, c);
    QueueAfter(opts, t, r.plan, AiSuggestion(""), Suggestion(a, d));
  }

  /** The centroids are replaced by the recomputed ones, or kept when told to skip them; nothing else of the nodes is written. */
  lemma DoneVectors(geo: Geometry, opts: Options, dry: bool, atRead: seq<Tables>, atApply: seq<Tables>, r: Outcome, after: Tables, c: string)
    requires |atRead| == |atApply| == MAX_ATTEMPTS && Explains(geo, opts, dry, atRead, atApply, r, after) && r.Done?
    ensures var t := atApply[r.attempt]; var cs := CentroidsOf(geo, opts, FingerprintOf(opts, t));
      && after.nodes == t.nodes && after.identity == t.identity && after.rejected == t.rejected
      && (opts.skipCentroids ==> after.centroids == t.centroids)
      && (!opts.skipCentroids ==>
            && (c in after.centroids <==> c in cs)
            && (c in cs ==> after.centroids[c] == VectorRow(opts.model, 768, cs[c], Null, Null)))
  {
    DoneApplies(geo, opts, dry, atRead, atApply, r, after);
  }

  /** Three attempts: the first whose inputs did not change in between decides, and only if there is none the run gives up. */
  lemma FirstUnchangedDecides(geo: Geometry, opts: Options, atRead: seq<Tables>, atApply: seq<Tables>, r: Outcome, after: Tables, i: nat)
    requires |atRead| == |atApply| == 3 && Explains(geo, opts, false, atRead, atApply, r, after) && i < 3
    ensures r.InputsChanged? ==> !Steady(opts, atRead[i], atApply[i]) && after == atApply[2]
    ensures r.Done? || r.Failed? ==> r.attempt < 3 && Steady(opts, atRead[r.attempt], atApply[r.attempt])
    ensures (r.Done? || r.Failed?) && i < r.attempt ==> !Steady(opts, atRead[i], atApply[i])
    ensures r.Failed? ==> after == atApply[r.attempt]
  {
    assert r.InputsChanged? && i == 2 ==> i == AttemptOf(r);
  }
}
