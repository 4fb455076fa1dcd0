/** What a derive run should write, said of its inputs alone (src/embed/derive.ts, plan; concept-edges.ts; centroids.ts). */
module DerivePlan {
  import opened Finite
  import opened Ordering
  import opened Sorting
  import opened EdgeRows
  import opened DerivedEdges
  import opened DeriveInputs
  import opened NearestTable
  import opened Optional
  import M = MutualTopK

  /** Vector arithmetic the model leaves open: similarity, mean-and-normalise, centring, coherence. */
  datatype Geometry = Geometry(
    cosine: (Vec, Vec) -> real,
    mean: multiset<Vec> -> Vec,
    centre: (map<string, Vec>, Vec) -> Vec,
    coherence: map<string, Vec> -> real)

  datatype Suggestion = Suggestion(art: string, creator: string)

  datatype Centroids = Keep | Replace(centroids: map<string, Vec>)

  datatype Plan = Plan(desired: Wanted, suggestions: seq<Suggestion>, centroids: Centroids, now: string)

  // ---- vectors and attributions -----------------------------------------------------

  /** loadAll drops rows of another dimension. */
  function Usable(rows: map<string, VectorRow>): map<string, Vec>
  {
    map id | id in rows && rows[id].dims == DIMS :: rows[id].vec
  }

  ghost function Identities(fp: Fingerprint): map<string, Vec>
  {
    Usable(fp.identity)
  }

  ghost function Artworks(fp: Fingerprint): map<string, Vec>
  {
    map id | id in Identities(fp) && IsArtwork(id) :: Identities(fp)[id]
  }

  ghost function AnyPair(edges: multiset<(string, string)>): (e: (string, string))
    requires edges != multiset{}
    ensures e in edges
  {
    var e :| e in edges;
    e
  }

  /** The vectors of a creator's artworks, one per attribution row, artworks without a vector left out. */
  ghost function Works(edges: multiset<(string, string)>, creator: string, vecs: map<string, Vec>): multiset<Vec>
    decreases |edges|
  {
    if edges == multiset{} then multiset{}
    else
      var e := AnyPair(edges);
      Works(edges - multiset{e}, creator, vecs) + Share(e, creator, vecs)
  }

  function Share(e: (string, string), creator: string, vecs: map<string, Vec>): multiset<Vec>
  {
    if e.1 == creator && e.0 in vecs then multiset{vecs[e.0]} else multiset{}
  }

  /** The creators with at least one artwork that has a vector. */
  ghost function Creators(fp: Fingerprint): set<string>
  {
    set e | e in fp.centroidEdges && e.0 in Identities(fp) :: e.1
  }

  ghost function CentroidsOf(geo: Geometry, opts: Options, fp: Fingerprint): map<string, Vec>
  {
    if opts.skipCentroids then
      Usable(fp.centroids)
    else
      map c | c in Creators(fp) :: geo.mean(Works(fp.centroidEdges, c, Identities(fp)))
  }

  ghost predicate Attributed(fp: Fingerprint, art: string)
  {
    exists c :: (art, c) in fp.attributions
  }

  ghost predicate SameCreator(fp: Fingerprint, a: string, b: string)
  {
    exists c :: (a, c) in fp.attributions && (b, c) in fp.attributions
  }

  // ---- the two symmetric edge types ---------------------------------------------------

  ghost function KinPairs(geo: Geometry, opts: Options, centroids: map<string, Vec>): set<M.Pair>
  {
    set a, b | a in centroids && b in centroids && Less(a, b) && geo.cosine(centroids[a], centroids[b]) >= opts.tauKin
      :: M.Pair(a, b, geo.cosine(centroids[a], centroids[b]))
  }

  ghost function VisualPairs(geo: Geometry, opts: Options, fp: Fingerprint): set<M.Pair>
  {
    var arts := Artworks(fp);
    set a, b | a in arts && b in arts && Less(a, b) && geo.cosine(arts[a], arts[b]) >= opts.tauVisual && !SameCreator(fp, a, b)
      :: M.Pair(a, b, geo.cosine(arts[a], arts[b]))
  }

  /** Two rows per pair, one each way. */
  ghost function BothWays(pairs: set<M.Pair>, t: EdgeType): set<Desired>
  {
    (set p | p in pairs :: Desired(p.a, p.b, t)) + (set p | p in pairs :: Desired(p.b, p.a, t))
  }

  // ---- concept propagation ------------------------------------------------------------

  ghost function Members(fp: Fingerprint, concept: string): set<string>
  {
    set e | e in fp.members && e.1 == concept && e.0 in Identities(fp) :: e.0
  }

  ghost function Concepts(fp: Fingerprint): set<string>
  {
    set e | e in fp.members && e.0 in Identities(fp) :: e.1
  }

  /** The artworks in id order: the rows of the similarity matrix. */
  ghost predicate InOrder(arts: seq<string>, fp: Fingerprint)
  {
    Sorted(arts, Less) && forall id :: id in arts <==> id in Artworks(fp)
  }

  ghost function Centred(geo: Geometry, fp: Fingerprint, arts: seq<string>): seq<Vec>
    requires InOrder(arts, fp)
  {
    seq(|arts|, i requires 0 <= i < |arts| => geo.centre(Artworks(fp), Artworks(fp)[arts[i]]))
  }

  function Hits(neigh: seq<Scored>, arts: seq<string>, members: set<string>): nat
    requires forall t :: t in neigh ==> t.j < |arts|
  {
    if neigh == [] then 0
    else Hits(neigh[..|neigh| - 1], arts, members) + if arts[neigh[|neigh| - 1].j] in members then 1 else 0
  }

  /** The share of an artwork's neighbours that are members. */
  function Vote(neigh: seq<Scored>, arts: seq<string>, members: set<string>): real
    requires forall t :: t in neigh ==> t.j < |arts|
  {
    if neigh == [] then 0.0 else Hits(neigh, arts, members) as real / |neigh| as real
  }

  ghost function VoteOf(geo: Geometry, opts: Options, fp: Fingerprint, arts: seq<string>, i: nat, members: set<string>): real
    requires InOrder(arts, fp) && i < |arts|
  {
    var mat := Centred(geo, fp, arts);
    TableScores(mat, geo.cosine, i, opts.concept.knnK, |mat|);
    Vote(Table(mat, geo.cosine, i, opts.concept.knnK, |mat|), arts, members)
  }

  ghost predicate Coherent(geo: Geometry, opts: Options, fp: Fingerprint, members: set<string>)
  {
    var arts := Artworks(fp);
    geo.coherence(map m | m in members && m in arts :: geo.centre(arts, arts[m])) >= opts.concept.tauCoherence
  }

  ghost function CreatorsAmong(fp: Fingerprint, members: set<string>): set<string>
  {
    set e | e in fp.attributions && e.0 in members :: e.1
  }

  /** The three gates a tag-concept must pass. */
  ghost predicate Passes(geo: Geometry, opts: Options, fp: Fingerprint, concept: string)
  {
    var members := Members(fp, concept);
    && |members| >= opts.concept.minMembers
    && Coherent(geo, opts, fp, members)
    && |CreatorsAmong(fp, members)| >= opts.concept.minCreators
  }

  /** Non-members that enough neighbours vote for. */
  ghost function Voted(geo: Geometry, opts: Options, fp: Fingerprint, arts: seq<string>, concept: string): set<M.Link>
    requires InOrder(arts, fp)
  {
    set i: nat | i < |arts| && arts[i] !in Members(fp, concept)
        && VoteOf(geo, opts, fp, arts, i, Members(fp, concept)) >= opts.concept.voteThreshold
      :: M.Link(arts[i], VoteOf(geo, opts, fp, arts, i, Members(fp, concept)))
  }

  /** Of some candidates, those fewer than `cap` others beat; a cap of 0 or less keeps all. */
  ghost function CutTo(voted: set<M.Link>, cap: int): set<M.Link>
  {
    set l | l in voted && (cap <= 0 || |Ahead(voted, l, M.Stronger)| < cap)
  }

  ghost function ConceptEdges(geo: Geometry, opts: Options, fp: Fingerprint, arts: seq<string>): set<Desired>
    requires InOrder(arts, fp)
  {
    set c, l | c in Concepts(fp) && Passes(geo, opts, fp, c) && l in CutTo(Voted(geo, opts, fp, arts, c), opts.concept.maxPerConcept)
      :: Desired(l.other, c, Embodies)
  }

  // ---- attribution suggestions ----------------------------------------------------------

  /** The creators no other creator beats for this artwork, above the threshold. */
  ghost function BestCreators(geo: Geometry, opts: Options, fp: Fingerprint, art: string): set<string>
    requires art in Artworks(fp)
  {
    var v, cs := Artworks(fp)[art], CentroidsOf(geo, opts, fp);
    set c | c in cs && geo.cosine(v, cs[c]) >= opts.tauAttribute
      && forall o :: o in cs ==> geo.cosine(v, cs[o]) <= geo.cosine(v, cs[c])
  }

  /** What each artwork could be attributed to: nothing once it is attributed. */
  ghost function Choices(geo: Geometry, opts: Options, fp: Fingerprint): map<string, set<string>>
  {
    map a | a in Artworks(fp) :: if Attributed(fp, a) then {} else BestCreators(geo, opts, fp, a)
  }

  /** pair_hash, by the value hashed. */
  function PairHash(art: string, creator: string): string
  {
    art + "|CREATED_BY|" + creator
  }

  /** The scan keeps the first of equally good creators. */
  function FirstIn(order: seq<string>, best: set<string>): (first: Option<string>)
    ensures first.None? <==> forall c :: c in order ==> c !in best
    ensures first.Some? ==> first.value in order && first.value in best
  {
    if order == [] then None else if order[0] in best then Some(order[0]) else FirstIn(order[1..], best)
  }

  /** Each artwork in turn with the first of its choices in scan order, dropped when a curator rejected the pair. */
  function Suggested(choices: map<string, set<string>>, rejected: set<string>, arts: seq<string>, order: seq<string>): seq<Suggestion>
    requires forall a :: a in arts ==> a in choices
  {
    if arts == [] then []
    else
      var a, front := arts[|arts| - 1], Suggested(choices, rejected, arts[..|arts| - 1], order);
      var first := FirstIn(order, choices[a]);
      if first.None? || PairHash(a, first.value) in rejected then front else front + [Suggestion(a, first.value)]
  }

  // ---- the plan ---------------------------------------------------------------------------

  function IdOf(d: Desired): RowId
  {
    EdgeId(d.source, d.edgeType, d.target)
  }

  ghost function WantedEdges(geo: Geometry, opts: Options, fp: Fingerprint, arts: seq<string>): set<Desired>
    requires InOrder(arts, fp)
  {
    BothWays(M.Kept(KinPairs(geo, opts, CentroidsOf(geo, opts, fp)), opts.kinTopK), StyleKin)
    + BothWays(M.Kept(VisualPairs(geo, opts, fp), opts.visualTopK), VisuallyAffine)
    + ConceptEdges(geo, opts, fp, arts)
  }

  /** The desired map holds one wanted edge per id, and an id for every wanted edge. */
  ghost predicate Realises(desired: Wanted, edges: set<Desired>)
  {
    && (forall id :: id in desired ==> desired[id] in edges && IdOf(desired[id]) == id)
    && (forall d :: d in edges ==> IdOf(d) in desired)
  }

  /** The plan of some inputs, the centroids scanned in this order. */
  ghost predicate IsPlanIn(geo: Geometry, opts: Options, fp: Fingerprint, order: seq<string>, p: Plan)
  {
    && ListsOnce(order, CentroidsOf(geo, opts, fp).Keys)
    && p.centroids == (if opts.skipCentroids then Keep else Replace(CentroidsOf(geo, opts, fp)))
    && exists arts ::
         && InOrder(arts, fp)
         && Realises(p.desired, WantedEdges(geo, opts, fp, arts))
         && p.suggestions == Suggested(Choices(geo, opts, fp), fp.rejected, arts, order)
  }

  /** A plan for some scan order: centroids are scanned as the rows they come from were read, and a query has no order. */
  ghost predicate IsPlan(geo: Geometry, opts: Options, fp: Fingerprint, p: Plan)
  {
    exists order :: IsPlanIn(geo, opts, fp, order, p)
  }

  // ---- what every plan has ---------------------------------------------------------------

  lemma OrderIsUnique(arts: seq<string>, again: seq<string>, fp: Fingerprint)
    requires InOrder(arts, fp) && InOrder(again, fp)
    ensures arts == again
  {
    LessIsStrictTotalOrder();
    SortedUnique(arts, again, Less);
  }

  /** No two wanted edges share an id. */
  ghost predicate IdsTellApart(edges: set<Desired>)
  {
    forall d, e :: d in edges && e in edges && IdOf(d) == IdOf(e) ==> d == e
  }

  /** So it is when no source id, with a label, begins another; `IdsTellApartExactly` says for which sources that is needed. */
  lemma SourcesTellApart(edges: set<Desired>)
    requires forall d :: d in edges ==> IsDerivedType(d.edgeType)
    requires NoneSwallows(set d | d in edges :: d.source)
    ensures IdsTellApart(edges)
  {
    var sources := set d | d in edges :: d.source;
    IdsTellApartExactly(sources);
    forall d, e | d in edges && e in edges && IdOf(d) == IdOf(e) ensures d == e {
      assert d.source in sources && e.source in sources;
    }
  }

  lemma RealisedOnce(a: Wanted, b: Wanted, edges: set<Desired>)
    requires Realises(a, edges) && Realises(b, edges) && IdsTellApart(edges)
    ensures a == b
  {
    assert a.Keys == b.Keys by {
      forall id | id in a ensures id in b { assert IdOf(a[id]) in b; }
      forall id | id in b ensures id in a { assert IdOf(b[id]) in a; }
    }
    forall id | id in a ensures a[id] == b[id] {
      assert IdOf(a[id]) == IdOf(b[id]);
    }
  }

  /** The wanted edges of one type, taken apart. */
  lemma WantedOfType(geo: Geometry, opts: Options, fp: Fingerprint, arts: seq<string>, d: Desired)
    requires InOrder(arts, fp)
    ensures d in WantedEdges(geo, opts, fp, arts) ==> IsDerivedType(d.edgeType)
    ensures d.edgeType == StyleKin ==> (d in WantedEdges(geo, opts, fp, arts)
      <==> d in BothWays(M.Kept(KinPairs(geo, opts, CentroidsOf(geo, opts, fp)), opts.kinTopK), StyleKin))
    ensures d.edgeType == VisuallyAffine ==> (d in WantedEdges(geo, opts, fp, arts)
      <==> d in BothWays(M.Kept(VisualPairs(geo, opts, fp), opts.visualTopK), VisuallyAffine))
    ensures d.edgeType == Embodies ==> (d in WantedEdges(geo, opts, fp, arts) <==> d in ConceptEdges(geo, opts, fp, arts))
  {
    OneType(M.Kept(KinPairs(geo, opts, CentroidsOf(geo, opts, fp)), opts.kinTopK), StyleKin, d);
    OneType(M.Kept(VisualPairs(geo, opts, fp), opts.visualTopK), VisuallyAffine, d);
    assert d in ConceptEdges(geo, opts, fp, arts) ==> d.edgeType == Embodies;
  }

  lemma OneType(pairs: set<M.Pair>, t: EdgeType, d: Desired)
    ensures d in BothWays(pairs, t) ==> d.edgeType == t
    ensures d in BothWays(pairs, t) <==> Desired(d.target, d.source, d.edgeType) in BothWays(pairs, t)
  {
  }

  lemma PlansAreDerived(geo: Geometry, opts: Options, fp: Fingerprint, p: Plan)
    requires IsPlan(geo, opts, fp, p)
    ensures DerivedIds(p.desired) && DerivedTypes(p.desired)
  {
    var order :| IsPlanIn(geo, opts, fp, order, p);
    var arts :| InOrder(arts, fp) && Realises(p.desired, WantedEdges(geo, opts, fp, arts));
    forall id | id in p.desired ensures id.Derived? && IsDerivedType(p.desired[id].edgeType) {
      assert id == IdOf(p.desired[id]);
      WantedOfType(geo, opts, fp, arts, p.desired[id]);
    }
  }

  /** Equal inputs, equal edges and centroids: only the order the centroids are scanned in may still show, in the suggestions. */
  lemma EqualInputsEqualEdges(geo: Geometry, opts: Options, fp: Fingerprint, p: Plan, q: Plan, arts: seq<string>)
    requires IsPlan(geo, opts, fp, p) && IsPlan(geo, opts, fp, q)
    requires InOrder(arts, fp) && IdsTellApart(WantedEdges(geo, opts, fp, arts))
    ensures p.desired == q.desired && p.centroids == q.centroids
  {
    var o :| IsPlanIn(geo, opts, fp, o, p);
    var o' :| IsPlanIn(geo, opts, fp, o', q);
    var a :| InOrder(a, fp) && Realises(p.desired, WantedEdges(geo, opts, fp, a));
    var b :| InOrder(b, fp) && Realises(q.desired, WantedEdges(geo, opts, fp, b));
    OrderIsUnique(a, arts, fp);
    OrderIsUnique(b, arts, fp);
    RealisedOnce(p.desired, q.desired, WantedEdges(geo, opts, fp, arts));
  }

  /** STYLE_KIN and VISUALLY_AFFINE come in both directions, and no node has more than its cap of either. */
  ghost function Reach(edges: set<Desired>, n: string, t: EdgeType): set<string>
  {
    set d | d in edges && d.source == n && d.edgeType == t :: d.target
  }

  lemma SymmetricAndCapped(geo: Geometry, opts: Options, fp: Fingerprint, arts: seq<string>, a: string, b: string, t: EdgeType)
    requires InOrder(arts, fp) && (t == StyleKin || t == VisuallyAffine)
    ensures var w := WantedEdges(geo, opts, fp, arts);
      && (Desired(a, b, t) in w <==> Desired(b, a, t) in w)
      && (var cap := if t == StyleKin then opts.kinTopK else opts.visualTopK; cap >= 1 ==> |Reach(w, a, t)| <= cap)
  {
    var w := WantedEdges(geo, opts, fp, arts);
    var all := if t == StyleKin then KinPairs(geo, opts, CentroidsOf(geo, opts, fp)) else VisualPairs(geo, opts, fp);
    var cap := if t == StyleKin then opts.kinTopK else opts.visualTopK;
    var kept := M.Kept(all, cap);
    WantedOfType(geo, opts, fp, arts, Desired(a, b, t));
    WantedOfType(geo, opts, fp, arts, Desired(b, a, t));
    OneType(kept, t, Desired(a, b, t));
    if cap >= 1 {
      M.DegreeAtMostK(all, cap, a);
      OthersOf(kept, a, t);
      forall d | d in w && d.edgeType == t ensures d in BothWays(kept, t) {
        WantedOfType(geo, opts, fp, arts, d);
      }
      Subset(Reach(w, a, t), Reach(BothWays(kept, t), a, t));
    }
  }

  lemma OthersOf(pairs: set<M.Pair>, n: string, t: EdgeType)
    ensures |Reach(BothWays(pairs, t), n, t)| <= |M.LinksOf(pairs, n)|
  {
    var others := set l | l in M.LinksOf(pairs, n) :: l.other;
    forall o | o in Reach(BothWays(pairs, t), n, t) ensures o in others {
      var p :| p in pairs && ((p.a == n && p.b == o) || (p.b == n && p.a == o));
      assert M.Link(o, p.sim) in M.LinksOf(pairs, n);
    }
    Subset(Reach(BothWays(pairs, t), n, t), others);
    ImageCount(M.LinksOf(pairs, n));
  }

  lemma {:induction false} ImageCount(links: set<M.Link>)
    ensures |(set l | l in links :: l.other)| <= |links|
  {
    if links != {} {
      var x :| x in links;
      ImageCount(links - {x});
      assert (set l | l in links :: l.other) == (set l | l in links - {x} :: l.other) + {x.other};
    }
  }

  /** The artworks one concept is propagated to. */
  ghost function Targets(edges: set<Desired>, concept: string): set<string>
  {
    set d | d in edges && d.edgeType == Embodies && d.target == concept :: d.source
  }

  /** Propagation passes the gates, never targets an attested member, and stays within maxPerConcept. */
  lemma PropagationTargets(geo: Geometry, opts: Options, fp: Fingerprint, arts: seq<string>, concept: string)
    requires InOrder(arts, fp)
    ensures var got := Targets(WantedEdges(geo, opts, fp, arts), concept);
      && (forall a :: a in got ==> IsArtwork(a) && a !in Members(fp, concept))
      && (got != {} ==> Passes(geo, opts, fp, concept))
      && (opts.concept.maxPerConcept >= 1 ==> |got| <= opts.concept.maxPerConcept)
  {
    var cap := opts.concept.maxPerConcept;
    var got := Targets(WantedEdges(geo, opts, fp, arts), concept);
    var voted := Voted(geo, opts, fp, arts, concept);
    var others := set l | l in CutTo(voted, cap) :: l.other;
    forall a | a in got ensures a in others && Passes(geo, opts, fp, concept) {
      WantedOfType(geo, opts, fp, arts, Desired(a, concept, Embodies));
      assert Desired(a, concept, Embodies) in ConceptEdges(geo, opts, fp, arts);
    }
    forall l | l in voted ensures IsArtwork(l.other) && l.other !in Members(fp, concept) {
      VotedAreArtworks(geo, opts, fp, arts, concept, l);
    }
    Subset(got, others);
    ImageCount(CutTo(voted, cap));
    if cap >= 1 { CutIsSmall(voted, cap); }
  }

  lemma VotedAreArtworks(geo: Geometry, opts: Options, fp: Fingerprint, arts: seq<string>, concept: string, l: M.Link)
    requires InOrder(arts, fp) && l in Voted(geo, opts, fp, arts, concept)
    ensures IsArtwork(l.other) && l.other !in Members(fp, concept)
  {
    var i: nat :| i < |arts| && arts[i] == l.other;
    assert arts[i] in arts;
  }

  lemma CutIsSmall(voted: set<M.Link>, cap: int)
    requires cap >= 1
    ensures |CutTo(voted, cap)| <= cap
  {
    M.StrongerIsStrictTotal();
    FewInTopK(voted, cap, M.Stronger);
    assert CutTo(voted, cap) == set l | l in voted && |Ahead(voted, l, M.Stronger)| < cap;
  }

  // ---- when the suggestions are determined -------------------------------------------------

  /** No tie leaves a choice: the best creators of an artwork are one, or all rejected. */
  ghost predicate NoTieMatters(choices: map<string, set<string>>, rejected: set<string>, arts: seq<string>)
    requires forall a :: a in arts ==> a in choices
  {
    forall a :: a in arts ==> Settled(choices[a], rejected, a)
  }

  ghost predicate Settled(best: set<string>, rejected: set<string>, a: string)
  {
    forall c, d :: c in best && d in best && PairHash(a, c) !in rejected ==> c == d
  }

  /** What is suggested: for each artwork the first of its choices, unless rejected. */
  lemma {:induction false} SuggestedMeaning(choices: map<string, set<string>>, rejected: set<string>, arts: seq<string>, order: seq<string>,
                                            x: Suggestion)
    requires forall a :: a in arts ==> a in choices
    ensures x in Suggested(choices, rejected, arts, order)
      <==> x.art in arts && FirstIn(order, choices[x.art]) == Some(x.creator) && PairHash(x.art, x.creator) !in rejected
  {
    if arts != [] {
      var front := arts[..|arts| - 1];
      assert arts == front + [arts[|arts| - 1]];
      SuggestedMeaning(choices, rejected, front, order, x);
    }
  }

  /** Without a tie that matters, the order the centroids are scanned in does not show. */
  lemma {:induction false} NoTiesOneAnswer(choices: map<string, set<string>>, rejected: set<string>, arts: seq<string>, creators: set<string>,
                                           o: seq<string>, o': seq<string>)
    requires forall a :: a in arts ==> a in choices && choices[a] <= creators
    requires NoTieMatters(choices, rejected, arts) && ListsOnce(o, creators) && ListsOnce(o', creators)
    ensures Suggested(choices, rejected, arts, o) == Suggested(choices, rejected, arts, o')
  {
    if arts != [] {
      var a, front := arts[|arts| - 1], arts[..|arts| - 1];
      NoTiesOneAnswer(choices, rejected, front, creators, o, o');
      assert Settled(choices[a], rejected, a);
      var first, other := FirstIn(o, choices[a]), FirstIn(o', choices[a]);
      if first.Some? { assert first.value in o'; }
      if other.Some? { assert other.value in o; }
    }
  }

  lemma {:induction false} AnyScan(keys: set<string>) returns (order: seq<string>)
    ensures ListsOnce(order, keys)
  {
    if keys == {} {
      order := [];
    } else {
      var c :| c in keys;
      var rest := AnyScan(keys - {c});
      order := [c] + rest;
    }
  }

  lemma ScanFrom(keys: set<string>, c: string) returns (order: seq<string>)
    requires c in keys
    ensures ListsOnce(order, keys) && order != [] && order[0] == c
  {
    var rest := AnyScan(keys - {c});
    order := [c] + rest;
  }

  /** Where a tie does matter, two orders of the same centroids give different lists. */
  lemma TiesTwoOrders(choices: map<string, set<string>>, rejected: set<string>, arts: seq<string>, creators: set<string>)
    returns (o: seq<string>, o': seq<string>)
    requires forall a :: a in arts ==> a in choices && choices[a] <= creators
    requires !NoTieMatters(choices, rejected, arts)
    ensures ListsOnce(o, creators) && ListsOnce(o', creators)
    ensures Suggested(choices, rejected, arts, o) != Suggested(choices, rejected, arts, o')
  {
    var a :| a in arts && !Settled(choices[a], rejected, a);
    var c, d :| c in choices[a] && d in choices[a] && PairHash(a, c) !in rejected && c != d;
    o := ScanFrom(creators, c);
    o' := ScanFrom(creators, d);
    SuggestedMeaning(choices, rejected, arts, o, Suggestion(a, c));
    SuggestedMeaning(choices, rejected, arts, o', Suggestion(a, c));
  }

  /** Every scan order gives the same suggestions exactly when no tie between best creators matters. */
  lemma OneAnswerExactly(choices: map<string, set<string>>, rejected: set<string>, arts: seq<string>, creators: set<string>)
    requires forall a :: a in arts ==> a in choices && choices[a] <= creators
    ensures (forall o, o' :: ListsOnce(o, creators) && ListsOnce(o', creators) ==>
               Suggested(choices, rejected, arts, o) == Suggested(choices, rejected, arts, o'))
      <==> NoTieMatters(choices, rejected, arts)
  {
    if NoTieMatters(choices, rejected, arts) {
      forall o, o' | ListsOnce(o, creators) && ListsOnce(o', creators)
        ensures Suggested(choices, rejected, arts, o) == Suggested(choices, rejected, arts, o')
      {
        NoTiesOneAnswer(choices, rejected, arts, creators, o, o');
      }
    } else {
      var o, o' := TiesTwoOrders(choices, rejected, arts, creators);
    }
  }
}
