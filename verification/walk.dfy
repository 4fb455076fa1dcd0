/** pipeline/snapshot.py: a scored walk over the graph, and the edges among the nodes it visited. */
module SnapshotWalk {
  import opened Finite
  import opened Optional
  import opened Ordering
  import opened Sorting
  import opened Graph

  datatype EdgeType = ClassifiedBy | SemanticAffinity | Influences | EmergedFrom | OtherType(name: string)

  datatype Edge = Edge(source: string, target: string, kind: EdgeType)

  datatype Node = Node(kind: string, era: string, lenses: set<string>)

  type Step = (string, EdgeType)

  const TARGET_SIZE := 60

  // ---- load_graph ----------------------------------------------------------------------

  /** CLASSIFIED_BY is metadata, and an edge with an unknown end is dropped. */
  predicate Walkable(nodes: map<string, Node>, e: Edge)
  {
    e.source in nodes && e.target in nodes && e.kind != ClassifiedBy
  }

  function StepsOver(nodes: map<string, Node>, e: Edge, a: string): seq<Step>
  {
    if !Walkable(nodes, e) then []
    else
      (if e.source == a then [(e.target, e.kind)] else []) + (if e.target == a then [(e.source, e.kind)] else [])
  }

  /** adj[a]: one entry for each end of each walkable row that is a. */
  function Steps(nodes: map<string, Node>, edges: seq<Edge>, a: string): seq<Step>
  {
    if edges == [] then []
    else Steps(nodes, edges[..|edges| - 1], a) + StepsOver(nodes, edges[|edges| - 1], a)
  }

  function At(adj: map<string, seq<Step>>, a: string): seq<Step>
  {
    if a in adj then adj[a] else []
  }

  ghost predicate AdjacencyOf(adj: map<string, seq<Step>>, nodes: map<string, Node>, edges: seq<Edge>)
  {
    forall a :: At(adj, a) == Steps(nodes, edges, a)
  }

  function WithStep(adj: map<string, seq<Step>>, from: string, s: Step): map<string, seq<Step>>
  {
    adj[from := At(adj, from) + [s]]
  }

  lemma StepAt(adj: map<string, seq<Step>>, nodes: map<string, Node>, e: Edge, a: string)
    requires Walkable(nodes, e)
    ensures At(WithStep(WithStep(adj, e.source, (e.target, e.kind)), e.target, (e.source, e.kind)), a) == At(adj, a) + StepsOver(nodes, e, a)
  {
  }

  lemma AdjacencyStep(before: map<string, seq<Step>>, adj: map<string, seq<Step>>, nodes: map<string, Node>, edges: seq<Edge>, i: nat)
    requires i < |edges| && AdjacencyOf(before, nodes, edges[..i])
    requires var e := edges[i];
      adj == if Walkable(nodes, e) then WithStep(WithStep(before, e.source, (e.target, e.kind)), e.target, (e.source, e.kind)) else before
    ensures AdjacencyOf(adj, nodes, edges[..i + 1])
  {
    assert edges[..i + 1][..i] == edges[..i];
    forall a ensures At(adj, a) == Steps(nodes, edges[..i + 1], a) {
      assert At(before, a) == Steps(nodes, edges[..i], a);
      if Walkable(nodes, edges[i]) { StepAt(before, nodes, edges[i], a); }
    }
  }

  method LoadGraph(nodes: map<string, Node>, edges: seq<Edge>) returns (adj: map<string, seq<Step>>)
    ensures AdjacencyOf(adj, nodes, edges)
  {
    adj := map[];
    for i := 0 to |edges|
      invariant AdjacencyOf(adj, nodes, edges[..i])
    {
      var e := edges[i];
      ghost var before := adj;
      if e.source in nodes && e.target in nodes && e.kind != ClassifiedBy {
        adj := WithStep(adj, e.source, (e.target, e.kind));
        adj := WithStep(adj, e.target, (e.source, e.kind));
      }
      AdjacencyStep(before, adj, nodes, edges, i);
    }
    assert edges[..|edges|] == edges;
  }

  /** The walkable rows as plain links. */
  function Links(nodes: map<string, Node>, edges: seq<Edge>): seq<Link>
  {
    if edges == [] then []
    else
      var last := edges[|edges| - 1];
      Links(nodes, edges[..|edges| - 1]) + if Walkable(nodes, last) then [(last.source, last.target)] else []
  }

  lemma {:induction false} StepsAreLinks(nodes: map<string, Node>, edges: seq<Edge>, a: string, b: string)
    ensures Linked(Links(nodes, edges), a, b) <==> exists s :: s in Steps(nodes, edges, a) && s.0 == b
    ensures Linked(Links(nodes, edges), a, b) ==> a in nodes && b in nodes
  {
    if edges != [] {
      var front, e := edges[..|edges| - 1], edges[|edges| - 1];
      StepsAreLinks(nodes, front, a, b);
      assert Linked(Links(nodes, edges), a, b) <==>
        Linked(Links(nodes, front), a, b) || (Walkable(nodes, e) && ((e.source == a && e.target == b) || (e.source == b && e.target == a)));
      if Walkable(nodes, e) && e.source == a && e.target == b { assert (b, e.kind) in StepsOver(nodes, e, a); }
      if Walkable(nodes, e) && e.source == b && e.target == a { assert (b, e.kind) in StepsOver(nodes, e, a); }
      if s :| s in Steps(nodes, front, a) && s.0 == b { assert s in Steps(nodes, edges, a); }
    }
  }

  // ---- pick_next ---------------------------------------------------------------------------

  /** What the walk has shown so far. */
  datatype Seen = Seen(recent: seq<set<string>>, lenses: set<string>, eras: set<string>, kinds: set<string>, edgeTypes: set<EdgeType>)

  predicate Derived(t: EdgeType)
  {
    t == SemanticAffinity || t == Influences || t == EmergedFrom
  }

  predicate SharesLastThree(n: Node, recent: seq<set<string>>)
  {
    |recent| >= 3 && forall i :: |recent| - 3 <= i < |recent| && recent[i] != {} ==> n.lenses * recent[i] != {}
  }

  function Score(n: Node, via: EdgeType, seen: Seen): int
  {
    (if n.lenses != {} && n.lenses * seen.lenses == {} then 3 else 0)
    + (if n.era !in seen.eras then 2 else 0)
    + (if n.kind !in seen.kinds then 2 else 0)
    + (if n.lenses != {} && seen.recent != [] && n.lenses * seen.recent[|seen.recent| - 1] == {} then 1 else 0)
    + (if Derived(via) then 1 else 0)
    - (if SharesLastThree(n, seen.recent) then 2 else 0)
    + (if via !in seen.edgeTypes then 1 else 0)
  }

  /** The lenses of recent picks are among those seen. */
  predicate Consistent(seen: Seen)
  {
    forall i :: 0 <= i < |seen.recent| ==> seen.recent[i] <= seen.lenses
  }

  /** A candidate with only new lenses beats any that brings no new lens, era or type, whatever the edges. */
  lemma NewLensOutweighs(x: Node, viaX: EdgeType, y: Node, viaY: EdgeType, seen: Seen)
    requires Consistent(seen) && seen.recent != []
    requires x.lenses != {} && x.lenses * seen.lenses == {}
    requires y.lenses * seen.lenses != {} || y.lenses == {}
    requires y.era in seen.eras && y.kind in seen.kinds
    ensures Score(x, viaX, seen) > Score(y, viaY, seen)
  {
    var last := seen.recent[|seen.recent| - 1];
    assert x.lenses * last == {};
    forall i | 0 <= i < |seen.recent| ensures x.lenses * seen.recent[i] == {} { assert seen.recent[i] <= seen.lenses; }
  }

  predicate SomeShared(a: set<string>, b: set<string>)
  {
    exists l :: l in a && l in b
  }

  lemma SharedMeets(a: set<string>, b: set<string>)
    ensures a * b == {} <==> !SomeShared(a, b)
  {
    if SomeShared(a, b) {
      var l :| l in a && l in b;
      assert l in a * b;
    }
    assert forall l :: l in a * b ==> l in a && l in b;
  }

  /** 3 for lenses of which none was shown. */
  lemma NewLensesPay(n: Node, via: EdgeType, seen: Seen, shown: set<string>)
    requires n.lenses == {} || SomeShared(n.lenses, shown)
    ensures Score(n, via, seen) - Score(n, via, seen.(lenses := shown)) == if n.lenses != {} && !SomeShared(n.lenses, seen.lenses) then 3 else 0
  {
    SharedMeets(n.lenses, shown);
    SharedMeets(n.lenses, seen.lenses);
  }

  /** 2 for a new era, 2 for a new type, 1 for a new edge type. */
  lemma NoveltyPays(n: Node, via: EdgeType, seen: Seen)
    ensures Score(n, via, seen) - Score(n, via, seen.(eras := seen.eras + {n.era})) == if n.era in seen.eras then 0 else 2
    ensures Score(n, via, seen) - Score(n, via, seen.(kinds := seen.kinds + {n.kind})) == if n.kind in seen.kinds then 0 else 2
    ensures Score(n, via, seen) - Score(n, via, seen.(edgeTypes := seen.edgeTypes + {via})) == if via in seen.edgeTypes then 0 else 1
  {
  }

  /** 1 for an edge derived from embeddings. */
  lemma DerivedEdgePays(n: Node, via: EdgeType, other: EdgeType, seen: Seen)
    requires via in {SemanticAffinity, Influences, EmergedFrom} && other !in {SemanticAffinity, Influences, EmergedFrom}
    requires via in seen.edgeTypes <==> other in seen.edgeTypes
    ensures Score(n, via, seen) - Score(n, other, seen) == 1
  {
  }

  /** 1 more for sharing no lens with the last pick, 2 less for sharing one with each of the last three that have any. */
  lemma RecentPicksCount(n: Node, via: EdgeType, seen: Seen, earlier: seq<set<string>>, a: set<string>, b: set<string>, c: set<string>)
    ensures Score(n, via, seen.(recent := [c])) - Score(n, via, seen.(recent := []))
         == if n.lenses != {} && !SomeShared(n.lenses, c) then 1 else 0
    ensures Score(n, via, seen.(recent := [b, c])) == Score(n, via, seen.(recent := [c]))
    ensures Score(n, via, seen.(recent := [c])) - Score(n, via, seen.(recent := earlier + [a, b, c]))
         == if forall m :: m in {a, b, c} && m != {} ==> SomeShared(n.lenses, m) then 2 else 0
  {
    var recent := earlier + [a, b, c];
    assert recent[|recent| - 3] == a && recent[|recent| - 2] == b && recent[|recent| - 1] == c;
    SharedMeets(n.lenses, a);
    SharedMeets(n.lenses, b);
    SharedMeets(n.lenses, c);
    assert SharesLastThree(n, recent)
      <==> (a != {} ==> n.lenses * a != {}) && (b != {} ==> n.lenses * b != {}) && (c != {} ==> n.lenses * c != {});
    assert (forall m :: m in {a, b, c} && m != {} ==> SomeShared(n.lenses, m))
      <==> (a != {} ==> SomeShared(n.lenses, a)) && (b != {} ==> SomeShared(n.lenses, b)) && (c != {} ==> SomeShared(n.lenses, c));
  }

  predicate Eligible(nodes: map<string, Node>, visited: set<string>, s: Step)
  {
    s.0 !in visited && s.0 in nodes
  }

  /** rng.shuffle: some rearrangement. */
  method Shuffle(s: seq<Step>) returns (r: seq<Step>)
    ensures multiset(r) == multiset(s)
  {
    r := s;
    var i := |s|;
    while i > 1
      invariant 0 <= i <= |s| && |r| == |s| && multiset(r) == multiset(s)
    {
      i := i - 1;
      var j :| 0 <= j <= i;
      r := r[i := r[j]][j := r[i]];
    }
  }

  /** A best eligible step, or none when nothing on the frontier is eligible. */
  method PickNext(frontier: seq<Step>, visited: set<string>, nodes: map<string, Node>, seen: Seen) returns (best: Option<Step>)
    ensures best.None? <==> forall s :: s in frontier ==> !Eligible(nodes, visited, s)
    ensures best.Some? ==> best.value in frontier && Eligible(nodes, visited, best.value)
    ensures best.Some? ==> forall s :: s in frontier && Eligible(nodes, visited, s) ==>
      Score(nodes[s.0], s.1, seen) <= Score(nodes[best.value.0], best.value.1, seen)
  {
    best := None;
    var bestScore := 0;
    var shuffled := Shuffle(frontier);
    for i := 0 to |shuffled|
      invariant best.None? ==> forall j :: 0 <= j < i ==> !Eligible(nodes, visited, shuffled[j])
      invariant best.Some? ==> best.value in shuffled && Eligible(nodes, visited, best.value)
      invariant best.Some? ==> bestScore == Score(nodes[best.value.0], best.value.1, seen)
      invariant best.Some? ==> forall j :: 0 <= j < i && Eligible(nodes, visited, shuffled[j]) ==>
        Score(nodes[shuffled[j].0], shuffled[j].1, seen) <= bestScore
    {
      var (candidate, via) := shuffled[i];
      if candidate in visited { continue; }
      if candidate !in nodes { continue; }
      var score := Score(nodes[candidate], via, seen);
      if best.None? || score > bestScore {
        bestScore := score;
        best := Some((candidate, via));
      }
    }
    assert forall s :: s in frontier <==> s in multiset(frontier);
    assert forall s :: s in shuffled <==> s in multiset(shuffled);
  }

  // ---- walk_from_seed -------------------------------------------------------------------------

  /** What the walk keeps: visited in this order, each joined to one before; every unvisited neighbour is on the frontier. */
  ghost predicate Walking(nodes: map<string, Node>, edges: seq<Edge>, seed: string, order: seq<string>, visited: set<string>, frontier: seq<Step>)
  {
    var links := Links(nodes, edges);
    && 0 < |order| == |visited| <= TARGET_SIZE && order[0] == seed
    && (forall x :: x in visited <==> x in order)
    && (forall x :: x in visited ==> x in nodes)
    && Joined(links, order)
    && (forall a, b :: a in visited && Linked(links, a, b) && b !in visited ==> exists s :: s in frontier && s.0 == b)
    && (forall s :: s in frontier ==> exists a :: a in visited && Linked(links, a, s.0))
  }

  ghost predicate Joined(links: seq<Link>, order: seq<string>)
  {
    forall i :: 0 < i < |order| ==> exists j :: 0 <= j < i && Linked(links, order[j], order[i])
  }

  /** The links with both ends in s. */
  function Inside(links: seq<Link>, s: set<string>): seq<Link>
  {
    if links == [] then []
    else (if links[0].0 in s && links[0].1 in s then [links[0]] else []) + Inside(links[1..], s)
  }

  lemma {:induction false} InsideMembers(links: seq<Link>, s: set<string>, e: Link)
    ensures e in Inside(links, s) <==> e in links && e.0 in s && e.1 in s
  {
    if links != [] {
      InsideMembers(links[1..], s, e);
      assert links == [links[0]] + links[1..];
    }
  }

  lemma InsideLinked(links: seq<Link>, s: set<string>, a: string, b: string)
    ensures Linked(Inside(links, s), a, b) <==> Linked(links, a, b) && a in s && b in s
  {
    InsideMembers(links, s, (a, b));
    InsideMembers(links, s, (b, a));
  }

  lemma {:induction false} JoinedIsConnected(links: seq<Link>, order: seq<string>, s: set<string>, i: nat)
    requires i < |order| && Joined(links, order) && forall x :: x in order ==> x in s
    ensures order[i] in Component(Inside(links, s), order[0])
  {
    if i == 0 {
      StartReachable(Inside(links, s), order[0]);
    } else {
      var j :| 0 <= j < i && Linked(links, order[j], order[i]);
      JoinedIsConnected(links, order, s, j);
      InsideLinked(links, s, order[j], order[i]);
      ReachesOn(Inside(links, s), order[0], order[j], order[i]);
    }
  }

  lemma {:induction false} InsideWithin(links: seq<Link>, s: set<string>, start: string, d: nat, x: string)
    requires start in s && Within(Inside(links, s), start, d, x)
    ensures Within(links, start, d, x) && x in s
    decreases d
  {
    if d > 0 {
      if Within(Inside(links, s), start, d - 1, x) {
        InsideWithin(links, s, start, d - 1, x);
      } else {
        var y := LastStep(Inside(links, s), start, d - 1, x);
        InsideWithin(links, s, start, d - 1, y);
        InsideLinked(links, s, y, x);
        OneStep(links, start, d - 1, y, x);
      }
    }
  }

  /** The visited nodes hang together by themselves, and all are reachable from the seed. */
  lemma WalkedIsConnected(nodes: map<string, Node>, edges: seq<Edge>, seed: string, order: seq<string>, visited: set<string>, frontier: seq<Step>)
    requires Walking(nodes, edges, seed, order, visited, frontier)
    ensures Component(Inside(Links(nodes, edges), visited), seed) == visited
    ensures visited <= Component(Links(nodes, edges), seed)
  {
    var links := Links(nodes, edges);
    forall x | x in visited ensures x in Component(Inside(links, visited), seed) && x in Component(links, seed) {
      var i :| 0 <= i < |order| && order[i] == x;
      JoinedIsConnected(links, order, visited, i);
      var d: nat :| Within(Inside(links, visited), seed, d, x);
      assert seed in visited;
      InsideWithin(links, visited, seed, d, x);
      WithinIsReachable(links, seed, d, x);
    }
    forall x | x in Component(Inside(links, visited), seed) ensures x in visited {
      var d: nat :| Within(Inside(links, visited), seed, d, x);
      assert seed in visited;
      InsideWithin(links, visited, seed, d, x);
    }
  }

  /** When nothing on the frontier is eligible the whole component has been visited. */
  lemma WalkedAll(nodes: map<string, Node>, edges: seq<Edge>, seed: string, order: seq<string>, visited: set<string>, frontier: seq<Step>)
    requires Walking(nodes, edges, seed, order, visited, frontier)
    requires forall s :: s in frontier ==> !Eligible(nodes, visited, s)
    ensures visited == Component(Links(nodes, edges), seed)
  {
    var links := Links(nodes, edges);
    WalkedIsConnected(nodes, edges, seed, order, visited, frontier);
    forall x, y | y in visited && Linked(links, y, x) ensures x in visited {
      StepsAreLinks(nodes, edges, y, x);
    }
    assert seed in visited;
    ClosedIsComponent(links, seed, visited);
  }

  /** One more node, taken from the frontier. */
  lemma WalkedOn(nodes: map<string, Node>, edges: seq<Edge>, seed: string, order: seq<string>, visited: set<string>,
      frontier: seq<Step>, pick: Step, longer: seq<Step>)
    requires Walking(nodes, edges, seed, order, visited, frontier) && |visited| < TARGET_SIZE
    requires pick in frontier && Eligible(nodes, visited, pick)
    requires forall s :: s in longer <==> s in frontier || (s in Steps(nodes, edges, pick.0) && s.0 !in visited + {pick.0})
    ensures Walking(nodes, edges, seed, order + [pick.0], visited + {pick.0}, longer)
  {
    var links, c, now, path := Links(nodes, edges), pick.0, visited + {pick.0}, order + [pick.0];
    var near :| near in visited && Linked(links, near, c);
    var k :| 0 <= k < |order| && order[k] == near;
    forall i | 0 < i < |path| ensures exists j :: 0 <= j < i && Linked(links, path[j], path[i]) {
      if i < |order| {
        var j :| 0 <= j < i && Linked(links, order[j], order[i]);
        assert Linked(links, path[j], path[i]);
      } else {
        assert Linked(links, path[k], path[i]);
      }
    }
    forall a, b | a in now && Linked(links, a, b) && b !in now ensures exists s :: s in longer && s.0 == b {
      if a == c {
        StepsAreLinks(nodes, edges, c, b);
        var s :| s in Steps(nodes, edges, c) && s.0 == b;
        assert s in longer;
      } else {
        var s :| s in frontier && s.0 == b;
        assert s in longer;
      }
    }
    forall s | s in longer ensures exists a :: a in now && Linked(links, a, s.0) {
      if s in frontier {
        var a :| a in visited && Linked(links, a, s.0);
        assert a in now;
      } else {
        StepsAreLinks(nodes, edges, c, s.0);
        assert c in now;
      }
    }
  }

  function Fresh(steps: seq<Step>, visited: set<string>): (r: seq<Step>)
    ensures forall s :: s in r <==> s in steps && s.0 !in visited
  {
    if steps == [] then []
    else
      assert steps == steps[..|steps| - 1] + [steps[|steps| - 1]];
      var front, last := Fresh(steps[..|steps| - 1], visited), steps[|steps| - 1];
      if last.0 in visited then front else front + [last]
  }

  method Extend(frontier: seq<Step>, steps: seq<Step>, visited: set<string>) returns (longer: seq<Step>)
    ensures longer == frontier + Fresh(steps, visited)
  {
    longer := frontier;
    for i := 0 to |steps|
      invariant longer == frontier + Fresh(steps[..i], visited)
    {
      assert steps[..i + 1][..i] == steps[..i];
      if steps[i].0 !in visited { longer := longer + [steps[i]]; }
    }
    assert steps[..|steps|] == steps;
  }

  // ---- the edges collected ----------------------------------------------------------------------

  type Collected = (string, string, EdgeType)

  function Ordered(e: Edge): Collected
  {
    if Less(e.source, e.target) then (e.source, e.target, e.kind) else (e.target, e.source, e.kind)
  }

  /** The rows between two distinct visited nodes, each once with its lesser end first; counted for lesser ends in `done`. */
  ghost function Induced(nodes: map<string, Node>, edges: seq<Edge>, visited: set<string>, done: set<string>): multiset<Collected>
  {
    if edges == [] then multiset{}
    else
      Induced(nodes, edges[..|edges| - 1], visited, done) + OfEdge(nodes, edges[|edges| - 1], visited, done)
  }

  /** What one node contributes: its steps to visited nodes that come after it. */
  function Onward(src: string, steps: seq<Step>, visited: set<string>): seq<Collected>
  {
    if steps == [] then []
    else
      var s := steps[|steps| - 1];
      Onward(src, steps[..|steps| - 1], visited)
      + if s.0 in visited && Less(src, s.0) then [(src, s.0, s.1)] else []
  }

  lemma {:induction false} OnwardAppend(src: string, a: seq<Step>, b: seq<Step>, visited: set<string>)
    ensures Onward(src, a + b, visited) == Onward(src, a, visited) + Onward(src, b, visited)
  {
    if b == [] {
      assert a + b == a;
    } else {
      assert (a + b)[..|a + b| - 1] == a + b[..|b| - 1];
      OnwardAppend(src, a, b[..|b| - 1], visited);
    }
  }

  lemma {:induction false} OneMoreSource(nodes: map<string, Node>, edges: seq<Edge>, visited: set<string>, done: set<string>, src: string)
    requires src in visited && src !in done
    ensures Induced(nodes, edges, visited, done + {src})
         == Induced(nodes, edges, visited, done) + multiset(Onward(src, Steps(nodes, edges, src), visited))
  {
    if edges != [] {
      var front, e := edges[..|edges| - 1], edges[|edges| - 1];
      OneMoreSource(nodes, front, visited, done, src);
      OnwardAppend(src, Steps(nodes, front, src), StepsOver(nodes, e, src), visited);
      OneEdge(nodes, e, visited, done, src);
    }
  }

  ghost function OfEdge(nodes: map<string, Node>, e: Edge, visited: set<string>, done: set<string>): multiset<Collected>
  {
    if Walkable(nodes, e) && e.source != e.target && e.source in visited && e.target in visited && Ordered(e).0 in done
    then multiset{Ordered(e)} else multiset{}
  }

  lemma OnwardOne(src: string, s: Step, visited: set<string>)
    ensures Onward(src, [s], visited) == if s.0 in visited && Less(src, s.0) then [(src, s.0, s.1)] else []
  {
    assert [s][..0] == [];
  }

  lemma LessOneWay(a: string, b: string)
    ensures Less(a, b) ==> !Less(b, a) && a != b
    ensures a == b || Less(a, b) || Less(b, a)
  {
    LessTotal(a, b);
    LessIrreflexive(a);
    if Less(a, b) && Less(b, a) { LessTransitive(a, b, a); }
  }

  lemma OneEdge(nodes: map<string, Node>, e: Edge, visited: set<string>, done: set<string>, src: string)
    requires src in visited && src !in done
    ensures OfEdge(nodes, e, visited, done + {src})
         == OfEdge(nodes, e, visited, done) + multiset(Onward(src, StepsOver(nodes, e, src), visited))
  {
    LessOneWay(e.source, e.target);
    var out, back := (e.target, e.kind), (e.source, e.kind);
    OnwardOne(src, out, visited);
    OnwardOne(src, back, visited);
    if Walkable(nodes, e) && e.source == src && e.target == src {
      OnwardAppend(src, [out], [back], visited);
    } else if Walkable(nodes, e) && e.source == src {
      assert StepsOver(nodes, e, src) == [out];
    } else if Walkable(nodes, e) && e.target == src {
      assert StepsOver(nodes, e, src) == [back];
    }
  }

  /** A walkable row between two distinct visited nodes, collected as c: the lesser end first. */
  predicate CollectedAs(nodes: map<string, Node>, e: Edge, visited: set<string>, c: Collected)
  {
    && (e == Edge(c.0, c.1, c.2) || e == Edge(c.1, c.0, c.2)) && Less(c.0, c.1)
    && c.0 in visited && c.1 in visited && c.0 in nodes && c.1 in nodes && c.2 != ClassifiedBy
  }

  ghost function RowsAmong(nodes: map<string, Node>, edges: seq<Edge>, visited: set<string>, c: Collected, n: nat): set<nat>
    requires n <= |edges|
  {
    set i: nat | i < n && CollectedAs(nodes, edges[i], visited, c)
  }

  /** The rows that are collected as c. */
  ghost function RowsAs(nodes: map<string, Node>, edges: seq<Edge>, visited: set<string>, c: Collected): set<nat>
  {
    RowsAmong(nodes, edges, visited, c, |edges|)
  }

  lemma OfEdgeCounts(nodes: map<string, Node>, e: Edge, visited: set<string>, c: Collected)
    ensures OfEdge(nodes, e, visited, visited)[c] == if CollectedAs(nodes, e, visited, c) then 1 else 0
  {
    LessOneWay(e.source, e.target);
  }

  lemma OneMoreRow(nodes: map<string, Node>, edges: seq<Edge>, visited: set<string>, c: Collected, n: nat)
    requires n < |edges|
    ensures |RowsAmong(nodes, edges, visited, c, n + 1)|
         == |RowsAmong(nodes, edges, visited, c, n)| + if CollectedAs(nodes, edges[n], visited, c) then 1 else 0
  {
    var rows := RowsAmong(nodes, edges, visited, c, n);
    assert RowsAmong(nodes, edges, visited, c, n + 1) == if CollectedAs(nodes, edges[n], visited, c) then rows + {n} else rows;
  }

  lemma {:induction false} InducedAmong(nodes: map<string, Node>, edges: seq<Edge>, visited: set<string>, c: Collected, n: nat)
    requires n <= |edges|
    ensures Induced(nodes, edges[..n], visited, visited)[c] == |RowsAmong(nodes, edges, visited, c, n)|
  {
    if n > 0 {
      InducedAmong(nodes, edges, visited, c, n - 1);
      OneMoreRow(nodes, edges, visited, c, n - 1);
      OfEdgeCounts(nodes, edges[n - 1], visited, c);
      assert edges[..n][..n - 1] == edges[..n - 1];
    }
  }

  /** Every such row is counted exactly once. */
  lemma InducedCounts(nodes: map<string, Node>, edges: seq<Edge>, visited: set<string>, c: Collected)
    ensures Induced(nodes, edges, visited, visited)[c] == |RowsAs(nodes, edges, visited, c)|
  {
    InducedAmong(nodes, edges, visited, c, |edges|);
    assert edges[..|edges|] == edges;
  }

  method CollectFrom(src: string, steps: seq<Step>, visited: set<string>) returns (mine: seq<Collected>)
    ensures mine == Onward(src, steps, visited)
  {
    mine := [];
    for i := 0 to |steps|
      invariant mine == Onward(src, steps[..i], visited)
    {
      assert steps[..i + 1][..i] == steps[..i];
      if steps[i].0 in visited && Less(src, steps[i].0) { mine := mine + [(src, steps[i].0, steps[i].1)]; }
    }
    assert steps[..|steps|] == steps;
  }

  method CollectEdges(adj: map<string, seq<Step>>, ghost nodes: map<string, Node>, ghost edges: seq<Edge>, visited: set<string>)
    returns (collected: seq<Collected>)
    requires AdjacencyOf(adj, nodes, edges)
    ensures multiset(collected) == Induced(nodes, edges, visited, visited)
  {
    collected := [];
    var left := visited;
    NothingYet(nodes, edges, visited);
    while left != {}
      invariant left <= visited && multiset(collected) == Induced(nodes, edges, visited, visited - left)
    {
      var src :| src in left;
      OneMoreSource(nodes, edges, visited, visited - left, src);
      assert visited - (left - {src}) == visited - left + {src};
      left := left - {src};
      var mine := CollectFrom(src, At(adj, src), visited);
      collected := collected + mine;
    }
    assert visited - {} == visited;
  }

  lemma {:induction false} NothingYet(nodes: map<string, Node>, edges: seq<Edge>, visited: set<string>)
    ensures Induced(nodes, edges, visited, visited - visited) == multiset{}
  {
    if edges != [] { NothingYet(nodes, edges[..|edges| - 1], visited); }
  }

  // ---- the scored choice ------------------------------------------------------------------------

  /** A row that is no classification joins a to this node, with this type, either way round. */
  ghost predicate Joins(nodes: map<string, Node>, edges: seq<Edge>, a: string, s: Step)
  {
    && a in nodes && s.0 in nodes && s.1 != ClassifiedBy
    && exists i :: 0 <= i < |edges| && (edges[i] == Edge(a, s.0, s.1) || edges[i] == Edge(s.0, a, s.1))
  }

  lemma {:induction false} StepsAreJoins(nodes: map<string, Node>, edges: seq<Edge>, a: string, s: Step)
    ensures s in Steps(nodes, edges, a) <==> Joins(nodes, edges, a, s)
  {
    if edges != [] {
      var front, e := edges[..|edges| - 1], edges[|edges| - 1];
      StepsAreJoins(nodes, front, a, s);
      assert edges == front + [e];
      if e == Edge(a, s.0, s.1) || e == Edge(s.0, a, s.1) { assert edges[|edges| - 1] == e; }
      if i :| 0 <= i < |front| && (front[i] == Edge(a, s.0, s.1) || front[i] == Edge(s.0, a, s.1)) { assert edges[i] == front[i]; }
    }
  }

  /** A step from a node already shown to a node that is not. */
  ghost predicate Open(nodes: map<string, Node>, edges: seq<Edge>, order: seq<string>, s: Step)
  {
    s.0 !in order && exists j :: 0 <= j < |order| && Joins(nodes, edges, order[j], s)
  }

  /** What a walk over these nodes, by these edge types, has shown. */
  function SeenBy(nodes: map<string, Node>, order: seq<string>, via: seq<EdgeType>): Seen
    requires forall x :: x in order ==> x in nodes
  {
    Seen(seq(|order|, i requires 0 <= i < |order| => nodes[order[i]].lenses),
         set x, l | x in order && l in nodes[x].lenses :: l,
         set x | x in order :: nodes[x].era,
         set x | x in order :: nodes[x].kind,
         set t | t in via)
  }

  /** This step is open, and none that is open scores above it. */
  ghost predicate Best(nodes: map<string, Node>, edges: seq<Edge>, order: seq<string>, via: seq<EdgeType>, pick: Step)
    requires forall x :: x in order ==> x in nodes
  {
    && Open(nodes, edges, order, pick)
    && forall s :: Open(nodes, edges, order, s) ==>
         Score(nodes[s.0], s.1, SeenBy(nodes, order, via)) <= Score(nodes[pick.0], pick.1, SeenBy(nodes, order, via))
  }

  /** Each node of the walk was, by the type it was reached with, a best choice after those before it. */
  ghost predicate ChosenWell(nodes: map<string, Node>, edges: seq<Edge>, order: seq<string>, via: seq<EdgeType>)
    requires (forall x :: x in order ==> x in nodes) && |order| == |via| + 1
  {
    forall i :: 0 < i < |order| ==> Best(nodes, edges, order[..i], via[..i - 1], (order[i], via[i - 1]))
  }

  /** Of the frontier, the eligible steps are the open ones. */
  ghost predicate FrontierOf(nodes: map<string, Node>, edges: seq<Edge>, order: seq<string>, visited: set<string>, frontier: seq<Step>)
  {
    forall s :: s in frontier && Eligible(nodes, visited, s) <==> Open(nodes, edges, order, s)
  }

  lemma SeenOneMore(nodes: map<string, Node>, order: seq<string>, via: seq<EdgeType>, c: string, t: EdgeType)
    requires c in nodes && forall x :: x in order ==> x in nodes
    ensures var seen, n := SeenBy(nodes, order, via), nodes[c];
      SeenBy(nodes, order + [c], via + [t])
      == Seen(seen.recent + [n.lenses], seen.lenses + n.lenses, seen.eras + {n.era}, seen.kinds + {n.kind}, seen.edgeTypes + {t})
  {
  }

  lemma FrontierOneMore(nodes: map<string, Node>, edges: seq<Edge>, order: seq<string>, visited: set<string>, frontier: seq<Step>,
                        c: string, longer: seq<Step>)
    requires FrontierOf(nodes, edges, order, visited, frontier) && forall x :: x in visited <==> x in order
    requires forall s :: s in longer <==> s in frontier || (s in Steps(nodes, edges, c) && s.0 !in visited + {c})
    ensures FrontierOf(nodes, edges, order + [c], visited + {c}, longer)
  {
    forall s ensures s in longer && Eligible(nodes, visited + {c}, s) <==> Open(nodes, edges, order + [c], s) {
      StepsAreJoins(nodes, edges, c, s);
      assert s in frontier && Eligible(nodes, visited, s) <==> Open(nodes, edges, order, s);
      OpenOneMore(nodes, edges, order, c, s);
    }
  }

  lemma OpenOneMore(nodes: map<string, Node>, edges: seq<Edge>, order: seq<string>, c: string, s: Step)
    ensures Open(nodes, edges, order + [c], s) <==> s.0 != c && s.0 !in order && (Open(nodes, edges, order, s) || Joins(nodes, edges, c, s))
  {
    var longer := order + [c];
    if j :| 0 <= j < |order| && Joins(nodes, edges, order[j], s) { assert longer[j] == order[j]; }
    assert longer[|order|] == c;
  }

  lemma ChosenOneMore(nodes: map<string, Node>, edges: seq<Edge>, order: seq<string>, via: seq<EdgeType>, pick: Step)
    requires (forall x :: x in order ==> x in nodes) && |order| == |via| + 1 && pick.0 in nodes
    requires ChosenWell(nodes, edges, order, via) && Best(nodes, edges, order, via, pick)
    ensures ChosenWell(nodes, edges, order + [pick.0], via + [pick.1])
  {
    var path, types := order + [pick.0], via + [pick.1];
    forall i | 0 < i < |path| ensures Best(nodes, edges, path[..i], types[..i - 1], (path[i], types[i - 1])) {
      if i < |order| {
        assert path[..i] == order[..i] && types[..i - 1] == via[..i - 1];
      } else {
        assert path[..i] == order && types[..i - 1] == via;
      }
    }
  }

  lemma PickIsBest(nodes: map<string, Node>, edges: seq<Edge>, order: seq<string>, via: seq<EdgeType>, visited: set<string>,
                   frontier: seq<Step>, pick: Step)
    requires FrontierOf(nodes, edges, order, visited, frontier) && forall x :: x in order ==> x in nodes
    requires pick in frontier && Eligible(nodes, visited, pick)
    requires forall s :: s in frontier && Eligible(nodes, visited, s) ==>
      Score(nodes[s.0], s.1, SeenBy(nodes, order, via)) <= Score(nodes[pick.0], pick.1, SeenBy(nodes, order, via))
    ensures Best(nodes, edges, order, via, pick)
  {
  }

  /** A connected set with the seed in it, of the target size or the whole component, and exactly the rows among its nodes; each node
      was a best choice after those before it, and the walk only ends early when no step is open. */
  method WalkFromSeed(seed: string, nodes: map<string, Node>, adj: map<string, seq<Step>>, ghost edges: seq<Edge>)
    returns (visited: set<string>, collected: seq<Collected>, ghost order: seq<string>, ghost via: seq<EdgeType>)
    requires seed in nodes && AdjacencyOf(adj, nodes, edges)
    ensures seed in visited && visited <= Component(Links(nodes, edges), seed)
    ensures Component(Inside(Links(nodes, edges), visited), seed) == visited
    ensures var size := |Component(Links(nodes, edges), seed)|; |visited| == if size < 60 then size else 60
    ensures multiset(collected) == Induced(nodes, edges, visited, visited)
    ensures ListsOnce(order, visited) && |order| == |via| + 1 && order[0] == seed
    ensures (forall x :: x in order ==> x in nodes) && ChosenWell(nodes, edges, order, via)
    ensures |visited| < 60 ==> forall s :: !Open(nodes, edges, order, s)
  {
    ghost var links := Links(nodes, edges);
    visited := {seed};
    var n := nodes[seed];
    var seen := Seen([n.lenses], n.lenses, {n.era}, {n.kind}, {});
    var frontier := At(adj, seed);
    order, via := [seed], [];
    WalkStarts(nodes, edges, seed);
    ChoiceStarts(nodes, edges, seed);
    while |visited| < TARGET_SIZE && frontier != []
      invariant Walking(nodes, edges, seed, order, visited, frontier)
      invariant |order| == |via| + 1 && FrontierOf(nodes, edges, order, visited, frontier)
      invariant seen == SeenBy(nodes, order, via) && ChosenWell(nodes, edges, order, via)
      decreases TARGET_SIZE - |visited|
    {
      var pick := PickNext(frontier, visited, nodes, seen);
      if pick.None? { break; }
      var (candidate, reached) := pick.value;
      PickIsBest(nodes, edges, order, via, visited, frontier, pick.value);
      ChosenOneMore(nodes, edges, order, via, pick.value);
      SeenOneMore(nodes, order, via, candidate, reached);
      var steps := At(adj, candidate);
      ghost var was := frontier;
      n := nodes[candidate];
      seen := Seen(seen.recent + [n.lenses], seen.lenses + n.lenses, seen.eras + {n.era}, seen.kinds + {n.kind}, seen.edgeTypes + {reached});
      frontier := Extend(frontier, steps, visited + {candidate});
      WalkedOn(nodes, edges, seed, order, visited, was, pick.value, frontier);
      FrontierOneMore(nodes, edges, order, visited, was, candidate, frontier);
      visited, order, via := visited + {candidate}, order + [candidate], via + [reached];
    }
    WalkedIsConnected(nodes, edges, seed, order, visited, frontier);
    if |visited| < TARGET_SIZE { WalkedAll(nodes, edges, seed, order, visited, frontier); }
    Subset(visited, Component(links, seed));
    assert seed in visited;
    collected := CollectEdges(adj, nodes, edges, visited);
  }

  lemma ChoiceStarts(nodes: map<string, Node>, edges: seq<Edge>, seed: string)
    requires seed in nodes
    ensures FrontierOf(nodes, edges, [seed], {seed}, Steps(nodes, edges, seed))
    ensures SeenBy(nodes, [seed], []) == Seen([nodes[seed].lenses], nodes[seed].lenses, {nodes[seed].era}, {nodes[seed].kind}, {})
  {
    forall s ensures s in Steps(nodes, edges, seed) && Eligible(nodes, {seed}, s) <==> Open(nodes, edges, [seed], s) {
      StepsAreJoins(nodes, edges, seed, s);
    }
  }

  lemma WalkStarts(nodes: map<string, Node>, edges: seq<Edge>, seed: string)
    requires seed in nodes
    ensures Walking(nodes, edges, seed, [seed], {seed}, Steps(nodes, edges, seed))
  {
    forall a, b | a in {seed} && Linked(Links(nodes, edges), a, b) ensures exists s :: s in Steps(nodes, edges, seed) && s.0 == b {
      StepsAreLinks(nodes, edges, seed, b);
    }
    forall s | s in Steps(nodes, edges, seed) ensures exists a :: a in {seed} && Linked(Links(nodes, edges), a, s.0) {
      StepsAreLinks(nodes, edges, seed, s.0);
      assert seed in {seed};
    }
  }
}
