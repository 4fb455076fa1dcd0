/** Undirected reachability by distance, for the graph searches. */
module Graph {

  type Link = (string, string)

  /** Some link joins a and b, either way round. */
  predicate Linked(links: seq<Link>, a: string, b: string)
  {
    (a, b) in links || (b, a) in links
  }

  ghost function Vertices(links: seq<Link>, start: string): set<string>
  {
    {start} + (set e | e in links :: e.0) + (set e | e in links :: e.1)
  }

  /** x is at most d links from the start. */
  ghost predicate Within(links: seq<Link>, start: string, d: nat, x: string)
  {
    if d == 0 then x == start
    else Within(links, start, d - 1, x) || exists y :: Within(links, start, d - 1, y) && Linked(links, y, x)
  }

  ghost predicate Reachable(links: seq<Link>, start: string, x: string)
  {
    exists d: nat :: Within(links, start, d, x)
  }

  ghost function Component(links: seq<Link>, start: string): set<string>
  {
    set x | x in Vertices(links, start) && Reachable(links, start, x)
  }

  lemma OneStep(links: seq<Link>, start: string, d: nat, y: string, x: string)
    requires Within(links, start, d, y) && Linked(links, y, x)
    ensures Within(links, start, d + 1, x)
  {
  }

  lemma LastStep(links: seq<Link>, start: string, d: nat, x: string) returns (y: string)
    requires Within(links, start, d + 1, x) && !Within(links, start, d, x)
    ensures Within(links, start, d, y) && Linked(links, y, x)
  {
    y :| Within(links, start, d, y) && Linked(links, y, x);
  }

  lemma {:induction false} WithinGrows(links: seq<Link>, start: string, d: nat, e: nat, x: string)
    requires d <= e && Within(links, start, d, x)
    ensures Within(links, start, e, x)
    decreases e
  {
    if d < e { WithinGrows(links, start, d, e - 1, x); }
  }

  lemma LinkedIsVertex(links: seq<Link>, start: string, y: string, x: string)
    requires Linked(links, y, x)
    ensures x in Vertices(links, start)
  {
    if (y, x) in links { assert (y, x).1 == x; } else { assert (x, y).0 == x; }
  }

  lemma {:induction false} WithinIsReachable(links: seq<Link>, start: string, d: nat, x: string)
    requires Within(links, start, d, x)
    ensures x in Component(links, start)
    decreases d
  {
    if d > 0 {
      if Within(links, start, d - 1, x) {
        WithinIsReachable(links, start, d - 1, x);
      } else {
        var y := LastStep(links, start, d - 1, x);
        LinkedIsVertex(links, start, y, x);
      }
    }
  }

  /** Linked to something reachable is reachable. */
  lemma ReachesOn(links: seq<Link>, start: string, y: string, x: string)
    requires y in Component(links, start) && Linked(links, y, x)
    ensures x in Component(links, start)
  {
    var d: nat :| Within(links, start, d, y);
    OneStep(links, start, d, y, x);
    WithinIsReachable(links, start, d + 1, x);
  }

  lemma StartReachable(links: seq<Link>, start: string)
    ensures start in Component(links, start)
  {
    WithinIsReachable(links, start, 0, start);
  }

  ghost predicate Closed(links: seq<Link>, s: set<string>)
  {
    forall x, y :: y in s && Linked(links, y, x) ==> x in s
  }

  lemma {:induction false} ClosedHasWithin(links: seq<Link>, start: string, s: set<string>, d: nat, x: string)
    requires start in s && Closed(links, s) && Within(links, start, d, x)
    ensures x in s
    decreases d
  {
    if d > 0 {
      if Within(links, start, d - 1, x) {
        ClosedHasWithin(links, start, s, d - 1, x);
      } else {
        var y := LastStep(links, start, d - 1, x);
        ClosedHasWithin(links, start, s, d - 1, y);
      }
    }
  }

  /** A closed set of reachable nodes with the start in it is the component. */
  lemma ClosedIsComponent(links: seq<Link>, start: string, s: set<string>)
    requires start in s && Closed(links, s) && s <= Component(links, start)
    ensures s == Component(links, start)
  {
    forall x | x in Component(links, start) ensures x in s {
      var d: nat :| Within(links, start, d, x);
      ClosedHasWithin(links, start, s, d, x);
    }
  }

  /** Nothing in s is farther from the start than anything reachable outside it. */
  ghost predicate Nearest(links: seq<Link>, start: string, s: set<string>)
  {
    forall x, y, d: nat :: x in s && y !in s && Within(links, start, d, y) ==> Within(links, start, d, x)
  }

  lemma BetweenLevels(links: seq<Link>, start: string, s: set<string>, d: nat)
    requires forall x :: Within(links, start, d, x) ==> x in s
    requires forall x :: x in s ==> Within(links, start, d + 1, x)
    ensures Nearest(links, start, s)
  {
    forall x, y, e: nat | x in s && y !in s && Within(links, start, e, y) ensures Within(links, start, e, x) {
      if e <= d { WithinGrows(links, start, e, d, y); } else { WithinGrows(links, start, d + 1, e, x); }
    }
  }
}

/** src/archivist/tools.ts get_component: breadth-first search with a cap on the nodes kept. */
module ComponentTool {
  import opened Finite
  import opened Graph

  datatype Asked = NoNumber | Number(value: int)

  /** clampInt of max_nodes: 80 when there is no number, else 5 to 200. */
  function MaxNodes(asked: Asked): (cap: nat)
    ensures 5 <= cap <= 200
    ensures asked.NoNumber? ==> cap == 80
    ensures asked.Number? ==> cap <= asked.value || (cap == 5 && asked.value < 5)
    ensures asked.Number? ==> cap >= asked.value || (cap == 200 && asked.value > 200)
  {
    if asked.NoNumber? then 80 else if asked.value < 5 then 5 else if asked.value > 200 then 200 else asked.value
  }

  predicate Joined(adj: map<string, seq<string>>, a: string, b: string)
  {
    a in adj && b in adj[a]
  }

  ghost predicate AdjacencyOf(adj: map<string, seq<string>>, links: seq<Link>)
  {
    forall a, b :: Linked(links, a, b) <==> Joined(adj, a, b)
  }

  method Adjacency(links: seq<Link>) returns (adj: map<string, seq<string>>)
    ensures AdjacencyOf(adj, links)
  {
    adj := map[];
    for i := 0 to |links|
      invariant AdjacencyOf(adj, links[..i])
    {
      var e := links[i];
      ghost var before := adj;
      assert links[..i + 1] == links[..i] + [e];
      if e.0 !in adj { adj := adj[e.0 := []]; }
      if e.1 !in adj { adj := adj[e.1 := []]; }
      adj := adj[e.0 := adj[e.0] + [e.1]];
      adj := adj[e.1 := adj[e.1] + [e.0]];
      forall a, b ensures Joined(adj, a, b) <==> Joined(before, a, b) || (a, b) == e || (b, a) == e { }
      forall a, b ensures Linked(links[..i + 1], a, b) <==> Joined(adj, a, b) {
        assert Linked(links[..i], a, b) <==> Joined(before, a, b);
      }
    }
    assert links[..|links|] == links;
  }

  /** What the search knows: `head` nodes expanded, level d complete before `mark`, and the cap. */
  ghost predicate Searching(links: seq<Link>, start: string, cap: nat, visited: seq<string>, head: nat, truncated: bool)
  {
    && Distinct(visited) && 0 < |visited| <= cap && visited[0] == start && head <= |visited|
    && Elements(visited) <= Component(links, start)
    && (truncated ==> |visited| == cap && exists x :: x in Component(links, start) && x !in visited)
    && (!truncated ==> forall x, i :: 0 <= i < head && Linked(links, visited[i], x) ==> x in visited)
  }

  ghost predicate Level(links: seq<Link>, start: string, visited: seq<string>, mark: nat, d: nat)
  {
    && mark <= |visited|
    && (forall x :: x in visited[..mark] <==> Within(links, start, d, x))
    && (forall x :: x in visited ==> Within(links, start, d + 1, x))
  }

  /** Every node within d expanded: what is kept is exactly what is within d + 1. */
  lemma NextLevel(links: seq<Link>, start: string, cap: nat, visited: seq<string>, mark: nat, d: nat)
    requires Searching(links, start, cap, visited, mark, false) && Level(links, start, visited, mark, d)
    ensures Level(links, start, visited, |visited|, d + 1)
  {
    assert visited[..|visited|] == visited;
    forall x | Within(links, start, d + 1, x) ensures x in visited {
      if Within(links, start, d, x) {
        assert x in visited[..mark];
      } else {
        var y := LastStep(links, start, d, x);
        assert y in visited[..mark];
        var i :| 0 <= i < mark && visited[i] == y;
      }
    }
    forall x | x in visited ensures Within(links, start, d + 2, x) { WithinGrows(links, start, d + 1, d + 2, x); }
  }

  /** A node outside, one link from something kept, once the cap is reached. */
  lemma Overflows(links: seq<Link>, start: string, cap: nat, visited: seq<string>, head: nat, truncated: bool, cur: string, other: string)
    requires Searching(links, start, cap, visited, head, truncated) && |visited| == cap
    requires cur in visited && Linked(links, cur, other) && other !in visited
    ensures Searching(links, start, cap, visited, head, true)
  {
    ReachesOn(links, start, cur, other);
  }

  lemma Keeps(links: seq<Link>, start: string, cap: nat, visited: seq<string>, head: nat, cur: string, other: string)
    requires Searching(links, start, cap, visited, head, false) && |visited| < cap
    requires cur in visited && Linked(links, cur, other) && other !in visited
    ensures Searching(links, start, cap, visited + [other], head, false)
  {
    ReachesOn(links, start, cur, other);
    assert Elements(visited + [other]) == Elements(visited) + {other};
  }

  lemma LevelKeeps(links: seq<Link>, start: string, visited: seq<string>, mark: nat, d: nat, cur: string, other: string)
    requires Level(links, start, visited, mark, d) && cur in visited[..mark] && Linked(links, cur, other)
    ensures Level(links, start, visited + [other], mark, d)
  {
    assert (visited + [other])[..mark] == visited[..mark];
    OneStep(links, start, d, cur, other);
  }

  /** At most `cap` nodes, all of the component; all of it exactly when it fits; and the nearest ones. */
  ghost predicate IsSearch(links: seq<Link>, start: string, cap: nat, visited: seq<string>, truncated: bool)
  {
    && Distinct(visited) && |visited| <= cap && start in visited
    && Elements(visited) <= Component(links, start)
    && (truncated <==> |Component(links, start)| > cap)
    && (!truncated ==> Elements(visited) == Component(links, start))
    && (truncated ==> |visited| == cap)
    && Nearest(links, start, Elements(visited))
  }

  lemma SearchDone(links: seq<Link>, start: string, cap: nat, visited: seq<string>, truncated: bool, mark: nat, d: nat)
    requires Searching(links, start, cap, visited, |visited|, truncated) && Level(links, start, visited, mark, d)
    ensures IsSearch(links, start, cap, visited, truncated)
  {
    var kept := Elements(visited);
    DistinctCount(visited);
    assert forall x :: x in visited[..mark] ==> x in visited;
    BetweenLevels(links, start, kept, d);
    if truncated {
      Subset(kept, Component(links, start));
    } else {
      forall x, y | y in kept && Linked(links, y, x) ensures x in kept {
        var i :| 0 <= i < |visited| && visited[i] == y;
      }
      ClosedIsComponent(links, start, kept);
    }
  }

  /** One turn of the search: the neighbours of the node just taken off the queue. */
  method Expand(
      ghost links: seq<Link>, ghost start: string, cap: nat, ghost cur: string, neighbours: seq<string>,
      seen: seq<string>, waiting: seq<string>, wasTruncated: bool, ghost head: nat, ghost mark: nat, ghost d: nat)
    returns (visited: seq<string>, queue: seq<string>, truncated: bool)
    requires Searching(links, start, cap, seen, head, wasTruncated) && Level(links, start, seen, mark, d)
    requires head < |seen| && seen[head] == cur && waiting == seen[head + 1..]
    requires forall x :: Linked(links, cur, x) <==> x in neighbours
    requires |seen| < cap ==> head < mark
    ensures Searching(links, start, cap, visited, head + 1, truncated) && Level(links, start, visited, mark, d)
    ensures |seen| <= |visited| && queue == visited[head + 1..]
  {
    visited, queue, truncated := seen, waiting, wasTruncated;
    for j := 0 to |neighbours|
      invariant seen <= visited && queue == visited[head + 1..]
      invariant Searching(links, start, cap, visited, head, truncated) && Level(links, start, visited, mark, d)
      invariant !truncated ==> forall x :: x in neighbours[..j] ==> x in visited
    {
      var other := neighbours[j];
      assert neighbours[..j + 1] == neighbours[..j] + [other];
      assert other in neighbours && visited[head] == cur;
      if other in visited { continue; }
      if |visited| >= cap {
        Overflows(links, start, cap, visited, head, truncated, cur, other);
        truncated := true;
        continue;
      }
      assert visited[..mark][head] == cur;
      Keeps(links, start, cap, visited, head, cur, other);
      LevelKeeps(links, start, visited, mark, d, cur, other);
      visited := visited + [other];
      queue := queue + [other];
    }
    assert neighbours[..|neighbours|] == neighbours;
  }

  method GetComponent(links: seq<Link>, start: string, asked: Asked) returns (visited: seq<string>, truncated: bool)
    ensures IsSearch(links, start, MaxNodes(asked), visited, truncated)
  {
    var cap := MaxNodes(asked);
    var adj := Adjacency(links);
    visited := [start];
    var queue := [start];
    truncated := false;
    ghost var head: nat, mark: nat, d: nat := 0, 1, 0;
    StartReachable(links, start);
    WithinGrows(links, start, 0, 1, start);
    assert visited[..1] == [start] && visited[0..] == [start];
    while |queue| > 0
      invariant Searching(links, start, cap, visited, head, truncated) && Level(links, start, visited, mark, d)
      invariant queue == visited[head..] && (|visited| < cap ==> head <= mark)
      decreases cap - head
    {
      if |visited| < cap && head == mark {
        NextLevel(links, start, cap, visited, mark, d);
        mark, d := |visited|, d + 1;
      }
      var cur := queue[0];
      var neighbours := if cur in adj then adj[cur] else [];
      assert forall x :: Linked(links, cur, x) <==> Joined(adj, cur, x);
      visited, queue, truncated := Expand(links, start, cap, cur, neighbours, visited, queue[1..], truncated, head, mark, d);
      head := head + 1;
    }
    SearchDone(links, start, cap, visited, truncated, mark, d);
  }
}
