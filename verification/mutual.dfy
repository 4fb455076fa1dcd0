/** src/embed/derive.ts, mutualTopK: keep a pair only when each end ranks the other among its k strongest. */
module MutualTopK {
  import opened Finite
  import opened Ordering
  import opened Sorting

  datatype Pair = Pair(a: string, b: string, sim: real)

  datatype Link = Link(other: string, sim: real)

  /** Similarity descending, then neighbour id ascending. */
  predicate Stronger(x: Link, y: Link)
  {
    x.sim > y.sim || (x.sim == y.sim && Less(x.other, y.other))
  }

  predicate StrongerOrSame(x: Link, y: Link)
  {
    x == y || Stronger(x, y)
  }

  lemma StrongerIsStrictTotal()
    ensures StrictTotal(Stronger) && TotalPreorder(StrongerOrSame)
  {
    LessIsStrictTotalOrder();
  }

  /** What the callers hand over: no node with itself, no pair twice in either direction. */
  ghost predicate Simple(pairs: seq<Pair>)
  {
    && (forall i :: 0 <= i < |pairs| ==> pairs[i].a != pairs[i].b)
    && (forall i, j :: 0 <= i < j < |pairs| ==>
          !(pairs[i].a == pairs[j].a && pairs[i].b == pairs[j].b) && !(pairs[i].a == pairs[j].b && pairs[i].b == pairs[j].a))
  }

  /** Every link of node n among the candidates. */
  ghost function LinksOf(all: set<Pair>, n: string): set<Link>
  {
    (set p | p in all && p.a == n :: Link(p.b, p.sim)) + (set p | p in all && p.b == n :: Link(p.a, p.sim))
  }

  /** Fewer than k links of n are stronger than this one. */
  ghost predicate AmongBest(all: set<Pair>, n: string, link: Link, k: nat)
  {
    |Ahead(LinksOf(all, n), link, Stronger)| < k
  }

  ghost predicate Mutual(all: set<Pair>, p: Pair, k: nat)
  {
    AmongBest(all, p.a, Link(p.b, p.sim), k) && AmongBest(all, p.b, Link(p.a, p.sim), k)
  }

  /** What survives, said of sets: the order candidates arrive in cannot matter. */
  ghost function Kept(all: set<Pair>, k: int): set<Pair>
  {
    set p | p in all && (k <= 0 || Mutual(all, p, k))
  }

  /** The surviving pairs of `some`, in order. */
  ghost function Survivors(some: seq<Pair>, all: set<Pair>, k: int): seq<Pair>
  {
    if some == [] then []
    else Survivors(some[..|some| - 1], all, k) + if some[|some| - 1] in Kept(all, k) then [some[|some| - 1]] else []
  }

  /** The links of n in arrival order. */
  ghost function Arrivals(pairs: seq<Pair>, n: string): seq<Link>
  {
    if pairs == [] then []
    else
      var p := pairs[|pairs| - 1];
      Arrivals(pairs[..|pairs| - 1], n)
      + (if p.a == n then [Link(p.b, p.sim)] else []) + (if p.b == n then [Link(p.a, p.sim)] else [])
  }

  method Add(byNode: map<string, seq<Link>>, n: string, link: Link) returns (r: map<string, seq<Link>>)
    ensures r == byNode[n := (if n in byNode then byNode[n] else []) + [link]]
  {
    var arr := if n in byNode then byNode[n] else [];
    r := byNode[n := arr + [link]];
  }

  ghost predicate Indexed(byNode: map<string, seq<Link>>, pairs: seq<Pair>)
  {
    forall n :: (n in byNode ==> byNode[n] == Arrivals(pairs, n)) && (n !in byNode ==> Arrivals(pairs, n) == [])
  }

  method Index(pairs: seq<Pair>) returns (byNode: map<string, seq<Link>>)
    ensures Indexed(byNode, pairs)
  {
    byNode := map[];
    for i := 0 to |pairs|
      invariant Indexed(byNode, pairs[..i])
    {
      assert pairs[..i + 1][..i] == pairs[..i];
      ghost var was := byNode;
      byNode := Add(byNode, pairs[i].a, Link(pairs[i].b, pairs[i].sim));
      byNode := Add(byNode, pairs[i].b, Link(pairs[i].a, pairs[i].sim));
      IndexStep(was, pairs[..i + 1], byNode);
    }
    assert pairs[..|pairs|] == pairs;
  }

  lemma IndexStep(was: map<string, seq<Link>>, pairs: seq<Pair>, now: map<string, seq<Link>>)
    requires pairs != [] && Indexed(was, pairs[..|pairs| - 1])
    requires var p := pairs[|pairs| - 1];
      var half := was[p.a := (if p.a in was then was[p.a] else []) + [Link(p.b, p.sim)]];
      now == half[p.b := (if p.b in half then half[p.b] else []) + [Link(p.a, p.sim)]]
    ensures Indexed(now, pairs)
  {
    var p := pairs[|pairs| - 1];
    forall n
      ensures n in now ==> now[n] == Arrivals(pairs, n)
      ensures n !in now ==> Arrivals(pairs, n) == []
    {
      var before := Arrivals(pairs[..|pairs| - 1], n);
      assert n in was ==> was[n] == before;
      assert before + [] + [] == before;
    }
  }

  /** The neighbours a node keeps: the first k of its sorted list. */
  ghost function KeptBy(pairs: seq<Pair>, n: string, k: nat): set<string>
  {
    set l | l in First(k, Sort(Arrivals(pairs, n), StrongerOrSame)) :: l.other
  }

  ghost predicate TopOfEach(topk: map<string, set<string>>, pairs: seq<Pair>, k: nat)
  {
    && (forall n :: n in topk ==> topk[n] == KeptBy(pairs, n, k))
    && (forall n :: n !in topk ==> Arrivals(pairs, n) == [])
  }

  method OthersOf(links: seq<Link>) returns (keep: set<string>)
    ensures keep == set l | l in links :: l.other
  {
    keep := {};
    for i := 0 to |links|
      invariant keep == set l | l in links[..i] :: l.other
    {
      assert links[..i + 1] == links[..i] + [links[i]];
      keep := keep + {links[i].other};
    }
    assert links[..|links|] == links;
  }

  method CapEach(byNode: map<string, seq<Link>>, k: nat, ghost pairs: seq<Pair>) returns (topk: map<string, set<string>>)
    requires Indexed(byNode, pairs)
    ensures TopOfEach(topk, pairs, k)
  {
    topk := map[];
    var left := byNode.Keys;
    while left != {}
      invariant left <= byNode.Keys && topk.Keys == byNode.Keys - left
      invariant forall n :: n in topk ==> topk[n] == KeptBy(pairs, n, k)
    {
      var n :| n in left;
      var arr := Sort(byNode[n], StrongerOrSame);
      var keep := OthersOf(First(k, arr));
      topk := topk[n := keep];
      left := left - {n};
    }
  }

  predicate Keeps(topk: map<string, set<string>>, n: string, other: string)
  {
    n in topk && other in topk[n]
  }

  method Cap(pairs: seq<Pair>, k: int) returns (r: seq<Pair>)
    requires Simple(pairs)
    ensures r == Survivors(pairs, Elements(pairs), k)
    ensures Elements(r) == Kept(Elements(pairs), k)
  {
    if k <= 0 {
      NoCapKeepsAll(pairs, Elements(pairs), k);
      r := pairs;
    } else {
      var byNode := Index(pairs);
      var topk := CapEach(byNode, k, pairs);
      r := KeepMutual(pairs, k, topk);
    }
    SurvivorsMeaning(pairs, Elements(pairs), k);
  }

  method KeepMutual(pairs: seq<Pair>, k: nat, topk: map<string, set<string>>) returns (r: seq<Pair>)
    requires Simple(pairs) && k > 0 && TopOfEach(topk, pairs, k)
    ensures r == Survivors(pairs, Elements(pairs), k)
  {
    r := [];
    for i := 0 to |pairs|
      invariant r == Survivors(pairs[..i], Elements(pairs), k)
    {
      var p := pairs[i];
      assert pairs[..i + 1][..i] == pairs[..i];
      var both := Keeps(topk, p.a, p.b) && Keeps(topk, p.b, p.a);
      KeptMeansMutual(topk, pairs, i, k);
      if both { r := r + [p]; }
    }
    assert pairs[..|pairs|] == pairs;
  }

  lemma {:induction false} NoCapKeepsAll(some: seq<Pair>, all: set<Pair>, k: int)
    requires k <= 0 && Elements(some) <= all
    ensures Survivors(some, all, k) == some
  {
    if some != [] {
      assert some == some[..|some| - 1] + [some[|some| - 1]];
      NoCapKeepsAll(some[..|some| - 1], all, k);
    }
  }

  lemma {:induction false} SurvivorsMeaning(some: seq<Pair>, all: set<Pair>, k: int)
    ensures forall p :: p in Survivors(some, all, k) <==> p in some && p in Kept(all, k)
  {
    if some != [] {
      SurvivorsMeaning(some[..|some| - 1], all, k);
      assert some == some[..|some| - 1] + [some[|some| - 1]];
    }
  }

  lemma LinksOneMore(front: seq<Pair>, p: Pair, n: string, l: Link)
    ensures l in LinksOf(Elements(front + [p]), n) <==>
      l in LinksOf(Elements(front), n) || (p.a == n && l == Link(p.b, p.sim)) || (p.b == n && l == Link(p.a, p.sim))
  {
    assert Elements(front + [p]) == Elements(front) + {p};
  }

  lemma {:induction false} ArrivalIsLink(pairs: seq<Pair>, n: string, l: Link)
    ensures l in Arrivals(pairs, n) <==> l in LinksOf(Elements(pairs), n)
  {
    if pairs != [] {
      var front, p := pairs[..|pairs| - 1], pairs[|pairs| - 1];
      ArrivalIsLink(front, n, l);
      LinksOneMore(front, p, n, l);
      assert pairs == front + [p];
    }
  }

  lemma ArrivalsAreLinks(pairs: seq<Pair>, n: string)
    ensures forall l :: l in Arrivals(pairs, n) <==> l in LinksOf(Elements(pairs), n)
  {
    forall l ensures l in Arrivals(pairs, n) <==> l in LinksOf(Elements(pairs), n) { ArrivalIsLink(pairs, n, l); }
  }

  ghost predicate OthersDistinct(s: seq<Link>)
  {
    forall i, j :: 0 <= i < j < |s| ==> s[i].other != s[j].other
  }

  lemma {:induction false} ArrivalsDistinct(pairs: seq<Pair>, n: string)
    requires Simple(pairs)
    ensures OthersDistinct(Arrivals(pairs, n))
  {
    if pairs != [] {
      var front, p := pairs[..|pairs| - 1], pairs[|pairs| - 1];
      ArrivalsDistinct(front, n);
      forall l | l in Arrivals(front, n)
        ensures p.a == n ==> l.other != p.b
        ensures p.b == n ==> l.other != p.a
      {
        LastIsNew(pairs, n, l);
      }
    }
  }

  lemma LastIsNew(pairs: seq<Pair>, n: string, l: Link)
    requires Simple(pairs) && pairs != [] && l in Arrivals(pairs[..|pairs| - 1], n)
    ensures pairs[|pairs| - 1].a == n ==> l.other != pairs[|pairs| - 1].b
    ensures pairs[|pairs| - 1].b == n ==> l.other != pairs[|pairs| - 1].a
  {
    var front := pairs[..|pairs| - 1];
    ArrivalsAreLinks(front, n);
    var i :| 0 <= i < |front| && ((front[i].a == n && front[i].b == l.other) || (front[i].b == n && front[i].a == l.other));
    assert pairs[i] == front[i];
  }

  /** Sorting and cutting every node's list keeps exactly the pairs whose ends rank each other high enough. */
  lemma KeptMeansMutual(topk: map<string, set<string>>, pairs: seq<Pair>, at: nat, k: nat)
    requires Simple(pairs) && at < |pairs| && TopOfEach(topk, pairs, k)
    ensures var p := pairs[at];
      Keeps(topk, p.a, p.b) && Keeps(topk, p.b, p.a) <==> Mutual(Elements(pairs), p, k)
  {
    var p := pairs[at];
    KeptIffRanked(topk, pairs, p.a, Link(p.b, p.sim), k);
    KeptIffRanked(topk, pairs, p.b, Link(p.a, p.sim), k);
  }

  lemma SortedLinks(pairs: seq<Pair>, n: string) returns (arr: seq<Link>)
    requires Simple(pairs)
    ensures arr == Sort(Arrivals(pairs, n), StrongerOrSame)
    ensures Elements(arr) == LinksOf(Elements(pairs), n) && Sorted(arr, Stronger)
  {
    ArrivalsAreLinks(pairs, n);
    ArrivalsDistinct(pairs, n);
    StrongerIsStrictTotal();
    arr := Sort(Arrivals(pairs, n), StrongerOrSame);
    SortSorted(Arrivals(pairs, n), StrongerOrSame);
    SortPermutes(Arrivals(pairs, n), StrongerOrSame);
    SameMultisetDistinct(Arrivals(pairs, n), arr);
  }

  lemma {:induction false} SameMultisetDistinct<T(!new)>(s: seq<T>, t: seq<T>)
    requires multiset(s) == multiset(t)
    requires forall i, j :: 0 <= i < j < |s| ==> s[i] != s[j]
    ensures forall i, j :: 0 <= i < j < |t| ==> t[i] != t[j]
  {
    forall i, j | 0 <= i < j < |t| ensures t[i] != t[j] {
      if t[i] == t[j] {
        var x := t[i];
        assert t == t[..i] + [x] + t[i + 1..j] + [x] + t[j + 1..];
        assert multiset(t)[x] >= 2;
        OnceAtMost(s, x);
      }
    }
  }

  lemma KeptIffRanked(topk: map<string, set<string>>, pairs: seq<Pair>, n: string, link: Link, k: nat)
    requires Simple(pairs) && link in LinksOf(Elements(pairs), n) && TopOfEach(topk, pairs, k)
    ensures Keeps(topk, n, link.other) <==> AmongBest(Elements(pairs), n, link, k)
  {
    var arr := SortedLinks(pairs, n);
    ArrivalsAreLinks(pairs, n);
    var i :| 0 <= i < |arr| && arr[i] == link;
    StrongerIsStrictTotal();
    RankIsPosition(arr, i, Stronger);
    var top := First(k, arr);
    if i < k {
      assert top[i] == link;
    } else if link.other in KeptBy(pairs, n, k) {
      var l :| l in top && l.other == link.other;
      OneLinkEach(pairs, n, l, link);
    }
  }

  lemma OneLinkEach(pairs: seq<Pair>, n: string, l: Link, m: Link)
    requires Simple(pairs) && l in LinksOf(Elements(pairs), n) && m in LinksOf(Elements(pairs), n) && l.other == m.other
    ensures l == m
  {
    ArrivalsAreLinks(pairs, n);
    ArrivalsDistinct(pairs, n);
    var arr := Arrivals(pairs, n);
    var i :| 0 <= i < |arr| && arr[i] == l;
    var j :| 0 <= j < |arr| && arr[j] == m;
  }

  // ---- what the cap promises ------------------------------------------------------

  lemma DegreeAtMostK(all: set<Pair>, k: int, n: string)
    requires k >= 1
    ensures |LinksOf(Kept(all, k), n)| <= k
  {
    StrongerIsStrictTotal();
    FewInTopK(LinksOf(all, n), k, Stronger);
    Subset(LinksOf(Kept(all, k), n), set l | l in LinksOf(all, n) && |Ahead(LinksOf(all, n), l, Stronger)| < k);
  }

  /** The same candidates in another order: the same survivors. */
  lemma CapIgnoresOrder(pairs: seq<Pair>, again: seq<Pair>, k: int)
    requires multiset(pairs) == multiset(again)
    ensures Elements(Survivors(pairs, Elements(pairs), k)) == Elements(Survivors(again, Elements(again), k))
  {
    assert Elements(pairs) == Elements(again) by {
      assert forall p :: p in pairs <==> p in multiset(pairs);
      assert forall p :: p in again <==> p in multiset(again);
    }
    SurvivorsMeaning(pairs, Elements(pairs), k);
    SurvivorsMeaning(again, Elements(again), k);
  }

  /** A node with at most k candidate neighbours, all of whose neighbours are as sparse, loses none. */
  lemma SparseIsUntouched(all: set<Pair>, k: int, p: Pair)
    requires p in all && |LinksOf(all, p.a)| <= k && |LinksOf(all, p.b)| <= k
    ensures p in Kept(all, k)
  {
    AheadIsSmaller(LinksOf(all, p.a), Link(p.b, p.sim));
    AheadIsSmaller(LinksOf(all, p.b), Link(p.a, p.sim));
  }

  /** More room never drops a pair; no room (k <= 0) drops none at all. */
  lemma CapIsMonotone(all: set<Pair>, k: int, more: int)
    requires 1 <= k <= more
    ensures Kept(all, k) <= Kept(all, more) <= Kept(all, 0) == all
  {
  }

  /** Capping what is capped changes nothing. */
  lemma CapIsIdempotent(all: set<Pair>, k: int)
    ensures Kept(Kept(all, k), k) == Kept(all, k)
  {
    if k >= 1 {
      forall p | p in Kept(all, k) ensures p in Kept(Kept(all, k), k) {
        DegreeAtMostK(all, k, p.a);
        DegreeAtMostK(all, k, p.b);
        SparseIsUntouched(Kept(all, k), k, p);
      }
    }
  }

  lemma AheadIsSmaller(among: set<Link>, l: Link)
    requires l in among
    ensures |Ahead(among, l, Stronger)| < |among|
  {
    StrongerIsStrictTotal();
    Subset(Ahead(among, l, Stronger), among - {l});
  }
}
