/** src/embed/neighbours.ts: nearest neighbours kept in a short sorted list while scanning. */
module Neighbours {
  import opened Ordering
  import opened Sorting

  datatype Kind = Identity | StyleCentroid

  datatype VectorRow<V> = VectorRow(nodeId: string, kind: Kind, vec: V)

  datatype Neighbour = Neighbour(nodeId: string, similarity: real)

  datatype Prefixes = AnyType | OneOf(prefixes: seq<string>)

  datatype Options = Options(k: int, candidateKind: Kind, types: Prefixes, exclude: set<string>, minSimilarity: real)

  /** `top[top.length - 1]!.similarity` on an empty list is a TypeError. */
  datatype Outcome = Found(top: seq<Neighbour>) | TypeError

  predicate Wanted<V>(row: VectorRow<V>, opts: Options)
  {
    && row.kind == opts.candidateKind
    && row.nodeId !in opts.exclude
    && (opts.types.AnyType? || exists p :: p in opts.types.prefixes && p <= row.nodeId)
  }

  /** The rows that pass every filter, scored, in scan order. */
  function Candidates<V>(rows: seq<VectorRow<V>>, query: V, cosine: (V, V) -> real, opts: Options): seq<Neighbour>
  {
    if rows == [] then []
    else
      var last := rows[|rows| - 1];
      var s := cosine(query, last.vec);
      Candidates(rows[..|rows| - 1], query, cosine, opts)
      + if Wanted(last, opts) && s >= opts.minSimilarity then [Neighbour(last.nodeId, s)] else []
  }

  predicate NotFarther(a: Neighbour, b: Neighbour)
  {
    a.similarity >= b.similarity
  }

  /** What a scan with room for k must end with: the head of a stable descending sort. */
  function Best(k: nat, candidates: seq<Neighbour>): seq<Neighbour>
  {
    First(k, Sort(candidates, NotFarther))
  }

  lemma CandidatesStep<V>(rows: seq<VectorRow<V>>, i: nat, query: V, cosine: (V, V) -> real, opts: Options)
    requires i < |rows|
    ensures var seen, s := Candidates(rows[..i], query, cosine, opts), cosine(query, rows[i].vec);
      Candidates(rows[..i + 1], query, cosine, opts)
      == if Wanted(rows[i], opts) && s >= opts.minSimilarity then seen + [Neighbour(rows[i].nodeId, s)] else seen
  {
    assert rows[..i + 1][..i] == rows[..i];
  }

  /** The list after one candidate: room, a worse last to drop, or no change. */
  function Kept(k: nat, top: seq<Neighbour>, n: Neighbour): seq<Neighbour>
    requires k >= 1 && |top| <= k
  {
    if |top| < k then Sort(top + [n], NotFarther)
    else if n.similarity > top[k - 1].similarity then Sort(top[..k - 1] + [n], NotFarther)
    else top
  }

  /** push and re-sort, or pop the last, push and re-sort; false for the TypeError. */
  method Offer(top: seq<Neighbour>, k: int, n: Neighbour) returns (ok: bool, now: seq<Neighbour>)
    requires k >= 1 ==> |top| <= k
    requires k < 1 ==> top == []
    ensures k >= 1 ==> ok && now == Kept(k, top, n)
    ensures k < 1 ==> !ok
  {
    ok, now := true, top;
    if |top| < k {
      now := Sort(top + [n], NotFarther);
    } else if |top| == 0 {
      ok := false;
    } else if n.similarity > top[|top| - 1].similarity {
      now := Sort(top[..|top| - 1] + [n], NotFarther);
    }
  }

  /** The best of the candidates; with room for none, the first candidate is an error. */
  function Scanned<V>(rows: seq<VectorRow<V>>, query: V, cosine: (V, V) -> real, opts: Options): Outcome
  {
    var candidates := Candidates(rows, query, cosine, opts);
    if opts.k >= 1 then Found(Best(opts.k, candidates)) else if candidates == [] then Found([]) else TypeError
  }

  function Without(opts: Options, nodeId: string): Options
  {
    opts.(exclude := opts.exclude + {nodeId})
  }

  method TopKByVector<V>(rows: seq<VectorRow<V>>, query: V, cosine: (V, V) -> real, opts: Options) returns (r: Outcome)
    ensures r == Scanned(rows, query, cosine, opts)
  {
    var top: seq<Neighbour> := [];
    for i := 0 to |rows|
      invariant opts.k >= 1 ==> |top| <= opts.k && top == Best(opts.k, Candidates(rows[..i], query, cosine, opts))
      invariant opts.k < 1 ==> top == [] && Candidates(rows[..i], query, cosine, opts) == []
    {
      var row := rows[i];
      CandidatesStep(rows, i, query, cosine, opts);
      if !Wanted(row, opts) { continue; }
      var s := cosine(query, row.vec);
      if s < opts.minSimilarity { continue; }
      if opts.k >= 1 { BestStep(opts.k, Candidates(rows[..i], query, cosine, opts), Neighbour(row.nodeId, s)); }
      var ok, now := Offer(top, opts.k, Neighbour(row.nodeId, s));
      if !ok {
        CandidatesPrefix(rows, i + 1, query, cosine, opts);
        return TypeError;
      }
      top := now;
    }
    assert rows[..|rows|] == rows;
    r := Found(top);
  }

  /** Where the node's own vector is, or the number of rows. */
  function OwnRow<V>(rows: seq<VectorRow<V>>, nodeId: string, queryKind: Kind): (i: nat)
    ensures i <= |rows| && (i < |rows| ==> rows[i].kind == queryKind && rows[i].nodeId == nodeId)
    ensures forall j :: 0 <= j < i ==> !(rows[j].kind == queryKind && rows[j].nodeId == nodeId)
  {
    if rows == [] || (rows[0].kind == queryKind && rows[0].nodeId == nodeId) then 0 else 1 + OwnRow(rows[1..], nodeId, queryKind)
  }

  /** The best among the other nodes, itself left out; a node without a query vector has no neighbours. */
  method TopKByNodeId<V>(rows: seq<VectorRow<V>>, nodeId: string, queryKind: Kind, cosine: (V, V) -> real, opts: Options)
    returns (r: Outcome)
    ensures var i := OwnRow(rows, nodeId, queryKind);
      r == if i == |rows| then Found([]) else Scanned(rows, rows[i].vec, cosine, Without(opts, nodeId))
    ensures r.Found? ==> forall n :: n in r.top ==>
      n.nodeId != nodeId && n.nodeId !in opts.exclude && n.similarity >= opts.minSimilarity
    ensures opts.k >= 1 ==> r.Found? && |r.top| <= opts.k
  {
    for i := 0 to |rows|
      invariant forall j :: 0 <= j < i ==> !(rows[j].kind == queryKind && rows[j].nodeId == nodeId)
    {
      if rows[i].kind == queryKind && rows[i].nodeId == nodeId {
        assert OwnRow(rows, nodeId, queryKind) == i;
        r := TopKByVector(rows, rows[i].vec, cosine, Without(opts, nodeId));
        ScannedAreWanted(rows, rows[i].vec, cosine, Without(opts, nodeId));
        return;
      }
    }
    r := Found([]);
  }

  lemma ScannedAreWanted<V>(rows: seq<VectorRow<V>>, query: V, cosine: (V, V) -> real, opts: Options)
    ensures var r := Scanned(rows, query, cosine, opts);
      && (r.Found? ==> forall n :: n in r.top ==> n.nodeId !in opts.exclude && n.similarity >= opts.minSimilarity)
      && (opts.k >= 1 ==> r.Found? && |r.top| <= opts.k)
  {
    CandidatesAreWanted(rows, query, cosine, opts);
    SortPermutes(Candidates(rows, query, cosine, opts), NotFarther);
  }

  lemma NotFartherIsTotalPreorder()
    ensures TotalPreorder(NotFarther)
  {
  }

  lemma {:induction false} CandidatesPrefix<V>(rows: seq<VectorRow<V>>, i: nat, query: V, cosine: (V, V) -> real, opts: Options)
    requires i <= |rows|
    ensures Candidates(rows[..i], query, cosine, opts) <= Candidates(rows, query, cosine, opts)
    decreases |rows|
  {
    if i < |rows| {
      CandidatesPrefix(rows[..|rows| - 1], i, query, cosine, opts);
      assert rows[..|rows| - 1][..i] == rows[..i];
    } else {
      assert rows[..i] == rows;
    }
  }

  lemma {:induction false} CandidatesAreWanted<V>(rows: seq<VectorRow<V>>, query: V, cosine: (V, V) -> real, opts: Options)
    ensures forall n :: n in Candidates(rows, query, cosine, opts) ==>
      n.nodeId !in opts.exclude && n.similarity >= opts.minSimilarity
  {
    if rows != [] {
      CandidatesAreWanted(rows[..|rows| - 1], query, cosine, opts);
    }
  }

  /** The candidates are exactly the rows of the wanted kind and of a wanted type that are not left out and are similar enough. */
  lemma {:induction false} CandidatesMean<V>(rows: seq<VectorRow<V>>, query: V, cosine: (V, V) -> real, opts: Options, n: Neighbour)
    ensures n in Candidates(rows, query, cosine, opts)
      <==> exists i :: 0 <= i < |rows| && IsCandidate(rows[i], query, cosine, opts, n)
  {
    if rows != [] {
      var front, last := rows[..|rows| - 1], rows[|rows| - 1];
      CandidatesMean(front, query, cosine, opts, n);
      if i :| 0 <= i < |front| && IsCandidate(front[i], query, cosine, opts, n) { assert rows[i] == front[i]; }
      if i :| 0 <= i < |rows| && IsCandidate(rows[i], query, cosine, opts, n) {
        if i < |front| { assert front[i] == rows[i]; }
      }
    }
  }

  predicate IsCandidate<V>(row: VectorRow<V>, query: V, cosine: (V, V) -> real, opts: Options, n: Neighbour)
  {
    && n == Neighbour(row.nodeId, cosine(query, row.vec)) && n.similarity >= opts.minSimilarity
    && row.kind == opts.candidateKind && row.nodeId !in opts.exclude
    && (opts.types.OneOf? ==> exists p :: p in opts.types.prefixes && p <= row.nodeId)
  }

  lemma BestStep(k: nat, seen: seq<Neighbour>, n: Neighbour)
    requires k >= 1
    ensures |Best(k, seen)| <= k && |Best(k, seen + [n])| <= k
    ensures Best(k, seen + [n]) == Kept(k, Best(k, seen), n)
  {
    var top := Best(k, seen);
    assert Best(k, seen + [n])
      == if |top| < k then Sort(top + [n], NotFarther)
         else if !NotFarther(top[k - 1], n) then Sort(top[..k - 1] + [n], NotFarther)
         else top
    by {
      NotFartherIsTotalPreorder();
      SortFacts(seen, n, NotFarther);
      FirstStep(k, seen, n, NotFarther);
    }
  }

  lemma BestRanked(k: nat, candidates: seq<Neighbour>)
    ensures var top := Best(k, candidates);
      && |top| == (if |candidates| <= k then |candidates| else k)
      && Sorted(top, NotFarther)
      && multiset(top) <= multiset(candidates)
      && (forall kept, out :: kept in top && out in multiset(candidates) - multiset(top) ==> NotFarther(kept, out))
  {
    NotFartherIsTotalPreorder();
    FirstMeaning(k, candidates, NotFarther);
  }

  /** Read without sorting: min(k, n) of the candidates, best first, and none left out beats one kept. */
  lemma BestMeaning(k: nat, candidates: seq<Neighbour>, i: nat, j: nat, out: Neighbour)
    ensures |Best(k, candidates)| == (if |candidates| <= k then |candidates| else k)
    ensures multiset(Best(k, candidates)) <= multiset(candidates)
    ensures i < j < |Best(k, candidates)| ==> Best(k, candidates)[i].similarity >= Best(k, candidates)[j].similarity
    ensures i < |Best(k, candidates)| && out in multiset(candidates) - multiset(Best(k, candidates)) ==>
      Best(k, candidates)[i].similarity >= out.similarity
  {
    var top := Best(k, candidates);
    BestRanked(k, candidates);
    if i < j < |top| { assert NotFarther(top[i], top[j]); }
    if i < |top| && out in multiset(candidates) - multiset(top) { assert NotFarther(top[i], out); }
  }

  /** Among equally similar candidates, the one scanned first is kept first. */
  lemma BestIsStable(k: nat, candidates: seq<Neighbour>, tie: Neighbour)
    ensures Where(Best(k, candidates), Tied(NotFarther, tie)) <= Where(candidates, Tied(NotFarther, tie))
  {
    NotFartherIsTotalPreorder();
    FirstStable(k, candidates, NotFarther, tie);
  }
}

/** src/embed/concept-edges.ts: the k-nearest table built by replacing the current minimum. */
module NearestTable {

  datatype Scored = Scored(j: nat, s: real)

  /** The first position holding the least score. */
  function FirstLeast(top: seq<Scored>): (m: nat)
    requires top != []
    ensures m < |top| && forall t :: 0 <= t < |top| ==> top[m].s <= top[t].s
  {
    var last := |top| - 1;
    if last == 0 then 0
    else
      var m := FirstLeast(top[..last]);
      assert forall t :: 0 <= t < last ==> top[..last][t] == top[t];
      if top[last].s < top[m].s then last else m
  }

  method LeastIndex(top: seq<Scored>) returns (at: nat)
    requires top != []
    ensures at == FirstLeast(top)
  {
    at := 0;
    for t := 1 to |top|
      invariant at == FirstLeast(top[..t])
    {
      assert top[..t + 1][..t] == top[..t];
      if top[t].s < top[at].s { at := t; }
    }
    assert top[..|top|] == top;
  }

  /** One candidate: push while there is room, else replace the current minimum when it is beaten. */
  function Offered(top: seq<Scored>, bound: int, j: nat, s: real): seq<Scored>
  {
    if |top| < bound then top + [Scored(j, s)]
    else if bound >= 1 && s > top[FirstLeast(top)].s then top[FirstLeast(top) := Scored(j, s)]
    else top
  }

  /** The neighbour list of row i after scanning the first `upTo` rows. */
  function Table<V>(mat: seq<V>, dot: (V, V) -> real, i: nat, bound: int, upTo: nat): seq<Scored>
    requires i < |mat| && upTo <= |mat|
  {
    if upTo == 0 then []
    else
      var top := Table(mat, dot, i, bound, upTo - 1);
      if upTo - 1 == i then top else Offered(top, bound, upTo - 1, dot(mat[i], mat[upTo - 1]))
  }

  /** `minTop` is the least kept score once the list is full. */
  ghost predicate Tracks(top: seq<Scored>, bound: int, minTop: real)
  {
    |top| >= bound >= 1 ==> minTop == top[FirstLeast(top)].s
  }

  method Offer(top: seq<Scored>, minTop: real, bound: int, j: nat, s: real) returns (now: seq<Scored>, min: real)
    requires Tracks(top, bound, minTop)
    ensures now == Offered(top, bound, j, s) && Tracks(now, bound, min)
  {
    now, min := top, minTop;
    if |top| < bound {
      now := top + [Scored(j, s)];
      if |now| == bound {
        var l := LeastIndex(now);
        min := now[l].s;
      }
    } else if bound >= 1 && s > minTop {
      var m := LeastIndex(top);
      now := top[m := Scored(j, s)];
      var l := LeastIndex(now);
      min := now[l].s;
    }
  }

  method Nearest<V>(mat: seq<V>, dot: (V, V) -> real, i: nat, bound: int) returns (top: seq<Scored>)
    requires i < |mat|
    ensures top == Table(mat, dot, i, bound, |mat|)
  {
    top := [];
    var minTop := 0.0;  // Infinity until the list is full
    for j := 0 to |mat|
      invariant top == Table(mat, dot, i, bound, j) && Tracks(top, bound, minTop)
    {
      if j == i { continue; }
      top, minTop := Offer(top, minTop, bound, j, dot(mat[i], mat[j]));
    }
  }

  /** The entries are for other rows among the first `upTo`, with their scores. */
  ghost predicate Scores<V>(top: seq<Scored>, mat: seq<V>, dot: (V, V) -> real, i: nat, upTo: nat)
    requires i < |mat| && upTo <= |mat|
  {
    forall t :: t in top ==> t.j < upTo && t.j != i && t.s == dot(mat[i], mat[t.j])
  }

  lemma {:induction false} TableScores<V>(mat: seq<V>, dot: (V, V) -> real, i: nat, bound: int, upTo: nat)
    requires i < |mat| && upTo <= |mat|
    ensures Scores(Table(mat, dot, i, bound, upTo), mat, dot, i, upTo)
  {
    if upTo > 0 { TableScores(mat, dot, i, bound, upTo - 1); }
  }

  ghost function Kept(top: seq<Scored>): set<nat>
  {
    set t | t in top :: t.j
  }

  ghost predicate NoneTwice(top: seq<Scored>)
  {
    forall t, u :: 0 <= t < u < |top| ==> top[t].j != top[u].j
  }

  /** How many others there are among the first `upTo` rows. */
  function Others(i: nat, upTo: nat): nat
  {
    if i < upTo then upTo - 1 else upTo
  }

  function Least(a: nat, b: nat): nat
  {
    if a <= b then a else b
  }

  lemma OfferedNoneTwice(top: seq<Scored>, bound: int, j: nat, s: real, next: seq<Scored>)
    requires NoneTwice(top) && next == Offered(top, bound, j, s) && forall t :: t in top ==> t.j != j
    ensures NoneTwice(next)
  {
    assert forall t :: 0 <= t < |top| ==> top[t] in top;
  }

  lemma {:induction false} TableNoneTwice<V>(mat: seq<V>, dot: (V, V) -> real, i: nat, bound: int, upTo: nat)
    requires i < |mat| && upTo <= |mat|
    ensures NoneTwice(Table(mat, dot, i, bound, upTo))
  {
    if upTo > 0 {
      var j := upTo - 1;
      TableNoneTwice(mat, dot, i, bound, j);
      if j != i {
        assert forall t :: t in Table(mat, dot, i, bound, j) ==> t.j != j by { TableScores(mat, dot, i, bound, j); }
        OfferedNoneTwice(Table(mat, dot, i, bound, j), bound, j, dot(mat[i], mat[j]), Table(mat, dot, i, bound, upTo));
      }
    }
  }

  lemma {:induction false} TableSize<V>(mat: seq<V>, dot: (V, V) -> real, i: nat, bound: int, upTo: nat)
    requires i < |mat| && upTo <= |mat|
    ensures |Table(mat, dot, i, bound, upTo)| == Least(if bound < 0 then 0 else bound, Others(i, upTo))
  {
    if upTo > 0 { TableSize(mat, dot, i, bound, upTo - 1); }
  }

  /** A row left out means a full list, whose least score the row does not beat. */
  ghost predicate Beaten(top: seq<Scored>, bound: int, s: real)
  {
    |top| >= bound && (top != [] ==> s <= top[FirstLeast(top)].s)
  }

  lemma KeptOf(top: seq<Scored>, x: Scored, m: nat)
    ensures Kept(top + [x]) == Kept(top) + {x.j}
    ensures m < |top| ==> Kept(top) <= Kept(top[m := x]) + {top[m].j} && x.j in Kept(top[m := x])
  {
    assert forall t :: t in top + [x] <==> t in top || t == x;
    if m < |top| {
      var next := top[m := x];
      assert next[m] == x;
      forall j | j in Kept(top) && j != top[m].j ensures j in Kept(next) {
        var t :| t in top && t.j == j;
        var u :| 0 <= u < |top| && top[u] == t;
        assert next[u] == t;
      }
    }
  }

  /** Replacing the least by something better raises the least, or leaves it. */
  lemma LeastRises(top: seq<Scored>, x: Scored)
    requires top != [] && x.s > top[FirstLeast(top)].s
    ensures var next := top[FirstLeast(top) := x]; top[FirstLeast(top)].s <= next[FirstLeast(next)].s
  {
    var next := top[FirstLeast(top) := x];
    var l := FirstLeast(next);
    assert next[l] == x || next[l] == top[l];
  }

  /** One offer: whoever is left out afterwards is the newcomer, the one dropped for it, or was left out before. */
  lemma OfferLeaves(top: seq<Scored>, bound: int, j: nat, s: real, o: nat, was: real)
    requires o !in Kept(Offered(top, bound, j, s))
    requires o == j ==> was == s
    requires o != j ==> if o in Kept(top) then Scored(o, was) in top else Beaten(top, bound, was)
    requires NoneTwice(top) && (bound < 1 ==> top == [])
    ensures Beaten(Offered(top, bound, j, s), bound, was)
  {
    var x := Scored(j, s);
    if |top| < bound {
      KeptOf(top, x, 0);
    } else if bound >= 1 && s > top[FirstLeast(top)].s {
      var m := FirstLeast(top);
      KeptOf(top, x, m);
      LeastRises(top, x);
      if o in Kept(top) {
        assert o == top[m].j;
        var u :| 0 <= u < |top| && top[u] == Scored(o, was);
        assert u == m;
      }
    }
  }

  /** Of the rows left out of the table none beats a kept one; while there is room nothing is left out. */
  lemma {:induction false} LeftOutIsBeaten<V>(mat: seq<V>, dot: (V, V) -> real, i: nat, bound: int, upTo: nat, o: nat)
    requires i < |mat| && o < upTo <= |mat| && o != i && o !in Kept(Table(mat, dot, i, bound, upTo))
    ensures Beaten(Table(mat, dot, i, bound, upTo), bound, dot(mat[i], mat[o]))
  {
    var j := upTo - 1;
    var top := Table(mat, dot, i, bound, j);
    if j == i {
      LeftOutIsBeaten(mat, dot, i, bound, j, o);
    } else {
      TableSize(mat, dot, i, bound, j);
      TableNoneTwice(mat, dot, i, bound, j);
      if o != j {
        if o in Kept(top) { KeptScore(mat, dot, i, bound, j, o); } else { LeftOutIsBeaten(mat, dot, i, bound, j, o); }
      }
      OfferLeaves(top, bound, j, dot(mat[i], mat[j]), o, dot(mat[i], mat[o]));
    }
  }

  lemma KeptScore<V>(mat: seq<V>, dot: (V, V) -> real, i: nat, bound: int, upTo: nat, o: nat)
    requires i < |mat| && upTo <= |mat| && o in Kept(Table(mat, dot, i, bound, upTo))
    ensures o < upTo && Scored(o, dot(mat[i], mat[o])) in Table(mat, dot, i, bound, upTo)
  {
    TableScores(mat, dot, i, bound, upTo);
    var t :| t in Table(mat, dot, i, bound, upTo) && t.j == o;
  }

  /** Replacing the minimum keeps K other rows, or all when there are fewer, each once with its score, and none left out beats one kept. */
  lemma TableIsNearest<V>(mat: seq<V>, dot: (V, V) -> real, i: nat, bound: int)
    requires i < |mat|
    ensures var top := Table(mat, dot, i, bound, |mat|);
      && Scores(top, mat, dot, i, |mat|) && NoneTwice(top)
      && |top| == Least(if bound < 0 then 0 else bound, |mat| - 1)
      && forall t, o: nat :: t in top && o < |mat| && o != i && o !in Kept(top) ==> dot(mat[i], mat[o]) <= t.s
  {
    var top := Table(mat, dot, i, bound, |mat|);
    TableScores(mat, dot, i, bound, |mat|);
    TableSize(mat, dot, i, bound, |mat|);
    TableNoneTwice(mat, dot, i, bound, |mat|);
    forall t, o: nat | t in top && o < |mat| && o != i && o !in Kept(top) ensures dot(mat[i], mat[o]) <= t.s {
      LeftOutIsBeaten(mat, dot, i, bound, |mat|, o);
      var u :| 0 <= u < |top| && top[u] == t;
    }
  }
}
