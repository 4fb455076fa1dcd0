/** src/embed/islands.ts: relabelling clusters so that island ids keep their meaning from run to run. */
module Islands {
  import opened Finite
  import opened Optional

  /** A cosine; a damaged stored centroid makes it NaN, which no comparison exceeds. */
  datatype Sim = NotANumber | Num(value: real)

  // ---- counting ---------------------------------------------------------------------

  ghost function Below(k: nat): (r: set<int>)
    ensures forall i :: i in r <==> 0 <= i < k
  {
    if k == 0 then {} else Below(k - 1) + {k - 1}
  }

  lemma {:induction false} BelowSize(k: nat)
    ensures |Below(k)| == k
  {
    if k > 0 { BelowSize(k - 1); }
  }

  // ---- the permutation ------------------------------------------------------------------

  const UNMATCHED := -1

  ghost function Filled(perm: seq<int>): set<int>
  {
    set j | 0 <= j < |perm| && perm[j] != UNMATCHED
  }

  ghost function Used(perm: seq<int>): set<int>
  {
    set id | 0 <= id < |perm| && id in perm
  }

  /** Ids given so far are in range and given once. */
  ghost predicate Partial(perm: seq<int>)
  {
    && (forall j :: 0 <= j < |perm| ==> perm[j] == UNMATCHED || 0 <= perm[j] < |perm|)
    && (forall i, j :: 0 <= i < j < |perm| && perm[i] != UNMATCHED ==> perm[i] != perm[j])
    && |Used(perm)| == |Filled(perm)|
  }

  ghost predicate Bijection(perm: seq<int>)
  {
    && (forall j :: 0 <= j < |perm| ==> 0 <= perm[j] < |perm|)
    && (forall i, j :: 0 <= i < j < |perm| ==> perm[i] != perm[j])
    && (forall id :: 0 <= id < |perm| ==> id in perm)
  }

  lemma GivenFills(perm: seq<int>, j: nat, id: nat)
    requires j < |perm|
    ensures Filled(perm[j := id]) == Filled(perm) + {j}
  {
  }

  lemma GivenUses(perm: seq<int>, j: nat, id: nat)
    requires j < |perm| && perm[j] == UNMATCHED && id < |perm|
    ensures Used(perm[j := id]) == Used(perm) + {id}
  {
    var next := perm[j := id];
    forall x | x in Used(perm) ensures x in Used(next) {
      var i :| 0 <= i < |perm| && perm[i] == x;
      assert next[i] == x;
    }
    assert next[j] == id;
    forall x | x in Used(next) ensures x in Used(perm) + {id} {
      var i :| 0 <= i < |next| && next[i] == x;
    }
  }

  lemma GiveId(perm: seq<int>, j: nat, id: nat)
    requires Partial(perm) && j < |perm| && perm[j] == UNMATCHED && id < |perm| && id !in perm
    ensures Partial(perm[j := id]) && |Filled(perm[j := id])| == |Filled(perm)| + 1
  {
    GivenFills(perm, j, id);
    GivenUses(perm, j, id);
    assert j !in Filled(perm) && id !in Used(perm);
    assert forall i :: 0 <= i < |perm| ==> perm[i] != id;
  }

  /** While a centroid has no id, some id is free. */
  lemma SomeUnused(perm: seq<int>, j: nat) returns (id: nat)
    requires Partial(perm) && j < |perm| && perm[j] == UNMATCHED
    ensures id < |perm| && id !in perm
  {
    BelowSize(|perm|);
    assert Filled(perm) <= Below(|perm|) - {j};
    Subset(Filled(perm), Below(|perm|) - {j});
    Subset(Used(perm), Below(|perm|));
    assert Used(perm) != Below(|perm|);
    id :| id in Below(|perm|) && id !in Used(perm);
  }

  lemma AllGiven(perm: seq<int>)
    requires Partial(perm) && forall j :: 0 <= j < |perm| ==> perm[j] != UNMATCHED
    ensures Bijection(perm)
  {
    BelowSize(|perm|);
    assert Filled(perm) == Below(|perm|);
    Subset(Used(perm), Below(|perm|));
    forall id | 0 <= id < |perm| ensures id in perm { assert id in Used(perm); }
  }

  // ---- greedy matching ------------------------------------------------------------------------

  /** No centroid still free when `id` chose is closer to the old one than j, nor as close and before j. */
  ghost predicate Chosen<V>(prev: seq<V>, next: seq<V>, sim: (V, V) -> Sim, perm: seq<int>, id: nat, j: nat)
    requires id < |prev| && j < |next| == |perm|
  {
    && sim(prev[id], next[j]).Num?
    && forall i :: 0 <= i < |next| && (perm[i] == UNMATCHED || perm[i] >= id) && sim(prev[id], next[i]).Num? ==>
      (sim(prev[id], next[i]).value < sim(prev[id], next[j]).value || (sim(prev[id], next[i]) == sim(prev[id], next[j]) && j <= i))
  }

  ghost predicate Greedy<V>(prev: seq<V>, next: seq<V>, sim: (V, V) -> Sim, perm: seq<int>)
    requires |prev| == |next| == |perm|
  {
    forall j :: 0 <= j < |perm| && 0 <= perm[j] < |prev| ==> Chosen(prev, next, sim, perm, perm[j], j)
  }

  ghost predicate AllNumbers<V>(prev: seq<V>, next: seq<V>, sim: (V, V) -> Sim)
  {
    forall i, j :: 0 <= i < |prev| && 0 <= j < |next| ==> sim(prev[i], next[j]).Num?
  }

  /** The closest free new centroid, the first of equals, or -1. */
  method Closest<V>(from: V, next: seq<V>, used: array<bool>, sim: (V, V) -> Sim) returns (best: int)
    requires used.Length == |next|
    ensures -1 <= best < |next|
    ensures best >= 0 ==> !used[best] && sim(from, next[best]).Num?
    ensures best >= 0 ==> forall i :: 0 <= i < |next| && !used[i] && sim(from, next[i]).Num? ==>
      (sim(from, next[i]).value < sim(from, next[best]).value || (sim(from, next[i]) == sim(from, next[best]) && best <= i))
    ensures best < 0 ==> forall i :: 0 <= i < |next| && !used[i] ==> sim(from, next[i]).NotANumber?
  {
    best := -1;
    var bestSim: Option<real> := None;
    for j := 0 to |next|
      invariant -1 <= best < j && (best >= 0 <==> bestSim.Some?)
      invariant best >= 0 ==> !used[best] && sim(from, next[best]) == Num(bestSim.value)
      invariant best >= 0 ==> forall i :: 0 <= i < j && !used[i] && sim(from, next[i]).Num? ==>
        (sim(from, next[i]).value < bestSim.value || (sim(from, next[i]).value == bestSim.value && best <= i))
      invariant best < 0 ==> forall i :: 0 <= i < j && !used[i] ==> sim(from, next[i]).NotANumber?
    {
      if used[j] { continue; }
      var s := sim(from, next[j]);
      if s.Num? && (bestSim.None? || s.value > bestSim.value) {
        bestSim := Some(s.value);
        best := j;
      }
    }
  }

  /** Where the matching stands when the first `done` old centroids have chosen. */
  ghost predicate Matching<V>(prev: seq<V>, next: seq<V>, sim: (V, V) -> Sim, perm: seq<int>, used: seq<bool>, done: nat)
  {
    && |perm| == |used| == |prev| == |next| && done <= |prev| && Partial(perm)
    && (forall j :: 0 <= j < |perm| ==> (used[j] <==> perm[j] != UNMATCHED) && perm[j] < done)
    && Greedy(prev, next, sim, perm)
    && (AllNumbers(prev, next, sim) ==> |Filled(perm)| == done)
  }

  /** What the choice of `id` left out: nothing free beats or precedes it. */
  ghost predicate BestOf<V>(from: V, next: seq<V>, used: seq<bool>, sim: (V, V) -> Sim, best: nat)
    requires best < |next| == |used|
  {
    && sim(from, next[best]).Num?
    && forall i :: 0 <= i < |next| && !used[i] && sim(from, next[i]).Num? ==>
      (sim(from, next[i]).value < sim(from, next[best]).value || (sim(from, next[i]) == sim(from, next[best]) && best <= i))
  }

  lemma MatchKeepsGreedy<V>(prev: seq<V>, next: seq<V>, sim: (V, V) -> Sim, perm: seq<int>, used: seq<bool>, done: nat, best: nat)
    requires Matching(prev, next, sim, perm, used, done) && done < |prev|
    requires best < |next| && !used[best] && BestOf(prev[done], next, used, sim, best)
    ensures Greedy(prev, next, sim, perm[best := done])
  {
    var given := perm[best := done];
    forall j | 0 <= j < |given| && 0 <= given[j] < |prev| ensures Chosen(prev, next, sim, given, given[j], j) {
      if j != best { assert Chosen(prev, next, sim, perm, perm[j], j); }
    }
  }

  lemma MatchOne<V>(prev: seq<V>, next: seq<V>, sim: (V, V) -> Sim, perm: seq<int>, used: seq<bool>, done: nat, best: nat)
    requires Matching(prev, next, sim, perm, used, done) && done < |prev|
    requires best < |next| && !used[best] && BestOf(prev[done], next, used, sim, best)
    ensures Matching(prev, next, sim, perm[best := done], used[best := true], done + 1)
  {
    MatchKeepsGreedy(prev, next, sim, perm, used, done, best);
    assert done !in perm;
    GiveId(perm, best, done);
  }

  lemma AllFilled(perm: seq<int>)
    requires forall j :: 0 <= j < |perm| ==> perm[j] != UNMATCHED
    ensures |Filled(perm)| == |perm|
  {
    BelowSize(|perm|);
    assert Filled(perm) == Below(|perm|);
  }

  lemma MatchNone<V>(prev: seq<V>, next: seq<V>, sim: (V, V) -> Sim, perm: seq<int>, used: seq<bool>, done: nat)
    requires Matching(prev, next, sim, perm, used, done) && done < |prev|
    requires forall i :: 0 <= i < |next| && !used[i] ==> sim(prev[done], next[i]).NotANumber?
    ensures Matching(prev, next, sim, perm, used, done + 1)
  {
    if AllNumbers(prev, next, sim) {
      forall i | 0 <= i < |next| ensures used[i] { assert sim(prev[done], next[i]).Num?; }
      AllFilled(perm);
    }
  }

  // ---- the relabelling ---------------------------------------------------------------------------

  /** One old centroid chooses. */
  method MatchNext<V>(prev: seq<V>, next: seq<V>, sim: (V, V) -> Sim, perm: array<int>, used: array<bool>, prevId: nat)
    requires used.Length == perm.Length == |next| && prevId < |prev|
    requires Matching(prev, next, sim, perm[..], used[..], prevId)
    modifies perm, used
    ensures Matching(prev, next, sim, perm[..], used[..], prevId + 1)
  {
    var best := Closest(prev[prevId], next, used, sim);
    if best >= 0 {
      MatchOne(prev, next, sim, perm[..], used[..], prevId, best);
      ghost var wasUsed, wasPerm := used[..], perm[..];
      used[best] := true;
      perm[best] := prevId;
      assert used[..] == wasUsed[best := true];
      assert perm[..] == wasPerm[best := prevId];
    } else {
      MatchNone(prev, next, sim, perm[..], used[..], prevId);
    }
  }

  lemma NothingMatched<V>(prev: seq<V>, next: seq<V>, sim: (V, V) -> Sim, perm: seq<int>, used: seq<bool>)
    requires |prev| == |next| == |perm| == |used|
    requires forall j :: 0 <= j < |perm| ==> perm[j] == UNMATCHED && !used[j]
    ensures Matching(prev, next, sim, perm, used, 0)
  {
    assert Used(perm) == {} && Filled(perm) == {};
  }

  /** stablePermutation: perm[j] is the island id of new centroid j. */
  method StablePermutation<V>(next: seq<V>, prev: Option<seq<V>>, sim: (V, V) -> Sim) returns (result: seq<int>)
    ensures |result| == |next| && Bijection(result)
    ensures prev.None? || |prev.value| != |next| ==> result == Identity(|next|)
    ensures prev.Some? && |prev.value| == |next| && AllNumbers(prev.value, next, sim) ==> Greedy(prev.value, next, sim, result)
  {
    var k := |next|;
    if prev.None? || |prev.value| != k {
      IdentityIsBijection(k);
      return Identity(k);
    }
    var used := new bool[k](i => false);
    var perm := new int[k](i => UNMATCHED);
    NothingMatched(prev.value, next, sim, perm[..], used[..]);
    for prevId := 0 to k
      invariant fresh(used) && fresh(perm) && used.Length == perm.Length == k
      invariant Matching(prev.value, next, sim, perm[..], used[..], prevId)
    {
      MatchNext(prev.value, next, sim, perm, used, prevId);
    }
    Fill(perm, AllNumbers(prev.value, next, sim));
    result := perm[..];
  }

  function Identity(k: nat): seq<int>
  {
    seq(k, i => i)
  }

  lemma IdentityIsBijection(k: nat)
    ensures Bijection(Identity(k))
  {
    forall id | 0 <= id < k ensures id in Identity(k) { assert Identity(k)[id] == id; }
  }

  /** New centroids nothing chose get the ids left over, in order. */
  method Fill(perm: array<int>, ghost full: bool)
    requires Partial(perm[..]) && (full ==> |Filled(perm[..])| == perm.Length)
    modifies perm
    ensures Bijection(perm[..]) && (full ==> perm[..] == old(perm[..]))
  {
    var k := perm.Length;
    var free := 0;
    if full { FullIsFilled(perm[..]); }
    for j := 0 to k
      invariant Partial(perm[..]) && 0 <= free <= k && forall id :: 0 <= id < free ==> id in perm[..]
      invariant forall i :: 0 <= i < j ==> perm[i] != UNMATCHED
      invariant full ==> perm[..] == old(perm[..]) && forall i :: 0 <= i < k ==> perm[i] != UNMATCHED
    {
      if perm[j] == UNMATCHED {
        ghost var unused := SomeUnused(perm[..], j);
        while free in perm[..]
          invariant 0 <= free <= k && forall id :: 0 <= id < free ==> id in perm[..]
          decreases k - free
        {
          free := free + 1;
        }
        assert free <= unused;
        GiveId(perm[..], j, free);
        ghost var was := perm[..];
        perm[j] := free;
        assert perm[..] == was[j := free];
        assert perm[..][j] == free;
        forall id | 0 <= id < free ensures id in perm[..] {
          assert id in was;
          var i :| 0 <= i < k && was[i] == id;
          assert perm[..][i] == id;
        }
        free := free + 1;
      }
    }
    AllGiven(perm[..]);
  }

  lemma FullIsFilled(perm: seq<int>)
    requires |Filled(perm)| == |perm|
    ensures forall i :: 0 <= i < |perm| ==> perm[i] != UNMATCHED
  {
    BelowSize(|perm|);
    Subset(Filled(perm), Below(|perm|));
    forall i | 0 <= i < |perm| ensures perm[i] != UNMATCHED { assert i in Below(|perm|); }
  }

  // ---- ids keep their meaning --------------------------------------------------------------------

  /** Each old centroid is strictly closer to itself than to any other. */
  ghost predicate TellsApart<V>(prev: seq<V>, sim: (V, V) -> Sim)
  {
    forall a, b :: 0 <= a < |prev| && 0 <= b < |prev| ==>
      sim(prev[a], prev[a]).Num? && sim(prev[a], prev[b]).Num? && (a != b ==> sim(prev[a], prev[b]).value < sim(prev[a], prev[a]).value)
  }

  /** The new centroids are the old ones in another order: the j-th is the old `at[j]`. */
  ghost predicate Reordered<V>(prev: seq<V>, next: seq<V>, at: seq<int>)
  {
    |prev| == |next| == |at| && Bijection(at) && forall j :: 0 <= j < |next| ==> next[j] == prev[at[j]]
  }

  lemma {:induction false} OwnId<V>(prev: seq<V>, next: seq<V>, sim: (V, V) -> Sim, at: seq<int>, perm: seq<int>, j: nat)
    requires Reordered(prev, next, at) && TellsApart(prev, sim)
    requires |perm| == |next| && Bijection(perm) && Greedy(prev, next, sim, perm)
    requires j < |perm|
    ensures at[j] == perm[j]
    decreases perm[j]
  {
    var a := perm[j];
    assert a in at;
    var i :| 0 <= i < |at| && at[i] == a;
    assert Chosen(prev, next, sim, perm, a, j);
    if perm[i] < a { OwnId(prev, next, sim, at, perm, i); }
  }

  /** A mere reordering of the old centroids changes no island's id. */
  lemma ReorderingKeepsIds<V>(prev: seq<V>, next: seq<V>, sim: (V, V) -> Sim, at: seq<int>, perm: seq<int>)
    requires Reordered(prev, next, at) && TellsApart(prev, sim)
    requires |perm| == |next| && Bijection(perm) && Greedy(prev, next, sim, perm)
    ensures perm == at
  {
    forall j | 0 <= j < |perm| ensures perm[j] == at[j] { OwnId(prev, next, sim, at, perm, j); }
  }

  lemma ReorderedAreNumbers<V>(prev: seq<V>, next: seq<V>, sim: (V, V) -> Sim, at: seq<int>)
    requires Reordered(prev, next, at) && TellsApart(prev, sim)
    ensures AllNumbers(prev, next, sim)
  {
  }

  // ---- node_islands ----------------------------------------------------------------------------------

  const DEFAULT_K := 16

  function Sum(sizes: seq<nat>): nat
  {
    if sizes == [] then 0 else Sum(sizes[..|sizes| - 1]) + sizes[|sizes| - 1]
  }

  /** How many nodes are on island c. */
  function OnIsland(labels: seq<int>, c: int): nat
  {
    if labels == [] then 0
    else OnIsland(labels[..|labels| - 1], c) + if labels[|labels| - 1] == c then 1 else 0
  }

  lemma {:induction false} SumStep(sizes: seq<nat>, c: nat)
    requires c < |sizes|
    ensures Sum(sizes[c := sizes[c] + 1]) == Sum(sizes) + 1
  {
    var more, last := sizes[c := sizes[c] + 1], |sizes| - 1;
    if c < last {
      SumStep(sizes[..last], c);
      assert more[..last] == sizes[..last][c := sizes[c] + 1];
    } else {
      assert more[..last] == sizes[..last];
    }
  }

  lemma {:induction false} SumZeros(k: nat)
    ensures Sum(seq(k, i => 0)) == 0
  {
    if k > 0 {
      assert seq(k, i => 0)[..k - 1] == seq(k - 1, i => 0);
      SumZeros(k - 1);
    }
  }

  /** The island of each node. */
  function Labels(perm: seq<int>, assign: seq<nat>): seq<int>
    requires forall i :: 0 <= i < |assign| ==> assign[i] < |perm|
  {
    seq(|assign|, i requires 0 <= i < |assign| => perm[assign[i]])
  }

  method Sizes(perm: seq<int>, assign: seq<nat>) returns (sizes: seq<nat>)
    requires Bijection(perm) && forall i :: 0 <= i < |assign| ==> assign[i] < |perm|
    ensures |sizes| == |perm| && Sum(sizes) == |assign|
    ensures forall c :: 0 <= c < |perm| ==> sizes[c] == OnIsland(Labels(perm, assign), c)
  {
    sizes := seq(|perm|, i => 0);
    var labels := Labels(perm, assign);
    SumZeros(|perm|);
    for i := 0 to |assign|
      invariant |sizes| == |perm| && Sum(sizes) == i
      invariant forall c :: 0 <= c < |perm| ==> sizes[c] == OnIsland(labels[..i], c)
    {
      var c := perm[assign[i]];
      assert labels[..i + 1][..i] == labels[..i] && labels[i] == c;
      SumStep(sizes, c);
      sizes := sizes[c := sizes[c] + 1];
    }
    assert labels[..|labels|] == labels;
  }

  datatype Stats = Stats(k: nat, n: nat, sizes: seq<nat>)

  /** Every node, and no other, has its label. */
  ghost predicate Labelled(rows: map<string, int>, ids: seq<string>, labels: seq<int>)
  {
    && |ids| == |labels|
    && (forall id :: id in rows <==> id in ids)
    && (forall i :: 0 <= i < |ids| ==> rows[ids[i]] == labels[i])
  }

  function Clusters(asked: Option<int>): (k: nat)
    ensures asked.None? ==> k == 16
    ensures asked.Some? ==> k >= 2 && (k == asked.value || asked.value < k == 2)
  {
    var k := if asked.Some? then asked.value else DEFAULT_K;
    if k < 2 then 2 else k
  }

  class IslandTable<V> {
    var rows: map<string, int>
    var stored: Option<seq<V>>

    constructor ()
      ensures rows == map[] && stored == None
    {
      rows, stored := map[], None;
    }

    /** DELETE, then one INSERT per node. */
    method Rewrite(ids: seq<string>, labels: seq<int>)
      requires Distinct(ids) && |ids| == |labels|
      modifies this`rows
      ensures Labelled(rows, ids, labels)
    {
      rows := map[];
      for i := 0 to |ids|
        invariant Labelled(rows, ids[..i], labels[..i])
      {
        assert ids[..i + 1] == ids[..i] + [ids[i]] && labels[..i + 1] == labels[..i] + [labels[i]];
        assert ids[i] !in ids[..i];
        rows := rows[ids[i] := labels[i]];
      }
      assert ids[..|ids|] == ids && labels[..|labels|] == labels;
    }

    /** computeIslands from the best k-means run on; `perm` is the relabelling it used. */
    method ComputeIslands(ids: seq<string>, asked: Option<int>, assign: seq<nat>, centroids: seq<V>, dryRun: bool, sim: (V, V) -> Sim)
      returns (stats: Stats, ghost perm: seq<int>)
      requires Distinct(ids)
      requires |ids| >= Clusters(asked) ==>
        |assign| == |ids| && |centroids| == Clusters(asked) && forall i :: 0 <= i < |assign| ==> assign[i] < |centroids|
      modifies this
      ensures Sum(stats.sizes) == stats.n == |ids| && |stats.sizes| == stats.k
      ensures dryRun ==> rows == old(rows) && stored == old(stored)
      ensures |ids| < Clusters(asked) ==>
        stats.k == 1 && stored == old(stored) && (!dryRun ==> Labelled(rows, ids, seq(|ids|, i => 0)))
      ensures |ids| >= Clusters(asked) ==>
        && stats.k == |perm| == |centroids| && Bijection(perm)
        && (forall c :: 0 <= c < stats.k ==> stats.sizes[c] == OnIsland(Labels(perm, assign), c))
        && (!dryRun ==> Labelled(rows, ids, Labels(perm, assign)) && stored.Some? && Reordered(stored.value, centroids, perm))
        && (var prev := old(stored);
            if prev.None? || |prev.value| != |centroids| then perm == Identity(|centroids|)
            else AllNumbers(prev.value, centroids, sim) ==> Greedy(prev.value, centroids, sim, perm))
    {
      var k := Clusters(asked);
      if |ids| < k {
        if !dryRun { Rewrite(ids, seq(|ids|, i => 0)); }
        perm := [];
        assert [|ids|][..0] == [];
        return Stats(1, |ids|, [|ids|]), [];
      }
      var prev := if stored.Some? && |stored.value| == k then stored else None;
      var ids2 := StablePermutation(centroids, prev, sim);
      perm := ids2;
      var sizes := Sizes(ids2, assign);
      if !dryRun {
        Rewrite(ids, Labels(ids2, assign));
        var ordered := Order(centroids, ids2);
        stored := Some(ordered);
      }
      stats := Stats(k, |ids|, sizes);
    }

    /** ordered[perm[c]] = centroids[c] */
    method Order(centroids: seq<V>, perm: seq<int>) returns (ordered: seq<V>)
      requires |centroids| == |perm| && Bijection(perm)
      ensures Reordered(ordered, centroids, perm)
    {
      ordered := centroids;
      for c := 0 to |perm|
        invariant |ordered| == |perm| && forall j :: 0 <= j < c ==> ordered[perm[j]] == centroids[j]
      {
        ordered := ordered[perm[c] := centroids[c]];
      }
    }
  }

  /** A second run on unchanged vectors gives every node the island it had, and stores the same centroids. */
  lemma RerunKeepsIslands<V>(stored: seq<V>, centroids: seq<V>, sim: (V, V) -> Sim, first: seq<int>, second: seq<int>, again: seq<V>)
    requires Reordered(stored, centroids, first) && TellsApart(stored, sim)
    requires |second| == |centroids| && Bijection(second)
    requires AllNumbers(stored, centroids, sim) ==> Greedy(stored, centroids, sim, second)
    requires Reordered(again, centroids, second)
    ensures second == first && again == stored
  {
    ReorderedAreNumbers(stored, centroids, sim, first);
    ReorderingKeepsIds(stored, centroids, sim, first, second);
    forall id | 0 <= id < |stored| ensures again[id] == stored[id] {
      assert id in first;
      var j :| 0 <= j < |first| && first[j] == id;
      assert centroids[j] == stored[first[j]] && centroids[j] == again[second[j]];
    }
  }
}
