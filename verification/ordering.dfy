/** Orders, stable sorting and rank: what Array.prototype.sort and ORDER BY promise. */
module Ordering {

  /** Binary string order: how JavaScript's `<` and SQLite's default collation compare. */
  predicate Less(a: string, b: string)
  {
    b != [] && (a == [] || a[0] < b[0] || (a[0] == b[0] && Less(a[1..], b[1..])))
  }

  predicate AtMost(a: string, b: string)
  {
    a == b || Less(a, b)
  }

  lemma {:induction false} LessIrreflexive(a: string)
    ensures !Less(a, a)
  {
    if a != [] {
      LessIrreflexive(a[1..]);
    }
  }

  lemma {:induction false} LessTransitive(a: string, b: string, c: string)
    requires Less(a, b) && Less(b, c)
    ensures Less(a, c)
  {
    if a != [] && a[0] == b[0] == c[0] {
      LessTransitive(a[1..], b[1..], c[1..]);
    }
  }

  lemma {:induction false} LessTotal(a: string, b: string)
    ensures a == b || Less(a, b) || Less(b, a)
  {
    if a != [] && b != [] && a[0] == b[0] {
      LessTotal(a[1..], b[1..]);
      assert a == [a[0]] + a[1..] && b == [b[0]] + b[1..];
    }
  }

  /** Alike before place k, where both go on. */
  predicate AlikeUpTo(a: string, b: string, k: int)
  {
    0 <= k < |a| && k < |b| && a[..k] == b[..k]
  }

  lemma AlikeInRest(a: string, b: string, k: int)
    requires a != [] && b != [] && a[0] == b[0]
    ensures k >= 1 ==> (AlikeUpTo(a, b, k) <==> AlikeUpTo(a[1..], b[1..], k - 1))
    ensures a < b <==> a[1..] < b[1..]
  {
    assert a == [a[0]] + a[1..] && b == [b[0]] + b[1..];
    if 1 <= k < |a| && k < |b| {
      assert a[..k] == [a[0]] + a[1..][..k - 1] && b[..k] == [b[0]] + b[1..][..k - 1];
      assert a[..k][1..] == a[1..][..k - 1] && b[..k][1..] == b[1..][..k - 1];
    }
    if a < b { assert b[..|a|][1..] == a[1..] && b[1..][..|a| - 1] == b[..|a|][1..]; }
  }

  /** A proper prefix comes first; else whoever has the lesser character where they first differ. */
  lemma {:induction false} LessMeans(a: string, b: string)
    ensures Less(a, b) <==> a < b || exists k :: AlikeUpTo(a, b, k) && a[k] < b[k]
  {
    if a != [] && b != [] && a[0] == b[0] {
      LessMeans(a[1..], b[1..]);
      AlikeInRest(a, b, 0);
      if k :| AlikeUpTo(a[1..], b[1..], k) && a[1..][k] < b[1..][k] {
        AlikeInRest(a, b, k + 1);
        assert AlikeUpTo(a, b, k + 1) && a[k + 1] < b[k + 1];
      }
      if k :| AlikeUpTo(a, b, k) && a[k] < b[k] {
        AlikeInRest(a, b, k);
        assert AlikeUpTo(a[1..], b[1..], k - 1) && a[1..][k - 1] < b[1..][k - 1];
      }
    } else if a != [] && b != [] {
      if a[0] < b[0] { assert AlikeUpTo(a, b, 0); }
      assert forall k :: AlikeUpTo(a, b, k) && k > 0 ==> a[..k][0] == b[..k][0];
    }
  }

  lemma LessIsStrictTotalOrder()
    ensures StrictTotal(Less)
  {
    forall a: string ensures !Less(a, a) { LessIrreflexive(a); }
    forall a: string, b: string, c: string | Less(a, b) && Less(b, c) ensures Less(a, c) { LessTransitive(a, b, c); }
    forall a: string, b: string ensures a == b || Less(a, b) || Less(b, a) { LessTotal(a, b); }
  }

  ghost predicate StrictTotal<T(!new)>(lt: (T, T) -> bool)
  {
    && (forall x :: !lt(x, x))
    && (forall x, y, z :: lt(x, y) && lt(y, z) ==> lt(x, z))
    && (forall x, y :: x == y || lt(x, y) || lt(y, x))
  }

  /** A comparator Array.prototype.sort accepts: total and transitive; ties are allowed. */
  ghost predicate TotalPreorder<T(!new)>(le: (T, T) -> bool)
  {
    && (forall x, y :: le(x, y) || le(y, x))
    && (forall x, y, z :: le(x, y) && le(y, z) ==> le(x, z))
  }
}

module Sorting {
  import opened Finite
  import opened Ordering

  ghost predicate Sorted<T(!new)>(s: seq<T>, le: (T, T) -> bool)
  {
    forall i, j :: 0 <= i < j < |s| ==> le(s[i], s[j])
  }

  /** Puts x behind everything that does not have to come after it: ties keep arrival order. */
  function Insert<T(!new)>(x: T, s: seq<T>, le: (T, T) -> bool): (r: seq<T>)
    ensures |r| == |s| + 1
  {
    if s == [] then [x]
    else if le(s[0], x) then
      [s[0]] + Insert(x, s[1..], le)
    else
      [x] + s
  }

  /** The stable sort. */
  function Sort<T(!new)>(s: seq<T>, le: (T, T) -> bool): (r: seq<T>)
    ensures |r| == |s|
  {
    if s == [] then []
    else Insert(s[|s| - 1], Sort(s[..|s| - 1], le), le)
  }

  lemma {:induction false} InsertPermutes<T(!new)>(x: T, s: seq<T>, le: (T, T) -> bool)
    ensures multiset(Insert(x, s, le)) == multiset(s) + multiset{x}
  {
    if s != [] && le(s[0], x) {
      InsertPermutes(x, s[1..], le);
      assert s == [s[0]] + s[1..];
    }
  }

  lemma {:induction false} SortPermutes<T(!new)>(s: seq<T>, le: (T, T) -> bool)
    ensures multiset(Sort(s, le)) == multiset(s)
    ensures forall x :: x in Sort(s, le) <==> x in s
  {
    if s != [] {
      var front, last := s[..|s| - 1], s[|s| - 1];
      SortPermutes(front, le);
      InsertPermutes(last, Sort(front, le), le);
      assert s == front + [last];
    }
    assert forall x :: x in Sort(s, le) <==> x in multiset(Sort(s, le));
  }

  lemma {:induction false} InsertSorted<T(!new)>(x: T, s: seq<T>, le: (T, T) -> bool)
    requires TotalPreorder(le) && Sorted(s, le)
    ensures Sorted(Insert(x, s, le), le)
  {
    if s != [] && le(s[0], x) {
      InsertSorted(x, s[1..], le);
      InsertPermutes(x, s[1..], le);
      var r := Insert(x, s[1..], le);
      forall y | y in r ensures le(s[0], y) {
        assert y in multiset(r);
        assert y == x || y in s[1..];
      }
    } else if s != [] {
      assert forall j :: 0 < j < |s| ==> le(s[0], s[j]);
    }
  }

  lemma {:induction false} SortSorted<T(!new)>(s: seq<T>, le: (T, T) -> bool)
    requires TotalPreorder(le)
    ensures Sorted(Sort(s, le), le)
  {
    if s != [] {
      SortSorted(s[..|s| - 1], le);
      InsertSorted(s[|s| - 1], Sort(s[..|s| - 1], le), le);
    }
  }

  /** Appending to what is already in order: sorting again is one insertion. */
  lemma {:induction false} SortOfSorted<T(!new)>(s: seq<T>, le: (T, T) -> bool)
    requires Sorted(s, le)
    ensures Sort(s, le) == s
  {
    if s != [] {
      var front, last := s[..|s| - 1], s[|s| - 1];
      SortOfSorted(front, le);
      InsertAtEnd(last, front, le);
      assert s == front + [last];
    }
  }

  lemma {:induction false} InsertAtEnd<T(!new)>(x: T, s: seq<T>, le: (T, T) -> bool)
    requires forall y :: y in s ==> le(y, x)
    ensures Insert(x, s, le) == s + [x]
  {
    if s != [] {
      InsertAtEnd(x, s[1..], le);
      assert s == [s[0]] + s[1..];
    }
  }

  lemma SortAppend<T(!new)>(s: seq<T>, x: T, le: (T, T) -> bool)
    ensures Sort(s + [x], le) == Insert(x, Sort(s, le), le)
  {
    assert (s + [x])[..|s|] == s;
  }

  function Where<T(!new)>(s: seq<T>, p: T -> bool): (r: seq<T>)
    ensures |r| <= |s|
    ensures forall x :: x in r <==> x in s && p(x)
  {
    if s == [] then []
    else
      assert s == [s[0]] + s[1..];
      (if p(s[0]) then [s[0]] else []) + Where(s[1..], p)
  }

  lemma {:induction false} WhereAppend<T(!new)>(s: seq<T>, t: seq<T>, p: T -> bool)
    ensures Where(s + t, p) == Where(s, p) + Where(t, p)
  {
    if s == [] {
      assert s + t == t;
    } else {
      var head := if p(s[0]) then [s[0]] else [];
      calc {
        Where(s + t, p);
      == { assert (s + t)[0] == s[0] && (s + t)[1..] == s[1..] + t; }
        head + Where(s[1..] + t, p);
      == { WhereAppend(s[1..], t, p); }
        head + (Where(s[1..], p) + Where(t, p));
      == { ConcatAssociates(head, Where(s[1..], p), Where(t, p)); }
        head + Where(s[1..], p) + Where(t, p);
      }
    }
  }

  lemma ConcatAssociates<T>(a: seq<T>, b: seq<T>, c: seq<T>)
    ensures a + (b + c) == a + b + c
  {
  }

  /** What an insertion relies on: whoever x must come behind is a prefix of s. */
  ghost predicate Prefixed<T(!new)>(s: seq<T>, x: T, le: (T, T) -> bool)
  {
    forall i, j :: 0 <= i < j < |s| && le(s[j], x) ==> le(s[i], x)
  }

  lemma SortFacts<T(!new)>(s: seq<T>, x: T, le: (T, T) -> bool)
    requires TotalPreorder(le)
    ensures Sorted(Sort(s, le), le) && Prefixed(Sort(s, le), x, le)
  {
    SortSorted(s, le);
  }

  /** The values that tie with v. */
  function Tied<T>(le: (T, T) -> bool, v: T): T -> bool
  {
    x => le(x, v) && le(v, x)
  }

  /** Sorting never reorders two values that tie. */
  lemma {:induction false} SortStable<T(!new)>(s: seq<T>, le: (T, T) -> bool, v: T)
    requires TotalPreorder(le)
    ensures Where(Sort(s, le), Tied(le, v)) == Where(s, Tied(le, v))
  {
    if s != [] {
      var front, last := s[..|s| - 1], s[|s| - 1];
      calc {
        Where(Sort(s, le), Tied(le, v));
      == { StableStep(front, last, le, v); }
        Where(Sort(front, le), Tied(le, v)) + Where([last], Tied(le, v));
      == { SortStable(front, le, v); }
        Where(front, Tied(le, v)) + Where([last], Tied(le, v));
      == { WhereAppend(front, [last], Tied(le, v)); }
        Where(front + [last], Tied(le, v));
      == { assert s == front + [last]; }
        Where(s, Tied(le, v));
      }
    }
  }

  lemma StableStep<T(!new)>(front: seq<T>, last: T, le: (T, T) -> bool, v: T)
    requires TotalPreorder(le)
    ensures Where(Insert(last, Sort(front, le), le), Tied(le, v))
         == Where(Sort(front, le), Tied(le, v)) + Where([last], Tied(le, v))
  {
    SortFacts(front, last, le);
    TiesTransitive(last, v, le);
    InsertStable(last, Sort(front, le), le, Tied(le, v));
  }

  lemma TiesTransitive<T(!new)>(x: T, v: T, le: (T, T) -> bool)
    requires TotalPreorder(le)
    ensures Tied(le, v)(x) ==> forall y :: Tied(le, v)(y) ==> le(y, x)
  {
  }

  lemma WhereCons<T(!new)>(x: T, s: seq<T>, p: T -> bool)
    ensures Where([x] + s, p) == (if p(x) then [x] else []) + Where(s, p)
  {
    assert ([x] + s)[1..] == s;
  }

  lemma {:induction false} InsertStable<T(!new)>(x: T, s: seq<T>, le: (T, T) -> bool, p: T -> bool)
    requires Prefixed(s, x, le)
    requires p(x) ==> forall y :: y in s && p(y) ==> le(y, x)
    ensures Where(Insert(x, s, le), p) == Where(s, p) + Where([x], p)
    decreases s, 1
  {
    if s == [] {
      assert Where(s, p) + Where([x], p) == Where([x], p);
    } else if le(s[0], x) {
      InsertInside(x, s, le, p);
    } else {
      InsertAhead(x, s, p);
    }
  }

  lemma InsertInside<T(!new)>(x: T, s: seq<T>, le: (T, T) -> bool, p: T -> bool)
    requires s != [] && le(s[0], x) && Prefixed(s, x, le)
    requires p(x) ==> forall y :: y in s && p(y) ==> le(y, x)
    ensures Where(Insert(x, s, le), p) == Where(s, p) + Where([x], p)
    decreases s, 0
  {
    var head := if p(s[0]) then [s[0]] else [];
    calc {
      Where(Insert(x, s, le), p);
    == { WhereCons(s[0], Insert(x, s[1..], le), p); }
      head + Where(Insert(x, s[1..], le), p);
    == { InsertStable(x, s[1..], le, p); }
      head + (Where(s[1..], p) + Where([x], p));
    == { ConcatAssociates(head, Where(s[1..], p), Where([x], p)); }
      Where(s, p) + Where([x], p);
    }
  }

  lemma InsertAhead<T(!new)>(x: T, s: seq<T>, p: T -> bool)
    requires p(x) ==> forall y :: y in s ==> !p(y)
    ensures Where([x] + s, p) == Where(s, p) + Where([x], p)
  {
    WhereAppend([x], s, p);
    if p(x) {
      NoneWhere(s, p);
    } else {
      assert Where([x], p) == [];
    }
  }

  lemma {:induction false} NoneWhere<T(!new)>(s: seq<T>, p: T -> bool)
    requires forall x :: x in s ==> !p(x)
    ensures Where(s, p) == []
  {
    if s != [] {
      NoneWhere(s[1..], p);
    }
  }

  function First<T>(k: nat, s: seq<T>): seq<T>
  {
    if |s| <= k then s else s[..k]
  }

  /** The k best of what was seen so far and of one more: what has to change in the list. */
  lemma FirstStep<T(!new)>(k: nat, seen: seq<T>, n: T, le: (T, T) -> bool)
    requires k >= 1 && Sorted(Sort(seen, le), le) && Prefixed(Sort(seen, le), n, le)
    ensures var top := First(k, Sort(seen, le));
      First(k, Sort(seen + [n], le))
      == if |top| < k then Sort(top + [n], le)
         else if !le(top[k - 1], n) then Sort(top[..k - 1] + [n], le)
         else top
  {
    SortAppend(seen, n, le);
    var all := Sort(seen, le);
    if |all| < k {
      SortOfSorted(all, le);
      SortAppend(all, n, le);
    } else {
      FullStep(k, all, n, le);
    }
  }

  lemma FullStep<T(!new)>(k: nat, all: seq<T>, n: T, le: (T, T) -> bool)
    requires 1 <= k <= |all| && Sorted(all, le) && Prefixed(all, n, le)
    ensures var top := First(k, all);
      |top| == k
      && First(k, Insert(n, all, le)) == if !le(top[k - 1], n) then Sort(top[..k - 1] + [n], le) else top
  {
    var top := First(k, all);
    assert top == all[..k] && top[k - 1] == all[k - 1];
    InsertTruncated(n, all, k, le);
    if !le(all[k - 1], n) {
      assert top[..k - 1] == all[..k - 1];
      SortHead(all, k - 1, n, le);
    }
  }

  lemma SortHead<T(!new)>(s: seq<T>, k: nat, n: T, le: (T, T) -> bool)
    requires k <= |s| && Sorted(s, le)
    ensures Sort(s[..k] + [n], le) == Insert(n, s[..k], le)
  {
    SortOfSorted(s[..k], le);
    SortAppend(s[..k], n, le);
  }

  lemma {:induction false} InsertTruncated<T(!new)>(n: T, s: seq<T>, k: nat, le: (T, T) -> bool)
    requires 1 <= k <= |s| && Prefixed(s, n, le)
    ensures Insert(n, s, le)[..k] == if le(s[k - 1], n) then s[..k] else Insert(n, s[..k - 1], le)
  {
    if le(s[0], n) {
      if k > 1 {
        InsertTruncated(n, s[1..], k - 1, le);
        assert s[1..][..k - 2] == s[..k - 1][1..];
        assert s[1..][..k - 1] == s[..k][1..];
      }
    }
  }

  /** Nothing left out of the first k of a sorted list goes before anything kept. */
  lemma FirstMeaning<T(!new)>(k: nat, s: seq<T>, le: (T, T) -> bool)
    requires TotalPreorder(le)
    ensures var top := First(k, Sort(s, le));
      && |top| == (if |s| <= k then |s| else k)
      && Sorted(top, le)
      && multiset(top) <= multiset(s)
      && (forall kept, out :: kept in top && out in multiset(s) - multiset(top) ==> le(kept, out))
  {
    SortSorted(s, le);
    SortPermutes(s, le);
    CutMeaning(k, Sort(s, le), le);
  }

  lemma CutMeaning<T(!new)>(k: nat, all: seq<T>, le: (T, T) -> bool)
    requires Sorted(all, le)
    ensures var top := First(k, all);
      && multiset(top) <= multiset(all)
      && (forall kept, out :: kept in top && out in multiset(all) - multiset(top) ==> le(kept, out))
  {
    if |all| > k {
      CutLeaves(k, all);
      forall kept, out | kept in all[..k] && out in all[k..] ensures le(kept, out) { CutOrdered(k, all, le, kept, out); }
    }
  }

  lemma CutLeaves<T>(k: nat, all: seq<T>)
    requires k <= |all|
    ensures multiset(all[..k]) <= multiset(all) && multiset(all) - multiset(all[..k]) == multiset(all[k..])
  {
    assert all == all[..k] + all[k..];
  }

  lemma CutOrdered<T(!new)>(k: nat, all: seq<T>, le: (T, T) -> bool, kept: T, out: T)
    requires Sorted(all, le) && k <= |all| && kept in all[..k] && out in all[k..]
    ensures le(kept, out)
  {
    var i :| 0 <= i < k && all[..k][i] == kept;
    var j :| 0 <= j < |all| - k && all[k..][j] == out;
    assert all[i] == kept && all[k + j] == out;
  }

  /** The cut is the cut of a stable sort: among ties, whoever arrived first is kept first. */
  lemma FirstStable<T(!new)>(k: nat, s: seq<T>, le: (T, T) -> bool, v: T)
    requires TotalPreorder(le)
    ensures Where(First(k, Sort(s, le)), Tied(le, v)) <= Where(s, Tied(le, v))
  {
    SortStable(s, le, v);
    var all := Sort(s, le);
    if |all| > k {
      assert all == all[..k] + all[k..];
      WhereAppend(all[..k], all[k..], Tied(le, v));
    }
  }

  /** Two sorted arrangements of the same distinct values are one and the same. */
  lemma {:induction false} SortedUnique<T(!new)>(s: seq<T>, t: seq<T>, lt: (T, T) -> bool)
    requires StrictTotal(lt)
    requires Sorted(s, lt) && Sorted(t, lt)
    requires forall x :: x in s <==> x in t
    ensures s == t
  {
    assert forall i :: 0 <= i < |t| ==> t[i] in s;
    assert forall i :: 0 <= i < |s| ==> s[i] in t;
    if s != [] && t != [] {
      HeadIsLeast(s, lt);
      HeadIsLeast(t, lt);
      assert s[0] in t && t[0] in s;
      assert s[0] == t[0];
      forall x ensures x in s[1..] <==> x in t[1..] {
        TailMembers(s, x, lt);
        TailMembers(t, x, lt);
      }
      SortedUnique(s[1..], t[1..], lt);
      assert s == [s[0]] + s[1..] && t == [t[0]] + t[1..];
    }
  }

  lemma HeadIsLeast<T(!new)>(s: seq<T>, lt: (T, T) -> bool)
    requires s != [] && Sorted(s, lt)
    ensures forall x :: x in s ==> x == s[0] || lt(s[0], x)
  {
    forall x | x in s ensures x == s[0] || lt(s[0], x) {
      var i :| 0 <= i < |s| && s[i] == x;
    }
  }

  lemma TailMembers<T(!new)>(s: seq<T>, x: T, lt: (T, T) -> bool)
    requires s != [] && Sorted(s, lt) && StrictTotal(lt)
    ensures x in s[1..] <==> x in s && x != s[0]
  {
    if x in s && x != s[0] {
      var i :| 0 <= i < |s| && s[i] == x;
      assert s[1..][i - 1] == x;
    }
    if x in s[1..] {
      var i :| 0 <= i < |s| - 1 && s[1..][i] == x;
      assert lt(s[0], s[i + 1]);
    }
  }

  /** Everything in `among` that strictly beats x. */
  ghost function Ahead<T(!new)>(among: set<T>, x: T, lt: (T, T) -> bool): set<T>
  {
    set y | y in among && lt(y, x)
  }

  /** In sorted order, an element's position is the number of elements that beat it. */
  lemma RankIsPosition<T(!new)>(s: seq<T>, i: nat, lt: (T, T) -> bool)
    requires StrictTotal(lt) && Sorted(s, lt) && i < |s|
    ensures |Ahead(Elements(s), s[i], lt)| == i
  {
    var front := s[..i];
    assert forall j :: i < j < |s| ==> lt(s[i], s[j]);
    assert forall j :: i <= j < |s| ==> !lt(s[j], s[i]);
    assert Ahead(Elements(s), s[i], lt) == Elements(front) by {
      forall y | y in Ahead(Elements(s), s[i], lt) ensures y in front {
        var j :| 0 <= j < |s| && s[j] == y;
        assert front[j] == y;
      }
    }
    DistinctCount(front);
  }

  lemma {:induction false} LastExists<T(!new)>(s: set<T>, lt: (T, T) -> bool) returns (m: T)
    requires StrictTotal(lt) && s != {}
    ensures m in s && forall x :: x in s ==> x == m || lt(x, m)
  {
    m :| m in s;
    if s != {m} {
      var rest := s - {m};
      var n := LastExists(rest, lt);
      if lt(m, n) { m := n; }
    }
  }

  /** At most k values can each be beaten by fewer than k. */
  lemma FewInTopK<T(!new)>(among: set<T>, k: nat, lt: (T, T) -> bool)
    requires StrictTotal(lt)
    ensures |(set x | x in among && |Ahead(among, x, lt)| < k)| <= k
  {
    var best := set x | x in among && |Ahead(among, x, lt)| < k;
    if |best| > k {
      var m := LastExists(best, lt);
      assert best - {m} <= Ahead(among, m, lt);
      Subset(best - {m}, Ahead(among, m, lt));
    }
  }

}
