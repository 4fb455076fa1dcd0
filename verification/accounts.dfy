/** src/entity/accounts.ts: two sources read page by page behind one cursor, as one chronological list. */
module Accounts {
  import opened Finite
  import opened Optional
  import opened Ordering
  import opened Sorting

  /** An account by what orders it; the columns shown with it are functions of its id. */
  datatype Account = Account(at: string, id: string)

  datatype Cursor = Cursor(at: string, id: string)

  const ACCOUNTS_SHOWN := 10
  const ACCOUNTS_PAGE_MAX := 50

  /** Rows of the two queries after their WHERE clauses, in storage order. */
  datatype Tables = Tables(contributions: seq<Account>, notes: seq<Account>)

  datatype Page = Page(accounts: seq<Account>, next: Option<Cursor>, total: Option<nat>)

  /** ORDER BY created_at, id */
  predicate Before(a: Account, b: Account)
  {
    Less(a.at, b.at) || (a.at == b.at && Less(a.id, b.id))
  }

  /** byTime */
  predicate NotAfter(a: Account, b: Account)
  {
    a == b || Before(a, b)
  }

  predicate IsLater(c: Cursor, a: Account)
  {
    Less(c.at, a.at) || (c.at == a.at && Less(c.id, a.id))
  }

  function Later(c: Cursor): Account -> bool
  {
    (a: Account) => IsLater(c, a)
  }

  function Everything(): Account -> bool
  {
    (a: Account) => true
  }

  /** A missing cursor filters contributions by the empty one, and notes not at all. */
  function ContributionsAfter(c: Option<Cursor>): Account -> bool
  {
    if c.Some? then Later(c.value) else Later(Cursor("", ""))
  }

  function NotesAfter(c: Option<Cursor>): Account -> bool
  {
    if c.Some? then Later(c.value) else Everything()
  }

  function Query(rows: seq<Account>, wanted: Account -> bool, limit: nat): seq<Account>
  {
    First(limit, Sort(Where(rows, wanted), NotAfter))
  }

  function Limit(asked: Option<int>): nat
  {
    var l := if asked.Some? then asked.value else ACCOUNTS_SHOWN;
    if l > ACCOUNTS_PAGE_MAX then ACCOUNTS_PAGE_MAX else if l < 1 then 1 else l
  }

  function AccountsPage(t: Tables, after: Option<Cursor>, asked: Option<int>): Page
  {
    var limit := Limit(asked);
    var merged := Sort(Query(t.contributions, ContributionsAfter(after), limit + 1) + Query(t.notes, NotesAfter(after), limit + 1), NotAfter);
    var accounts := First(limit, merged);
    Page(accounts,
         if |merged| > limit then Some(Cursor(accounts[|accounts| - 1].at, accounts[|accounts| - 1].id)) else None,
         if after.Some? then None else Some(|t.contributions| + |t.notes|))
  }

  // ---- the order ---------------------------------------------------------------------------

  lemma BeforeTransitive(a: Account, b: Account, c: Account)
    requires Before(a, b) && Before(b, c)
    ensures Before(a, c)
  {
    LessIsStrictTotalOrder();
  }

  lemma BeforeIrreflexive(a: Account)
    ensures !Before(a, a)
  {
    LessIrreflexive(a.at);
    LessIrreflexive(a.id);
  }

  lemma BeforeTotal(a: Account, b: Account)
    ensures a == b || Before(a, b) || Before(b, a)
  {
    LessTotal(a.at, b.at);
    LessTotal(a.id, b.id);
  }

  lemma BeforeIsStrictTotal()
    ensures StrictTotal(Before)
  {
    forall a, b, c | Before(a, b) && Before(b, c) ensures Before(a, c) { BeforeTransitive(a, b, c); }
    forall a ensures !Before(a, a) { BeforeIrreflexive(a); }
    forall a, b ensures a == b || Before(a, b) || Before(b, a) { BeforeTotal(a, b); }
  }

  lemma NotAfterIsTotal()
    ensures TotalPreorder(NotAfter)
  {
    forall a, b ensures NotAfter(a, b) || NotAfter(b, a) { BeforeTotal(a, b); }
    forall a, b, c | NotAfter(a, b) && NotAfter(b, c) ensures NotAfter(a, c) {
      if Before(a, b) && Before(b, c) { BeforeTransitive(a, b, c); }
    }
  }

  /** Sorting distinct accounts puts each strictly before the next. */
  lemma SortedDistinct(s: seq<Account>)
    requires Distinct(s)
    ensures Sorted(Sort(s, NotAfter), Before) && forall x :: x in Sort(s, NotAfter) <==> x in s
  {
    NotAfterIsTotal();
    SortSorted(s, NotAfter);
    SortPermutes(s, NotAfter);
    var r := Sort(s, NotAfter);
    forall i, j | 0 <= i < j < |r| ensures Before(r[i], r[j]) {
      if r[i] == r[j] { TwiceInMultiset(r, i, j); OnceAtMost(s, r[i]); }
    }
  }

  lemma TwiceInMultiset(r: seq<Account>, i: nat, j: nat)
    requires i < j < |r| && r[i] == r[j]
    ensures multiset(r)[r[i]] >= 2
  {
    assert r == r[..i + 1] + r[i + 1..];
    assert r[i] in r[..i + 1] && r[i + 1..][j - i - 1] == r[i];
    assert multiset(r) == multiset(r[..i + 1]) + multiset(r[i + 1..]);
  }

  lemma BeforeMeansEarlier(s: seq<Account>, i: nat, j: nat)
    requires Sorted(s, Before) && i < |s| && j < |s| && Before(s[i], s[j])
    ensures i < j
  {
    BeforeIrreflexive(s[i]);
    if j < i { BeforeTransitive(s[i], s[j], s[i]); }
  }

  /** Part of a sorted list never runs ahead of it. */
  lemma {:induction false} PartLags(part: seq<Account>, whole: seq<Account>, j: nat) returns (m: nat)
    requires Sorted(part, Before) && Sorted(whole, Before)
    requires forall x :: x in part ==> x in whole
    requires j < |part|
    ensures j <= m < |whole| && whole[m] == part[j]
  {
    assert part[j] in whole;
    m :| 0 <= m < |whole| && whole[m] == part[j];
    if j > 0 {
      var before := PartLags(part, whole, j - 1);
      BeforeMeansEarlier(whole, before, m);
    }
  }

  lemma {:induction false} SameAt(part: seq<Account>, whole: seq<Account>, j: nat)
    requires Sorted(part, Before) && Sorted(whole, Before)
    requires forall x :: x in part ==> x in whole
    requires j < |whole| && forall i :: 0 <= i <= j ==> whole[i] in part
    ensures j < |part| && part[j] == whole[j]
  {
    assert whole[j] in part;
    var m :| 0 <= m < |part| && part[m] == whole[j];
    var n := PartLags(part, whole, m);
    BeforeIrreflexive(whole[j]);
    if m < j { SameAt(part, whole, m); }
  }

  /** A sorted part that has the first k of the whole begins as the whole does. */
  lemma SameStart(part: seq<Account>, whole: seq<Account>, k: nat)
    requires Sorted(part, Before) && Sorted(whole, Before)
    requires forall x :: x in part ==> x in whole
    requires forall i :: 0 <= i < |whole| && i < k ==> whole[i] in part
    ensures First(k, part) == First(k, whole)
  {
    forall j | 0 <= j < |whole| && j < k ensures j < |part| && part[j] == whole[j] {
      SameAt(part, whole, j);
    }
    if |part| > |whole| { var m := PartLags(part, whole, |whole|); }
    if |part| < |whole| && |part| < k { SameAt(part, whole, |part|); }
  }

  // ---- one page --------------------------------------------------------------------------

  /** No account is in both sources, or twice in one: ids are primary keys. */
  ghost predicate Separate(t: Tables)
  {
    Distinct(t.contributions + t.notes)
  }

  /** What is left to show behind a cursor. */
  function Remaining(t: Tables, after: Option<Cursor>): seq<Account>
  {
    Where(t.contributions, ContributionsAfter(after)) + Where(t.notes, NotesAfter(after))
  }

  lemma {:induction false} WhereDistinct(s: seq<Account>, p: Account -> bool)
    requires Distinct(s)
    ensures Distinct(Where(s, p))
  {
    if s != [] {
      assert Distinct(s[1..]);
      WhereDistinct(s[1..], p);
      assert s[0] !in s[1..];
      assert s[0] !in Where(s[1..], p);
    }
  }

  lemma DistinctParts(a: seq<Account>, b: seq<Account>)
    requires Distinct(a + b)
    ensures Distinct(a) && Distinct(b) && forall x :: x in a ==> x !in b
  {
    forall i, j | 0 <= i < j < |a| ensures a[i] != a[j] { assert (a + b)[i] == a[i] && (a + b)[j] == a[j]; }
    forall i, j | 0 <= i < j < |b| ensures b[i] != b[j] { assert (a + b)[|a| + i] == b[i] && (a + b)[|a| + j] == b[j]; }
    forall i, j | 0 <= i < |a| && 0 <= j < |b| ensures a[i] != b[j] { assert (a + b)[i] == a[i] && (a + b)[|a| + j] == b[j]; }
  }

  lemma DistinctUnion(a: seq<Account>, b: seq<Account>)
    requires Distinct(a) && Distinct(b) && forall x :: x in a ==> x !in b
    ensures Distinct(a + b)
  {
    forall i, j | 0 <= i < j < |a + b| ensures (a + b)[i] != (a + b)[j] {
      if i < |a| <= j { assert a[i] in a && b[j - |a|] in b; }
    }
  }

  lemma RemainingDistinct(t: Tables, after: Option<Cursor>)
    requires Separate(t)
    ensures Distinct(Where(t.contributions, ContributionsAfter(after)) + Where(t.notes, NotesAfter(after)))
  {
    DistinctParts(t.contributions, t.notes);
    WhereDistinct(t.contributions, ContributionsAfter(after));
    WhereDistinct(t.notes, NotesAfter(after));
    DistinctUnion(Where(t.contributions, ContributionsAfter(after)), Where(t.notes, NotesAfter(after)));
  }

  lemma StrictlySortedIsDistinct(s: seq<Account>)
    requires Sorted(s, Before)
    ensures Distinct(s)
  {
    forall i, j | 0 <= i < j < |s| ensures s[i] != s[j] { BeforeIrreflexive(s[i]); }
  }

  /** Each source's first l + 1 hold every one of theirs among the first l of both. */
  lemma TopHas(a: seq<Account>, whole: seq<Account>, l: nat, i: nat)
    requires Distinct(a) && Sorted(whole, Before) && (forall x :: x in a ==> x in whole)
    requires i < |whole| && i <= l && whole[i] in a
    ensures whole[i] in First(l + 1, Sort(a, NotAfter))
  {
    SortedDistinct(a);
    var mine := Sort(a, NotAfter);
    assert whole[i] in mine;
    var m :| 0 <= m < |mine| && mine[m] == whole[i];
    var n := PartLags(mine, whole, m);
    StrictlySortedIsDistinct(whole);
    assert n == i;
    assert m < |First(l + 1, mine)| && First(l + 1, mine)[m] == whole[i];
  }

  lemma FirstPart(s: seq<Account>, k: nat)
    requires Sorted(s, Before)
    ensures Sorted(First(k, s), Before) && forall x :: x in First(k, s) ==> x in s
  {
  }

  /** Merging the two first l + 1 gives the first l of both sources together, and tells whether there are more. */
  lemma MergeIsWhole(a: seq<Account>, b: seq<Account>, l: nat)
    requires Distinct(a + b)
    ensures var merged := Sort(First(l + 1, Sort(a, NotAfter)) + First(l + 1, Sort(b, NotAfter)), NotAfter);
      First(l, merged) == First(l, Sort(a + b, NotAfter)) && (|merged| > l <==> |a| + |b| > l)
  {
    DistinctParts(a, b);
    SortedDistinct(a);
    SortedDistinct(b);
    var ta, tb := First(l + 1, Sort(a, NotAfter)), First(l + 1, Sort(b, NotAfter));
    FirstPart(Sort(a, NotAfter), l + 1);
    FirstPart(Sort(b, NotAfter), l + 1);
    StrictlySortedIsDistinct(ta);
    StrictlySortedIsDistinct(tb);
    DistinctUnion(ta, tb);
    SortedDistinct(ta + tb);
    SortedDistinct(a + b);
    var merged, whole := Sort(ta + tb, NotAfter), Sort(a + b, NotAfter);
    forall i | 0 <= i < |whole| && i < l ensures whole[i] in merged {
      assert whole[i] in a + b;
      if whole[i] in a { TopHas(a, whole, l, i); } else { TopHas(b, whole, l, i); }
    }
    SameStart(merged, whole, l);
  }

  function CursorOf(a: Account): Cursor
  {
    Cursor(a.at, a.id)
  }

  /** A page is the first of what remains, and its cursor is its last account, when more remain. */
  lemma PageIsPrefix(t: Tables, after: Option<Cursor>, asked: Option<int>)
    requires Separate(t)
    ensures var p := AccountsPage(t, after, asked);
      var rest := Sort(Remaining(t, after), NotAfter);
      && p.accounts == First(Limit(asked), rest)
      && (p.next.Some? <==> |rest| > Limit(asked))
      && (p.next.Some? ==> p.accounts != [] && p.next.value == CursorOf(p.accounts[|p.accounts| - 1]))
  {
    RemainingDistinct(t, after);
    MergeIsWhole(Where(t.contributions, ContributionsAfter(after)), Where(t.notes, NotesAfter(after)), Limit(asked));
  }

  /** What remains behind a cursor: the accounts that come later, by time and then by id; on the first page, all that are not blank
      contributions. */
  lemma RemainingMeans(t: Tables, after: Option<Cursor>, x: Account)
    ensures x in Remaining(t, after)
      <==> (x in t.notes || (x in t.contributions && (after.None? ==> x.at != "" || x.id != "")))
           && (after.Some? ==> Less(after.value.at, x.at) || (after.value.at == x.at && Less(after.value.id, x.id)))
  {
    LaterThanNothing(x);
  }

  /** Ten at a time unless asked otherwise, never more than fifty, and at least one while any remain. */
  lemma PageSize(t: Tables, after: Option<Cursor>, asked: Option<int>)
    requires Separate(t)
    ensures var shown, left := |AccountsPage(t, after, asked).accounts|, |Remaining(t, after)|;
      && (asked.None? ==> shown == if left < 10 then left else 10)
      && (asked.Some? && 1 <= asked.value <= 50 ==> shown == if left < asked.value then left else asked.value)
      && (asked.Some? && asked.value > 50 ==> shown == if left < 50 then left else 50)
      && (asked.Some? && asked.value < 1 ==> shown == if left < 1 then left else 1)
  {
    PageIsPrefix(t, after, asked);
  }

  // ---- the walk -------------------------------------------------------------------------------

  /** The one list the pages are cut from. */
  function Listed(t: Tables): seq<Account>
  {
    Sort(Remaining(t, None), NotAfter)
  }

  lemma LaterThanSomething(c: Cursor, a: Account)
    requires IsLater(c, a)
    ensures IsLater(Cursor("", ""), a)
  {
  }

  lemma ListedSorted(t: Tables)
    requires Separate(t)
    ensures Sorted(Listed(t), Before) && forall x :: x in Listed(t) <==> x in Remaining(t, None)
  {
    RemainingDistinct(t, None);
    SortedDistinct(Remaining(t, None));
  }

  lemma RemainingMembers(t: Tables, c: Cursor, x: Account)
    ensures x in Remaining(t, Some(c)) <==> x in Remaining(t, None) && IsLater(c, x)
  {
    if IsLater(c, x) { LaterThanSomething(c, x); }
  }

  lemma SuffixMembers(s: seq<Account>, k: nat, x: Account)
    requires Sorted(s, Before) && 0 < k <= |s|
    ensures x in s[k..] <==> x in s && Before(s[k - 1], x)
  {
    if x in s[k..] {
      var i :| 0 <= i < |s| - k && s[k..][i] == x;
      assert s[k + i] == x;
    }
    if x in s && Before(s[k - 1], x) {
      var i :| 0 <= i < |s| && s[i] == x;
      BeforeMeansEarlier(s, k - 1, i);
      assert s[k..][i - k] == x;
    }
  }

  lemma RestMembers(t: Tables, k: nat, x: Account)
    requires Separate(t) && 0 < k <= |Listed(t)|
    ensures x in Remaining(t, Some(CursorOf(Listed(t)[k - 1]))) <==> x in Listed(t)[k..]
  {
    ListedSorted(t);
    RemainingMembers(t, CursorOf(Listed(t)[k - 1]), x);
    SuffixMembers(Listed(t), k, x);
  }

  /** Behind the k-th account, exactly the rest of the list remains. */
  lemma RestRemains(t: Tables, k: nat)
    requires Separate(t) && 0 < k <= |Listed(t)|
    ensures Sort(Remaining(t, Some(CursorOf(Listed(t)[k - 1]))), NotAfter) == Listed(t)[k..]
  {
    var s, last := Listed(t), Listed(t)[k - 1];
    var after := Some(CursorOf(last));
    ListedSorted(t);
    RemainingDistinct(t, after);
    SortedDistinct(Remaining(t, after));
    forall x ensures x in Remaining(t, after) <==> x in s[k..] { RestMembers(t, k, x); }
    BeforeIsStrictTotal();
    SortedUnique(Sort(Remaining(t, after), NotAfter), s[k..], Before);
  }

  lemma PageOfRest(t: Tables, k: nat, after: Option<Cursor>, asked: Option<int>)
    requires Separate(t) && k <= |Listed(t)|
    requires after == if k == 0 then None else Some(CursorOf(Listed(t)[k - 1]))
    ensures var p := AccountsPage(t, after, asked);
      && p.accounts == First(Limit(asked), Listed(t)[k..])
      && (p.next.Some? <==> k + Limit(asked) < |Listed(t)|)
      && (p.next.Some? ==> p.next.value == CursorOf(Listed(t)[k + Limit(asked) - 1]))
  {
    var list := Listed(t);
    PageIsPrefix(t, after, asked);
    if k > 0 { RestRemains(t, k); }
    assert list[0..] == list;
    LastOfPage(list, k, Limit(asked));
  }

  lemma LastOfPage(s: seq<Account>, k: nat, l: nat)
    requires k <= |s|
    ensures l >= 1 && k + l < |s| ==> First(l, s[k..]) != [] && First(l, s[k..])[|First(l, s[k..])| - 1] == s[k + l - 1]
  {
  }

  lemma NextOut(s: seq<Account>, k: nat, l: nat)
    requires k <= |s|
    ensures s[..k] + First(l, s[k..]) == if k + l < |s| then s[..k + l] else s
  {
  }

  /** The list is oldest first, by time and then by id. */
  lemma ListedByTime(t: Tables, i: nat, j: nat)
    requires Separate(t) && i < j < |Listed(t)|
    ensures var a, b := Listed(t)[i], Listed(t)[j]; Less(a.at, b.at) || (a.at == b.at && Less(a.id, b.id))
  {
    ListedSorted(t);
  }

  /** accountsFor: following `next` yields the whole list once, in order. */
  method AccountsFor(t: Tables) returns (out: seq<Account>)
    requires Separate(t)
    ensures out == Listed(t)
  {
    out := [];
    var cursor: Option<Cursor> := None;
    ghost var k := 0;
    while true
      invariant k <= |Listed(t)| && out == Listed(t)[..k]
      invariant cursor == if k == 0 then None else Some(CursorOf(Listed(t)[k - 1]))
      decreases |Listed(t)| - k
    {
      var p := AccountsPage(t, cursor, Some(ACCOUNTS_PAGE_MAX));
      PageOfRest(t, k, cursor, Some(ACCOUNTS_PAGE_MAX));
      NextOut(Listed(t), k, ACCOUNTS_PAGE_MAX);
      out := out + p.accounts;
      if p.next.None? { return; }
      cursor := p.next;
      k := k + ACCOUNTS_PAGE_MAX;
    }
  }

  predicate Blank(a: Account)
  {
    a.at == "" && a.id == ""
  }

  lemma LaterThanNothing(a: Account)
    ensures IsLater(Cursor("", ""), a) <==> !Blank(a)
  {
  }

  lemma {:induction false} AllLater(s: seq<Account>)
    ensures (forall a :: a in s ==> !Blank(a)) <==> Where(s, Later(Cursor("", ""))) == s
    ensures |Where(s, Later(Cursor("", "")))| == |s| ==> Where(s, Later(Cursor("", ""))) == s
  {
    if s != [] {
      AllLater(s[1..]);
      LaterThanNothing(s[0]);
      assert s == [s[0]] + s[1..];
    }
  }

  lemma {:induction false} EverythingStays(s: seq<Account>)
    ensures Where(s, Everything()) == s
  {
    if s != [] { EverythingStays(s[1..]); }
  }

  lemma ListedLength(t: Tables)
    ensures |Listed(t)| == |Where(t.contributions, Later(Cursor("", "")))| + |t.notes|
    ensures multiset(Listed(t)) == multiset(Where(t.contributions, Later(Cursor("", "")))) + multiset(t.notes)
  {
    EverythingStays(t.notes);
    SortPermutes(Remaining(t, None), NotAfter);
  }

  lemma ListIsWhole(t: Tables)
    ensures |Listed(t)| == |t.contributions| + |t.notes| <==> forall a :: a in t.contributions ==> !Blank(a)
  {
    AllLater(t.contributions);
    ListedLength(t);
  }

  /** The list's length is the first page's total exactly when no contribution is blank. */
  lemma TotalIsLength(t: Tables, asked: Option<int>)
    ensures AccountsPage(t, None, asked).total == Some(|Listed(t)|) <==> forall a :: a in t.contributions ==> !Blank(a)
  {
    ListIsWhole(t);
  }

  /** And then the list has every account, each once. */
  lemma ListHasAll(t: Tables)
    requires forall a :: a in t.contributions ==> !Blank(a)
    ensures multiset(Listed(t)) == multiset(t.contributions) + multiset(t.notes)
  {
    AllLater(t.contributions);
    ListedLength(t);
  }

  // ---- accounts come and go between pages ----------------------------------------------------

  datatype Visit = Visit(tables: Tables, asked: Option<int>)

  /** The pages shown when the i-th is read from the i-th state of the tables. */
  function Walk(visits: seq<Visit>, after: Option<Cursor>): seq<Account>
    decreases visits
  {
    if visits == [] then []
    else
      var p := AccountsPage(visits[0].tables, after, visits[0].asked);
      p.accounts + if p.next.None? then [] else Walk(visits[1..], p.next)
  }

  predicate Finishes(visits: seq<Visit>, after: Option<Cursor>)
    decreases visits
  {
    visits != []
    && (var next := AccountsPage(visits[0].tables, after, visits[0].asked).next;
        next.None? || Finishes(visits[1..], next))
  }

  ghost predicate Shown(a: Account, after: Option<Cursor>)
  {
    after.Some? ==> IsLater(after.value, a)
  }

  lemma RestSorted(t: Tables, after: Option<Cursor>)
    requires Separate(t)
    ensures var rest := Sort(Remaining(t, after), NotAfter);
      Sorted(rest, Before) && (forall x :: x in rest <==> x in Remaining(t, after)) && forall x :: x in rest ==> Shown(x, after)
  {
    RemainingDistinct(t, after);
    SortedDistinct(Remaining(t, after));
  }

  lemma JoinSorted(a: seq<Account>, b: seq<Account>)
    requires Sorted(a, Before) && Sorted(b, Before)
    requires a != [] && forall y :: y in b ==> Before(a[|a| - 1], y)
    ensures Sorted(a + b, Before)
  {
    forall i, j | 0 <= i < j < |a + b| ensures Before((a + b)[i], (a + b)[j]) {
      if i < |a| <= j {
        assert b[j - |a|] in b;
        if i < |a| - 1 { BeforeTransitive(a[i], a[|a| - 1], b[j - |a|]); }
      }
    }
  }

  /** Whatever changes between pages, nothing is shown twice or out of order. */
  lemma {:induction false} WalkInOrder(visits: seq<Visit>, after: Option<Cursor>)
    requires forall v :: v in visits ==> Separate(v.tables)
    ensures Sorted(Walk(visits, after), Before) && forall x :: x in Walk(visits, after) ==> Shown(x, after)
    decreases visits
  {
    if visits != [] {
      var v := visits[0];
      var p := AccountsPage(v.tables, after, v.asked);
      PageInOrder(v.tables, after, v.asked);
      if p.next.Some? {
        var later := Walk(visits[1..], p.next);
        WalkInOrder(visits[1..], p.next);
        PagesJoin(p.accounts, later, after, p.next.value);
      }
    }
  }

  lemma PageInOrder(t: Tables, after: Option<Cursor>, asked: Option<int>)
    requires Separate(t)
    ensures var p := AccountsPage(t, after, asked);
      && Sorted(p.accounts, Before) && (forall x :: x in p.accounts ==> Shown(x, after))
      && (p.next.Some? ==> p.accounts != [] && p.next.value == CursorOf(p.accounts[|p.accounts| - 1]))
  {
    PageIsPrefix(t, after, asked);
    RestSorted(t, after);
    FirstPart(Sort(Remaining(t, after), NotAfter), Limit(asked));
  }

  lemma PagesJoin(page: seq<Account>, later: seq<Account>, after: Option<Cursor>, next: Cursor)
    requires page != [] && next == CursorOf(page[|page| - 1])
    requires Sorted(page, Before) && forall x :: x in page ==> Shown(x, after)
    requires Sorted(later, Before) && forall y :: y in later ==> Shown(y, Some(next))
    ensures Sorted(page + later, Before) && forall x :: x in page + later ==> Shown(x, after)
  {
    var last := page[|page| - 1];
    forall y | y in later ensures Before(last, y) && Shown(y, after) {
      assert IsLater(CursorOf(last), y) && last in page;
      if after.Some? { BeforeTransitive(Account(after.value.at, after.value.id), last, y); }
    }
    JoinSorted(page, later);
  }

  lemma PastFirst(s: seq<Account>, k: nat, x: Account)
    requires Sorted(s, Before) && x in s && x !in First(k, s)
    ensures |s| > k && (k > 0 ==> Before(s[k - 1], x))
  {
    var i :| 0 <= i < |s| && s[i] == x;
  }

  /** An account there from the first page to the last is shown, exactly once. */
  lemma {:induction false} WalkMissesNone(visits: seq<Visit>, after: Option<Cursor>, x: Account)
    requires forall v :: v in visits ==> Separate(v.tables) && x in Remaining(v.tables, None)
    requires Finishes(visits, after) && Shown(x, after)
    ensures x in Walk(visits, after)
    decreases visits
  {
    var v := visits[0];
    var p := AccountsPage(v.tables, after, v.asked);
    PageIsPrefix(v.tables, after, v.asked);
    RestSorted(v.tables, after);
    var rest := Sort(Remaining(v.tables, after), NotAfter);
    assert x in Remaining(v.tables, None);
    assert x in Remaining(v.tables, after) && x in rest;
    if x !in p.accounts {
      PastFirst(rest, Limit(v.asked), x);
      WalkMissesNone(visits[1..], p.next, x);
    }
  }

  lemma ShownOnce(visits: seq<Visit>, x: Account)
    requires forall v :: v in visits ==> Separate(v.tables) && x in Remaining(v.tables, None)
    requires Finishes(visits, None)
    ensures multiset(Walk(visits, None))[x] == 1
  {
    WalkInOrder(visits, None);
    WalkMissesNone(visits, None, x);
    StrictlySortedIsDistinct(Walk(visits, None));
    OnceAtMost(Walk(visits, None), x);
  }

  // ---- the cursor as text -------------------------------------------------------------------------

  function EncodeCursor(c: Cursor): string
  {
    c.at + "|" + c.id
  }

  function IndexOf(s: string, c: char): (i: nat)
    ensures i <= |s| && (i < |s| ==> s[i] == c) && c !in s[..i]
  {
    if s == [] || s[0] == c then 0
    else
      var i := 1 + IndexOf(s[1..], c);
      assert s[..i] == [s[0]] + s[1..][..i - 1];
      i
  }

  function DecodeCursor(s: string): Option<Cursor>
  {
    if '|' !in s then None else Some(Cursor(s[..IndexOf(s, '|')], s[IndexOf(s, '|') + 1..]))
  }

  /** A cursor survives its encoding exactly when its time has no bar in it. */
  lemma CursorRoundTrips(c: Cursor)
    ensures DecodeCursor(EncodeCursor(c)) == Some(c) <==> '|' !in c.at
  {
    var s := EncodeCursor(c);
    var i := IndexOf(s, '|');
    assert s[|c.at|] == '|';
    assert s[..|c.at|] == c.at && s[|c.at| + 1..] == c.id;
    if i < |c.at| { assert c.at[i] == s[i] == '|'; }
    assert '|' !in s[..i];
    assert forall j :: 0 <= j < i ==> s[..i][j] == s[j];
  }

  /** Any text with a bar is the encoding of what it decodes to. */
  lemma DecodedEncodes(s: string)
    ensures DecodeCursor(s).Some? ==> EncodeCursor(DecodeCursor(s).value) == s
    ensures DecodeCursor(s).None? <==> '|' !in s
  {
    if '|' in s {
      var i := IndexOf(s, '|');
      assert s == s[..i] + [s[i]] + s[i + 1..];
    }
  }
}
