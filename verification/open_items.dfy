/** src/intake/open-items.ts: which cards stay open at Confirm, and who decides them. */
module OpenItems {
  import opened Optional

  /** A reference to a card of this draft (`cid:` and its id) or to a node of the graph. */
  datatype Ref = Cid(cid: string) | Existing(id: string)

  datatype Content =
    | NodeCard | EdgeCard(source: Ref, target: Ref) | ImageCard(shows: Ref) | PatchCard
    | QuestionCard(source: Ref, target: Ref) | KnownCard | EndedCard

  datatype CardState = Proposed | Accepted | Rejected | ContextOnly | Answered | LeftOpen

  datatype Card = Card(cid: string, content: Content, state: CardState, linkFailed: bool, edited: bool)

  datatype Reason = Undecided | LinkFailed

  function Refs(c: Content): seq<Ref>
  {
    match c
    case EdgeCard(s, t) => [s, t]
    case ImageCard(r) => [r]
    case QuestionCard(s, t) => [s, t]
    case _ => []
  }

  /** cardDeps */
  function Deps(c: Content): (r: set<string>)
    ensures forall cid :: cid in r <==> Cid(cid) in Refs(c)
  {
    set r | r in Refs(c) && r.Cid? :: r.cid
  }

  predicate TurnedDown(c: Card)
  {
    c.state == Rejected || c.state == ContextOnly
  }

  function OwnReason(c: Card): Option<Reason>
  {
    if c.content.KnownCard? then None
    else if c.state == Proposed || c.state == LeftOpen then Some(Undecided)
    else if c.linkFailed && c.state == Rejected && !c.edited then Some(LinkFailed)
    else None
  }

  predicate Has(cards: seq<Card>, cid: string)
  {
    exists i :: 0 <= i < |cards| && cards[i].cid == cid
  }

  /** byCid.get: the last card of that id. */
  function Find(cards: seq<Card>, cid: string): (c: Card)
    requires Has(cards, cid)
    ensures c in cards && c.cid == cid
  {
    var last := cards[|cards| - 1];
    if last.cid == cid then last else Find(cards[..|cards| - 1], cid)
  }

  /** Every card it needs is there, and is not turned down unless it is open. */
  predicate Stands(cards: seq<Card>, open: set<string>, c: Card)
  {
    forall d :: d in Deps(c.content) ==> Has(cards, d) && (TurnedDown(Find(cards, d)) ==> d in open)
  }

  /** Why a card is open when the cards in `open` are. */
  function Why(cards: seq<Card>, open: set<string>, c: Card): Option<Reason>
  {
    if c.content.NodeCard? || c.content.KnownCard? then OwnReason(c)
    else if !Stands(cards, open, c) then None
    else if OwnReason(c).Some? then OwnReason(c)
    else if c.state == Accepted && Deps(c.content) * open != {} then Some(Undecided)
    else None
  }

  // ---- the one pass ---------------------------------------------------------------------

  /** The first loop: node cards. */
  function NodesOpen(cards: seq<Card>): map<string, Reason>
  {
    if cards == [] then map[]
    else
      var front, last := NodesOpen(cards[..|cards| - 1]), cards[|cards| - 1];
      if last.content.NodeCard? && OwnReason(last).Some? then front[last.cid := OwnReason(last).value] else front
  }

  /** The second loop, over the first n cards: each sees what is open so far. */
  function Pass(cards: seq<Card>, n: nat): map<string, Reason>
    requires n <= |cards|
  {
    if n == 0 then NodesOpen(cards)
    else
      Turn(cards, Pass(cards, n - 1), cards[n - 1])
  }

  /** One turn of the second loop. */
  function Turn(cards: seq<Card>, open: map<string, Reason>, c: Card): map<string, Reason>
  {
    if c.content.NodeCard? || c.content.KnownCard? then open
    else
      var why := Why(cards, open.Keys, c);
      if why.Some? then open[c.cid := why.value] else open
  }

  function Live(cards: seq<Card>, skip: set<string>): (r: seq<Card>)
    ensures forall c :: c in r <==> c in cards && c.cid !in skip
  {
    if cards == [] then []
    else
      assert cards == cards[..|cards| - 1] + [cards[|cards| - 1]];
      var front, last := Live(cards[..|cards| - 1], skip), cards[|cards| - 1];
      if last.cid in skip then front else front + [last]
  }

  method TakeTurn(live: seq<Card>, open: map<string, Reason>, c: Card) returns (next: map<string, Reason>)
    ensures next == Turn(live, open, c)
  {
    if c.content.NodeCard? || c.content.KnownCard? { return open; }
    if exists d :: d in Deps(c.content) && (!Has(live, d) || (TurnedDown(Find(live, d)) && d !in open)) { return open; }
    var r := OwnReason(c);
    if r.None? && c.state == Accepted && exists d :: d in Deps(c.content) && d in open {
      var d :| d in Deps(c.content) && d in open;
      assert d in Deps(c.content) * open.Keys;
      r := Some(Undecided);
    }
    next := if r.Some? then open[c.cid := r.value] else open;
  }

  /** The first loop. */
  method OpenNodes(live: seq<Card>) returns (open: map<string, Reason>)
    ensures open == NodesOpen(live)
  {
    open := map[];
    for i := 0 to |live|
      invariant open == NodesOpen(live[..i])
    {
      assert live[..i + 1][..i] == live[..i];
      if live[i].content.NodeCard? {
        var r := OwnReason(live[i]);
        if r.Some? { open := open[live[i].cid := r.value]; }
      }
    }
    assert live[..|live|] == live;
  }

  method LeftOpenCards(cards: seq<Card>, skip: set<string>) returns (open: map<string, Reason>)
    ensures open == Pass(Live(cards, skip), |Live(cards, skip)|)
  {
    var live := Live(cards, skip);
    open := OpenNodes(live);
    for i := 0 to |live|
      invariant open == Pass(live, i)
    {
      open := TakeTurn(live, open, live[i]);
    }
  }

  // ---- the rules, and their least fixpoint ----------------------------------------------------

  ghost predicate UniqueCids(cards: seq<Card>)
  {
    forall i, j :: 0 <= i < j < |cards| ==> cards[i].cid != cards[j].cid
  }

  /** What validation of a card checks: a card it refers to is a node card. */
  ghost predicate DepsAreNodes(cards: seq<Card>)
  {
    forall c, d :: c in cards && d in Deps(c.content) && Has(cards, d) ==> Find(cards, d).content.NodeCard?
  }

  /** Everything the rules open from `open` is in it. */
  ghost predicate ClosedUnder(cards: seq<Card>, open: set<string>)
  {
    forall c :: c in cards && Why(cards, open, c).Some? ==> c.cid in open
  }

  /** The least set the rules lead to, each card with its reason. */
  ghost predicate IsLeast(cards: seq<Card>, open: map<string, Reason>)
  {
    && (forall cid :: cid in open ==> Has(cards, cid))
    && (forall c :: c in cards ==>
          if Why(cards, open.Keys, c).Some? then c.cid in open && open[c.cid] == Why(cards, open.Keys, c).value else c.cid !in open)
    && (forall larger :: ClosedUnder(cards, larger) ==> open.Keys <= larger)
  }

  /** More open cards only open more. */
  lemma WhyGrows(cards: seq<Card>, a: set<string>, b: set<string>, c: Card)
    requires a <= b && Why(cards, a, c).Some?
    ensures Why(cards, b, c).Some?
  {
    if Deps(c.content) * a != {} {
      var d :| d in Deps(c.content) * a;
      assert d in Deps(c.content) * b;
    }
  }

  lemma {:induction false} NodesOpenMembers(cards: seq<Card>, cid: string)
    ensures cid in NodesOpen(cards) <==> exists c :: c in cards && c.cid == cid && c.content.NodeCard? && OwnReason(c).Some?
  {
    if cards != [] {
      var front, last := cards[..|cards| - 1], cards[|cards| - 1];
      assert cards == front + [last];
      NodesOpenMembers(front, cid);
    }
  }

  lemma {:induction false} NodesOpenMeaning(cards: seq<Card>, cid: string)
    requires UniqueCids(cards)
    ensures cid in NodesOpen(cards) <==> exists c :: c in cards && c.cid == cid && c.content.NodeCard? && OwnReason(c).Some?
    ensures forall c :: c in cards && c.cid == cid && cid in NodesOpen(cards) ==> OwnReason(c) == Some(NodesOpen(cards)[cid])
  {
    if cards != [] {
      var front, last := cards[..|cards| - 1], cards[|cards| - 1];
      assert cards == front + [last];
      NodesOpenMeaning(front, cid);
    }
  }

  /** Without any assumption: whatever the rules close under has all the pass opens. */
  lemma {:induction false} PassIsSound(cards: seq<Card>, n: nat, larger: set<string>)
    requires n <= |cards| && ClosedUnder(cards, larger)
    ensures Pass(cards, n).Keys <= larger
  {
    if n == 0 {
      forall cid | cid in NodesOpen(cards) ensures cid in larger {
        NodesOpenMembers(cards, cid);
        var c :| c in cards && c.cid == cid && c.content.NodeCard? && OwnReason(c).Some?;
        assert Why(cards, larger, c).Some?;
      }
    } else {
      PassIsSound(cards, n - 1, larger);
      var c := cards[n - 1];
      if Why(cards, Pass(cards, n - 1).Keys, c).Some? { WhyGrows(cards, Pass(cards, n - 1).Keys, larger, c); }
    }
  }

  lemma {:induction false} FindUnique(cards: seq<Card>, c: Card)
    requires UniqueCids(cards) && c in cards
    ensures Has(cards, c.cid) && Find(cards, c.cid) == c
  {
    var i :| 0 <= i < |cards| && cards[i] == c;
    var found := Find(cards, c.cid);
    var j :| 0 <= j < |cards| && cards[j] == found;
  }

  /** The second loop opens no node and closes none. */
  lemma {:induction false} PassKeepsNodes(cards: seq<Card>, n: nat, cid: string)
    requires UniqueCids(cards) && n <= |cards|
    requires Has(cards, cid) && Find(cards, cid).content.NodeCard?
    ensures cid in Pass(cards, n) <==> cid in NodesOpen(cards)
  {
    if n > 0 {
      PassKeepsNodes(cards, n - 1, cid);
      FindUnique(cards, cards[n - 1]);
    }
  }

  /** What a card sees of the cards it needs is the same at any time. */
  lemma SameWhy(cards: seq<Card>, n: nat, c: Card)
    requires UniqueCids(cards) && DepsAreNodes(cards) && n <= |cards| && c in cards
    ensures Why(cards, Pass(cards, n).Keys, c) == Why(cards, NodesOpen(cards).Keys, c)
  {
    var now, nodes := Pass(cards, n).Keys, NodesOpen(cards).Keys;
    forall d | d in Deps(c.content) && Has(cards, d) ensures d in now <==> d in nodes { PassKeepsNodes(cards, n, d); }
    if Stands(cards, now, c) || Stands(cards, nodes, c) {
      assert forall d :: d in Deps(c.content) ==> (d in now <==> d in nodes);
      assert Deps(c.content) * now == Deps(c.content) * nodes;
      assert Stands(cards, now, c) && Stands(cards, nodes, c);
    }
  }

  /** A turn of the second loop concerns its own card only. */
  lemma PassSkips(cards: seq<Card>, n: nat, cid: string)
    requires 0 < n <= |cards| && cards[n - 1].cid != cid
    ensures cid in Pass(cards, n) <==> cid in Pass(cards, n - 1)
    ensures cid in Pass(cards, n) ==> Pass(cards, n)[cid] == Pass(cards, n - 1)[cid]
  {
  }

  lemma PassTakes(cards: seq<Card>, n: nat)
    requires 0 < n <= |cards|
    ensures var c, before := cards[n - 1], Pass(cards, n - 1); var why := Why(cards, before.Keys, c);
      Pass(cards, n) == if !c.content.NodeCard? && !c.content.KnownCard? && why.Some? then before[c.cid := why.value] else before
  {
  }

  lemma {:induction false} PassMeaning(cards: seq<Card>, n: nat, j: nat)
    requires UniqueCids(cards) && DepsAreNodes(cards) && n <= |cards| && j < |cards|
    ensures var c := cards[j]; var why := Why(cards, NodesOpen(cards).Keys, c);
      (c.cid in Pass(cards, n) <==> why.Some? && (c.content.NodeCard? || (j < n && !c.content.KnownCard?)))
      && (c.cid in Pass(cards, n) ==> Pass(cards, n)[c.cid] == why.value)
  {
    var c := cards[j];
    if n == 0 {
      NodesOpenMeaning(cards, c.cid);
    } else {
      PassMeaning(cards, n - 1, j);
      if n - 1 == j {
        SameWhy(cards, n - 1, c);
        PassTakes(cards, n);
      } else {
        PassSkips(cards, n, c.cid);
      }
    }
  }

  function Result(cards: seq<Card>): map<string, Reason>
  {
    Pass(cards, |cards|)
  }

  lemma {:induction false} PassOpensCards(cards: seq<Card>, n: nat, cid: string)
    requires UniqueCids(cards) && n <= |cards| && cid in Pass(cards, n)
    ensures Has(cards, cid)
  {
    if n == 0 {
      NodesOpenMeaning(cards, cid);
    } else if cards[n - 1].cid != cid {
      PassOpensCards(cards, n - 1, cid);
    }
  }

  /** When cards need only node cards, the one pass is the least fixpoint of the rules. */
  lemma PassIsLeast(cards: seq<Card>)
    requires UniqueCids(cards) && DepsAreNodes(cards)
    ensures IsLeast(cards, Result(cards))
  {
    var open := Result(cards);
    forall cid | cid in open ensures Has(cards, cid) { PassOpensCards(cards, |cards|, cid); }
    forall c | c in cards
      ensures if Why(cards, open.Keys, c).Some? then c.cid in open && open[c.cid] == Why(cards, open.Keys, c).value else c.cid !in open
    {
      var j :| 0 <= j < |cards| && cards[j] == c;
      PassMeaning(cards, |cards|, j);
      SameWhy(cards, |cards|, c);
    }
    forall larger | ClosedUnder(cards, larger) ensures open.Keys <= larger { PassIsSound(cards, |cards|, larger); }
  }

  ghost predicate SameCards(a: seq<Card>, b: seq<Card>)
  {
    forall c :: c in a <==> c in b
  }

  lemma SameRules(a: seq<Card>, b: seq<Card>, open: set<string>, c: Card)
    requires UniqueCids(a) && UniqueCids(b) && SameCards(a, b)
    ensures Why(a, open, c) == Why(b, open, c)
  {
    forall d ensures Has(a, d) == Has(b, d) && (Has(a, d) ==> Find(a, d) == Find(b, d)) {
      if Has(a, d) { assert Find(a, d) in b; FindUnique(b, Find(a, d)); }
      if Has(b, d) { assert Find(b, d) in a; FindUnique(a, Find(b, d)); }
    }
    assert Stands(a, open, c) == Stands(b, open, c);
  }

  /** The order of the cards does not matter. */
  lemma OrderDoesNotMatter(a: seq<Card>, b: seq<Card>)
    requires UniqueCids(a) && UniqueCids(b) && SameCards(a, b) && DepsAreNodes(a) && DepsAreNodes(b)
    ensures Result(a) == Result(b)
  {
    PassIsLeast(a);
    PassIsLeast(b);
    var ra, rb := Result(a), Result(b);
    forall c | c in a && Why(a, rb.Keys, c).Some? ensures c.cid in rb { SameRules(a, b, rb.Keys, c); }
    forall c | c in b && Why(b, ra.Keys, c).Some? ensures c.cid in ra { SameRules(a, b, ra.Keys, c); }
    assert ClosedUnder(a, rb.Keys) && ClosedUnder(b, ra.Keys);
    assert ra.Keys == rb.Keys;
    forall cid | cid in ra ensures ra[cid] == rb[cid] {
      var c := Find(a, cid);
      SameRules(a, b, ra.Keys, c);
    }
  }

  lemma OpenWhen(cards: seq<Card>, c: Card)
    requires UniqueCids(cards) && DepsAreNodes(cards) && c in cards
    ensures c.cid in Result(cards) <==> Why(cards, Result(cards).Keys, c).Some?
  {
    PassIsLeast(cards);
  }

  // ---- who is open, card by card ------------------------------------------------------------------

  /** The card of the draft this one needs has this id. */
  predicate Needs(c: Card, d: string)
  {
    match c.content
    case EdgeCard(source, target) => source == Cid(d) || target == Cid(d)
    case QuestionCard(source, target) => source == Cid(d) || target == Cid(d)
    case ImageCard(shows) => shows == Cid(d)
    case NodeCard => false
    case PatchCard => false
    case KnownCard => false
    case EndedCard => false
  }

  /** Nobody has decided it; or its link failed, which rejected it, and nobody has since. */
  predicate Waits(c: Card)
  {
    c.state in {Proposed, LeftOpen} || LinkWaits(c)
  }

  predicate LinkWaits(c: Card)
  {
    c.state == Rejected && c.linkFailed && !c.edited
  }

  /** There is such a card, not left out, and it was not turned down, unless it is open itself. */
  predicate Supported(cards: seq<Card>, skip: set<string>, open: set<string>, d: string)
  {
    exists e :: e in cards && e.cid == d && d !in skip && (e.state in {Rejected, ContextOnly} ==> d in open)
  }

  lemma NeedsAreDeps(c: Card, d: string)
    ensures Needs(c, d) <==> d in Deps(c.content)
  {
  }

  lemma SupportedMeans(cards: seq<Card>, skip: set<string>, open: set<string>, d: string)
    requires UniqueCids(cards)
    ensures var live := Live(cards, skip);
      Supported(cards, skip, open, d) <==> Has(live, d) && (TurnedDown(Find(live, d)) ==> d in open)
  {
    var live := Live(cards, skip);
    LiveKeepsUnique(cards, skip);
    if e :| e in cards && e.cid == d && d !in skip {
      assert e in live;
      FindUnique(live, e);
      assert forall f :: f in cards && f.cid == d ==> f in live && f == e by {
        forall f | f in cards && f.cid == d ensures f in live && f == e { assert f in live; FindUnique(live, f); }
      }
    }
  }

  /** The rules for one card. */
  predicate Opens(cards: seq<Card>, skip: set<string>, open: set<string>, c: Card)
  {
    && !c.content.KnownCard?
    && (forall d :: d in Deps(c.content) ==> Supported(cards, skip, open, d))
    && (Waits(c) || (c.state == Accepted && exists d :: d in Deps(c.content) && d in open))
  }

  lemma WhyMeans(cards: seq<Card>, skip: set<string>, open: set<string>, c: Card)
    requires UniqueCids(cards)
    ensures Why(Live(cards, skip), open, c).Some? <==> Opens(cards, skip, open, c)
  {
    forall d | d in Deps(c.content) { SupportedMeans(cards, skip, open, d); }
    if d :| d in Deps(c.content) && d in open { assert d in Deps(c.content) * open; }
    if d :| d in Deps(c.content) * open { assert d in Deps(c.content) && d in open; }
  }

  lemma LeftOutIsShut(cards: seq<Card>, skip: set<string>, cid: string)
    requires UniqueCids(cards) && cid in skip
    ensures cid !in Result(Live(cards, skip))
  {
    var live := Live(cards, skip);
    LiveKeepsUnique(cards, skip);
    if cid in Result(live) { PassOpensCards(live, |live|, cid); }
  }

  /**
   * A card is left open exactly when it is not left out, is no known card, all it needs is supported, and it waits or, accepted, needs
   * an open card. Its reason is the failed link when that is why it waits, else that nobody decided it.
   */
  lemma OpenExactly(cards: seq<Card>, skip: set<string>, c: Card)
    requires UniqueCids(cards) && DepsAreNodes(Live(cards, skip)) && c in cards
    ensures var open := Result(Live(cards, skip));
      && (c.cid in open
          <==> c.cid !in skip && !c.content.KnownCard? && (forall d :: Needs(c, d) ==> Supported(cards, skip, open.Keys, d))
               && (Waits(c) || (c.state == Accepted && exists d :: Needs(c, d) && d in open)))
      && (c.cid in open ==> open[c.cid] == if LinkWaits(c) then LinkFailed else Undecided)
  {
    var live := Live(cards, skip);
    var open := Result(live);
    forall d ensures Needs(c, d) <==> d in Deps(c.content) { NeedsAreDeps(c, d); }
    if c.cid in skip {
      LeftOutIsShut(cards, skip, c.cid);
    } else {
      LiveKeepsUnique(cards, skip);
      OpenWhen(live, c);
      WhyMeans(cards, skip, open.Keys, c);
      if c.cid in open { ReasonsAreFixed(live, |live|, c); }
    }
  }

  /** An open card's needs are all there, and none is turned down for good. */
  lemma OpenCardsStand(cards: seq<Card>, c: Card, d: string)
    requires UniqueCids(cards) && DepsAreNodes(cards) && c in cards && c.cid in Result(cards) && d in Deps(c.content)
    ensures Has(cards, d) && (TurnedDown(Find(cards, d)) ==> d in Result(cards))
  {
    PassIsLeast(cards);
    assert Stands(cards, Result(cards).Keys, c);
  }

  /** An accepted card that stands and is not left open needs no open card: Confirm can write it now. */
  lemma AcceptedNeedsNothingOpen(cards: seq<Card>, c: Card)
    requires UniqueCids(cards) && DepsAreNodes(cards) && c in cards && c.state == Accepted && c.cid !in Result(cards)
    requires Stands(cards, Result(cards).Keys, c)
    ensures Deps(c.content) * Result(cards).Keys == {}
  {
    OpenWhen(cards, c);
    assert OwnReason(c).None?;
    assert c.content.NodeCard? || c.content.KnownCard? ==> Deps(c.content) == {};
    assert Deps(c.content) * Result(cards).Keys == {};
  }

  // ---- when the order matters ---------------------------------------------------------------------

  /** What opens on the node cards alone. */
  ghost function FirstRound(cards: seq<Card>): set<string>
  {
    set c | c in cards && Why(cards, NodesOpen(cards).Keys, c).Some? :: c.cid
  }

  lemma {:induction false} PassOnlyGrows(cards: seq<Card>, n: nat)
    requires n <= |cards|
    ensures NodesOpen(cards).Keys <= Pass(cards, n).Keys
  {
    if n > 0 { PassOnlyGrows(cards, n - 1); }
  }

  /** In any order the first round opens. */
  lemma {:induction false} PassHasFirstRound(cards: seq<Card>, n: nat, j: nat)
    requires UniqueCids(cards) && j < n <= |cards| && Why(cards, NodesOpen(cards).Keys, cards[j]).Some?
    ensures cards[j].cid in Pass(cards, n)
  {
    var c := cards[j];
    if j < n - 1 {
      PassHasFirstRound(cards, n - 1, j);
    } else {
      PassOnlyGrows(cards, j);
      if c.content.NodeCard? { NodesOpenMeaning(cards, c.cid); }
      WhyGrows(cards, NodesOpen(cards).Keys, Pass(cards, j).Keys, c);
    }
  }

  lemma FirstRoundOpens(cards: seq<Card>)
    requires UniqueCids(cards)
    ensures FirstRound(cards) <= Result(cards).Keys
  {
    forall cid | cid in FirstRound(cards) ensures cid in Result(cards) {
      var c :| c in cards && Why(cards, NodesOpen(cards).Keys, c).Some? && c.cid == cid;
      var j :| 0 <= j < |cards| && cards[j] == c;
      PassHasFirstRound(cards, |cards|, j);
    }
  }

  lemma SameNodes(a: seq<Card>, b: seq<Card>)
    requires SameCards(a, b)
    ensures NodesOpen(a).Keys == NodesOpen(b).Keys
  {
    forall cid ensures cid in NodesOpen(a) <==> cid in NodesOpen(b) {
      NodesOpenMembers(a, cid);
      NodesOpenMembers(b, cid);
    }
  }

  lemma SameFirstRound(a: seq<Card>, b: seq<Card>)
    requires UniqueCids(a) && UniqueCids(b) && SameCards(a, b)
    ensures FirstRound(a) == FirstRound(b)
  {
    SameNodes(a, b);
    forall c | c in a ensures Why(a, NodesOpen(a).Keys, c) == Why(b, NodesOpen(a).Keys, c) { SameRules(a, b, NodesOpen(a).Keys, c); }
  }

  /** Where the first round opens nothing more, it is the result in any order. */
  lemma ClosedFirstRound(cards: seq<Card>, again: seq<Card>)
    requires UniqueCids(cards) && UniqueCids(again) && SameCards(cards, again) && ClosedUnder(cards, FirstRound(cards))
    ensures Result(again).Keys == FirstRound(cards)
  {
    SameFirstRound(cards, again);
    forall c | c in again && Why(again, FirstRound(cards), c).Some? ensures c.cid in FirstRound(cards) {
      SameRules(cards, again, FirstRound(cards), c);
    }
    PassIsSound(again, |again|, FirstRound(cards));
    FirstRoundOpens(again);
  }

  lemma {:induction false} ReasonsAreFixed(cards: seq<Card>, n: nat, c: Card)
    requires UniqueCids(cards) && n <= |cards| && c in cards && c.cid in Pass(cards, n)
    ensures Pass(cards, n)[c.cid] == if OwnReason(c).Some? then OwnReason(c).value else Undecided
  {
    if n == 0 {
      NodesOpenMeaning(cards, c.cid);
    } else if cards[n - 1].cid == c.cid {
      FindUnique(cards, cards[n - 1]);
      FindUnique(cards, c);
      if c.cid in Pass(cards, n - 1) { ReasonsAreFixed(cards, n - 1, c); }
    } else {
      ReasonsAreFixed(cards, n - 1, c);
    }
  }

  lemma SameKeysSameResult(a: seq<Card>, b: seq<Card>)
    requires UniqueCids(a) && UniqueCids(b) && SameCards(a, b) && Result(a).Keys == Result(b).Keys
    ensures Result(a) == Result(b)
  {
    forall cid | cid in Result(a) ensures Result(a)[cid] == Result(b)[cid] {
      PassOpensCards(a, |a|, cid);
      var c := Find(a, cid);
      ReasonsAreFixed(a, |a|, c);
      ReasonsAreFixed(b, |b|, c);
    }
  }

  lemma {:induction false} LiveKeepsUnique(cards: seq<Card>, skip: set<string>)
    requires UniqueCids(cards)
    ensures UniqueCids(Live(cards, skip))
  {
    if cards != [] {
      var front := cards[..|cards| - 1];
      LiveKeepsUnique(front, skip);
      assert forall c :: c in Live(front, skip) ==> c in front;
    }
  }

  /** The same cards with this one first, and with this one last. */
  lemma MovedCards(cards: seq<Card>, c: Card) returns (first: seq<Card>, last: seq<Card>)
    requires UniqueCids(cards) && c in cards
    ensures UniqueCids(first) && SameCards(cards, first) && first != [] && first[0] == c
    ensures UniqueCids(last) && SameCards(cards, last) && last != [] && last[|last| - 1] == c
  {
    var rest := Live(cards, {c.cid});
    LiveKeepsUnique(cards, {c.cid});
    first, last := [c] + rest, rest + [c];
    forall x ensures x in cards <==> x == c || x in rest {
      if x in cards && x.cid == c.cid { FindUnique(cards, x); FindUnique(cards, c); }
    }
  }

  /** Taken first, a card sees the node cards only. */
  lemma {:induction false} FirstStaysShut(cards: seq<Card>, n: nat)
    requires UniqueCids(cards) && 1 <= n <= |cards| && Why(cards, NodesOpen(cards).Keys, cards[0]).None?
    ensures cards[0].cid !in Pass(cards, n)
  {
    if n == 1 {
      assert Pass(cards, 0) == NodesOpen(cards);
      NodesOpenMeaning(cards, cards[0].cid);
    } else {
      FirstStaysShut(cards, n - 1);
    }
  }

  /** Taken last, it sees the whole first round. */
  lemma LastOpens(cards: seq<Card>)
    requires UniqueCids(cards) && cards != []
    requires var c := cards[|cards| - 1]; c.cid !in FirstRound(cards) && Why(cards, FirstRound(cards), c).Some?
    ensures cards[|cards| - 1].cid in Result(cards)
  {
    var n, c := |cards| - 1, cards[|cards| - 1];
    forall cid | cid in FirstRound(cards) ensures cid in Pass(cards, n) {
      var x :| x in cards && Why(cards, NodesOpen(cards).Keys, x).Some? && x.cid == cid;
      var j :| 0 <= j < |cards| && cards[j] == x;
      PassHasFirstRound(cards, n, j);
    }
    WhyGrows(cards, FirstRound(cards), Pass(cards, n).Keys, c);
  }

  /** The order of the cards does not matter exactly when the first round opens nothing more. */
  lemma OrderMattersExactly(cards: seq<Card>)
    requires UniqueCids(cards)
    ensures (forall again :: UniqueCids(again) && SameCards(cards, again) ==> Result(again) == Result(cards))
      <==> ClosedUnder(cards, FirstRound(cards))
  {
    if ClosedUnder(cards, FirstRound(cards)) {
      ClosedFirstRound(cards, cards);
      forall again | UniqueCids(again) && SameCards(cards, again) ensures Result(again) == Result(cards) {
        ClosedFirstRound(cards, again);
        SameKeysSameResult(again, cards);
      }
    } else {
      var c :| c in cards && Why(cards, FirstRound(cards), c).Some? && c.cid !in FirstRound(cards);
      var first, last := MovedCards(cards, c);
      ShutFirstOpenLast(cards, c, first, last);
    }
  }

  lemma ShutFirstOpenLast(cards: seq<Card>, c: Card, first: seq<Card>, last: seq<Card>)
    requires UniqueCids(cards) && c in cards && Why(cards, FirstRound(cards), c).Some? && c.cid !in FirstRound(cards)
    requires UniqueCids(first) && SameCards(cards, first) && first != [] && first[0] == c
    requires UniqueCids(last) && SameCards(cards, last) && last != [] && last[|last| - 1] == c
    ensures c.cid !in Result(first) && c.cid in Result(last)
  {
    SameNodes(cards, first);
    SameRules(cards, first, NodesOpen(cards).Keys, c);
    FirstStaysShut(first, |first|);
    SameFirstRound(cards, last);
    SameRules(cards, last, FirstRound(cards), c);
    LastOpens(last);
  }

  const UNDECIDED_EDGE := Card("a", EdgeCard(Existing("x"), Existing("y")), Proposed, false, false)
  const NEEDS_THE_EDGE := Card("b", ImageCard(Cid("a")), Accepted, false, false)

  /** Were a card to need one that is not a node card, the order could matter. */
  lemma OrderMattersOtherwise()
    ensures SameCards([UNDECIDED_EDGE, NEEDS_THE_EDGE], [NEEDS_THE_EDGE, UNDECIDED_EDGE])
    ensures "b" in Result([UNDECIDED_EDGE, NEEDS_THE_EDGE])
    ensures "b" !in Result([NEEDS_THE_EDGE, UNDECIDED_EDGE])
  {
    var a, b := UNDECIDED_EDGE, NEEDS_THE_EDGE;
    assert Refs(a.content) == [Existing("x"), Existing("y")] && Refs(b.content) == [Cid("a")];
    assert Deps(a.content) == {} && "a" in Deps(b.content);
    NoNodes([a, b]);
    NoNodes([b, a]);
    assert Why([a, b], {}, a) == Some(Undecided) && Pass([a, b], 1) == map["a" := Undecided];
    assert Find([a, b], "a") == a && Find([b, a], "a") == a by { assert [a, b][..1] == [a]; }
    assert "a" in Deps(b.content) * Pass([a, b], 1).Keys;
    assert Why([a, b], Pass([a, b], 1).Keys, b) == Some(Undecided);
    assert Deps(b.content) * {} == {};
    assert Pass([b, a], 1) == map[];
  }

  lemma {:induction false} NoNodes(cards: seq<Card>)
    requires forall i :: 0 <= i < |cards| ==> !cards[i].content.NodeCard?
    ensures NodesOpen(cards) == map[]
  {
    if cards != [] { NoNodes(cards[..|cards| - 1]); }
  }

  // ---- deciding an open item -----------------------------------------------------------------

  datatype Decision = Decision(decidedBy: string, inDraft: string, outcome: string)

  type Key = (string, string)

  /** intake_open_items, by draft and card. */
  type Rows = map<Key, Option<Decision>>

  datatype Write = Insert(key: Key) | Decide(key: Key, decision: Decision)

  /** INSERT OR IGNORE; UPDATE ... WHERE decided_at IS NULL. The flag is decideOpenItem's result. */
  function Apply(rows: Rows, w: Write): (Rows, bool)
  {
    match w
    case Insert(key) => (if key in rows then rows else rows[key := None], false)
    case Decide(key, d) => if key in rows && rows[key].None? then (rows[key := Some(d)], true) else (rows, false)
  }

  function ApplyAll(rows: Rows, writes: seq<Write>): Rows
    decreases writes
  {
    if writes == [] then rows else ApplyAll(Apply(rows, writes[0]).0, writes[1..])
  }

  /** How often someone was told theirs is the decision on this item. */
  function Won(rows: Rows, writes: seq<Write>, key: Key): nat
    decreases writes
  {
    if writes == [] then 0
    else
      (if writes[0].Decide? && writes[0].key == key && Apply(rows, writes[0]).1 then 1 else 0)
      + Won(Apply(rows, writes[0]).0, writes[1..], key)
  }

  predicate Settled(rows: Rows, key: Key)
  {
    key in rows && rows[key].Some?
  }

  /** The first decision on an item stands, and it is the only one reported as made. */
  lemma {:induction false} FirstDecisionWins(rows: Rows, writes: seq<Write>, key: Key)
    ensures Settled(rows, key) ==> key in ApplyAll(rows, writes) && ApplyAll(rows, writes)[key] == rows[key] && Won(rows, writes, key) == 0
    ensures !Settled(rows, key) ==> Won(rows, writes, key) == if Settled(ApplyAll(rows, writes), key) then 1 else 0
    decreases writes
  {
    if writes != [] { FirstDecisionWins(Apply(rows, writes[0]).0, writes[1..], key); }
  }

  /** No decision on this item among these writes while the item is there. */
  ghost predicate NoneYet(rows: Rows, writes: seq<Write>, key: Key, n: nat)
    requires n <= |writes|
    decreases writes
  {
    n == 0 || (!(writes[0].Decide? && writes[0].key == key && key in rows) && NoneYet(Apply(rows, writes[0]).0, writes[1..], key, n - 1))
  }

  /** The decision that stands is the first one made on the item once it was there. */
  lemma {:induction false} FirstDecisionIsKept(rows: Rows, writes: seq<Write>, key: Key) returns (k: nat)
    requires !Settled(rows, key) && Settled(ApplyAll(rows, writes), key)
    ensures k < |writes| && writes[k] == Decide(key, ApplyAll(rows, writes)[key].value) && NoneYet(rows, writes, key, k)
    decreases writes
  {
    var next := Apply(rows, writes[0]).0;
    if Settled(next, key) {
      k := 0;
      FirstDecisionWins(next, writes[1..], key);
    } else {
      k := FirstDecisionIsKept(next, writes[1..], key);
      k := k + 1;
    }
  }

  class OpenItemTable {
    var rows: Rows

    constructor ()
      ensures rows == map[]
    {
      rows := map[];
    }

    method DecideOpenItem(key: Key, d: Decision) returns (decided: bool)
      modifies this
      ensures (rows, decided) == Apply(old(rows), Decide(key, d))
    {
      decided := key in rows && rows[key].None?;
      if decided { rows := rows[key := Some(d)]; }
    }
  }
}
