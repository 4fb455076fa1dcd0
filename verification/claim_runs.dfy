/** Whole runs of claim steps, and what the public face and the handles promise along them. */
module ClaimRuns {
  import opened Finite
  import opened Optional
  import opened Ordering
  import opened Sorting
  import opened Claims
  import opened ClaimEdits

  /** The steps of the claim store, then what other writers do to the pages, aliases and names it reads. */
  datatype Action =
    | Ask(request: Request)
    | Approve(id: nat)
    | Reject(id: nat)
    | End(id: nat, actor: string, revoke: bool)
    | Choose(contributor: string, node: string, handle: string)
    | Merge(from: string, into: string)
    | Write(page: string, retired: bool, face: Option<Face>)
    | Create(page: string, kind: NodeType, retired: bool, face: Option<Face>, handles: set<string>)
    | Rename(person: string, name: string)
    | Invite(person: string, self: Option<string>)

  datatype Step = Step(nowMs: nat, action: Action)

  function Exec(s: State, step: Step): State
  {
    var now := step.nowMs / 1000;
    match step.action
    case Ask(r) => RequestClaim(s, r, now).1
    case Approve(id) => ApproveClaim(s, id, now).1
    case Reject(id) => RejectClaim(s, id, now).1
    case End(id, actor, revoke) => EndClaim(s, id, actor, revoke, now).1
    case Choose(contributor, node, handle) => SetHandle(s, contributor, node, handle, step.nowMs).1
    case Merge(from, into) => MergePages(s, from, into).1
    case Write(page, retired, face) => WritePage(s, page, retired, face)
    case Create(page, kind, retired, face, handles) => CreatePage(s, page, kind, retired, face, handles)
    case Rename(person, name) => NameContributor(s, person, name)
    case Invite(person, self) => InviteTo(s, person, self)
  }

  function After(s: State, steps: seq<Step>): State
    decreases steps
  {
    if steps == [] then s else After(Exec(s, steps[0]), steps[1..])
  }

  /** Before anyone has claimed anything. */
  lemma UnclaimedIsValid(s: State)
    requires s.claims == [] && s.queue == map[] && forall n :: n in s.nodes ==> s.nodes[n].claimed == None
    ensures Valid(s)
  {
    forall n | n in s.nodes ensures PageAgrees(s, n) {
      assert Where(s.claims, Approves(n)) == [];
    }
  }

  /** What this step writes to the page, if anything, agrees with the private claims. */
  ghost predicate HonestFor(s: State, a: Action, n: string)
  {
    match a
    case Write(page, _, face) => n == page && n in s.nodes ==> Faithful(s, n, AsRead(face))
    case Create(page, _, _, face, _) => n == page && n !in s.nodes ==> face.None?
    case Rename(person, name) => n in s.nodes ==> SameNames(s, n, person, name)
    case _ => true
  }

  predicate OfTheStore(a: Action)
  {
    a.Ask? || a.Approve? || a.Reject? || a.End? || a.Choose?
  }

  /** The claim store's own steps keep everything in agreement. */
  lemma StoreStepKeeps(s: State, step: Step)
    requires Sound(s) && OfTheStore(step.action)
    ensures var t := Exec(s, step);
      Sound(t) && t.nodes.Keys == s.nodes.Keys && forall n :: n in s.nodes && PageAgrees(s, n) ==> PageAgrees(t, n)
  {
    var now := step.nowMs / 1000;
    match step.action
    case Ask(r) => RequestKeeps(s, r, now);
    case Approve(id) => ApproveKeeps(s, id, now);
    case Reject(id) => RejectKeeps(s, id, now);
    case End(id, actor, revoke) => EndKeeps(s, id, actor, revoke, now);
    case Choose(contributor, node, handle) => SetHandleKeeps(s, contributor, node, handle, step.nowMs);
  }

  lemma EditKeepsSound(s: State, step: Step)
    requires Sound(s) && !OfTheStore(step.action)
    ensures var t := Exec(s, step);
      Sound(t) && t.nodes.Keys == s.nodes.Keys + if step.action.Create? then {step.action.page} else {}
  {
    match step.action
    case Merge(from, into) => MergeKeepsSound(s, from, into);
    case Write(page, retired, face) => WriteKeepsSound(s, page, retired, face);
    case Create(page, kind, retired, face, handles) => CreateKeepsSound(s, page, kind, retired, face, handles);
    case Rename(person, name) => NamesKeepSound(s, person, name);
    case Invite(person, self) => InvitesKeepSound(s, person, self);
  }

  /** The private tables agree among themselves whatever the step, and no page disappears. */
  lemma StepKeepsSound(s: State, step: Step)
    requires Sound(s)
    ensures Sound(Exec(s, step)) && s.nodes.Keys <= Exec(s, step).nodes.Keys
    ensures !step.action.Create? ==> Exec(s, step).nodes.Keys == s.nodes.Keys
  {
    if OfTheStore(step.action) { StoreStepKeeps(s, step); } else { EditKeepsSound(s, step); }
  }

  lemma EditExactly(s: State, step: Step, n: string)
    requires Sound(s) && n in s.nodes && PageAgrees(s, n) && !OfTheStore(step.action)
    ensures n in Exec(s, step).nodes && (PageAgrees(Exec(s, step), n) <==> HonestFor(s, step.action, n))
  {
    match step.action
    case Merge(from, into) => MergeKeepsPage(s, from, into, n);
    case Write(page, retired, face) => WriteExactly(s, page, retired, face, n);
    case Create(page, kind, retired, face, handles) =>
      if page !in s.nodes { CreateExactly(s, page, kind, retired, face, handles); }
    case Rename(person, name) => RenameExactly(s, person, name, n);
    case Invite(person, self) => InviteKeeps(s, person, self, n);
  }

  /** A page that agrees still agrees after the step exactly when the step is honest about it. */
  lemma PageStep(s: State, step: Step, n: string)
    requires Sound(s) && n in s.nodes && PageAgrees(s, n)
    ensures n in Exec(s, step).nodes && (PageAgrees(Exec(s, step), n) <==> HonestFor(s, step.action, n))
  {
    if OfTheStore(step.action) { StoreStepKeeps(s, step); } else { EditExactly(s, step, n); }
  }

  ghost predicate HonestRun(s: State, steps: seq<Step>, n: string)
    decreases steps
  {
    steps == [] || (HonestFor(s, steps[0].action, n) && HonestRun(Exec(s, steps[0]), steps[1..], n))
  }

  ghost predicate AgreesThroughout(s: State, steps: seq<Step>, n: string)
    decreases steps
  {
    n in s.nodes && PageAgrees(s, n) && (steps == [] || AgreesThroughout(Exec(s, steps[0]), steps[1..], n))
  }

  /** The private tables agree after every run, whatever other writers do. */
  lemma {:induction false} RunKeepsSound(s: State, steps: seq<Step>)
    requires Sound(s)
    ensures Sound(After(s, steps)) && s.nodes.Keys <= After(s, steps).nodes.Keys
    decreases steps
  {
    if steps != [] {
      StepKeepsSound(s, steps[0]);
      RunKeepsSound(Exec(s, steps[0]), steps[1..]);
    }
  }

  /** A page agrees with the claims all along a run exactly when every write to it is honest, whatever is written elsewhere. */
  lemma {:induction false} PageAgreesExactly(s: State, steps: seq<Step>, n: string)
    requires Sound(s) && n in s.nodes && PageAgrees(s, n)
    ensures AgreesThroughout(s, steps, n) <==> HonestRun(s, steps, n)
    ensures HonestRun(s, steps, n) ==> n in After(s, steps).nodes && PageAgrees(After(s, steps), n)
    decreases steps
  {
    if steps != [] {
      StepKeepsSound(s, steps[0]);
      PageStep(s, steps[0], n);
      if PageAgrees(Exec(s, steps[0]), n) { PageAgreesExactly(Exec(s, steps[0]), steps[1..], n); }
    }
  }

  ghost predicate Honest(s: State, a: Action)
  {
    && (forall n :: n in s.nodes ==> HonestFor(s, a, n))
    && (a.Create? ==> HonestFor(s, a, a.page))
  }

  ghost predicate AllHonest(s: State, steps: seq<Step>)
    decreases steps
  {
    steps == [] || (Honest(s, steps[0].action) && AllHonest(Exec(s, steps[0]), steps[1..]))
  }

  ghost predicate ValidThroughout(s: State, steps: seq<Step>)
    decreases steps
  {
    Valid(s) && (steps == [] || ValidThroughout(Exec(s, steps[0]), steps[1..]))
  }

  lemma NewPage(s: State, step: Step)
    requires Sound(s) && step.action.Create? && (step.action.page in s.nodes ==> PageAgrees(s, step.action.page))
    ensures var t, page := Exec(s, step), step.action.page;
      t.nodes.Keys == s.nodes.Keys + {page} && (PageAgrees(t, page) <==> HonestFor(s, step.action, page))
  {
    var a := step.action;
    if a.page in s.nodes {
      PageStep(s, step, a.page);
    } else {
      CreateExactly(s, a.page, a.kind, a.retired, a.face, a.handles);
    }
  }

  lemma HonestKeepsValid(s: State, step: Step)
    requires Valid(s) && Honest(s, step.action)
    ensures Valid(Exec(s, step))
  {
    var t := Exec(s, step);
    StepKeepsSound(s, step);
    forall n | n in t.nodes ensures PageAgrees(t, n) { HonestPage(s, step, n); }
  }

  lemma HonestPage(s: State, step: Step, n: string)
    requires Valid(s) && Honest(s, step.action) && n in Exec(s, step).nodes
    ensures PageAgrees(Exec(s, step), n)
  {
    if n in s.nodes {
      PageStep(s, step, n);
    } else {
      StepKeepsSound(s, step);
      NewPage(s, step);
    }
  }

  lemma DishonestBreaks(s: State, step: Step)
    requires Valid(s) && !Honest(s, step.action)
    ensures !Valid(Exec(s, step))
  {
    if n :| n in s.nodes && !HonestFor(s, step.action, n) {
      PageStep(s, step, n);
    } else {
      NewPage(s, step);
    }
  }

  lemma StepExactly(s: State, step: Step)
    requires Valid(s)
    ensures Valid(Exec(s, step)) <==> Honest(s, step.action)
  {
    if Honest(s, step.action) { HonestKeepsValid(s, step); } else { DishonestBreaks(s, step); }
  }

  /** Claims, queue rows, public faces and handles agree all along a run exactly when every write of other writers is honest. */
  lemma {:induction false} RunKeepsValid(s: State, steps: seq<Step>)
    requires Valid(s)
    ensures ValidThroughout(s, steps) <==> AllHonest(s, steps)
    ensures AllHonest(s, steps) ==> Valid(After(s, steps))
    decreases steps
  {
    if steps != [] {
      StepExactly(s, steps[0]);
      if Valid(Exec(s, steps[0])) { RunKeepsValid(Exec(s, steps[0]), steps[1..]); }
    }
  }

  /** Publishing a page makes its face agree again, whatever was written there before. */
  lemma PublishingMends(s: State, node: string, change: HandleChange, now: nat)
    requires node in s.nodes
    ensures FaceAgrees(Published(s, node, change, now), node)
  {
    assert ApprovedFor(Published(s, node, change, now), node) == ApprovedFor(s, node);
  }

  // ---- what the public face says ------------------------------------------------------

  ghost predicate ClaimedBy(s: State, node: string, contributor: string)
  {
    exists i :: 0 <= i < |s.claims| && s.claims[i].node == node && s.claims[i].status == Approved && s.claims[i].contributor == contributor
  }

  /** Someone holds the node under a public, nonempty name. */
  ghost predicate ShownAs(s: State, node: string, name: string)
  {
    exists i :: 0 <= i < |s.claims| && s.claims[i].node == node && s.claims[i].status == Approved
      && Named(s.claims[i], s.names) && s.names[s.claims[i].contributor] == name
  }

  lemma {:induction false} NamesOfMeaning(approved: seq<Claim>, names: map<string, string>)
    ensures var r := NamesOf(approved, names);
      && Distinct(r)
      && (forall n :: n in r <==> exists c :: c in approved && Named(c, names) && names[c.contributor] == n)
  {
    if approved != [] {
      var front, last := approved[..|approved| - 1], approved[|approved| - 1];
      NamesOfMeaning(front, names);
      assert approved == front + [last];
      var before, r := NamesOf(front, names), NamesOf(approved, names);
      forall i, j | 0 <= i < j < |r| ensures r[i] != r[j] {
        assert r[i] == before[i] && before[i] in before;
        if j < |before| { assert r[j] == before[j]; }
      }
      forall n ensures n in NamesOf(approved, names) <==> exists c :: c in approved && Named(c, names) && names[c.contributor] == n {
        assert n in NamesOf(approved, names) <==> n in NamesOf(front, names) || (Named(last, names) && names[last.contributor] == n);
      }
    }
  }

  /** metadata.claimed exists exactly while a claim is approved, and lists each public claimant's name once. */
  lemma FaceMeaning(s: State, node: string)
    requires node in s.nodes && FaceAgrees(s, node)
    ensures s.nodes[node].claimed.Some? <==> exists who :: ClaimedBy(s, node, who)
    ensures s.nodes[node].claimed.Some? ==>
      var listed := s.nodes[node].claimed.value.byNames;
      && Distinct(listed)
      && (forall name :: name in listed <==> ShownAs(s, node, name))
  {
    var approved := ApprovedFor(s, node);
    NamesOfMeaning(approved, s.names);
    assert s.nodes[node].claimed.Some? ==> s.nodes[node].claimed.value.byNames == NamesOf(approved, s.names);
    if approved != [] {
      ApprovedMembers(s, node, approved[0]);
      assert ClaimedBy(s, node, approved[0].contributor);
    }
    if who :| ClaimedBy(s, node, who) {
      var i :| 0 <= i < |s.claims| && s.claims[i].node == node && s.claims[i].status == Approved;
      ApprovedMembers(s, node, s.claims[i]);
    }
    forall name ensures name in NamesOf(approved, s.names) <==> ShownAs(s, node, name) {
      if c :| c in approved && Named(c, s.names) && s.names[c.contributor] == name { ApprovedMembers(s, node, c); }
      if ShownAs(s, node, name) {
        var i :| 0 <= i < |s.claims| && s.claims[i].node == node && s.claims[i].status == Approved
          && Named(s.claims[i], s.names) && s.names[s.claims[i].contributor] == name;
        ApprovedMembers(s, node, s.claims[i]);
      }
    }
  }

  lemma {:induction false} ContributorsEmpty(claims: seq<Claim>, except: string)
    ensures Contributors(claims, except) == [] <==> forall c :: c in claims ==> c.contributor == except
  {
    if claims != [] {
      ContributorsEmpty(claims[1..], except);
      assert claims == [claims[0]] + claims[1..];
    }
  }

  lemma NoConflictsMeansFree(s: State, r: Request)
    requires r.node in s.nodes && s.nodes[r.node].kind == Practitioner
    requires FindActive(s.claims, r.contributor, r.node) == |s.claims|
    ensures Conflicts(s, r.contributor, r.node) == [] <==> forall who :: !ClaimedBy(s, r.node, who)
  {
    FindActiveMeaning(s.claims, r.contributor, r.node);
    ContributorsEmpty(ApprovedFor(s, r.node), r.contributor);
    if Conflicts(s, r.contributor, r.node) == [] {
      forall who ensures !ClaimedBy(s, r.node, who) {
        if ClaimedBy(s, r.node, who) {
          var i :| 0 <= i < |s.claims| && s.claims[i].node == r.node && s.claims[i].status == Approved && s.claims[i].contributor == who;
          ApprovedMembers(s, r.node, s.claims[i]);
        }
      }
    }
    if ApprovedFor(s, r.node) != [] {
      var c := ApprovedFor(s, r.node)[0];
      ApprovedMembers(s, r.node, c);
      assert ClaimedBy(s, r.node, c.contributor);
    }
  }

  lemma CreatedStatus(s: State, r: Request, now: nat, t: State)
    requires Created(s, r, now, t)
    ensures |t.claims| == |s.claims| + 1
    ensures t.claims[|s.claims|].status == Approved <==> Instant(s, r)
  {
    if Instant(s, r) {
      InstantIsApproval(s, NewRow(s, r, now), AskedHandle(r), now);
      var marked := NewRow(s, r, now).(status := Approved, reviewedAt := Some(now));
      ApprovalKeepsClaims(s.(claims := s.claims + [marked]), r.node, AskedHandle(r), now);
    }
  }

  lemma ApprovalKeepsClaims(s: State, node: string, handle: Option<string>, now: nat)
    ensures AfterApproval(s, node, handle, now).claims == s.claims
  {
  }

  /** A new claim on a practitioner is approved at once exactly when it is vouched for and nobody holds the page. */
  lemma InstantOnlyWhenFree(s: State, r: Request, now: nat)
    requires var result := RequestClaim(s, r, now).0; result.Ok? && result.value.created
    requires s.nodes[r.node].kind == Practitioner
    ensures var t := RequestClaim(s, r, now).1;
      |t.claims| == |s.claims| + 1
      && (t.claims[|s.claims|].status == Approved <==> Vouched(s, r) && forall who :: !ClaimedBy(s, r.node, who))
  {
    RequestFacts(s, r, now);
    CreatedStatus(s, r, now, RequestClaim(s, r, now).1);
    NoConflictsMeansFree(s, r);
  }

  // ---- handles ------------------------------------------------------------------------

  ghost predicate Extends(s: State, t: State)
  {
    forall h :: h in s.aliases ==> h in t.aliases && t.aliases[h] == s.aliases[h]
  }

  lemma InnerExtends(u: State, id: nat, handle: Option<string>, now: nat)
    requires ApproveInner(u, id, handle, now).Ok?
    ensures Extends(u, ApproveInner(u, id, handle, now).value)
  {
  }

  lemma RequestExtends(s: State, r: Request, now: nat)
    ensures Extends(s, RequestClaim(s, r, now).1)
  {
    var result := RequestClaim(s, r, now).0;
    if result.Ok? && result.value.created {
      RequestFacts(s, r, now);
      if Instant(s, r) { InnerExtends(s.(claims := s.claims + [NewRow(s, r, now)]), |s.claims|, AskedHandle(r), now); }
    } else {
      NothingCreated(s, r, now);
    }
  }

  lemma ApproveExtends(s: State, id: nat, now: nat)
    ensures Extends(s, ApproveClaim(s, id, now).1)
  {
    if ApproveClaim(s, id, now).0.Ok? {
      var queue := s.claims[id].queue;
      InnerExtends(s, id, if queue.Some? && queue.value in s.queue then s.queue[queue.value].handle else None, now);
    }
  }

  lemma RejectExtends(s: State, id: nat, now: nat)
    ensures Extends(s, RejectClaim(s, id, now).1)
  {
  }

  lemma EndExtends(s: State, id: nat, actor: string, revoke: bool, now: nat)
    ensures Extends(s, EndClaim(s, id, actor, revoke, now).1)
  {
  }

  lemma ChooseExtends(s: State, contributor: string, node: string, handle: string, nowMs: nat)
    ensures Extends(s, SetHandle(s, contributor, node, handle, nowMs).1)
  {
    if SetHandle(s, contributor, node, handle, nowMs).1 != s {
      SetHandleFacts(s, contributor, node, handle, nowMs);
      RehandledExtends(s, contributor, node, NormaliseHandle(handle).value, nowMs / 1000, SetHandle(s, contributor, node, handle, nowMs).1);
    }
  }

  lemma RehandledExtends(s: State, contributor: string, node: string, h: string, now: nat, t: State)
    requires Rehandled(s, contributor, node, h, now, t)
    ensures Extends(s, t)
  {
  }

  /** This step merges page n into another. */
  predicate MergesAway(s: State, step: Step, n: string)
  {
    step.action.Merge? && step.action.from == n && MergePages(s, n, step.action.into).0.Ok?
  }

  /** The page that stands for n after this step: itself, or the one it was merged into. */
  function HomeAfter(s: State, step: Step, n: string): string
  {
    if MergesAway(s, step, n) then step.action.into else n
  }

  function Home(s: State, steps: seq<Step>, n: string): string
    decreases steps
  {
    if steps == [] then n else Home(Exec(s, steps[0]), steps[1..], HomeAfter(s, steps[0], n))
  }

  lemma OtherStepsExtend(s: State, step: Step)
    requires !step.action.Merge?
    ensures Extends(s, Exec(s, step))
  {
    match step.action
    case Ask(r) => RequestExtends(s, r, step.nowMs / 1000);
    case Approve(id) => ApproveExtends(s, id, step.nowMs / 1000);
    case Reject(id) => RejectExtends(s, id, step.nowMs / 1000);
    case End(id, actor, revoke) => EndExtends(s, id, actor, revoke, step.nowMs / 1000);
    case Choose(contributor, node, handle) => ChooseExtends(s, contributor, node, handle, step.nowMs);
    case Write(_, _, _) =>
    case Create(_, _, _, _, _) =>
    case Rename(_, _) =>
    case Invite(_, _) =>
  }

  /** A mapped handle stays mapped; it changes page exactly when its page is merged, and then to the page kept. */
  lemma AliasMovesExactly(s: State, step: Step, h: string)
    requires h in s.aliases
    ensures h in Exec(s, step).aliases
    ensures Exec(s, step).aliases[h] == HomeAfter(s, step, s.aliases[h])
    ensures Exec(s, step).aliases[h] != s.aliases[h] <==> MergesAway(s, step, s.aliases[h])
  {
    if !step.action.Merge? { OtherStepsExtend(s, step); }
  }

  /** Through every run a mapped handle follows the merges of its page, and nothing else. */
  lemma {:induction false} AliasesFollowMerges(s: State, steps: seq<Step>, h: string)
    requires h in s.aliases
    ensures h in After(s, steps).aliases && After(s, steps).aliases[h] == Home(s, steps, s.aliases[h])
    decreases steps
  {
    if steps != [] {
      AliasMovesExactly(s, steps[0], h);
      AliasesFollowMerges(Exec(s, steps[0]), steps[1..], h);
    }
  }

  predicate NeverMerged(s: State, steps: seq<Step>, n: string)
    decreases steps
  {
    steps == [] || (!MergesAway(s, steps[0], n) && NeverMerged(Exec(s, steps[0]), steps[1..], n))
  }

  /** So a handle of a page that is never merged keeps its page for good. */
  lemma {:induction false} UnmergedKeepsAliases(s: State, steps: seq<Step>, h: string)
    requires h in s.aliases && NeverMerged(s, steps, s.aliases[h])
    ensures h in After(s, steps).aliases && After(s, steps).aliases[h] == s.aliases[h]
    decreases steps
  {
    if steps != [] {
      AliasMovesExactly(s, steps[0], h);
      UnmergedKeepsAliases(Exec(s, steps[0]), steps[1..], h);
    }
  }

  predicate Shows(s: State, node: string, h: string)
  {
    node in s.nodes && s.nodes[node].claimed.Some? && s.nodes[node].claimed.value.handle == Some(h)
  }

  /** After every run with merges a shown handle resolves to the page that shows it, as long as every write to that page is honest. */
  lemma ShownHandleResolves(s: State, steps: seq<Step>, node: string, h: string)
    requires Sound(s) && node in s.nodes && PageAgrees(s, node) && HonestRun(s, steps, node) && Shows(After(s, steps), node, h)
    ensures Resolve(After(s, steps), h) == Some(node)
  {
    PageAgreesExactly(s, steps, node);
    HandleIsPlain(h);
  }

  /** A handle one page showed is shown by another only when the first was merged into it. */
  lemma HandlesChangePageByMerge(s: State, more: seq<Step>, a: string, b: string, h: string)
    requires Sound(s) && a in s.nodes && PageAgrees(s, a) && Shows(s, a, h)
    requires b in s.nodes && PageAgrees(s, b) && HonestRun(s, more, b) && Shows(After(s, more), b, h)
    ensures b == Home(s, more, a)
  {
    AliasesFollowMerges(s, more, h);
    PageAgreesExactly(s, more, b);
    assert HandleAgrees(s, a) && HandleAgrees(After(s, more), b);
  }

  /** And never by another while the first is not merged. */
  lemma HandlesAreNeverReassigned(s: State, more: seq<Step>, a: string, b: string, h: string)
    requires Sound(s) && a in s.nodes && PageAgrees(s, a) && Shows(s, a, h) && NeverMerged(s, more, a)
    requires b in s.nodes && PageAgrees(s, b) && HonestRun(s, more, b) && Shows(After(s, more), b, h)
    ensures a == b
  {
    UnmergedKeepsAliases(s, more, h);
    PageAgreesExactly(s, more, b);
    assert HandleAgrees(s, a) && HandleAgrees(After(s, more), b);
  }

  // ---- one change in thirty days --------------------------------------------------------------

  /** This step gives the node another handle. */
  predicate Changes(s: State, step: Step, node: string)
  {
    step.action.Choose? && step.action.node == node && Exec(s, step) != s
  }

  predicate IsClaimed(s: State, node: string)
  {
    node in s.nodes && s.nodes[node].claimed.Some?
  }

  /** Some approved claim holds the page, whatever its face says. */
  predicate Held(s: State, node: string)
  {
    exists i :: 0 <= i < |s.claims| && s.claims[i].node == node && s.claims[i].status == Approved
  }

  predicate HeldThroughout(s: State, steps: seq<Step>, node: string)
    decreases steps
  {
    Held(s, node) && (steps == [] || HeldThroughout(Exec(s, steps[0]), steps[1..], node))
  }

  /** No clock reading is before the one it follows. */
  predicate Forward(fromMs: nat, steps: seq<Step>)
    decreases steps
  {
    steps == [] || (fromMs <= steps[0].nowMs && Forward(steps[0].nowMs, steps[1..]))
  }

  /** A face with a handle set at `at` or later. */
  predicate StampedFace(face: Option<Face>, at: nat)
  {
    face.Some? && face.value.handle.Some? && face.value.handleSetAt.Some? && at <= face.value.handleSetAt.value
  }

  /** The node shows a handle set at `at` or later. */
  predicate Stamped(s: State, node: string, at: nat)
  {
    node in s.nodes && StampedFace(s.nodes[node].claimed, at)
  }

  /** No write of other writers takes the page's stamp away or back before `at`. */
  predicate StampSpared(steps: seq<Step>, node: string, at: nat)
  {
    forall i :: 0 <= i < |steps| ==> SparesStamp(steps[i].action, node, at)
  }

  predicate SparesStamp(a: Action, node: string, at: nat)
  {
    a.Write? && a.page == node ==> StampedFace(AsRead(a.face), at)
  }

  lemma HeldIsApproved(s: State, node: string)
    requires Held(s, node)
    ensures ApprovedFor(s, node) != []
  {
    var i :| 0 <= i < |s.claims| && s.claims[i].node == node && s.claims[i].status == Approved;
    ApprovedMembers(s, node, s.claims[i]);
  }

  lemma PublishedKeepsStamp(u: State, node: string, change: HandleChange, now: nat, watched: string, at: nat)
    requires Stamped(u, watched, at) && at <= now && Held(u, watched)
    ensures Stamped(Published(u, node, change, now), watched, at)
  {
    HeldIsApproved(u, watched);
  }

  lemma ApprovalKeepsStamp(u: State, node: string, handle: Option<string>, now: nat, watched: string, at: nat)
    requires Stamped(u, watched, at) && at <= now && Held(u, watched)
    ensures Stamped(AfterApproval(u, node, handle, now), watched, at)
  {
    if handle.Some? && Available(u, handle.value, node) {
      PublishedKeepsStamp(WithAlias(u, handle.value, node), node, SetTo(handle.value), now, watched, at);
    } else {
      PublishedKeepsStamp(u, node, LeaveHandle, now, watched, at);
    }
  }

  lemma InnerKeepsStamp(u: State, id: nat, handle: Option<string>, now: nat, node: string, at: nat)
    requires ApproveInner(u, id, handle, now).Ok? && Held(ApproveInner(u, id, handle, now).value, node)
    requires Stamped(u, node, at) && at <= now
    ensures Stamped(ApproveInner(u, id, handle, now).value, node, at)
  {
    var c := u.claims[id];
    var v := Update(u, id, c.(status := Approved, reviewedAt := Some(now)));
    ApprovalKeepsClaims(v, c.node, handle, now);
    ApprovalKeepsStamp(v, c.node, handle, now, node, at);
  }

  lemma RequestKeepsStamp(s: State, r: Request, now: nat, node: string, at: nat)
    requires Stamped(s, node, at) && at <= now && Held(RequestClaim(s, r, now).1, node)
    ensures Stamped(RequestClaim(s, r, now).1, node, at)
  {
    var result := RequestClaim(s, r, now).0;
    if result.Ok? && result.value.created {
      RequestFacts(s, r, now);
      if Instant(s, r) {
        InnerKeepsStamp(s.(claims := s.claims + [NewRow(s, r, now)]), |s.claims|, AskedHandle(r), now, node, at);
      }
    } else {
      NothingCreated(s, r, now);
    }
  }

  lemma ApproveKeepsStamp(s: State, id: nat, now: nat, node: string, at: nat)
    requires Stamped(s, node, at) && at <= now && Held(ApproveClaim(s, id, now).1, node)
    ensures Stamped(ApproveClaim(s, id, now).1, node, at)
  {
    if ApproveClaim(s, id, now).0.Ok? {
      var queue := s.claims[id].queue;
      var handle := if queue.Some? && queue.value in s.queue then s.queue[queue.value].handle else None;
      InnerKeepsStamp(s, id, handle, now, node, at);
    }
  }

  lemma RejectKeepsStamp(s: State, id: nat, now: nat, node: string, at: nat)
    requires Stamped(s, node, at)
    ensures Stamped(RejectClaim(s, id, now).1, node, at)
  {
  }

  lemma EndKeepsStamp(s: State, id: nat, actor: string, revoke: bool, now: nat, node: string, at: nat)
    requires Stamped(s, node, at) && at <= now && Held(EndClaim(s, id, actor, revoke, now).1, node)
    ensures Stamped(EndClaim(s, id, actor, revoke, now).1, node, at)
  {
    if EndClaim(s, id, actor, revoke, now).0.Ok? && s.claims[id].status == Approved {
      var c := s.claims[id];
      PublishedKeepsStamp(Update(s, id, c.(status := if revoke then Revoked else Withdrawn)), c.node, LeaveHandle, now, node, at);
    }
  }

  lemma SetHandleKeepsStamp(s: State, contributor: string, page: string, raw: string, nowMs: nat, node: string, at: nat)
    requires Stamped(s, node, at) && at <= nowMs / 1000 && Held(SetHandle(s, contributor, page, raw, nowMs).1, node)
    ensures Stamped(SetHandle(s, contributor, page, raw, nowMs).1, node, at)
  {
    if SetHandle(s, contributor, page, raw, nowMs).1 != s {
      var h := NormaliseHandle(raw).value;
      PublishedKeepsStamp(WithAlias(s, h, page), page, SetTo(h), nowMs / 1000, node, at);
    }
  }

  lemma OthersKeepStamp(s: State, step: Step, node: string, at: nat)
    requires Stamped(s, node, at) && SparesStamp(step.action, node, at)
    requires step.action.Merge? || step.action.Write? || step.action.Create? || step.action.Rename? || step.action.Invite?
    ensures Stamped(Exec(s, step), node, at)
  {
  }

  lemma StepKeepsStamp(s: State, step: Step, node: string, at: nat)
    requires Stamped(s, node, at) && at <= step.nowMs / 1000
    requires Held(Exec(s, step), node) && SparesStamp(step.action, node, at)
    ensures Stamped(Exec(s, step), node, at)
  {
    var now := step.nowMs / 1000;
    match step.action
    case Ask(r) => RequestKeepsStamp(s, r, now, node, at);
    case Approve(id) => ApproveKeepsStamp(s, id, now, node, at);
    case Reject(id) => RejectKeepsStamp(s, id, now, node, at);
    case End(id, actor, revoke) => EndKeepsStamp(s, id, actor, revoke, now, node, at);
    case Choose(contributor, page, raw) => SetHandleKeepsStamp(s, contributor, page, raw, step.nowMs, node, at);
    case _ => OthersKeepStamp(s, step, node, at);
  }

  lemma RehandledStamps(s: State, contributor: string, node: string, h: string, now: nat, t: State)
    requires Sound(s) && Rehandled(s, contributor, node, h, now, t)
    ensures Stamped(t, node, now)
  {
    HeldIsApproved(s, node);
    assert ApprovedFor(WithAlias(s, h, node), node) == ApprovedFor(s, node);
  }

  lemma ChangeStamps(s: State, step: Step, node: string)
    requires Sound(s) && Changes(s, step, node)
    ensures Stamped(Exec(s, step), node, step.nowMs / 1000)
  {
    var a := step.action;
    SetHandleFacts(s, a.contributor, node, a.handle, step.nowMs);
    RehandledStamps(s, a.contributor, node, NormaliseHandle(a.handle).value, step.nowMs / 1000, Exec(s, step));
  }

  lemma ChangeWaits(s: State, step: Step, node: string, at: nat)
    requires Stamped(s, node, at) && Changes(s, step, node)
    ensures step.nowMs / 1000 >= at + HANDLE_CHANGE_SECONDS
  {
  }

  lemma {:induction false} StampLasts(s: State, fromMs: nat, steps: seq<Step>, node: string, at: nat)
    requires Stamped(s, node, at) && at <= fromMs / 1000 && Forward(fromMs, steps)
    requires HeldThroughout(s, steps, node) && StampSpared(steps, node, at)
    ensures Stamped(After(s, steps), node, at)
    decreases steps
  {
    if steps != [] {
      assert SparesStamp(steps[0].action, node, at);
      assert forall i :: 0 <= i < |steps| - 1 ==> steps[1..][i] == steps[i + 1];
      assert Held(Exec(s, steps[0]), node);
      StepKeepsStamp(s, steps[0], node, at);
      StampLasts(Exec(s, steps[0]), steps[0].nowMs, steps[1..], node, at);
    }
  }

  /**
   * Two changes of a page's handle are thirty days apart while somebody holds the page and no write of other writers takes its
   * stamp away, whatever else happens between: merges, writes to other pages, renames.
   */
  lemma HandleChangesAreSpaced(s: State, first: Step, between: seq<Step>, last: Step, node: string)
    requires Sound(s) && Changes(s, first, node)
    requires Forward(first.nowMs, between) && HeldThroughout(Exec(s, first), between, node)
    requires StampSpared(between, node, first.nowMs / 1000)
    requires Changes(After(Exec(s, first), between), last, node)
    ensures last.nowMs / 1000 >= first.nowMs / 1000 + 30 * 24 * 60 * 60
  {
    ChangeStamps(s, first, node);
    StampLasts(Exec(s, first), first.nowMs, between, node, first.nowMs / 1000);
    ChangeWaits(After(Exec(s, first), between), last, node, first.nowMs / 1000);
  }

  /** This face makes its holders wait. */
  predicate MakesWait(face: Option<Face>, nowMs: nat)
  {
    && face.Some? && face.value.handle.Some? && face.value.handleSetAt.Some?
    && nowMs - face.value.handleSetAt.value * 1000 < 30 * 24 * 60 * 60 * 1000
  }

  /** An accepted handle is shown. */
  lemma AcceptedIsShown(s: State, contributor: string, page: string, raw: string, nowMs: nat)
    requires page in s.nodes && HoldsClaim(s.claims, contributor, page) && Available(s, raw, page)
    requires !Shows(s, page, NormaliseHandle(raw).value) && !MakesWait(s.nodes[page].claimed, nowMs)
    ensures Shows(SetHandle(s, contributor, page, raw, nowMs).1, page, NormaliseHandle(raw).value)
  {
    var h := NormaliseHandle(raw).value;
    assert Available(s, h, page) by { HandleIsPlain(h); }
    assert Held(s, page);
    HeldIsApproved(WithAlias(s, h, page), page);
    assert SetHandle(s, contributor, page, raw, nowMs).1 == Published(WithAlias(s, h, page), page, SetTo(h), nowMs / 1000);
  }

  lemma RefusedIsLeft(s: State, contributor: string, page: string, raw: string, nowMs: nat)
    requires page in s.nodes && HoldsClaim(s.claims, contributor, page) && Available(s, raw, page)
    requires Shows(s, page, NormaliseHandle(raw).value) || MakesWait(s.nodes[page].claimed, nowMs)
    ensures SetHandle(s, contributor, page, raw, nowMs).1 == s
  {
    assert Available(s, NormaliseHandle(raw).value, page) by { HandleIsPlain(NormaliseHandle(raw).value); }
  }

  /** A holder's choice of an available handle is a change exactly when the page shows another one and makes nobody wait. */
  lemma ChoiceExactly(s: State, contributor: string, page: string, raw: string, nowMs: nat)
    requires page in s.nodes && HoldsClaim(s.claims, contributor, page) && Available(s, raw, page)
    ensures SetHandle(s, contributor, page, raw, nowMs).1 != s
      <==> !Shows(s, page, NormaliseHandle(raw).value) && !MakesWait(s.nodes[page].claimed, nowMs)
  {
    if !Shows(s, page, NormaliseHandle(raw).value) && !MakesWait(s.nodes[page].claimed, nowMs) {
      AcceptedIsShown(s, contributor, page, raw, nowMs);
    } else {
      RefusedIsLeft(s, contributor, page, raw, nowMs);
    }
  }

  /** After a write to a held page an available handle is accepted exactly when the face written has another one and makes nobody wait. */
  lemma WaitIsWhatWasWritten(s: State, page: string, retired: bool, face: Option<Face>, contributor: string, raw: string, nowMs: nat)
    requires Sound(s) && HoldsClaim(s.claims, contributor, page) && Available(s, raw, page)
    ensures var t := WritePage(s, page, retired, face);
      Changes(t, Step(nowMs, Choose(contributor, page, raw)), page)
      <==> !Shows(t, page, NormaliseHandle(raw).value) && !MakesWait(AsRead(face), nowMs)
  {
    var t := WritePage(s, page, retired, face);
    assert page in s.nodes && t.claims == s.claims && page in t.nodes && t.nodes[page].claimed == AsRead(face);
    AvailableCarries(s, t, raw, page);
    ChoiceExactly(t, contributor, page, raw, nowMs);
  }

  /** The two patches of a claimed page: without its face, and without its stamp. */
  function PatchedFaces(face: Face): seq<Option<Face>>
  {
    [None, Some(face.(handleSetAt := None))]
  }

  /** Either patch of a page that shows a handle breaks its agreement, and lets its holder change the handle at any moment. */
  lemma PatchesEscapeTheWait(s: State, page: string, contributor: string, raw: string, nowMs: nat, i: nat)
    requires Sound(s) && page in s.nodes && PageAgrees(s, page) && HoldsClaim(s.claims, contributor, page) && Available(s, raw, page)
    requires i < 2 && s.nodes[page].claimed.Some? && s.nodes[page].claimed.value.handle.Some?
    requires !Shows(s, page, NormaliseHandle(raw).value)
    ensures var t := WritePage(s, page, s.nodes[page].retired, PatchedFaces(s.nodes[page].claimed.value)[i]);
      && page in t.nodes && !PageAgrees(t, page) && t.claims == s.claims
      && Changes(t, Step(nowMs, Choose(contributor, page, raw)), page)
  {
    var face := PatchedFaces(s.nodes[page].claimed.value)[i];
    assert !Faithful(s, page, AsRead(face)) && !MakesWait(AsRead(face), nowMs) by { assert HandleAgrees(s, page); }
    WriteExactly(s, page, s.nodes[page].retired, face, page);
    WaitIsWhatWasWritten(s, page, s.nodes[page].retired, face, contributor, raw, nowMs);
  }

  /** After a merge the holder of the page kept can show a handle of the one merged. */
  lemma MergedHandleCanBeShown(s: State, from: string, into: string, contributor: string, h: string, nowMs: nat)
    requires Sound(s) && into in s.nodes && HandleAgrees(s, into) && MergePages(s, from, into).0.Ok?
    requires IsHandle(h) && h in s.aliases && s.aliases[h] == from && h !in s.reserved
    requires HoldsClaim(s.claims, contributor, into) && !MakesWait(s.nodes[into].claimed, nowMs)
    ensures var t := MergePages(s, from, into).1; Shows(SetHandle(t, contributor, into, h, nowMs).1, into, h)
  {
    var t := MergePages(s, from, into).1;
    HandleIsPlain(h);
    assert t.nodes[into] == s.nodes[into] && t.claims == s.claims && t.aliases[h] == into;
    assert !Shows(t, into, h);
    AcceptedIsShown(t, contributor, into, h, nowMs);
  }

  /** A page nobody holds that is claimed anew shows no handle. */
  lemma ReclaimedShowsNone(s: State, r: Request, now: nat, t: State)
    requires !IsClaimed(s, r.node) && r.handle == None && Created(s, r, now, t) && IsClaimed(t, r.node)
    ensures t.nodes[r.node].claimed.value.handle == None && HoldsClaim(t.claims, r.contributor, r.node)
    ensures t.aliases == s.aliases && t.reserved == s.reserved
  {
    if Instant(s, r) {
      var row := NewRow(s, r, now);
      var marked := Update(s.(claims := s.claims + [row]), |s.claims|, row.(status := Approved, reviewedAt := Some(now)));
      assert t == Published(marked, r.node, LeaveHandle, now);
      assert t.claims[|s.claims|].status == Approved;
    }
  }

  lemma NoHandleNoWait(s: State, contributor: string, node: string, raw: string, nowMs: nat)
    requires IsClaimed(s, node) && FaceAgrees(s, node) && s.nodes[node].claimed.value.handle == None
    requires HoldsClaim(s.claims, contributor, node) && Available(s, raw, node)
    ensures SetHandle(s, contributor, node, raw, nowMs).1 != s
  {
    var h := NormaliseHandle(raw).value;
    HandleIsPlain(h);
    assert ApprovedFor(WithAlias(s, h, node), node) == ApprovedFor(s, node);
    assert NextFace(WithAlias(s, h, node), node, SetTo(h), nowMs / 1000).value.handle == Some(h);
  }

  lemma AvailableCarries(s: State, t: State, raw: string, node: string)
    requires t.aliases == s.aliases && t.reserved == s.reserved
    ensures Available(t, raw, node) == Available(s, raw, node)
  {
  }

  lemma ChosenChanges(s: State, nowMs: nat, contributor: string, node: string, raw: string)
    requires SetHandle(s, contributor, node, raw, nowMs).1 != s
    ensures Changes(s, Step(nowMs, Choose(contributor, node, raw)), node)
  {
  }

  /** Giving a page up and claiming it again escapes the thirty days: the next handle is accepted at any time. */
  lemma ReclaimingEscapesTheWait(s: State, r: Request, now: nat, t: State, raw: string, nowMs: nat)
    requires !IsClaimed(s, r.node) && r.handle == None && Available(s, raw, r.node)
    requires Created(s, r, now, t) && IsClaimed(t, r.node) && FaceAgrees(t, r.node)
    ensures Changes(t, Step(nowMs, Choose(r.contributor, r.node, raw)), r.node)
  {
    assert SetHandle(t, r.contributor, r.node, raw, nowMs).1 != t by {
      ReclaimedShowsNone(s, r, now, t);
      AvailableCarries(s, t, raw, r.node);
      assert FaceAgrees(t, r.node);
      NoHandleNoWait(t, r.contributor, r.node, raw, nowMs);
    }
    ChosenChanges(t, nowMs, r.contributor, r.node, raw);
  }

  /** Nobody but the holder of row id has an approved claim on its page. */
  ghost predicate OnlyHolder(s: State, id: nat)
  {
    && id < |s.claims| && s.claims[id].status == Approved
    && forall i :: 0 <= i < |s.claims| && s.claims[i].node == s.claims[id].node && s.claims[i].status == Approved ==> i == id
  }

  lemma EndedIsUnclaimed(s: State, id: nat, now: nat)
    requires Valid(s) && OnlyHolder(s, id)
    ensures var c := s.claims[id]; var t := EndClaim(s, id, c.contributor, false, now).1;
      && !IsClaimed(t, c.node) && c.node in t.nodes && t.nodes[c.node] == s.nodes[c.node].(claimed := None)
      && ApprovedFor(t, c.node) == [] && FindActive(t.claims, c.contributor, c.node) == |t.claims|
      && t.aliases == s.aliases && t.reserved == s.reserved && t.names == s.names && t.invitedTo == s.invitedTo
  {
    var c := s.claims[id];
    var u := Update(s, id, c.(status := Withdrawn));
    if ApprovedFor(u, c.node) != [] {
      ApprovedMembers(u, c.node, ApprovedFor(u, c.node)[0]);
      assert false;
    }
    FindActiveMeaning(u.claims, c.contributor, c.node);
    assert forall i :: 0 <= i < |u.claims| ==> !(IsActive(u.claims[i]) && u.claims[i].contributor == c.contributor && u.claims[i].node == c.node);
    assert EndClaim(s, id, c.contributor, false, now).1 == Published(u, c.node, LeaveHandle, now);
  }

  /** A page nobody holds is claimed at once by whoever is vouched for. */
  lemma FreePageIsClaimed(s: State, r: Request, now: nat)
    requires Valid(s) && Claimable(s, r.node).Ok? && ApprovedFor(s, r.node) == [] && Vouched(s, r) && r.handle == None
    requires r.contributor in s.names && FindActive(s.claims, r.contributor, r.node) == |s.claims|
    ensures var t := RequestClaim(s, r, now).1; Created(s, r, now, t) && IsClaimed(t, r.node) && Valid(t)
  {
    var row := NewRow(s, r, now);
    assert Conflicts(s, r.contributor, r.node) == [];
    assert InsertClaim(s, r, now).0.Ok?;
    RequestFacts(s, r, now);
    RequestKeeps(s, r, now);
    InstantIsApproval(s, row, None, now);
    var t, approved := RequestClaim(s, r, now).1, s.(claims := s.claims + [row.(status := Approved, reviewedAt := Some(now))]);
    assert t == Published(approved, r.node, LeaveHandle, now);
    assert row.(status := Approved, reviewedAt := Some(now)) == t.claims[|s.claims|];
    ApprovedMembers(t, r.node, t.claims[|s.claims|]);
    assert FaceAgrees(t, r.node);
  }

  /** The page given up and claimed again shows no handle, so the next is accepted at once. */
  lemma GivenUpAndBack(s: State, id: nat, other: string, r: Request, nowMs: nat)
    requires Valid(s) && OnlyHolder(s, id) && Vouched(s, r) && r.handle == None
    requires r.contributor == s.claims[id].contributor && r.node == s.claims[id].node
    requires Claimable(s, r.node).Ok? && r.contributor in s.names && Available(s, other, r.node)
    ensures var u := EndClaim(s, id, r.contributor, false, nowMs / 1000).1;
      Changes(RequestClaim(u, r, nowMs / 1000).1, Step(nowMs, Choose(r.contributor, r.node, other)), r.node)
  {
    var now := nowMs / 1000;
    var u := EndClaim(s, id, r.contributor, false, now).1;
    EndedIsUnclaimed(s, id, now);
    EndKeeps(s, id, r.contributor, false, now);
    assert Claimable(u, r.node).Ok? && Vouched(u, r);
    FreePageIsClaimed(u, r, now);
    AvailableCarries(s, u, other, r.node);
    ReclaimingEscapesTheWait(u, r, now, RequestClaim(u, r, now).1, other, nowMs);
  }

  /** A handle change touches the page's face and the aliases, nothing a later request looks at. */
  lemma ChoosingKeeps(s: State, contributor: string, node: string, raw: string, nowMs: nat)
    ensures var t := SetHandle(s, contributor, node, raw, nowMs).1;
      && t.claims == s.claims && t.names == s.names && t.invitedTo == s.invitedTo
      && (Claimable(s, node).Ok? ==> Claimable(t, node).Ok?)
  {
    var t := SetHandle(s, contributor, node, raw, nowMs).1;
    if t != s {
      SetHandleFacts(s, contributor, node, raw, nowMs);
      PublishingKeeps(WithAlias(s, NormaliseHandle(raw).value, node), node, SetTo(NormaliseHandle(raw).value), nowMs / 1000);
    }
  }

  lemma PublishingKeeps(s: State, node: string, change: HandleChange, now: nat)
    ensures var t := Published(s, node, change, now);
      && t.claims == s.claims && t.names == s.names && t.invitedTo == s.invitedTo
      && (Claimable(s, node).Ok? ==> Claimable(t, node).Ok?)
  {
  }

  /** The same claimant, four steps at one moment: a handle, the page given up, claimed again, another handle. */
  lemma TwoChangesAtOnce(s: State, id: nat, raw: string, other: string, r: Request, nowMs: nat)
    requires Valid(s) && OnlyHolder(s, id) && Vouched(s, r) && r.handle == None
    requires r.contributor == s.claims[id].contributor && r.node == s.claims[id].node
    requires Claimable(s, r.node).Ok? && r.contributor in s.names
    requires Changes(s, Step(nowMs, Choose(r.contributor, r.node, raw)), r.node)
    requires Available(SetHandle(s, r.contributor, r.node, raw, nowMs).1, other, r.node)
    ensures Changes(After(s, Begun(id, raw, r, nowMs)), Step(nowMs, Choose(r.contributor, r.node, other)), r.node)
  {
    var t := SetHandle(s, r.contributor, r.node, raw, nowMs).1;
    assert After(s, Begun(id, raw, r, nowMs)) == RequestClaim(EndClaim(t, id, r.contributor, false, nowMs / 1000).1, r, nowMs / 1000).1 by {
      BegunRuns(s, id, raw, r, nowMs);
    }
    assert Valid(t) by { SetHandleKeeps(s, r.contributor, r.node, raw, nowMs); }
    ChoosingKeeps(s, r.contributor, r.node, raw, nowMs);
    GivenUpAndBack(t, id, other, r, nowMs);
  }

  function Begun(id: nat, raw: string, r: Request, nowMs: nat): seq<Step>
  {
    [Step(nowMs, Choose(r.contributor, r.node, raw)), Step(nowMs, End(id, r.contributor, false)), Step(nowMs, Ask(r))]
  }

  lemma BegunRuns(s: State, id: nat, raw: string, r: Request, nowMs: nat)
    ensures After(s, Begun(id, raw, r, nowMs))
         == RequestClaim(EndClaim(SetHandle(s, r.contributor, r.node, raw, nowMs).1, id, r.contributor, false, nowMs / 1000).1, r, nowMs / 1000).1
  {
    var steps := Begun(id, raw, r, nowMs);
    ThreeSteps(s, steps[0], steps[1], steps[2]);
  }

  lemma ThreeSteps(s: State, a: Step, b: Step, c: Step)
    ensures After(s, [a, b, c]) == Exec(Exec(Exec(s, a), b), c)
  {
    calc {
      After(s, [a, b, c]);
    == { assert [a, b, c][1..] == [b, c]; }
      After(Exec(s, a), [b, c]);
    == { assert [b, c][1..] == [c]; }
      After(Exec(Exec(s, a), b), [c]);
    == { assert [c][1..] == []; }
      Exec(Exec(Exec(s, a), b), c);
    }
  }
}
