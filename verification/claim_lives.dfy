/** Who may do what to a claim: each row's life over single steps and whole runs. */
module ClaimLives {
  import opened Optional
  import opened Ordering
  import opened Sorting
  import opened Claims
  import opened ClaimEdits
  import opened ClaimRuns

  // ---- one step -------------------------------------------------------------------------------

  /** A claim's status may change, and when it was reviewed; whose it is, on which page and whether named may not. */
  predicate SameClaim(c: Claim, d: Claim)
  {
    && d.node == c.node && d.contributor == c.contributor && d.publicName == c.publicName
    && d.via == c.via && d.queue == c.queue && d.createdAt == c.createdAt
  }

  /** What becomes of row i: approved by approval, rejected by rejection, withdrawn by its own contributor, revoked by revocation. */
  function StatusAfter(s: State, a: Action, i: nat): ClaimStatus
    requires i < |s.claims|
  {
    var c := s.claims[i];
    if a == Approve(i) && c.status == Pending && c.contributor in s.names then Approved
    else if a == Reject(i) && c.status == Pending then Rejected
    else if a == End(i, c.contributor, false) && c.status in {Pending, Approved} then Withdrawn
    else if a.End? && a.id == i && a.revoke && c.status in {Pending, Approved} then Revoked
    else c.status
  }

  ghost predicate RowsFollow(s: State, a: Action, claims: seq<Claim>)
  {
    && |s.claims| <= |claims| <= |s.claims| + 1
    && forall i :: 0 <= i < |s.claims| ==> SameClaim(s.claims[i], claims[i]) && claims[i].status == StatusAfter(s, a, i)
  }

  lemma PublishedClaims(s: State, node: string, change: HandleChange, now: nat)
    ensures Published(s, node, change, now).claims == s.claims
  {
  }

  /** An action about claim id. */
  predicate About(a: Action, id: nat)
  {
    a == Approve(id) || a == Reject(id) || (a.End? && a.id == id)
  }

  lemma RowSet(s: State, a: Action, id: nat, d: Claim)
    requires About(a, id) && id < |s.claims| && SameClaim(s.claims[id], d) && d.status == StatusAfter(s, a, id)
    ensures RowsFollow(s, a, s.claims[id := d])
  {
  }

  lemma RowsKept(s: State, a: Action, id: nat)
    requires About(a, id) && (id < |s.claims| ==> StatusAfter(s, a, id) == s.claims[id].status)
    ensures RowsFollow(s, a, s.claims)
  {
  }

  lemma ApproveRows(s: State, id: nat, now: nat)
    ensures RowsFollow(s, Approve(id), ApproveClaim(s, id, now).1.claims) && |ApproveClaim(s, id, now).1.claims| == |s.claims|
  {
    if ApproveClaim(s, id, now).0.Ok? {
      var c := s.claims[id];
      var d := c.(status := Approved, reviewedAt := Some(now));
      var handle := if c.queue.Some? && c.queue.value in s.queue then s.queue[c.queue.value].handle else None;
      ApprovalKeepsClaims(Update(s, id, d), c.node, handle, now);
      assert ApproveClaim(s, id, now).1.claims == s.claims[id := d];
      RowSet(s, Approve(id), id, d);
    } else {
      RowsKept(s, Approve(id), id);
    }
  }

  lemma RejectRows(s: State, id: nat, now: nat)
    ensures RowsFollow(s, Reject(id), RejectClaim(s, id, now).1.claims) && |RejectClaim(s, id, now).1.claims| == |s.claims|
  {
    if RejectClaim(s, id, now).0.Ok? {
      var d := s.claims[id].(status := Rejected, reviewedAt := Some(now));
      assert RejectClaim(s, id, now).1.claims == s.claims[id := d];
      RowSet(s, Reject(id), id, d);
    } else {
      RowsKept(s, Reject(id), id);
    }
  }

  lemma EndRows(s: State, id: nat, actor: string, revoke: bool, now: nat)
    ensures RowsFollow(s, End(id, actor, revoke), EndClaim(s, id, actor, revoke, now).1.claims)
    ensures |EndClaim(s, id, actor, revoke, now).1.claims| == |s.claims|
  {
    if EndClaim(s, id, actor, revoke, now).0.Ok? {
      var c, ended := s.claims[id], if revoke then Revoked else Withdrawn;
      var d := if c.status == Pending then c.(status := ended, reviewedAt := Some(now)) else c.(status := ended);
      PublishedClaims(Update(s, id, d), c.node, LeaveHandle, now);
      assert EndClaim(s, id, actor, revoke, now).1.claims == s.claims[id := d];
      RowSet(s, End(id, actor, revoke), id, d);
    } else {
      RowsKept(s, End(id, actor, revoke), id);
    }
  }

  /** The row a request adds is the contributor's own, on that page, named or not as asked. */
  predicate AsAsked(r: Request, now: nat, c: Claim)
  {
    c.node == r.node && c.contributor == r.contributor && c.publicName == r.publicName && c.createdAt == now
  }

  lemma RequestRows(s: State, r: Request, now: nat)
    ensures var (result, t) := RequestClaim(s, r, now);
      if result.Ok? && result.value.created
      then r.node in s.nodes && |t.claims| == |s.claims| + 1 && t.claims[..|s.claims|] == s.claims && AsAsked(r, now, t.claims[|s.claims|])
           && t.claims[|s.claims|].status == if Instant(s, r) then Approved else Pending
      else t == s
  {
    var (result, t) := RequestClaim(s, r, now);
    if result.Ok? && result.value.created {
      RequestFacts(s, r, now);
      var row := NewRow(s, r, now);
      if Instant(s, r) {
        InstantIsApproval(s, row, AskedHandle(r), now);
        ApprovalKeepsClaims(Marked(s, r, now), r.node, AskedHandle(r), now);
        assert t.claims == s.claims + [row.(status := Approved, reviewedAt := Some(now))];
      }
    } else {
      NothingCreated(s, r, now);
    }
  }

  lemma StoreRows(s: State, step: Step)
    requires OfTheStore(step.action) && !step.action.Ask?
    ensures RowsFollow(s, step.action, Exec(s, step).claims) && |Exec(s, step).claims| == |s.claims|
  {
    var now := step.nowMs / 1000;
    match step.action
    case Approve(id) => ApproveRows(s, id, now);
    case Reject(id) => RejectRows(s, id, now);
    case End(id, actor, revoke) => EndRows(s, id, actor, revoke, now);
    case Choose(contributor, node, handle) => ChoosingKeeps(s, contributor, node, handle, step.nowMs);
  }

  lemma EditRows(s: State, step: Step)
    requires !OfTheStore(step.action)
    ensures Exec(s, step).claims == s.claims
  {
  }

  /** Every step: each row follows its action, and only a request adds a row. */
  lemma StepRows(s: State, step: Step)
    ensures RowsFollow(s, step.action, Exec(s, step).claims)
    ensures |Exec(s, step).claims| > |s.claims| ==>
      && step.action.Ask? && AsAsked(step.action.request, step.nowMs / 1000, Exec(s, step).claims[|s.claims|])
      && step.action.request.node in s.nodes
      && Exec(s, step).claims[|s.claims|].status == if Instant(s, step.action.request) then Approved else Pending
  {
    if step.action.Ask? {
      RequestRows(s, step.action.request, step.nowMs / 1000);
    } else if OfTheStore(step.action) {
      StoreRows(s, step);
    } else {
      EditRows(s, step);
    }
  }

  /** A step of the store that is refused leaves the tables as they were. */
  lemma RefusedChangesNothing(s: State, step: Step)
    requires var now := step.nowMs / 1000;
      match step.action
      case Ask(r) => RequestClaim(s, r, now).0.Err?
      case Approve(id) => ApproveClaim(s, id, now).0.Err?
      case Reject(id) => RejectClaim(s, id, now).0.Err?
      case End(id, actor, revoke) => EndClaim(s, id, actor, revoke, now).0.Err?
      case Choose(contributor, node, handle) => SetHandle(s, contributor, node, handle, step.nowMs).0.Err?
      case _ => false
    ensures Exec(s, step) == s
  {
    if step.action.Ask? { NothingCreated(s, step.action.request, step.nowMs / 1000); }
  }

  /** Ending a claim is refused exactly when it is not there, not active, or not one's own to withdraw. */
  lemma EndExactly(s: State, id: nat, actor: string, revoke: bool, now: nat)
    ensures var (result, t) := EndClaim(s, id, actor, revoke, now);
      && (result.Ok? <==> id < |s.claims| && s.claims[id].status in {Pending, Approved} && (revoke || s.claims[id].contributor == actor))
      && (id < |s.claims| && !revoke && s.claims[id].contributor != actor ==> result == Err(NotYourClaim) && t == s)
  {
  }

  // ---- whole runs -----------------------------------------------------------------------------

  ghost predicate Taken(steps: seq<Step>, a: Action)
  {
    exists k :: 0 <= k < |steps| && steps[k].action == a
  }

  ghost predicate RevokedIn(steps: seq<Step>, id: nat)
  {
    exists k :: 0 <= k < |steps| && steps[k].action.End? && steps[k].action.id == id && steps[k].action.revoke
  }

  /** How a claim that was c may be d after these steps. */
  ghost predicate Accounted(c: Claim, d: Claim, i: nat, steps: seq<Step>)
  {
    && SameClaim(c, d)
    && (d.status == Withdrawn && c.status != Withdrawn ==> Taken(steps, End(i, c.contributor, false)))
    && (d.status == Revoked && c.status != Revoked ==> RevokedIn(steps, i))
    && (d.status == Approved && c.status != Approved ==> c.status == Pending && Taken(steps, Approve(i)))
    && (d.status == Rejected && c.status != Rejected ==> c.status == Pending && Taken(steps, Reject(i)))
    && (d.status == Pending ==> c.status == Pending)
    && (c.status in {Rejected, Withdrawn, Revoked} ==> d.status == c.status)
  }

  lemma TakenLater(steps: seq<Step>, a: Action, i: nat)
    requires steps != []
    ensures steps[0].action == a || Taken(steps[1..], a) ==> Taken(steps, a)
    ensures RevokedIn(steps[1..], i) ==> RevokedIn(steps, i)
  {
    if steps[0].action != a && Taken(steps[1..], a) {
      var k :| 0 <= k < |steps| - 1 && steps[1..][k].action == a;
      assert steps[k + 1].action == a;
    }
    if RevokedIn(steps[1..], i) {
      var k :| 0 <= k < |steps| - 1 && steps[1..][k].action.End? && steps[1..][k].action.id == i && steps[1..][k].action.revoke;
      assert steps[k + 1] == steps[1..][k];
    }
  }

  lemma AccountedOnward(c: Claim, m: Claim, d: Claim, i: nat, s: State, steps: seq<Step>)
    requires steps != [] && i < |s.claims| && s.claims[i] == c
    requires SameClaim(c, m) && m.status == StatusAfter(s, steps[0].action, i)
    requires Accounted(m, d, i, steps[1..])
    ensures Accounted(c, d, i, steps)
  {
    TakenLater(steps, End(i, c.contributor, false), i);
    TakenLater(steps, Approve(i), i);
    TakenLater(steps, Reject(i), i);
  }

  /**
   * Through every run a claim stays its contributor's, on its page, named or not as asked. It is withdrawn only by its own
   * contributor, revoked only by a revocation, approved only by an approval while pending, rejected only by a rejection while
   * pending; and once rejected, withdrawn or revoked it stays so.
   */
  lemma {:induction false} RunAccounts(s: State, steps: seq<Step>, i: nat)
    requires i < |s.claims|
    ensures i < |After(s, steps).claims| && Accounted(s.claims[i], After(s, steps).claims[i], i, steps)
    decreases steps
  {
    if steps != [] {
      var t := Exec(s, steps[0]);
      StepRows(s, steps[0]);
      RunAccounts(t, steps[1..], i);
      AccountedOnward(s.claims[i], t.claims[i], After(s, steps).claims[i], i, s, steps);
    }
  }

  /** This request, made then, was approved at once. */
  ghost predicate WasInstant(s: State, r: Request)
  {
    r.node in s.nodes && Instant(s, r)
  }

  /** How a claim asked for by r at s may be d after these steps. */
  ghost predicate AccountedNew(s: State, r: Request, d: Claim, i: nat, steps: seq<Step>)
  {
    && d.node == r.node && d.contributor == r.contributor && d.publicName == r.publicName
    && (d.status == Approved ==> Taken(steps, Approve(i)) || WasInstant(s, r))
    && (d.status == Withdrawn ==> Taken(steps, End(i, r.contributor, false)))
    && (d.status == Revoked ==> RevokedIn(steps, i))
    && (d.status == Rejected ==> Taken(steps, Reject(i)))
  }

  lemma AfterPrefix(s: State, steps: seq<Step>, k: nat)
    requires k < |steps|
    ensures After(s, steps[..k + 1]) == After(Exec(s, steps[0]), steps[1..][..k])
  {
    assert steps[..k + 1][1..] == steps[1..][..k] && steps[..k + 1][0] == steps[0];
  }

  lemma AccountedLater(s: State, r: Request, d: Claim, i: nat, steps: seq<Step>)
    requires steps != [] && AccountedNew(s, r, d, i, steps[1..])
    ensures AccountedNew(s, r, d, i, steps)
  {
    TakenLater(steps, End(i, r.contributor, false), i);
    TakenLater(steps, Approve(i), i);
    TakenLater(steps, Reject(i), i);
  }

  lemma AccountedFromRow(s: State, r: Request, c: Claim, d: Claim, i: nat, steps: seq<Step>)
    requires c.node == r.node && c.contributor == r.contributor && c.publicName == r.publicName && Accounted(c, d, i, steps)
    requires c.status == Pending || (c.status == Approved && WasInstant(s, r))
    ensures AccountedNew(s, r, d, i, steps)
  {
  }

  /** A claim that was not there before was asked for: by its contributor, for its page, with its wish to be named; and it is
      approved only by an approval, or at once when the request was instant. */
  lemma {:induction false} NewClaimWasAsked(s: State, steps: seq<Step>, i: nat) returns (k: nat)
    requires |s.claims| <= i < |After(s, steps).claims|
    ensures k < |steps| && steps[k].action.Ask?
    ensures AccountedNew(After(s, steps[..k]), steps[k].action.request, After(s, steps).claims[i], i, steps)
    decreases steps
  {
    if steps == [] { assert false; }
    var t := Exec(s, steps[0]);
    StepRows(s, steps[0]);
    if i < |t.claims| {
      k := 0;
      RunAccounts(t, steps[1..], i);
      AccountedFromRow(s, steps[0].action.request, t.claims[i], After(s, steps).claims[i], i, steps[1..]);
      AccountedLater(s, steps[0].action.request, After(s, steps).claims[i], i, steps);
      assert steps[..0] == [];
    } else {
      var later := NewClaimWasAsked(t, steps[1..], i);
      k := later + 1;
      AfterPrefix(s, steps, later);
      AccountedLater(After(s, steps[..k]), steps[k].action.request, After(s, steps).claims[i], i, steps);
    }
  }

  // ---- who is named ------------------------------------------------------------------------------

  /** From the first claim on, a name is listed on a page that agrees only because someone of that name asked to be named there. */
  lemma ListedAskedToBeNamed(s: State, steps: seq<Step>, node: string, name: string) returns (i: nat, k: nat)
    requires s.claims == [] && node in After(s, steps).nodes && FaceAgrees(After(s, steps), node)
    requires var face := After(s, steps).nodes[node].claimed; face.Some? && name in face.value.byNames
    ensures var t := After(s, steps);
      && i < |t.claims| && t.claims[i].node == node && t.claims[i].status == Approved
      && t.claims[i].contributor in t.names && t.names[t.claims[i].contributor] == name
    ensures k < |steps| && steps[k].action.Ask? && steps[k].action.request.publicName
      && steps[k].action.request.node == node && steps[k].action.request.contributor == After(s, steps).claims[i].contributor
  {
    var t := After(s, steps);
    FaceMeaning(t, node);
    assert ShownAs(t, node, name);
    i :| 0 <= i < |t.claims| && t.claims[i].node == node && t.claims[i].status == Approved
      && Named(t.claims[i], t.names) && t.names[t.claims[i].contributor] == name;
    k := NewClaimWasAsked(s, steps, i);
  }

  // ---- which requests are taken -------------------------------------------------------------------

  /** An active claim of this contributor on this page. */
  predicate HasOwn(s: State, contributor: string, node: string)
  {
    exists i :: 0 <= i < |s.claims| && s.claims[i].contributor == contributor && s.claims[i].node == node
      && s.claims[i].status in {Pending, Approved}
  }

  /** A page people may claim. */
  predicate Open(s: State, node: string)
  {
    node in s.nodes && s.nodes[node].kind in {Practitioner, Collective, Institution} && !s.nodes[node].retired
  }

  /** The handle asked for, if any, is well formed, not reserved and not another page's. */
  predicate HandleFree(s: State, r: Request)
  {
    r.handle.Some? && r.handle.value != "" ==>
      var h := Plain(r.handle.value);
      IsHandle(h) && h !in s.reserved && (h in s.aliases ==> s.aliases[h] == r.node)
  }

  lemma OwnIsFound(s: State, contributor: string, node: string)
    ensures HasOwn(s, contributor, node) <==> FindActive(s.claims, contributor, node) < |s.claims|
  {
    FindActiveMeaning(s.claims, contributor, node);
  }

  /** A claim of one's own is given back, and nothing else happens. */
  lemma OwnClaimIsReturned(s: State, r: Request, now: nat)
    requires Open(s, r.node) && HasOwn(s, r.contributor, r.node)
    ensures var (result, t) := RequestClaim(s, r, now);
      && t == s && result.Ok? && !result.value.created && result.value.claim < |s.claims|
      && (var c := s.claims[result.value.claim]; c.contributor == r.contributor && c.node == r.node && c.status in {Pending, Approved})
  {
    FindActiveMeaning(s.claims, r.contributor, r.node);
  }

  /** Nobody but this contributor holds the page. */
  predicate FreeFor(s: State, contributor: string, node: string)
  {
    forall i :: 0 <= i < |s.claims| && s.claims[i].node == node && s.claims[i].status == Approved ==> s.claims[i].contributor == contributor
  }

  lemma ConflictsMean(s: State, contributor: string, node: string)
    requires node in s.nodes
    ensures Conflicts(s, contributor, node) == [] <==> s.nodes[node].kind != Practitioner || FreeFor(s, contributor, node)
  {
    ContributorsEmpty(ApprovedFor(s, node), contributor);
    if !FreeFor(s, contributor, node) {
      var i :| 0 <= i < |s.claims| && s.claims[i].node == node && s.claims[i].status == Approved && s.claims[i].contributor != contributor;
      ApprovedMembers(s, node, s.claims[i]);
    }
    forall c | c in ApprovedFor(s, node) && FreeFor(s, contributor, node) ensures c.contributor == contributor { ApprovedMembers(s, node, c); }
  }

  /** Vouched for: invited to this very page, or by a claimant; and, on a practitioner, nobody else there. */
  predicate AtOnce(s: State, r: Request)
  {
    && (r.via in {Some(PeerInvite), Some(Via.Invite)} || (r.contributor in s.invitedTo && s.invitedTo[r.contributor] == r.node))
    && (r.node in s.nodes && s.nodes[r.node].kind == Practitioner ==> FreeFor(s, r.contributor, r.node))
  }

  lemma InstantExactly(s: State, r: Request)
    requires r.node in s.nodes
    ensures Instant(s, r) <==> AtOnce(s, r)
  {
    ConflictsMean(s, r.contributor, r.node);
  }

  /** A request makes a claim exactly when the page may be claimed, the contributor has no active claim on it, the handle is free, and
      the row it needs can be written; it is approved at once exactly when vouched for and uncontended. */
  lemma RequestExactly(s: State, r: Request, now: nat)
    ensures var (result, t) := RequestClaim(s, r, now);
      && (result.Ok? && result.value.created
          <==> Open(s, r.node) && !HasOwn(s, r.contributor, r.node) && HandleFree(s, r)
               && if AtOnce(s, r) then r.contributor in s.names else r.queueId !in s.queue)
      && (result.Ok? && result.value.created ==>
            && |t.claims| == |s.claims| + 1
            && (t.claims[|s.claims|].status == if AtOnce(s, r) then Approved else Pending))
  {
    OwnIsFound(s, r.contributor, r.node);
    if r.node in s.nodes { InstantExactly(s, r); }
    RequestRows(s, r, now);
    if AsksHandle(r) { AskedFree(s, r); }
  }

  lemma AskedFree(s: State, r: Request)
    requires AsksHandle(r)
    ensures HandleFree(s, r) <==> AskedHandle(r).Some? && Available(s, AskedHandle(r).value, r.node)
  {
    var h := Plain(r.handle.value);
    if IsHandle(h) { HandleIsPlain(h); }
  }

  /** A new claim says with whom it contends: on a practitioner the others who hold the page, else nobody. */
  lemma ContendersAreNamed(s: State, r: Request, now: nat, who: string)
    requires var result := RequestClaim(s, r, now).0; result.Ok? && result.value.created
    ensures who in RequestClaim(s, r, now).0.value.conflicts
      <==> s.nodes[r.node].kind == Practitioner && who != r.contributor
           && exists i :: 0 <= i < |s.claims| && s.claims[i].node == r.node && s.claims[i].status == Approved && s.claims[i].contributor == who
  {
    assert r.node in s.nodes && RequestClaim(s, r, now).0.value.conflicts == Conflicts(s, r.contributor, r.node);
    ConflictsNamed(s, r.contributor, r.node, who);
  }

  lemma ConflictsNamed(s: State, contributor: string, node: string, who: string)
    requires node in s.nodes
    ensures who in Conflicts(s, contributor, node)
      <==> s.nodes[node].kind == Practitioner && who != contributor
           && exists i :: 0 <= i < |s.claims| && s.claims[i].node == node && s.claims[i].status == Approved && s.claims[i].contributor == who
  {
    ContributorIn(ApprovedFor(s, node), contributor, who);
    if c :| c in ApprovedFor(s, node) && c.contributor == who {
      ApprovedMembers(s, node, c);
      var i :| 0 <= i < |s.claims| && s.claims[i] == c;
    }
    if i :| 0 <= i < |s.claims| && s.claims[i].node == node && s.claims[i].status == Approved && s.claims[i].contributor == who {
      ApprovedMembers(s, node, s.claims[i]);
    }
  }

  lemma {:induction false} ContributorIn(claims: seq<Claim>, except: string, who: string)
    ensures who in Contributors(claims, except) <==> who != except && exists c :: c in claims && c.contributor == who
  {
    if claims != [] {
      ContributorIn(claims[1..], except, who);
      assert claims == [claims[0]] + claims[1..];
    }
  }

  /** An approval shows the handle that was asked for while it is free, stamped now; else it leaves the page's handle alone. */
  lemma ApprovalShowsHandle(s: State, id: nat, now: nat, h: string)
    requires ApproveClaim(s, id, now).0.Ok? && s.claims[id].node in s.nodes && IsHandle(h)
    requires s.claims[id].queue.Some? && s.claims[id].queue.value in s.queue && s.queue[s.claims[id].queue.value].handle == Some(h)
    ensures var t, node := ApproveClaim(s, id, now).1, s.claims[id].node;
      var was, face, free := s.nodes[node].claimed, t.nodes[node].claimed, h !in s.reserved && (h in s.aliases ==> s.aliases[h] == node);
      && face.Some?
      && (free ==> face.value.handle == Some(h) && face.value.handleSetAt == Some(now) && h in t.aliases && t.aliases[h] == node)
      && (!free ==> face.value.handle == if was.Some? then was.value.handle else None)
      && (!free ==> t.aliases == s.aliases)
  {
    var c := s.claims[id];
    var marked := Update(s, id, c.(status := Approved, reviewedAt := Some(now)));
    assert ApproveClaim(s, id, now).1 == Settle(AfterApproval(marked, c.node, Some(h), now), c.queue, Accepted);
    assert marked.claims[id].node == c.node && marked.claims[id].status == Approved;
    ApprovedMembers(marked, c.node, marked.claims[id]);
    HandleAfterApproval(marked, c.node, h, now);
  }

  lemma HandleAfterApproval(s: State, node: string, h: string, now: nat)
    requires node in s.nodes && IsHandle(h) && ApprovedFor(s, node) != []
    ensures var t := AfterApproval(s, node, Some(h), now);
      var was, free := s.nodes[node].claimed, h !in s.reserved && (h in s.aliases ==> s.aliases[h] == node);
      && node in t.nodes && t.nodes[node].claimed.Some?
      && (var face := t.nodes[node].claimed.value;
          if free then face.handle == Some(h) && face.handleSetAt == Some(now) && h in t.aliases && t.aliases[h] == node
          else face.handle == (if was.Some? then was.value.handle else None) && t.aliases == s.aliases)
  {
    HandleIsPlain(h);
    if Available(s, h, node) {
      assert ApprovedFor(WithAlias(s, h, node), node) == ApprovedFor(s, node);
      PublishedHandle(WithAlias(s, h, node), node, SetTo(h), now);
    } else {
      PublishedHandle(s, node, LeaveHandle, now);
    }
  }

  // ---- the face, and the pages merged away --------------------------------------------------------

  /** Publishing keeps since when a page is claimed; a page claimed for the first time is so since its earliest approval. */
  lemma ClaimedSince(s: State, node: string, change: HandleChange, now: nat, i: nat)
    requires node in s.nodes && i < |s.claims| && s.claims[i].node == node && s.claims[i].status == Approved
    requires forall j :: 0 <= j < |s.claims| && s.claims[j].node == node && s.claims[j].status == Approved ==> s.claims[j].reviewedAt.Some?
    ensures var was, face := s.nodes[node].claimed, Published(s, node, change, now).nodes[node].claimed;
      && face.Some?
      && (was.Some? ==> face.value.at == was.value.at)
      && (was.None? ==>
            && face.value.at <= s.claims[i].reviewedAt.value
            && exists j :: 0 <= j < |s.claims| && s.claims[j].node == node && s.claims[j].status == Approved
                 && s.claims[j].reviewedAt == Some(face.value.at))
  {
    var approved := ApprovedFor(s, node);
    ApprovedMembers(s, node, s.claims[i]);
    ApprovedMembers(s, node, approved[0]);
    NoLaterIsPreorder();
    SortSorted(Where(s.claims, Approves(node)), NoLater);
    var k :| 0 <= k < |approved| && approved[k] == s.claims[i];
    assert k == 0 || NoLater(approved[0], approved[k]);
  }

  lemma NoLaterIsPreorder()
    ensures TotalPreorder(NoLater)
  {
  }

  /** Publishing without a handle leaves the handle and its stamp; with one it shows that one, stamped now. */
  lemma PublishedHandle(s: State, node: string, change: HandleChange, now: nat)
    requires node in s.nodes && ApprovedFor(s, node) != []
    ensures var was, face := s.nodes[node].claimed, Published(s, node, change, now).nodes[node].claimed;
      && face.Some?
      && (change.SetTo? ==> face.value.handle == Some(change.handle) && face.value.handleSetAt == Some(now))
      && (change.LeaveHandle? && was.Some? ==> face.value.handle == was.value.handle && face.value.handleSetAt == was.value.handleSetAt)
      && (change.LeaveHandle? && was.None? ==> face.value.handle == None && face.value.handleSetAt == None)
  {
  }

  /** A page merged away is retired, so nobody can claim it any more. */
  lemma MergedIsNotClaimed(s: State, from: string, into: string, r: Request, now: nat)
    requires MergePages(s, from, into).0.Ok? && r.node == from
    ensures var t := MergePages(s, from, into).1; t.nodes[from].retired && RequestClaim(t, r, now).0.Err? && RequestClaim(t, r, now).1 == t
  {
  }

  /** Whoever was invited to the page merged away is invited to the one kept. */
  lemma InvitesFollowMerges(s: State, from: string, into: string, c: string)
    requires MergePages(s, from, into).0.Ok?
    ensures var t := MergePages(s, from, into).1;
      && t.invitedTo.Keys == s.invitedTo.Keys
      && (c in s.invitedTo ==> t.invitedTo[c] == if s.invitedTo[c] == from then into else s.invitedTo[c])
  {
  }

  /** A merge goes through exactly between two standing pages of one kind, the first of which nobody claims. */
  lemma MergeExactly(s: State, from: string, into: string)
    ensures MergePages(s, from, into).0.Ok?
      <==> from != into && from in s.nodes && into in s.nodes && s.nodes[from].kind == s.nodes[into].kind
           && !s.nodes[from].retired && !s.nodes[into].retired
           && forall i :: 0 <= i < |s.claims| && s.claims[i].node == from ==> s.claims[i].status !in {Pending, Approved}
    ensures MergePages(s, from, into).0.Err? ==> MergePages(s, from, into).1 == s
  {
  }

  /** The handles a new page comes with are its own, but those mapped before. */
  lemma NewPagesHandles(s: State, page: string, kind: NodeType, retired: bool, face: Option<Face>, handles: set<string>, h: string)
    requires page !in s.nodes && h in handles
    ensures var t := CreatePage(s, page, kind, retired, face, handles);
      h in t.aliases && t.aliases[h] == if h in s.aliases then s.aliases[h] else page
  {
  }

  /** A handle is a letter or digit, 1 to 28 letters, digits, dots, underscores or hyphens, and a letter or digit. */
  lemma HandleShape(h: string)
    ensures IsHandle(h) <==> exists a: char, mid: string, z: char :: HandleOf(h, a, mid, z)
  {
    if IsHandle(h) {
      assert h == [h[0]] + h[1..|h| - 1] + [h[|h| - 1]];
      assert HandleOf(h, h[0], h[1..|h| - 1], h[|h| - 1]);
    }
    if a: char, mid: string, z: char :| HandleOf(h, a, mid, z) {
      assert h[0] == a && h[|h| - 1] == z && h[1..|h| - 1] == mid;
      forall i | 0 <= i < |h| ensures LetterOrDigit(h[i]) || h[i] in {'.', '_', '-'} {
        if 0 < i < |h| - 1 { assert h[i] == mid[i - 1]; }
      }
    }
  }

  predicate HandleOf(h: string, a: char, mid: string, z: char)
  {
    && h == [a] + mid + [z] && 1 <= |mid| <= 28
    && ('a' <= a <= 'z' || '0' <= a <= '9') && ('a' <= z <= 'z' || '0' <= z <= '9')
    && forall i :: 0 <= i < |mid| ==> 'a' <= mid[i] <= 'z' || '0' <= mid[i] <= '9' || mid[i] == '.' || mid[i] == '_' || mid[i] == '-'
  }
}
