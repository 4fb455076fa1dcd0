/** src/claim/store.ts as it runs: the tables change row by row, inside transactions that roll back whole. */
module ClaimStore {
  import opened Optional
  import opened Claims

  class Store {
    var claims: seq<Claim>
    var queue: map<nat, QueueRow>
    var aliases: map<string, string>
    var nodes: map<string, Node>
    var names: map<string, string>
    var invitedTo: map<string, string>
    const reserved: set<string>

    constructor (reserved: set<string>)
      ensures View() == State([], map[], map[], map[], map[], map[], reserved)
    {
      claims, queue, aliases, nodes, names, invitedTo := [], map[], map[], map[], map[], map[];
      this.reserved := reserved;
    }

    function View(): State
      reads this
    {
      State(claims, queue, aliases, nodes, names, invitedTo, reserved)
    }

    method Rollback(begun: State)
      requires begun.reserved == reserved
      modifies this
      ensures View() == begun
    {
      claims, queue, aliases, nodes := begun.claims, begun.queue, begun.aliases, begun.nodes;
      names, invitedTo := begun.names, begun.invitedTo;
    }

    /** publishClaimed */
    method Publish(node: string, change: HandleChange, now: nat)
      modifies this`nodes
      ensures View() == Published(old(View()), node, change, now)
    {
      if node !in nodes { return; }
      var prev := nodes[node].claimed;
      var approved := ApprovedFor(View(), node);
      var next: Option<Face> := None;
      if approved != [] {
        var listed := ListNames(approved);
        var at := if prev.Some? then prev.value.at else if approved[0].reviewedAt.Some? then approved[0].reviewedAt.value else now;
        var handle := if change.SetTo? then Some(change.handle) else if prev.Some? then prev.value.handle else None;
        var setAt := if change.SetTo? then Some(now) else if prev.Some? then prev.value.handleSetAt else None;
        next := Some(Face(at, listed, handle, setAt));
      }
      if next == prev {
        assert nodes[node].(claimed := next) == nodes[node];
        assert nodes[node := nodes[node].(claimed := next)] == nodes;
        return;
      }
      nodes := nodes[node := nodes[node].(claimed := next)];
    }

    method ListNames(approved: seq<Claim>) returns (listed: seq<string>)
      ensures listed == NamesOf(approved, names)
    {
      listed := [];
      for i := 0 to |approved|
        invariant listed == NamesOf(approved[..i], names)
      {
        var c := approved[i];
        assert approved[..i + 1][..i] == approved[..i];
        if c.publicName && c.contributor in names && names[c.contributor] != "" && names[c.contributor] !in listed {
          listed := listed + [names[c.contributor]];
        }
      }
      assert approved[..|approved|] == approved;
    }

    /** INSERT OR IGNORE */
    method InsertAlias(handle: string, node: string)
      modifies this`aliases
      ensures View() == WithAlias(old(View()), handle, node)
    {
      if handle !in aliases { aliases := aliases[handle := node]; }
    }

    /** Runs inside the caller's transaction, which rolls a failure back. */
    method ApproveRow(id: nat, handle: Option<string>, now: nat) returns (failure: Option<Error>)
      modifies this
      ensures match ApproveInner(old(View()), id, handle, now)
        case Err(e) => failure == Some(e)
        case Ok(s) => failure == None && View() == s
    {
      if id >= |claims| { return Some(ClaimNotFound); }
      var c := claims[id];
      if c.status != Pending { return Some(ClaimNotPending); }
      if c.contributor !in names { return Some(ContributorNotFound); }
      claims := claims[id := c.(status := Approved, reviewedAt := Some(now))];
      var change := LeaveHandle;
      if handle.Some? && Available(View(), handle.value, c.node) {
        InsertAlias(handle.value, c.node);
        change := SetTo(handle.value);
      }
      Publish(c.node, change, now);
      failure := None;
    }

    method SettleRow(id: Option<nat>, status: QueueStatus)
      modifies this`queue
      ensures View() == Settle(old(View()), id, status)
    {
      if id.Some? && id.value in queue && queue[id.value].status == Waiting {
        queue := queue[id.value := queue[id.value].(status := status)];
      }
    }

    method RequestClaim(r: Request, now: nat) returns (result: Result<Requested>)
      modifies this
      ensures (result, View()) == Claims.RequestClaim(old(View()), r, now)
    {
      var claimable := Claimable(View(), r.node);
      if claimable.Err? { return Err(claimable.error); }
      var existing := FindExisting(r.contributor, r.node);
      if existing < |claims| { return Ok(Requested(existing, false, [])); }
      var handle := AskedHandle(r);
      if AsksHandle(r) && handle.None? { return Err(BadHandle); }
      if handle.Some? && !Available(View(), handle.value, r.node) { return Err(HandleUnavailable); }
      result := Insert(r, handle, now);
    }

    /** The transaction: the pending row, then approval at once or a curator's row. */
    method Insert(r: Request, handle: Option<string>, now: nat) returns (result: Result<Requested>)
      requires r.node in nodes && handle == AskedHandle(r)
      modifies this
      ensures (result, View()) == InsertClaim(old(View()), r, now)
    {
      var conflicts := Conflicts(View(), r.contributor, r.node);
      var instant := Vouched(View(), r) && conflicts == [];
      var id := |claims|;
      var begun, row := View(), NewRow(View(), r, now);
      var failure: Option<Error>;
      if instant {
        failure := InsertApproved(row, handle, now);
      } else {
        failure := InsertWaiting(row, r.queueId, handle);
      }
      if failure.Some? {
        Rollback(begun);
        return Err(failure.value);
      }
      result := Ok(Requested(id, true, conflicts));
    }

    method InsertApproved(row: Claim, handle: Option<string>, now: nat) returns (failure: Option<Error>)
      modifies this
      ensures match ApproveInner(old(View()).(claims := old(claims) + [row]), |old(claims)|, handle, now)
        case Err(e) => failure == Some(e)
        case Ok(s) => failure == None && View() == s
    {
      var id := |claims|;
      claims := claims + [row];
      failure := ApproveRow(id, handle, now);
    }

    method InsertWaiting(row: Claim, queueId: nat, handle: Option<string>) returns (failure: Option<Error>)
      modifies this`queue, this`claims
      ensures old(queueId in queue) ==> failure == Some(IdTaken)
      ensures !old(queueId in queue) ==> failure == None && queue == old(queue)[queueId := QueueRow(Waiting, handle)]
      ensures !old(queueId in queue) ==> claims == old(claims) + [row.(queue := Some(queueId))]
    {
      var id := |claims|;
      claims := claims + [row];
      if queueId in queue { return Some(IdTaken); }
      queue := queue[queueId := QueueRow(Waiting, handle)];
      claims := claims[id := row.(queue := Some(queueId))];
      failure := None;
    }

    method FindExisting(contributor: string, node: string) returns (at: nat)
      ensures at == FindActive(claims, contributor, node)
    {
      at := 0;
      while at < |claims|
        invariant at <= |claims| && FindActive(claims[..at], contributor, node) == at
      {
        assert claims[..at + 1][..at] == claims[..at];
        if IsActive(claims[at]) && claims[at].contributor == contributor && claims[at].node == node {
          FoundStays(claims, at, contributor, node);
          return;
        }
        at := at + 1;
      }
      assert claims[..at] == claims;
    }

    method ApproveClaim(id: nat, now: nat) returns (result: Result<nat>)
      modifies this
      ensures (result, View()) == Claims.ApproveClaim(old(View()), id, now)
    {
      if id >= |claims| { return Err(ClaimNotFound); }
      var q := claims[id].queue;
      var handle := if q.Some? && q.value in queue then queue[q.value].handle else None;
      var begun := View();
      var failure := ApproveRow(id, handle, now);
      if failure.Some? {
        Rollback(begun);
        return Err(failure.value);
      }
      SettleRow(q, Accepted);
      result := Ok(id);
    }

    method RejectClaim(id: nat, now: nat) returns (result: Result<nat>)
      modifies this
      ensures (result, View()) == Claims.RejectClaim(old(View()), id, now)
    {
      if id >= |claims| { return Err(ClaimNotFound); }
      var c := claims[id];
      if c.status != Pending { return Err(ClaimNotPending); }
      claims := claims[id := c.(status := Rejected, reviewedAt := Some(now))];
      SettleRow(c.queue, Refused);
      result := Ok(id);
    }

    method EndClaim(id: nat, actor: string, revoke: bool, now: nat) returns (result: Result<nat>)
      modifies this
      ensures (result, View()) == Claims.EndClaim(old(View()), id, actor, revoke, now)
      ensures result.Ok? <==> id < |old(claims)| && old(claims)[id].status in {Pending, Approved} && (revoke || old(claims)[id].contributor == actor)
      ensures result.Err? ==> View() == old(View())
    {
      if id >= |claims| { return Err(ClaimNotFound); }
      var c := claims[id];
      var ended := if revoke then Revoked else Withdrawn;
      if !revoke && c.contributor != actor { return Err(NotYourClaim); }
      if c.status == Pending {
        claims := claims[id := c.(status := ended, reviewedAt := Some(now))];
        SettleRow(c.queue, Refused);
        return Ok(id);
      }
      if c.status != Approved { return Err(ClaimNotActive); }
      claims := claims[id := c.(status := ended)];
      Publish(c.node, LeaveHandle, now);
      result := Ok(id);
    }

    method SetHandle(contributor: string, node: string, raw: string, nowMs: nat) returns (result: Result<string>)
      modifies this
      ensures (result, View()) == Claims.SetHandle(old(View()), contributor, node, raw, nowMs)
    {
      if !HoldsClaim(claims, contributor, node) { return Err(NotClaimant); }
      var h := NormaliseHandle(raw);
      if h.None? { return Err(BadHandle); }
      if !Available(View(), h.value, node) { return Err(HandleUnavailable); }
      var face := if node in nodes then nodes[node].claimed else None;
      if face.Some? && face.value.handle == h { return Ok(h.value); }
      if face.Some? && face.value.handle.Some? && face.value.handleSetAt.Some?
        && nowMs - face.value.handleSetAt.value * 1000 < HANDLE_CHANGE_SECONDS * 1000
      {
        return Err(HandleChangeTooSoon);
      }
      InsertAlias(h.value, node);
      Publish(node, SetTo(h.value), nowMs / 1000);
      result := Ok(h.value);
    }
  }

  lemma {:induction false} FoundStays(claims: seq<Claim>, at: nat, contributor: string, node: string)
    requires at < |claims| && FindActive(claims[..at], contributor, node) == at
    requires IsActive(claims[at]) && claims[at].contributor == contributor && claims[at].node == node
    ensures FindActive(claims, contributor, node) == at
    decreases |claims|
  {
    if at < |claims| - 1 {
      assert claims[..|claims| - 1][..at] == claims[..at];
      FoundStays(claims[..|claims| - 1], at, contributor, node);
    }
  }
}
