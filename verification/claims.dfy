/** src/claim/store.ts: claims on nodes, their public face, and handles. */
module Claims {
  import opened Optional
  import opened Ordering
  import opened Sorting

  datatype NodeType = Practitioner | Collective | Institution | OtherType(name: string)

  datatype Via = Invite | ByRequest | PeerInvite | PostIntake

  datatype ClaimStatus = Pending | Approved | Rejected | Withdrawn | Revoked

  /** A row of node_claims; its id is its row number. */
  datatype Claim = Claim(
    node: string, contributor: string, status: ClaimStatus, via: Via, publicName: bool,
    queue: Option<nat>, reviewedAt: Option<nat>, createdAt: nat)

  datatype QueueStatus = Waiting | Accepted | Refused

  /** An intake_queue row of kind 'claim', with the handle its proposal carries. */
  datatype QueueRow = QueueRow(status: QueueStatus, handle: Option<string>)

  /** metadata.claimed */
  datatype Face = Face(at: nat, byNames: seq<string>, handle: Option<string>, handleSetAt: Option<nat>)

  datatype Node = Node(kind: NodeType, retired: bool, claimed: Option<Face>)

  datatype State = State(
    claims: seq<Claim>, queue: map<nat, QueueRow>, aliases: map<string, string>, nodes: map<string, Node>,
    names: map<string, string>, invitedTo: map<string, string>, reserved: set<string>)

  datatype Error =
    | NodeNotFound | NotClaimable | NodeRetired | BadHandle | HandleUnavailable | ClaimNotFound | ClaimNotPending
    | ContributorNotFound | NotYourClaim | ClaimNotActive | NotClaimant | HandleChangeTooSoon | IdTaken
    | SameNode | TypeMismatch | AlreadyRetired | TargetRetired | PageClaimed

  datatype Result<T> = Ok(value: T) | Err(error: Error)

  // ---- handles -----------------------------------------------------------------------

  predicate LetterOrDigit(c: char)
  {
    'a' <= c <= 'z' || '0' <= c <= '9'
  }

  /** HANDLE_RULE: 3 to 30 characters, a-z 0-9 . _ -, starting and ending with a letter or digit. */
  predicate IsHandle(h: string)
  {
    && 3 <= |h| <= 30
    && LetterOrDigit(h[0]) && LetterOrDigit(h[|h| - 1])
    && forall i :: 0 <= i < |h| ==> LetterOrDigit(h[i]) || h[i] in {'.', '_', '-'}
  }

  predicate Blank(c: char)
  {
    c == ' ' || '\t' <= c <= '\r'
  }

  function TrimLeft(s: string): string
  {
    if s != [] && Blank(s[0]) then TrimLeft(s[1..]) else s
  }

  function TrimRight(s: string): string
  {
    if s != [] && Blank(s[|s| - 1]) then TrimRight(s[..|s| - 1]) else s
  }

  function LowerChar(c: char): char
  {
    if 'A' <= c <= 'Z' then c + ('a' - 'A') else c
  }

  /** `raw.trim().replace(/^@/, "").toLowerCase()` */
  function Plain(raw: string): string
  {
    var t := TrimRight(TrimLeft(raw));
    var u := if t != [] && t[0] == '@' then t[1..] else t;
    seq(|u|, i requires 0 <= i < |u| => LowerChar(u[i]))
  }

  function NormaliseHandle(raw: string): Option<string>
  {
    if IsHandle(Plain(raw)) then Some(Plain(raw)) else None
  }

  lemma HandleIsPlain(h: string)
    requires IsHandle(h)
    ensures NormaliseHandle(h) == Some(h)
  {
    assert !Blank(h[0]) && !Blank(h[|h| - 1]) && h[0] != '@';
    assert TrimLeft(h) == h && TrimRight(h) == h;
    assert forall i :: 0 <= i < |h| ==> LowerChar(h[i]) == h[i];
    assert Plain(h) == h;
  }

  predicate AllBlank(s: string)
  {
    forall i :: 0 <= i < |s| ==> s[i] == ' ' || '\t' <= s[i] <= '\r'
  }

  lemma {:induction false} TrimmedLeft(s: string) returns (k: nat)
    ensures k <= |s| && TrimLeft(s) == s[k..] && AllBlank(s[..k]) && (k < |s| ==> !Blank(s[k]))
  {
    k := 0;
    if s != [] && Blank(s[0]) {
      var rest := TrimmedLeft(s[1..]);
      k := rest + 1;
      assert s[..k] == [s[0]] + s[1..][..rest];
    }
  }

  lemma {:induction false} TrimmedRight(s: string) returns (k: nat)
    ensures k <= |s| && TrimRight(s) == s[..k] && AllBlank(s[k..]) && (k > 0 ==> !Blank(s[k - 1]))
  {
    k := |s|;
    if s != [] && Blank(s[|s| - 1]) {
      var front := s[..|s| - 1];
      k := TrimmedRight(front);
      assert s[k..] == front[k..] + [s[|s| - 1]];
    }
  }

  /** Trimming takes the blanks at both ends and nothing else. */
  lemma TrimMeans(s: string) returns (before: string, after: string)
    ensures s == before + TrimRight(TrimLeft(s)) + after && AllBlank(before) && AllBlank(after)
    ensures var t := TrimRight(TrimLeft(s)); t != [] ==> !Blank(t[0]) && !Blank(t[|t| - 1])
  {
    var i := TrimmedLeft(s);
    var rest := s[i..];
    var k := TrimmedRight(rest);
    before, after := s[..i], rest[k..];
    assert s == before + rest && rest == rest[..k] + after;
    if k > 0 { assert rest[..k][0] == s[i] && !Blank(s[i]) && !Blank(rest[k - 1]); }
  }

  lemma {:induction false} LeftOfBlanks(blanks: string, s: string)
    requires AllBlank(blanks) && s != [] && !Blank(s[0])
    ensures TrimLeft(blanks + s) == s
  {
    if blanks == [] {
      assert blanks + s == s;
    } else {
      assert (blanks + s)[1..] == blanks[1..] + s;
      LeftOfBlanks(blanks[1..], s);
    }
  }

  lemma {:induction false} RightOfBlanks(s: string, blanks: string)
    requires AllBlank(blanks) && s != [] && !Blank(s[|s| - 1])
    ensures TrimRight(s + blanks) == s
  {
    if blanks == [] {
      assert s + blanks == s;
    } else {
      assert (s + blanks)[..|s + blanks| - 1] == s + blanks[..|blanks| - 1];
      RightOfBlanks(s, blanks[..|blanks| - 1]);
    }
  }

  /** The same letters in any case. */
  predicate SameLetters(u: string, h: string)
  {
    |u| == |h| && forall i :: 0 <= i < |h| ==> u[i] == h[i] || ('A' <= u[i] <= 'Z' && u[i] as int + 32 == h[i] as int)
  }

  lemma LowersTo(u: string, h: string)
    requires SameLetters(u, h) && IsHandle(h)
    ensures seq(|u|, i requires 0 <= i < |u| => LowerChar(u[i])) == h
  {
    forall i | 0 <= i < |u| ensures LowerChar(u[i]) == h[i] {
      if 'A' <= u[i] <= 'Z' {
        assert LowerChar(u[i]) as int == u[i] as int + 32;
        assert u[i] != h[i];
      }
    }
  }

  lemma TrimmedBetween(inner: string, before: string, after: string)
    requires AllBlank(before) && AllBlank(after) && inner != [] && !Blank(inner[0]) && !Blank(inner[|inner| - 1])
    ensures TrimRight(TrimLeft(before + inner + after)) == inner
  {
    assert before + inner + after == before + (inner + after);
    LeftOfBlanks(before, inner + after);
    RightOfBlanks(inner, after);
  }

  lemma EndsAreLetters(u: string, h: string)
    requires SameLetters(u, h) && IsHandle(h)
    ensures !Blank(u[0]) && u[0] != '@' && !Blank(u[|u| - 1])
  {
    assert u[0] == h[0] || 'A' <= u[0] <= 'Z';
    assert u[|u| - 1] == h[|u| - 1] || 'A' <= u[|u| - 1] <= 'Z';
  }

  lemma PlainOf(raw: string, u: string, h: string, at: bool)
    requires SameLetters(u, h) && IsHandle(h) && TrimRight(TrimLeft(raw)) == if at then ['@'] + u else u
    ensures Plain(raw) == h
  {
    EndsAreLetters(u, h);
    assert (['@'] + u)[1..] == u;
    LowersTo(u, h);
  }

  /** A handle is recognised between blanks, with an @ before it, and in capitals. */
  lemma HandleIsRecognised(h: string, u: string, before: string, at: bool, after: string)
    requires IsHandle(h) && SameLetters(u, h) && AllBlank(before) && AllBlank(after)
    ensures NormaliseHandle(before + (if at then ['@'] + u else u) + after) == Some(h)
  {
    var inner := if at then ['@'] + u else u;
    EndsAreLetters(u, h);
    TrimmedBetween(inner, before, after);
    PlainOf(before + inner + after, u, h, at);
  }

  predicate Available(s: State, raw: string, node: string)
  {
    var h := NormaliseHandle(raw);
    h.Some? && h.value !in s.reserved && (h.value in s.aliases ==> s.aliases[h.value] == node)
  }

  /** INSERT OR IGNORE INTO node_aliases: a handle that is mapped stays mapped. */
  function WithAlias(s: State, h: string, node: string): State
  {
    if h in s.aliases then s else s.(aliases := s.aliases[h := node])
  }

  function Resolve(s: State, raw: string): Option<string>
  {
    var h := Plain(raw);
    if h != [] && h in s.aliases && s.aliases[h] in s.nodes then Some(s.aliases[h]) else None
  }

  // ---- the public face -----------------------------------------------------------------

  function Approves(node: string): Claim -> bool
  {
    (c: Claim) => c.node == node && c.status == Approved
  }

  /** ORDER BY reviewed_at ASC, created_at ASC (NULL first) */
  predicate NoLater(a: Claim, b: Claim)
  {
    || (a.reviewedAt == b.reviewedAt && a.createdAt <= b.createdAt)
    || (a.reviewedAt.None? && b.reviewedAt.Some?)
    || (a.reviewedAt.Some? && b.reviewedAt.Some? && a.reviewedAt.value < b.reviewedAt.value)
  }

  function ApprovedFor(s: State, node: string): seq<Claim>
  {
    Sort(Where(s.claims, Approves(node)), NoLater)
  }

  predicate Named(c: Claim, names: map<string, string>)
  {
    c.publicName && c.contributor in names && names[c.contributor] != ""
  }

  /** The public claimants' names, each once, in order of approval. */
  function NamesOf(approved: seq<Claim>, names: map<string, string>): seq<string>
  {
    if approved == [] then []
    else
      var front, c := NamesOf(approved[..|approved| - 1], names), approved[|approved| - 1];
      if Named(c, names) && names[c.contributor] !in front then front + [names[c.contributor]] else front
  }

  datatype HandleChange = LeaveHandle | SetTo(handle: string)

  /** The face publishClaimed would write. */
  function NextFace(s: State, node: string, change: HandleChange, now: nat): Option<Face>
    requires node in s.nodes
  {
    var approved, prev := ApprovedFor(s, node), s.nodes[node].claimed;
    if approved == [] then None
    else Some(Face(
      if prev.Some? then prev.value.at else if approved[0].reviewedAt.Some? then approved[0].reviewedAt.value else now,
      NamesOf(approved, s.names),
      if change.SetTo? then Some(change.handle) else if prev.Some? then prev.value.handle else None,
      if change.SetTo? then Some(now) else if prev.Some? then prev.value.handleSetAt else None))
  }

  function Published(s: State, node: string, change: HandleChange, now: nat): State
  {
    if node in s.nodes then s.(nodes := s.nodes[node := s.nodes[node].(claimed := NextFace(s, node, change, now))]) else s
  }

  // ---- the lifecycle -----------------------------------------------------------------------

  predicate IsActive(c: Claim)
  {
    c.status == Pending || c.status == Approved
  }

  /** The first active claim of this contributor on this node among the first `upTo` rows, or upTo. */
  function FindActive(claims: seq<Claim>, contributor: string, node: string): nat
  {
    if claims == [] then 0
    else
      var at := FindActive(claims[..|claims| - 1], contributor, node);
      var c := claims[|claims| - 1];
      if at < |claims| - 1 then at
      else if IsActive(c) && c.contributor == contributor && c.node == node then |claims| - 1
      else |claims|
  }

  function Update(s: State, id: nat, c: Claim): State
    requires id < |s.claims|
  {
    s.(claims := s.claims[id := c])
  }

  /** UPDATE intake_queue SET status = ... WHERE id = ? AND status = 'pending' */
  function Settle(s: State, queue: Option<nat>, status: QueueStatus): State
  {
    if queue.Some? && queue.value in s.queue && s.queue[queue.value].status == Waiting
    then s.(queue := s.queue[queue.value := s.queue[queue.value].(status := status)])
    else s
  }

  /** What approveClaimInner leaves once the row itself is marked approved. */
  function AfterApproval(s: State, node: string, handle: Option<string>, now: nat): State
  {
    if handle.Some? && Available(s, handle.value, node)
    then Published(WithAlias(s, handle.value, node), node, SetTo(handle.value), now)
    else Published(s, node, LeaveHandle, now)
  }

  /** approveClaimInner */
  function ApproveInner(s: State, id: nat, handle: Option<string>, now: nat): Result<State>
  {
    if id >= |s.claims| then Err(ClaimNotFound)
    else
      var c := s.claims[id];
      if c.status != Pending then Err(ClaimNotPending)
      else if c.contributor !in s.names then Err(ContributorNotFound)
      else
        Ok(AfterApproval(Update(s, id, c.(status := Approved, reviewedAt := Some(now))), c.node, handle, now))
  }

  datatype Request = Request(
    contributor: string, node: string, via: Option<Via>, handle: Option<string>, publicName: bool, queueId: nat)

  datatype Requested = Requested(claim: nat, created: bool, conflicts: seq<string>)

  function Contributors(claims: seq<Claim>, except: string): seq<string>
  {
    if claims == [] then []
    else
      (if claims[0].contributor != except then [claims[0].contributor] else []) + Contributors(claims[1..], except)
  }

  /** The other approved claimants a claim on a practitioner contends with. */
  function Conflicts(s: State, contributor: string, node: string): seq<string>
    requires node in s.nodes
  {
    if s.nodes[node].kind == Practitioner then Contributors(ApprovedFor(s, node), contributor) else []
  }

  /** claimableNode */
  function Claimable(s: State, node: string): Result<Node>
  {
    if node !in s.nodes then Err(NodeNotFound)
    else if s.nodes[node].kind.OtherType? then Err(NotClaimable)
    else if s.nodes[node].retired then Err(NodeRetired)
    else Ok(s.nodes[node])
  }

  predicate Vouched(s: State, r: Request)
  {
    || r.via == Some(PeerInvite) || r.via == Some(Invite)
    || (r.contributor in s.invitedTo && s.invitedTo[r.contributor] == r.node)
  }

  function ViaOf(s: State, r: Request): Via
  {
    if r.via.Some? then r.via.value
    else if r.contributor in s.invitedTo && s.invitedTo[r.contributor] == r.node then Invite
    else ByRequest
  }

  /** An empty handle is no handle: `args.handle ? ... : null`. */
  predicate AsksHandle(r: Request)
  {
    r.handle.Some? && r.handle.value != ""
  }

  function AskedHandle(r: Request): Option<string>
  {
    if AsksHandle(r) then NormaliseHandle(r.handle.value) else None
  }

  /** The row requestClaim inserts. */
  function NewRow(s: State, r: Request, now: nat): Claim
  {
    Claim(r.node, r.contributor, Pending, ViaOf(s, r), r.publicName, None, None, now)
  }

  predicate Instant(s: State, r: Request)
    requires r.node in s.nodes
  {
    Vouched(s, r) && Conflicts(s, r.contributor, r.node) == []
  }

  /** The transaction of requestClaim. */
  function InsertClaim(s: State, r: Request, now: nat): (Result<Requested>, State)
    requires r.node in s.nodes
  {
    var handle, row, id := AskedHandle(r), NewRow(s, r, now), |s.claims|;
    var requested := Requested(id, true, Conflicts(s, r.contributor, r.node));
    if Instant(s, r) then
      var done := ApproveInner(s.(claims := s.claims + [row]), id, handle, now);
      if done.Err? then (Err(done.error), s) else (Ok(requested), done.value)
    else if r.queueId in s.queue then (Err(IdTaken), s)
    else
      (Ok(requested),
       s.(claims := s.claims + [row.(queue := Some(r.queueId))], queue := s.queue[r.queueId := QueueRow(Waiting, handle)]))
  }

  function RequestClaim(s: State, r: Request, now: nat): (Result<Requested>, State)
  {
    var claimable := Claimable(s, r.node);
    if claimable.Err? then (Err(claimable.error), s)
    else if FindActive(s.claims, r.contributor, r.node) < |s.claims|
    then (Ok(Requested(FindActive(s.claims, r.contributor, r.node), false, [])), s)
    else if AsksHandle(r) && AskedHandle(r).None? then (Err(BadHandle), s)
    else if AsksHandle(r) && !Available(s, AskedHandle(r).value, r.node) then (Err(HandleUnavailable), s)
    else InsertClaim(s, r, now)
  }

  function ApproveClaim(s: State, id: nat, now: nat): (Result<nat>, State)
  {
    if id >= |s.claims| then (Err(ClaimNotFound), s)
    else
      var queue := s.claims[id].queue;
      var handle := if queue.Some? && queue.value in s.queue then s.queue[queue.value].handle else None;
      var done := ApproveInner(s, id, handle, now);
      if done.Err? then (Err(done.error), s) else (Ok(id), Settle(done.value, queue, Accepted))
  }

  function RejectClaim(s: State, id: nat, now: nat): (Result<nat>, State)
  {
    if id >= |s.claims| then (Err(ClaimNotFound), s)
    else if s.claims[id].status != Pending then (Err(ClaimNotPending), s)
    else
      var c := s.claims[id];
      (Ok(id), Settle(Update(s, id, c.(status := Rejected, reviewedAt := Some(now))), c.queue, Refused))
  }

  function EndClaim(s: State, id: nat, actor: string, revoke: bool, now: nat): (Result<nat>, State)
  {
    if id >= |s.claims| then (Err(ClaimNotFound), s)
    else
      var c := s.claims[id];
      var ended := if revoke then Revoked else Withdrawn;
      if !revoke && c.contributor != actor then (Err(NotYourClaim), s)
      else if c.status == Pending then
        (Ok(id), Settle(Update(s, id, c.(status := ended, reviewedAt := Some(now))), c.queue, Refused))
      else if c.status != Approved then (Err(ClaimNotActive), s)
      else (Ok(id), Published(Update(s, id, c.(status := ended)), c.node, LeaveHandle, now))
  }

  const HANDLE_CHANGE_SECONDS := 30 * 86400

  predicate HoldsClaim(claims: seq<Claim>, contributor: string, node: string)
  {
    exists i :: 0 <= i < |claims| && claims[i].contributor == contributor && claims[i].node == node && claims[i].status == Approved
  }

  /** `nowMs` is Date.now(); every stamp is whole seconds. */
  function SetHandle(s: State, contributor: string, node: string, raw: string, nowMs: nat): (Result<string>, State)
  {
    if !HoldsClaim(s.claims, contributor, node) then (Err(NotClaimant), s)
    else if NormaliseHandle(raw).None? then (Err(BadHandle), s)
    else if !Available(s, NormaliseHandle(raw).value, node) then (Err(HandleUnavailable), s)
    else
      var h := NormaliseHandle(raw).value;
      var face := if node in s.nodes then s.nodes[node].claimed else None;
      if face.Some? && face.value.handle == Some(h) then (Ok(h), s)
      else if face.Some? && face.value.handle.Some? && face.value.handleSetAt.Some?
        && nowMs - face.value.handleSetAt.value * 1000 < HANDLE_CHANGE_SECONDS * 1000
      then (Err(HandleChangeTooSoon), s)
      else (Ok(h), Published(WithAlias(s, h, node), node, SetTo(h), nowMs / 1000))
  }

  // ---- what every step keeps --------------------------------------------------------------------

  ghost predicate OneActiveEach(claims: seq<Claim>)
  {
    forall i, j :: 0 <= i < j < |claims| && IsActive(claims[i]) && IsActive(claims[j]) ==>
      !(claims[i].contributor == claims[j].contributor && claims[i].node == claims[j].node)
  }

  /** A pending claim has a waiting queue row; a settled one has none; no row stands for two claims. */
  ghost predicate QueueInStep(claims: seq<Claim>, queue: map<nat, QueueRow>)
  {
    && (forall i :: 0 <= i < |claims| && claims[i].queue.Some? ==> claims[i].queue.value in queue)
    && (forall i :: 0 <= i < |claims| && claims[i].status == Pending ==>
          claims[i].queue.Some? && queue[claims[i].queue.value].status == Waiting)
    && (forall i :: 0 <= i < |claims| && claims[i].status != Pending && claims[i].queue.Some? ==>
          queue[claims[i].queue.value].status != Waiting)
    && (forall i, j :: 0 <= i < j < |claims| && claims[i].queue.Some? ==> claims[i].queue != claims[j].queue)
  }

  ghost predicate HandlesPlain(queue: map<nat, QueueRow>)
  {
    forall q :: q in queue && queue[q].handle.Some? ==> IsHandle(queue[q].handle.value)
  }

  /** metadata.claimed says what the approved claims say. */
  ghost predicate FaceAgrees(s: State, node: string)
    requires node in s.nodes
  {
    var face := s.nodes[node].claimed;
    && (face.Some? <==> ApprovedFor(s, node) != [])
    && (face.Some? ==> face.value.byNames == NamesOf(ApprovedFor(s, node), s.names))
  }

  ghost predicate MapsTo(s: State, h: string, node: string)
  {
    IsHandle(h) && h in s.aliases && s.aliases[h] == node
  }

  /** A shown handle is well formed and maps to the node that shows it. */
  ghost predicate HandleAgrees(s: State, node: string)
    requires node in s.nodes
  {
    var face := s.nodes[node].claimed;
    face.Some? ==>
      && (face.value.handle.Some? <==> face.value.handleSetAt.Some?)
      && (face.value.handle.Some? ==> MapsTo(s, face.value.handle.value, node))
  }

  /** The private tables agree among themselves. */
  ghost predicate Sound(s: State)
  {
    && OneActiveEach(s.claims)
    && QueueInStep(s.claims, s.queue)
    && HandlesPlain(s.queue)
    && forall i :: 0 <= i < |s.claims| ==> s.claims[i].node in s.nodes
  }

  /** The public face of this page agrees with the private claims, and its handle with the aliases. */
  ghost predicate PageAgrees(s: State, node: string)
    requires node in s.nodes
  {
    FaceAgrees(s, node) && HandleAgrees(s, node)
  }

  ghost predicate Valid(s: State)
  {
    Sound(s) && forall n :: n in s.nodes ==> PageAgrees(s, n)
  }

  lemma ApprovedMembers(s: State, node: string, c: Claim)
    ensures c in ApprovedFor(s, node) <==> c in s.claims && c.node == node && c.status == Approved
  {
    SortPermutes(Where(s.claims, Approves(node)), NoLater);
  }

  lemma {:induction false} WhereUpdate(claims: seq<Claim>, id: nat, c: Claim, p: Claim -> bool)
    requires id < |claims| && !p(claims[id]) && !p(c)
    ensures Where(claims[id := c], p) == Where(claims, p)
  {
    if id == 0 {
      assert claims[id := c][1..] == claims[1..];
    } else {
      WhereUpdate(claims[1..], id - 1, c, p);
      assert claims[id := c][1..] == claims[1..][id - 1 := c];
    }
  }

  /** Same approved rows, same node and names: the same verdict on its face. */
  lemma FaceCarries(s: State, t: State, n: string)
    requires n in s.nodes && n in t.nodes && t.nodes[n] == s.nodes[n] && t.names == s.names
    requires Where(t.claims, Approves(n)) == Where(s.claims, Approves(n))
    ensures FaceAgrees(t, n) <==> FaceAgrees(s, n)
  {
  }

  lemma NotApprovedAppend(claims: seq<Claim>, c: Claim, n: string)
    requires !Approves(n)(c)
    ensures Where(claims + [c], Approves(n)) == Where(claims, Approves(n))
  {
    WhereAppend(claims, [c], Approves(n));
    assert Where([c], Approves(n)) == [];
    assert Where(claims, Approves(n)) + [] == Where(claims, Approves(n));
  }

  /** The page, its approved rows and the handles that map to it are as they were. */
  ghost predicate Spares(s: State, t: State, n: string)
    requires n in s.nodes && n in t.nodes
  {
    && t.nodes[n].claimed == s.nodes[n].claimed && t.names == s.names
    && Where(t.claims, Approves(n)) == Where(s.claims, Approves(n))
    && forall h :: MapsTo(s, h, n) ==> MapsTo(t, h, n)
  }

  lemma SparedAgrees(s: State, t: State, n: string)
    requires n in s.nodes && n in t.nodes && Spares(s, t, n)
    ensures FaceAgrees(t, n) <==> FaceAgrees(s, n)
    ensures HandleAgrees(s, n) ==> HandleAgrees(t, n)
  {
    assert ApprovedFor(t, n) == ApprovedFor(s, n);
  }

  /** Publishing makes the page's face agree, whatever it showed before, and spares every other page. */
  lemma PublishedKeepsPage(s: State, node: string, change: HandleChange, now: nat, n: string)
    requires node in s.nodes && n in s.nodes && HandleAgrees(s, n) && (n != node ==> FaceAgrees(s, n))
    requires change.SetTo? ==> MapsTo(s, change.handle, node)
    ensures n in Published(s, node, change, now).nodes && PageAgrees(Published(s, node, change, now), n)
  {
    var t := Published(s, node, change, now);
    assert ApprovedFor(t, n) == ApprovedFor(s, n);
    if n != node { SparedAgrees(s, t, n); }
  }

  lemma WithAliasSpares(s: State, h: string, node: string, n: string)
    requires n in s.nodes
    ensures Spares(s, WithAlias(s, h, node), n)
  {
  }

  /** One waiting row turned into a settled one. */
  ghost predicate SettledRow(was: map<nat, QueueRow>, id: Option<nat>, now: map<nat, QueueRow>)
  {
    && id.Some? && id.value in was && id.value in now
    && now == was[id.value := was[id.value].(status := now[id.value].status)]
    && now[id.value].status != Waiting
  }

  /** A claim leaves the pending or the approved state, its queue row going with it. */
  ghost predicate StatusStep(s: State, id: nat, c: Claim, queue: map<nat, QueueRow>)
  {
    && id < |s.claims|
    && (var o := s.claims[id];
        && c.node == o.node && c.contributor == o.contributor && c.queue == o.queue
        && IsActive(o) && c.status != Pending
        && if o.status == Pending then SettledRow(s.queue, o.queue, queue) else queue == s.queue)
  }

  lemma StatusKeepsSound(s: State, id: nat, c: Claim, queue: map<nat, QueueRow>)
    requires Sound(s) && StatusStep(s, id, c, queue)
    ensures Sound(Update(s, id, c).(queue := queue))
  {
    var o := s.claims[id];
    if o.status == Pending {
      var q := o.queue.value;
      assert forall i :: 0 <= i < |s.claims| && i != id ==> s.claims[i].queue != Some(q);
    }
  }

  /** Changing one claim's status, keeping whose it is, spares every page but its own. */
  lemma StatusSpares(s: State, id: nat, c: Claim, queue: map<nat, QueueRow>, n: string)
    requires n in s.nodes && id < |s.claims| && c.node == s.claims[id].node
    ensures var t := Update(s, id, c).(queue := queue);
      && (n != c.node || (s.claims[id].status != Approved && c.status != Approved) ==> Spares(s, t, n))
      && (HandleAgrees(s, n) ==> HandleAgrees(t, n))
  {
    if n != c.node || (s.claims[id].status != Approved && c.status != Approved) { WhereUpdate(s.claims, id, c, Approves(n)); }
  }

  lemma FindActiveMeaning(claims: seq<Claim>, contributor: string, node: string)
    ensures var at := FindActive(claims, contributor, node);
      && at <= |claims|
      && (at < |claims| ==> IsActive(claims[at]) && claims[at].contributor == contributor && claims[at].node == node)
      && (forall i :: 0 <= i < at ==> !(IsActive(claims[i]) && claims[i].contributor == contributor && claims[i].node == node))
  {
    if claims != [] {
      FindActiveMeaning(claims[..|claims| - 1], contributor, node);
      assert forall i :: 0 <= i < |claims| - 1 ==> claims[..|claims| - 1][i] == claims[i];
    }
  }

  /** A new row for someone with no active claim on the node keeps one active claim each. */
  lemma AppendKeepsOneEach(s: State, c: Claim)
    requires OneActiveEach(s.claims) && FindActive(s.claims, c.contributor, c.node) == |s.claims|
    ensures OneActiveEach(s.claims + [c])
  {
    FindActiveMeaning(s.claims, c.contributor, c.node);
  }

  lemma AppendKeepsQueue(s: State, c: Claim, queueId: nat, row: QueueRow)
    requires QueueInStep(s.claims, s.queue) && queueId !in s.queue
    requires c.status == Pending && c.queue == Some(queueId) && row.status == Waiting
    ensures QueueInStep(s.claims + [c], s.queue[queueId := row])
  {
  }

  lemma AppendSpares(s: State, c: Claim, t: State, n: string)
    requires n in s.nodes && t.claims == s.claims + [c] && t.nodes == s.nodes && t.names == s.names && t.aliases == s.aliases
    ensures n != c.node || c.status != Approved ==> Spares(s, t, n)
    ensures HandleAgrees(s, n) ==> HandleAgrees(t, n)
  {
    if n != c.node || c.status != Approved { NotApprovedAppend(s.claims, c, n); }
  }

  lemma AppendKeepsSound(s: State, c: Claim, t: State)
    requires Sound(s) && FindActive(s.claims, c.contributor, c.node) == |s.claims| && c.node in s.nodes
    requires t.claims == s.claims + [c] && t.nodes == s.nodes
    requires QueueInStep(t.claims, t.queue) && HandlesPlain(t.queue)
    ensures Sound(t)
  {
    AppendKeepsOneEach(s, c);
  }

  lemma AppendUnqueued(s: State, c: Claim)
    requires QueueInStep(s.claims, s.queue) && c.status == Approved && c.queue == None
    ensures QueueInStep(s.claims + [c], s.queue)
  {
  }

  /** Approval, with or without a handle, publishes. */
  lemma ApprovalKeepsPage(s: State, node: string, handle: Option<string>, now: nat, n: string)
    requires node in s.nodes && n in s.nodes && HandleAgrees(s, n) && (n != node ==> FaceAgrees(s, n))
    requires handle.Some? ==> IsHandle(handle.value)
    ensures n in AfterApproval(s, node, handle, now).nodes && PageAgrees(AfterApproval(s, node, handle, now), n)
  {
    if handle.Some? && Available(s, handle.value, node) {
      HandleIsPlain(handle.value);
      var t := WithAlias(s, handle.value, node);
      WithAliasSpares(s, handle.value, node, n);
      SparedAgrees(s, t, n);
      PublishedKeepsPage(t, node, SetTo(handle.value), now, n);
    } else {
      PublishedKeepsPage(s, node, LeaveHandle, now, n);
    }
  }

  lemma ApprovalKeepsSound(s: State, node: string, handle: Option<string>, now: nat)
    requires Sound(s)
    ensures Sound(AfterApproval(s, node, handle, now)) && AfterApproval(s, node, handle, now).nodes.Keys == s.nodes.Keys
  {
  }

  lemma InstantIsApproval(s: State, row: Claim, handle: Option<string>, now: nat)
    requires row.status == Pending
    ensures var done := ApproveInner(s.(claims := s.claims + [row]), |s.claims|, handle, now);
      var approved := s.(claims := s.claims + [row.(status := Approved, reviewedAt := Some(now))]);
      done.Ok? ==> done.value == AfterApproval(approved, row.node, handle, now)
  {
    var marked := row.(status := Approved, reviewedAt := Some(now));
    assert Update(s.(claims := s.claims + [row]), |s.claims|, marked) == s.(claims := s.claims + [marked]);
  }

  /** A created claim is a new row for someone with no active claim; it is instant or waiting. */
  ghost predicate Created(s: State, r: Request, now: nat, t: State)
  {
    && r.node in s.nodes && FindActive(s.claims, r.contributor, r.node) == |s.claims|
    && (AskedHandle(r).Some? ==> IsHandle(AskedHandle(r).value))
    && if Instant(s, r)
       then ApproveInner(s.(claims := s.claims + [NewRow(s, r, now)]), |s.claims|, AskedHandle(r), now) == Ok(t)
       else
         && r.queueId !in s.queue
         && t == s.(claims := s.claims + [NewRow(s, r, now).(queue := Some(r.queueId))],
                    queue := s.queue[r.queueId := QueueRow(Waiting, AskedHandle(r))])
  }

  lemma RequestFacts(s: State, r: Request, now: nat)
    requires var result := RequestClaim(s, r, now).0; result.Ok? && result.value.created
    ensures Created(s, r, now, RequestClaim(s, r, now).1)
  {
    FindActiveMeaning(s.claims, r.contributor, r.node);
  }

  lemma NothingCreated(s: State, r: Request, now: nat)
    requires var result := RequestClaim(s, r, now).0; result.Err? || !result.value.created
    ensures RequestClaim(s, r, now).1 == s
  {
  }

  /** The state an instant claim is approved from: its row appended, marked. */
  function Marked(s: State, r: Request, now: nat): State
  {
    s.(claims := s.claims + [NewRow(s, r, now).(status := Approved, reviewedAt := Some(now))])
  }

  lemma CreatedKeepsSound(s: State, r: Request, now: nat, t: State)
    requires Sound(s) && Created(s, r, now, t)
    ensures Sound(t) && t.nodes.Keys == s.nodes.Keys
  {
    var row := NewRow(s, r, now);
    if Instant(s, r) {
      var marked := row.(status := Approved, reviewedAt := Some(now));
      InstantIsApproval(s, row, AskedHandle(r), now);
      AppendUnqueued(s, marked);
      AppendKeepsSound(s, marked, Marked(s, r, now));
      ApprovalKeepsSound(Marked(s, r, now), r.node, AskedHandle(r), now);
    } else {
      AppendKeepsQueue(s, row.(queue := Some(r.queueId)), r.queueId, QueueRow(Waiting, AskedHandle(r)));
      AppendKeepsSound(s, row.(queue := Some(r.queueId)), t);
    }
  }

  lemma CreatedKeepsPage(s: State, r: Request, now: nat, t: State, n: string)
    requires n in s.nodes && PageAgrees(s, n) && Created(s, r, now, t)
    ensures n in t.nodes && PageAgrees(t, n)
  {
    var row := NewRow(s, r, now);
    if Instant(s, r) {
      var marked := row.(status := Approved, reviewedAt := Some(now));
      InstantIsApproval(s, row, AskedHandle(r), now);
      AppendSpares(s, marked, Marked(s, r, now), n);
      if n != r.node { SparedAgrees(s, Marked(s, r, now), n); }
      ApprovalKeepsPage(Marked(s, r, now), r.node, AskedHandle(r), now, n);
    } else {
      AppendSpares(s, row.(queue := Some(r.queueId)), t, n);
      SparedAgrees(s, t, n);
    }
  }

  lemma RequestKeeps(s: State, r: Request, now: nat)
    requires Sound(s)
    ensures var t := RequestClaim(s, r, now).1;
      Sound(t) && t.nodes.Keys == s.nodes.Keys && forall n :: n in s.nodes && PageAgrees(s, n) ==> PageAgrees(t, n)
  {
    var (result, t) := RequestClaim(s, r, now);
    if result.Ok? && result.value.created {
      RequestFacts(s, r, now);
      CreatedKeepsSound(s, r, now, t);
      forall n | n in s.nodes && PageAgrees(s, n) ensures PageAgrees(t, n) { CreatedKeepsPage(s, r, now, t, n); }
    } else {
      NothingCreated(s, r, now);
    }
  }

  /** The state an approval publishes from: the row marked, its queue row settled. */
  lemma ApproveFacts(s: State, id: nat, now: nat) returns (settled: State, handle: Option<string>)
    requires Sound(s) && ApproveClaim(s, id, now).0.Ok?
    ensures id < |s.claims| && s.claims[id].node in s.nodes
    ensures var c := s.claims[id].(status := Approved, reviewedAt := Some(now));
      && settled == Update(s, id, c).(queue := settled.queue) && StatusStep(s, id, c, settled.queue)
      && (handle.Some? ==> IsHandle(handle.value))
      && ApproveClaim(s, id, now).1 == AfterApproval(settled, c.node, handle, now)
  {
    var c := s.claims[id];
    var q := c.queue.value;
    handle := s.queue[q].handle;
    var approved := Update(s, id, c.(status := Approved, reviewedAt := Some(now)));
    settled := approved.(queue := s.queue[q := s.queue[q].(status := Accepted)]);
    SettleCommutes(approved, c.node, handle, now, c.queue);
  }

  lemma ApproveKeeps(s: State, id: nat, now: nat)
    requires Sound(s)
    ensures var t := ApproveClaim(s, id, now).1;
      Sound(t) && t.nodes.Keys == s.nodes.Keys && forall n :: n in s.nodes && PageAgrees(s, n) ==> PageAgrees(t, n)
  {
    var (result, t) := ApproveClaim(s, id, now);
    if result.Ok? {
      var settled, handle := ApproveFacts(s, id, now);
      var c := s.claims[id].(status := Approved, reviewedAt := Some(now));
      StatusKeepsSound(s, id, c, settled.queue);
      ApprovalKeepsSound(settled, c.node, handle, now);
      forall n | n in s.nodes && PageAgrees(s, n) ensures PageAgrees(t, n) {
        StatusSpares(s, id, c, settled.queue, n);
        if n != c.node { SparedAgrees(s, settled, n); }
        ApprovalKeepsPage(settled, c.node, handle, now, n);
      }
    }
  }

  /** Publishing looks at claims, names and nodes only. */
  lemma PublishedCommutes(s: State, node: string, change: HandleChange, now: nat, queue: map<nat, QueueRow>)
    ensures Published(s, node, change, now).(queue := queue) == Published(s.(queue := queue), node, change, now)
  {
    var t := s.(queue := queue);
    if node in s.nodes {
      assert ApprovedFor(t, node) == ApprovedFor(s, node);
      assert NextFace(t, node, change, now) == NextFace(s, node, change, now);
    }
  }

  /** The queue row may be settled before or after publishing. */
  lemma SettleCommutes(s: State, node: string, handle: Option<string>, now: nat, queue: Option<nat>)
    ensures Settle(AfterApproval(s, node, handle, now), queue, Accepted) == AfterApproval(Settle(s, queue, Accepted), node, handle, now)
  {
    var rows := Settle(s, queue, Accepted).queue;
    assert Settle(s, queue, Accepted) == s.(queue := rows);
    if handle.Some? && Available(s, handle.value, node) {
      PublishedCommutes(WithAlias(s, handle.value, node), node, SetTo(handle.value), now, rows);
    } else {
      PublishedCommutes(s, node, LeaveHandle, now, rows);
    }
  }

  /** A pending claim is settled without being approved. */
  lemma RefusalKeeps(s: State, id: nat, c: Claim, t: State)
    requires Sound(s) && id < |s.claims| && s.claims[id].status == Pending && c.status != Approved
    requires t == Update(s, id, c).(queue := t.queue) && StatusStep(s, id, c, t.queue)
    ensures Sound(t) && t.nodes.Keys == s.nodes.Keys && forall n :: n in s.nodes && PageAgrees(s, n) ==> PageAgrees(t, n)
  {
    StatusKeepsSound(s, id, c, t.queue);
    forall n | n in s.nodes && PageAgrees(s, n) ensures PageAgrees(t, n) {
      StatusSpares(s, id, c, t.queue, n);
      SparedAgrees(s, t, n);
    }
  }

  lemma RejectKeeps(s: State, id: nat, now: nat)
    requires Sound(s)
    ensures var t := RejectClaim(s, id, now).1;
      Sound(t) && t.nodes.Keys == s.nodes.Keys && forall n :: n in s.nodes && PageAgrees(s, n) ==> PageAgrees(t, n)
  {
    var (result, t) := RejectClaim(s, id, now);
    if result.Ok? { RefusalKeeps(s, id, s.claims[id].(status := Rejected, reviewedAt := Some(now)), t); }
  }

  lemma EndKeeps(s: State, id: nat, actor: string, revoke: bool, now: nat)
    requires Sound(s)
    ensures var t := EndClaim(s, id, actor, revoke, now).1;
      Sound(t) && t.nodes.Keys == s.nodes.Keys && forall n :: n in s.nodes && PageAgrees(s, n) ==> PageAgrees(t, n)
  {
    var (result, t) := EndClaim(s, id, actor, revoke, now);
    if result.Ok? {
      var c := s.claims[id];
      var ended := if revoke then Revoked else Withdrawn;
      if c.status == Pending {
        RefusalKeeps(s, id, c.(status := ended, reviewedAt := Some(now)), t);
      } else {
        ApprovedEnds(s, id, ended, now);
      }
    }
  }

  lemma ApprovedEnds(s: State, id: nat, ended: ClaimStatus, now: nat)
    requires Sound(s) && id < |s.claims| && s.claims[id].status == Approved && ended != Pending && ended != Approved
    ensures var t := Published(Update(s, id, s.claims[id].(status := ended)), s.claims[id].node, LeaveHandle, now);
      Sound(t) && t.nodes.Keys == s.nodes.Keys && forall n :: n in s.nodes && PageAgrees(s, n) ==> PageAgrees(t, n)
  {
    var c := s.claims[id].(status := ended);
    var u := Update(s, id, c);
    assert u.(queue := s.queue) == u;
    StatusKeepsSound(s, id, c, s.queue);
    forall n | n in s.nodes && PageAgrees(s, n) ensures PageAgrees(Published(u, c.node, LeaveHandle, now), n) {
      StatusSpares(s, id, c, s.queue, n);
      if n != c.node { SparedAgrees(s, u, n); }
      PublishedKeepsPage(u, c.node, LeaveHandle, now, n);
    }
  }

  /** What a handle change needed, and what it left. */
  ghost predicate Rehandled(s: State, contributor: string, node: string, h: string, now: nat, t: State)
  {
    && HoldsClaim(s.claims, contributor, node)
    && IsHandle(h) && (h in s.aliases ==> s.aliases[h] == node)
    && t == Published(WithAlias(s, h, node), node, SetTo(h), now)
  }

  lemma SetHandleFacts(s: State, contributor: string, node: string, raw: string, nowMs: nat)
    requires SetHandle(s, contributor, node, raw, nowMs).1 != s
    ensures NormaliseHandle(raw).Some?
    ensures Rehandled(s, contributor, node, NormaliseHandle(raw).value, nowMs / 1000, SetHandle(s, contributor, node, raw, nowMs).1)
  {
    HandleIsPlain(NormaliseHandle(raw).value);
  }

  lemma SetHandleKeeps(s: State, contributor: string, node: string, raw: string, nowMs: nat)
    requires Sound(s)
    ensures var t := SetHandle(s, contributor, node, raw, nowMs).1;
      Sound(t) && t.nodes.Keys == s.nodes.Keys && forall n :: n in s.nodes && PageAgrees(s, n) ==> PageAgrees(t, n)
  {
    var t := SetHandle(s, contributor, node, raw, nowMs).1;
    if t != s {
      SetHandleFacts(s, contributor, node, raw, nowMs);
      RehandledKeeps(s, contributor, node, NormaliseHandle(raw).value, nowMs / 1000, t);
    }
  }

  lemma RehandledKeeps(s: State, contributor: string, node: string, h: string, now: nat, t: State)
    requires Sound(s) && Rehandled(s, contributor, node, h, now, t)
    ensures Sound(t) && t.nodes.Keys == s.nodes.Keys && forall n :: n in s.nodes && PageAgrees(s, n) ==> PageAgrees(t, n)
  {
    assert node in s.nodes;
    forall n | n in s.nodes && PageAgrees(s, n) ensures PageAgrees(t, n) { RehandledKeepsPage(s, node, h, now, n); }
  }

  lemma RehandledKeepsPage(s: State, node: string, h: string, now: nat, n: string)
    requires node in s.nodes && n in s.nodes && PageAgrees(s, n) && IsHandle(h) && (h in s.aliases ==> s.aliases[h] == node)
    ensures var t := Published(WithAlias(s, h, node), node, SetTo(h), now); n in t.nodes && PageAgrees(t, n)
  {
    WithAliasSpares(s, h, node, n);
    SparedAgrees(s, WithAlias(s, h, node), n);
    PublishedKeepsPage(WithAlias(s, h, node), node, SetTo(h), now, n);
  }
}
