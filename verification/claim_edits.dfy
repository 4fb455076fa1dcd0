/** What writers outside the claim store do to pages, aliases and names: merges, metadata patches, new pages, renames. */
module ClaimEdits {
  import opened Optional
  import opened Sorting
  import opened Claims

  // ---- the writes -------------------------------------------------------------------------

  predicate HasActive(claims: seq<Claim>, node: string)
  {
    exists i :: 0 <= i < |claims| && claims[i].node == node && IsActive(claims[i])
  }

  /** src/utils/admin-actions.ts mergeNodes: aliases and invites of the duplicate move to the page kept, the duplicate is retired. */
  function MergePages(s: State, from: string, into: string): (Result<string>, State)
  {
    if from == into then (Err(SameNode), s)
    else if from !in s.nodes || into !in s.nodes then (Err(NodeNotFound), s)
    else if s.nodes[from].kind != s.nodes[into].kind then (Err(TypeMismatch), s)
    else if s.nodes[from].retired then (Err(AlreadyRetired), s)
    else if s.nodes[into].retired then (Err(TargetRetired), s)
    else if HasActive(s.claims, from) then (Err(PageClaimed), s)
    else
      (Ok(into),
       s.(aliases := map h | h in s.aliases :: if s.aliases[h] == from then into else s.aliases[h],
          invitedTo := map c | c in s.invitedTo :: if s.invitedTo[c] == from then into else s.invitedTo[c],
          nodes := s.nodes[from := s.nodes[from].(retired := true)]))
  }

  /** Every reader takes an empty handle for none. */
  function AsRead(face: Option<Face>): Option<Face>
  {
    if face.Some? && face.value.handle == Some("") then Some(face.value.(handle := None)) else face
  }

  /**
   * Any write of a page's metadata that is not the claim store's: a patch (applied at once or on approval), an upheld
   * contest of a key, a retirement. It may leave any `retired` and any `claimed`.
   */
  function WritePage(s: State, node: string, retired: bool, face: Option<Face>): State
  {
    if node in s.nodes then s.(nodes := s.nodes[node := s.nodes[node].(retired := retired, claimed := AsRead(face))]) else s
  }

  /** materialiseCreateNode: a new page, with the metadata it came with; a handle already mapped stays as it is. */
  function CreatePage(s: State, node: string, kind: NodeType, retired: bool, face: Option<Face>, handles: set<string>): State
  {
    if node in s.nodes then s
    else
      s.(nodes := s.nodes[node := Node(kind, retired, AsRead(face))],
         aliases := map h | h in s.aliases.Keys + handles :: if h in s.aliases then s.aliases[h] else node)
  }

  function NameContributor(s: State, contributor: string, name: string): State
  {
    s.(names := s.names[contributor := name])
  }

  /** contributor_emails.self_node_id */
  function InviteTo(s: State, contributor: string, node: Option<string>): State
  {
    s.(invitedTo := if node.Some? then s.invitedTo[contributor := node.value] else s.invitedTo - {contributor})
  }

  // ---- what they keep, and exactly when ----------------------------------------------------------

  lemma ApprovedIsActive(s: State, node: string)
    requires ApprovedFor(s, node) != []
    ensures HasActive(s.claims, node)
  {
    var c := ApprovedFor(s, node)[0];
    assert c in ApprovedFor(s, node);
    ApprovedMembers(s, node, c);
    var i :| 0 <= i < |s.claims| && s.claims[i] == c;
  }

  lemma NoActiveNoApproved(s: State, node: string)
    requires !HasActive(s.claims, node)
    ensures ApprovedFor(s, node) == []
  {
    if ApprovedFor(s, node) != [] { ApprovedIsActive(s, node); }
  }

  lemma MergeKeepsSound(s: State, from: string, into: string)
    requires Sound(s)
    ensures Sound(MergePages(s, from, into).1) && MergePages(s, from, into).1.nodes.Keys == s.nodes.Keys
  {
  }

  /** A page merged away has nobody's claim, so it shows no handle; every other page keeps its handles. */
  lemma MergeKeepsPage(s: State, from: string, into: string, n: string)
    requires n in s.nodes && PageAgrees(s, n)
    ensures var t := MergePages(s, from, into).1; n in t.nodes && PageAgrees(t, n)
  {
    var (result, t) := MergePages(s, from, into);
    if result.Ok? {
      assert t.nodes[n].claimed == s.nodes[n].claimed && t.claims == s.claims && t.names == s.names;
      assert ApprovedFor(t, n) == ApprovedFor(s, n);
      if n == from {
        NoActiveNoApproved(s, from);
      } else {
        assert Spares(s, t, n);
        SparedAgrees(s, t, n);
      }
    }
  }

  /** What a write may put in `claimed` of this page: nobody added or dropped, and a stamped handle of its own, or none. */
  ghost predicate Faithful(s: State, node: string, face: Option<Face>)
    requires node in s.nodes
  {
    var was := s.nodes[node].claimed;
    && (face.Some? <==> was.Some?)
    && (face.Some? ==>
          && face.value.byNames == was.value.byNames
          && (face.value.handle.Some? <==> face.value.handleSetAt.Some?)
          && (face.value.handle.Some? ==> MapsTo(s, face.value.handle.value, node)))
  }

  lemma WriteKeepsSound(s: State, node: string, retired: bool, face: Option<Face>)
    requires Sound(s)
    ensures Sound(WritePage(s, node, retired, face)) && WritePage(s, node, retired, face).nodes.Keys == s.nodes.Keys
  {
  }

  /** A write leaves its page in agreement exactly when it is faithful, and every other page as it was. */
  lemma WriteExactly(s: State, node: string, retired: bool, face: Option<Face>, n: string)
    requires n in s.nodes && PageAgrees(s, n)
    ensures var t := WritePage(s, node, retired, face); n in t.nodes && (PageAgrees(t, n) <==> (n == node ==> Faithful(s, node, AsRead(face))))
  {
    var t := WritePage(s, node, retired, face);
    assert ApprovedFor(t, n) == ApprovedFor(s, n);
    if n == node {
      assert t.nodes[n].claimed == AsRead(face);
      assert FaceAgrees(s, n) && HandleAgrees(s, n);
    } else {
      SparedAgrees(s, t, n);
    }
  }

  lemma CreateKeepsSound(s: State, node: string, kind: NodeType, retired: bool, face: Option<Face>, handles: set<string>)
    requires Sound(s)
    ensures var t := CreatePage(s, node, kind, retired, face, handles); Sound(t) && t.nodes.Keys == s.nodes.Keys + {node}
  {
  }

  lemma CreateExactly(s: State, node: string, kind: NodeType, retired: bool, face: Option<Face>, handles: set<string>)
    requires Sound(s) && node !in s.nodes
    ensures var t := CreatePage(s, node, kind, retired, face, handles);
      && t.nodes.Keys == s.nodes.Keys + {node}
      && (PageAgrees(t, node) <==> face.None?)
      && forall n :: n in s.nodes && PageAgrees(s, n) ==> PageAgrees(t, n)
  {
    var t := CreatePage(s, node, kind, retired, face, handles);
    NoActiveNoApproved(s, node);
    assert ApprovedFor(t, node) == ApprovedFor(s, node);
    forall n | n in s.nodes && PageAgrees(s, n) ensures PageAgrees(t, n) {
      assert Spares(s, t, n);
      SparedAgrees(s, t, n);
    }
  }

  lemma NamesKeepSound(s: State, contributor: string, name: string)
    requires Sound(s)
    ensures Sound(NameContributor(s, contributor, name))
  {
  }

  lemma InvitesKeepSound(s: State, contributor: string, node: Option<string>)
    requires Sound(s)
    ensures Sound(InviteTo(s, contributor, node))
  {
  }

  /** The page would list the same names. */
  predicate SameNames(s: State, n: string, contributor: string, name: string)
  {
    NamesOf(ApprovedFor(s, n), s.names[contributor := name]) == NamesOf(ApprovedFor(s, n), s.names)
  }

  lemma RenameExactly(s: State, contributor: string, name: string, n: string)
    requires n in s.nodes && PageAgrees(s, n)
    ensures var t := NameContributor(s, contributor, name); t.nodes == s.nodes && (PageAgrees(t, n) <==> SameNames(s, n, contributor, name))
  {
    var t := NameContributor(s, contributor, name);
    assert ApprovedFor(t, n) == ApprovedFor(s, n);
    assert HandleAgrees(t, n);
  }

  /** Renaming someone who holds no approved claim under a public name shows nowhere. */
  lemma {:induction false} UnlistedRename(approved: seq<Claim>, names: map<string, string>, contributor: string, name: string)
    requires forall c :: c in approved ==> !(c.contributor == contributor && c.publicName)
    ensures NamesOf(approved, names[contributor := name]) == NamesOf(approved, names)
  {
    if approved != [] {
      UnlistedRename(approved[..|approved| - 1], names, contributor, name);
      assert approved[|approved| - 1] in approved;
    }
  }

  lemma InviteKeeps(s: State, contributor: string, node: Option<string>, n: string)
    requires n in s.nodes && PageAgrees(s, n)
    ensures var t := InviteTo(s, contributor, node); t.nodes == s.nodes && PageAgrees(t, n)
  {
    SparedAgrees(s, InviteTo(s, contributor, node), n);
  }
}
