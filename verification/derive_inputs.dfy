/** src/embed/inputs.ts and inputFingerprint in src/embed/derive.ts: everything the derive pass reads. */
module DeriveInputs {
  import opened EdgeRows
  import DerivedEdges

  type Vec = seq<real>

  const DIMS := 768

  datatype Node = Node(retired: bool)

  /** A row of node_embeddings; the primary key is (node, kind), one map below per kind. */
  datatype VectorRow = VectorRow(model: string, dims: int, vec: Vec, imageHash: Cell, textHash: Cell)

  datatype Status = Pending | Approved | Rejected

  datatype Submitter = Pipeline | Someone(name: string)

  /** `intake-ai-` over the pair it stands for, or any other queue id. */
  datatype QueueId = AiSuggestion(key: string) | OtherItem(name: string)

  datatype QueueRow = QueueRow(status: Status, submittedBy: Submitter, art: string, creator: string, createdAt: string)

  datatype Tables = Tables(
    nodes: map<string, Node>, identity: map<string, VectorRow>, centroids: map<string, VectorRow>,
    edges: DerivedEdges.Rows, queue: map<QueueId, QueueRow>, rejected: set<string>)

  datatype ConceptOptions = ConceptOptions(
    tauCoherence: real, minCreators: int, minMembers: int, knnK: int, voteThreshold: real, maxPerConcept: int)

  datatype Options = Options(
    tauAttribute: real, tauKin: real, tauVisual: real, kinTopK: int, visualTopK: int,
    skipCentroids: bool, model: string, concept: ConceptOptions)

  /** What inputFingerprint feeds the hash; SHA-256 is taken as collision free. */
  datatype Fingerprint = Fingerprint(
    identity: map<string, VectorRow>, centroids: map<string, VectorRow>,
    attributions: multiset<(string, string)>, centroidEdges: multiset<(string, string)>,
    members: multiset<(string, string)>, rejected: set<string>)

  predicate Standing(nodes: map<string, Node>, id: string)
  {
    id in nodes && !nodes[id].retired
  }

  /** VECTORS_SQL over one kind. */
  ghost function ReadVectors(nodes: map<string, Node>, rows: map<string, VectorRow>, model: string): map<string, VectorRow>
  {
    map id | id in rows && Standing(nodes, id) && rows[id].model == model :: rows[id]
  }

  /** CENTROID_EDGES_SQL: as an attribution, but only to a creator that exists and is not retired. */
  function CentroidEdge(nodes: map<string, Node>): Edge -> bool
  {
    e => IsAttribution(e) && Standing(nodes, e.target)
  }

  ghost function AnyId(rows: DerivedEdges.Rows): (id: RowId)
    requires rows != map[]
    ensures id in rows
  {
    var id :| id in rows;
    id
  }

  /** The (source, target) pairs of some rows, with repetition. */
  ghost function Pairs(rows: DerivedEdges.Rows): multiset<(string, string)>
    decreases rows.Keys
  {
    if rows == map[] then multiset{}
    else
      var id := AnyId(rows);
      Pairs(rows - {id}) + multiset{PairOf(rows[id])}
  }

  function PairOf(e: Edge): (string, string)
  {
    (e.source, e.target)
  }

  ghost function FingerprintOf(opts: Options, t: Tables): Fingerprint
  {
    Fingerprint(
      ReadVectors(t.nodes, t.identity, opts.model),
      if opts.skipCentroids then ReadVectors(t.nodes, t.centroids, opts.model) else map[],
      Pairs(DerivedEdges.Selected(t.edges, IsAttribution)),
      if opts.skipCentroids then multiset{} else Pairs(DerivedEdges.Selected(t.edges, CentroidEdge(t.nodes))),
      Pairs(DerivedEdges.Selected(t.edges, IsMembership)),
      t.rejected)
  }

  lemma {:induction false} PairsPick(rows: DerivedEdges.Rows, id: RowId)
    requires id in rows
    ensures Pairs(rows) == Pairs(rows - {id}) + multiset{PairOf(rows[id])}
    decreases rows.Keys
  {
    var first := AnyId(rows);
    if first != id {
      MinusCommutes(rows, first, id);
      PairsPick(rows - {first}, id);
      PairsPick(rows - {id}, first);
    }
  }

  lemma MinusCommutes(rows: DerivedEdges.Rows, a: RowId, b: RowId)
    ensures rows - {a} - {b} == rows - {b} - {a}
  {
  }

  lemma {:induction false} PairsCount(rows: DerivedEdges.Rows)
    ensures |Pairs(rows)| == |rows.Keys|
    decreases rows.Keys
  {
    if rows != map[] {
      var id := AnyId(rows);
      PairsCount(rows - {id});
      assert (rows - {id}).Keys == rows.Keys - {id};
    }
  }

  /** SQL gives the rows of an unordered query in any order. */
  method Query(rows: DerivedEdges.Rows) returns (r: seq<(string, string)>)
    ensures multiset(r) == Pairs(rows)
  {
    r := [];
    var left := rows;
    while left != map[]
      invariant multiset(r) + Pairs(left) == Pairs(rows)
      decreases left.Keys
    {
      var id :| id in left;
      PairsPick(left, id);
      r := r + [PairOf(left[id])];
      left := left - {id};
    }
  }
}
