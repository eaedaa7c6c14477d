/** Typed state nodes and edges (src/nodes.rs). */
module Nodes {
  import opened Wrappers

  type NodeIdx = nat
  type NodeId = string

  datatype Kind = Evidence | Claim | Calculation | Decision | Goal | Constraint | OpenQuestion | Skill

  datatype Status = Fresh | Stale | Superseded | Contradicted | Unresolved {
    /** Current, and usable without revalidation. */
    predicate IsLive() {
      Fresh? || Contradicted? || Unresolved?
    }
  }

  datatype EdgeType = Supports | DerivedFrom | Contradicts | Supersedes {
    /** Edges the planner, the cascade and `explain` walk. */
    predicate IsDependency() {
      Supports? || DerivedFrom?
    }
  }

  datatype Edge = Edge(src: NodeIdx, dst: NodeIdx, kind: EdgeType)

  datatype Meta = Meta(
    corrective: bool, grounded: bool, supersededBy: Option<NodeId>, supersedes: seq<NodeId>,
    contradicts: seq<NodeId>, supersededSource: bool, correctedBy: seq<NodeId>, source: Option<string>,
    corroborations: nat)

  const PlainMeta := Meta(false, false, None, [], [], false, [], None, 0)

  datatype Node = Node(
    id: NodeId, kind: Kind, value: string, spans: seq<string>, deps: seq<NodeId>, timestamp: nat,
    status: Status, key: Option<string>, cachedResult: Option<real>, meta: Meta)
  {
    /** Content identity: equal exactly when kind, value and the sorted inputs agree. */
    predicate SameFingerprint(other: Node) {
      && kind == other.kind && value == other.value
      && multiset(deps) == multiset(other.deps) && multiset(spans) == multiset(other.spans)
    }

    predicate IsGrounded() {
      spans != [] || deps != []
    }
  }
}
