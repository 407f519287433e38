// Patterns, plans and rows, and the matching of nodes and edges.

module Patterns {
  import opened Wrappers
  import opened Core

  datatype NodePattern = NodePattern(
    bind: Option<string>, types: seq<string>, properties: map<string, PropertyValue>, id: Option<NodeId>,
    anyOf: seq<NodePattern>, noneOf: seq<NodePattern>)

  // `repeat` is the inclusive hop range; absent, it stands for exactly one hop.
  datatype EdgePattern = EdgePattern(
    bind: Option<string>, relation: Option<string>, properties: map<string, PropertyValue>, repeat: Option<(nat, nat)>)

  datatype TraversalStep = TraversalStep(edge: EdgePattern, target: NodePattern, outbound: bool)

  datatype SortOrder = Ascending | Descending

  datatype TraversalPlan = TraversalPlan(
    seed: NodePattern, steps: seq<TraversalStep>, returnColumns: seq<string>, order: seq<(string, SortOrder)>,
    skip: nat, limit: Option<nat>)

  datatype MatchRow = MatchRow(nodes: map<string, NodeId>, edges: map<string, EdgeId>)

  const ANY_NODE := NodePattern(None, [], map[], None, [], [])

  const ANY_EDGE := EdgePattern(None, None, map[], None)

  const EMPTY_ROW := MatchRow(map[], map[])

  predicate HasProperties(have: map<string, PropertyValue>, want: map<string, PropertyValue>) {
    forall k | k in want :: k in have && have[k] == want[k]
  }

  predicate MatchNode(node: Node, pattern: NodePattern) {
    && (pattern.id.Some? ==> node.id == pattern.id.value)
    && (forall ty | ty in pattern.types :: ty in node.types)
    && HasProperties(node.properties, pattern.properties)
    && (pattern.anyOf != [] ==> exists alt | alt in pattern.anyOf :: MatchNode(node, alt))
    && !(exists neg | neg in pattern.noneOf :: MatchNode(node, neg))
  }

  predicate MatchEdge(edge: Edge, pattern: EdgePattern) {
    && (pattern.relation.Some? ==> edge.relation == pattern.relation.value)
    && HasProperties(edge.properties, pattern.properties)
  }
}
