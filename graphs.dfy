/**
  The node and edge sets the passes fill, the text of their lines, and
  the shape invariants those sets can satisfy.
 */
module Graphs {

  /** The two sets as values. */
  datatype Sets = Sets(nodes: set<string>, edges: set<string>)

  /** The sets after a pass together with the counter the pass returns. */
  datatype Pass = Pass(sets: Sets, next: nat)

  /** The two `Set<string>` objects a run shares between its passes. */
  class Graph {
    var nodes: set<string>
    var edges: set<string>

    constructor ()
      ensures nodes == {} && edges == {}
    {
      nodes, edges := {}, {};
    }

    function State(): Sets
      reads this
    {
      Sets(nodes, edges)
    }

    /** `nodes.add(line)` */
    method AddNode(line: string)
      modifies this
      ensures nodes == old(nodes) + {line} && edges == old(edges)
    {
      nodes := nodes + {line};
    }

    /** `edges.add(line)` */
    method AddEdge(line: string)
      modifies this
      ensures edges == old(edges) + {line} && nodes == old(nodes)
    {
      edges := edges + {line};
    }
  }

  /** The identifier a name gets in the diagram. */
  function NodeRef(name: string): string {
    "X_" + name
  }

  /** `id[id::tag]`: a rectangular node. */
  function Boxed(id: string, tag: string): string {
    id + "[" + id + "::" + tag + "]"
  }

  /** `id(id::tag)`: a rounded node. */
  function Rounded(id: string, tag: string): string {
    id + "(" + id + "::" + tag + ")"
  }

  /** `source -->|relation| target` */
  function EdgeLine(source: string, relation: string, target: string): string {
    source + " -->|" + relation + "| " + target
  }

  /** Some node line for `id` is in `nodes`, whatever its tag and shape. */
  ghost predicate HasNode(nodes: set<string>, id: string) {
    exists tag :: Boxed(id, tag) in nodes || Rounded(id, tag) in nodes
  }

  /** Every edge leads to a node that is present. */
  ghost predicate TargetsPresent(s: Sets) {
    forall e :: e in s.edges ==>
      exists source, relation, target :: e == EdgeLine(source, relation, target) && HasNode(s.nodes, target)
  }

  /** Every edge starts and ends at nodes that are present. */
  ghost predicate EndpointsPresent(s: Sets) {
    forall e :: e in s.edges ==>
      exists source, relation, target :: e == EdgeLine(source, relation, target)
        && HasNode(s.nodes, source) && HasNode(s.nodes, target)
  }

  /** Every node line has one of the given tags. */
  ghost predicate NodesTagged(nodes: set<string>, tags: set<string>) {
    forall x :: x in nodes ==>
      exists id, tag :: tag in tags && (x == Boxed(id, tag) || x == Rounded(id, tag))
  }

  /** Every edge line carries one of the given relations. */
  ghost predicate EdgesRelated(edges: set<string>, relations: set<string>) {
    forall e :: e in edges ==>
      exists source, relation, target :: relation in relations && e == EdgeLine(source, relation, target)
  }

  lemma HasNodeGrows(nodes: set<string>, more: set<string>, id: string)
    requires HasNode(nodes, id) && nodes <= more
    ensures HasNode(more, id)
  {
    var tag :| Boxed(id, tag) in nodes || Rounded(id, tag) in nodes;
  }

  /** Adding node lines keeps every present endpoint present. */
  lemma AddNodesKeepsEndpoints(s: Sets, extra: set<string>)
    ensures EndpointsPresent(s) ==> EndpointsPresent(Sets(s.nodes + extra, s.edges))
    ensures TargetsPresent(s) ==> TargetsPresent(Sets(s.nodes + extra, s.edges))
  {
    var t := Sets(s.nodes + extra, s.edges);
    if EndpointsPresent(s) {
      forall e | e in t.edges
        ensures exists source, relation, target ::
                  e == EdgeLine(source, relation, target) && HasNode(t.nodes, source) && HasNode(t.nodes, target)
      {
        var source, relation, target :| e == EdgeLine(source, relation, target)
          && HasNode(s.nodes, source) && HasNode(s.nodes, target);
        HasNodeGrows(s.nodes, t.nodes, source);
        HasNodeGrows(s.nodes, t.nodes, target);
      }
    }
    if TargetsPresent(s) {
      forall e | e in t.edges
        ensures exists source, relation, target :: e == EdgeLine(source, relation, target) && HasNode(t.nodes, target)
      {
        var source, relation, target :| e == EdgeLine(source, relation, target) && HasNode(s.nodes, target);
        HasNodeGrows(s.nodes, t.nodes, target);
      }
    }
  }

  /** Adding an edge between present nodes keeps the endpoints invariant. */
  lemma AddEdgeKeepsEndpoints(s: Sets, source: string, relation: string, target: string)
    requires HasNode(s.nodes, target)
    ensures HasNode(s.nodes, source) && EndpointsPresent(s) ==>
      EndpointsPresent(Sets(s.nodes, s.edges + {EdgeLine(source, relation, target)}))
    ensures TargetsPresent(s) ==> TargetsPresent(Sets(s.nodes, s.edges + {EdgeLine(source, relation, target)}))
  {
  }

  /**
    From `s` to `r` only node lines with the given tags and edge lines with
    the given relations were added, and nothing was taken away.
   */
  ghost predicate Grows(s: Sets, r: Sets, tags: set<string>, relations: set<string>) {
    && s.nodes <= r.nodes && s.edges <= r.edges
    && NodesTagged(r.nodes - s.nodes, tags)
    && EdgesRelated(r.edges - s.edges, relations)
  }

  lemma GrowsTransitive(s: Sets, m: Sets, r: Sets, tags: set<string>, relations: set<string>)
    requires Grows(s, m, tags, relations) && Grows(m, r, tags, relations)
    ensures Grows(s, r, tags, relations)
  {
    assert r.nodes - s.nodes == (r.nodes - m.nodes) + (m.nodes - s.nodes);
    assert r.edges - s.edges == (r.edges - m.edges) + (m.edges - s.edges);
  }

  lemma GrowsWiden(s: Sets, r: Sets, tags: set<string>, relations: set<string>, tags': set<string>, relations': set<string>)
    requires Grows(s, r, tags, relations) && tags <= tags' && relations <= relations'
    ensures Grows(s, r, tags', relations')
  {
    forall x | x in r.nodes - s.nodes
      ensures exists id, tag :: tag in tags' && (x == Boxed(id, tag) || x == Rounded(id, tag))
    {
      var id, tag :| tag in tags && (x == Boxed(id, tag) || x == Rounded(id, tag));
    }
    forall e | e in r.edges - s.edges
      ensures exists source, relation, target :: relation in relations' && e == EdgeLine(source, relation, target)
    {
      var source, relation, target :| relation in relations && e == EdgeLine(source, relation, target);
    }
  }

  /** Adding tagged node lines and related edge lines is growth. */
  lemma AddGrows(s: Sets, added: set<string>, newEdges: set<string>, tags: set<string>, relations: set<string>)
    requires NodesTagged(added, tags) && EdgesRelated(newEdges, relations)
    ensures Grows(s, Sets(s.nodes + added, s.edges + newEdges), tags, relations)
  {
    var r := Sets(s.nodes + added, s.edges + newEdges);
    assert r.nodes - s.nodes <= added;
    assert r.edges - s.edges <= newEdges;
  }

  lemma BoxedTagged(a: string, ta: string, b: string, tb: string, tags: set<string>)
    requires ta in tags && tb in tags
    ensures NodesTagged({Boxed(a, ta), Boxed(b, tb)}, tags)
  {
    var pair := {Boxed(a, ta), Boxed(b, tb)};
    forall x | x in pair
      ensures exists id, tag :: tag in tags && (x == Boxed(id, tag) || x == Rounded(id, tag))
    {
      if x == Boxed(a, ta) {
        assert ta in tags && x == Boxed(a, ta);
      } else {
        assert tb in tags && x == Boxed(b, tb);
      }
    }
  }

  lemma EdgeRelated(source: string, relation: string, target: string, relations: set<string>)
    requires relation in relations
    ensures EdgesRelated({EdgeLine(source, relation, target)}, relations)
  {
    var e := EdgeLine(source, relation, target);
    assert relation in relations && e == EdgeLine(source, relation, target);
  }

  lemma EmptyRelated(relations: set<string>)
    ensures EdgesRelated({}, relations)
  {
  }
}
