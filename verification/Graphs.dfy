/** Finite directed graphs over slugs: reachability and acyclicity, and how single-edge
    changes, subgraphs and relabellings affect them.  Both task relations (blocking
    dependencies and the subtask hierarchy) are read as such graphs, with an edge from a
    child to its parent. */
module Graphs {

  type Slug = string

  datatype Edge = Edge(child: Slug, parent: Slug)

  ghost predicate IsPath(edges: set<Edge>, p: seq<Slug>) {
    && |p| > 0
    && forall i :: 0 < i < |p| ==> Edge(p[i - 1], p[i]) in edges
  }

  /** Reflexive: every node reaches itself. */
  ghost predicate Reaches(edges: set<Edge>, a: Slug, b: Slug) {
    exists p: seq<Slug> :: IsPath(edges, p) && p[0] == a && p[|p| - 1] == b
  }

  ghost predicate Acyclic(edges: set<Edge>) {
    forall e :: e in edges ==> !Reaches(edges, e.parent, e.child)
  }

  ghost predicate Closed(edges: set<Edge>, nodes: set<Slug>) {
    forall e :: e in edges && e.child in nodes ==> e.parent in nodes
  }

  ghost function Parents(edges: set<Edge>): set<Slug> {
    set e | e in edges :: e.parent
  }

  /** Everything reachable from a, which is finite because the edge set is. */
  ghost function ReachSet(edges: set<Edge>, a: Slug): set<Slug> {
    set b | b in Parents(edges) + {a} && Reaches(edges, a, b)
  }

  lemma ReachesSelf(edges: set<Edge>, a: Slug)
    ensures Reaches(edges, a, a)
  {
    assert IsPath(edges, [a]);
  }

  lemma ReachesPrepend(edges: set<Edge>, a: Slug, b: Slug, c: Slug)
    requires Edge(a, b) in edges && Reaches(edges, b, c)
    ensures Reaches(edges, a, c)
  {
    var p :| IsPath(edges, p) && p[0] == b && p[|p| - 1] == c;
    var q := [a] + p;
    assert forall i :: 0 < i < |q| ==> q[i] == p[i - 1];
    forall i | 0 < i < |q| ensures Edge(q[i - 1], q[i]) in edges {
      if i > 1 { assert Edge(p[i - 2], p[i - 1]) in edges; }
    }
    assert IsPath(edges, q);
  }

  lemma ReachesEdge(edges: set<Edge>, e: Edge)
    requires e in edges
    ensures Reaches(edges, e.child, e.parent)
  {
    ReachesSelf(edges, e.parent);
    ReachesPrepend(edges, e.child, e.parent, e.parent);
  }

  /** Splits the first edge off a non-trivial connection. */
  lemma ReachesFirst(edges: set<Edge>, a: Slug, c: Slug) returns (b: Slug)
    requires Reaches(edges, a, c) && a != c
    ensures Edge(a, b) in edges && Reaches(edges, b, c)
  {
    var p :| IsPath(edges, p) && p[0] == a && p[|p| - 1] == c;
    b := p[1];
    var q := p[1..];
    forall i | 0 < i < |q| ensures Edge(q[i - 1], q[i]) in edges {
      assert Edge(p[i], p[i + 1]) in edges;
    }
    assert IsPath(edges, q);
    assert Edge(p[0], p[1]) in edges;
  }

  lemma {:induction false} PathTransfers(edges: set<Edge>, p: seq<Slug>, bigger: set<Edge>, c: Slug)
    requires IsPath(edges, p)
    requires edges <= bigger
    requires Reaches(bigger, p[|p| - 1], c)
    ensures Reaches(bigger, p[0], c)
    decreases |p|
  {
    if |p| > 1 {
      var q := p[1..];
      forall i | 0 < i < |q| ensures Edge(q[i - 1], q[i]) in edges {
        assert Edge(p[i], p[i + 1]) in edges;
      }
      PathTransfers(edges, q, bigger, c);
      assert Edge(p[0], p[1]) in edges;
      ReachesPrepend(bigger, p[0], p[1], c);
    }
  }

  lemma ReachesTransitive(edges: set<Edge>, a: Slug, b: Slug, c: Slug)
    requires Reaches(edges, a, b) && Reaches(edges, b, c)
    ensures Reaches(edges, a, c)
  {
    var p :| IsPath(edges, p) && p[0] == a && p[|p| - 1] == b;
    PathTransfers(edges, p, edges, c);
  }

  lemma ReachesMonotone(edges: set<Edge>, bigger: set<Edge>, a: Slug, b: Slug)
    requires edges <= bigger && Reaches(edges, a, b)
    ensures Reaches(bigger, a, b)
  {
    var p :| IsPath(edges, p) && p[0] == a && p[|p| - 1] == b;
    ReachesSelf(bigger, b);
    PathTransfers(edges, p, bigger, b);
  }

  lemma {:induction false} PathStaysClosed(edges: set<Edge>, p: seq<Slug>, nodes: set<Slug>)
    requires IsPath(edges, p) && Closed(edges, nodes) && p[0] in nodes
    ensures p[|p| - 1] in nodes
    decreases |p|
  {
    if |p| > 1 {
      var q := p[1..];
      assert Edge(p[0], p[1]) in edges;
      forall i | 0 < i < |q| ensures Edge(q[i - 1], q[i]) in edges {
        assert Edge(p[i], p[i + 1]) in edges;
      }
      PathStaysClosed(edges, q, nodes);
    }
  }

  /** A set closed under the edges keeps everything reachable from its members. */
  lemma ClosedKeepsReachable(edges: set<Edge>, nodes: set<Slug>, a: Slug, b: Slug)
    requires Closed(edges, nodes) && a in nodes && Reaches(edges, a, b)
    ensures b in nodes
  {
    var p :| IsPath(edges, p) && p[0] == a && p[|p| - 1] == b;
    PathStaysClosed(edges, p, nodes);
  }

  lemma ReachSetComplete(edges: set<Edge>, a: Slug)
    ensures forall b :: Reaches(edges, a, b) <==> b in ReachSet(edges, a)
    ensures Closed(edges, ReachSet(edges, a))
    ensures a in ReachSet(edges, a)
  {
    ReachesSelf(edges, a);
    forall b | Reaches(edges, a, b) ensures b in Parents(edges) + {a} {
      ClosedKeepsReachable(edges, Parents(edges) + {a}, a, b);
    }
    forall e | e in edges && e.child in ReachSet(edges, a) ensures e.parent in ReachSet(edges, a) {
      ReachesEdge(edges, e);
      ReachesTransitive(edges, a, e.child, e.parent);
    }
  }

  lemma SubgraphAcyclic(edges: set<Edge>, bigger: set<Edge>)
    requires edges <= bigger && Acyclic(bigger)
    ensures Acyclic(edges)
  {
    forall e | e in edges && Reaches(edges, e.parent, e.child) ensures false {
      ReachesMonotone(edges, bigger, e.parent, e.child);
    }
  }

  /** With one more edge, a connection either existed before or goes through the new edge. */
  lemma {:induction false} PathThroughNewEdge(edges: set<Edge>, added: Edge, p: seq<Slug>)
    requires IsPath(edges + {added}, p)
    ensures || Reaches(edges, p[0], p[|p| - 1])
            || (Reaches(edges, p[0], added.child) && Reaches(edges, added.parent, p[|p| - 1]))
    decreases |p|
  {
    ReachesSelf(edges, p[0]);
    if |p| > 1 {
      var q := p[1..];
      forall i | 0 < i < |q| ensures Edge(q[i - 1], q[i]) in edges + {added} {
        assert Edge(p[i], p[i + 1]) in edges + {added};
      }
      PathThroughNewEdge(edges, added, q);
      assert Edge(p[0], p[1]) in edges + {added};
      if Edge(p[0], p[1]) in edges {
        if Reaches(edges, q[0], q[|q| - 1]) {
          ReachesPrepend(edges, p[0], p[1], p[|p| - 1]);
        } else {
          ReachesPrepend(edges, p[0], p[1], added.child);
        }
      }
    }
  }

  /** The exact effect of one insertion: an acyclic graph stays acyclic precisely when the
      new edge does not close a path back to its own child. */
  lemma AddEdgeAcyclic(edges: set<Edge>, added: Edge)
    requires Acyclic(edges)
    ensures Acyclic(edges + {added}) <==> !Reaches(edges, added.parent, added.child)
  {
    var bigger := edges + {added};
    if Reaches(edges, added.parent, added.child) {
      ReachesMonotone(edges, bigger, added.parent, added.child);
      assert added in bigger;
    } else {
      forall e | e in bigger && Reaches(bigger, e.parent, e.child) ensures false {
        var p :| IsPath(bigger, p) && p[0] == e.parent && p[|p| - 1] == e.child;
        PathThroughNewEdge(edges, added, p);
        if e in edges {
          if Reaches(edges, e.parent, added.child) && Reaches(edges, added.parent, e.child) {
            ReachesEdge(edges, e);
            ReachesTransitive(edges, added.parent, e.child, e.parent);
            ReachesTransitive(edges, added.parent, e.parent, added.child);
          }
        }
      }
    }
  }

  /** Walking parents inside a finite set of an acyclic graph ends at a member that has no
      parent in the set. */
  lemma {:induction false} SinkInside(edges: set<Edge>, nodes: set<Slug>, start: Slug) returns (sink: Slug)
    requires Acyclic(edges) && start in nodes
    ensures sink in nodes && Reaches(edges, start, sink)
    ensures forall e :: e in edges && e.child == sink ==> e.parent !in nodes
    decreases ReachSet(edges, start)
  {
    ReachesSelf(edges, start);
    if exists e :: e in edges && e.child == start && e.parent in nodes {
      var e :| e in edges && e.child == start && e.parent in nodes;
      ReachSetComplete(edges, start);
      ReachSetComplete(edges, e.parent);
      ReachesEdge(edges, e);
      forall b | b in ReachSet(edges, e.parent) ensures b in ReachSet(edges, start) {
        ReachesTransitive(edges, start, e.parent, b);
      }
      assert start in ReachSet(edges, start) && start !in ReachSet(edges, e.parent);
      sink := SinkInside(edges, nodes, e.parent);
      ReachesTransitive(edges, start, e.parent, sink);
    } else {
      sink := start;
    }
  }

  /** Replacing one name by another. */
  function Relabel(from: Slug, to: Slug, x: Slug): Slug {
    if x == from then to else x
  }

  function RelabelEdge(from: Slug, to: Slug, e: Edge): Edge {
    Edge(Relabel(from, to, e.child), Relabel(from, to, e.parent))
  }

  ghost function RelabelEdges(from: Slug, to: Slug, edges: set<Edge>): set<Edge> {
    set e | e in edges :: RelabelEdge(from, to, e)
  }

  lemma {:induction false} PathRelabels(edges: set<Edge>, from: Slug, to: Slug, p: seq<Slug>)
    requires IsPath(edges, p)
    ensures Reaches(RelabelEdges(from, to, edges), Relabel(from, to, p[0]), Relabel(from, to, p[|p| - 1]))
    decreases |p|
  {
    var image := RelabelEdges(from, to, edges);
    ReachesSelf(image, Relabel(from, to, p[0]));
    if |p| > 1 {
      var q := p[1..];
      forall i | 0 < i < |q| ensures Edge(q[i - 1], q[i]) in edges {
        assert Edge(p[i], p[i + 1]) in edges;
      }
      PathRelabels(edges, from, to, q);
      assert Edge(p[0], p[1]) in edges;
      assert RelabelEdge(from, to, Edge(p[0], p[1])) in image;
      ReachesPrepend(image, Relabel(from, to, p[0]), Relabel(from, to, p[1]), Relabel(from, to, p[|p| - 1]));
    }
  }

  ghost predicate Mentions(edges: set<Edge>, x: Slug) {
    exists e :: e in edges && (e.child == x || e.parent == x)
  }

  lemma RelabelBack(edges: set<Edge>, from: Slug, to: Slug)
    requires !Mentions(edges, to)
    ensures RelabelEdges(to, from, RelabelEdges(from, to, edges)) == edges
  {
    var image := RelabelEdges(from, to, edges);
    forall e | e in edges
      ensures RelabelEdge(to, from, RelabelEdge(from, to, e)) == e && RelabelEdge(from, to, e) in image
    {
      assert e.child != to && e.parent != to;
    }
    forall b | b in RelabelEdges(to, from, image) ensures b in edges {
      var i :| i in image && b == RelabelEdge(to, from, i);
      var e :| e in edges && i == RelabelEdge(from, to, e);
    }
    forall e | e in edges ensures e in RelabelEdges(to, from, image) {
      assert RelabelEdge(from, to, e) in image;
    }
  }

  /** Renaming to a fresh name is a graph isomorphism. */
  lemma RelabelReaches(edges: set<Edge>, from: Slug, to: Slug, a: Slug, b: Slug)
    requires !Mentions(edges, to) && a != to && b != to
    ensures Reaches(RelabelEdges(from, to, edges), Relabel(from, to, a), Relabel(from, to, b))
       <==> Reaches(edges, a, b)
  {
    var image := RelabelEdges(from, to, edges);
    if Reaches(edges, a, b) {
      var p :| IsPath(edges, p) && p[0] == a && p[|p| - 1] == b;
      PathRelabels(edges, from, to, p);
    }
    if Reaches(image, Relabel(from, to, a), Relabel(from, to, b)) {
      var p :| IsPath(image, p) && p[0] == Relabel(from, to, a) && p[|p| - 1] == Relabel(from, to, b);
      PathRelabels(image, to, from, p);
      RelabelBack(edges, from, to);
    }
  }

  lemma RelabelAcyclic(edges: set<Edge>, from: Slug, to: Slug)
    requires !Mentions(edges, to)
    ensures Acyclic(RelabelEdges(from, to, edges)) <==> Acyclic(edges)
  {
    var image := RelabelEdges(from, to, edges);
    forall e | e in edges
      ensures Reaches(image, RelabelEdge(from, to, e).parent, RelabelEdge(from, to, e).child)
         <==> Reaches(edges, e.parent, e.child)
    {
      RelabelReaches(edges, from, to, e.parent, e.child);
    }
    if Acyclic(image) {
      forall e | e in edges ensures !Reaches(edges, e.parent, e.child) {
        assert RelabelEdge(from, to, e) in image;
      }
    }
  }
}
