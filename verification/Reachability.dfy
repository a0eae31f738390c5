/** Paths in a finite directed graph, given as the successors of each node. */
module Reachability {
  type Graph<T(==)> = map<T, set<T>>

  predicate HasEdge<T(==)>(g: Graph<T>, from: T, to: T) {
    from in g && to in g[from]
  }

  /** `path` is not empty and each of its nodes has an edge to the next one. */
  ghost predicate IsPath<T>(g: Graph<T>, path: seq<T>) {
    path != [] && forall i | 0 <= i < |path| - 1 :: HasEdge(g, path[i], path[i + 1])
  }

  ghost predicate IsPathFromTo<T>(g: Graph<T>, path: seq<T>, from: T, to: T) {
    IsPath(g, path) && path[0] == from && path[|path| - 1] == to
  }

  ghost predicate Reachable<T(!new)>(g: Graph<T>, from: T, to: T) {
    exists path :: IsPathFromTo(g, path, from, to)
  }

  lemma ReachableSelf<T(!new)>(g: Graph<T>, node: T)
    ensures Reachable(g, node, node)
  {
    assert IsPathFromTo(g, [node], node, node);
  }

  lemma ReachableThroughEdge<T(!new)>(g: Graph<T>, from: T, next: T, to: T)
    requires HasEdge(g, from, next) && Reachable(g, next, to)
    ensures Reachable(g, from, to)
  {
    var path :| IsPathFromTo(g, path, next, to);
    var longer := [from] + path;
    forall i | 0 <= i < |longer| - 1 ensures HasEdge(g, longer[i], longer[i + 1]) {
      if i > 0 {
        assert HasEdge(g, path[i - 1], path[i]);
      }
    }
    assert IsPathFromTo(g, longer, from, to);
  }

  ghost predicate Closed<T(!new)>(g: Graph<T>, nodes: set<T>) {
    forall from, to | from in nodes && HasEdge(g, from, to) :: to in nodes
  }

  lemma {:induction false} ClosedContainsPath<T(!new)>(g: Graph<T>, nodes: set<T>, path: seq<T>)
    requires Closed(g, nodes) && IsPath(g, path) && path[0] in nodes
    ensures path[|path| - 1] in nodes
  {
    if |path| > 1 {
      assert HasEdge(g, path[0], path[1]);
      forall i | 0 <= i < |path[1..]| - 1 ensures HasEdge(g, path[1..][i], path[1..][i + 1]) {
        assert HasEdge(g, path[i + 1], path[i + 2]);
      }
      ClosedContainsPath(g, nodes, path[1..]);
    }
  }

  /** A set closed under edges that contains a node contains everything reachable from it. */
  lemma ClosedContainsReachable<T(!new)>(g: Graph<T>, nodes: set<T>, from: T, to: T)
    requires Closed(g, nodes) && from in nodes && Reachable(g, from, to)
    ensures to in nodes
  {
    var path :| IsPathFromTo(g, path, from, to);
    ClosedContainsPath(g, nodes, path);
  }
}
