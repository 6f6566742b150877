/**
 * The graph the reporter draws, reduced to what it records: vertex labels
 * and labelled directed edges. A vertex is identified by its position, which
 * is what inserting a vertex hands back; layout, sizes and styles are not kept.
 */
module Graphs {
  datatype Edge<N> = Edge(value: N, source: nat, target: nat)

  datatype Graph<N> = Graph(vertices: seq<N>, edges: seq<Edge<N>>)

  function EmptyGraph<N>(): Graph<N>
  {
    Graph([], [])
  }

  /** Adds a vertex whose value (its label) is `value`; the new vertex is at position |g.vertices|. */
  function InsertVertex<N>(g: Graph<N>, value: N): Graph<N>
  {
    g.(vertices := g.vertices + [value])
  }

  /** Adds an edge whose value (its label) is `value` from `source` to `target`. */
  function InsertEdge<N>(g: Graph<N>, value: N, source: nat, target: nat): Graph<N>
  {
    g.(edges := g.edges + [Edge(value, source, target)])
  }

  /** Each key of the vertex map names a vertex that carries the key as its label. */
  ghost predicate IndexesVertices<N>(g: Graph<N>, inserted: map<N, nat>)
  {
    forall k :: k in inserted ==> inserted[k] < |g.vertices| && g.vertices[inserted[k]] == k
  }

  /**
   * A graph `g'` whose vertices are those of `g` plus one appended vertex
   * labelled `value` is indexed by the map that also sends `value` to the
   * new position.
   */
  lemma IndexesAppendVertex<N>(g: Graph<N>, inserted: map<N, nat>, value: N, g': Graph<N>)
    requires IndexesVertices(g, inserted) && g'.vertices == g.vertices + [value]
    ensures IndexesVertices(g', inserted[value := |g.vertices|])
  {
    forall k | k in inserted && k != value ensures g'.vertices[inserted[k]] == k {
      assert g'.vertices[inserted[k]] == g.vertices[inserted[k]];
    }
  }

  /** Appending vertices keeps every key of the map at the vertex it indexed. */
  lemma IndexesExtend<N>(g: Graph<N>, inserted: map<N, nat>, g': Graph<N>)
    requires IndexesVertices(g, inserted)
    requires |g.vertices| <= |g'.vertices| && g'.vertices[..|g.vertices|] == g.vertices
    ensures IndexesVertices(g', inserted)
  {
    forall k | k in inserted ensures g'.vertices[inserted[k]] == k {
      assert g'.vertices[..|g.vertices|][inserted[k]] == k;
    }
  }

  ghost predicate DistinctLabels<N>(g: Graph<N>)
  {
    forall i, j :: 0 <= i < j < |g.vertices| ==> g.vertices[i] != g.vertices[j]
  }
}
