/**
 * The composition schema: one vertex per container id and per link target,
 * one edge per link, drawn from the linking container to the link target and
 * labelled with the link's alias. A map from name to vertex makes sure that a
 * name seen before, as a container or as a link target, reuses its vertex.
 */
module CompositionSchema {
  import opened Wrappers
  import opened Containers
  import opened Graphs

  /**
   * The vertex map and the graph agree: every key names the vertex labelled
   * with it, and every vertex is the vertex of its own label. So the map is a
   * bijection between its keys and the vertices.
   */
  ghost predicate Consistent<N>(g: Graph<N>, inserted: map<N, nat>)
  {
    && IndexesVertices(g, inserted)
    && (forall i :: 0 <= i < |g.vertices| ==> g.vertices[i] in inserted && inserted[g.vertices[i]] == i)
  }

  /** A name not yet in the map gets a new vertex at the end of the graph. */
  lemma ConsistentInsert<N>(g: Graph<N>, inserted: map<N, nat>, name: N)
    requires Consistent(g, inserted) && name !in inserted
    ensures Consistent(InsertVertex(g, name), inserted[name := |g.vertices|])
  {
    var g', m' := InsertVertex(g, name), inserted[name := |g.vertices|];
    forall k | k in m' ensures m'[k] < |g'.vertices| && g'.vertices[m'[k]] == k {
      if k != name {
        assert g'.vertices[m'[k]] == g.vertices[inserted[k]];
      }
    }
  }

  /** Consistency makes the labels pairwise distinct and the vertex count the number of keys. */
  lemma {:induction false} ConsistentCount<N>(g: Graph<N>, inserted: map<N, nat>)
    requires Consistent(g, inserted)
    ensures DistinctLabels(g)
    ensures |g.vertices| == |inserted|
  {
    var vs := g.vertices;
    forall i, j | 0 <= i < j < |vs| ensures vs[i] != vs[j] {
      assert inserted[vs[i]] == i && inserted[vs[j]] == j;
    }
    assert inserted.Keys == LabelSet(vs, |vs|) by {
      forall k | k in inserted ensures k in LabelSet(vs, |vs|) {
        LabelSetMembership(vs, |vs|, inserted[k]);
      }
      forall k | k in LabelSet(vs, |vs|) ensures k in inserted {
        LabelSetMembership2(vs, |vs|, k);
      }
    }
    LabelSetCount(vs, |vs|);
  }

  /** The labels of the first `n` vertices. */
  function LabelSet<N>(vs: seq<N>, n: nat): set<N>
    requires n <= |vs|
  {
    if n == 0 then {} else LabelSet(vs, n - 1) + {vs[n - 1]}
  }

  lemma {:induction false} LabelSetMembership<N>(vs: seq<N>, n: nat, i: nat)
    requires i < n <= |vs|
    ensures vs[i] in LabelSet(vs, n)
  {
    if i < n - 1 {
      LabelSetMembership(vs, n - 1, i);
    }
  }

  lemma {:induction false} LabelSetMembership2<N>(vs: seq<N>, n: nat, x: N)
    requires n <= |vs| && x in LabelSet(vs, n)
    ensures exists i :: 0 <= i < n && vs[i] == x
  {
    if x != vs[n - 1] {
      LabelSetMembership2(vs, n - 1, x);
    }
  }

  lemma {:induction false} LabelSetCount<N>(vs: seq<N>, n: nat)
    requires n <= |vs|
    requires forall i, j :: 0 <= i < j < |vs| ==> vs[i] != vs[j]
    ensures |LabelSet(vs, n)| == n
  {
    if n > 0 {
      LabelSetCount(vs, n - 1);
      if vs[n - 1] in LabelSet(vs, n - 1) {
        LabelSetMembership2(vs, n - 1, vs[n - 1]);
      }
    }
  }

  lemma LinkNamesStep<N>(links: seq<Link<N>>, i: nat)
    requires i < |links|
    ensures LinkNames(links[..i + 1]) == LinkNames(links[..i]) + {links[i].name}
  {
    assert links[..i + 1][..i] == links[..i];
  }

  /** The edges the links `ls` of the container at vertex `current` produce, in link order. */
  function LinkEdges<N>(ls: seq<Link<N>>, current: nat, inserted: map<N, nat>): (r: seq<Edge<N>>)
    requires LinkNames(ls) <= inserted.Keys
    ensures |r| == |ls|
  {
    if ls == [] then []
    else
      var last := ls[|ls| - 1];
      assert last in ls;
      LinkEdges(ls[..|ls| - 1], current, inserted) + [Edge(last.alias, current, inserted[last.name])]
  }

  ghost predicate Covers<N>(cs: seq<ContainerEntry<N>>, inserted: map<N, nat>)
  {
    ContainerIds(cs) + AllLinkNames(cs) <= inserted.Keys
  }

  lemma CoversInit<N>(cs: seq<ContainerEntry<N>>, m: map<N, nat>)
    requires cs != [] && Covers(cs, m)
    ensures Covers(cs[..|cs| - 1], m)
    ensures cs[|cs| - 1].id in m && LinkNames(LinksOf(cs[|cs| - 1].container)) <= m.Keys
  {
    var init := cs[..|cs| - 1];
    assert cs[|cs| - 1] in cs;
    forall x, l | x in init && l in LinksOf(x.container)
      ensures l.name in AllLinkNames(cs)
    {
      assert x in cs;
    }
    forall x | x in init ensures x.id in ContainerIds(cs) {
      assert x in cs;
    }
  }

  /** The edges of all containers `cs`, container by container, each container's in link order. */
  function AllEdges<N>(cs: seq<ContainerEntry<N>>, inserted: map<N, nat>): (r: seq<Edge<N>>)
    requires Covers(cs, inserted)
    ensures |r| == TotalLinks(cs)
  {
    if cs == [] then []
    else
      var last := cs[|cs| - 1];
      assert last in cs;
      CoversInit(cs, inserted);
      assert LinkNames(LinksOf(last.container)) <= AllLinkNames(cs);
      AllEdges(cs[..|cs| - 1], inserted)
        + LinkEdges(LinksOf(last.container), inserted[last.id], inserted)
  }

  /** The `k`-th link gives the `k`-th edge: from `current`, to the target's vertex, labelled with the alias. */
  lemma {:induction false} LinkEdgesAt<N>(ls: seq<Link<N>>, current: nat, inserted: map<N, nat>, k: nat)
    requires LinkNames(ls) <= inserted.Keys && k < |ls|
    ensures ls[k].name in inserted
    ensures LinkEdges(ls, current, inserted)[k] == Edge(ls[k].alias, current, inserted[ls[k].name])
  {
    if k < |ls| - 1 {
      LinkEdgesAt(ls[..|ls| - 1], current, inserted, k);
    }
  }

  /** Growing the vertex map without changing existing keys leaves a container's edges as they were. */
  lemma {:induction false} LinkEdgesStable<N>(ls: seq<Link<N>>, current: nat, m: map<N, nat>, m': map<N, nat>)
    requires LinkNames(ls) <= m.Keys
    requires forall k :: k in m ==> k in m' && m'[k] == m[k]
    ensures LinkEdges(ls, current, m) == LinkEdges(ls, current, m')
  {
    if ls != [] {
      LinkEdgesStable(ls[..|ls| - 1], current, m, m');
    }
  }

  lemma {:induction false} AllEdgesStable<N>(cs: seq<ContainerEntry<N>>, m: map<N, nat>, m': map<N, nat>)
    requires Covers(cs, m)
    requires forall k :: k in m ==> k in m' && m'[k] == m[k]
    ensures Covers(cs, m')
    ensures AllEdges(cs, m) == AllEdges(cs, m')
  {
    if cs != [] {
      var last := cs[|cs| - 1];
      assert last in cs;
      CoversInit(cs, m);
      AllEdgesStable(cs[..|cs| - 1], m, m');
      assert LinkNames(LinksOf(last.container)) <= AllLinkNames(cs);
      LinkEdgesStable(LinksOf(last.container), m[last.id], m, m');
    }
  }

  /** `e` is the edge of some link of some container of `cs`. */
  ghost predicate IsLinkEdge<N>(cs: seq<ContainerEntry<N>>, m: map<N, nat>, e: Edge<N>)
  {
    exists c, l :: c in cs && l in LinksOf(c.container) && c.id in m && l.name in m
      && e == Edge(l.alias, m[c.id], m[l.name])
  }

  /** Every edge of the schema comes from some link of some container: here is which. */
  lemma {:induction false} EdgeSource<N>(cs: seq<ContainerEntry<N>>, m: map<N, nat>, e: Edge<N>)
    returns (c: ContainerEntry<N>, l: Link<N>)
    requires Covers(cs, m) && e in AllEdges(cs, m)
    ensures c in cs && l in LinksOf(c.container) && c.id in m && l.name in m
    ensures e == Edge(l.alias, m[c.id], m[l.name])
  {
    var n := |cs| - 1;
    var init, last := cs[..n], cs[n];
    CoversInit(cs, m);
    var own := LinkEdges(LinksOf(last.container), m[last.id], m);
    assert AllEdges(cs, m) == AllEdges(init, m) + own;
    if e in own {
      var k :| 0 <= k < |own| && own[k] == e;
      LinkEdgesAt(LinksOf(last.container), m[last.id], m, k);
      c, l := last, LinksOf(last.container)[k];
    } else {
      c, l := EdgeSource(init, m, e);
      assert c in cs by {
        var j :| 0 <= j < |init| && init[j] == c;
        assert cs[j] == c;
      }
    }
  }

  /** Every link of every container gives an edge of the schema. */
  lemma {:induction false} EdgeOfLink<N>(cs: seq<ContainerEntry<N>>, m: map<N, nat>, c: ContainerEntry<N>, l: Link<N>)
    requires Covers(cs, m) && c in cs && l in LinksOf(c.container)
    ensures c.id in m && l.name in m
    ensures Edge(l.alias, m[c.id], m[l.name]) in AllEdges(cs, m)
  {
    var n := |cs| - 1;
    var init, last := cs[..n], cs[n];
    CoversInit(cs, m);
    var own := LinkEdges(LinksOf(last.container), m[last.id], m);
    assert AllEdges(cs, m) == AllEdges(init, m) + own;
    if c == last {
      var k :| 0 <= k < |LinksOf(last.container)| && LinksOf(last.container)[k] == l;
      LinkEdgesAt(LinksOf(last.container), m[last.id], m, k);
      assert own[k] in own;
    } else {
      var j :| 0 <= j < |cs| && cs[j] == c;
      assert j < n && init[j] == c;
      EdgeOfLink(init, m, c, l);
    }
  }

  /**
   * An edge is in the schema exactly when some container has a link whose
   * alias labels it, that runs from the container's vertex to the link
   * target's vertex: the edge set does not depend on the iteration order.
   */
  lemma AllEdgesMembership<N>(cs: seq<ContainerEntry<N>>, m: map<N, nat>, e: Edge<N>)
    requires Covers(cs, m)
    ensures e in AllEdges(cs, m) <==> IsLinkEdge(cs, m, e)
  {
    if e in AllEdges(cs, m) {
      var c, l := EdgeSource(cs, m, e);
    }
    if IsLinkEdge(cs, m, e) {
      var c, l :| c in cs && l in LinksOf(c.container) && c.id in m && l.name in m
        && e == Edge(l.alias, m[c.id], m[l.name]);
      EdgeOfLink(cs, m, c, l);
    }
  }

  /**
   * One link of a container: the target reuses its vertex when its name is
   * already in the map and gets a new one otherwise; then one edge labelled
   * with the alias goes from `current` to the target's vertex.
   */
  method AddDirectLink<N>(g0: Graph<N>, inserted0: map<N, nat>, link: Link<N>, current: nat)
    returns (g: Graph<N>, inserted: map<N, nat>)
    requires Consistent(g0, inserted0)
    ensures Consistent(g, inserted)
    ensures inserted.Keys == inserted0.Keys + {link.name}
    ensures forall k :: k in inserted0 ==> inserted[k] == inserted0[k]
    ensures link.name !in inserted0 ==> inserted[link.name] == |g0.vertices|
    ensures g.edges == g0.edges + [Edge(link.alias, current, inserted[link.name])]
  {
    var linkContainer: nat;
    g := g0;
    if link.name in inserted0 {
      linkContainer := inserted0[link.name];
      assert inserted0[link.name := linkContainer] == inserted0;
    } else {
      linkContainer := |g.vertices|;
      ConsistentInsert(g, inserted0, link.name);
      g := InsertVertex(g, link.name);
    }
    g := InsertEdge(g, link.alias, current, linkContainer);
    inserted := inserted0[link.name := linkContainer];
  }

  /**
   * The first `i` links of the container at vertex `current` have been added
   * to `g0` and `inserted0`, giving `g` and `inserted`.
   */
  ghost predicate LinksAdded<N>(g0: Graph<N>, inserted0: map<N, nat>, links: seq<Link<N>>, current: nat,
                                i: nat, g: Graph<N>, inserted: map<N, nat>)
  {
    && i <= |links|
    && Consistent(g, inserted)
    && inserted.Keys == inserted0.Keys + LinkNames(links[..i])
    && (forall k :: k in inserted0 ==> inserted[k] == inserted0[k])
    && g.edges == g0.edges + LinkEdges(links[..i], current, inserted)
  }

  lemma LinksAddedStep<N>(g0: Graph<N>, inserted0: map<N, nat>, links: seq<Link<N>>, current: nat,
                          i: nat, g: Graph<N>, inserted: map<N, nat>, g': Graph<N>, inserted': map<N, nat>)
    requires LinksAdded(g0, inserted0, links, current, i, g, inserted) && i < |links|
    requires Consistent(g', inserted')
    requires inserted'.Keys == inserted.Keys + {links[i].name}
    requires forall k :: k in inserted ==> inserted'[k] == inserted[k]
    requires g'.edges == g.edges + [Edge(links[i].alias, current, inserted'[links[i].name])]
    ensures LinksAdded(g0, inserted0, links, current, i + 1, g', inserted')
  {
    LinkNamesStep(links, i);
    LinkEdgesStable(links[..i], current, inserted, inserted');
    assert links[..i + 1][..i] == links[..i];
  }

  /**
   * Adds one edge per link of `c`, from `current` to the link target's vertex,
   * labelled with the alias; a target not yet in the map gets a new vertex.
   * A container whose links are null adds nothing.
   */
  method CreateDirectLinks<N>(g0: Graph<N>, inserted0: map<N, nat>, c: CubeContainer<N>, current: nat)
    returns (g: Graph<N>, inserted: map<N, nat>)
    requires Consistent(g0, inserted0)
    ensures Consistent(g, inserted)
    ensures inserted.Keys == inserted0.Keys + LinkNames(LinksOf(c))
    ensures forall k :: k in inserted0 ==> inserted[k] == inserted0[k]
    ensures g.edges == g0.edges + LinkEdges(LinksOf(c), current, inserted)
  {
    g, inserted := g0, inserted0;
    if c.links.Some? {
      var links := c.links.value;
      assert links[..0] == [];
      for i := 0 to |links|
        invariant LinksAdded(g0, inserted0, links, current, i, g, inserted)
      {
        var g', inserted' := AddDirectLink(g, inserted, links[i], current);
        LinksAddedStep(g0, inserted0, links, current, i, g, inserted, g', inserted');
        g, inserted := g', inserted';
      }
      assert links[..|links|] == links;
    }
  }

  /**
   * Adds the container `entry`: its vertex is reused when its id is already in
   * the map (it was a link target of an earlier container) and created
   * otherwise; then its direct links are added from that vertex.
   */
  method UpdateGraph<N>(g0: Graph<N>, inserted0: map<N, nat>, entry: ContainerEntry<N>)
    returns (g: Graph<N>, inserted: map<N, nat>)
    requires Consistent(g0, inserted0)
    ensures Consistent(g, inserted)
    ensures inserted.Keys == inserted0.Keys + {entry.id} + LinkNames(LinksOf(entry.container))
    ensures forall k :: k in inserted0 ==> inserted[k] == inserted0[k]
    ensures entry.id !in inserted0 ==> inserted[entry.id] == |g0.vertices|
    ensures g.edges == g0.edges + LinkEdges(LinksOf(entry.container), inserted[entry.id], inserted)
  {
    if entry.id in inserted0 {
      var current := inserted0[entry.id];
      g, inserted := CreateDirectLinks(g0, inserted0, entry.container, current);
    } else {
      var current := |g0.vertices|;
      var g1 := InsertVertex(g0, entry.id);
      var inserted1 := inserted0[entry.id := current];
      ConsistentInsert(g0, inserted0, entry.id);
      g, inserted := CreateDirectLinks(g1, inserted1, entry.container, current);
    }
  }

  /** The first `i` containers of `cs` have been added, giving `g` and `inserted`. */
  ghost predicate ContainersAdded<N>(cs: seq<ContainerEntry<N>>, i: nat, g: Graph<N>, inserted: map<N, nat>)
  {
    && i <= |cs|
    && Consistent(g, inserted)
    && inserted.Keys == ContainerIds(cs[..i]) + AllLinkNames(cs[..i])
    && g.edges == AllEdges(cs[..i], inserted)
  }

  lemma ContainersAddedStep<N>(cs: seq<ContainerEntry<N>>, i: nat, g: Graph<N>, inserted: map<N, nat>,
                               g': Graph<N>, inserted': map<N, nat>)
    requires ContainersAdded(cs, i, g, inserted) && i < |cs|
    requires Consistent(g', inserted')
    requires inserted'.Keys == inserted.Keys + {cs[i].id} + LinkNames(LinksOf(cs[i].container))
    requires forall k :: k in inserted ==> inserted'[k] == inserted[k]
    requires g'.edges == g.edges + LinkEdges(LinksOf(cs[i].container), inserted'[cs[i].id], inserted')
    ensures ContainersAdded(cs, i + 1, g', inserted')
  {
    AllEdgesStable(cs[..i], inserted, inserted');
    assert cs[..i + 1][..i] == cs[..i];
  }

  /**
   * Builds the composition schema of the containers `cs` (the composition's
   * entries in iteration order). Labels are pairwise distinct and are exactly
   * the container ids and link targets, each key of the returned map names the
   * vertex with its label, and the edges are exactly one per link.
   */
  method CreateDockerCompositionSchema<N>(cs: seq<ContainerEntry<N>>) returns (g: Graph<N>, inserted: map<N, nat>)
    ensures Consistent(g, inserted)
    ensures inserted.Keys == ContainerIds(cs) + AllLinkNames(cs)
    ensures DistinctLabels(g)
    ensures forall x :: x in g.vertices <==> x in ContainerIds(cs) || x in AllLinkNames(cs)
    ensures |g.vertices| == |ContainerIds(cs) + AllLinkNames(cs)|
    ensures Covers(cs, inserted) && g.edges == AllEdges(cs, inserted)
    ensures |g.edges| == TotalLinks(cs)
  {
    g, inserted := EmptyGraph(), map[];
    assert cs[..0] == [];
    for i := 0 to |cs|
      invariant ContainersAdded(cs, i, g, inserted)
    {
      var g', inserted' := UpdateGraph(g, inserted, cs[i]);
      ContainersAddedStep(cs, i, g, inserted, g', inserted');
      g, inserted := g', inserted';
    }
    assert cs[..|cs|] == cs;
    ConsistentCount(g, inserted);
  }
}
