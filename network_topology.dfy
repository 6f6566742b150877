/**
 * The network topology: one vertex per container, one shared vertex per
 * network name, and for every container that is not started by hand one edge
 * to each network it joins, labelled with the network's name. A map from
 * network name to vertex (containers are never put in it) makes a network
 * seen before reuse its vertex.
 */
module NetworkTopology {
  import opened Wrappers
  import opened Containers
  import opened Graphs
  import opened Sequences

  /**
   * The networks a container that is not started by hand joins: its network
   * mode, or when that is null the default network mode the engine reports
   * for it (`inspect`), together with its extra networks when those are not null.
   */
  function NetworkList<N(==)>(e: ContainerEntry<N>, inspect: N -> N): set<N>
  {
    (if e.container.networkMode.Some? then {e.container.networkMode.value} else {inspect(e.id)})
    + (if e.container.networks.Some? then set n | n in e.container.networks.value else {})
  }

  /** The networks a container is drawn connected to; a container started by hand has none. */
  function JoinedNetworks<N(==)>(e: ContainerEntry<N>, inspect: N -> N): set<N>
  {
    if e.container.manual then {} else NetworkList(e, inspect)
  }

  /** Every network some container of `cs` is drawn connected to. */
  function AllNetworks<N(==)>(cs: seq<ContainerEntry<N>>, inspect: N -> N): (r: set<N>)
    ensures forall e :: e in cs ==> JoinedNetworks(e, inspect) <= r
  {
    if cs == [] then {}
    else
      assert forall e :: e in cs ==> e in cs[..|cs| - 1] || e == cs[|cs| - 1];
      AllNetworks(cs[..|cs| - 1], inspect) + JoinedNetworks(cs[|cs| - 1], inspect)
  }

  /**
   * The containers whose default network mode the engine is asked for, in
   * order: those not started by hand that have no network mode of their own.
   */
  function InspectedIds<N>(cs: seq<ContainerEntry<N>>): (r: seq<N>)
    ensures |r| <= |cs|
  {
    if cs == [] then []
    else
      var e := cs[|cs| - 1];
      InspectedIds(cs[..|cs| - 1]) + (if !e.container.manual && e.container.networkMode.None? then [e.id] else [])
  }

  lemma InspectedIdsStep<N>(cs: seq<ContainerEntry<N>>, i: nat)
    requires i < |cs|
    ensures InspectedIds(cs[..i + 1])
         == InspectedIds(cs[..i]) + (if !cs[i].container.manual && cs[i].container.networkMode.None? then [cs[i].id] else [])
  {
    assert cs[..i + 1][..i] == cs[..i];
  }

  /** Every container the engine is asked about is one not started by hand and without a network mode. */
  lemma {:induction false} InspectedIdsAt<N>(cs: seq<ContainerEntry<N>>, k: nat) returns (i: nat)
    requires k < |InspectedIds(cs)|
    ensures i < |cs| && cs[i].id == InspectedIds(cs)[k]
    ensures !cs[i].container.manual && cs[i].container.networkMode.None?
  {
    var n := |cs| - 1;
    if k < |InspectedIds(cs[..n])| {
      i := InspectedIdsAt(cs[..n], k);
    } else {
      i := n;
    }
  }

  /** Every container not started by hand and without a network mode is asked about. */
  lemma {:induction false} InspectedIdsOf<N>(cs: seq<ContainerEntry<N>>, i: nat)
    requires i < |cs| && !cs[i].container.manual && cs[i].container.networkMode.None?
    ensures cs[i].id in InspectedIds(cs)
  {
    var n := |cs| - 1;
    if i < n {
      InspectedIdsOf(cs[..n], i);
      assert cs[..n][i] == cs[i];
    }
  }

  /** The number of (container, network) pairs over `cs`. */
  function Memberships<N(==)>(cs: seq<ContainerEntry<N>>, inspect: N -> N): nat
  {
    if cs == [] then 0 else Memberships(cs[..|cs| - 1], inspect) + |JoinedNetworks(cs[|cs| - 1], inspect)|
  }

  /** The networks of `order` that `known` has no vertex for, in order: the ones that get a new vertex. */
  function Unseen<N>(order: seq<N>, known: map<N, nat>): seq<N>
  {
    if order == [] then []
    else Unseen(order[..|order| - 1], known) + (if order[|order| - 1] in known then [] else [order[|order| - 1]])
  }

  /**
   * The vertex map after the networks of `order` have been visited, starting
   * from `known`, when the vertices of unknown networks are appended from
   * position `base` on: a network seen before keeps its vertex, the others
   * take the next new position.
   */
  function Visited<N>(known: map<N, nat>, order: seq<N>, base: nat): map<N, nat>
  {
    if order == [] then known
    else
      var init, last := order[..|order| - 1], order[|order| - 1];
      var m := Visited(known, init, base);
      if last in m then m else m[last := base + |Unseen(init, known)|]
  }

  /** The visited networks are exactly the keys added to the map. */
  lemma {:induction false} VisitedKeys<N>(known: map<N, nat>, order: seq<N>, base: nat, k: N)
    ensures k in Visited(known, order, base) <==> k in known || k in order
  {
    if order != [] {
      var init := order[..|order| - 1];
      VisitedKeys(known, init, base, k);
      assert k in order <==> k in init || k == order[|order| - 1];
    }
  }

  /** Every visited network has a vertex in the visited map. */
  lemma VisitedCovers<N>(known: map<N, nat>, order: seq<N>, base: nat)
    ensures forall n :: n in order ==> n in Visited(known, order, base)
  {
    forall n | n in order ensures n in Visited(known, order, base) {
      VisitedKeys(known, order, base, n);
    }
  }

  /** With no repeated network, the map grows by one key per network that gets a new vertex. */
  lemma {:induction false} VisitedCount<N>(known: map<N, nat>, order: seq<N>, base: nat)
    requires Distinct(order)
    ensures |Visited(known, order, base)| == |known| + |Unseen(order, known)|
  {
    if order != [] {
      var init, last := order[..|order| - 1], order[|order| - 1];
      VisitedCount(known, init, base);
      VisitedKeys(known, init, base, last);
      assert last !in init;
    }
  }

  /**
   * Visiting networks keeps the vertex of every network known before, and
   * gives every other visited network one of the new positions.
   */
  lemma {:induction false} VisitedValues<N>(known: map<N, nat>, order: seq<N>, base: nat, k: N)
    requires k in Visited(known, order, base)
    ensures k in known ==> Visited(known, order, base)[k] == known[k]
    ensures k !in known ==> base <= Visited(known, order, base)[k] < base + |Unseen(order, known)|
  {
    if order != [] {
      var init := order[..|order| - 1];
      var m := Visited(known, init, base);
      if k in m {
        VisitedValues(known, init, base, k);
      } else {
        VisitedKeys(known, init, base, k);
      }
    }
  }

  /**
   * When `known` indexes the vertices `g0` and the unseen networks of `order`
   * are appended to them, the visited map indexes the new vertices.
   */
  lemma {:induction false} VisitedIndexes<N>(g0: Graph<N>, known: map<N, nat>, order: seq<N>, g: Graph<N>)
    requires IndexesVertices(g0, known) && Distinct(order)
    requires g.vertices == g0.vertices + Unseen(order, known)
    ensures IndexesVertices(g, Visited(known, order, |g0.vertices|))
  {
    if order != [] {
      var init, last := order[..|order| - 1], order[|order| - 1];
      var gi := Graph(g0.vertices + Unseen(init, known), g.edges);
      VisitedIndexes(g0, known, init, gi);
      var m := Visited(known, init, |g0.vertices|);
      VisitedKeys(known, init, |g0.vertices|, last);
      if last in m {
        assert g.vertices == gi.vertices;
      } else {
        assert g.vertices == gi.vertices + [last];
        IndexesAppendVertex(gi, m, last, g);
      }
    }
  }

  /** One edge from the container vertex `cv` to the vertex of each network of `order`, in order. */
  function EdgesTo<N>(order: seq<N>, cv: nat, inserted: map<N, nat>): (r: seq<Edge<N>>)
    requires forall n :: n in order ==> n in inserted
    ensures |r| == |order|
  {
    if order == [] then []
    else
      var last := order[|order| - 1];
      EdgesTo(order[..|order| - 1], cv, inserted) + [Edge(last, cv, inserted[last])]
  }

  /** The edges to networks do not change when the map keeps the vertices of those networks. */
  lemma {:induction false} EdgesToStable<N>(order: seq<N>, cv: nat, inserted: map<N, nat>, inserted': map<N, nat>)
    requires forall n :: n in order ==> n in inserted && n in inserted' && inserted'[n] == inserted[n]
    ensures EdgesTo(order, cv, inserted') == EdgesTo(order, cv, inserted)
  {
    if order != [] {
      EdgesToStable(order[..|order| - 1], cv, inserted, inserted');
    }
  }

  /** An edge is among the edges to `order` exactly when it goes from `cv` to the vertex of a network of `order`. */
  lemma {:induction false} EdgesToMembership<N>(order: seq<N>, cv: nat, inserted: map<N, nat>, e: Edge<N>)
    requires forall n :: n in order ==> n in inserted
    ensures e in EdgesTo(order, cv, inserted) <==> e.source == cv && e.value in order && e.target == inserted[e.value]
  {
    if order != [] {
      var init := order[..|order| - 1];
      EdgesToMembership(init, cv, inserted, e);
      assert forall n :: n in order <==> n in init || n == order[|order| - 1];
    }
  }

  /**
   * The state after the networks of `order` have been connected to the
   * container vertex `cv`, starting from `g0` and `inserted0`: the unseen
   * networks got vertices appended in order, the map is the visited map,
   * and one edge per network of `order` was appended.
   */
  ghost predicate NetworksVisited<N>(g0: Graph<N>, inserted0: map<N, nat>, cv: nat, order: seq<N>,
                                     g: Graph<N>, inserted: map<N, nat>)
  {
    && inserted == Visited(inserted0, order, |g0.vertices|)
    && (forall n :: n in order ==> n in inserted)
    && g.vertices == g0.vertices + Unseen(order, inserted0)
    && g.edges == g0.edges + EdgesTo(order, cv, inserted)
  }

  lemma VisitedAppend<N>(known: map<N, nat>, order: seq<N>, base: nat, nw: N)
    ensures var m := Visited(known, order, base);
      Visited(known, order + [nw], base) == if nw in m then m else m[nw := base + |Unseen(order, known)|]
  {
    assert (order + [nw])[..|order|] == order;
  }

  lemma UnseenAppend<N>(order: seq<N>, known: map<N, nat>, nw: N)
    ensures Unseen(order + [nw], known) == Unseen(order, known) + (if nw in known then [] else [nw])
  {
    assert (order + [nw])[..|order|] == order;
  }

  lemma EdgesToAppend<N>(order: seq<N>, cv: nat, inserted: map<N, nat>, nw: N)
    requires forall n :: n in order ==> n in inserted
    requires nw in inserted
    ensures EdgesTo(order + [nw], cv, inserted) == EdgesTo(order, cv, inserted) + [Edge(nw, cv, inserted[nw])]
  {
    assert (order + [nw])[..|order|] == order;
  }


  lemma NetworksVisitedStep<N>(g0: Graph<N>, inserted0: map<N, nat>, cv: nat, order: seq<N>,
                               g: Graph<N>, inserted: map<N, nat>, nw: N, g': Graph<N>, inserted': map<N, nat>)
    requires NetworksVisited(g0, inserted0, cv, order, g, inserted) && nw !in order
    requires nw in inserted ==> inserted' == inserted && g'.vertices == g.vertices
    requires nw !in inserted ==> inserted' == inserted[nw := |g.vertices|] && g'.vertices == g.vertices + [nw]
    requires nw in inserted' && g'.edges == g.edges + [Edge(nw, cv, inserted'[nw])]
    ensures NetworksVisited(g0, inserted0, cv, order + [nw], g', inserted')
  {
    VisitedKeys(inserted0, order, |g0.vertices|, nw);
    VisitedAppend(inserted0, order, |g0.vertices|, nw);
    UnseenAppend(order, inserted0, nw);
    EdgesToStable(order, cv, inserted, inserted');
    EdgesToAppend(order, cv, inserted', nw);
    AppendAssociates(g0.edges, EdgesTo(order, cv, inserted'), [Edge(nw, cv, inserted'[nw])]);
    if nw !in inserted {
      AppendAssociates(g0.vertices, Unseen(order, inserted0), [nw]);
    }
  }

  /**
   * Connects the container vertex `cv` to the network `nw`: a network already
   * in the map reuses its vertex, any other gets a new vertex; then one edge
   * labelled with the network's name goes from `cv` to it.
   */
  method ConnectNetwork<N(==)>(g: Graph<N>, inserted: map<N, nat>, cv: nat, nw: N)
    returns (g': Graph<N>, inserted': map<N, nat>)
    ensures nw in inserted ==> inserted' == inserted && g'.vertices == g.vertices
    ensures nw !in inserted ==> inserted' == inserted[nw := |g.vertices|] && g'.vertices == g.vertices + [nw]
    ensures nw in inserted' && g'.edges == g.edges + [Edge(nw, cv, inserted'[nw])]
  {
    var nwName: nat;
    g' := g;
    if nw in inserted {
      nwName := inserted[nw];
    } else {
      nwName := |g.vertices|;
      g' := InsertVertex(g, nw);
    }
    inserted' := inserted[nw := nwName];
    g' := InsertEdge(g', nw, cv, nwName);
  }

  /**
   * Connects the container vertex `cv` to each network in `nwList`, in the
   * set's iteration order, returned as `order`.
   */
  method ConnectNetworks<N(==)>(g0: Graph<N>, inserted0: map<N, nat>, cv: nat, nwList: set<N>)
    returns (g: Graph<N>, inserted: map<N, nat>, ghost order: seq<N>)
    ensures forall n :: n in order ==> n in nwList
    ensures forall n :: n in nwList ==> n in order
    ensures Distinct(order)
    ensures NetworksVisited(g0, inserted0, cv, order, g, inserted)
  {
    g, inserted, order := g0, inserted0, [];
    var todo := nwList;
    while todo != {}
      invariant forall n :: n in order ==> n in nwList
      invariant forall n :: n in nwList ==> n in todo || n in order
      invariant forall i :: 0 <= i < |order| ==> order[i] !in todo
      invariant Distinct(order)
      invariant NetworksVisited(g0, inserted0, cv, order, g, inserted)
      decreases todo
    {
      var nw :| nw in todo;
      var g', inserted' := ConnectNetwork(g, inserted, cv, nw);
      NetworksVisitedStep(g0, inserted0, cv, order, g, inserted, nw, g', inserted');
      g, inserted := g', inserted';
      todo, order := todo - {nw}, order + [nw];
    }
  }

  /**
   * The network topology of the containers `cs` when the networks of the
   * i-th container are visited in the order `orders[i]`: the graph, the map
   * from network name to vertex, and the vertex of each container.
   */
  datatype Topology<N> = Topology(graph: Graph<N>, inserted: map<N, nat>, containerVertices: seq<nat>)

  /** `orders[i]` lists the networks the i-th container joins, each once. */
  ghost predicate ValidOrders<N>(cs: seq<ContainerEntry<N>>, inspect: N -> N, orders: seq<seq<N>>)
  {
    && |orders| == |cs|
    && forall i :: 0 <= i < |cs| ==>
         && Distinct(orders[i])
         && (forall n :: n in orders[i] ==> n in JoinedNetworks(cs[i], inspect))
         && (forall n :: n in JoinedNetworks(cs[i], inspect) ==> n in orders[i])
  }

  /**
   * Draws one more container with id `id` whose networks are visited in
   * `order`: its own vertex is appended, then a vertex for each of its
   * networks not seen before, and an edge from its vertex to each network's.
   */
  function AddContainer<N>(t: Topology<N>, id: N, order: seq<N>): Topology<N>
  {
    var cv := |t.graph.vertices|;
    var m := Visited(t.inserted, order, cv + 1);
    VisitedCovers(t.inserted, order, cv + 1);
    Topology(Graph(t.graph.vertices + [id] + Unseen(order, t.inserted), t.graph.edges + EdgesTo(order, cv, m)),
             m, t.containerVertices + [cv])
  }

  /** The topology drawn for `cs` when the networks of the i-th container are visited in the order `orders[i]`. */
  function TopologyOf<N>(cs: seq<ContainerEntry<N>>, orders: seq<seq<N>>): (t: Topology<N>)
    requires |orders| == |cs|
    ensures |t.containerVertices| == |cs|
  {
    if cs == [] then Topology(EmptyGraph(), map[], [])
    else AddContainer(TopologyOf(cs[..|cs| - 1], orders[..|cs| - 1]), cs[|cs| - 1].id, orders[|cs| - 1])
  }

  /** The vertex map of a topology indexes its vertices and leaves the container vertices out. */
  ghost predicate WellDrawn<N>(t: Topology<N>)
  {
    && IndexesVertices(t.graph, t.inserted)
    && (forall i :: 0 <= i < |t.containerVertices| ==> t.containerVertices[i] < |t.graph.vertices|)
    && (forall i, k :: 0 <= i < |t.containerVertices| && k in t.inserted ==> t.inserted[k] != t.containerVertices[i])
  }

  /** Adding a container keeps the vertices drawn so far, and the vertex and the map entry of each network seen so far. */
  lemma AddContainerKeeps<N>(t: Topology<N>, id: N, order: seq<N>, k: N)
    ensures var t' := AddContainer(t, id, order);
      && |t.graph.vertices| < |t'.graph.vertices|
      && t'.graph.vertices[..|t.graph.vertices|] == t.graph.vertices
      && t'.graph.vertices[|t.graph.vertices|] == id
      && t'.containerVertices == t.containerVertices + [|t.graph.vertices|]
      && (k in t'.inserted <==> k in t.inserted || k in order)
      && (k in t.inserted ==> t'.inserted[k] == t.inserted[k])
      && (k in t'.inserted && k !in t.inserted ==> |t.graph.vertices| < t'.inserted[k] < |t'.graph.vertices|)
  {
    var cv := |t.graph.vertices|;
    VisitedKeys(t.inserted, order, cv + 1, k);
    if k in Visited(t.inserted, order, cv + 1) {
      VisitedValues(t.inserted, order, cv + 1, k);
    }
  }

  /** Adding a container whose networks are visited once each keeps the topology well drawn. */
  lemma AddContainerWellDrawn<N>(t: Topology<N>, id: N, order: seq<N>)
    requires WellDrawn(t) && Distinct(order)
    ensures WellDrawn(AddContainer(t, id, order))
  {
    var t' := AddContainer(t, id, order);
    var cv := |t.graph.vertices|;
    var g1 := InsertVertex(t.graph, id);
    assert g1.vertices[..cv] == t.graph.vertices;
    IndexesExtend(t.graph, t.inserted, g1);
    VisitedIndexes(g1, t.inserted, order, t'.graph);
    forall k | k in t'.inserted ensures t'.inserted[k] != cv && forall i :: 0 <= i < |t.containerVertices| ==> t'.inserted[k] != t.containerVertices[i] {
      AddContainerKeeps(t, id, order, k);
    }
  }

  /** The first `i` containers have been drawn, their networks visited in the orders `orders`. */
  ghost predicate TopologyBuilt<N>(cs: seq<ContainerEntry<N>>, i: nat, orders: seq<seq<N>>, g: Graph<N>, inserted: map<N, nat>)
  {
    && i <= |cs| && |orders| == i
    && g == TopologyOf(cs[..i], orders).graph
    && inserted == TopologyOf(cs[..i], orders).inserted
  }

  lemma TopologyBuiltStep<N>(cs: seq<ContainerEntry<N>>, i: nat, orders: seq<seq<N>>, g: Graph<N>, inserted: map<N, nat>,
                             order: seq<N>, g': Graph<N>, inserted': map<N, nat>)
    requires TopologyBuilt(cs, i, orders, g, inserted) && i < |cs|
    requires NetworksVisited(InsertVertex(g, cs[i].id), inserted, |g.vertices|, order, g', inserted')
    ensures TopologyBuilt(cs, i + 1, orders + [order], g', inserted')
  {
    assert cs[..i + 1][..i] == cs[..i];
    assert (orders + [order])[..i] == orders;
  }

  lemma ValidOrdersStep<N>(cs: seq<ContainerEntry<N>>, i: nat, inspect: N -> N, orders: seq<seq<N>>, order: seq<N>)
    requires i < |cs| && ValidOrders(cs[..i], inspect, orders) && Distinct(order)
    requires forall n :: n in order ==> n in JoinedNetworks(cs[i], inspect)
    requires forall n :: n in JoinedNetworks(cs[i], inspect) ==> n in order
    ensures ValidOrders(cs[..i + 1], inspect, orders + [order])
  {
    assert cs[..i + 1][..i] == cs[..i];
  }

  /**
   * Draws the network topology: for each container, in the map's iteration
   * order, a vertex labelled with its id; then, unless it is started by
   * hand, its networks are connected to that vertex. `inspected` lists the
   * containers the engine was asked about, in order, and `orders` returns the
   * order in which each container's set of networks was iterated.
   */
  method CreateNetworkTopologyGraph<N(==)>(cs: seq<ContainerEntry<N>>, inspect: N -> N)
    returns (g: Graph<N>, inserted: map<N, nat>, inspected: seq<N>, ghost orders: seq<seq<N>>)
    ensures ValidOrders(cs, inspect, orders)
    ensures g == TopologyOf(cs, orders).graph && inserted == TopologyOf(cs, orders).inserted
    ensures inspected == InspectedIds(cs)
  {
    g, inserted, inspected, orders := EmptyGraph(), map[], [], [];
    for i := 0 to |cs|
      invariant ValidOrders(cs[..i], inspect, orders)
      invariant TopologyBuilt(cs, i, orders, g, inserted)
      invariant inspected == InspectedIds(cs[..i])
    {
      InspectedIdsStep(cs, i);
      var entry := cs[i];
      var containerName := |g.vertices|;
      var g1 := InsertVertex(g, entry.id);
      var g', inserted' := g1, inserted;
      ghost var order: seq<N> := [];
      ghost var joined := JoinedNetworks(entry, inspect);
      if !entry.container.manual {
        var nwList: set<N>;
        if entry.container.networkMode.Some? {
          nwList := {entry.container.networkMode.value};
        } else {
          nwList := {inspect(entry.id)};
          inspected := inspected + [entry.id];
        }
        if entry.container.networks.Some? {
          nwList := nwList + set n | n in entry.container.networks.value;
        }
        assert nwList == joined;
        g', inserted', order := ConnectNetworks(g1, inserted, containerName, nwList);
      }
      ValidOrdersStep(cs, i, inspect, orders, order);
      TopologyBuiltStep(cs, i, orders, g, inserted, order, g', inserted');
      g, inserted, orders := g', inserted', orders + [order];
    }
    assert cs[..|cs|] == cs;
  }

  lemma ValidOrdersInit<N>(cs: seq<ContainerEntry<N>>, inspect: N -> N, orders: seq<seq<N>>)
    requires cs != [] && ValidOrders(cs, inspect, orders)
    ensures ValidOrders(cs[..|cs| - 1], inspect, orders[..|cs| - 1])
  {
    var n := |cs| - 1;
    forall i | 0 <= i < n ensures cs[..n][i] == cs[i] && orders[..n][i] == orders[i] {
    }
  }

  /** Every network name of the map sits at a vertex labelled with that name, and never at a container's vertex. */
  lemma {:induction false} TopologyWellDrawn<N>(cs: seq<ContainerEntry<N>>, inspect: N -> N, orders: seq<seq<N>>)
    requires ValidOrders(cs, inspect, orders)
    ensures WellDrawn(TopologyOf(cs, orders))
  {
    if cs != [] {
      var n := |cs| - 1;
      ValidOrdersInit(cs, inspect, orders);
      TopologyWellDrawn(cs[..n], inspect, orders[..n]);
      AddContainerWellDrawn(TopologyOf(cs[..n], orders[..n]), cs[n].id, orders[n]);
    }
  }

  /** The map has a vertex for exactly the networks some container joins. */
  lemma {:induction false} TopologyKeys<N>(cs: seq<ContainerEntry<N>>, inspect: N -> N, orders: seq<seq<N>>, k: N)
    requires ValidOrders(cs, inspect, orders)
    ensures k in TopologyOf(cs, orders).inserted <==> k in AllNetworks(cs, inspect)
  {
    if cs != [] {
      var n := |cs| - 1;
      ValidOrdersInit(cs, inspect, orders);
      TopologyKeys(cs[..n], inspect, orders[..n], k);
      AddContainerKeeps(TopologyOf(cs[..n], orders[..n]), cs[n].id, orders[n], k);
      assert k in orders[n] <==> k in JoinedNetworks(cs[n], inspect);
    }
  }

  /** Each container has a vertex of its own labelled with its id, and the containers' vertices come in order. */
  lemma {:induction false} TopologyContainers<N>(cs: seq<ContainerEntry<N>>, orders: seq<seq<N>>)
    requires |orders| == |cs|
    ensures var t := TopologyOf(cs, orders);
      && (forall i :: 0 <= i < |cs| ==>
            t.containerVertices[i] < |t.graph.vertices| && t.graph.vertices[t.containerVertices[i]] == cs[i].id)
      && (forall i, j :: 0 <= i < j < |cs| ==> t.containerVertices[i] < t.containerVertices[j])
  {
    if cs != [] {
      var n := |cs| - 1;
      var t := TopologyOf(cs[..n], orders[..n]);
      TopologyContainers(cs[..n], orders[..n]);
      var t' := TopologyOf(cs, orders);
      AddContainerKeeps(t, cs[n].id, orders[n], cs[n].id);
      forall i | 0 <= i < n
        ensures t'.containerVertices[i] < |t'.graph.vertices| && t'.graph.vertices[t'.containerVertices[i]] == cs[i].id
      {
        assert cs[..n][i] == cs[i];
        assert t'.graph.vertices[..|t.graph.vertices|][t.containerVertices[i]] == cs[i].id;
      }
    }
  }

  /** Every edge goes from the vertex of some container to the vertex of a network that container joins. */
  lemma {:induction false} TopologyEdgeOwner<N>(cs: seq<ContainerEntry<N>>, inspect: N -> N, orders: seq<seq<N>>, e: Edge<N>)
    returns (i: nat)
    requires ValidOrders(cs, inspect, orders) && e in TopologyOf(cs, orders).graph.edges
    ensures var t := TopologyOf(cs, orders);
      && i < |cs| && e.source == t.containerVertices[i] && e.value in JoinedNetworks(cs[i], inspect)
      && e.value in t.inserted && e.target == t.inserted[e.value]
  {
    var n := |cs| - 1;
    ValidOrdersInit(cs, inspect, orders);
    var t := TopologyOf(cs[..n], orders[..n]);
    var cv := |t.graph.vertices|;
    var m := Visited(t.inserted, orders[n], cv + 1);
    VisitedCovers(t.inserted, orders[n], cv + 1);
    AddContainerKeeps(t, cs[n].id, orders[n], e.value);
    if e in t.graph.edges {
      i := TopologyEdgeOwner(cs[..n], inspect, orders[..n], e);
      assert cs[..n][i] == cs[i];
    } else {
      EdgesToMembership(orders[n], cv, m, e);
      i := n;
    }
  }

  /** Every container is connected by an edge to the vertex of each network it joins. */
  lemma {:induction false} TopologyEdgeOf<N>(cs: seq<ContainerEntry<N>>, inspect: N -> N, orders: seq<seq<N>>, i: nat, nw: N)
    requires ValidOrders(cs, inspect, orders) && i < |cs| && nw in JoinedNetworks(cs[i], inspect)
    ensures var t := TopologyOf(cs, orders);
      nw in t.inserted && Edge(nw, t.containerVertices[i], t.inserted[nw]) in t.graph.edges
  {
    var n := |cs| - 1;
    ValidOrdersInit(cs, inspect, orders);
    var t := TopologyOf(cs[..n], orders[..n]);
    var cv := |t.graph.vertices|;
    var m := Visited(t.inserted, orders[n], cv + 1);
    VisitedCovers(t.inserted, orders[n], cv + 1);
    AddContainerKeeps(t, cs[n].id, orders[n], nw);
    if i < n {
      assert cs[..n][i] == cs[i];
      TopologyEdgeOf(cs[..n], inspect, orders[..n], i, nw);
    } else {
      EdgesToMembership(orders[n], cv, m, Edge(nw, cv, m[nw]));
    }
  }

  /** There is one edge per (container, network it joins) pair. */
  lemma {:induction false} TopologyEdgeCount<N>(cs: seq<ContainerEntry<N>>, inspect: N -> N, orders: seq<seq<N>>)
    requires ValidOrders(cs, inspect, orders)
    ensures |TopologyOf(cs, orders).graph.edges| == Memberships(cs, inspect)
  {
    if cs != [] {
      var n := |cs| - 1;
      ValidOrdersInit(cs, inspect, orders);
      TopologyEdgeCount(cs[..n], inspect, orders[..n]);
      DistinctCount(orders[n], JoinedNetworks(cs[n], inspect));
    }
  }

  /** There is one vertex per container and one per network: no other vertex is drawn. */
  lemma {:induction false} TopologyVertexCount<N>(cs: seq<ContainerEntry<N>>, inspect: N -> N, orders: seq<seq<N>>)
    requires ValidOrders(cs, inspect, orders)
    ensures |TopologyOf(cs, orders).graph.vertices| == |cs| + |TopologyOf(cs, orders).inserted|
  {
    if cs != [] {
      var n := |cs| - 1;
      ValidOrdersInit(cs, inspect, orders);
      var t := TopologyOf(cs[..n], orders[..n]);
      TopologyVertexCount(cs[..n], inspect, orders[..n]);
      VisitedCount(t.inserted, orders[n], |t.graph.vertices| + 1);
    }
  }

  /**
   * The shape of the whole topology: one vertex per container and one per
   * network some container joins, each network's vertex labelled with its
   * name, and one edge per (container, network it joins) pair.
   */
  lemma TopologyShape<N>(cs: seq<ContainerEntry<N>>, inspect: N -> N, orders: seq<seq<N>>)
    requires ValidOrders(cs, inspect, orders)
    ensures var t := TopologyOf(cs, orders);
      && IndexesVertices(t.graph, t.inserted)
      && (forall k :: k in t.inserted ==> k in AllNetworks(cs, inspect))
      && (forall k :: k in AllNetworks(cs, inspect) ==> k in t.inserted)
      && |t.graph.vertices| == |cs| + |t.inserted|
      && |t.graph.edges| == Memberships(cs, inspect)
  {
    var t := TopologyOf(cs, orders);
    TopologyWellDrawn(cs, inspect, orders);
    forall k | k in t.inserted ensures k in AllNetworks(cs, inspect) {
      TopologyKeys(cs, inspect, orders, k);
    }
    forall k | k in AllNetworks(cs, inspect) ensures k in t.inserted {
      TopologyKeys(cs, inspect, orders, k);
    }
    TopologyVertexCount(cs, inspect, orders);
    TopologyEdgeCount(cs, inspect, orders);
  }
}
