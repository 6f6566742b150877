/**
 * The parts of a container definition that the environment reporter reads:
 * its direct links, its network mode, its extra networks and whether it is
 * started by hand. A composition is the map from container id to definition,
 * given here as the sequence of its entries in the map's iteration order.
 * Names (container ids, link targets and aliases, network names) are strings
 * in the reporter; they are only ever compared for equality, so the model is
 * generic in their type `N`.
 */
module Containers {
  import opened Wrappers

  /** A direct link to another container: the target's name and the alias it is known by. */
  datatype Link<N> = Link(name: N, alias: N)

  datatype CubeContainer<N> = CubeContainer(
    links: Option<seq<Link<N>>>,
    networkMode: Option<N>,
    networks: Option<seq<N>>,
    manual: bool)

  /** One entry of the composition map. */
  datatype ContainerEntry<N> = ContainerEntry(id: N, container: CubeContainer<N>)

  /** The links of a container; a null link list contributes none. */
  function LinksOf<N>(c: CubeContainer<N>): seq<Link<N>>
  {
    if c.links.Some? then c.links.value else []
  }

  /** The targets of the links `ls`. */
  function LinkNames<N>(ls: seq<Link<N>>): (r: set<N>)
    ensures forall l :: l in ls ==> l.name in r
  {
    if ls == [] then {} else LinkNames(ls[..|ls| - 1]) + {ls[|ls| - 1].name}
  }

  function ContainerIds<N>(cs: seq<ContainerEntry<N>>): (r: set<N>)
    ensures forall e :: e in cs ==> e.id in r
  {
    if cs == [] then {} else ContainerIds(cs[..|cs| - 1]) + {cs[|cs| - 1].id}
  }

  /** Every link target named by any container of the composition. */
  function AllLinkNames<N>(cs: seq<ContainerEntry<N>>): (r: set<N>)
    ensures forall e, l :: e in cs && l in LinksOf(e.container) ==> l.name in r
  {
    if cs == [] then {}
    else
      var init, last := cs[..|cs| - 1], cs[|cs| - 1];
      assert forall e :: e in cs ==> e in init || e == last;
      AllLinkNames(init) + LinkNames(LinksOf(last.container))
  }

  /** The number of links over all containers. */
  function TotalLinks<N>(cs: seq<ContainerEntry<N>>): nat
  {
    if cs == [] then 0 else TotalLinks(cs[..|cs| - 1]) + |LinksOf(cs[|cs| - 1].container)|
  }

  /** Every name in `LinkNames(ls)` is the target of one of the links `ls`. */
  lemma {:induction false} LinkNamesOnly<N>(ls: seq<Link<N>>, x: N)
    requires x in LinkNames(ls)
    ensures exists l :: l in ls && l.name == x
  {
    var init := ls[..|ls| - 1];
    if x != ls[|ls| - 1].name {
      LinkNamesOnly(init, x);
      var l :| l in init && l.name == x;
      assert l in ls;
    }
  }

  /** Every id in `ContainerIds(cs)` is the id of one of the entries `cs`. */
  lemma {:induction false} ContainerIdsOnly<N>(cs: seq<ContainerEntry<N>>, x: N)
    requires x in ContainerIds(cs)
    ensures exists e :: e in cs && e.id == x
  {
    var init := cs[..|cs| - 1];
    if x != cs[|cs| - 1].id {
      ContainerIdsOnly(init, x);
      var e :| e in init && e.id == x;
      assert e in cs;
    }
  }

  /** Every name in `AllLinkNames(cs)` is the target of a link of one of the entries `cs`. */
  lemma {:induction false} AllLinkNamesOnly<N>(cs: seq<ContainerEntry<N>>, x: N)
    requires x in AllLinkNames(cs)
    ensures exists e, l :: e in cs && l in LinksOf(e.container) && l.name == x
  {
    var init, last := cs[..|cs| - 1], cs[|cs| - 1];
    if x in LinkNames(LinksOf(last.container)) {
      LinkNamesOnly(LinksOf(last.container), x);
      assert last in cs;
    } else {
      AllLinkNamesOnly(init, x);
      var e, l :| e in init && l in LinksOf(e.container) && l.name == x;
      assert e in cs;
    }
  }
}
