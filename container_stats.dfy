/**
 * The per-container statistics report: three groups of data collections
 * comparing a snapshot of the container's resource statistics taken before a
 * test method with one taken after it. Every compared value becomes the
 * triple "Before Test", "After Test" and "Use" (the difference). Byte
 * formatting is not modelled: a value stays the integer it was.
 */
module ContainerStats {
  import opened Wrappers
  import opened Sequences

  /** The received and transmitted byte counts of one network adapter. */
  datatype AdapterStats = AdapterStats(rxBytes: int, txBytes: int)

  /** A snapshot of a container's statistics, with its network adapters by name. */
  datatype Snapshot = Snapshot(
    usage: int,
    maxUsage: int,
    limit: int,
    ioBytesRead: int,
    ioBytesWrite: int,
    networks: map<string, AdapterStats>)

  /**
   * The labels of the report. `Adapter(name)` is the label made for one
   * network adapter, whose parent is the "Adapter" label.
   */
  datatype Label =
    | BeforeTest | AfterTest | Use
    | Usage | MaxUsage | Limit
    | IoBytesRead | IoBytesWrite
    | RxBytes | TxBytes
    | Adapter(name: string)

  datatype DataItem = DataItem(name: Label, value: int)

  /**
   * A nested data collection: its parent label, its items, and the adapter
   * label it was added under, if any.
   */
  datatype Collection = Collection(parent: Label, items: seq<DataItem>, adapter: Option<string>)

  datatype GroupTitle = MemoryStatistics | IoStatistics | NetworksStatistics

  /** A top-level data collection of the report: nested collections, then plain items. */
  datatype StatGroup = StatGroup(title: GroupTitle, collections: seq<Collection>, items: seq<DataItem>)

  /**
   * The comparison of one value before and after the test: the items are
   * labelled "Before Test", "After Test" and "Use" in that order, carry the
   * two values, and the use is what was added between them.
   */
  function GenerateDataCollection(before: int, after: int): (r: seq<DataItem>)
    ensures |r| == 3
    ensures r[0] == DataItem(BeforeTest, before) && r[1] == DataItem(AfterTest, after)
    ensures r[2].name == Use && r[0].value + r[2].value == r[1].value
  {
    [DataItem(BeforeTest, before), DataItem(AfterTest, after), DataItem(Use, after - before)]
  }

  /** The items compare `before` with `after`: the two values, then their difference as the use. */
  predicate IsComparison(items: seq<DataItem>, before: int, after: int)
  {
    && |items| == 3
    && items[0] == DataItem(BeforeTest, before)
    && items[1] == DataItem(AfterTest, after)
    && items[2] == DataItem(Use, after - before)
  }

  /**
   * The memory group: usage and maximum usage compared, then the limit taken
   * from the snapshot before the test alone.
   */
  function MemoryGroup(before: Snapshot, after: Snapshot): (r: StatGroup)
    ensures r.title == MemoryStatistics && |r.collections| == 2
    ensures r.collections[0].parent == Usage && IsComparison(r.collections[0].items, before.usage, after.usage)
    ensures r.collections[1].parent == MaxUsage && IsComparison(r.collections[1].items, before.maxUsage, after.maxUsage)
    ensures r.items == [DataItem(Limit, before.limit)]
  {
    StatGroup(MemoryStatistics,
      [Collection(Usage, GenerateDataCollection(before.usage, after.usage), None),
       Collection(MaxUsage, GenerateDataCollection(before.maxUsage, after.maxUsage), None)],
      [DataItem(Limit, before.limit)])
  }

  /** The IO group: bytes read and bytes written compared. */
  function IoGroup(before: Snapshot, after: Snapshot): (r: StatGroup)
    ensures r.title == IoStatistics && |r.collections| == 2 && r.items == []
    ensures r.collections[0].parent == IoBytesRead && IsComparison(r.collections[0].items, before.ioBytesRead, after.ioBytesRead)
    ensures r.collections[1].parent == IoBytesWrite && IsComparison(r.collections[1].items, before.ioBytesWrite, after.ioBytesWrite)
  {
    StatGroup(IoStatistics,
      [Collection(IoBytesRead, GenerateDataCollection(before.ioBytesRead, after.ioBytesRead), None),
       Collection(IoBytesWrite, GenerateDataCollection(before.ioBytesWrite, after.ioBytesWrite), None)],
      [])
  }

  /**
   * The collections the adapters of `order` contribute, in order: for each,
   * its received bytes compared, then its transmitted bytes compared, both
   * added under the adapter's label, reading `networksBefore` for the values
   * before and `networksAfter` for the values after.
   */
  function AdapterCollections(order: seq<string>, networksBefore: map<string, AdapterStats>,
                              networksAfter: map<string, AdapterStats>): (r: seq<Collection>)
    requires forall a :: a in order ==> a in networksBefore && a in networksAfter
    ensures |r| == 2 * |order|
  {
    if order == [] then []
    else
      var adapter := order[|order| - 1];
      var before, after := networksBefore[adapter], networksAfter[adapter];
      AdapterCollections(order[..|order| - 1], networksBefore, networksAfter)
        + [Collection(RxBytes, GenerateDataCollection(before.rxBytes, after.rxBytes), Some(adapter)),
           Collection(TxBytes, GenerateDataCollection(before.txBytes, after.txBytes), Some(adapter))]
  }

  /**
   * The k-th adapter of `order` contributes the collections at 2k and 2k+1:
   * its received and its transmitted bytes compared, under its label.
   */
  lemma {:induction false} AdapterCollectionsAt(order: seq<string>, networksBefore: map<string, AdapterStats>,
                                                networksAfter: map<string, AdapterStats>, k: nat)
    requires forall a :: a in order ==> a in networksBefore && a in networksAfter
    requires k < |order|
    ensures var r := AdapterCollections(order, networksBefore, networksAfter);
      var adapter := order[k];
      && r[2 * k].parent == RxBytes && r[2 * k].adapter == Some(adapter)
      && IsComparison(r[2 * k].items, networksBefore[adapter].rxBytes, networksAfter[adapter].rxBytes)
      && r[2 * k + 1].parent == TxBytes && r[2 * k + 1].adapter == Some(adapter)
      && IsComparison(r[2 * k + 1].items, networksBefore[adapter].txBytes, networksAfter[adapter].txBytes)
  {
    if k < |order| - 1 {
      var init := order[..|order| - 1];
      AdapterCollectionsAt(init, networksBefore, networksAfter, k);
      assert init[k] == order[k];
    }
  }

  /**
   * When the values after are read from the same map as the values before,
   * every "Use" of every adapter collection is 0.
   */
  lemma {:induction false} AdapterCollectionsUseZero(order: seq<string>, networks: map<string, AdapterStats>)
    requires forall a :: a in order ==> a in networks
    ensures forall c :: c in AdapterCollections(order, networks, networks) ==> |c.items| == 3 && c.items[2] == DataItem(Use, 0)
  {
    if order != [] {
      AdapterCollectionsUseZero(order[..|order| - 1], networks);
    }
  }

  /**
   * The networks group as the code builds it, once the adapters have been
   * iterated in `order`: both the map of values before and the map of values
   * after are read from the snapshot before the test, and `after` is not read.
   */
  function NetworksGroupOf(before: Snapshot, after: Snapshot, order: seq<string>): StatGroup
    requires forall a :: a in order ==> a in before.networks
  {
    StatGroup(NetworksStatistics, AdapterCollections(order, before.networks, before.networks), [])
  }

  /** `order` lists each adapter of the snapshot once. */
  ghost predicate AdapterOrder(before: Snapshot, order: seq<string>)
  {
    && Distinct(order)
    && (forall a :: a in order ==> a in before.networks)
    && (forall a :: a in before.networks ==> a in order)
  }

  /**
   * The networks group compares every adapter of the snapshot before the test
   * with itself: one received and one transmitted collection per adapter,
   * each with "Use" 0, whatever the snapshot after the test holds.
   */
  lemma NetworksGroupShape(before: Snapshot, after: Snapshot, after': Snapshot, order: seq<string>)
    requires AdapterOrder(before, order)
    ensures var g := NetworksGroupOf(before, after, order);
      && g.title == NetworksStatistics && g.items == []
      && |g.collections| == 2 * |before.networks|
      && (forall c :: c in g.collections ==> |c.items| == 3 && c.items[2] == DataItem(Use, 0))
      && g == NetworksGroupOf(before, after', order)
  {
    AdapterCollectionsUseZero(order, before.networks);
    DistinctCount(order, before.networks.Keys);
  }

  /**
   * The adapters of `networksBefore`, iterated in the map's key order, that
   * are present in both maps each add their received and transmitted
   * collections; `order` records the adapters kept, in the order they came.
   */
  method CollectAdapters(networksBefore: map<string, AdapterStats>, networksAfter: map<string, AdapterStats>)
    returns (collections: seq<Collection>, ghost order: seq<string>)
    ensures Distinct(order)
    ensures forall a :: a in order ==> a in networksBefore && a in networksAfter
    ensures forall a :: a in networksBefore && a in networksAfter ==> a in order
    ensures collections == AdapterCollections(order, networksBefore, networksAfter)
  {
    collections := [];
    var todo := networksBefore.Keys;
    order := [];
    while todo != {}
      invariant todo <= networksBefore.Keys
      invariant forall a :: a in order ==> a in networksBefore && a in networksAfter
      invariant forall a :: a in networksBefore && a in networksAfter ==> a in todo || a in order
      invariant forall i :: 0 <= i < |order| ==> order[i] !in todo
      invariant Distinct(order)
      invariant collections == AdapterCollections(order, networksBefore, networksAfter)
      decreases todo
    {
      var adapter :| adapter in todo;
      if adapter in networksBefore && adapter in networksAfter {
        var b, a := networksBefore[adapter], networksAfter[adapter];
        var rx := Collection(RxBytes, GenerateDataCollection(b.rxBytes, a.rxBytes), Some(adapter));
        var tx := Collection(TxBytes, GenerateDataCollection(b.txBytes, a.txBytes), Some(adapter));
        collections := collections + [rx, tx];
        assert (order + [adapter])[..|order|] == order;
        order := order + [adapter];
      }
      todo := todo - {adapter};
    }
  }

  /**
   * Builds the networks group. Both the map of values before and the map of
   * values after are read from the snapshot before the test, so the filter
   * keeps every adapter and `after` plays no part.
   */
  method CreateNetworksGroup(before: Snapshot, after: Snapshot) returns (g: StatGroup, ghost order: seq<string>)
    ensures AdapterOrder(before, order)
    ensures g == NetworksGroupOf(before, after, order)
  {
    var networksBeforeTest := before.networks;
    var networksAfterTest := before.networks;
    var collections;
    collections, order := CollectAdapters(networksBeforeTest, networksAfterTest);
    g := StatGroup(NetworksStatistics, collections, []);
  }

  /** The report fired for one container: its title, then the memory, IO and networks groups. */
  datatype StatsReport = StatsReport(title: string, groups: seq<StatGroup>)

  /** The report for the container `name`, the networks group's adapters iterated in `order`. */
  function Report(name: string, before: Snapshot, after: Snapshot, order: seq<string>): StatsReport
    requires forall a :: a in order ==> a in before.networks
  {
    StatsReport(name + " Statistics", [MemoryGroup(before, after), IoGroup(before, after), NetworksGroupOf(before, after, order)])
  }
}
