/**
 * The before/after statistics bookkeeping of the reporter. Before a test
 * method, each container's statistics overwrite the one snapshot kept before
 * the test; after it, each container's statistics overwrite the one snapshot
 * kept after the test and a statistics report for that container is fired.
 * The Docker client's statistics call is a function parameter, and firing a
 * report appends it to a log.
 */
module StatsCapture {
  import opened Wrappers
  import opened Sequences
  import opened ContainerStats

  /** How a pass ended: normally, or with a null snapshot dereferenced. */
  datatype Outcome = Completed | NullPointer

  /** The snapshot left by overwriting `current` with the statistics of each of `cubes` in turn. */
  function LastStats(cubes: seq<string>, stats: string -> Snapshot, current: Option<Snapshot>): Option<Snapshot>
  {
    if cubes == [] then current else Some(stats(cubes[|cubes| - 1]))
  }

  /** Every adapter order only lists adapters of `before`. */
  predicate Listed(before: Snapshot, orders: seq<seq<string>>)
  {
    forall i, a :: 0 <= i < |orders| && a in orders[i] ==> a in before.networks
  }

  /**
   * The reports of an "after" pass over `cubes`, when the snapshot before the
   * test is `before`: one per container, in the containers' order, its
   * statistics taken by `stats`, the adapters of its networks group iterated
   * in the matching entry of `orders`.
   */
  function Reports(cubes: seq<string>, before: Snapshot, stats: string -> Snapshot, orders: seq<seq<string>>): (r: seq<StatsReport>)
    requires |orders| == |cubes| && Listed(before, orders)
    ensures |r| == |cubes|
  {
    seq(|cubes|, j requires 0 <= j < |cubes| => Report(cubes[j], before, stats(cubes[j]), orders[j]))
  }

  /** An "after" pass over one more container fires one more report, that container's. */
  lemma ReportsAppend(cubes: seq<string>, before: Snapshot, stats: string -> Snapshot, orders: seq<seq<string>>,
                      name: string, order: seq<string>)
    requires |orders| == |cubes| && Listed(before, orders)
    requires forall a :: a in order ==> a in before.networks
    ensures Listed(before, orders + [order])
    ensures Reports(cubes + [name], before, stats, orders + [order])
         == Reports(cubes, before, stats, orders) + [Report(name, before, stats(name), order)]
  {
    forall i, a | 0 <= i < |orders| + 1 && a in (orders + [order])[i] ensures a in before.networks {
      if i < |orders| {
        assert (orders + [order])[i] == orders[i];
      }
    }
  }

  /**
   * The reports of an "after" pass come in the order of the containers, each
   * titled with its container's id; each compares memory usage with that
   * container's statistics but takes the memory limit from the one snapshot
   * before the test, and each networks group lists every adapter of that
   * snapshot twice with "Use" 0.
   */
  lemma ReportsShape(cubes: seq<string>, before: Snapshot, stats: string -> Snapshot, orders: seq<seq<string>>, i: nat)
    requires |orders| == |cubes| && Listed(before, orders)
    requires i < |cubes| && AdapterOrder(before, orders[i])
    ensures var r := Reports(cubes, before, stats, orders)[i];
      && r.title == cubes[i] + " Statistics"
      && |r.groups| == 3
      && r.groups[0].title == MemoryStatistics && |r.groups[0].collections| == 2 && r.groups[0].items == [DataItem(Limit, before.limit)]
      && IsComparison(r.groups[0].collections[0].items, before.usage, stats(cubes[i]).usage)
      && r.groups[1].title == IoStatistics
      && r.groups[2].title == NetworksStatistics && |r.groups[2].collections| == 2 * |before.networks|
      && (forall c :: c in r.groups[2].collections ==> |c.items| == 3 && c.items[2] == DataItem(Use, 0))
  {
    NetworksGroupShape(before, stats(cubes[i]), stats(cubes[i]), orders[i]);
  }

  /**
   * The state after a "before" pass over the containers `done`, started from
   * `before0`, `after0` and `fired0`: the snapshot before the test is the
   * last one taken, nothing else has changed.
   */
  ghost predicate BeforePass(done: seq<string>, stats: string -> Snapshot,
                             before0: Option<Snapshot>, after0: Option<Snapshot>, fired0: seq<StatsReport>,
                             before: Option<Snapshot>, after: Option<Snapshot>, fired: seq<StatsReport>)
  {
    before == LastStats(done, stats, before0) && after == after0 && fired == fired0
  }

  /**
   * The state after an "after" pass over the containers `done` that fired
   * every report, started from `before0`, `after0` and `fired0`: the snapshot
   * after the test is the last one taken, and one report per container has
   * been fired, each from the unchanged snapshot before the test, which must
   * exist unless there was no container.
   */
  ghost predicate AfterPass(done: seq<string>, stats: string -> Snapshot,
                            before0: Option<Snapshot>, after0: Option<Snapshot>, fired0: seq<StatsReport>,
                            before: Option<Snapshot>, after: Option<Snapshot>, fired: seq<StatsReport>,
                            orders: seq<seq<string>>)
  {
    && before == before0
    && after == LastStats(done, stats, after0)
    && |orders| == |done|
    && (before0.None? ==> done == [] && fired == fired0)
    && (before0.Some? ==>
          && Listed(before0.value, orders)
          && (forall j :: 0 <= j < |orders| ==> AdapterOrder(before0.value, orders[j]))
          && fired == fired0 + Reports(done, before0.value, stats, orders))
  }

  /**
   * A completed "after" pass fired one report per container, in the
   * containers' order, after the reports fired before it; the i-th is titled
   * with the i-th container's id and compares that container's statistics
   * with the snapshot before the test.
   */
  lemma AfterPassReports(done: seq<string>, stats: string -> Snapshot,
                         before0: Option<Snapshot>, after0: Option<Snapshot>, fired0: seq<StatsReport>,
                         before: Option<Snapshot>, after: Option<Snapshot>, fired: seq<StatsReport>,
                         orders: seq<seq<string>>, i: nat)
    requires AfterPass(done, stats, before0, after0, fired0, before, after, fired, orders)
    requires i < |done|
    ensures before0.Some? && after == Some(stats(done[|done| - 1]))
    ensures |fired| == |fired0| + |done| && fired[..|fired0|] == fired0
    ensures fired[|fired0| + i] == Report(done[i], before0.value, stats(done[i]), orders[i])
    ensures fired[|fired0| + i].title == done[i] + " Statistics"
  {
    assert (fired0 + Reports(done, before0.value, stats, orders))[|fired0| + i]
        == Reports(done, before0.value, stats, orders)[i];
  }

  lemma AfterPassStep(done: seq<string>, name: string, stats: string -> Snapshot,
                      before0: Option<Snapshot>, after0: Option<Snapshot>, fired0: seq<StatsReport>,
                      fired: seq<StatsReport>, orders: seq<seq<string>>, order: seq<string>)
    requires before0.Some? && AdapterOrder(before0.value, order)
    requires AfterPass(done, stats, before0, after0, fired0, before0, LastStats(done, stats, after0), fired, orders)
    ensures AfterPass(done + [name], stats, before0, after0, fired0, before0, Some(stats(name)),
                      fired + [Report(name, before0.value, stats(name), order)], orders + [order])
  {
    ReportsAppend(done, before0.value, stats, orders, name, order);
  }

  /**
   * The reporter's statistics state: the snapshot taken before the test
   * method, the one taken after it (both absent until first set), and the
   * reports fired so far.
   */
  class TakeDockerEnvironment {
    var statsBeforeMethod: Option<Snapshot>
    var statsAfterMethod: Option<Snapshot>
    var fired: seq<StatsReport>

    constructor ()
      ensures statsBeforeMethod == None && statsAfterMethod == None && fired == []
    {
      statsBeforeMethod := None;
      statsAfterMethod := None;
      fired := [];
    }

    /**
     * Fires the report for the container `name` from the two snapshots:
     * memory, IO and networks groups. A missing snapshot is dereferenced and
     * nothing is fired.
     */
    method CreateEntryAndFire(name: string) returns (outcome: Outcome, ghost order: seq<string>)
      modifies this
      ensures statsBeforeMethod == old(statsBeforeMethod) && statsAfterMethod == old(statsAfterMethod)
      ensures statsBeforeMethod.None? || statsAfterMethod.None? ==> outcome == NullPointer && fired == old(fired)
      ensures statsBeforeMethod.Some? && statsAfterMethod.Some? ==>
        && outcome == Completed
        && AdapterOrder(statsBeforeMethod.value, order)
        && fired == old(fired) + [Report(name, statsBeforeMethod.value, statsAfterMethod.value, order)]
    {
      order := [];
      if statsBeforeMethod.None? || statsAfterMethod.None? {
        return NullPointer, order;
      }
      var before, after := statsBeforeMethod.value, statsAfterMethod.value;
      var memory := MemoryGroup(before, after);
      var io := IoGroup(before, after);
      var networks;
      networks, order := CreateNetworksGroup(before, after);
      fired := fired + [StatsReport(name + " Statistics", [memory, io, networks])];
      outcome := Completed;
    }

    /**
     * Takes the statistics of every container of `cubes`, in order. Without
     * an executor nothing happens. On the "before" pass each container
     * overwrites the snapshot before the test, so the last container's
     * remains. On any other pass each container overwrites the snapshot after
     * the test and fires its report; with no snapshot before the test the
     * first container's report fails and the pass stops there. `orders`
     * records the adapter order of each report fired.
     */
    method CaptureStats(executor: Option<string -> Snapshot>, cubes: seq<string>, when: string)
      returns (outcome: Outcome, ghost orders: seq<seq<string>>)
      modifies this
      ensures executor.None? ==> outcome == Completed && unchanged(this)
      ensures executor.Some? && when == "before" ==>
        && outcome == Completed
        && BeforePass(cubes, executor.value, old(statsBeforeMethod), old(statsAfterMethod), old(fired),
                      statsBeforeMethod, statsAfterMethod, fired)
      ensures executor.Some? && when != "before" && old(statsBeforeMethod).None? && cubes != [] ==>
        && outcome == NullPointer
        && statsBeforeMethod == None && statsAfterMethod == Some(executor.value(cubes[0])) && fired == old(fired)
      ensures executor.Some? && when != "before" && (old(statsBeforeMethod).Some? || cubes == []) ==>
        && outcome == Completed
        && AfterPass(cubes, executor.value, old(statsBeforeMethod), old(statsAfterMethod), old(fired),
                     statsBeforeMethod, statsAfterMethod, fired, orders)
    {
      outcome := Completed;
      orders := [];
      if executor.None? {
        return;
      }
      var stats := executor.value;
      for i := 0 to |cubes|
        invariant when == "before" ==>
          BeforePass(cubes[..i], stats, old(statsBeforeMethod), old(statsAfterMethod), old(fired),
                     statsBeforeMethod, statsAfterMethod, fired)
        invariant when != "before" ==>
          AfterPass(cubes[..i], stats, old(statsBeforeMethod), old(statsAfterMethod), old(fired),
                    statsBeforeMethod, statsAfterMethod, fired, orders)
      {
        var name := cubes[i];
        var statistics := stats(name);
        assert cubes[..i + 1] == cubes[..i] + [name];
        if when == "before" {
          statsBeforeMethod := Some(statistics);
        } else {
          statsAfterMethod := Some(statistics);
          ghost var fired0 := fired;
          var o, order := CreateEntryAndFire(name);
          if o == NullPointer {
            return NullPointer, orders;
          }
          AfterPassStep(cubes[..i], name, stats, old(statsBeforeMethod), old(statsAfterMethod), old(fired), fired0, orders, order);
          orders := orders + [order];
        }
      }
      assert cubes[..|cubes|] == cubes;
    }
  }
}
