# Docker environment reporter, modelled in Dafny

This project models the logic of the Arquillian Cube Docker reporter's
`TakeDockerEnvironment` that does not simply call a library. There are three parts.

- **The composition schema.** The reporter walks the container definitions
  of a Docker composition and draws a directed graph. Each container id and
  each link target gets one vertex. A name seen before reuses its vertex
  through the `insertedVertex` map. Each direct link becomes one edge from the
  linking container to the target, labelled with the link's alias.
- **The network topology.** Every container gets a vertex. A container
  that is not started by hand joins a set of networks:
  - its network mode, or, when that is null, the default network mode the
    engine reports for it;
  - plus its extra networks.

  Each network name gets one vertex shared by every container that joins it.
  There is one edge from the container to each network it joins, labelled
  with the network's name.
- **The before/after statistics.** Before a test method, the reporter takes
  each container's statistics into one static snapshot. After the test, it
  takes each container's statistics into another and fires one report per
  container. A report has three groups:
  - memory: usage and maximum usage compared, plus the limit;
  - IO: bytes read and bytes written compared;
  - networks: received and transmitted bytes compared, per adapter.

  Every comparison is the triple "Before Test", "After Test" and "Use"
  (after minus before).

The code's quirks are kept as written:

- The "before" pass overwrites one snapshot for every container, so only
  the last container's snapshot survives. Every report of the "after" pass
  compares its container with that snapshot.
- The networks group reads both the "before" and the "after" adapter maps
  from the snapshot taken before the test. So every adapter is kept, and
  every "Use" in that group is 0.
- An "after" pass with no "before" snapshot dereferences null at the first
  container, after overwriting the "after" snapshot. This is the
  `NullPointer` outcome.

Modules:

- `Containers`: the container definitions.
- `Graphs`: a graph is its sequence of vertex labels and its sequence of
  labelled edges. A vertex is its index, and inserting appends.
- `CompositionSchema`.
- `NetworkTopology`.
- `ContainerStats`: the report groups.
- `StatsCapture`: the class `TakeDockerEnvironment`. It holds the two
  snapshots and the log of fired reports.
- `Wrappers` and `Sequences`: small shared definitions.

Names (container ids, link targets, aliases, network names) are only ever
compared for equality, so the graph builders are generic in their type. The
Java map being iterated is given as the sequence of its entries in
iteration order. A Java `HashSet` or key set iterated by the code is
iterated by choice, and the method returns, as a ghost value, the order in
which it went. The properties are then proved for every such order.

## Model

| member | source | states |
|---|---|---|
| Containers.LinkNames | docker/reporter/src/main/java/org/arquillian/cube/docker/impl/client/reporter/TakeDockerEnvironment.java:323-326 | the target of every link is among the link names |
| Containers.LinkNamesOnly | docker/reporter/src/main/java/org/arquillian/cube/docker/impl/client/reporter/TakeDockerEnvironment.java:323-326 | every link name is the target of some link |
| Containers.ContainerIds | docker/reporter/src/main/java/org/arquillian/cube/docker/impl/client/reporter/TakeDockerEnvironment.java:235-236 | the id of every entry is among the container ids |
| Containers.ContainerIdsOnly | docker/reporter/src/main/java/org/arquillian/cube/docker/impl/client/reporter/TakeDockerEnvironment.java:235-236 | every container id is the id of some entry |
| Containers.AllLinkNames | docker/reporter/src/main/java/org/arquillian/cube/docker/impl/client/reporter/TakeDockerEnvironment.java:321-326 | the target of every link of every container is among the names collected |
| Containers.AllLinkNamesOnly | docker/reporter/src/main/java/org/arquillian/cube/docker/impl/client/reporter/TakeDockerEnvironment.java:321-326 | every name collected is the target of a link of some container |
| CompositionSchema.ConsistentInsert | docker/reporter/src/main/java/org/arquillian/cube/docker/impl/client/reporter/TakeDockerEnvironment.java:312-314 | inserting a vertex for a name not in the map, and mapping the name to it, keeps map and graph in bijection |
| CompositionSchema.ConsistentCount | docker/reporter/src/main/java/org/arquillian/cube/docker/impl/client/reporter/TakeDockerEnvironment.java:304-319 | when map and graph agree, vertex labels are pairwise distinct and there are as many vertices as keys |
| CompositionSchema.LinkEdges | docker/reporter/src/main/java/org/arquillian/cube/docker/impl/client/reporter/TakeDockerEnvironment.java:324-336 | one edge per link of a container |
| CompositionSchema.AllEdges | docker/reporter/src/main/java/org/arquillian/cube/docker/impl/client/reporter/TakeDockerEnvironment.java:235-241 | the schema has as many edges as there are links over all containers, and a null link list counts none |
| CompositionSchema.LinkEdgesAt | docker/reporter/src/main/java/org/arquillian/cube/docker/impl/client/reporter/TakeDockerEnvironment.java:324-336 | the k-th link gives the k-th edge: labelled with its alias, from the container's vertex to the target's vertex |
| CompositionSchema.LinkEdgesStable | docker/reporter/src/main/java/org/arquillian/cube/docker/impl/client/reporter/TakeDockerEnvironment.java:336 | re-putting a name into the map never moves an existing name's vertex, so the edges already drawn stay valid |
| CompositionSchema.AllEdgesStable | docker/reporter/src/main/java/org/arquillian/cube/docker/impl/client/reporter/TakeDockerEnvironment.java:313-314 | the same for the edges of all containers |
| CompositionSchema.EdgeSource | docker/reporter/src/main/java/org/arquillian/cube/docker/impl/client/reporter/TakeDockerEnvironment.java:321-338 | every edge of the schema comes from some link of some container, labelled with its alias, from the container's vertex to the target's |
| CompositionSchema.EdgeOfLink | docker/reporter/src/main/java/org/arquillian/cube/docker/impl/client/reporter/TakeDockerEnvironment.java:321-338 | every link of every container gives an edge of the schema |
| CompositionSchema.AllEdgesMembership | docker/reporter/src/main/java/org/arquillian/cube/docker/impl/client/reporter/TakeDockerEnvironment.java:321-338 | an edge is in the schema if and only if it is the edge of some link, whatever the iteration order |
| CompositionSchema.AddDirectLink | docker/reporter/src/main/java/org/arquillian/cube/docker/impl/client/reporter/TakeDockerEnvironment.java:326-336 | a known link target reuses its vertex and an unknown one gets a new vertex at the end; exactly one edge, labelled with the alias, is appended; map and graph stay in bijection and no existing key moves |
| CompositionSchema.CreateDirectLinks | docker/reporter/src/main/java/org/arquillian/cube/docker/impl/client/reporter/TakeDockerEnvironment.java:321-339 | the map gains exactly the container's link targets; the edges appended are one per link in link order, and none for a null link list |
| CompositionSchema.UpdateGraph | docker/reporter/src/main/java/org/arquillian/cube/docker/impl/client/reporter/TakeDockerEnvironment.java:304-319 | a container already in the map reuses its vertex and a new one gets a new vertex at the end; its links are then drawn from that vertex |
| CompositionSchema.CreateDockerCompositionSchema | docker/reporter/src/main/java/org/arquillian/cube/docker/impl/client/reporter/TakeDockerEnvironment.java:233-241 | the map's keys are exactly the container ids and link targets, each naming the vertex labelled with it; labels are distinct; the vertices are exactly those names; the edges are exactly one per link |
| NetworkTopology.AllNetworks | docker/reporter/src/main/java/org/arquillian/cube/docker/impl/client/reporter/TakeDockerEnvironment.java:264-279 | every network a container joins is among all the networks |
| NetworkTopology.InspectedIds | docker/reporter/src/main/java/org/arquillian/cube/docker/impl/client/reporter/TakeDockerEnvironment.java:268-274 | the engine is asked about no more containers than there are |
| NetworkTopology.InspectedIdsAt | docker/reporter/src/main/java/org/arquillian/cube/docker/impl/client/reporter/TakeDockerEnvironment.java:268-274 | every container the engine is asked about is neither started by hand nor has a network mode of its own |
| NetworkTopology.InspectedIdsOf | docker/reporter/src/main/java/org/arquillian/cube/docker/impl/client/reporter/TakeDockerEnvironment.java:268-274 | every container that is neither started by hand nor has a network mode is asked about |
| NetworkTopology.VisitedKeys | docker/reporter/src/main/java/org/arquillian/cube/docker/impl/client/reporter/TakeDockerEnvironment.java:280-290 | after the networks of a container are visited, the map holds exactly the networks known before and the networks visited |
| NetworkTopology.VisitedCovers | docker/reporter/src/main/java/org/arquillian/cube/docker/impl/client/reporter/TakeDockerEnvironment.java:280-290 | every network visited is in the map afterwards |
| NetworkTopology.VisitedCount | docker/reporter/src/main/java/org/arquillian/cube/docker/impl/client/reporter/TakeDockerEnvironment.java:280-290 | the map grows by exactly the number of networks that were not known |
| NetworkTopology.VisitedValues | docker/reporter/src/main/java/org/arquillian/cube/docker/impl/client/reporter/TakeDockerEnvironment.java:282-286 | a known network keeps its vertex; a new one gets one of the vertices just appended |
| NetworkTopology.VisitedIndexes | docker/reporter/src/main/java/org/arquillian/cube/docker/impl/client/reporter/TakeDockerEnvironment.java:282-289 | each network in the map names the vertex labelled with it, after new network vertices are appended |
| NetworkTopology.EdgesTo | docker/reporter/src/main/java/org/arquillian/cube/docker/impl/client/reporter/TakeDockerEnvironment.java:280-291 | one edge per network visited |
| NetworkTopology.EdgesToStable | docker/reporter/src/main/java/org/arquillian/cube/docker/impl/client/reporter/TakeDockerEnvironment.java:289 | edges already drawn are unaffected by mapping further networks |
| NetworkTopology.EdgesToMembership | docker/reporter/src/main/java/org/arquillian/cube/docker/impl/client/reporter/TakeDockerEnvironment.java:288 | an edge is drawn for a container if and only if it runs from the container's vertex to the vertex of a network it visits, labelled with that network's name |
| NetworkTopology.ConnectNetwork | docker/reporter/src/main/java/org/arquillian/cube/docker/impl/client/reporter/TakeDockerEnvironment.java:281-289 | a network already in the map reuses its vertex and a new one gets a vertex at the end; exactly one edge from the container, labelled with the network, is appended |
| NetworkTopology.ConnectNetworks | docker/reporter/src/main/java/org/arquillian/cube/docker/impl/client/reporter/TakeDockerEnvironment.java:280-291 | every network of the set is visited exactly once, in some order, and the graph and map are the ones that order produces |
| NetworkTopology.CreateNetworkTopologyGraph | docker/reporter/src/main/java/org/arquillian/cube/docker/impl/client/reporter/TakeDockerEnvironment.java:261-293 | the graph and map are the topology of the containers for the network orders taken; each container's network set is its mode or inspected default plus its extra networks, and is empty for a container started by hand; the containers asked about are exactly those without a mode that are not started by hand |
| NetworkTopology.AddContainerKeeps | docker/reporter/src/main/java/org/arquillian/cube/docker/impl/client/reporter/TakeDockerEnvironment.java:264-291 | adding a container keeps every vertex and edge drawn before and every network's vertex |
| NetworkTopology.AddContainerWellDrawn | docker/reporter/src/main/java/org/arquillian/cube/docker/impl/client/reporter/TakeDockerEnvironment.java:264-291 | adding a container keeps networks at vertices labelled with their names and never at a container's vertex |
| NetworkTopology.TopologyWellDrawn | docker/reporter/src/main/java/org/arquillian/cube/docker/impl/client/reporter/TakeDockerEnvironment.java:264-291 | every network in the map sits at a vertex labelled with its name and never at a container's vertex, even one with the same name |
| NetworkTopology.TopologyKeys | docker/reporter/src/main/java/org/arquillian/cube/docker/impl/client/reporter/TakeDockerEnvironment.java:264-291 | the map holds exactly the networks some container joins: one shared vertex per network name |
| NetworkTopology.TopologyContainers | docker/reporter/src/main/java/org/arquillian/cube/docker/impl/client/reporter/TakeDockerEnvironment.java:264-266 | every container gets its own vertex labelled with its id, in iteration order |
| NetworkTopology.TopologyEdgeOwner | docker/reporter/src/main/java/org/arquillian/cube/docker/impl/client/reporter/TakeDockerEnvironment.java:288 | every edge runs from some container's vertex to the vertex of a network that container joins, labelled with that network's name |
| NetworkTopology.TopologyEdgeOf | docker/reporter/src/main/java/org/arquillian/cube/docker/impl/client/reporter/TakeDockerEnvironment.java:280-291 | for every container and every network it joins, that edge is drawn |
| NetworkTopology.TopologyEdgeCount | docker/reporter/src/main/java/org/arquillian/cube/docker/impl/client/reporter/TakeDockerEnvironment.java:280-291 | there is exactly one edge per container and distinct network it joins; containers started by hand add none |
| NetworkTopology.TopologyVertexCount | docker/reporter/src/main/java/org/arquillian/cube/docker/impl/client/reporter/TakeDockerEnvironment.java:264-291 | there is one vertex per container plus one per network |
| NetworkTopology.TopologyShape | docker/reporter/src/main/java/org/arquillian/cube/docker/impl/client/reporter/TakeDockerEnvironment.java:261-293 | the whole topology: networks map to their own labelled vertices, the map's keys are exactly the joined networks, and the vertex and edge counts |
| ContainerStats.GenerateDataCollection | docker/reporter/src/main/java/org/arquillian/cube/docker/impl/client/reporter/TakeDockerEnvironment.java:196-201 | exactly three items, in order: "Before Test" with the value before, "After Test" with the value after, then "Use", which added to the value before gives the value after |
| ContainerStats.MemoryGroup | docker/reporter/src/main/java/org/arquillian/cube/docker/impl/client/reporter/TakeDockerEnvironment.java:145-161 | usage and maximum usage compared between the two snapshots, then the limit, taken from the snapshot before the test only |
| ContainerStats.IoGroup | docker/reporter/src/main/java/org/arquillian/cube/docker/impl/client/reporter/TakeDockerEnvironment.java:128-143 | bytes read and bytes written compared between the two snapshots, and no plain item |
| ContainerStats.AdapterCollections | docker/reporter/src/main/java/org/arquillian/cube/docker/impl/client/reporter/TakeDockerEnvironment.java:174-188 | two collections per adapter |
| ContainerStats.AdapterCollectionsAt | docker/reporter/src/main/java/org/arquillian/cube/docker/impl/client/reporter/TakeDockerEnvironment.java:174-188 | the k-th adapter gives collections 2k and 2k+1: received bytes, then transmitted bytes, compared and placed under the adapter's label |
| ContainerStats.AdapterCollectionsUseZero | docker/reporter/src/main/java/org/arquillian/cube/docker/impl/client/reporter/TakeDockerEnvironment.java:166-188 | when both maps are the same map, every adapter's "Use" is 0 |
| ContainerStats.CollectAdapters | docker/reporter/src/main/java/org/arquillian/cube/docker/impl/client/reporter/TakeDockerEnvironment.java:171-191 | exactly the adapters present in both maps are kept, each once, and each adds its received and transmitted comparisons in iteration order |
| ContainerStats.CreateNetworksGroup | docker/reporter/src/main/java/org/arquillian/cube/docker/impl/client/reporter/TakeDockerEnvironment.java:163-194 | both maps are read from the snapshot before the test, so every adapter of that snapshot is kept, once |
| ContainerStats.NetworksGroupShape | docker/reporter/src/main/java/org/arquillian/cube/docker/impl/client/reporter/TakeDockerEnvironment.java:163-194 | the networks group has two collections per adapter of the snapshot before the test, every "Use" is 0, and it is the same whatever the snapshot after the test holds |
| StatsCapture.Reports | docker/reporter/src/main/java/org/arquillian/cube/docker/impl/client/reporter/TakeDockerEnvironment.java:206-214 | one report per container of the "after" pass |
| StatsCapture.ReportsShape | docker/reporter/src/main/java/org/arquillian/cube/docker/impl/client/reporter/TakeDockerEnvironment.java:431-440 | the i-th report is titled with the i-th container's id and " Statistics"; it has memory, IO and networks groups, in that order; the memory limit comes from the one snapshot before the test, while usage is compared with the container's own statistics; the networks group has "Use" 0 throughout |
| StatsCapture.AfterPassReports | docker/reporter/src/main/java/org/arquillian/cube/docker/impl/client/reporter/TakeDockerEnvironment.java:206-214 | a completed "after" pass keeps the reports fired before it and fires one more per container, in registry order; the i-th is the i-th container's report; the snapshot after the test is the last container's |
| StatsCapture.TakeDockerEnvironment.constructor | docker/reporter/src/main/java/org/arquillian/cube/docker/impl/client/reporter/TakeDockerEnvironment.java:84-85 | both snapshots start absent and nothing has been fired |
| StatsCapture.TakeDockerEnvironment.CreateEntryAndFire | docker/reporter/src/main/java/org/arquillian/cube/docker/impl/client/reporter/TakeDockerEnvironment.java:431-440 | with both snapshots present, exactly one report, titled with the container's id, is appended to the fired reports; with either absent, the null dereference ends it and nothing is fired |
| StatsCapture.TakeDockerEnvironment.CaptureStats | docker/reporter/src/main/java/org/arquillian/cube/docker/impl/client/reporter/TakeDockerEnvironment.java:203-218 | with no executor nothing changes. The "before" pass leaves the last container's statistics as the snapshot before the test and fires nothing. Any other pass keeps that snapshot, leaves the last container's statistics as the snapshot after the test, and fires one report per container in order; with no snapshot before the test, it stops at the first container with the null dereference |

## Left out

- Graph layout and rendering are not modelled: cell sizes and styles, the hierarchical layout, and writing the images. Only the vertex and edge sequences are.
- File-system work is not modelled: directory creation, copying container logs and relativising paths. So `reportContainerLogs` is left out.
- The report builder API and event firing are not modelled. A fired report is appended to a log, and the section it is fired into is not recorded. So `reportDockerEnvironment` and `createDockerInfoGroup`, which only assemble and fire report entries from Docker client calls, are left out.
- The Docker client is a parameter. The statistics call is a function from container id to snapshot, and the inspection call a function from container id to its default network mode. A null executor is an absent value. Both calls are assumed to answer the same way every time they are asked.
- Converting the client's statistics into a snapshot is not modelled. A snapshot is a record of integers, and every adapter in it has received and transmitted byte counts. A null count, which the code would unbox with a null dereference, is not represented.
- Byte formatting and the `decimal` flag are not modelled: a compared value stays the integer it is.
- ContainerStats.GenerateDataCollection: "Use" is computed on unbounded integers, so the Java `long` wrap-around of `afterTest - beforeTest` is not modelled.
- Labels are an enumeration. The strings behind the memory labels and the memory group's title are defined in `DockerEnvironmentReportKey`, which is not part of this model.
- The pass name is a string and cannot be null; a null name, which the code would treat as an "after" pass, is not represented.
- The two static snapshot fields are fields of one `TakeDockerEnvironment` object. Sharing them across several observer instances is not modelled.
- The iteration order of Java hash maps and sets is not modelled. The composition is given as a sequence in iteration order. Network sets and adapter key sets are iterated in an arbitrary order, which the methods return as ghost values.
