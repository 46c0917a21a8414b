# A verified model of the yloc topology graph

yloc collects what several libraries know about a machine into one multigraph and answers queries on it. This
project models that graph in Dafny: the identifier-keyed multigraph itself, the modules that build it (hwloc,
SuperMUC, MPI, NVML, ROCm), the run of all modules in `init`, and the queries that work on the result (property
lookup, the breadth-first distance vector, the descent to the lowest vertex containing a cpu mask, and the
nearest-PU search of the example program).

Check it with `dafny verify dfyconfig.toml`.

## How the model is laid out

`Topology.Graph` is the source's class, with its fields and mutating methods. `Topology.Snapshot` is the value of
such a graph at one moment. Every builder is a method that mutates a `Graph` in the source's order of operations,
proved equal to a function on snapshots; the theorems are about those functions.

| file | models |
|---|---|
| `Topology.dfy`, `Invariants.dfy` | the graph class; what every module step keeps: converse pairs of edges, and the facts about names and masks that make descents terminate |
| `Affinity.dfy`, `Properties.dfy`, `Identity.dfy`, `Components.dfy`, `Sorting.dfy` | masks, adapters and property lookup, PCI address packing and identifiers, component types, `std::sort` with ties left open |
| `Hwloc.dfy`, `HwlocInvariants.dfy`, `HwlocTree.dfy`, `HwlocVertices.dfy`, `HwlocLooks.dfy` | the recursive walk of the object tree, the image it builds on the empty and on any graph, and what it makes of the vertices it finds |
| `Supermuc.dfy`, `SupermucTrie.dfy`, `SupermucQueries.dfy` | the truncating hostname loop, the trie it builds, conservation and distances |
| `SupermucNames.dfy`, `SupermucStep.dfy`, `SystemLinks.dfy` | what accepted names mean for the trie, and the step on a graph other modules have built |
| `Mpi.dfy`, `Placement.dfy` | the rank loop, where every rank ends up, and why no rank's place depends on other ranks |
| `Gpu.dfy`, `GpuVertices.dfy` | device association, what a device's vertex answers, and pairwise interconnects of the two GPU modules |
| `Runs.dfy`, `Growth.dfy`, `StepNames.dfy`, `Outcomes.dfy` | any sequence of module steps: what every step keeps, which names it binds, and what it still shows at the end |
| `Init.dfy`, `InitPlaces.dfy` | `init`, what the graph shows after it, and the way from there to the place of a rank |
| `Shapes.dfy`, `HwlocPlanting.dfy`, `ShapeSteps.dfy` | the shape every run's graph has, whatever the order of the steps: the object tree stands in it unchanged, and who made an edge can be told from names |
| `Paths.dfy`, `Traversal.dfy`, `Bfs.dfy`, `Forests.dfy`, `ParentArrays.dfy` | hop distance, the traversal that computes it, why its result is unique, and closed distance formulas in forests |
| `Descent.dfy`, `Ties.dfy`, `FindDistances.dfy` | the queries, and when they return what they are for |
| `HwlocDescent.dfy`, `HwlocTies.dfy` | the descent on any graph that contains a machine's object tree |
| `HwlocQueries.dfy`, `HwlocSearch.dfy` | distances and the nearest-PU search on one machine |
| `RunQueries.dfy`, `OrderDecides.dfy` | the descent and the search after any run, and an input on which the order of two module steps decides |

A bit mask is the set of its bits. An edge list in insertion order stands for Boost's adjacency lists: the out-edges
of a vertex, as Boost enumerates them, are the edges with that source, in order. `std::sort` is an arbitrary function
from key sequences to sorting permutations (`Sorting.SortOrder`), so results hold for every way of breaking ties.
What the libraries return (object tree, hostname buffers, cpu sets, device lists, link predicate) are parameters.

## Where the code falls short

Some properties that the code suggests hold only under a condition. For each, the model keeps the code, names an input
on which the property fails, and proves exactly when it holds.

* **Globally lowest vertex.** For nested masks on a tree the descent ends at a vertex that lies below every other one
  containing the query whenever there is such a vertex (`Descent.LowestIsFound`), which is exactly when the root
  contains the query and no two siblings both do (`Descent.LowestIffRivalFree`). Masks are nested where hwloc's
  cpusets are, whatever other modules have added: after any run the descent ends at the lowest object of hwloc's tree
  exactly when the machine contains the query and no two sibling objects do (`HwlocDescent.DescentOnTree`,
  `RunQueries.DescentInRun`).
* **Fewest bits.** hwloc hangs memory beside normal objects with the same cpuset, so siblings do both contain a query,
  and the sort by bit count is there to find a smallest object. For one way of breaking ties it does exactly when the
  root contains the query and no pick on the way passes over a vertex smaller than all below the pick
  (`Ties.LeastIff`, `HwlocTies.LeastOnTree`); for every way, where of two siblings that contain the query one is flat,
  exactly when no way of the descent misses a smaller vertex below a sibling (`Ties.LeastForEveryOrderIff`,
  `HwlocTies.LeastForEveryOrderOnTree`). `HwlocTies.TiesDecide` gives a machine with a cache and a NUMA node of equal
  cpuset on which one order of the ties leads to the PU and another to the memory of the package.
* **A result that contains the query.** The start vertex is never tested. The result contains the query exactly when
  the start vertex or one of its children does (`Descent.ResultHoldsIff`). `Runs.FirstRankDecides` gives a run in
  which the root has no mask, since the hwloc step has failed and vertex 0, the default root, is the machine of the
  first rank.
* **Placement independent of other ranks.** Every rank is hung where the graph before the loop would have put it
  (`Placement.PlacementIsStable`). That vertex has the same names in two runs of the loop exactly when the graph has a
  root vertex or the same host comes first (`Placement.NobodyMoves`); `Runs.FirstRankDecides` is again the input.
* **Nearest PUs.** The distance vector holds 0 at unreachable vertices, so the search prints unreachable PUs as
  nearest. It prints exactly the nearest ones if and only if every PU is reachable
  (`FindDistances.PrintsNearestIffAllReachable`). After any run of the modules in any order that is so if and only if
  the first accelerator is an object of hwloc's tree or joined to one by interconnects (`RunQueries.SearchInRun`).
  Where the GPU step runs after hwloc, the first accelerator is in the tree if any is, so the search is exact if and
  only if some GPU is an object of the tree (`HwlocSearch.SearchExactIff`; `HwlocSearch.HiddenGpu` is a machine where
  none is). But all these modules run FIRST, and `std::sort` leaves their order open: `OrderDecides.OrderMatters`
  gives a machine with a hidden and a listed GPU on which the search is exact in one order and wrong in the other.
  With an accelerator but no PU the source reads past an empty range; this is an outcome of its own in
  `FindDistances.Search`.
* **Host names.** The check accepts names outside the SuperMUC convention, because the scan takes one digit where the
  convention has two and ignores what follows (`Supermuc.AcceptedButNotConforming`). A rank joins the exchange of
  names only after its own name has passed, so the graph is always a trie of accepted names
  (`SupermucTrie.SupermucIsTrie`; `SupermucStep.StepAddsTrie` on a graph of other modules). Its levels are island,
  rack and column as scanned exactly when the letters stand where the convention has them
  (`SupermucNames.CutsArePartsIff`); the vertex of a rack stands for it exactly unless island and rack have one digit
  each (`SupermucNames.RackIsExactIff`), that of a column exactly if the scan ends the column at most one character
  before the cut (`SupermucNames.ColumnIsExactIff`); `SupermucNames.OneRackTwoVertices` is an input.
* **Custom properties.** `get<std::string>` may show another adapter's value than the typed `get` does
  (`Properties.TextShowsAnotherValue`); they agree exactly when the first adapter with a textual value declares it at
  the requested type (`Properties.TextAgreesForCustom`). No adapter of the repository overrides `module_map`, so such
  an input comes from a module outside it. For predefined properties both always agree.

The mask's constructor from an hwloc bitmap leaves the null bitmap open; the hwloc adapter never passes one.

## Model

| member | source | states |
|---|---|---|
| `Topology.Graph.constructor` | src/include/yloc/graph.h:26 | a new graph is empty |
| `Topology.Graph.AddVertex` | src/include/yloc/graph.h:45-48 | the call appends one blank vertex, returns its descriptor, and changes nothing else |
| `Topology.Graph.AddNamedVertex` | src/include/yloc/graph.h:58-67 | a known identifier returns its vertex and changes nothing; a new one is bound to a new vertex |
| `Topology.Graph.SetRootVertex` | src/include/yloc/graph.h:104-107 | only the root changes |
| `Topology.VertexCount` | src/include/yloc/graph.h:45-67 | after every call history exactly the names used are bound, injectively, to valid descriptors, and the vertex count is the unnamed calls plus the distinct names |
| `Topology.NamesStay` | src/include/yloc/graph.h:58-67 | no continuation of a history re-binds a name |
| `Affinity.ContainmentIsInclusion` | src/include/yloc/affinity.h:99-107 | the bitwise test is the subset order, and the population count is strictly monotone for it |
| `Affinity.FromCpuSet` | src/include/yloc/affinity.h:31-36 | the loop keeps exactly the online part of the cpu set |
| `Affinity.ToCpuSet` | src/include/yloc/affinity.h:64-74 | the loop writes back exactly the online part of the mask |
| `Affinity.CpuSetRoundTrip` | src/include/yloc/affinity.h:31-74 | conversion there and back is lossless iff every cpu is online, and always idempotent |
| `Properties.Get` | src/include/yloc/graph_element.h:25-57 | the two-branch search with early return computes the lookup function |
| `Properties.GetString` | src/include/yloc/graph_element.h:80-108 | the textual search renders the value of the textual lookup |
| `Properties.LookupFindsFirstOffer` | src/include/yloc/graph_element.h:26-57 | the result is the value of the first adapter offering one at the requested type; absent iff none does |
| `Properties.FirstWins` | src/include/yloc/graph_element.h:26-62 | appended adapters never change a value already present, and supply exactly the missing ones |
| `Properties.TextAgreesForPredefined` | src/include/yloc/graph_element.h:81-93 | for a predefined property the textual lookup is present iff the typed one is, with the same adapter's value |
| `Properties.TextAgreesForCustom` | src/include/yloc/graph_element.h:95-106 | for a custom property the two agree iff the first adapter with a textual value declares it at the requested type |
| `Properties.TextShowsAnotherValue` | src/include/yloc/graph_element.h:95-106 | two adapters on which the textual and the typed lookup of a custom property return different values |
| `Properties.CpuMaskAppend` | src/include/yloc/graph_element.h:26-62 | the mask of a vertex after one more adapter |
| `Properties.PredefinedAnswers` | src/include/yloc/modules/adapter.h:33-55 | an adapter is heard under a predefined name at one type only: signed for the temperature, a mask for the cpu affinity mask, unsigned for all others |
| `Properties.GettersAnswer` | src/include/yloc/modules/adapter.h:33-55 | every getter is asked under its own name |
| `Components.YlocType` | modules/hwloc/init_graph.cc:25-128 | only PCI objects become PCI devices, only PUs logical cores; no hwloc object becomes a rank, an accelerator or untyped |
| `Components.TypeOfObject` | modules/hwloc/init_graph.cc:51-128 | the component of every object type, one by one, caches by level |
| `Components.Classes` | src/include/yloc/component_types.h:154-161 | which components are accelerators, PCI devices, logical cores and ranks |
| `Identity.PackRoundTrip` | modules/hwloc/hwloc_adapter.h:51-56 | decoding inverts packing exactly on the addresses whose fields fit |
| `Identity.UnpackedFields` | modules/rocm/rocm_util.h:36-45 | decoded fields are in range; re-packing returns the number iff the unused sixteen bits are clear |
| `Identity.NvmlIsFunctionZero` | modules/nvml/nvml_util.h:34-39 | NVML's packing is the common one with function zero |
| `Identity.IdKinds` | src/include/yloc/graph.h:58-67 | the prefixes machine:, system:, mpi_rank: and bdfid: never collide |
| `Identity.IdsInjective` | modules/hwloc/init_graph.cc:147 | within a family, distinct components have distinct identifiers; in particular decimal printing of 64-bit words is injective |
| `Identity.DecimalReads` | modules/mpi/init_graph.cc:38 | what is printed are digits that, read again, denote the number, without leading zeros |
| `Identity.IdsRead` | modules/mpi/init_graph.cc:38 | the identifiers of ranks and devices end in the rank and in the packed address |
| `Identity.DeviceIdsMeet` | modules/nvml/nvml_impl.cc:118 | for in-range fields, hwloc and ROCm identifiers agree iff the addresses do; hwloc and NVML ones iff domain, bus and device agree and hwloc's function is zero |
| `Sorting.FrontIsLeast` | src/util.cc:36-41 | whatever the ties, the front element has a least key |
| `Sorting.ArrangeKeepsElements` | src/init.cc:18-20 | sorting loses and adds no element |
| `Sorting.InsertionOrderSorts` | src/util.cc:36-39 | an order as std::sort promises exists, so the hypothesis on orders can be met |
| `Sorting.SomeOrderPrefers` | src/util.cc:36-39 | of elements with a least key, any one is put first by some such order |
| `Hwloc.MakeHwlocGraph` | modules/hwloc/init_graph.cc:138-171 | the mutating recursive loop builds what the walk function describes, for every object tree and start graph |
| `Hwloc.AddChild` | modules/hwloc/init_graph.cc:143-166 | one turn of the loop, by identifier or on a fresh vertex, with one edge each way; what it makes of the vertex is `HwlocLooks.StepStaysSet` and `HwlocLooks.ObjectsLook` |
| `Hwloc.InitGraph` | modules/hwloc/init_graph.cc:221-241 | the root set-up followed by the walk |
| `Hwloc.PreorderIsTree` | modules/hwloc/init_graph.cc:138-171 | the list of slots is the tree: under each position stand exactly its object's children, in order |
| `Hwloc.WalkIsBuild` | modules/hwloc/init_graph.cc:138-171 | the recursive walk equals one pass over the preorder list |
| `Hwloc.BuildEdges` | modules/hwloc/init_graph.cc:165-166 | the edges added are, in order, one CHILD and one PARENT edge per slot and its parent, nothing else |
| `Hwloc.SharedVertex` | modules/hwloc/init_graph.cc:146-152 | two objects share a vertex iff both are PCI devices with equal packed addresses |
| `Hwloc.TreeImage` | modules/hwloc/init_graph.cc:138-171 | on any valid graph, the result is the image of the tree: edges exactly the parent/child pairs, sharing exactly for equal devices, other objects on fresh vertices with descriptors above their parents' |
| `HwlocInvariants.SubtreeKeeps` | modules/hwloc/init_graph.cc:138-171 | the walk keeps the run invariants on any graph satisfying them |
| `HwlocInvariants.HwlocInitKeeps` | modules/hwloc/init_graph.cc:210-242 | so does the whole hwloc step |
| `HwlocTree.FreshMachine` | modules/hwloc/init_graph.cc:221-241 | with distinct devices and an empty graph, vertex i is the object at preorder position i with exactly its adapter, and the edges are exactly the tree's |
| `HwlocTree.VertexIsObject` | modules/hwloc/init_graph.cc:154-164 | mask, type and description of such a vertex are the object's |
| `HwlocTree.ObjectAnswers` | modules/hwloc/hwloc_adapter.h:22-67 | an object's vertex answers its size iff it is a data or instruction cache, a NUMA node or a memory-side cache, its bdfid iff it is a PCI device, its cpuset, and nothing else |
| `HwlocTree.SameBdfidSameAddress` | modules/hwloc/hwloc_adapter.h:49-59 | in-range devices answer the same bdfid iff their addresses are equal |
| `HwlocLooks.StepStaysSet` | modules/hwloc/init_graph.cc:154-164 | on any graph, whatever devices share a vertex: a description or type once set stays, adapters stay in front; only the machine's vertex is renamed, to the host name |
| `HwlocLooks.ObjectsLook` | modules/hwloc/init_graph.cc:154-164 | on any graph, devices being distinct: an object's vertex has the description and type it had, or the object's where there was none, and the object's adapter behind those it had |
| `Supermuc.TruncateInPlace` | modules/supermuc/init_graph.cc:53-59 | a NUL at position k of the buffer leaves the first k characters of the string |
| `Supermuc.CStringEnds` | modules/supermuc/init_graph.cc:41-47 | a buffer denotes what stands before its first NUL |
| `Supermuc.Truncate` | modules/supermuc/init_graph.cc:53-59 | the in-place write truncates one row and leaves all other rows alone |
| `Supermuc.AcceptedIffConforming` | modules/supermuc/init_graph.cc:99-111 | conforming names are accepted; an accepted name conforms iff four named positions do |
| `Supermuc.AcceptedIff` | modules/supermuc/init_graph.cc:99-111 | accepted are exactly the names of 12 characters that begin with i, r, c, s, each followed by one or two of the ten digits |
| `Supermuc.AcceptedButNotConforming` | modules/supermuc/init_graph.cc:106-111 | a concrete accepted name outside the convention |
| `Supermuc.MakeNode` | modules/supermuc/init_graph.cc:15-22 | interns, retypes, renames, and appends one adapter; no other name moves |
| `Supermuc.Link` | modules/supermuc/init_graph.cc:64-69 | both edges are added iff no edge leads from parent to child yet |
| `Supermuc.AddOneHost` | modules/supermuc/init_graph.cc:41-84 | one turn of the loop, with the buffer truncated three times in place, adds the host's four prefixes and three links |
| `Supermuc.MakeSupermucGraph` | modules/supermuc/init_graph.cc:31-85 | the loop over the buffer adds the hosts in turn |
| `Supermuc.InitGraph` | modules/supermuc/init_graph.cc:87-116 | the graph changes iff MPI runs and the own name passes both checks |
| `SupermucTrie.HasEdgeIffLinked` | modules/supermuc/init_graph.cc:64-83 | the untyped edge test finds exactly the link it looks for |
| `SupermucTrie.SupermucIsTrie` | modules/supermuc/init_graph.cc:41-84 | for every list of 12-character names the graph is exactly their trie: one vertex per prefix, one edge each way per prefix and parent, one adapter per rank and level, which shows the part's name and answers no property |
| `SupermucTrie.OneParent` | modules/supermuc/init_graph.cc:64-83 | every vertex below the islands has exactly its parent prefix as parent, and islands have none |
| `SupermucQueries.AdaptersAreConserved` | modules/supermuc/init_graph.cc:48-60 | each island, rack and column carries the sum of its children's adapter counts |
| `SupermucQueries.AncestorsArePrefixes` | modules/supermuc/init_graph.cc:41-84 | ancestry in the graph is the prefix order of names |
| `SupermucQueries.HostDistance` | modules/supermuc/init_graph.cc:47-83 | hosts sharing exactly k levels are 2(4-k) hops apart for k = 1..3 and unreachable from each other for k = 0 |
| `SupermucNames.CutsArePartsIff` | modules/supermuc/init_graph.cc:47-59 | the cuts after 3, 6 and 9 characters are the ends of island, rack and column as scanned iff the letters stand at 3, 6 and 9 |
| `SupermucNames.RackIsExactIff` | modules/supermuc/init_graph.cc:56-57 | all accepted names of one rack have the same rack vertex's prefix iff the scan does not end the rack after four characters |
| `SupermucNames.ColumnIsExactIff` | modules/supermuc/init_graph.cc:52-53 | all accepted names of one column have the same column vertex's prefix iff the scan ends the column after eight or nine characters |
| `SupermucNames.HostsShareVertices` | modules/supermuc/init_graph.cc:47-60 | hosts share an island's vertex iff they have the same island; rack's and column's too, for the names on which these parts are exact |
| `SupermucNames.OneRackTwoVertices` | modules/supermuc/init_graph.cc:56-57 | two accepted hosts of one rack whose rack has two vertices |
| `SupermucStep.StepAddsTrie` | modules/supermuc/init_graph.cc:31-85 | for any 12-character names, on any valid graph without network components, the step adds a copy of the trie, slots being the machines already there, and changes nothing else |
| `SupermucStep.HostsShareCopies` | modules/supermuc/init_graph.cc:31-85 | on such a graph, accepted hosts share the vertices of island, rack and column as they do on the empty one |
| `SupermucStep.NoFartherThanInTrie` | modules/supermuc/init_graph.cc:64-83 | in that graph hosts are at most as far apart as in the trie |
| `Mpi.SetUpOneRank` | modules/mpi/init_graph.cc:37-49 | node and rank vertex are interned, and the rank is given its type, adapter and mask before it is linked; which mask is `Placement.RanksAreSettled` |
| `Mpi.AddOneRank` | modules/mpi/init_graph.cc:36-56 | one turn of the loop hangs the rank under its place by one edge each way; which place is `Placement.RanksAreSettled` |
| `Mpi.MakeMpiGraph` | modules/mpi/init_graph.cc:21-57 | the loop places the ranks in turn on any graph that satisfies the run invariants |
| `Mpi.AddRankKeeps` | modules/mpi/init_graph.cc:36-56 | placing a rank keeps the run invariants and the pairing of edges |
| `Placement.RankAnswers` | modules/mpi/mpi_adapter.h:22-38 | a rank's vertex answers its number, and a mask iff it is not empty |
| `Placement.SameDescent` | src/util.cc:27 | the descent does not see what the rank loop has added |
| `Placement.RanksAreSettled` | modules/mpi/init_graph.cc:36-56 | each rank's vertex is typed, has no description and one adapter, which shows and answers its number; it has a mask iff it runs on the own node and may use an online cpu, and then exactly its online cpus; without one it hangs under its machine, with one where the descent on the graph before ends, and under nothing else |
| `Placement.PlacementIsStable` | modules/mpi/init_graph.cc:36-56 | on every graph satisfying the run invariants, each rank is hung, by exactly two edges, where the graph before the loop would have put it |
| `Placement.NobodyMoves` | modules/mpi/init_graph.cc:36-56 | permuting ranks or adding others leaves a local rank's descriptor, and its vertex has the same names iff the graph had a root vertex or the same host comes first |
| `Placement.WithoutMasks` | src/util.cc:44-48 | where no vertex has a mask every local rank is hung under the root vertex, which does not contain its mask |
| `Runs.FirstRankDecides` | modules/hwloc/init_graph.cc:212-215 | a run after a failed hwloc step in which a local rank is hung under the machine of whichever host comes first |
| `Gpu.AddOneDevice` | modules/rocm/rocm_impl.cc:117-128 | the device's identifier is interned and its vertex becomes a GPU with one more adapter; what it answers is `GpuVertices.DevicesAnswer` |
| `Gpu.InitGraph` | modules/rocm/rocm_impl.cc:84-135 | the device loop, then the interconnects |
| `Gpu.DevicesAssociated` | modules/nvml/nvml_impl.cc:99-124 | every device's vertex is the one its identifier names, a GPU, with the device's adapter behind the adapters it had; all other vertices, names and edges are untouched |
| `GpuVertices.DevicesAnswer` | modules/rocm/rocm_impl.cc:117-128 | on any graph the vertex of a listed address answers this address, unless it answered one before; ROCm describes it by the last such device, NVML leaves the description alone; addresses not listed are left alone |
| `GpuVertices.DeviceAdapterAnswers` | modules/rocm/rocm_adapter.h:71-78 | a device's adapter is called as the device is and answers its address and nothing else |
| `Gpu.GpuInterconnect` | modules/nvml/nvml_impl.cc:23-81 | the pair loop adds two edges for each counted interconnect |
| `Gpu.InterconnectRow` | modules/nvml/nvml_impl.cc:28-78 | the inner loop adds the row of one device |
| `Gpu.LinkEdgesHave` | modules/rocm/rocm_impl.cc:24-63 | an edge is added iff it joins two linked devices, in either direction |
| `Gpu.InterconnectCount` | modules/rocm/rocm_impl.cc:22-64 | the count returned is the number of linked pairs |
| `Gpu.GpuInitKeeps` | modules/nvml/nvml_impl.cc:99-126 | the GPU steps keep the run invariants and the pairing of edges |
| `Gpu.DevicesMeetObjects` | modules/rocm/rocm_impl.cc:117-119 | on an hwloc-built graph a device meets the vertex of a PCI object iff the addresses agree (NVML: three fields agree and the function is zero), and no other object |
| `Invariants.PairedIsSymmetric` | modules/hwloc/init_graph.cc:165-166 | paired edges make the graph symmetric |
| `Invariants.InvMeansAscending` | src/util.cc:23-41 | the invariant on names and masks implies that CHILD edges between masked vertices ascend |
| `Runs.RunStepKeeps` | src/init.cc:22-27 | every module step keeps the invariants |
| `Runs.RunsAreSymmetric` | src/include/yloc/query.h:84-89 | after any sequence of steps CHILD and converse PARENT edges have equal multiplicity, interconnects are symmetric, and hop distance is symmetric |
| `Runs.RunsAscend` | src/util.cc:23-41 | after any sequence of steps the descent's termination measure falls |
| `Growth.AddRanksGrows` | modules/mpi/init_graph.cc:36-56 | the MPI step keeps names, adapters and edges where they are, and adds no direct connection |
| `Growth.HwlocInitGrows` | modules/hwloc/init_graph.cc:210-242 | so does the hwloc step, which also leaves ranks alone |
| `SystemLinks.FoundIsLinked` | modules/supermuc/init_graph.cc:64-83 | in every graph a run reaches, an edge of any type found from a network component to what hangs under it means that both links are there |
| `SystemLinks.AddHostsLink` | modules/supermuc/init_graph.cc:41-84 | on such a graph, after the SuperMUC step every host's four identifiers are bound and linked by CHILD and PARENT edges |
| `StepNames.RunBinds` | src/init.cc:22-27 | after any run exactly the names are bound of the components that some step has been told of |
| `Outcomes.StepLooks` | src/init.cc:22-27 | what a hwloc or GPU step makes of descriptions, types and answers, on any graph a run reaches |
| `Outcomes.RunShows` | src/init.cc:22-27 | at the end of any run every step still shows what it added: the tree with every object's adapter, every host linked, every rank typed and hung, every device named and every linked pair joined |
| `Outcomes.RunConnects` | modules/rocm/rocm_impl.cc:24-63 | at the end of any run the direct connections are exactly those between linked devices of some GPU step |
| `Outcomes.RanksSettleInRun` | modules/mpi/init_graph.cc:36-56 | at the end of a run with one MPI step each rank is settled where the descent leads on the graph of the earlier steps |
| `Init.SortModules` | src/init.cc:18-20 | the same modules, every FIRST one before every SECOND one |
| `Init.Init` | src/init.cc:14-29 | init runs the enabled modules in sorted order; at the end every enabled module shows what it adds, and every name and direct connection stems from an enabled module |
| `InitPlaces.RanksFindTheirPlace` | modules/mpi/interface_impl.h:10 | after init with hwloc FIRST and MPI SECOND, whatever other modules run, each local rank with an online cpu hangs under an object of the machine's tree, the lowest one iff the machine contains its mask and no two siblings do |
| `Paths.DistanceIsSymmetric` | src/include/yloc/query.h:83-89 | in a symmetric graph hop distance and reachability are symmetric |
| `Bfs.TreeEdge` | src/include/yloc/query.h:48-53 | the visitor's write gives the discovered vertex the callback folded along its tree path, keeps every other value, and so keeps the vector right for the larger tree |
| `Bfs.BfsDistanceVector` | src/include/yloc/query.h:70-81 | for any callback: discovered means reachable, each entry is the callback folded along a path of minimum hop count, unreachable entries keep the zero value, and each entry but the start is written exactly once; of several shortest paths it takes the one it comes to first, in the order of discovery and of insertion |
| `Traversal.HistoryIsInOrder` | src/include/yloc/query.h:79 | the queue and the scan in insertion order keep this at every step |
| `Traversal.TraversalIsDetermined` | src/include/yloc/query.h:79 | start and edges determine the tree and the order of discovery |
| `Bfs.ResultIsUnique` | src/include/yloc/query.h:70-81 | graph, start, callback and zero value determine the vector, the tree and the order of the writes |
| `Bfs.LevelsAreMinimal` | src/include/yloc/query.h:79 | in a finished traversal no path is shorter than the level of its end |
| `Bfs.HopDistances` | src/include/yloc/query.h:84-89 | each entry is the minimum edge count over all paths, and 0 where there is none |
| `Forests.ForestDistance` | src/include/yloc/query.h:84-89 | in a forest linked both ways, vertices are connected iff they share a root, at depth(u) + depth(v) - 2 depth(lca) hops |
| `Forests.LcaIsLowest` | src/include/yloc/query.h:84-89 | every common ancestor is an ancestor of the one the formula uses |
| `Descent.LowestContainingVertexFrom` | src/util.cc:11-42 | collection, sort and tail call compute the descent function; it terminates on ascending graphs |
| `Descent.LowestContainingVertex` | src/util.cc:44-48 | the same from the root vertex |
| `Descent.CandidatesAreHolders` | src/util.cc:23-30 | the candidates are exactly the non-rank CHILD successors whose mask contains the query |
| `Descent.CandidatesFollowEdges` | src/util.cc:21-30 | they are collected in the order of the edges, each edge once |
| `Descent.DescentIsMaximalChain` | src/util.cc:20-41 | without assumptions on masks: the result is reached by CHILD edges through non-ranks that each contain the mask, and no further one does |
| `Descent.ResultHoldsIff` | src/util.cc:20-41 | without assumptions on masks: the result contains the mask iff the start vertex or one of its CHILD successors does |
| `Descent.LowestIffRivalFree` | src/util.cc:11-48 | for masks nested below the root, vertices there having one parent, and any query: the result is globally lowest iff the root contains the query and no two siblings both do |
| `Descent.LowestIsFound` | src/util.cc:11-48 | whenever some vertex is globally lowest, the descent ends there |
| `Ties.LeastIff` | src/util.cc:36-41 | for nested masks, any query and one order of the ties: the result has the fewest bits iff the root contains the query and no pick on the way passes over a vertex smaller than all below the pick |
| `Ties.LeastForEveryOrderIff` | src/util.cc:36-41 | where of two containing siblings one is flat: the result has the fewest bits for every order of the ties iff the root contains the query and no way of the descent can miss a smaller vertex, a condition on graph and query alone |
| `Ties.DisjointOrUniformIsOneDeep` | src/util.cc:23-30 | siblings that are disjoint unless one is uniform satisfy that hypothesis |
| `Descent.DisjointSiblingsSuffice` | src/util.cc:11-48 | with disjoint siblings every vertex that contains the mask is the result or above it, and has at least its bit count |
| `FindDistances.Search` | example/example.cc:27-75 | ends without accelerators, without PUs, or prints, from the first accelerator, exactly the PUs with a least entry in the distance vector, each once and in ascending order |
| `FindDistances.Least` | example/example.cc:60-65 | the loop finds the minimum over the PU view |
| `FindDistances.PrintsNearestIffAllReachable` | example/example.cc:57-74 | what is printed is the set of nearest PUs iff every PU is reachable |
| `HwlocQueries.TreeAndRankDistances` | modules/mpi/init_graph.cc:36-56 | on a machine's graph extended by any ranks, vertices form a forest extending the object tree, ranks hang under their places, and all hop distances are tree distances |
| `HwlocQueries.MachineIsConnected` | modules/hwloc/init_graph.cc:138-171 | all vertices of one machine reach each other |
| `HwlocSearch.SearchExactIff` | example/example.cc:57-74 | where a GPU step runs after hwloc, the search prints exactly the nearest PUs iff some GPU is in the object tree; otherwise it prints every PU and reaches none |
| `HwlocSearch.HiddenGpu` | example/example.cc:57-74 | a machine whose only PU is printed at distance 0 from a GPU that cannot reach it |
| `HwlocDescent.TreeIsPlanted` | src/util.cc:23-27 | on a graph that contains a machine's tree, what the descent can reach is exactly that tree |
| `HwlocDescent.DescentOnTree` | src/util.cc:11-48 | on any graph that contains the tree of a machine with nested cpusets and for any query, the descent ends at an object, and it is the lowest containing one iff the machine contains the query and no two sibling objects do |
| `HwlocDescent.DisjointObjectsHaveNoRivals` | src/util.cc:11-48 | disjoint sibling cpusets exclude rivals for every non-empty query |
| `HwlocTies.LeastOnTree` | src/util.cc:36-41 | on any graph that contains such a tree, for any query and one order of the ties: the result has the fewest bits iff the machine contains the query and no pick passes over a smaller object |
| `HwlocTies.LeastForEveryOrderOnTree` | src/util.cc:36-41 | where sibling cpusets are disjoint but for uniform ones: the same for every order of the ties, iff no way misses a smaller object |
| `HwlocTies.TiesDecide` | src/util.cc:36-41 | a machine with a cache and a NUMA node of equal cpuset on which two correct orders of the sort lead to a PU and to the memory |
| `HwlocVertices.HwlocGrows` | modules/hwloc/init_graph.cc:210-242 | on any valid graph the objects of a machine with distinct devices stand at distinct vertices, which keep what they had; all other vertices and all names are as before, and new names are names of devices |
| `HwlocPlanting.Planting` | modules/hwloc/init_graph.cc:210-242 | the hwloc step on a graph that other modules have built: the whole tree stands in the result, and the rest keeps its shape |
| `ShapeSteps.HostsShape` | modules/supermuc/init_graph.cc:31-85 | the SuperMUC step leaves the tree and the shape |
| `ShapeSteps.GpuShape` | modules/nvml/nvml_impl.cc:99-126 | so does a GPU step |
| `ShapeSteps.RanksShape` | modules/mpi/init_graph.cc:21-57 | so does the MPI step, whose ranks hang as leaves |
| `RunQueries.ShapeOfRun` | src/init.cc:18-27 | after any sequence of steps with at most one of hwloc and one of MPI, the tree stands in the graph unchanged, once hwloc has run |
| `RunQueries.DescentInRun` | src/util.cc:11-48 | after any such run, for any query, the descent ends at an object; it is lowest iff the machine contains the query and no two siblings do, and of fewest bits iff the machine contains it and no pick passes over a smaller object |
| `RunQueries.TreeReachedIff` | src/include/yloc/query.h:84-89 | in such a graph a device reaches the tree iff it is joined to it by interconnects |
| `RunQueries.SearchInRun` | example/example.cc:57-74 | after any such run the search prints exactly the nearest PUs iff the first accelerator is in the tree or joined to it by interconnects; otherwise it prints every PU and reaches none |
| `OrderDecides.OrderMatters` | src/init.cc:18-20 | two module steps with the same init order: in one order of them the search is exact, in the other it prints a PU that cannot be reached |

## Left out

- `dijkstra_path_distance_vector`, `make_edge_weight_map` and Boost's own code: the traversal is modelled by its documented event order (queue, colours, `tree_edge` on discovery); the weighted search is Boost's alone.
- Calls into MPI, hwloc, NVML, ROCm, `gethostname` and `sched_getaffinity`: their results are parameters, and an error return of a module is a step that leaves the graph alone.
- The constructor of a mask from an hwloc bitmap, which asserts that every bit is online, and the conversion back: an object's cpuset is given as a mask.
- Device metrics (memory, temperature, power, clocks), link bandwidth queries and console output: foreign calls that do not touch the graph.
- DOT file output, `print_property` and the filtered-graph example: output only.
- The full list of component classes: only the classes that modules assign, and `is_a` for PCI devices, accelerators, logical cores and ranks.
- `Graph::operator[](identifier)`: for a name never added the source indexes vertex 0 and binds the name to it; no module calls it.
- Sharing of adapters through pointers: adapters are values in the vertex. The MPI module sets the mask of an adapter already attached; `Mpi.SetUpOneRank` replaces the adapter in the vertex instead.
- The GPU modules use names their code does not declare (the vertex field `type`, the adapter `a`, the constant YLOC_GPU_INTERCONNECT); the evident meaning is modelled, and their debug assertions on component types are not.
- Overflow of the 32-bit hop counts and rank numbers: both are unbounded here.
- `Init.Init`: states one run on the empty root graph; a second run would add hwloc's unnamed vertices again.
- `SupermucTrie.SupermucIsTrie`: states the trie for the SuperMUC step on an empty graph; `SupermucStep.StepAddsTrie` carries it to any graph on which no SuperMUC step has run yet.
- `SupermucQueries.HostDistance`: states exact distances for the SuperMUC step on an empty graph; edges of other modules can shorten them, and `SupermucStep.NoFartherThanInTrie` bounds them.
- `Ties.LeastForEveryOrderIff`: assumes that of two siblings containing the query one is flat, which hwloc's disjoint normal children and uniform memory children give. Otherwise the condition must name the order, which treats equal keys alike wherever they occur, as in `Ties.LeastIff`.
- `HwlocTies.LeastForEveryOrderOnTree`: leaves out the empty query, which every mask contains and the rank loop never asks; `HwlocTies.LeastOnTree` covers it order by order.
- `HwlocSearch.SearchExactIff`: states the condition on machine and devices for one GPU step after hwloc; `RunQueries.SearchInRun` covers every order and number of GPU steps by a condition on the finished graph.
- `RunQueries.ShapeOfRun`: assumes that hwloc and MPI run at most once, as in `init`, and that a machine's PCI objects have distinct addresses.
- `Placement.PlacementIsStable`: assumes that no rank has a vertex yet, that is, that the MPI step runs once; so do `Placement.RanksAreSettled` and `Outcomes.RanksSettleInRun`.
- `Outcomes.RunShows`: of descriptions it says nothing at the end of a run, since later steps may rename a vertex; `Outcomes.StepLooks` says what each step makes of them.
- `Hwloc.TreeImage`: the image is stated for any start graph; closed distances (`HwlocQueries.TreeAndRankDistances`) only for the empty one, because a device vertex shared with earlier interconnects ends the tree shape.
- `HwlocInvariants.HwlocInitKeeps`: assumes, as hwloc documents, that I/O objects have no cpuset.
- Hostname buffers without a terminating NUL: the model reads to the end of the buffer, the source beyond it.
