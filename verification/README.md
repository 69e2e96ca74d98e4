# Kunpeng cloud computing: verified core algorithms

The repository holds several node agents for Kunpeng machines. This project models the
algorithms inside them in Dafny and proves what they promise. Loops and classes of the Go code
are methods and classes here, each proved against a specification function; what the code is
for is then proved about those functions, over all inputs or all runs.

- **CPU and PID selectors** (`Intervals`, `Selector`, `PidSelector`, `Scopes`): selector texts are
  parsed, sorted and merged in place, and printed in a canonical form, the only basis on which a
  report's scope is compared with the requested one.
- **P-core binding** (`Cpuset`, `Binding`, `Settling`, `Agent`, `WakeUp`): a reconcile loop gives each
  matching pod an SMT sibling pair of its own; events wake it through a one-slot channel.
- **Pool selection** (`NodeTree`, `Pools`, `PoolSelection`): the tree of pools is linked and numbered;
  pools are filtered along their chain of parents, ranked by a seven-stage comparison, and one is
  chosen.
- **TopDown reports** (`TopdownNames`, `Topdown`, `TopdownForest`, `TopdownRoundTrip`,
  `TopdownReports`): a forest is rebuilt from an indented table.
- **NUMA-aware placement** (`NumaTopology`, `NumaPolicy`): loads are recomputed from the cached
  containers, whose cpuset texts are parsed back to NUMA nodes.
- **Device scans** (`Devices`): differences between scans keep one server per device type.
- **Failure logs** (`LogThrottle`): repeated failures of one streak are logged once per window.
- **Resctrl schemata** (`Schemata`, `SchemataMonitor`): lines are written by one agent and read by
  two parsers.
- **DevKit commands** (`DevkitArgs`, `DevkitConfig`): command lines are built from a configuration and
  read back for metric labels.
- **Dynamic QoS policy** (`QosStepDown`): rounds of interference reasons step a policy down under the
  rules of its schema.

`Text`, `Sorting` and `Sets` hold the strings, the sorting and the set sizes the others share.

Assumed, as hypotheses of the lemmas that need them: sibling pairs have no CPU in common and pods
no cgroup; NUMA node k owns CPUs k * T to (k + 1) * T - 1; no container brings a cpuset of its own.
Reading a cpuset file may return any text with the normal form of the one written. Others may change
cpuset files at any time; what is said about the agent at rest holds until someone does, and again
after the next pass. The notifier is handed a new tree object by every scan, as the scanner does.

What turned out not to hold of the code, each with a lemma saying exactly when it does:

- `Pools.PrioritiesRankAlike`, `PoolSelection.PriorityHasNoEffect`: cpu-first and gpu-first rank pools
  alike, so the setting has no effect on the regular path.
- `PoolSelection.LimitMayBeMissed`, `LimitIsCoveredIffByADeepest`: the ranking prefers pools that cover
  the CPU limit, but the selection takes the deepest pool whether it does or not.
- `NumaPolicy.TrueLoadIsUnbounded`, `BooksAreTrueIffPeriods`: containers without a CPU period are pinned
  but never booked.
- `Schemata.MaskReadsBack`, `SchemataMonitor.MonitorReadsBack`: masks of more than 63 ways are written but
  not read.
- `QosStepDown.LabelRepairedIff`: the stored and the desired policy share one selector map, so a repaired
  node label alone is never written, although the code sets it on every round.
- `QosStepDown.RefusedIff`: a CPU round on a policy whose level another writer set to 1 is refused as a
  whole, bandwidth and cache steps included.
- `QosStepDown.WrittenRoundLowersIff`: fields stored as zero are left out of the request and come back as
  the defaults, so a step down can raise a limit from 0 to 100.

Verify everything with `dafny verify dfyconfig.toml`.

## Model

| member | source | states |
|---|---|---|
| `Intervals.MergeInPlace` | pkg/kunpeng-perf-monitor/collector/devkit_selector.go:104-126 | merging the sorted array into its own front, with the last kept interval updated in place, leaves what merging an untouched copy would give: no unread interval is overwritten |
| `Intervals.NormaliseInPlace` | pkg/kunpeng-perf-monitor/collector/devkit_selector.go:97-126 | sorting and merging on one backing array leaves the normal list of the intervals in front |
| `Intervals.NormaliseMeaning` | pkg/kunpeng-perf-monitor/collector/devkit_selector.go:97-126 | the merged intervals ascend with at least one missing CPU between neighbours and cover exactly the CPUs of the input, the largest 64-bit number included |
| `Intervals.NormalUnique` | pkg/kunpeng-perf-monitor/collector/devkit_selector.go:66-127 | a set of CPUs has exactly one normal list |
| `Intervals.LastEndIsMaximum` | pkg/kunpeng-perf-monitor/collector/devkit_selector.go:197-209 | the end of the last normal interval is the largest CPU covered |
| `Selector.ParseCPUIntervals` | pkg/kunpeng-perf-monitor/collector/devkit_selector.go:69-127 | the loop over the elements and the in-place merge compute the specification function, first error included |
| `Selector.CanonicalizeCPUSelector` | pkg/kunpeng-perf-monitor/collector/devkit_selector.go:48-64 | the printing loop computes the canonical text |
| `Selector.ElementMeaning` | pkg/kunpeng-perf-monitor/collector/devkit_selector.go:78-99 | an element is accepted exactly when it is a numeral at most the bound or two such numerals around a minus sign; the interval read is the number, or all from the smaller to the larger of the two, in either order |
| `Selector.AcceptedIff` | pkg/kunpeng-perf-monitor/collector/devkit_selector.go:69-101 | a text is accepted exactly when it has 1 to 1024 characters, at most 512 elements, and every element fits |
| `Selector.AcceptedMeaning` | pkg/kunpeng-perf-monitor/collector/devkit_selector.go:69-127 | an accepted text becomes a non-empty normal list of exactly the CPUs its numerals and ranges name, none above the bound |
| `Selector.RenderRoundTrip` | pkg/kunpeng-perf-monitor/collector/devkit_selector.go:48-64 | printed intervals split and parse back to the same intervals |
| `Selector.CanonicalCPUIffSameSet` | pkg/kunpeng-perf-monitor/collector/devkit_selector.go:48-127 | canonical texts of two accepted texts are equal exactly when the numerals and ranges of both name the same CPUs, whatever the bounds they were accepted under |
| `Selector.CanonicalCPULength` | pkg/kunpeng-perf-monitor/collector/devkit_selector.go:160-174 | the canonical text has no more characters and no more elements than the raw text |
| `Selector.CanonicalCPUIdempotent` | pkg/kunpeng-perf-monitor/collector/devkit_selector.go:48-64 | the canonical text is accepted under the same limits and bound and is its own canonical form |
| `Selector.MaxCPU` | pkg/kunpeng-perf-monitor/collector/devkit_selector.go:197-209 | the result is the largest CPU the host lists; 1024 when the list is missing or does not parse |
| `PidSelector.CanonicalizePIDSelector` | pkg/kunpeng-perf-monitor/collector/devkit_selector.go:129-158 | parsing, sorting in place and skipping equal neighbours compute the canonical text |
| `PidSelector.PrintDistinct` | pkg/kunpeng-perf-monitor/collector/devkit_selector.go:145-157 | printing with the previous value remembered prints every value of a sorted list once |
| `PidSelector.AcceptedIff` | pkg/kunpeng-perf-monitor/collector/devkit_selector.go:129-146 | a text is accepted exactly when it has 1 to 512 characters and at most 32 elements, each a numeral from 1 to the bound |
| `PidSelector.AcceptedMeaning` | pkg/kunpeng-perf-monitor/collector/devkit_selector.go:129-158 | an accepted text stands for a non-empty ascending list of exactly the ids it lists, each between 1 and the bound |
| `PidSelector.CanonicalPIDLength` | pkg/kunpeng-perf-monitor/collector/devkit_selector.go:129-174 | the canonical text has no more characters and no more elements than the raw text |
| `PidSelector.CanonicalPIDIdempotent` | pkg/kunpeng-perf-monitor/collector/devkit_selector.go:129-158 | the canonical text is accepted under the same limits and bound and is its own canonical form |
| `PidSelector.CanonicalPIDIffSameSet` | pkg/kunpeng-perf-monitor/collector/devkit_selector.go:129-158 | canonical texts of two accepted texts are equal exactly when their numerals name the same ids |
| `Scopes.ScopesEquivalent` | pkg/kunpeng-perf-monitor/collector/devkit_selector.go:227-257 | on acceptable scopes of one type the verdict is equality of the sets of CPUs or ids; scopes of different types differ; each error names the text that is not acceptable, the requested one first |
| `Cpuset.ParseCpuset` | pkg/kunpeng-tap-pcore-binding/plugin/agent.go:677-713 | the parsing loop computes the specification function, None for an error |
| `Cpuset.ItemMeaning` | pkg/kunpeng-tap-pcore-binding/plugin/agent.go:686-711 | an item is a signed 64-bit number, or two around its first minus sign with white space anywhere around them; it lists the CPUs from the first to the second, each once, in order |
| `Cpuset.ListMeaning` | pkg/kunpeng-tap-pcore-binding/plugin/agent.go:677-713 | a comma list with white space around it lists what its items list, in their order, and is unreadable exactly when an item is |
| `Cpuset.RangeTextParses` | pkg/kunpeng-tap-pcore-binding/plugin/agent.go:690-704 | the range text from a to b, with white space anywhere around the bounds, lists exactly the CPUs from a to b |
| `Cpuset.PairAsRange` | pkg/kunpeng-tap-pcore-binding/plugin/agent.go:664-713 | the range text of two neighbouring CPUs has the normal form of that sibling pair |
| `Cpuset.NormalizeCpuset` | pkg/kunpeng-tap-pcore-binding/plugin/agent.go:664-675 | parsing, sorting in place and printing compute the normal form |
| `Cpuset.NormalFormIffSameCpus` | pkg/kunpeng-tap-pcore-binding/plugin/agent.go:664-713 | two readable cpuset texts have the same normal form exactly when they list the same CPUs the same number of times |
| `Cpuset.NormalFormParses` | pkg/kunpeng-tap-pcore-binding/plugin/agent.go:664-713 | a normal form parses to the CPUs of the text in ascending order, repetitions kept |
| `Cpuset.UnreadableDiffers` | pkg/kunpeng-tap-pcore-binding/plugin/agent.go:664-675 | an unreadable text, which stands for itself, never equals the normal form of a readable one |
| `Cpuset.PairIsNormal` | pkg/kunpeng-tap-pcore-binding/topology/siblings.go:35-40 | the text of a sibling pair lists exactly its two CPUs and is its own normal form |
| `Cpuset.PairRoundTrip` | pkg/kunpeng-tap-pcore-binding/topology/siblings.go:35-88 | a printed pair is read back in ascending order |
| `Binding.PassIsFair` | pkg/kunpeng-tap-pcore-binding/plugin/agent.go:202-310 | in one pass the pairs handed out are pairwise different, the number of bound pods is the minimum of askers and pairs, and the bound pods are exactly the first askers in list order |
| `Binding.LimitMeaning` | pkg/kunpeng-tap-pcore-binding/plugin/agent.go:284-290 | a pod asks for two CPUs exactly when its numbers are known, it has a period, and its quota is twice the period |
| `Binding.BoundPodsQualify` | pkg/kunpeng-tap-pcore-binding/plugin/agent.go:202-290 | every bound pod is a listed pod in a configured namespace, with a configured runtime class, a quota of twice its period, and a readable first cgroup |
| `Binding.WritesAreBound` | pkg/kunpeng-tap-pcore-binding/plugin/agent.go:237-248 | every write of a pass goes to a cgroup of a bound pod and writes the pair that pod was given |
| `Binding.DryRunWritesNothing` | pkg/kunpeng-tap-pcore-binding/plugin/agent.go:233-248 | in dry-run a pass writes nothing and changes no file |
| `Settling.SecondPassSamePairs` | pkg/kunpeng-tap-pcore-binding/plugin/agent.go:202-310 | a second pass over what a first one left gives every pod the same pair, whichever writes failed and even if dry-run was switched in between |
| `Settling.PassSettles` | pkg/kunpeng-tap-pcore-binding/plugin/agent.go:202-253 | after a pass in which every read and write of a bound pod succeeded, every file of a bound pod holds its pair |
| `Settling.SettledIsFixpoint` | pkg/kunpeng-tap-pcore-binding/plugin/agent.go:202-253 | in a settled state a pass writes nothing and changes nothing |
| `Settling.RemovalKeepsPairs` | pkg/kunpeng-tap-pcore-binding/plugin/agent.go:193-310 | from a settled state, removing any pods leaves every remaining bound pod on its pair |
| `Agent.ListingUnique` | pkg/kunpeng-tap-pcore-binding/plugin/agent.go:255-272 | a pod map has exactly one listing by namespace, name and id, so a pass does not depend on map iteration order |
| `Agent.PodLessMeaning` | pkg/kunpeng-tap-pcore-binding/plugin/agent.go:262-270 | pods are ordered by namespace first, then by name, then by id, each text lexicographically |
| `Agent.Agent.ReplacePods` | pkg/kunpeng-tap-pcore-binding/plugin/agent.go:436-447 | the pod map becomes the snapshot of the non-nil sandboxes, the last of equal ids winning |
| `Agent.SnapshotMeaning` | pkg/kunpeng-tap-pcore-binding/plugin/agent.go:436-447 | the map holds exactly the ids of the non-nil sandboxes, each with the last sandbox of that id |
| `Agent.SandboxMeaning` | pkg/kunpeng-tap-pcore-binding/plugin/agent.go:458-481 | a sandbox asks for two CPUs exactly when the resource entry that counts gives a period and twice it as quota; id, name, namespace, handler and cgroup path are taken over |
| `Agent.Agent.UpsertPod` | pkg/kunpeng-tap-pcore-binding/plugin/agent.go:449-456 | the pod map gains or replaces the one pod; nothing for nil |
| `Agent.Agent.RemovePod` | pkg/kunpeng-tap-pcore-binding/plugin/agent.go:193-200 | the pod map loses the one id; nothing for nil |
| `Agent.Agent.RequestReconcile` | pkg/kunpeng-tap-pcore-binding/plugin/agent.go:186-191 | afterwards the one-slot channel holds a token, whatever it held before |
| `Agent.Agent.ListPods` | pkg/kunpeng-tap-pcore-binding/plugin/agent.go:255-272 | the list holds every pod of the map once, in strictly ascending order |
| `Agent.Agent.TargetCpuset` | pkg/kunpeng-tap-pcore-binding/plugin/agent.go:292-310 | the current pair unless it is taken, else the first free pair, else the empty text |
| `Agent.RangeReadBackKeepsPair` | pkg/kunpeng-tap-pcore-binding/plugin/agent.go:292-303 | a pod whose file reads back as the range of its two neighbouring CPUs keeps that pair when it is free |
| `Agent.Agent.NeedsCpusetUpdate` | pkg/kunpeng-tap-pcore-binding/plugin/agent.go:650-662 | an update is needed as soon as one file, compared by normal form, differs; a read error before that is an error |
| `Agent.Agent.WriteCpusets` | pkg/kunpeng-tap-pcore-binding/plugin/agent.go:237-248 | every path is written; files that refuse keep their state |
| `Agent.Agent.HandlePod` | pkg/kunpeng-tap-pcore-binding/plugin/agent.go:206-251 | the loop body over texts does to the normal forms what the abstract step does |
| `Agent.Agent.ReconcileOnce` | pkg/kunpeng-tap-pcore-binding/plugin/agent.go:202-253 | a pass over cpuset texts, where reading may return any text of the written normal form, refines the abstract pass on the one listing of the pod map |
| `Agent.KeepIsListing` | pkg/kunpeng-tap-pcore-binding/plugin/agent.go:255-272 | deleting ids from the pod map deletes exactly those pods from its listing |
| `Agent.BoundPodsShareNoCpu` | pkg/kunpeng-tap-pcore-binding/plugin/agent.go:202-310 | with disjoint sibling pairs, the cpuset texts of two different bound pods of a settled state parse and share no CPU |
| `WakeUp.NoLostWakeUp` | pkg/kunpeng-tap-pcore-binding/plugin/agent.go:121-200 | in every interleaving of event handlers with the run loop, a pod map change not yet listed has a token in the slot, a token taken but not yet acted on, or a handler that is about to send |
| `WakeUp.AtRestIsCurrent` | pkg/kunpeng-tap-pcore-binding/plugin/agent.go:121-253 | whenever nothing is under way, the last pass succeeded and nobody else has changed a file since, the files are settled for the current pod map, however many passes failed before |
| `WakeUp.ComesToRest` | pkg/kunpeng-tap-pcore-binding/plugin/agent.go:121-191 | between any two points of an execution the steps of the loop and of the handlers' sends number at most the work left at the first point plus 4 per event and 2 per tick |
| `WakeUp.NeverStuck` | pkg/kunpeng-tap-pcore-binding/plugin/agent.go:121-191 | until the loop stops or rests, it or a handler has such a step |
| `NodeTree.Node.AddChildren` | pkg/kunpeng-tap/policy/topology-aware/node_base.go:128-134 | appends exactly the nodes that are not children yet, in order |
| `NodeTree.ExtendedMeaning` | pkg/kunpeng-tap/policy/topology-aware/node_base.go:128-134 | after adding, the old children stay in front, every added node is a child, and no child comes twice |
| `NodeTree.Node.LinkParent` | pkg/kunpeng-tap/policy/topology-aware/node_base.go:119-125 | sets the parent, appends the node to its children unless it is one, and sets the depth to one more than the parent's, zero under the nil node |
| `NodeTree.NewNode` | pkg/kunpeng-tap/policy/topology-aware/node_base.go:40-47 | making a node under a parent keeps every node's depth one above its parent's, parents and children in agreement, and children without repetition |
| `NodeTree.LinkedTree` | pkg/kunpeng-tap/policy/topology-aware/node_base.go:119-134 | what the linking keeps is the tree shape the collection needs |
| `NodeTree.SubtreeMeaning` | pkg/kunpeng-tap/policy/topology-aware/topology_builder.go:155-176 | the depth-first order of a node lists exactly the nodes below it, each once |
| `NodeTree.CollectNodes` | pkg/kunpeng-tap/policy/topology-aware/topology_builder.go:155-176 | collecting appends the nodes in depth-first order, numbers them consecutively, changes no other number and no link, and finds the greatest depth |
| `NodeTree.CollectedPools` | pkg/kunpeng-tap/policy/topology-aware/topology_builder.go:155-176 | the collected pools have distinct ids, contain the root, and contain every other pool's parent one level higher |
| `Pools.SumAffinity` | pkg/kunpeng-tap/policy/topology-aware/pool_sorter.go:162-204 | the accumulation loop computes the sum with int32 wrap-around, positive terms counting 100 times under gpu-first |
| `Pools.SortPoolsByScore` | pkg/kunpeng-tap/policy/topology-aware/pool_sorter.go:28-45 | the array becomes the sorted list of its elements under the comparison, and the score map holds every pool's score |
| `Pools.BeforeIsPreferred` | pkg/kunpeng-tap/policy/topology-aware/pool_sorter.go:48-250 | one pool comes before another exactly when, in the pools' own numbers, it alone covers the limit; else it is deeper; else has more shared capacity; else less colocated; else more allocatable CPU and then more affinity (the other way round under gpu-first); else the smaller id |
| `Pools.ComparisonIsTotal` | pkg/kunpeng-tap/policy/topology-aware/pool_sorter.go:48-250 | under both priorities the seven-stage comparison is a strict total order on pools with distinct ids |
| `Pools.SortIsOrderIndependent` | pkg/kunpeng-tap/policy/topology-aware/pool_sorter.go:28-45 | the sorted list does not depend on the order of the input nor on the sorting algorithm |
| `Pools.PrioritiesRankAlike` | pkg/kunpeng-tap/policy/topology-aware/pool_sorter.go:207-250 | with scores as supply.go computes them, and affinities that are not negative and fit an int32 a hundredfold, cpu-first and gpu-first rank every two pools alike |
| `Pools.PrioritiesSortAlike` | pkg/kunpeng-tap/policy/topology-aware/pool_sorter.go:28-92 | so the sorted lists under cpu-first and gpu-first are equal |
| `PoolSelection.PriorityHasNoEffect` | pkg/kunpeng-tap/policy/topology-aware/pool_filter.go:191-223 | with scores as supply.go computes them the ranked list and the regular choice are the same under both settings |
| `PoolSelection.CapacityIsUpwardClosed` | pkg/kunpeng-tap/policy/topology-aware/pool_filter.go:226-305 | a pool with capacity other than the root has a parent with capacity |
| `PoolSelection.CapacityIsWholeChain` | pkg/kunpeng-tap/policy/topology-aware/pool_filter.go:226-305 | a pool has capacity exactly when it lies below the root and every pool from it up to the root, the root excluded, can take request and memory |
| `PoolSelection.CheckCapacityByRequest` | pkg/kunpeng-tap/policy/topology-aware/pool_filter.go:241-275 | the walk along the parents computes the recursive predicate |
| `PoolSelection.CheckMemoryCapacity` | pkg/kunpeng-tap/policy/topology-aware/pool_filter.go:278-305 | the walk along the parents computes the recursive predicate, with Go's division and unsigned conversion of the limit |
| `PoolSelection.FilterPoolsByCapacity` | pkg/kunpeng-tap/policy/topology-aware/pool_filter.go:29-68 | the result is exactly the pools with capacity, in their given order, the root taken without a check |
| `PoolSelection.FilteredIff` | pkg/kunpeng-tap/policy/topology-aware/pool_filter.go:29-68 | the candidates are the pools below the root with capacity, and the root exactly when no other pool has capacity |
| `PoolSelection.MemoryLimitMeaning` | pkg/kunpeng-tap/policy/topology-aware/pool_filter.go:278-305 | a 64-bit limit is read as whole KB, rounded down; one of -1 KB or less becomes a number near 2 to the 64 |
| `PoolSelection.FindRegularPool` | pkg/kunpeng-tap/policy/topology-aware/pool_filter.go:191-223 | the choice is the first of the deepest pools with capacity |
| `PoolSelection.RegularSelection` | pkg/kunpeng-tap/policy/topology-aware/pool_filter.go:29-223 | with the root among the pools a pool is always found: the least in the ranking among the deepest with capacity, and the root only when no other pool has capacity |
| `PoolSelection.FindGPUAffinityPool` | pkg/kunpeng-tap/policy/topology-aware/pool_filter.go:89-128 | the choice is the first pool of the re-sorted list that touches a requested GPU's NUMA node |
| `PoolSelection.GPUSelection` | pkg/kunpeng-tap/policy/topology-aware/pool_filter.go:89-128 | that pool is the least in the ranking among all filtered pools touching such a node; none is found exactly when there is none |
| `PoolSelection.GPUAffinityCounts` | pkg/kunpeng-tap/policy/topology-aware/pool_sorter.go:162-204 | under the GPU ranking a pool's affinity is 100000 for each of its nodes that holds a requested GPU |
| `PoolSelection.FindBestAvailablePool` | pkg/kunpeng-tap/policy/topology-aware/pool_filter.go:71-82 | the GPU choice when it applies and finds a pool, else the regular choice |
| `PoolSelection.AllocatePool` | pkg/kunpeng-tap/policy/topology-aware/topology_aware.go:280-320 | with the root among the pools every container is placed: system containers on the root; others, when gpu-first is set and a pool with capacity is on a requested GPU's node, on the best such pool, else on the best of the deepest pools with capacity, where best is stated in the pools' own numbers: limit covered, most shared capacity, least colocated, most allocatable CPU and affinity, smallest id |
| `PoolSelection.LimitIsCoveredIffByADeepest` | pkg/kunpeng-tap/policy/topology-aware/pool_filter.go:191-223 | the chosen pool covers the CPU limit exactly when one of the deepest candidates does |
| `PoolSelection.LimitMayBeMissed` | pkg/kunpeng-tap/policy/topology-aware/pool_filter.go:191-223 | a placement, with the scores of one request, whose limit is not covered although a shallower candidate covers it |
| `TopdownNames.NormalizedIsNormal` | pkg/kunpeng-perf-monitor/collector/devkit_topdown_parser.go:88-92 | a normalised name consists of a-z, 0-9 and single inner underscores, so it holds no dot |
| `TopdownNames.NameMeaning` | pkg/kunpeng-perf-monitor/collector/devkit_topdown_parser.go:88-92 | of words of ASCII letters and digits with anything else around and between them, the words remain in lower case, joined by single underscores |
| `TopdownNames.NormalNameIsFixed` | pkg/kunpeng-perf-monitor/collector/devkit_topdown_parser.go:88-92 | normalising leaves every normal name alone |
| `TopdownNames.NormalizeIdempotent` | pkg/kunpeng-perf-monitor/collector/devkit_topdown_parser.go:88-92 | normalising twice is normalising once |
| `TopdownNames.DrawnRowReadsBack` | pkg/kunpeng-perf-monitor/collector/devkit_topdown_parser.go:317-329 | a row drawn with any 2 + 4 * (level - 2) characters before its branch mark gives back its name, without the white space around it, and its level |
| `Topdown.ParseTopdownTree` | pkg/kunpeng-perf-monitor/collector/devkit_topdown_parser.go:242-314 | the loop with its stack, node list and path map computes the fold, first error included |
| `Topdown.HandleRow` | pkg/kunpeng-perf-monitor/collector/devkit_topdown_parser.go:262-307 | popping the stack to the parent, checking the path and appending the node computes one step |
| `Topdown.SumTopLevel` | pkg/kunpeng-perf-monitor/collector/devkit_topdown_parser.go:341-349 | the first loop of the validation collects the names and the sum of the level-1 nodes |
| `Topdown.ValidateTopdownTree` | pkg/kunpeng-perf-monitor/collector/devkit_topdown_parser.go:341-372 | the two checks by counting and membership decide that the level-1 names are exactly the four classes, the sum is in range and both Backend Bound children are there, reporting the first that fails |
| `TopdownForest.AcceptedIffStructural` | pkg/kunpeng-perf-monitor/collector/devkit_topdown_parser.go:242-314 | rows are accepted exactly when the first level is 1, each level is at most the previous plus 1, names are non-empty, values are numbers and paths distinct; the nodes then carry the path of the nearest earlier row one level up |
| `TopdownForest.AcceptedPaths` | pkg/kunpeng-perf-monitor/collector/devkit_topdown_parser.go:262-304 | an accepted node's path has exactly as many segments as its level, and its parent's path belongs to an earlier node |
| `TopdownForest.PathInjective` | pkg/kunpeng-perf-monitor/collector/devkit_topdown_parser.go:285-290 | the dotted path determines the list of segments |
| `TopdownForest.SegmentsNest` | pkg/kunpeng-perf-monitor/collector/devkit_topdown_parser.go:270-290 | the nearest row at each smaller level holds the prefix of that length of a row's segments |
| `TopdownRoundTrip.BuildFlatten` | pkg/kunpeng-perf-monitor/collector/devkit_topdown_parser.go:242-329 | the flat preorder list determines the forest |
| `TopdownRoundTrip.FlattenBuild` | pkg/kunpeng-perf-monitor/collector/devkit_topdown_parser.go:242-329 | every list of the preorder shape is the flat list of a forest |
| `TopdownRoundTrip.DistinctIffSiblings` | pkg/kunpeng-perf-monitor/collector/devkit_topdown_parser.go:285-290 | the paths of a flattened forest are distinct exactly when siblings have different names |
| `TopdownRoundTrip.DrawThenParse` | pkg/kunpeng-perf-monitor/collector/devkit_topdown_parser.go:242-329 | drawing a forest under raw names, in any case and with any separators, and parsing the table succeeds exactly when siblings are distinct, and recovers the forest |
| `TopdownRoundTrip.ParseThenBuild` | pkg/kunpeng-perf-monitor/collector/devkit_topdown_parser.go:242-329 | every accepted table is the preorder of a forest with distinct siblings |
| `TopdownRoundTrip.FourRoots` | pkg/kunpeng-perf-monitor/collector/devkit_topdown_parser.go:341-359 | an accepted report is a forest of exactly four roots, named as the four classes |
| `TopdownReports.ReportAcceptedIff` | pkg/kunpeng-perf-monitor/collector/devkit_topdown_parser.go:242-372 | the report that draws a forest is accepted exactly when siblings are distinct, the roots are the four classes, their values sum to 99.5 up to 100.5, and Backend Bound has children Core Bound and Memory Bound |
| `NumaTopology.ParseCpusetCpusLoop` | pkg/kunpeng-tap/sysfs/cpuinfo.go:273-304 | the loops over parts and ranges compute the list; parts that do not parse contribute nothing |
| `NumaTopology.PartMeaning` | pkg/kunpeng-tap/sysfs/cpuinfo.go:278-301 | a part lists its number, or the CPUs from the number before its first minus sign to the one after it, none when either does not read |
| `NumaTopology.TextMeaning` | pkg/kunpeng-tap/sysfs/cpuinfo.go:273-304 | a text lists exactly the CPUs one of its comma-separated parts lists |
| `NumaTopology.FindMinMaxCpus` | pkg/kunpeng-tap/sysfs/cpuinfo.go:307-321 | the smallest and largest element, -1 and -1 for the empty list |
| `NumaTopology.AreCpusInNode` | pkg/kunpeng-tap/sysfs/cpuinfo.go:324-338 | true exactly when both ends, cut to 32 bits, are CPUs of the node |
| `NumaTopology.GetNumaNodeFromCpuSet` | pkg/kunpeng-tap/sysfs/cpuinfo.go:340-355 | the answer is a node that contains both ends, or -1 when there is none, for any order of visiting the nodes |
| `NumaTopology.BlockTextNamesNode` | pkg/kunpeng-tap/policy/numa-aware/numa_aware.go:144-158 | the range text printed for a node parses back to exactly its CPUs and is attributed to that node and no other |
| `NumaTopology.NoCpusetNoNode` | pkg/kunpeng-tap/sysfs/cpuinfo.go:340-355 | an empty cpuset text belongs to no node |
| `NumaPolicy.GetNodeResources` | pkg/kunpeng-tap/cache/cache.go:702-740 | the accumulation loop leaves, for every node, the sums over the containers booked on it |
| `NumaPolicy.BookingRaises` | pkg/kunpeng-tap/cache/cache.go:714-736 | one more container with a CPU period raises the use of its node by quota over period and the request by shares over 1024, and changes no other node; one without changes nothing |
| `NumaPolicy.RequestMeaning` | pkg/kunpeng-tap/cache/utils.go:57-76 | the request is shares over 1024 to the nearest milli-CPU, halves up; none for 2 shares and for negative ones |
| `NumaPolicy.LimitMeaning` | pkg/kunpeng-tap/cache/utils.go:65-81 | the limit is quota over period to the nearest milli-CPU, halves up, none when either is missing or the quotient is negative |
| `NumaPolicy.LoadIsOrderIndependent` | pkg/kunpeng-tap/cache/cache.go:714-736 | neither booked load, by request or by limit, depends on the order in which the container map is walked |
| `NumaPolicy.GrantIsOrderIndependent` | pkg/kunpeng-tap/policy/numa-aware/numa_aware.go:106-164 | the table of loads and the grant do not depend on that order, and there is only one grant |
| `NumaPolicy.PreferNode` | pkg/kunpeng-tap/policy/numa-aware/numa_aware.go:126-143 | the result is the lowest-numbered node of least use among those with room, -1 exactly when none has room |
| `NumaPolicy.AllocateCPUSet` | pkg/kunpeng-tap/policy/numa-aware/numa_aware.go:106-164 | a grant is the block of a node with room for the request on which the cached containers' quotas over periods sum to least, the lowest-numbered of those; none is given exactly when no node has room, by their shares over 1024 |
| `NumaPolicy.RoundingSlack` | pkg/kunpeng-tap/cache/utils.go:57-62 | rounding shares to milli-CPU loses at most 2/1024 CPU |
| `NumaPolicy.PinnedIsUnambiguous` | pkg/kunpeng-tap/sysfs/cpuinfo.go:340-355 | when every cached cpuset is empty or the block of a node, each text is attributed to one node whatever the order of visiting the nodes |
| `NumaPolicy.LoadStaysBounded` | pkg/kunpeng-tap/policy/numa-aware/numa_aware.go:106-164 | over every run of admissions and removals the request load booked on a node stays at most its CPU count plus 2/1024 CPU |
| `NumaPolicy.BooksAreTrueIffPeriods` | pkg/kunpeng-tap/cache/cache.go:714-736 | the booked load is the load of all pinned containers exactly when none of them with shares lacks a CPU period |
| `NumaPolicy.TrueLoadIsUnbounded` | pkg/kunpeng-tap/policy/numa-aware/numa_aware.go:106-164 | containers without a CPU period can be pinned to one node without limit |
| `Devices.Notifier.Notify` | pkg/kae-device-plugin/device-plugin/manager.go:44-70 | the message is the difference of the old and new tree, none when they are equal, and the new tree is kept; if the very object kept is passed again it is emptied and nothing is sent |
| `Devices.Manager.HandleUpdate` | pkg/kae-device-plugin/device-plugin/manager.go:110-137 | added types get fresh servers, updated ones new devices, removed ones go; fails exactly on an update or removal of a type without a server |
| `Devices.HandledMeaning` | pkg/kae-device-plugin/device-plugin/manager.go:110-137 | a message is carried out exactly when every type it updates or removes has a server or gets one; afterwards the types with a server are those there were and those added, without the removed, each with the devices last given to it |
| `Devices.DiffApplies` | pkg/kae-device-plugin/device-plugin/manager.go:44-137 | applying the difference to servers that hold the old tree gives servers that hold the new one; no added type has a server, every updated or removed one has, and servers of types that stay are kept |
| `Devices.ServersFollowScans` | pkg/kae-device-plugin/device-plugin/manager.go:44-137 | in every run of scans and deliveries no message refers to a missing server or adds a present one, and with the channel empty the servers are exactly the latest tree |
| `LogThrottle.FailureFingerprintInjective` | pkg/kunpeng-perf-monitor/collector/devkit_logging.go:122-168 | failures with NUL-free stages share a fingerprint only if stage, exit code, timeout and summary agree |
| `LogThrottle.ParametersFingerprintIff` | pkg/kunpeng-perf-monitor/collector/devkit_logging.go:82-120 | NUL-free parameters share a fingerprint exactly when they are equal, or have equal paths and each no argument or one empty one |
| `LogThrottle.BuiltCommandsAreToldApart` | pkg/kunpeng-perf-monitor/collector/devkit_logging.go:82-120 | the command lines the two collectors build share a fingerprint exactly when they are equal |
| `LogThrottle.AcceptedCommandsAreBuilt` | pkg/kunpeng-perf-monitor/collector/devkit_config.go:167-201 | every accepted configuration makes such command lines |
| `LogThrottle.LogState.ResetFailure` | pkg/kunpeng-perf-monitor/collector/devkit_logging.go:204-209 | clears flag, fingerprint and time |
| `LogThrottle.LogState.Start` | pkg/kunpeng-perf-monitor/collector/devkit_logging.go:82-120 | a parameter change or the first start clears the failure state and is logged when there is a logger |
| `LogThrottle.LogState.Finish` | pkg/kunpeng-perf-monitor/collector/devkit_logging.go:122-168 | success clears the failure state and logs a recovery if there was one; a failure is logged unless it repeats the last logged one within the window |
| `LogThrottle.StateMeaning` | pkg/kunpeng-perf-monitor/collector/devkit_logging.go:82-168 | the failure flag is up exactly inside a streak, and the state then remembers the streak's last logged failure |
| `LogThrottle.NothingKept` | pkg/kunpeng-perf-monitor/collector/devkit_logging.go:82-209 | after any number of rounds, outside a streak no fingerprint and no time of an earlier one is kept |
| `LogThrottle.SilentIffCovered` | pkg/kunpeng-perf-monitor/collector/devkit_logging.go:122-168 | a failing round is silent exactly when the last logged failure of its streak is the same one, less than a window ago |
| `LogThrottle.RepeatsAreAWindowApart` | pkg/kunpeng-perf-monitor/collector/devkit_logging.go:122-168 | consecutive logged failures of one streak with one fingerprint are at least a window apart |
| `LogThrottle.FiveMinutes` | pkg/kunpeng-perf-monitor/collector/devkit_logging.go:122-168 | a failure repeating the logged one is silent 299 seconds after it and logged at 300 |
| `LogThrottle.RecoveryEndsStreak` | pkg/kunpeng-perf-monitor/collector/devkit_logging.go:122-168 | recovery is logged by exactly the successful rounds that end a streak |
| `LogThrottle.RecoveriesAreSeparated` | pkg/kunpeng-perf-monitor/collector/devkit_logging.go:122-168 | between two recoveries a failure was logged |
| `Schemata.MaskReadsBack` | pkg/kunpeng-qos-controller/controller/resctrl_group_manager.go:255-264 | the base-guessing parse returns 2^w - 1 for the hexadecimal mask of w ways exactly for w up to 63, and fails for more |
| `Schemata.NumberReadsBack` | pkg/kunpeng-perf-monitor/collector/mpam_util.go:34-59 | every printed 64-bit number reads back, never taken for hexadecimal |
| `Schemata.BuildIDAssignment` | pkg/kunpeng-qos-controller/controller/resctrl_group_manager.go:162-172 | the append loop joins one assignment per id; no id is an error |
| `Schemata.FilterItems` | pkg/kunpeng-qos-controller/controller/resctrl_group_manager.go:236-249 | exactly the lines with a supported key are kept, in order; all when nothing is known |
| `Schemata.BuildSchemataItems` | pkg/kunpeng-qos-controller/controller/resctrl_group_manager.go:174-249 | the items are the lines of the configuration in file order, or the first error in the order bandwidth, mask, cache |
| `Schemata.LinesWrittenOut` | pkg/kunpeng-qos-controller/controller/resctrl_group_manager.go:174-234 | the eight keys in their order, the bandwidth keys naming the NUMA ids and the cache keys the cache ids |
| `Schemata.SupportedMeaning` | pkg/kunpeng-qos-controller/controller/resctrl_group_manager.go:236-249 | a line is kept exactly when its key is supported, or nothing is known |
| `Schemata.ParseSchemataIDs` | pkg/kunpeng-qos-controller/util/mpam_topology.go:62-103 | the loop over the lines computes the specification: the first line with the prefix decides |
| `Schemata.ParseIdLine` | pkg/kunpeng-qos-controller/util/mpam_topology.go:74-101 | collecting and sorting in place give the sorted ids of a line, or its error |
| `Schemata.LineMeaning` | pkg/kunpeng-qos-controller/util/mpam_topology.go:74-101 | a line yields the ids of its assignments; an assignment without a readable id is an error, and so is a line without assignments |
| `Schemata.IdsReadBack` | pkg/kunpeng-qos-controller/util/mpam_topology.go:62-103 | from the written file the sorted NUMA ids are recovered under MB and the sorted cache ids under L3, exactly when those lines were supported |
| `Schemata.PaddedIdsReadBack` | pkg/kunpeng-qos-controller/util/mpam_topology.go:62-103 | padding the written lines with blanks before the key changes no answer |
| `SchemataMonitor.ParseLine` | pkg/kunpeng-perf-monitor/collector/mpam_util.go:77-127 | a line is split, checked and stored under the table its key contains; the first bad pair is the error |
| `SchemataMonitor.LineReadsBack` | pkg/kunpeng-perf-monitor/collector/mpam_util.go:77-127 | a written line yields its value for every id under its own key, in the cache data for L3 keys and the memory data for MB keys |
| `SchemataMonitor.FileReadsBack` | pkg/kunpeng-perf-monitor/collector/mpam_util.go:129-158 | reading written lines yields exactly what they tell, and fails exactly when a value does not read |
| `SchemataMonitor.ToldHolds` | pkg/kunpeng-perf-monitor/collector/mpam_util.go:61-73 | under distinct keys every line's table is stored under its key and nothing else is stored |
| `SchemataMonitor.BuiltLinesReadBack` | pkg/kunpeng-perf-monitor/collector/mpam_util.go:77-127 | from the lines built for a configuration every configured value is recovered for every id; they are refused exactly when there is an L3 line of more than 63 ways |
| `SchemataMonitor.GetMPAMConfigData` | pkg/kunpeng-perf-monitor/collector/mpam_util.go:129-158 | the scanning loop computes the specification, its first error included |
| `SchemataMonitor.MonitorReadsBack` | pkg/kunpeng-perf-monitor/collector/mpam_util.go:129-158 | from the content of a written file the monitor recovers every configured value for every id, and refuses the file exactly when it has an L3 line of more than 63 ways or a line longer than the scanner takes |
| `SchemataMonitor.PaddedReadsBack` | pkg/kunpeng-perf-monitor/collector/mpam_util.go:77-127 | padding the written lines changes neither the discovered keys nor the data read |
| `SchemataMonitor.ParseSchemataKeys` | pkg/kunpeng-qos-controller/util/mpam_topology.go:105-132 | the keys in order of first appearance; none is an error |
| `SchemataMonitor.KeysReadBack` | pkg/kunpeng-qos-controller/util/mpam_topology.go:105-132 | from the written file exactly the keys of the written lines are discovered, in order |
| `DevkitArgs.ParseAttemptMetadata` | pkg/kunpeng-perf-monitor/collector/devkit_coordination.go:49-121 | the index loop and the checks compute the specification, first problem included |
| `DevkitArgs.CommandsWrittenOut` | pkg/kunpeng-perf-monitor/collector/devkit_topdown.go:245-260 | command lines written out word by word, with their defaults |
| `DevkitArgs.GatherMeaning` | pkg/kunpeng-perf-monitor/collector/devkit_coordination.go:54-68 | the flags are taken exactly when every flag has a non-empty value and none comes twice; the table then says what the list says |
| `DevkitArgs.TopdownArgsReadBack` | pkg/kunpeng-perf-monitor/collector/devkit_topdown.go:245-260 | for every configuration value the TopDown command line is accepted, names the process, else the CPUs, else the system, and asks for the configured duration or 3 |
| `DevkitArgs.MemoryArgsReadBack` | pkg/kunpeng-perf-monitor/collector/devkit_memory.go:238-257 | for every configuration value the Memory command line is accepted, with the configured period when it is 100 or 1000, else the default of the duration |
| `DevkitArgs.AcceptedTopdownIsBuilt` | pkg/kunpeng-perf-monitor/collector/devkit_coordination.go:49-94 | every accepted TopDown command line has the labels and duration of one the builder makes |
| `DevkitArgs.AcceptedMemoryIsBuilt` | pkg/kunpeng-perf-monitor/collector/devkit_coordination.go:95-118 | every accepted Memory command line has the labels and duration of one the builder makes |
| `DevkitConfig.ParseMeaning` | pkg/kunpeng-perf-monitor/collector/devkit_config.go:115-231 | exactly the acceptable configurations are accepted; the result keeps texts and explicit numbers, fills in 3 seconds and a period of 1000, or 100 for one second, passes validation, is a fixed point of the defaults and parses to itself when written out |
| `DevkitConfig.SelectorsAcceptedIff` | pkg/kunpeng-perf-monitor/collector/devkit_config.go:115-135 | the selector texts accepted: empty ones, CPU texts of at most 1024 characters and 512 numbers and ranges, PID texts of at most 512 characters and 32 numbers, all within the host bounds |
| `DevkitConfig.DefaultsAgree` | pkg/kunpeng-perf-monitor/collector/devkit_config.go:147-162 | the defaults written down in withDefaults and in each of the two command builders agree on every configuration, and withDefaults is idempotent |
| `DevkitConfig.AcceptedSelectorsArePlain` | pkg/kunpeng-perf-monitor/collector/devkit_config.go:115-135 | the selectors of an accepted configuration hold digits, commas and minus signs only |
| `DevkitConfig.CPUBoundOnlyRejects` | pkg/kunpeng-perf-monitor/collector/devkit_selector.go:48-127 | a CPU text accepted under the host's bound has the same canonical form without it |
| `DevkitConfig.PIDBoundOnlyRejects` | pkg/kunpeng-perf-monitor/collector/devkit_selector.go:129-158 | a PID text accepted under the host's bound has the same canonical form without it |
| `DevkitConfig.AcceptedScopeIsConfigured` | pkg/kunpeng-perf-monitor/collector/devkit_topdown_parser.go:107-124 | through configuration, command line and labels, the scope a report is compared with is always comparable and is exactly the configured one |
| `QosStepDown.NormalizeReasons` | pkg/kunpeng-qos-controller/dynamiccontrol/coordinator.go:72-106 | the loops yield the recognised reasons, each once in fixed order, as a function of their set, and the unrecognised texts in order |
| `QosStepDown.ReasonMeaning` | pkg/kunpeng-qos-controller/dynamiccontrol/coordinator.go:72-92 | the resource each text names, in any case and with white space around it: cpu, mb, l3 or none |
| `QosStepDown.ListedMeaning` | pkg/kunpeng-qos-controller/dynamiccontrol/coordinator.go:93-105 | the listed reasons are exactly the set, without repetition |
| `QosStepDown.OrderIsIrrelevant` | pkg/kunpeng-qos-controller/dynamiccontrol/qospolicy_dynamic_updater.go:188-207 | applying reasons without repetition in any order has the effect of their set |
| `QosStepDown.Updater.ApplyReasonsToSpec` | pkg/kunpeng-qos-controller/dynamiccontrol/qospolicy_dynamic_updater.go:188-207 | the loop through the pointer leaves the fold of the reasons in the settings and keeps the selector |
| `QosStepDown.Updater.EnsurePolicy` | pkg/kunpeng-qos-controller/dynamiccontrol/qospolicy_dynamic_updater.go:69-95 | creates the default policy exactly when there is none |
| `QosStepDown.Updater.ApplyReasons` | pkg/kunpeng-qos-controller/dynamiccontrol/qospolicy_dynamic_updater.go:98-153 | a round changes the stored policy, with its shared selector map, exactly as the specification of one round says |
| `QosStepDown.RunFormula` | pkg/kunpeng-qos-controller/dynamiccontrol/qospolicy_dynamic_updater.go:98-214 | when only this updater writes, after m MB and k L3 rounds the limits are max(100 - 10m, 1), max(4 - k, 1) and max(100 - 10k, 1) (for any step sizes), everything is in range, and no request is refused |
| `QosStepDown.RunInNumbers` | pkg/kunpeng-qos-controller/dynamiccontrol/qospolicy_dynamic_updater.go:98-214 | with the default steps: max(100 - 10m, 1), max(4 - k, 1) and max(100 - 10k, 1), level -1 once the CPU reason was seen, hdl 1 and pri 3 |
| `QosStepDown.TextsStepDown` | pkg/kunpeng-qos-controller/dynamiccontrol/qospolicy_dynamic_updater.go:188-207 | what the texts of one round do to a stored policy: "mb" lowers the bandwidth limit by 10, "l3" the ways by 1 and the cache limit by 10, none below 1, "cpu" sets the level to -1; without a step a zero becomes 1 way or the default, and nothing else changes |
| `QosStepDown.SchemaWrittenOut` | api/kunpeng-qos-controller/v1alpha1/qospolicy_types.go:48-118 | the schema's ranges, and the defaults filled in for missing fields |
| `QosStepDown.RunSettles` | pkg/kunpeng-qos-controller/dynamiccontrol/qospolicy_dynamic_updater.go:139-153 | a run writes at most 22 times, and never again once every limit is down and the CPU reason was seen |
| `QosStepDown.RefusedIff` | api/kunpeng-qos-controller/v1alpha1/qospolicy_types.go:48-58 | on any stored policy in range a round is refused exactly when it gives the CPU reason while the stored level is 1 |
| `QosStepDown.WrittenRoundLowersIff` | api/kunpeng-qos-controller/v1alpha1/qospolicy_types.go:61-118 | a written round stays in range, raises a limit exactly when it was stored as zero, and resets hdl and pri exactly when they were zero |
| `QosStepDown.LabelRepairedIff` | pkg/kunpeng-qos-controller/dynamiccontrol/qospolicy_dynamic_updater.go:139-153 | a wrong node label is repaired exactly when the round writes for another reason |

## Left out

- gRPC, HTTP, NRI, container runtimes, the Kubernetes client, Prometheus and file access: files and
  stored objects are maps and values here, and what a call may return is a parameter.
- Regular expressions: TopDown rows start as matched name, value and event; locating reports,
  summaries, the PMU table and the Memory table is not modelled.
- float64: percentages and NUMA loads are exact rationals, and schemata values stay integers (the
  conversion of values above 2^53 to float64 is not modelled).
- Binding.PassIsFair: an earlier pod that is added may take the pair of a later bound one, so nothing is
  claimed about additions; "askers" are the matching pods whose first cgroup file can be read.
- WakeUp.AtRestIsCurrent: the reads and writes of one pass are one step, so changes that others make
  to files in the middle of a pass are not modelled.
- WakeUp.ComesToRest: fairness of the scheduler is not modelled; the bound counts steps, not time.
- Resolving a pod to its cgroup directories, path containment and symlink checks: a map from pods to
  paths stands for them.
- Discovering sibling pairs in sysfs (the walk over CPU directories and its deduplication).
- SchemataMonitor.MonitorReadsBack: line lengths are counted in characters, which are bytes for every
  written line; how the scanner reads its buffer in pieces is not modelled.
- The loop bound of cpuset ranges that end at the largest 64-bit integer, where Go's counter would wrap.
- NodeTree.CollectNodes: the nil node is a null reference; the running number and the greatest depth so
  far are parameters and results instead of policy fields.
- The interior of Supply, of grants and of the pool bookkeeping: a pool carries the numbers its free
  supply reports for one request.
- PoolSelection.AllocatePool: the affinity map and the NUMA nodes of requested GPUs are parameters.
- Reserved CPUs, memory accounting and the stale-container handling of the container cache.
- Devices.ServersFollowScans: starting, registering and stopping a server always succeed, and the channel
  is a queue without a capacity.
- Normalisation and truncation of log texts, and debug logs.
- Panics inside a collection are rounds that end without touching the failure state; that the round
  ids increase is not stated.
- YAML decoding, environment variables and the ConfigMap watcher: a configuration starts as decoded
  fields.
- QosStepDown.Updater.ApplyReasons: the policy's name is not modelled (nodes whose names differ only in
  dots, dashes and underscores share one), nor are conflicts, retries and other API errors.
- Finalizer reconcilers, webhooks, GPU plugins and generated code.
