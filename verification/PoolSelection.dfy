/** Filter, sort and select (pool_filter.go, topology_aware.go): where a container goes. */
module PoolSelection {
  import opened Text
  import opened Sorting
  import opened Pools

  /** A request against a policy: the policy's root and settings, and the request's memory
      limit in bytes. */
  datatype Request = Request(root: Pool, ranking: Ranking, memoryTopology: bool, memoryLimit: int)

  /** uint64(limit / 1024): Go truncates toward zero, and the conversion wraps. */
  function MemoryLimitKB(limit: int): nat {
    var quotient := if limit >= 0 then limit / 1024 else -((-limit) / 1024);
    quotient % 0x1_0000_0000_0000_0000
  }

  /** For 64-bit limits: whole KB, rounded down; a negative limit of 1 KB or more becomes a
      number near 2 to the 64. */
  lemma {:induction false} MemoryLimitMeaning(limit: int)
    requires MIN_INT64 <= limit <= MAX_INT64
    ensures var kb := MemoryLimitKB(limit);
            && (limit >= 0 ==> 1024 * kb <= limit < 1024 * kb + 1024)
            && (-1024 < limit < 0 ==> kb == 0)
            && (limit <= -1024 ==>
                  1024 * (0x1_0000_0000_0000_0000 - kb) <= 0 - limit < 1024 * (0x1_0000_0000_0000_0000 - kb) + 1024)
  {
  }

  // ---------- capacity along the parent chain ----------

  function FitsRequest(root: Pool, pool: Pool): bool
    decreases pool
  {
    pool == root ||
    (pool.score.sharedByRequest >= 0 && pool.parent.Some? && FitsRequest(root, pool.parent.value))
  }

  function FitsMemory(root: Pool, pool: Pool, limitKB: nat): bool
    decreases pool
  {
    pool == root ||
    (pool.score.memoryCapacity >= limitKB && pool.parent.Some? && FitsMemory(root, pool.parent.value, limitKB))
  }

  predicate HasCapacity(q: Request, pool: Pool) {
    && FitsRequest(q.root, pool)
    && (q.memoryTopology && MemoryLimitKB(q.memoryLimit) != 0 ==>
          FitsMemory(q.root, pool, MemoryLimitKB(q.memoryLimit)))
  }

  /** The root has capacity for everything. */
  lemma {:induction false} RootHasCapacity(q: Request)
    ensures HasCapacity(q, q.root)
  {
  }

  /** Capacity is upward closed: a pool with capacity has a parent with capacity. */
  lemma {:induction false} CapacityIsUpwardClosed(q: Request, pool: Pool)
    requires HasCapacity(q, pool) && pool != q.root
    ensures pool.parent.Some? && HasCapacity(q, pool.parent.value)
  {
  }

  ghost predicate Above(ancestor: Pool, pool: Pool)
    decreases pool
  {
    ancestor == pool || (pool.parent.Some? && Above(ancestor, pool.parent.value))
  }

  lemma {:induction false} AboveTransitive(a: Pool, b: Pool, c: Pool)
    requires Above(a, b) && Above(b, c)
    ensures Above(a, c)
    decreases c
  {
    if b != c {
      AboveTransitive(a, b, c.parent.value);
    }
  }

  /** MAIN: a pool has capacity exactly when it lies below the root and every pool from it
      up to, but not including, the root can take the request. */
  lemma {:induction false} CapacityIsWholeChain(q: Request, pool: Pool)
    ensures var limitKB := MemoryLimitKB(q.memoryLimit);
            HasCapacity(q, pool) <==>
              && Above(q.root, pool)
              && forall p | Above(p, pool) && Above(q.root, p) && p != q.root ::
                   && p.score.sharedByRequest >= 0
                   && (q.memoryTopology && limitKB != 0 ==> p.score.memoryCapacity >= limitKB)
    decreases pool
  {
    if pool == q.root {
      forall p | Above(p, pool) && Above(q.root, p) ensures p == q.root {
        AboveAntisymmetric(q.root, p);
      }
    } else if pool.parent.Some? {
      CapacityIsWholeChain(q, pool.parent.value);
      assert Above(pool, pool);
      assert forall p :: Above(p, pool) <==> p == pool || Above(p, pool.parent.value);
    }
  }

  lemma {:induction false} AboveAntisymmetric(a: Pool, b: Pool)
    requires Above(a, b) && Above(b, a)
    ensures a == b
  {
    AboveIsNoLarger(a, b);
    AboveIsNoLarger(b, a);
  }

  function Size(pool: Pool): nat {
    if pool.parent.None? then 1 else 1 + Size(pool.parent.value)
  }

  lemma {:induction false} AboveIsNoLarger(a: Pool, b: Pool)
    requires Above(a, b)
    ensures a == b || Size(a) < Size(b)
    decreases b
  {
    if a != b {
      AboveIsNoLarger(a, b.parent.value);
    }
  }

  method CheckCapacityByRequest(root: Pool, candidate: Pool) returns (fits: bool)
    ensures fits == FitsRequest(root, candidate)
  {
    var pool := candidate;
    while pool != root
      invariant FitsRequest(root, candidate) == FitsRequest(root, pool)
      decreases pool
    {
      if pool.score.sharedByRequest < 0 {
        return false;
      }
      if pool.parent.None? {
        return false;
      }
      pool := pool.parent.value;
    }
    return true;
  }

  method CheckMemoryCapacity(root: Pool, candidate: Pool, memoryLimit: int) returns (fits: bool)
    ensures fits == (MemoryLimitKB(memoryLimit) == 0 || FitsMemory(root, candidate, MemoryLimitKB(memoryLimit)))
  {
    var limitKB := MemoryLimitKB(memoryLimit);
    if limitKB == 0 {
      return true;
    }
    var pool := candidate;
    while pool != root
      invariant FitsMemory(root, candidate, limitKB) == FitsMemory(root, pool, limitKB)
      decreases pool
    {
      if pool.score.memoryCapacity < limitKB {
        return false;
      }
      if pool.parent.None? {
        return false;
      }
      pool := pool.parent.value;
    }
    return true;
  }

  method CheckCapacity(q: Request, pool: Pool) returns (fits: bool)
    ensures fits == HasCapacity(q, pool)
  {
    fits := CheckCapacityByRequest(q.root, pool);
    if !fits {
      return false;
    }
    if q.memoryTopology {
      fits := CheckMemoryCapacity(q.root, pool, q.memoryLimit);
    }
  }

  // ---------- filtering ----------

  /** The pools below the root that have capacity, in their given order. */
  function Fitting(q: Request, pools: seq<Pool>): (r: seq<Pool>)
    ensures forall p :: p in r <==> p in pools && p != q.root && HasCapacity(q, p)
    ensures |r| <= |pools|
  {
    if pools == [] then []
    else
      var n := |pools| - 1;
      var init := Fitting(q, pools[..n]);
      assert pools == pools[..n] + [pools[n]];
      if pools[n] != q.root && HasCapacity(q, pools[n]) then init + [pools[n]] else init
  }

  function Filtered(q: Request, pools: seq<Pool>): seq<Pool> {
    if Fitting(q, pools) == [] && q.root in pools then [q.root] else Fitting(q, pools)
  }

  /** The candidates: the pools below the root with capacity, or the root when there is none. */
  lemma {:induction false} FilteredIff(q: Request, pools: seq<Pool>, p: Pool)
    ensures p in Filtered(q, pools) <==>
              && p in pools
              && if p != q.root then HasCapacity(q, p) else forall o | o in pools && o != p :: !HasCapacity(q, o)
  {
    hide HasCapacity;
    if Fitting(q, pools) != [] {
      var o := Fitting(q, pools)[0];
      assert o in Fitting(q, pools);
    }
  }

  method FilterPoolsByCapacity(q: Request, pools: seq<Pool>) returns (filtered: seq<Pool>)
    ensures filtered == Filtered(q, pools)
  {
    filtered := [];
    var rootPool: Option<Pool> := None;
    for i := 0 to |pools|
      invariant filtered == Fitting(q, pools[..i])
      invariant rootPool == if q.root in pools[..i] then Some(q.root) else None
    {
      assert pools[..i + 1] == pools[..i] + [pools[i]];
      assert pools[..i + 1][..i] == pools[..i];
      if pools[i] == q.root {
        rootPool := Some(pools[i]);
        continue;
      }
      var fits := CheckCapacity(q, pools[i]);
      if fits {
        filtered := filtered + [pools[i]];
      }
    }
    assert pools[..|pools|] == pools;
    if filtered == [] && rootPool.Some? {
      filtered := filtered + [rootPool.value];
    }
  }

  // ---------- selecting ----------

  /** The choice of findRegularPool: the first of the deepest pools with capacity. */
  ghost predicate FirstDeepest(q: Request, pools: seq<Pool>, choice: Option<Pool>) {
    match choice
    case None => forall p :: p in pools ==> !HasCapacity(q, p)
    case Some(best) =>
      exists k :: 0 <= k < |pools| && pools[k] == best && HasCapacity(q, best)
                  && (forall i :: 0 <= i < |pools| && HasCapacity(q, pools[i]) ==> pools[i].depth <= best.depth)
                  && (forall i :: 0 <= i < k && HasCapacity(q, pools[i]) ==> pools[i].depth < best.depth)
  }

  method FindRegularPool(q: Request, pools: seq<Pool>) returns (best: Option<Pool>)
    ensures FirstDeepest(q, pools, best)
  {
    if pools == [] {
      return None;
    }
    best := None;
    var maxDepth: int := -1;
    ghost var k := 0;
    for i := 0 to |pools|
      invariant maxDepth == if best.Some? then best.value.depth as int else -1
      invariant best.Some? ==> 0 <= k < i && pools[k] == best.value && HasCapacity(q, best.value)
      invariant forall j :: 0 <= j < i && HasCapacity(q, pools[j]) ==> pools[j].depth <= maxDepth
      invariant best.Some? ==> forall j :: 0 <= j < k && HasCapacity(q, pools[j]) ==> pools[j].depth < maxDepth
    {
      var fits := CheckCapacity(q, pools[i]);
      if fits {
        var depth := pools[i].depth;
        if depth > maxDepth {
          best := Some(pools[i]);
          maxDepth := depth;
          k := i;
        }
      }
    }
  }

  predicate Touches(numaIDs: seq<int>, gpuNodes: set<int>) {
    exists i :: 0 <= i < |numaIDs| && numaIDs[i] in gpuNodes
  }

  /** Every NUMA node of a requested GPU weighs 1000. */
  function GPUAffinity(gpuNodes: set<int>): map<int, int> {
    map n | n in gpuNodes :: 1000
  }

  /** The first sorted pool on one of the requested GPUs' NUMA nodes. */
  ghost predicate FirstTouching(sorted: seq<Pool>, gpuNodes: set<int>, choice: Option<Pool>) {
    match choice
    case None => forall i :: 0 <= i < |sorted| ==> !Touches(sorted[i].numaIDs, gpuNodes)
    case Some(best) =>
      exists k :: 0 <= k < |sorted| && sorted[k] == best && Touches(best.numaIDs, gpuNodes)
                  && forall i :: 0 <= i < k ==> !Touches(sorted[i].numaIDs, gpuNodes)
  }

  /** The pools of a request after filtering and sorting with the given affinity. */
  ghost function Ranked(q: Request, pools: seq<Pool>, affinity: map<int, int>, scores: map<int, Score>): seq<Pool> {
    Sort(Less(q.ranking.(affinity := affinity), scores), Filtered(q, pools))
  }

  method RankPools(q: Request, pools: seq<Pool>, affinity: map<int, int>)
    returns (sorted: seq<Pool>, scores: map<int, Score>)
    requires DistinctIds(pools)
    ensures ScoresOf(scores, Filtered(q, pools))
    ensures sorted == Ranked(q, pools, affinity, scores)
  {
    var filtered := FilterPoolsByCapacity(q, pools);
    FilteredDistinct(q, pools);
    var backing := new Pool[|filtered|](i requires 0 <= i < |filtered| => filtered[i]);
    assert backing[..] == filtered;
    scores := SortPoolsByScore(q.ranking.(affinity := affinity), backing);
    sorted := backing[..];
  }

  lemma {:induction false} FilteredDistinct(q: Request, pools: seq<Pool>)
    requires DistinctIds(pools)
    ensures DistinctIds(Filtered(q, pools))
    ensures forall p | p in Filtered(q, pools) :: p in pools && HasCapacity(q, p)
  {
    RootHasCapacity(q);
  }

  method FindGPUAffinityPool(q: Request, pools: seq<Pool>, gpuNodes: set<int>)
    returns (best: Option<Pool>, ghost scores: map<int, Score>)
    requires DistinctIds(pools)
    ensures gpuNodes == {} ==> best == None
    ensures gpuNodes != {} ==>
              && ScoresOf(scores, Filtered(q, pools))
              && FirstTouching(Ranked(q, pools, GPUAffinity(gpuNodes), scores), gpuNodes, best)
  {
    scores := map[];
    if gpuNodes == {} {
      return None, scores;
    }
    var sorted;
    sorted, scores := RankPools(q, pools, GPUAffinity(gpuNodes));
    for i := 0 to |sorted|
      invariant forall j :: 0 <= j < i ==> !Touches(sorted[j].numaIDs, gpuNodes)
    {
      if Touches(sorted[i].numaIDs, gpuNodes) {
        return Some(sorted[i]), scores;
      }
    }
    return None, scores;
  }

  /** findBestAvailablePool: gpu-first with a GPU request looks at GPU pools first. */
  method FindBestAvailablePool(q: Request, pools: seq<Pool>, gpuNodes: set<int>, sorted: seq<Pool>)
    returns (pool: Option<Pool>, ghost scores: map<int, Score>)
    requires DistinctIds(pools)
    ensures q.ranking.gpuFirst && q.ranking.hasGPURequest && gpuNodes != {}
            && (exists p :: p in Filtered(q, pools) && Touches(p.numaIDs, gpuNodes)) ==>
              pool.Some? && ScoresOf(scores, Filtered(q, pools))
              && FirstTouching(Ranked(q, pools, GPUAffinity(gpuNodes), scores), gpuNodes, pool)
    ensures !(q.ranking.gpuFirst && q.ranking.hasGPURequest && gpuNodes != {}
              && exists p :: p in Filtered(q, pools) && Touches(p.numaIDs, gpuNodes)) ==>
              FirstDeepest(q, sorted, pool)
  {
    scores := map[];
    if q.ranking.gpuFirst && q.ranking.hasGPURequest {
      pool, scores := FindGPUAffinityPool(q, pools, gpuNodes);
      if gpuNodes != {} {
        TouchingPoolIsFound(q, pools, gpuNodes, scores, pool);
      }
      if pool.Some? {
        return;
      }
    }
    pool := FindRegularPool(q, sorted);
  }

  lemma {:induction false} TouchingPoolIsFound(
      q: Request, pools: seq<Pool>, gpuNodes: set<int>, scores: map<int, Score>, choice: Option<Pool>)
    requires FirstTouching(Ranked(q, pools, GPUAffinity(gpuNodes), scores), gpuNodes, choice)
    ensures choice.Some? <==> exists p :: p in Filtered(q, pools) && Touches(p.numaIDs, gpuNodes)
  {
    var sorted := Ranked(q, pools, GPUAffinity(gpuNodes), scores);
    SortMultiset(Less(q.ranking.(affinity := GPUAffinity(gpuNodes)), scores), Filtered(q, pools));
    SameElements(sorted, Filtered(q, pools));
    if choice.None? {
      forall p | p in Filtered(q, pools) ensures !Touches(p.numaIDs, gpuNodes) {
        assert p in sorted;
      }
    }
  }

  // ---------- what is selected ----------

  /** The pool is deepest among those the filter let through, and no equally deep one is
      ranked before it. */
  ghost predicate BestDeepest(r: Ranking, scores: map<int, Score>, candidates: seq<Pool>, best: Pool) {
    && best in candidates
    && (forall p | p in candidates :: p.depth <= best.depth)
    && (forall p | p in candidates && p.depth == best.depth && p != best :: Before(r, scores, best, p))
  }

  /** MAIN: when the root is one of the pools, the regular path always finds a pool: the
      least in the ranking among the deepest pools with capacity; it is the root exactly
      when no other pool has capacity. */
  lemma {:induction false} RegularSelection(
      q: Request, pools: seq<Pool>, affinity: map<int, int>, scores: map<int, Score>, choice: Option<Pool>)
    requires DistinctIds(pools) && q.root in pools
    requires ScoresOf(scores, Filtered(q, pools))
    requires FirstDeepest(q, Ranked(q, pools, affinity, scores), choice)
    ensures choice.Some? && HasCapacity(q, choice.value)
    ensures BestDeepest(q.ranking.(affinity := affinity), scores, Filtered(q, pools), choice.value)
    ensures choice.value == q.root <==> forall p | p in pools && p != q.root :: !HasCapacity(q, p)
  {
    hide Before, HasCapacity, ScoresOf, DistinctIds;
    var candidates := Filtered(q, pools);
    var r := q.ranking.(affinity := affinity);
    var less := Less(r, scores);
    var sorted := Sort(less, candidates);
    FilteredDistinct(q, pools);
    ComparisonIsTotal(r, scores, candidates);
    SortSorted(less, candidates);
    SortMultiset(less, candidates);
    SameElements(sorted, candidates);
    SameElements(candidates, sorted);
    assert candidates != [];
    assert candidates[0] in candidates;
    FirstDeepestIsBest(q, r, scores, sorted, candidates, choice);
  }

  lemma {:induction false} FirstDeepestIsBest(
      q: Request, r: Ranking, scores: map<int, Score>, sorted: seq<Pool>, candidates: seq<Pool>, choice: Option<Pool>)
    requires FirstDeepest(q, sorted, choice) && candidates != []
    requires TotalOn(Less(r, scores), candidates) && Sorted(Less(r, scores), sorted)
    requires forall p | p in candidates :: HasCapacity(q, p)
    requires forall p :: p in sorted <==> p in candidates
    ensures choice.Some? && HasCapacity(q, choice.value) && BestDeepest(r, scores, candidates, choice.value)
  {
    hide Before, HasCapacity;
    var less := Less(r, scores);
    assert candidates[0] in candidates && candidates[0] in sorted;
    var best := choice.value;
    var k :| 0 <= k < |sorted| && sorted[k] == best && HasCapacity(q, best)
             && (forall i :: 0 <= i < |sorted| && HasCapacity(q, sorted[i]) ==> sorted[i].depth <= best.depth)
             && (forall i :: 0 <= i < k && HasCapacity(q, sorted[i]) ==> sorted[i].depth < best.depth);
    forall p | p in candidates
      ensures p.depth <= best.depth && (p.depth == best.depth && p != best ==> Before(r, scores, best, p))
    {
      assert p in sorted;
      var i :| 0 <= i < |sorted| && sorted[i] == p;
      assert HasCapacity(q, sorted[i]);
      assert i > k ==> !less(sorted[i], sorted[k]);
      assert best in candidates;
    }
  }

  /** MAIN: the GPU path returns the least in its ranking among the filtered pools that
      touch a requested GPU's NUMA node, and nothing exactly when there is none. */
  lemma {:induction false} GPUSelection(
      q: Request, pools: seq<Pool>, gpuNodes: set<int>, scores: map<int, Score>, choice: Option<Pool>)
    requires DistinctIds(pools) && ScoresOf(scores, Filtered(q, pools))
    requires FirstTouching(Ranked(q, pools, GPUAffinity(gpuNodes), scores), gpuNodes, choice)
    ensures choice.None? <==> forall p | p in Filtered(q, pools) :: !Touches(p.numaIDs, gpuNodes)
    ensures choice.Some? ==>
              && choice.value in Filtered(q, pools) && Touches(choice.value.numaIDs, gpuNodes)
              && forall p | p in Filtered(q, pools) && Touches(p.numaIDs, gpuNodes) && p != choice.value ::
                   Before(q.ranking.(affinity := GPUAffinity(gpuNodes)), scores, choice.value, p)
  {
    hide Before, HasCapacity, ScoresOf, DistinctIds, Touches, Sort, Sorted, TotalOn, Filtered;
    var r := q.ranking.(affinity := GPUAffinity(gpuNodes));
    var less := Less(r, scores);
    var candidates := Filtered(q, pools);
    TouchingPoolIsFound(q, pools, gpuNodes, scores, choice);
    FilteredDistinct(q, pools);
    ComparisonIsTotal(r, scores, candidates);
    SortSorted(less, candidates);
    SortMultiset(less, candidates);
    SameElements(Sort(less, candidates), candidates);
    if choice.Some? {
      FirstTouchingIsLeast(r, scores, Sort(less, candidates), candidates, gpuNodes, choice.value);
    }
  }

  lemma {:induction false} FirstTouchingIsLeast(
      r: Ranking, scores: map<int, Score>, sorted: seq<Pool>, candidates: seq<Pool>, gpuNodes: set<int>, best: Pool)
    requires FirstTouching(sorted, gpuNodes, Some(best))
    requires TotalOn(Less(r, scores), candidates) && Sorted(Less(r, scores), sorted)
    requires forall p :: p in sorted <==> p in candidates
    ensures best in candidates && Touches(best.numaIDs, gpuNodes)
    ensures forall p | p in candidates && Touches(p.numaIDs, gpuNodes) && p != best :: Before(r, scores, best, p)
  {
    hide Before, Touches;
    var less := Less(r, scores);
    var k :| 0 <= k < |sorted| && sorted[k] == best && forall i :: 0 <= i < k ==> !Touches(sorted[i].numaIDs, gpuNodes);
    forall p | p in candidates && Touches(p.numaIDs, gpuNodes) && p != best ensures less(best, p) {
      assert p in sorted;
      var i :| 0 <= i < |sorted| && sorted[i] == p;
      assert i > k && !less(sorted[i], sorted[k]);
    }
  }

  // ---------- the priority setting does not decide ----------

  lemma {:induction false} FittingIgnoresPriority(q: Request, other: Request, pools: seq<Pool>)
    requires q.(ranking := other.ranking) == other
    ensures Fitting(q, pools) == Fitting(other, pools)
  {
    if pools != [] {
      FittingIgnoresPriority(q, other, pools[..|pools| - 1]);
    }
  }

  /** MAIN: with scores as the supplies compute them, cpu-first and gpu-first give the same
      ranked list, and so the same regular choice. */
  lemma {:induction false} PriorityHasNoEffect(
      q: Request, pools: seq<Pool>, affinity: map<int, int>, scores: map<int, Score>,
      cpuLimit: int, choice: Option<Pool>)
    requires DistinctIds(pools) && ScoresOf(scores, Filtered(q, pools))
    requires FromSupply(Filtered(q, pools), cpuLimit) && ModerateAffinity(affinity, Filtered(q, pools))
    ensures var gpu := q.(ranking := q.ranking.(gpuFirst := true));
            var cpu := q.(ranking := q.ranking.(gpuFirst := false));
            && Ranked(gpu, pools, affinity, scores) == Ranked(cpu, pools, affinity, scores)
            && (FirstDeepest(gpu, Ranked(gpu, pools, affinity, scores), choice) <==>
                FirstDeepest(cpu, Ranked(cpu, pools, affinity, scores), choice))
  {
    hide DistinctIds, ScoresOf, FromSupply, ModerateAffinity, Less, FirstDeepest;
    var gpu := q.(ranking := q.ranking.(gpuFirst := true));
    var cpu := q.(ranking := q.ranking.(gpuFirst := false));
    FittingIgnoresPriority(q, gpu, pools);
    FittingIgnoresPriority(q, cpu, pools);
    FilteredDistinct(q, pools);
    PrioritiesSortAlike(q.ranking.(affinity := affinity), scores, Filtered(q, pools), cpuLimit);
    ChoiceIgnoresPriority(gpu, cpu, Ranked(cpu, pools, affinity, scores), choice);
  }

  lemma {:induction false} ChoiceIgnoresPriority(q: Request, other: Request, sorted: seq<Pool>, choice: Option<Pool>)
    requires q.(ranking := other.ranking) == other
    ensures FirstDeepest(q, sorted, choice) <==> FirstDeepest(other, sorted, choice)
  {
    forall p ensures HasCapacity(q, p) == HasCapacity(other, p) {
    }
  }

  // ---------- the limit is not what decides ----------

  /** MAIN: the ranking prefers pools whose free CPU covers the limit, but selection looks
      at depth first: the chosen pool covers the limit exactly when one of the deepest
      candidates does, whatever shallower pools could offer. */
  lemma {:induction false} LimitIsCoveredIffByADeepest(
      q: Request, pools: seq<Pool>, affinity: map<int, int>, scores: map<int, Score>, choice: Option<Pool>)
    requires DistinctIds(pools) && q.root in pools
    requires ScoresOf(scores, Filtered(q, pools))
    requires FirstDeepest(q, Ranked(q, pools, affinity, scores), choice)
    ensures choice.Some?
    ensures choice.value.score.shared >= 0 <==>
              exists p | p in Filtered(q, pools) ::
                p.score.shared >= 0 && forall o | o in Filtered(q, pools) :: o.depth <= p.depth
  {
    RegularSelection(q, pools, affinity, scores, choice);
    LimitOfBest(q.ranking.(affinity := affinity), scores, Filtered(q, pools), choice.value);
  }

  lemma {:induction false} LimitOfBest(r: Ranking, scores: map<int, Score>, candidates: seq<Pool>, best: Pool)
    requires BestDeepest(r, scores, candidates, best)
    ensures best.score.shared >= 0 <==>
              exists p | p in candidates :: p.score.shared >= 0 && forall o | o in candidates :: o.depth <= p.depth
  {
    hide ApplyResourcePriority;
  }

  /** A placement whose limit is not covered although a shallower candidate covers it: a
      request of 1 CPU with a limit of 4, a socket with room for the limit, and below it a
      NUMA node with room for the request only. */
  lemma {:induction false} LimitMayBeMissed() returns (q: Request, pools: seq<Pool>, socket: Pool)
    ensures DistinctIds(pools) && q.root in pools && FromSupply(pools, 4000)
    ensures socket in Filtered(q, pools) && socket.score.shared >= 0
    ensures forall affinity, scores, choice ::
              ScoresOf(scores, Filtered(q, pools)) && FirstDeepest(q, Ranked(q, pools, affinity, scores), choice) ==>
              choice.Some? && choice.value.score.shared < 0
  {
    hide Ranked, FirstDeepest;
    var root := Pool(0, 0, Score(12000, 15000, 0, 0), 16000, [0, 1], None);
    socket := Pool(1, 1, Score(4000, 7000, 0, 0), 8000, [0, 1], Some(root));
    var numa := Pool(2, 2, Score(-2000, 1000, 0, 0), 2000, [0], Some(socket));
    pools := [root, socket, numa];
    q := Request(root, Ranking(false, false, map[]), false, 0);
    assert FitsRequest(root, socket) && FitsRequest(root, numa);
    assert HasCapacity(q, socket) && HasCapacity(q, numa);
    assert numa in Filtered(q, pools) && socket in Filtered(q, pools);
    forall affinity, scores, choice |
      ScoresOf(scores, Filtered(q, pools)) && FirstDeepest(q, Ranked(q, pools, affinity, scores), choice)
      ensures choice.Some? && choice.value.score.shared < 0
    {
      RegularSelection(q, pools, affinity, scores, choice);
      assert choice.value in pools;
    }
  }

  // ---------- the whole placement ----------

  datatype Placement = NoPool | Placed(pool: Pool)

  /** A requested GPU steers the choice: gpu-first is set and a candidate is on its node. */
  predicate FollowsGPU(q: Request, candidates: seq<Pool>, gpuNodes: set<int>) {
    && q.ranking.gpuFirst && q.ranking.hasGPURequest
    && exists p :: p in candidates && Touches(p.numaIDs, gpuNodes)
  }

  /** The candidate on a requested GPU's node that is ranked before all others there. */
  ghost predicate LeastTouching(
      r: Ranking, scores: map<int, Score>, candidates: seq<Pool>, gpuNodes: set<int>, best: Pool) {
    && best in candidates && Touches(best.numaIDs, gpuNodes)
    && forall p | p in candidates && Touches(p.numaIDs, gpuNodes) && p != best :: Before(r, scores, best, p)
  }

  ghost predicate Chosen(
      q: Request, pools: seq<Pool>, affinity: map<int, int>, gpuNodes: set<int>, scores: map<int, Score>, best: Pool) {
    if FollowsGPU(q, Filtered(q, pools), gpuNodes)
    then LeastTouching(q.ranking.(affinity := GPUAffinity(gpuNodes)), scores, Filtered(q, pools), gpuNodes, best)
    else BestDeepest(q.ranking.(affinity := affinity), scores, Filtered(q, pools), best)
  }

  /** A requested GPU is on one of the pool's NUMA nodes. */
  ghost predicate OnGPUNode(p: Pool, gpuNodes: set<int>) {
    exists n :: n in p.numaIDs && n in gpuNodes
  }

  lemma {:induction false} TouchesMeaning(p: Pool, gpuNodes: set<int>)
    ensures Touches(p.numaIDs, gpuNodes) <==> OnGPUNode(p, gpuNodes)
  {
    if OnGPUNode(p, gpuNodes) {
      var n :| n in p.numaIDs && n in gpuNodes;
      var i :| 0 <= i < |p.numaIDs| && p.numaIDs[i] == n;
    }
    if Touches(p.numaIDs, gpuNodes) {
      var i :| 0 <= i < |p.numaIDs| && p.numaIDs[i] in gpuNodes;
      var n := p.numaIDs[i];
      assert n in p.numaIDs && n in gpuNodes;
    }
  }

  /** The same in the pools' own numbers.  Following the GPU: preferred to every other
      candidate on a requested GPU's node.  Otherwise: no candidate is deeper; among the
      equally deep ones it has the most free CPU beyond the limit, so it covers the limit if
      any of them does, and PreferredAmongEqual decides the rest. */
  ghost predicate BestInNumbers(q: Request, pools: seq<Pool>, affinity: map<int, int>, gpuNodes: set<int>, best: Pool) {
    var candidates := Filtered(q, pools);
    && best in candidates
    && if q.ranking.gpuFirst && q.ranking.hasGPURequest && exists p :: p in candidates && OnGPUNode(p, gpuNodes) then
         && OnGPUNode(best, gpuNodes)
         && forall p | p in candidates && OnGPUNode(p, gpuNodes) && p != best ::
              Preferred(q.ranking.(affinity := GPUAffinity(gpuNodes)), best, p)
       else
         forall p | p in candidates && p != best ::
           || p.depth < best.depth
           || (p.depth == best.depth && p.score.shared < best.score.shared)
           || (p.depth == best.depth && p.score.shared == best.score.shared
               && PreferredAmongEqual(q.ranking.(affinity := affinity), best, p))
  }

  lemma {:induction false} ChosenInNumbers(
      q: Request, pools: seq<Pool>, affinity: map<int, int>, gpuNodes: set<int>, scores: map<int, Score>, best: Pool)
    requires ScoresOf(scores, Filtered(q, pools)) && Chosen(q, pools, affinity, gpuNodes, scores, best)
    ensures BestInNumbers(q, pools, affinity, gpuNodes, best)
  {
    hide Before, Filtered, PreferredAmongEqual, Touches, OnGPUNode;
    var candidates := Filtered(q, pools);
    forall p | p in candidates ensures Touches(p.numaIDs, gpuNodes) <==> OnGPUNode(p, gpuNodes) {
      TouchesMeaning(p, gpuNodes);
    }
    var used := if FollowsGPU(q, candidates, gpuNodes) then GPUAffinity(gpuNodes) else affinity;
    forall p | p in candidates && Before(q.ranking.(affinity := used), scores, best, p)
      ensures Preferred(q.ranking.(affinity := used), best, p)
    {
      BeforeIsPreferred(q.ranking.(affinity := used), scores, best, p);
    }
  }

  /** How many of a pool's NUMA nodes hold a requested GPU. */
  function TouchCount(numaIDs: seq<int>, gpuNodes: set<int>): nat {
    if numaIDs == [] then 0
    else
      TouchCount(numaIDs[..|numaIDs| - 1], gpuNodes) + if numaIDs[|numaIDs| - 1] in gpuNodes then 1 else 0
  }

  /** Under the GPU ranking a pool's affinity is 100000 for each such node, as an int32. */
  lemma {:induction false} GPUAffinityCounts(r: Ranking, p: Pool, gpuNodes: set<int>)
    requires r.gpuFirst && r.hasGPURequest && r.affinity == GPUAffinity(gpuNodes)
    ensures Affinity(r, p) == Wrap32(100000 * TouchCount(p.numaIDs, gpuNodes))
  {
    hide Wrap32;
    TouchSums(p.numaIDs, gpuNodes);
  }

  lemma {:induction false} TouchSums(numaIDs: seq<int>, gpuNodes: set<int>)
    ensures PlainSum(GPUAffinity(gpuNodes), numaIDs) == 1000 * TouchCount(numaIDs, gpuNodes)
    ensures PositiveSum(GPUAffinity(gpuNodes), numaIDs) == 1000 * TouchCount(numaIDs, gpuNodes)
  {
    if numaIDs != [] {
      TouchSums(numaIDs[..|numaIDs| - 1], gpuNodes);
    }
  }

  /** MAIN: with the root among the pools every container is placed; system containers go to
      the root; the others go to a pool with capacity: the least one on a requested GPU's
      node when the policy follows the GPU, else the least one among the deepest. */
  method AllocatePool(q: Request, pools: seq<Pool>, kubeSystem: bool, affinity: map<int, int>, gpuNodes: set<int>)
    returns (placement: Placement)
    requires DistinctIds(pools)
    ensures kubeSystem ==> placement == Placed(q.root)
    ensures q.root in pools ==> placement.Placed?
    ensures !kubeSystem && placement.Placed? ==> placement.pool in Filtered(q, pools) && HasCapacity(q, placement.pool)
    ensures !kubeSystem && q.root in pools ==>
              exists scores ::
                ScoresOf(scores, Filtered(q, pools)) && Chosen(q, pools, affinity, gpuNodes, scores, placement.pool)
    ensures !kubeSystem && q.root in pools ==> BestInNumbers(q, pools, affinity, gpuNodes, placement.pool)
  {
    if kubeSystem {
      return Placed(q.root);
    }
    var sorted;
    ghost var scores;
    sorted, scores := RankPools(q, pools, affinity);
    if sorted == [] {
      SortedIsEmptyOnlyIfFilteredIs(q, pools, affinity, scores);
      return NoPool;
    }
    var pool;
    ghost var gpuScores;
    pool, gpuScores := FindBestAvailablePool(q, pools, gpuNodes, sorted);
    ChoiceIsFiltered(q, pools, affinity, scores, gpuNodes, gpuScores, pool);
    if pool.None? {
      return NoPool;
    }
    if q.root in pools {
      ghost var used := if FollowsGPU(q, Filtered(q, pools), gpuNodes) then gpuScores else scores;
      ChoiceIsBest(q, pools, affinity, scores, gpuNodes, gpuScores, pool);
      assert ScoresOf(used, Filtered(q, pools)) && Chosen(q, pools, affinity, gpuNodes, used, pool.value);
      ChosenInNumbers(q, pools, affinity, gpuNodes, used, pool.value);
    }
    return Placed(pool.value);
  }

  lemma {:induction false} SortedIsEmptyOnlyIfFilteredIs(
      q: Request, pools: seq<Pool>, affinity: map<int, int>, scores: map<int, Score>)
    ensures |Ranked(q, pools, affinity, scores)| == |Filtered(q, pools)|
    ensures q.root in pools ==> Filtered(q, pools) != []
  {
  }

  lemma {:induction false} ChoiceIsFiltered(
      q: Request, pools: seq<Pool>, affinity: map<int, int>, scores: map<int, Score>,
      gpuNodes: set<int>, gpuScores: map<int, Score>, pool: Option<Pool>)
    requires DistinctIds(pools) && ScoresOf(scores, Filtered(q, pools))
    requires || FirstDeepest(q, Ranked(q, pools, affinity, scores), pool)
             || (pool.Some? && FirstTouching(Ranked(q, pools, GPUAffinity(gpuNodes), gpuScores), gpuNodes, pool))
    ensures q.root in pools ==> pool.Some?
    ensures pool.Some? ==> pool.value in Filtered(q, pools) && HasCapacity(q, pool.value)
  {
    hide HasCapacity, Before, ScoresOf, DistinctIds;
    FilteredDistinct(q, pools);
    RankedElements(q, pools, affinity, scores);
    RankedElements(q, pools, GPUAffinity(gpuNodes), gpuScores);
    if FirstDeepest(q, Ranked(q, pools, affinity, scores), pool) && q.root in pools {
      RegularSelection(q, pools, affinity, scores, pool);
    }
  }

  lemma {:induction false} ChoiceIsBest(
      q: Request, pools: seq<Pool>, affinity: map<int, int>, scores: map<int, Score>,
      gpuNodes: set<int>, gpuScores: map<int, Score>, pool: Option<Pool>)
    requires DistinctIds(pools) && q.root in pools && ScoresOf(scores, Filtered(q, pools)) && pool.Some?
    requires if FollowsGPU(q, Filtered(q, pools), gpuNodes)
             then ScoresOf(gpuScores, Filtered(q, pools))
                  && FirstTouching(Ranked(q, pools, GPUAffinity(gpuNodes), gpuScores), gpuNodes, pool)
             else FirstDeepest(q, Ranked(q, pools, affinity, scores), pool)
    ensures var used := if FollowsGPU(q, Filtered(q, pools), gpuNodes) then gpuScores else scores;
            ScoresOf(used, Filtered(q, pools)) && Chosen(q, pools, affinity, gpuNodes, used, pool.value)
  {
    hide HasCapacity, Before, ScoresOf, DistinctIds, Ranked, FirstTouching, FirstDeepest, BestDeepest;
    if FollowsGPU(q, Filtered(q, pools), gpuNodes) {
      GPUSelection(q, pools, gpuNodes, gpuScores, pool);
    } else {
      RegularSelection(q, pools, affinity, scores, pool);
    }
  }

  lemma {:induction false} RankedElements(
      q: Request, pools: seq<Pool>, affinity: map<int, int>, scores: map<int, Score>)
    ensures forall i :: 0 <= i < |Ranked(q, pools, affinity, scores)| ==>
              Ranked(q, pools, affinity, scores)[i] in Filtered(q, pools)
  {
    SortMultiset(Less(q.ranking.(affinity := affinity), scores), Filtered(q, pools));
    SameElements(Ranked(q, pools, affinity, scores), Filtered(q, pools));
  }
}
