/** The pools of the topology-aware policy and their ordering (pool_sorter.go).  A pool
    carries its chain of parents and, for the request being placed, the numbers its free
    supply reports. */
module Pools {
  import opened Text
  import opened Sorting

  datatype Score = Score(shared: int, sharedByRequest: int, memoryCapacity: nat, colocated: int)

  /** parent is None for a top pool: its parent is the nil node, which has no supply. */
  datatype Pool = Pool(
    id: int, depth: nat, score: Score, allocatable: int, numaIDs: seq<int>, parent: Option<Pool>)

  /** What the comparison depends on besides the pools; affinity values are int32. */
  datatype Ranking = Ranking(gpuFirst: bool, hasGPURequest: bool, affinity: map<int, int>)

  ghost predicate DistinctIds(pools: seq<Pool>) {
    forall a, b | a in pools && b in pools && a.id == b.id :: a == b
  }

  // ---------- the stages of the comparison ----------

  /** A stage decides for the first node, for the second, or leaves a tie. */
  datatype Stage = First | Second | Tie

  function Prefer(first: bool, second: bool): Stage {
    if first then First else if second then Second else Tie
  }

  function CompareResourceCapacity(a: Pool, b: Pool): Stage {
    Prefer(a.score.shared >= 0 && b.score.shared < 0, a.score.shared < 0 && b.score.shared >= 0)
  }

  function CompareDepth(a: Pool, b: Pool): Stage {
    Prefer(a.depth > b.depth, b.depth > a.depth)
  }

  function CompareSharedCapacity(a: Score, b: Score): Stage {
    Prefer(a.shared > b.shared, b.shared > a.shared)
  }

  function CompareColocated(a: Score, b: Score): Stage {
    Prefer(a.colocated < b.colocated, b.colocated < a.colocated)
  }

  function CompareCPUCapacity(a: Pool, b: Pool): Stage {
    Prefer(a.allocatable > b.allocatable, b.allocatable > a.allocatable)
  }

  /** int32 arithmetic wraps around. */
  function Wrap32(x: int): (r: int)
    ensures -0x8000_0000 <= r < 0x8000_0000 && (x - r) % 0x1_0000_0000 == 0
  {
    (x + 0x8000_0000) % 0x1_0000_0000 - 0x8000_0000
  }

  /** A missing key reads as zero; the GPU-first policy counts positive affinity 100 times. */
  function Weight(r: Ranking, numaID: int): int {
    var base := if numaID in r.affinity then r.affinity[numaID] else 0;
    if r.gpuFirst && base > 0 then Wrap32(base * 100) else base
  }

  function AffinitySum(r: Ranking, numaIDs: seq<int>): int {
    if numaIDs == [] then 0
    else Wrap32(AffinitySum(r, numaIDs[..|numaIDs| - 1]) + Weight(r, numaIDs[|numaIDs| - 1]))
  }

  function CompareGPUAffinity(r: Ranking, a: Pool, b: Pool): Stage {
    if !r.hasGPURequest then Tie
    else
      var affinity1, affinity2 := AffinitySum(r, a.numaIDs), AffinitySum(r, b.numaIDs);
      Prefer(affinity1 > affinity2, affinity2 > affinity1)
  }

  function ApplyResourcePriority(r: Ranking, a: Pool, b: Pool): Stage {
    if r.gpuFirst then
      if CompareGPUAffinity(r, a, b) != Tie then CompareGPUAffinity(r, a, b) else CompareCPUCapacity(a, b)
    else
      if CompareCPUCapacity(a, b) != Tie then CompareCPUCapacity(a, b) else CompareGPUAffinity(r, a, b)
  }

  /** compareNodes: scores are looked up by node id. */
  predicate Before(r: Ranking, scores: map<int, Score>, a: Pool, b: Pool) {
    if a.id !in scores || b.id !in scores then false
    else if CompareResourceCapacity(a, b) != Tie then CompareResourceCapacity(a, b) == First
    else if CompareDepth(a, b) != Tie then CompareDepth(a, b) == First
    else if CompareSharedCapacity(scores[a.id], scores[b.id]) != Tie then
      CompareSharedCapacity(scores[a.id], scores[b.id]) == First
    else if CompareColocated(scores[a.id], scores[b.id]) != Tie then
      CompareColocated(scores[a.id], scores[b.id]) == First
    else if ApplyResourcePriority(r, a, b) != Tie then ApplyResourcePriority(r, a, b) == First
    else a.id < b.id
  }

  function Less(r: Ranking, scores: map<int, Score>): (Pool, Pool) -> bool {
    (a: Pool, b: Pool) => Before(r, scores, a, b)
  }

  ghost predicate ScoresOf(scores: map<int, Score>, pools: seq<Pool>) {
    forall p | p in pools :: p.id in scores && scores[p.id] == p.score
  }

  // ---------- what the comparison prefers ----------

  function PlainSum(affinity: map<int, int>, numaIDs: seq<int>): int {
    if numaIDs == [] then 0
    else
      var last := numaIDs[|numaIDs| - 1];
      PlainSum(affinity, numaIDs[..|numaIDs| - 1]) + if last in affinity then affinity[last] else 0
  }

  /** The part of the sum that gpu-first counts a hundredfold. */
  function PositiveSum(affinity: map<int, int>, numaIDs: seq<int>): int {
    if numaIDs == [] then 0
    else
      var last := numaIDs[|numaIDs| - 1];
      PositiveSum(affinity, numaIDs[..|numaIDs| - 1])
      + if last in affinity && affinity[last] > 0 then affinity[last] else 0
  }

  lemma {:induction false} WrapOnce(x: int, y: int)
    ensures Wrap32(Wrap32(x) + y) == Wrap32(x + y) && Wrap32(x + Wrap32(y)) == Wrap32(x + y)
  {
    WholeTurns(x);
    WholeTurns(y);
    hide Wrap32;
    WrapShift(x + y, (x + 0x8000_0000) / 0x1_0000_0000);
    WrapShift(x + y, (y + 0x8000_0000) / 0x1_0000_0000);
  }

  lemma {:induction false} WholeTurns(x: int)
    ensures Wrap32(x) == x - (x + 0x8000_0000) / 0x1_0000_0000 * 0x1_0000_0000
  {
  }

  lemma {:induction false} WrapShift(x: int, k: int)
    ensures Wrap32(x - k * 0x1_0000_0000) == Wrap32(x)
  {
  }

  /** The wrapped loop computes the exact sum, wrapped once; gpu-first adds 99 more of each
      positive affinity. */
  lemma {:induction false} AffinityIs(r: Ranking, numaIDs: seq<int>)
    ensures AffinitySum(r, numaIDs) ==
            Wrap32(PlainSum(r.affinity, numaIDs) + if r.gpuFirst then 99 * PositiveSum(r.affinity, numaIDs) else 0)
  {
    hide Wrap32;
    if numaIDs == [] {
      assert Wrap32(0) == 0 by {
        ZeroStays();
      }
    } else {
      var init, last := numaIDs[..|numaIDs| - 1], numaIDs[|numaIDs| - 1];
      AffinityIs(r, init);
      var base := if last in r.affinity then r.affinity[last] else 0;
      var before := PlainSum(r.affinity, init) + if r.gpuFirst then 99 * PositiveSum(r.affinity, init) else 0;
      WrapOnce(before, Weight(r, last));
      WrapOnce(before, base * 100);
    }
  }

  lemma {:induction false} ZeroStays()
    ensures Wrap32(0) == 0
  {
  }

  /** The total a pool's NUMA nodes give it, when the request has a GPU. */
  function Affinity(r: Ranking, p: Pool): int {
    if !r.hasGPURequest then 0
    else Wrap32(PlainSum(r.affinity, p.numaIDs) + if r.gpuFirst then 99 * PositiveSum(r.affinity, p.numaIDs) else 0)
  }

  /** Between pools of equal depth and equal free CPU: fewer containers, then the two
      resources in the order of the priority, then the smaller id. */
  ghost predicate PreferredAmongEqual(r: Ranking, a: Pool, b: Pool) {
    var first, second := Affinity(r, a), Affinity(r, b);
    || a.score.colocated < b.score.colocated
    || (a.score.colocated == b.score.colocated && r.gpuFirst && first > second)
    || (a.score.colocated == b.score.colocated && r.gpuFirst && first == second && a.allocatable > b.allocatable)
    || (a.score.colocated == b.score.colocated && !r.gpuFirst && a.allocatable > b.allocatable)
    || (a.score.colocated == b.score.colocated && !r.gpuFirst && a.allocatable == b.allocatable && first > second)
    || (a.score.colocated == b.score.colocated && a.allocatable == b.allocatable && first == second && a.id < b.id)
  }

  /** a is preferred to b: a pool that covers the limit first, then the deeper one, then the
      one with more free CPU beyond the limit. */
  ghost predicate Preferred(r: Ranking, a: Pool, b: Pool) {
    if a.score.shared >= 0 && b.score.shared < 0 then true
    else if a.score.shared < 0 && b.score.shared >= 0 then false
    else
      || a.depth > b.depth
      || (a.depth == b.depth && a.score.shared > b.score.shared)
      || (a.depth == b.depth && a.score.shared == b.score.shared && PreferredAmongEqual(r, a, b))
  }

  /** MAIN: what the comparison prefers, in the pools' own numbers. */
  lemma {:induction false} BeforeIsPreferred(r: Ranking, scores: map<int, Score>, a: Pool, b: Pool)
    requires a.id in scores && b.id in scores && scores[a.id] == a.score && scores[b.id] == b.score
    ensures Before(r, scores, a, b) <==> Preferred(r, a, b)
  {
    hide AffinitySum, Wrap32, PlainSum, PositiveSum;
    AffinityIs(r, a.numaIDs);
    AffinityIs(r, b.numaIDs);
  }

  // ---------- the comparison is a strict total order ----------

  lemma {:induction false} PriorityTransitive(r: Ranking, a: Pool, b: Pool, c: Pool)
    requires ApplyResourcePriority(r, a, b) != Second && ApplyResourcePriority(r, b, c) != Second
    ensures ApplyResourcePriority(r, a, c) != Second
    ensures ApplyResourcePriority(r, a, c) == Tie ==>
              ApplyResourcePriority(r, a, b) == Tie && ApplyResourcePriority(r, b, c) == Tie
  {
    hide AffinitySum;
  }

  lemma {:induction false} PriorityMirrored(r: Ranking, a: Pool, b: Pool)
    ensures ApplyResourcePriority(r, a, b) == First <==> ApplyResourcePriority(r, b, a) == Second
    ensures ApplyResourcePriority(r, a, b) == Tie <==> ApplyResourcePriority(r, b, a) == Tie
  {
    hide AffinitySum;
  }

  lemma {:induction false} BeforeTransitive(r: Ranking, scores: map<int, Score>, a: Pool, b: Pool, c: Pool)
    requires Before(r, scores, a, b) && Before(r, scores, b, c)
    requires scores[a.id] == a.score && scores[b.id] == b.score && scores[c.id] == c.score
    ensures Before(r, scores, a, c)
  {
    hide ApplyResourcePriority;
    if ApplyResourcePriority(r, a, b) != Second && ApplyResourcePriority(r, b, c) != Second {
      PriorityTransitive(r, a, b, c);
    }
  }

  /** MAIN: under both resource priorities the comparison is a strict total order on pools
      with distinct ids, int32 wrap-around of the affinity sums included. */
  lemma {:induction false} ComparisonIsTotal(r: Ranking, scores: map<int, Score>, pools: seq<Pool>)
    requires DistinctIds(pools) && ScoresOf(scores, pools)
    ensures TotalOn(Less(r, scores), pools)
  {
    hide ApplyResourcePriority;
    var less := Less(r, scores);
    forall a | a in pools ensures !less(a, a) {
      PriorityMirrored(r, a, a);
    }
    forall a, b | a in pools && b in pools ensures a == b || less(a, b) || less(b, a) {
      PriorityMirrored(r, a, b);
    }
    forall a, b, c | a in pools && b in pools && c in pools && less(a, b) && less(b, c) ensures less(a, c) {
      BeforeTransitive(r, scores, a, b, c);
    }
  }

  /** MAIN: the sorted list does not depend on the order the pools came in, nor on the
      sorting algorithm. */
  lemma {:induction false} SortIsOrderIndependent(
      r: Ranking, scores: map<int, Score>, pools: seq<Pool>, other: seq<Pool>)
    requires multiset(pools) == multiset(other)
    requires DistinctIds(pools) && ScoresOf(scores, pools)
    ensures Sort(Less(r, scores), pools) == Sort(Less(r, scores), other)
    ensures forall list | multiset(list) == multiset(pools) && Sorted(Less(r, scores), list) ::
              list == Sort(Less(r, scores), pools)
  {
    var less := Less(r, scores);
    ComparisonIsTotal(r, scores, pools);
    SameElements(other, pools);
    TotalOnSubset(less, pools, other);
    SortSorted(less, other);
    SortMultiset(less, other);
    SortUnique(less, pools, Sort(less, other));
    forall list | multiset(list) == multiset(pools) && Sorted(less, list) ensures list == Sort(less, pools) {
      SortUnique(less, pools, list);
    }
  }

  // ---------- the two priorities rank alike ----------

  /** The numbers one request gives: a pool's shared capacity is its allocatable CPU minus
      the request's limit (supply.go). */
  ghost predicate FromSupply(pools: seq<Pool>, cpuLimit: int) {
    forall p | p in pools :: p.score.shared == p.allocatable - cpuLimit
  }

  /** Affinities are never negative and 100 times a pool's total fits an int32. */
  ghost predicate ModerateAffinity(affinity: map<int, int>, pools: seq<Pool>) {
    && (forall k :: k in affinity ==> affinity[k] >= 0)
    && forall p | p in pools :: 100 * PlainSum(affinity, p.numaIDs) < 0x8000_0000
  }

  lemma {:induction false} SumScales(r: Ranking, numaIDs: seq<int>)
    requires forall k :: k in r.affinity ==> r.affinity[k] >= 0
    requires 100 * PlainSum(r.affinity, numaIDs) < 0x8000_0000
    ensures PlainSum(r.affinity, numaIDs) >= 0
    ensures AffinitySum(r, numaIDs) == PlainSum(r.affinity, numaIDs) * if r.gpuFirst then 100 else 1
  {
    hide Wrap32;
    if numaIDs != [] {
      var init, last := numaIDs[..|numaIDs| - 1], numaIDs[|numaIDs| - 1];
      PlainSumNonNegative(r.affinity, init);
      SumScales(r, init);
      SmallStays(PlainSum(r.affinity, init), if last in r.affinity then r.affinity[last] else 0);
    }
  }

  lemma {:induction false} SmallStays(sum: int, base: int)
    requires 0 <= sum && 0 <= base && 100 * (sum + base) < 0x8000_0000
    ensures Wrap32(sum + base) == sum + base
    ensures Wrap32(base * 100) == base * 100 && Wrap32(sum * 100 + base * 100) == sum * 100 + base * 100
  {
  }

  lemma {:induction false} PlainSumNonNegative(affinity: map<int, int>, numaIDs: seq<int>)
    requires forall k :: k in affinity ==> affinity[k] >= 0
    ensures PlainSum(affinity, numaIDs) >= 0
  {
    if numaIDs != [] {
      PlainSumNonNegative(affinity, numaIDs[..|numaIDs| - 1]);
    }
  }

  /** MAIN: with scores as the supplies compute them, switching between cpu-first and
      gpu-first never changes the order: equal shared capacity already means equal
      allocatable CPU, so the CPU stage cannot decide, and the factor 100 is monotone. */
  lemma {:induction false} PrioritiesRankAlike(
      r: Ranking, scores: map<int, Score>, pools: seq<Pool>, cpuLimit: int, a: Pool, b: Pool)
    requires a in pools && b in pools && ScoresOf(scores, pools)
    requires FromSupply(pools, cpuLimit) && ModerateAffinity(r.affinity, pools)
    ensures Before(r.(gpuFirst := true), scores, a, b) == Before(r.(gpuFirst := false), scores, a, b)
  {
    hide AffinitySum, PlainSum;
    SumScales(r.(gpuFirst := true), a.numaIDs);
    SumScales(r.(gpuFirst := true), b.numaIDs);
    SumScales(r.(gpuFirst := false), a.numaIDs);
    SumScales(r.(gpuFirst := false), b.numaIDs);
  }

  /** MAIN: so the sorted list, and with it every choice made from it, is the same under both
      settings. */
  lemma {:induction false} PrioritiesSortAlike(r: Ranking, scores: map<int, Score>, pools: seq<Pool>, cpuLimit: int)
    requires DistinctIds(pools) && ScoresOf(scores, pools)
    requires FromSupply(pools, cpuLimit) && ModerateAffinity(r.affinity, pools)
    ensures Sort(Less(r.(gpuFirst := true), scores), pools) == Sort(Less(r.(gpuFirst := false), scores), pools)
  {
    hide Before, Sort;
    var gpu, cpu := Less(r.(gpuFirst := true), scores), Less(r.(gpuFirst := false), scores);
    var list := Sort(gpu, pools);
    ComparisonIsTotal(r.(gpuFirst := true), scores, pools);
    ComparisonIsTotal(r.(gpuFirst := false), scores, pools);
    SortSorted(gpu, pools);
    SortMultiset(gpu, pools);
    SameElements(list, pools);
    forall i, j | 0 <= i < j < |list| ensures !cpu(list[j], list[i]) {
      assert list[i] in pools && list[j] in pools && !gpu(list[j], list[i]);
      PrioritiesRankAlike(r, scores, pools, cpuLimit, list[j], list[i]);
    }
    SortUnique(cpu, pools, list);
  }

  // ---------- the code's own loops ----------

  /** The accumulation loop of compareGPUAffinity. */
  method SumAffinity(r: Ranking, numaIDs: seq<int>) returns (sum: int)
    ensures sum == AffinitySum(r, numaIDs)
  {
    sum := 0;
    for i := 0 to |numaIDs|
      invariant sum == AffinitySum(r, numaIDs[..i])
    {
      assert numaIDs[..i + 1][..i] == numaIDs[..i];
      var base := if numaIDs[i] in r.affinity then r.affinity[numaIDs[i]] else 0;
      if r.gpuFirst && base > 0 {
        sum := Wrap32(sum + Wrap32(base * 100));
      } else {
        sum := Wrap32(sum + base);
      }
    }
    assert numaIDs[..|numaIDs|] == numaIDs;
  }

  method SortPoolsByScore(r: Ranking, pools: array<Pool>) returns (scores: map<int, Score>)
    requires DistinctIds(pools[..])
    modifies pools
    ensures ScoresOf(scores, old(pools[..]))
    ensures pools[..] == Sort(Less(r, scores), old(pools[..]))
  {
    scores := map[];
    for i := 0 to pools.Length
      invariant forall k :: 0 <= k < i ==> pools[k].id in scores && scores[pools[k].id] == pools[k].score
    {
      assert forall k :: 0 <= k < i && pools[k].id == pools[i].id ==> pools[..][k] == pools[..][i];
      scores := scores[pools[i].id := pools[i].score];
    }
    assert ScoresOf(scores, pools[..]);
    SortSlice(pools, Less(r, scores));
  }
}
