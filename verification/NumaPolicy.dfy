/** The NUMA-aware policy (numa_aware.go) over its accounting (cache.go, cache/utils.go).
    Loads are exact rationals in place of float64. */
module NumaPolicy {
  import opened Text
  import opened NumaTopology

  datatype QoS = Guaranteed | Burstable | BestEffort

  /** The cgroup numbers a container is created with, and the cpuset it ended up with. */
  datatype Container = Container(shares: int, quota: int, period: int, cpuset: string)

  // ---------- conversions ----------

  const MIN_SHARES := 2

  /** int64(x / d + 0.5): the conversion truncates toward zero. */
  function RoundHalfUp(x: int, d: int): int
    requires d > 0
  {
    var twice := 2 * x + d;
    if twice >= 0 then twice / (2 * d) else -((-twice) / (2 * d))
  }

  function SharesToMilliCPU(shares: int): int {
    if shares == MIN_SHARES then 0 else RoundHalfUp(shares * 1000, 1024)
  }

  function QuotaToMilliCPU(quota: int, period: int): int {
    if quota == 0 || period == 0 then 0
    else if period > 0 then RoundHalfUp(quota * 1000, period)
    else RoundHalfUp(-quota * 1000, -period)
  }

  function Positive(milli: int): nat { if milli > 0 then milli else 0 }

  /** The CPU request and limit EstimateRequirements derives, in milli-CPU; a missing entry
      reads as zero.  A guaranteed pod's limit is its request. */
  function RequestMilli(c: Container): nat { Positive(SharesToMilliCPU(c.shares)) }

  function LimitMilli(c: Container, qos: QoS): nat {
    if qos == Guaranteed then RequestMilli(c) else Positive(QuotaToMilliCPU(c.quota, c.period))
  }

  function CPUs(milli: nat): real { milli as real / 1000.0 }

  /** MAIN: the request is the shares over 1024 to the nearest milli-CPU, halves up; 2 shares,
      the least there are, and anything negative count as none. */
  lemma {:induction false} RequestMeaning(c: Container)
    ensures c.shares > 0 && c.shares != 2 ==>
              1024 * (2 * RequestMilli(c) - 1) <= 2000 * c.shares < 1024 * (2 * RequestMilli(c) + 1)
    ensures c.shares <= 0 || c.shares == 2 ==> RequestMilli(c) == 0
  {
  }

  /** Quota and period, both negated when the period is negative: the same quotient. */
  function Upward(c: Container): (int, int) {
    if c.period < 0 then (-c.quota, -c.period) else (c.quota, c.period)
  }

  /** MAIN: the limit is the quota over the period to the nearest milli-CPU, halves up; no
      quota or no period count as none, and so does a negative quotient; a guaranteed pod's
      limit is its request. */
  lemma {:induction false} LimitMeaning(c: Container, qos: QoS)
    ensures qos == Guaranteed ==> LimitMilli(c, qos) == RequestMilli(c)
    ensures qos != Guaranteed ==>
              var (quota, period) := Upward(c);
              var m := LimitMilli(c, qos);
              if quota <= 0 || period == 0 then m == 0
              else 2 * m * period - period <= 2000 * quota < 2 * m * period + period
  {
    hide RoundHalfUp, RequestMilli;
    if c.period != 0 {
      var (quota, period) := Upward(c);
      if quota > 0 {
        Nearest(quota * 1000, period);
      } else {
        NothingRounds(quota * 1000, period);
      }
    }
  }

  lemma {:induction false} NothingRounds(x: int, d: int)
    requires x <= 0 && d > 0
    ensures RoundHalfUp(x, d) <= 0
  {
    var twice := 2 * x + d;
    if twice >= 0 {
      BelowDivisor(twice, 2 * d);
    } else {
      var back := -twice;
      QuotientIsNat(back, 2 * d);
    }
  }

  lemma {:induction false} BelowDivisor(t: nat, d: nat)
    requires t < d
    ensures t / d == 0
  {
  }

  lemma {:induction false} QuotientIsNat(t: nat, d: nat)
    requires d > 0
    ensures t / d >= 0
  {
  }

  lemma {:induction false} Nearest(x: nat, d: nat)
    requires d > 0
    ensures var m := RoundHalfUp(x, d); m >= 0 && 2 * m * d - d <= 2 * x < 2 * m * d + d
  {
    var m := (2 * x + d) / (2 * d);
    assert m * (2 * d) <= 2 * x + d < m * (2 * d) + 2 * d;
    assert 2 * m * d == m * (2 * d);
  }

  // ---------- accounting ----------

  /** Where a container's load is booked; nowhere without a CPU period. */
  ghost predicate BookedOn(nodes: seq<seq<int>>, c: Container, k: nat) {
    c.period != 0 && Answers(nodes, c.cpuset, k)
  }

  ghost function RequestLoad(nodes: seq<seq<int>>, cs: seq<Container>, k: nat): real {
    if cs == [] then 0.0
    else
      var c := cs[|cs| - 1];
      RequestLoad(nodes, cs[..|cs| - 1], k) + if BookedOn(nodes, c, k) then c.shares as real / 1024.0 else 0.0
  }

  ghost function LimitLoad(nodes: seq<seq<int>>, cs: seq<Container>, k: nat): real {
    if cs == [] then 0.0
    else
      var c := cs[|cs| - 1];
      LimitLoad(nodes, cs[..|cs| - 1], k)
      + if BookedOn(nodes, c, k) then CpuTime(c) else 0.0
  }

  /** The CPUs a container's quota stands for. */
  function CpuTime(c: Container): real {
    if c.period == 0 then 0.0 else c.quota as real / c.period as real
  }

  /** One container's share of both loads can be taken out wherever it stands. */
  lemma {:induction false} LoadSplit(nodes: seq<seq<int>>, cs: seq<Container>, i: nat, k: nat)
    requires i < |cs|
    ensures RequestLoad(nodes, cs, k) == RequestLoad(nodes, cs[..i] + cs[i + 1..], k)
            + if BookedOn(nodes, cs[i], k) then cs[i].shares as real / 1024.0 else 0.0
    ensures LimitLoad(nodes, cs, k) == LimitLoad(nodes, cs[..i] + cs[i + 1..], k)
            + if BookedOn(nodes, cs[i], k) then CpuTime(cs[i]) else 0.0
    decreases |cs|
  {
    hide BookedOn, CpuTime;
    var n := |cs| - 1;
    var rest := cs[..i] + cs[i + 1..];
    if i == n {
      assert rest == cs[..n];
    } else {
      assert cs[..n][..i] + cs[..n][i + 1..] == rest[..n - 1];
      assert rest[n - 1] == cs[n];
      LoadSplit(nodes, cs[..n], i, k);
    }
  }

  /** Neither booked load depends on the order the cache is walked in. */
  lemma {:induction false} LoadIsOrderIndependent(nodes: seq<seq<int>>, a: seq<Container>, b: seq<Container>, k: nat)
    requires multiset(a) == multiset(b)
    ensures RequestLoad(nodes, a, k) == RequestLoad(nodes, b, k)
    ensures LimitLoad(nodes, a, k) == LimitLoad(nodes, b, k)
    decreases |a|
  {
    hide BookedOn, CpuTime;
    if a == [] {
      assert b == [] by {
        assert |multiset(b)| == |b|;
      }
    } else {
      var i := TakeOut(a, b);
      LoadSplit(nodes, b, i, k);
      LoadIsOrderIndependent(nodes, a[..|a| - 1], b[..i] + b[i + 1..], k);
    }
  }

  /** The last element of one list, found and taken out of its rearrangement. */
  lemma {:induction false} TakeOut<T>(a: seq<T>, b: seq<T>) returns (i: nat)
    requires multiset(a) == multiset(b) && a != []
    ensures i < |b| && b[i] == a[|a| - 1]
    ensures multiset(a[..|a| - 1]) == multiset(b[..i] + b[i + 1..])
  {
    var n := |a| - 1;
    assert a[n] in multiset(b);
    i :| 0 <= i < |b| && b[i] == a[n];
    assert a == a[..n] + [a[n]];
    assert b == b[..i] + [b[i]] + b[i + 1..];
    assert multiset(b[..i] + b[i + 1..]) == multiset(b) - multiset{b[i]};
    assert multiset(a[..n]) == multiset(a) - multiset{a[n]};
  }

  /** The containers that count on node k, in order: those with a CPU period whose cpuset is
      attributed to it. */
  ghost function OnNode(nodes: seq<seq<int>>, cs: seq<Container>, k: nat): (r: seq<Container>)
    ensures forall i :: 0 <= i < |r| ==> r[i].period != 0
  {
    if cs == [] then []
    else
      var init, c := OnNode(nodes, cs[..|cs| - 1], k), cs[|cs| - 1];
      if c.period != 0 && Answers(nodes, c.cpuset, k) then init + [c] else init
  }

  function SumQuota(cs: seq<Container>): real
    requires forall i :: 0 <= i < |cs| ==> cs[i].period != 0
  {
    if cs == [] then 0.0 else cs[0].quota as real / cs[0].period as real + SumQuota(cs[1..])
  }

  function SumShares(cs: seq<Container>): real {
    if cs == [] then 0.0 else cs[0].shares as real / 1024.0 + SumShares(cs[1..])
  }

  lemma {:induction false} SumsSnoc(cs: seq<Container>, c: Container)
    requires c.period != 0 && forall i :: 0 <= i < |cs| ==> cs[i].period != 0
    ensures SumQuota(cs + [c]) == SumQuota(cs) + c.quota as real / c.period as real
    ensures SumShares(cs + [c]) == SumShares(cs) + c.shares as real / 1024.0
  {
    if cs == [] {
      assert [] + [c] == [c] && [c][1..] == [];
    } else {
      assert (cs + [c])[1..] == cs[1..] + [c];
      SumsSnoc(cs[1..], c);
    }
  }

  /** The booked loads are the sums of quota over period and of shares over 1024. */
  lemma {:induction false} LoadsAreSums(nodes: seq<seq<int>>, cs: seq<Container>, k: nat)
    ensures LimitLoad(nodes, cs, k) == SumQuota(OnNode(nodes, cs, k))
    ensures RequestLoad(nodes, cs, k) == SumShares(OnNode(nodes, cs, k))
  {
    hide Answers;
    if cs != [] {
      var init, c := cs[..|cs| - 1], cs[|cs| - 1];
      LoadsAreSums(nodes, init, k);
      if c.period != 0 && Answers(nodes, c.cpuset, k) {
        SumsSnoc(OnNode(nodes, init, k), c);
      }
    }
  }

  datatype NodeResources = NodeResources(cpuUsed: real, cpuUsedByRequest: real)

  ghost predicate Accounts(nodes: seq<seq<int>>, cs: seq<Container>, table: seq<NodeResources>) {
    && |table| == |nodes|
    && forall k :: 0 <= k < |nodes| ==>
         table[k].cpuUsed == LimitLoad(nodes, cs, k) && table[k].cpuUsedByRequest == RequestLoad(nodes, cs, k)
  }

  /** MAIN: one more container raises its node's use by its quota over its period and its
      shares over 1024, and changes no other node; without a CPU period or a node it changes
      nothing. */
  lemma {:induction false} BookingRaises(
      nodes: seq<seq<int>>, cs: seq<Container>, c: Container,
      before: seq<NodeResources>, after: seq<NodeResources>, k: int)
    requires Accounts(nodes, cs, before) && Accounts(nodes, cs + [c], after)
    requires Unambiguous(nodes, [c]) && Answers(nodes, c.cpuset, k)
    ensures forall j :: 0 <= j < |nodes| ==>
              if c.period != 0 && j == k
              then && after[j].cpuUsed == before[j].cpuUsed + c.quota as real / c.period as real
                   && after[j].cpuUsedByRequest == before[j].cpuUsedByRequest + c.shares as real / 1024.0
              else after[j] == before[j]
  {
    hide Answers;
    assert (cs + [c])[..|cs|] == cs;
    assert c in [c];
    forall j: nat | j < |nodes| ensures BookedOn(nodes, c, j) <==> c.period != 0 && j == k {
    }
  }

  /** Every cpuset text has one node, so booking is well defined. */
  ghost predicate Unambiguous(nodes: seq<seq<int>>, cs: seq<Container>) {
    forall c, j, k | c in cs && Answers(nodes, c.cpuset, j) && Answers(nodes, c.cpuset, k) :: j == k
  }

  method GetNodeResources(nodes: seq<seq<int>>, cs: seq<Container>) returns (table: seq<NodeResources>)
    requires Unambiguous(nodes, cs)
    ensures Accounts(nodes, cs, table)
  {
    hide Answers;
    table := seq(|nodes|, _ => NodeResources(0.0, 0.0));
    for i := 0 to |cs|
      invariant Accounts(nodes, cs[..i], table)
    {
      var c := cs[i];
      assert cs[..i + 1][..i] == cs[..i];
      if c.period == 0 {
        continue;
      }
      var cpuTime := c.quota as real / c.period as real;
      var cpuRequest := c.shares as real / 1024.0;
      var k := GetNumaNodeFromCpuSet(nodes, c.cpuset);
      AnswerInRange(nodes, c.cpuset, k);
      forall j: nat ensures BookedOn(nodes, c, j) <==> j == k {
      }
      if k >= 0 {
        table := table[k := NodeResources(table[k].cpuUsed + cpuTime, table[k].cpuUsedByRequest + cpuRequest)];
      }
    }
    assert cs[..|cs|] == cs;
  }

  lemma {:induction false} AnswerInRange(nodes: seq<seq<int>>, cpuset: string, k: int)
    requires Answers(nodes, cpuset, k)
    ensures -1 <= k < |nodes|
  {
  }

  // ---------- choosing a node ----------

  /** The node has room for the request by request. */
  predicate Fits(request: real, r: NodeResources, size: nat) {
    request + r.cpuUsedByRequest <= size as real
  }

  /** The lowest-numbered node of least use among those with room; -1 when there is none. */
  ghost predicate LeastUsed(table: seq<NodeResources>, request: real, size: nat, k: int) {
    if k == -1 then forall i :: 0 <= i < |table| ==> !Fits(request, table[i], size)
    else
      && 0 <= k < |table| && Fits(request, table[k], size)
      && (forall i :: 0 <= i < |table| && Fits(request, table[i], size) ==> table[k].cpuUsed <= table[i].cpuUsed)
      && (forall i :: 0 <= i < k && Fits(request, table[i], size) ==> table[k].cpuUsed < table[i].cpuUsed)
  }

  method PreferNode(table: seq<NodeResources>, request: real, size: nat) returns (k: int)
    ensures LeastUsed(table, request, size, k)
  {
    k := -1;
    var used := 0.0;
    for i := 0 to |table|
      invariant -1 <= k < i
      invariant k == -1 ==> forall j :: 0 <= j < i ==> !Fits(request, table[j], size)
      invariant k != -1 ==> Fits(request, table[k], size) && used == table[k].cpuUsed
      invariant k != -1 ==> forall j :: 0 <= j < i && Fits(request, table[j], size) ==> used <= table[j].cpuUsed
      invariant k != -1 ==> forall j :: 0 <= j < k && Fits(request, table[j], size) ==> used < table[j].cpuUsed
    {
      if request + table[i].cpuUsedByRequest > size as real {
        continue;
      }
      if k == -1 || table[i].cpuUsed < used {
        k := i;
        used := table[i].cpuUsed;
      }
    }
  }

  /** What AllocateCPUSet may grant: a node's block, or nothing. */
  ghost predicate Grants(
      nodes: seq<seq<int>>, cs: seq<Container>, size: nat, c: Container, qos: QoS, grant: Option<string>)
    requires size >= 1
  {
    var request, limit := CPUs(RequestMilli(c)), CPUs(LimitMilli(c, qos));
    if nodes == [] || request > size as real || limit > size as real then grant == None
    else
      exists table, k ::
        Accounts(nodes, cs, table) && LeastUsed(table, request, size, k)
        && grant == if k == -1 then None else Some(BlockText(k, size))
  }

  /** What is granted, in the containers' own numbers.  A node has room if the request fits
      beside the shares that count there; the block granted is that of a node with room on
      which the quotas over periods sum to the least, the lowest-numbered of these. */
  ghost predicate GrantInNumbers(
      nodes: seq<seq<int>>, cs: seq<Container>, size: nat, c: Container, qos: QoS, grant: Option<string>)
    requires size >= 1
  {
    var request, limit := RequestMilli(c) as real / 1000.0, LimitMilli(c, qos) as real / 1000.0;
    if nodes == [] || request > size as real || limit > size as real then grant == None
    else if forall k :: 0 <= k < |nodes| ==> !HasRoom(nodes, cs, size, request, k) then grant == None
    else
      exists k ::
        && 0 <= k < |nodes| && HasRoom(nodes, cs, size, request, k) && grant == Some(BlockText(k, size))
        && forall j :: 0 <= j < |nodes| && HasRoom(nodes, cs, size, request, j) ==>
             && SumQuota(OnNode(nodes, cs, k)) <= SumQuota(OnNode(nodes, cs, j))
             && (j < k ==> SumQuota(OnNode(nodes, cs, k)) < SumQuota(OnNode(nodes, cs, j)))
  }

  ghost predicate HasRoom(nodes: seq<seq<int>>, cs: seq<Container>, size: nat, request: real, k: nat) {
    request + SumShares(OnNode(nodes, cs, k)) <= size as real
  }

  /** MAIN: every grant the policy gives is the one described in the containers' numbers. */
  lemma {:induction false} GrantMeaning(
      nodes: seq<seq<int>>, cs: seq<Container>, size: nat, c: Container, qos: QoS, grant: Option<string>)
    requires size >= 1 && Grants(nodes, cs, size, c, qos, grant)
    ensures GrantInNumbers(nodes, cs, size, c, qos, grant)
  {
    hide OnNode, SumShares, SumQuota, RequestLoad, LimitLoad, RequestMilli, LimitMilli, BlockText;
    var request, limit := CPUs(RequestMilli(c)), CPUs(LimitMilli(c, qos));
    forall k: nat
      ensures LimitLoad(nodes, cs, k) == SumQuota(OnNode(nodes, cs, k))
      ensures RequestLoad(nodes, cs, k) == SumShares(OnNode(nodes, cs, k))
    {
      LoadsAreSums(nodes, cs, k);
    }
    if nodes != [] && request <= size as real && limit <= size as real {
      var table, k :| Accounts(nodes, cs, table) && LeastUsed(table, request, size, k)
                      && grant == if k == -1 then None else Some(BlockText(k, size));
      forall j | 0 <= j < |nodes| ensures Fits(request, table[j], size) <==> HasRoom(nodes, cs, size, request, j) {
      }
    }
  }

  /** AllocateCPUSet; "size" is the CPU count of node 0, taken for all nodes. */
  method AllocateCPUSet(nodes: seq<seq<int>>, cs: seq<Container>, size: nat, c: Container, qos: QoS)
    returns (grant: Option<string>)
    requires Unambiguous(nodes, cs) && size >= 1
    ensures Grants(nodes, cs, size, c, qos, grant)
    ensures GrantInNumbers(nodes, cs, size, c, qos, grant)
  {
    hide GrantInNumbers;
    var request, limit := CPUs(RequestMilli(c)), CPUs(LimitMilli(c, qos));
    grant := None;
    var table := GetNodeResources(nodes, cs);
    if |table| == 0 || request > size as real || limit > size as real {
      GrantMeaning(nodes, cs, size, c, qos, grant);
      return;
    }
    var k := PreferNode(table, request, size);
    if k != -1 {
      var lo, hi := k * size, (k + 1) * size - 1;
      assert hi == k * size + size - 1;
      grant := Some(FormatInt(lo) + ['-'] + FormatInt(hi));
    }
    GrantMeaning(nodes, cs, size, c, qos, grant);
  }

  /** MAIN: the table of loads and the grant do not depend on the order in which the
      container map is walked. */
  lemma {:induction false} GrantIsOrderIndependent(
      nodes: seq<seq<int>>, a: seq<Container>, b: seq<Container>, size: nat, c: Container, qos: QoS,
      table: seq<NodeResources>, grant: Option<string>, other: Option<string>)
    requires multiset(a) == multiset(b) && size >= 1
    ensures Accounts(nodes, a, table) <==> Accounts(nodes, b, table)
    ensures Grants(nodes, a, size, c, qos, grant) <==> Grants(nodes, b, size, c, qos, grant)
    ensures Grants(nodes, a, size, c, qos, grant) && Grants(nodes, b, size, c, qos, other) ==> grant == other
  {
    hide RequestLoad, LimitLoad, LeastUsed, BlockText, Accounts;
    SameAccounts(nodes, a, b);
    forall t, u, j, k | Accounts(nodes, a, t) && Accounts(nodes, a, u)
                        && LeastUsed(t, CPUs(RequestMilli(c)), size, j) && LeastUsed(u, CPUs(RequestMilli(c)), size, k)
      ensures j == k
    {
      OneLeastUsed(nodes, a, t, u, CPUs(RequestMilli(c)), size, j, k);
    }
  }

  /** There is one table and one least-used node. */
  lemma {:induction false} OneLeastUsed(
      nodes: seq<seq<int>>, cs: seq<Container>, t: seq<NodeResources>, u: seq<NodeResources>,
      request: real, size: nat, j: int, k: int)
    requires Accounts(nodes, cs, t) && Accounts(nodes, cs, u)
    requires LeastUsed(t, request, size, j) && LeastUsed(u, request, size, k)
    ensures t == u && j == k
  {
    assert t == u;
  }

  lemma {:induction false} SameAccounts(nodes: seq<seq<int>>, a: seq<Container>, b: seq<Container>)
    requires multiset(a) == multiset(b)
    ensures forall table :: Accounts(nodes, a, table) <==> Accounts(nodes, b, table)
  {
    hide RequestLoad, LimitLoad;
    forall k: nat
      ensures RequestLoad(nodes, a, k) == RequestLoad(nodes, b, k) && LimitLoad(nodes, a, k) == LimitLoad(nodes, b, k)
    {
      LoadIsOrderIndependent(nodes, a, b, k);
    }
  }

  // ---------- runs ----------

  /** The cache changes by admitting a container with what the policy granted, or by
      removing one. */
  ghost predicate Step(nodes: seq<seq<int>>, size: nat, before: seq<Container>, after: seq<Container>)
    requires size >= 1
  {
    || (exists c, qos, grant :: Admits(nodes, size, before, after, c, qos, grant))
    || (exists i :: 0 <= i < |before| && after == before[..i] + before[i + 1..])
  }

  /** Best-effort containers are cached as they are; the others with the granted cpuset, if
      any.  No container brings a cpuset of its own, and shares are not negative. */
  ghost predicate Admits(
      nodes: seq<seq<int>>, size: nat, before: seq<Container>, after: seq<Container>,
      c: Container, qos: QoS, grant: Option<string>)
    requires size >= 1
  {
    && c.cpuset == "" && c.shares >= 0
    && (if qos == BestEffort then grant == None else Grants(nodes, before, size, c, qos, grant))
    && after == before + [if grant.None? then c else c.(cpuset := grant.value)]
  }

  ghost predicate Reachable(nodes: seq<seq<int>>, size: nat, states: seq<seq<Container>>)
    requires size >= 1
  {
    && states != [] && states[0] == []
    && forall i :: 0 <= i < |states| - 1 ==> Step(nodes, size, states[i], states[i + 1])
  }

  /** The slack that rounding shares to milli-CPU can cost one admission. */
  const SLACK: real := 2.0 / 1024.0

  /** Every container is unpinned or holds the block of one node. */
  ghost predicate Pinned(nodes: seq<seq<int>>, size: nat, cs: seq<Container>)
    requires size >= 1
  {
    forall c | c in cs ::
      c.shares >= 0 && (c.cpuset == "" || exists k: nat :: k < |nodes| && c.cpuset == BlockText(k, size))
  }

  ghost predicate Bounded(nodes: seq<seq<int>>, size: nat, cs: seq<Container>) {
    forall k: nat :: k < |nodes| ==> RequestLoad(nodes, cs, k) <= size as real + SLACK
  }

  lemma {:induction false} PinnedIsUnambiguous(nodes: seq<seq<int>>, size: nat, cs: seq<Container>)
    requires size >= 1 && Layout(nodes, size) && Pinned(nodes, size, cs)
    ensures Unambiguous(nodes, cs)
  {
    hide Answers, Layout;
    forall c, j, k | c in cs && Answers(nodes, c.cpuset, j) && Answers(nodes, c.cpuset, k) ensures j == k {
      if c.cpuset == "" {
        NoCpusetNoNode(nodes, j);
        NoCpusetNoNode(nodes, k);
      } else {
        var b: nat :| b < |nodes| && c.cpuset == BlockText(b, size);
        BlockTextNamesNode(nodes, size, b, j);
        BlockTextNamesNode(nodes, size, b, k);
      }
    }
  }

  /** Rounding: a request's milli-CPUs fall short of its shares by less than the slack. */
  lemma {:induction false} RoundingSlack(c: Container)
    requires c.shares >= 0
    ensures c.shares as real / 1024.0 <= CPUs(RequestMilli(c)) + SLACK
  {
    if c.shares != MIN_SHARES {
      var milli := (2 * (c.shares * 1000) + 1024) / 2048;
      assert SharesToMilliCPU(c.shares) == milli;
      assert 2048 * milli > 2 * (c.shares * 1000) + 1024 - 2048;
      assert 2048.0 * milli as real > 2000.0 * c.shares as real - 1024.0;
    }
  }

  lemma {:induction false} AdmissionKeepsBound(
      nodes: seq<seq<int>>, size: nat, before: seq<Container>, c: Container, qos: QoS, k: nat)
    requires size >= 1 && Layout(nodes, size) && k < |nodes|
    requires c.shares >= 0 && Bounded(nodes, size, before)
    requires CPUs(RequestMilli(c)) + RequestLoad(nodes, before, k) <= size as real
    ensures Bounded(nodes, size, before + [c.(cpuset := BlockText(k, size))])
  {
    hide Answers, Layout;
    var pinned := c.(cpuset := BlockText(k, size));
    var after := before + [pinned];
    assert after[..|before|] == before;
    RoundingSlack(c);
    forall j: nat | j < |nodes| ensures RequestLoad(nodes, after, j) <= size as real + SLACK {
      BlockTextNamesNode(nodes, size, k, j);
    }
  }

  lemma {:induction false} UnpinnedKeepsBound(nodes: seq<seq<int>>, size: nat, before: seq<Container>, c: Container)
    requires Bounded(nodes, size, before) && c.cpuset == ""
    ensures Bounded(nodes, size, before + [c])
  {
    hide Answers;
    var after := before + [c];
    assert after[..|before|] == before;
    forall j: nat | j < |nodes| ensures RequestLoad(nodes, after, j) <= size as real + SLACK {
      NoCpusetNoNode(nodes, j);
    }
  }

  lemma {:induction false} RemovalKeepsBound(nodes: seq<seq<int>>, size: nat, before: seq<Container>, i: nat)
    requires size >= 1 && Bounded(nodes, size, before) && Pinned(nodes, size, before) && i < |before|
    ensures Bounded(nodes, size, before[..i] + before[i + 1..])
  {
    hide BookedOn;
    assert before[i] in before;
    var after := before[..i] + before[i + 1..];
    forall j: nat | j < |nodes| ensures RequestLoad(nodes, after, j) <= size as real + SLACK {
      LoadSplit(nodes, before, i, j);
    }
  }

  lemma {:induction false} StepKeepsBound(
      nodes: seq<seq<int>>, size: nat, before: seq<Container>, after: seq<Container>)
    requires size >= 1 && Layout(nodes, size) && Pinned(nodes, size, before) && Bounded(nodes, size, before)
    requires Step(nodes, size, before, after)
    ensures Pinned(nodes, size, after) && Bounded(nodes, size, after)
  {
    hide Layout, Bounded, Accounts, RequestMilli, LimitMilli, BlockText;
    if i :| 0 <= i < |before| && after == before[..i] + before[i + 1..] {
      RemovalKeepsBound(nodes, size, before, i);
    } else {
      var c, qos, grant :| Admits(nodes, size, before, after, c, qos, grant);
      if grant.None? {
        UnpinnedKeepsBound(nodes, size, before, c);
      } else {
        var k := GrantedNode(nodes, before, size, c, qos, grant.value);
        AdmissionKeepsBound(nodes, size, before, c, qos, k);
      }
    }
  }

  lemma {:induction false} GrantedNode(
      nodes: seq<seq<int>>, cs: seq<Container>, size: nat, c: Container, qos: QoS, text: string) returns (k: nat)
    requires size >= 1 && Grants(nodes, cs, size, c, qos, Some(text))
    ensures k < |nodes| && text == BlockText(k, size)
    ensures CPUs(RequestMilli(c)) + RequestLoad(nodes, cs, k) <= size as real
  {
    hide RequestMilli, LimitMilli, BlockText, RequestLoad, LimitLoad;
    var request := CPUs(RequestMilli(c));
    var table, node :|
      Accounts(nodes, cs, table) && LeastUsed(table, request, size, node)
      && Some(text) == if node == -1 then None else Some(BlockText(node, size));
    k := node;
  }

  /** MAIN: over every run of admissions and removals, the request load booked on each node
      stays at most its CPU count plus 2/1024 CPU: rounding errors do not add up. */
  lemma {:induction false} LoadStaysBounded(nodes: seq<seq<int>>, size: nat, states: seq<seq<Container>>, i: nat)
    requires size >= 1 && Layout(nodes, size) && Reachable(nodes, size, states) && i < |states|
    ensures Pinned(nodes, size, states[i]) && Bounded(nodes, size, states[i])
  {
    hide Layout, Step, Bounded, Pinned;
    if i == 0 {
      EmptyIsBounded(nodes, size);
    } else {
      LoadStaysBounded(nodes, size, states, i - 1);
      assert Step(nodes, size, states[i - 1], states[i - 1 + 1]);
      StepKeepsBound(nodes, size, states[i - 1], states[i]);
    }
  }

  lemma {:induction false} EmptyIsBounded(nodes: seq<seq<int>>, size: nat)
    requires size >= 1
    ensures Pinned(nodes, size, []) && Bounded(nodes, size, [])
  {
  }

  // ---------- what the books do not show ----------

  /** The shares of all containers pinned to node k, booked or not. */
  ghost function TrueLoad(nodes: seq<seq<int>>, cs: seq<Container>, k: nat): real {
    if cs == [] then 0.0
    else
      var c := cs[|cs| - 1];
      TrueLoad(nodes, cs[..|cs| - 1], k) + if Answers(nodes, c.cpuset, k) then c.shares as real / 1024.0 else 0.0
  }

  /** MAIN: the booked request load is the true one exactly when no container with shares
      is pinned to the node without a CPU period. */
  lemma {:induction false} BooksAreTrueIffPeriods(nodes: seq<seq<int>>, cs: seq<Container>, k: nat)
    requires forall c | c in cs :: c.shares >= 0
    ensures RequestLoad(nodes, cs, k) <= TrueLoad(nodes, cs, k)
    ensures RequestLoad(nodes, cs, k) == TrueLoad(nodes, cs, k) <==>
              forall c | c in cs && Answers(nodes, c.cpuset, k) :: c.period != 0 || c.shares == 0
  {
    hide Answers;
    if cs != [] {
      var n := |cs| - 1;
      assert cs == cs[..n] + [cs[n]];
      assert cs[n] in cs;
      forall c | c in cs[..n] ensures c.shares >= 0 {
        assert c in cs;
      }
      BooksAreTrueIffPeriods(nodes, cs[..n], k);
    }
  }

  /** n containers that ask for all of node 0 but have no CPU period. */
  function Unbooked(size: nat, n: nat): seq<Container>
    requires size >= 1
  {
    seq(n, _ => Container(1024 * size, 0, 0, BlockText(0, size)))
  }

  lemma {:induction false} UnbookedLoads(nodes: seq<seq<int>>, size: nat, n: nat, k: nat)
    requires size >= 1
    ensures RequestLoad(nodes, Unbooked(size, n), k) == 0.0 && LimitLoad(nodes, Unbooked(size, n), k) == 0.0
  {
    if n > 0 {
      assert Unbooked(size, n)[..n - 1] == Unbooked(size, n - 1);
      UnbookedLoads(nodes, size, n - 1, k);
    }
  }

  lemma {:induction false} UnbookedTrueLoad(nodes: seq<seq<int>>, size: nat, n: nat)
    requires size >= 1 && Layout(nodes, size) && nodes != []
    ensures TrueLoad(nodes, Unbooked(size, n), 0) == n as real * size as real
  {
    hide Answers, Layout, BlockText;
    if n > 0 {
      assert Unbooked(size, n)[..n - 1] == Unbooked(size, n - 1);
      UnbookedTrueLoad(nodes, size, n - 1);
      BlockTextNamesNode(nodes, size, 0, 0);
      assert (1024 * size) as real / 1024.0 == size as real;
    }
  }

  /** Containers without a CPU period are pinned to node 0 one after the other, however
      many there are: nothing bounds the true load of a node. */
  lemma {:induction false} TrueLoadIsUnbounded(
      nodes: seq<seq<int>>, size: nat, n: nat) returns (states: seq<seq<Container>>)
    requires size >= 1 && Layout(nodes, size) && nodes != []
    ensures Reachable(nodes, size, states) && states[|states| - 1] == Unbooked(size, n)
    ensures TrueLoad(nodes, states[|states| - 1], 0) == n as real * size as real
  {
    hide Step, Layout, TrueLoad;
    states := seq(n + 1, i requires 0 <= i < n + 1 => Unbooked(size, i));
    forall i | 0 <= i < n ensures Step(nodes, size, states[i], states[i + 1]) {
      UnbookedStep(nodes, size, i);
    }
    UnbookedTrueLoad(nodes, size, n);
  }

  lemma {:induction false} UnbookedStep(nodes: seq<seq<int>>, size: nat, n: nat)
    requires size >= 1 && nodes != []
    ensures Step(nodes, size, Unbooked(size, n), Unbooked(size, n + 1))
  {
    hide Answers, BlockText, RequestLoad, LimitLoad, RoundHalfUp;
    var cs := Unbooked(size, n);
    var c := Container(1024 * size, 0, 0, "");
    var table := seq(|nodes|, _ => NodeResources(0.0, 0.0));
    forall k: nat | k < |nodes| ensures RequestLoad(nodes, cs, k) == 0.0 && LimitLoad(nodes, cs, k) == 0.0 {
      UnbookedLoads(nodes, size, n, k);
    }
    assert Accounts(nodes, cs, table);
    FullRequest(size);
    assert LeastUsed(table, CPUs(RequestMilli(c)), size, 0);
    assert Grants(nodes, cs, size, c, Burstable, Some(BlockText(0, size)));
    assert Unbooked(size, n + 1) == cs + [c.(cpuset := BlockText(0, size))];
    assert Admits(nodes, size, cs, Unbooked(size, n + 1), c, Burstable, Some(BlockText(0, size)));
  }

  lemma {:induction false} FullRequest(size: nat)
    requires size >= 1
    ensures CPUs(RequestMilli(Container(1024 * size, 0, 0, ""))) == size as real
  {
    assert SharesToMilliCPU(1024 * size) == 1000 * size;
  }
}
