/** One reconcile pass of the P-core binding agent as a function of the pod list and the
    cpuset files (plugin/agent.go).  Cpuset texts appear here through their normal forms;
    a file that cannot be read is absent from the map. */
module Binding {
  import opened Text
  import opened Sets

  datatype Pod = Pod(
    id: string, name: string, namespace: string, runtimeClass: string, cgroupPath: string,
    cpuQuota: int, cpuPeriod: nat, cpuLimitKnown: bool)

  /** What a pass depends on besides pods and files: the pairs in scan order, the
      configured filters, the cgroups each pod resolves to (a pod without an entry does
      not resolve), the files that refuse writes, and the dry-run switch. */
  datatype Env = Env(
    pairs: seq<string>, namespaces: set<string>, runtimeClasses: set<string>,
    cgroups: map<string, seq<string>>, unwritable: set<string>, dryRun: bool)
  {
    predicate Match(pod: Pod) {
      pod.namespace in namespaces && pod.runtimeClass in runtimeClasses && HasTargetCPULimit(pod)
    }

    predicate Eligible(pod: Pod, readable: set<string>) {
      && Match(pod) && pod.cgroupPath != ""
      && pod.id in cgroups && cgroups[pod.id] != [] && cgroups[pod.id][0] in readable
    }

    ghost predicate Distinct() {
      && "" !in pairs
      && forall i, j :: 0 <= i < j < |pairs| ==> pairs[i] != pairs[j]
    }

    /** No two different pods share a cgroup. */
    ghost predicate Separate() {
      forall a, b, p | a in cgroups && b in cgroups && a != b && p in cgroups[a] :: p !in cgroups[b]
    }

    predicate SameSetup(other: Env) {
      && pairs == other.pairs && namespaces == other.namespaces
      && runtimeClasses == other.runtimeClasses && cgroups == other.cgroups
    }
  }

  const TARGET_CPU_LIMIT := 2

  predicate HasTargetCPULimit(pod: Pod) {
    if !pod.cpuLimitKnown || pod.cpuQuota <= 0 || pod.cpuPeriod == 0 then false
    else pod.cpuQuota / pod.cpuPeriod == TARGET_CPU_LIMIT && pod.cpuQuota % pod.cpuPeriod == 0
  }

  /** MAIN: a pod asks for exactly two CPUs: both numbers are known, there is a period, and the
      quota is twice the period. */
  lemma {:induction false} LimitMeaning(pod: Pod)
    ensures HasTargetCPULimit(pod) <==> pod.cpuLimitKnown && pod.cpuPeriod > 0 && pod.cpuQuota == 2 * pod.cpuPeriod
  {
    if pod.cpuQuota > 0 && pod.cpuPeriod > 0 {
      var q, p := pod.cpuQuota, pod.cpuPeriod;
      assert q == (q / p) * p + q % p;
      if q == 2 * p {
        TwiceDivides(p);
      }
    }
  }

  lemma {:induction false} TwiceDivides(p: nat)
    requires p > 0
    ensures (2 * p) / p == 2 && (2 * p) % p == 0
  {
    var d := (2 * p) / p - 2;
    assert 2 * p == ((2 * p) / p) * p + (2 * p) % p;
    assert d * p + (2 * p) % p == 0;
    MultipleIsFar(d, p);
  }

  lemma {:induction false} MultipleIsFar(d: int, p: nat)
    requires p > 0
    ensures d >= 1 ==> d * p >= p
    ensures d <= -1 ==> d * p <= 0 - p
  {
  }

  // ---------- choosing a pair ----------

  function FirstFree(pairs: seq<string>, occupied: set<string>): (r: string)
    ensures (r in pairs && r !in occupied) || (r == "" && forall p :: p in pairs ==> p in occupied)
    ensures r in pairs && r !in occupied ==>
              exists i :: 0 <= i < |pairs| && pairs[i] == r && forall j :: 0 <= j < i ==> pairs[j] in occupied
  {
    if pairs == [] then ""
    else if pairs[0] !in occupied then pairs[0]
    else FirstFree(pairs[1..], occupied)
  }

  /** Keep the pair the pod already has unless another pod took it; otherwise the first
      free pair; "" when there is none. */
  function Target(pairs: seq<string>, current: string, occupied: set<string>): string {
    if current in pairs && current !in occupied then current else FirstFree(pairs, occupied)
  }

  // ---------- one pod ----------

  datatype Write = Write(path: string, text: string)

  datatype Pass = Pass(
    files: map<string, string>, occupied: set<string>, bound: map<string, string>, writes: seq<Write>)

  /** None is a read error; reading stops at the first file that differs. */
  function NeedsUpdate(paths: seq<string>, files: map<string, string>, target: string): Option<bool> {
    if paths == [] then Some(false)
    else if paths[0] !in files then None
    else if files[paths[0]] != target then Some(true)
    else NeedsUpdate(paths[1..], files, target)
  }

  /** Writing to every path; refused and unreadable files keep their state. */
  function WriteAll(files: map<string, string>, paths: seq<string>, target: string, unwritable: set<string>)
    : (r: map<string, string>)
    ensures r.Keys == files.Keys
  {
    map p | p in files :: if p in paths && p !in unwritable then target else files[p]
  }

  function Attempts(paths: seq<string>, target: string): seq<Write> {
    seq(|paths|, i requires 0 <= i < |paths| => Write(paths[i], target))
  }

  function BindPod(env: Env, s: Pass, pod: Pod): Pass {
    if !env.Eligible(pod, s.files.Keys) then s
    else
      var paths := env.cgroups[pod.id];
      var target := Target(env.pairs, s.files[paths[0]], s.occupied);
      if target == "" then s
      else
        var taken := s.(occupied := s.occupied + {target}, bound := s.bound[pod.id := target]);
        if NeedsUpdate(paths, s.files, target) != Some(true) || env.dryRun then taken
        else taken.(files := WriteAll(s.files, paths, target, env.unwritable),
                    writes := s.writes + Attempts(paths, target))
  }

  /** A whole pass over the pods, in list order. */
  function Run(env: Env, pods: seq<Pod>, files: map<string, string>): Pass {
    if pods == [] then Pass(files, {}, map[], [])
    else BindPod(env, Run(env, pods[..|pods| - 1], files), pods[|pods| - 1])
  }

  lemma {:induction false} RunSnoc(env: Env, pods: seq<Pod>, pod: Pod, files: map<string, string>)
    ensures Run(env, pods + [pod], files) == BindPod(env, Run(env, pods, files), pod)
  {
    assert (pods + [pod])[..|pods|] == pods;
  }

  /** A dry run hands out pairs but writes nothing. */
  lemma {:induction false} DryRunWritesNothing(env: Env, pods: seq<Pod>, files: map<string, string>)
    requires env.dryRun
    ensures Run(env, pods, files).writes == [] && Run(env, pods, files).files == files
  {
    if pods != [] {
      DryRunWritesNothing(env, pods[..|pods| - 1], files);
    }
  }

  /** MAIN: every bound pod is one of the listed pods, is in a configured namespace, has a
      configured runtime class, asks for exactly two CPUs, and its first cgroup is readable. */
  lemma {:induction false} BoundPodsQualify(env: Env, pods: seq<Pod>, files: map<string, string>, id: string)
    requires id in Run(env, pods, files).bound
    ensures Run(env, pods, files).files.Keys == files.Keys
    ensures exists i :: 0 <= i < |pods| && pods[i].id == id && Qualifies(env, pods[i], files.Keys)
  {
    hide Target, NeedsUpdate, WriteAll;
    var init, last := pods[..|pods| - 1], pods[|pods| - 1];
    KeysStay(env, pods, files);
    KeysStay(env, init, files);
    if id in Run(env, init, files).bound {
      BoundPodsQualify(env, init, files, id);
      var i :| 0 <= i < |init| && init[i].id == id && Qualifies(env, init[i], files.Keys);
      assert pods[i] == init[i];
    } else {
      assert pods[|pods| - 1].id == id;
      LimitMeaning(last);
    }
  }

  lemma {:induction false} KeysStay(env: Env, pods: seq<Pod>, files: map<string, string>)
    ensures Run(env, pods, files).files.Keys == files.Keys
  {
    hide Target, NeedsUpdate;
    if pods != [] {
      KeysStay(env, pods[..|pods| - 1], files);
    }
  }

  predicate Qualifies(env: Env, pod: Pod, readable: set<string>) {
    && pod.namespace in env.namespaces && pod.runtimeClass in env.runtimeClasses
    && pod.cpuLimitKnown && pod.cpuPeriod > 0 && pod.cpuQuota == 2 * pod.cpuPeriod && pod.cgroupPath != ""
    && pod.id in env.cgroups && env.cgroups[pod.id] != [] && env.cgroups[pod.id][0] in readable
  }

  /** Conversely, such pods are the ones that ask. */
  lemma {:induction false} QualifiedAsk(env: Env, pod: Pod, readable: set<string>)
    ensures env.Eligible(pod, readable) <==> Qualifies(env, pod, readable)
  {
    LimitMeaning(pod);
  }

  ghost predicate DistinctIds(pods: seq<Pod>) {
    forall i, j :: 0 <= i < j < |pods| ==> pods[i].id != pods[j].id
  }

  function Ids(pods: seq<Pod>): set<string> {
    set i | 0 <= i < |pods| :: pods[i].id
  }

  /** MAIN: every write of a pass goes to a cgroup of a bound pod and writes the pair that pod
      was given. */
  lemma {:induction false} WritesAreBound(env: Env, pods: seq<Pod>, files: map<string, string>, w: Write)
    requires DistinctIds(pods) && w in Run(env, pods, files).writes
    ensures exists id :: id in Run(env, pods, files).bound && id in env.cgroups
                         && w.path in env.cgroups[id] && w.text == Run(env, pods, files).bound[id]
  {
    hide Target, NeedsUpdate, WriteAll;
    if pods != [] {
      var init, last := pods[..|pods| - 1], pods[|pods| - 1];
      var before := Run(env, init, files);
      if w in before.writes {
        WritesAreBound(env, init, files, w);
        var id :| id in before.bound && id in env.cgroups && w.path in env.cgroups[id] && w.text == before.bound[id];
        BoundPodsQualify(env, init, files, id);
        var i :| 0 <= i < |init| && init[i].id == id;
        assert pods[i] == init[i];
        assert id in Run(env, pods, files).bound;
      } else {
        assert last.id in Run(env, pods, files).bound;
      }
    }
  }

  // ---------- exclusivity and maximality ----------

  /** The pods that ask for a pair, in list order. */
  function Askers(env: Env, pods: seq<Pod>, readable: set<string>): (r: seq<string>)
    ensures forall i :: 0 <= i < |r| ==> r[i] in Ids(pods)
  {
    if pods == [] then []
    else
      var n := |pods| - 1;
      var init := Askers(env, pods[..n], readable);
      assert forall i :: 0 <= i < |init| ==> init[i] in Ids(pods[..n]);
      assert Ids(pods[..n]) <= Ids(pods);
      if env.Eligible(pods[n], readable) then init + [pods[n].id] else init
  }

  function Min(a: nat, b: nat): nat { if a < b then a else b }

  function Prefix(ids: seq<string>, n: nat): set<string>
    requires n <= |ids|
  {
    set i | 0 <= i < n :: ids[i]
  }

  lemma {:induction false} PrefixSnoc(ids: seq<string>, x: string)
    ensures Prefix(ids + [x], |ids| + 1) == Prefix(ids, |ids|) + {x}
  {
    forall y | y in Prefix(ids, |ids|) + {x} ensures y in Prefix(ids + [x], |ids| + 1) {
      if y in Prefix(ids, |ids|) {
        var i :| 0 <= i < |ids| && ids[i] == y;
        assert (ids + [x])[i] == y;
      } else {
        assert (ids + [x])[|ids|] == y;
      }
    }
  }

  function SetOf(pairs: seq<string>): set<string> { set p | p in pairs }

  lemma {:induction false} SetOfSize(pairs: seq<string>)
    requires forall i, j :: 0 <= i < j < |pairs| ==> pairs[i] != pairs[j]
    ensures |SetOf(pairs)| == |pairs|
  {
    if pairs != [] {
      var n := |pairs| - 1;
      SetOfSize(pairs[..n]);
      assert SetOf(pairs) == SetOf(pairs[..n]) + {pairs[n]};
    }
  }

  /** Every pair is taken exactly when as many pairs are taken as there are. */
  lemma {:induction false} AllTaken(pairs: seq<string>, occupied: set<string>)
    requires forall i, j :: 0 <= i < j < |pairs| ==> pairs[i] != pairs[j]
    requires forall p :: p in occupied ==> p in pairs
    ensures |occupied| <= |pairs|
    ensures (forall p :: p in pairs ==> p in occupied) <==> |occupied| == |pairs|
  {
    SetOfSize(pairs);
    assert occupied <= SetOf(pairs);
    CardinalityMonotone(occupied, SetOf(pairs));
    if |occupied| == |pairs| {
      if occupied != SetOf(pairs) { CardinalityStrict(occupied, SetOf(pairs)); }
      assert occupied == SetOf(pairs);
    }
    if forall p :: p in pairs ==> p in occupied {
      assert occupied == SetOf(pairs);
    }
  }

  /** What every pass guarantees, given the pods that ask for a pair in list order. */
  ghost predicate Fair(env: Env, askers: seq<string>, s: Pass) {
    var served := Min(|askers|, |env.pairs|);
    // exactly the first askers are served, as many as there are pairs
    && s.bound.Keys == Prefix(askers, served)
    && |s.occupied| == served
    // each with a configured pair of its own
    && (forall a :: a in s.bound ==> s.bound[a] in env.pairs && s.bound[a] in s.occupied)
    && (forall a, b :: a in s.bound && b in s.bound && a != b ==> s.bound[a] != s.bound[b])
    && (forall p :: p in s.occupied ==> p in env.pairs)
  }

  lemma {:induction false} Refused(env: Env, askers: seq<string>, id: string, s: Pass)
    requires env.Distinct() && Fair(env, askers, s)
    requires forall p :: p in env.pairs ==> p in s.occupied
    ensures Fair(env, askers + [id], s)
  {
    AllTaken(env.pairs, s.occupied);
    forall i | 0 <= i < |env.pairs| ensures (askers + [id])[i] == askers[i] {
    }
    assert Prefix(askers + [id], |env.pairs|) == Prefix(askers, |env.pairs|);
  }

  lemma {:induction false} Served(env: Env, askers: seq<string>, id: string, pair: string, s: Pass, t: Pass)
    requires env.Distinct() && Fair(env, askers, s) && id !in s.bound
    requires pair in env.pairs && pair !in s.occupied
    requires t.bound == s.bound[id := pair] && t.occupied == s.occupied + {pair}
    ensures Fair(env, askers + [id], t)
  {
    hide Prefix;
    AllTaken(env.pairs, s.occupied);
    PrefixSnoc(askers, id);
    assert t.bound.Keys == s.bound.Keys + {id};
  }

  lemma {:induction false} FairStep(env: Env, pods: seq<Pod>, pod: Pod, readable: set<string>, s: Pass)
    requires env.Distinct() && pod.id !in Ids(pods) && s.files.Keys == readable
    requires Fair(env, Askers(env, pods, readable), s)
    ensures Fair(env, Askers(env, pods + [pod], readable), BindPod(env, s, pod))
  {
    var askers := Askers(env, pods, readable);
    assert (pods + [pod])[..|pods|] == pods;
    if env.Eligible(pod, readable) {
      var target := Target(env.pairs, s.files[env.cgroups[pod.id][0]], s.occupied);
      if target == "" {
        Refused(env, askers, pod.id, s);
      } else {
        assert pod.id !in s.bound;
        Served(env, askers, pod.id, target, s, BindPod(env, s, pod));
      }
    }
  }

  lemma {:induction false} LastIsNew(pods: seq<Pod>)
    requires DistinctIds(pods) && pods != []
    ensures pods[|pods| - 1].id !in Ids(pods[..|pods| - 1])
  {
  }

  /** MAIN: pairs handed out in one pass are pairwise different; the pods served are
      exactly the first askers in list order, min(askers, pairs) of them. */
  lemma {:induction false} PassIsFair(env: Env, pods: seq<Pod>, files: map<string, string>)
    requires env.Distinct() && DistinctIds(pods)
    ensures Run(env, pods, files).files.Keys == files.Keys
    ensures Fair(env, Askers(env, pods, files.Keys), Run(env, pods, files))
  {
    if pods == [] {
      assert Prefix([], 0) == {};
    } else {
      var n := |pods| - 1;
      assert pods == pods[..n] + [pods[n]];
      PassIsFair(env, pods[..n], files);
      LastIsNew(pods);
      FairStep(env, pods[..n], pods[n], files.Keys, Run(env, pods[..n], files));
    }
  }
}
