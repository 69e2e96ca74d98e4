/** The P-core binding agent (plugin/agent.go): its pod map, and a reconcile pass over real
    cpuset texts, proved against Binding.Run. */
module Agent {
  import opened Text
  import opened Sorting
  import opened Binding
  import opened Settling
  import Cpuset

  // ---------- sandboxes as the runtime reports them ----------

  datatype Cpu = Cpu(quota: Option<int>, period: Option<nat>)

  datatype Resources = Resources(cpu: Option<Cpu>)

  datatype Linux = Linux(cgroupParent: string, podResources: Option<Resources>, resources: Option<Resources>)

  datatype Sandbox = Sandbox(
    id: string, name: string, namespace: string, runtimeHandler: string, linux: Option<Linux>)

  /** Pod-level resources win over the sandbox's own; the limit is known only when both
      quota and period are given. */
  function ConvertPod(s: Sandbox): Pod {
    var path := if s.linux.Some? then s.linux.value.cgroupParent else "";
    var resources :=
      if s.linux.None? then None
      else if s.linux.value.podResources.Some? then s.linux.value.podResources
      else s.linux.value.resources;
    var base := Pod(s.id, s.name, s.namespace, s.runtimeHandler, path, 0, 0, false);
    if resources.Some? && resources.value.cpu.Some?
       && resources.value.cpu.value.quota.Some? && resources.value.cpu.value.period.Some? then
      base.(cpuQuota := resources.value.cpu.value.quota.value,
            cpuPeriod := resources.value.cpu.value.period.value,
            cpuLimitKnown := true)
    else base
  }

  /** The CPU entry that counts: that of the pod-level resources when there are any, else that
      of the sandbox's own. */
  function CpuEntry(s: Sandbox): Option<Cpu> {
    match s.linux
    case None => None
    case Some(Linux(_, Some(Resources(cpu)), _)) => cpu
    case Some(Linux(_, None, Some(Resources(cpu)))) => cpu
    case _ => None
  }

  /** MAIN: a sandbox asks for two CPUs exactly when the entry that counts gives a period and
      twice that as its quota; the other fields are taken over as they are. */
  lemma {:induction false} SandboxMeaning(s: Sandbox)
    ensures HasTargetCPULimit(ConvertPod(s)) <==>
              && CpuEntry(s).Some? && CpuEntry(s).value.quota.Some? && CpuEntry(s).value.period.Some?
              && CpuEntry(s).value.period.value > 0
              && CpuEntry(s).value.quota.value == 2 * CpuEntry(s).value.period.value
    ensures var pod := ConvertPod(s);
            && pod.id == s.id && pod.name == s.name && pod.namespace == s.namespace
            && pod.runtimeClass == s.runtimeHandler
            && pod.cgroupPath == if s.linux.Some? then s.linux.value.cgroupParent else ""
  {
    hide HasTargetCPULimit;
    LimitMeaning(ConvertPod(s));
  }

  // ---------- listing pods ----------

  predicate TextLess(a: string, b: string) {
    if b == "" then false
    else if a == "" then true
    else a[0] < b[0] || (a[0] == b[0] && TextLess(a[1..], b[1..]))
  }

  lemma {:induction false} TextTrichotomy(a: string, b: string)
    ensures a == b || TextLess(a, b) || TextLess(b, a)
    ensures !(TextLess(a, b) && TextLess(b, a))
    ensures a == b ==> !TextLess(a, b)
  {
    if a != "" && b != "" {
      TextTrichotomy(a[1..], b[1..]);
      assert a == [a[0]] + a[1..] && b == [b[0]] + b[1..];
    }
  }

  lemma {:induction false} TextTransitive(a: string, b: string, c: string)
    requires TextLess(a, b) && TextLess(b, c)
    ensures TextLess(a, c)
  {
    if a != "" && a[0] == b[0] == c[0] {
      TextTransitive(a[1..], b[1..], c[1..]);
    }
  }

  /** The texts agree up to position k, where a has the smaller character or ends first. */
  predicate LessAt(a: string, b: string, k: nat) {
    && k <= |a| && k < |b| && (forall i :: 0 <= i < k ==> a[i] == b[i])
    && (k == |a| || a[k] < b[k])
  }

  /** The order of texts is lexicographic. */
  lemma {:induction false} TextLessMeaning(a: string, b: string)
    ensures TextLess(a, b) <==> exists k :: LessAt(a, b, k)
  {
    if a == "" || b == "" || a[0] != b[0] {
      if TextLess(a, b) {
        assert LessAt(a, b, 0);
      }
    } else {
      TextLessMeaning(a[1..], b[1..]);
      forall k: nat ensures LessAt(a[1..], b[1..], k) <==> LessAt(a, b, k + 1) {
        LessShift(a, b, k);
      }
      if k: nat :| LessAt(a, b, k) {
        assert k > 0;
        LessShift(a, b, k - 1);
        assert LessAt(a[1..], b[1..], k - 1);
      }
    }
  }

  lemma {:induction false} LessShift(a: string, b: string, k: nat)
    requires a != "" && b != "" && a[0] == b[0]
    ensures LessAt(a[1..], b[1..], k) <==> LessAt(a, b, k + 1)
  {
    if LessAt(a[1..], b[1..], k) {
      forall i | 0 <= i < k + 1 ensures a[i] == b[i] {
        assert i > 0 ==> a[1..][i - 1] == b[1..][i - 1];
      }
    }
    if LessAt(a, b, k + 1) {
      forall i | 0 <= i < k ensures a[1..][i] == b[1..][i] {
        assert a[i + 1] == b[i + 1];
      }
    }
  }

  /** Pods are ordered by namespace first, then by name, then by id. */
  lemma {:induction false} PodLessMeaning(a: Pod, b: Pod)
    ensures TextLess(a.namespace, b.namespace) ==> PodLess(a, b)
    ensures a.namespace == b.namespace && TextLess(a.name, b.name) ==> PodLess(a, b)
    ensures a.namespace == b.namespace && a.name == b.name ==> (PodLess(a, b) <==> TextLess(a.id, b.id))
  {
    hide TextLess;
    TextTrichotomy(a.namespace, b.namespace);
    TextTrichotomy(a.name, b.name);
  }

  /** Order by namespace, then name, then id. */
  predicate PodLess(a: Pod, b: Pod) {
    if a.namespace != b.namespace then TextLess(a.namespace, b.namespace)
    else if a.name != b.name then TextLess(a.name, b.name)
    else TextLess(a.id, b.id)
  }

  lemma {:induction false} PodLessTransitive(a: Pod, b: Pod, c: Pod)
    requires PodLess(a, b) && PodLess(b, c)
    ensures PodLess(a, c)
  {
    TextTrichotomy(a.namespace, b.namespace);
    TextTrichotomy(a.name, b.name);
    if TextLess(a.namespace, b.namespace) && TextLess(b.namespace, c.namespace) {
      TextTransitive(a.namespace, b.namespace, c.namespace);
      TextTrichotomy(a.namespace, c.namespace);
    }
    if TextLess(a.name, b.name) && TextLess(b.name, c.name) {
      TextTransitive(a.name, b.name, c.name);
      TextTrichotomy(a.name, c.name);
    }
    if TextLess(a.id, b.id) && TextLess(b.id, c.id) {
      TextTransitive(a.id, b.id, c.id);
    }
  }

  ghost predicate KeyedById(pods: map<string, Pod>) {
    forall k :: k in pods ==> pods[k].id == k
  }

  /** The pods of the map, each once, in strictly ascending order. */
  ghost predicate Listing(pods: map<string, Pod>, list: seq<Pod>) {
    && (forall i, j :: 0 <= i < j < |list| ==> PodLess(list[i], list[j]))
    && (forall i :: 0 <= i < |list| ==> list[i].id in pods && pods[list[i].id] == list[i])
    && (forall k :: k in pods ==> pods[k] in list)
  }

  lemma {:induction false} PodLessTotal(list: seq<Pod>)
    requires DistinctIds(list)
    ensures TotalOn(PodLess, list)
  {
    forall a, b | a in list && b in list ensures a == b || PodLess(a, b) || PodLess(b, a) {
      TextTrichotomy(a.namespace, b.namespace);
      TextTrichotomy(a.name, b.name);
      TextTrichotomy(a.id, b.id);
    }
    forall a | a in list ensures !PodLess(a, a) {
      TextTrichotomy(a.id, a.id);
    }
    forall a, b, c | a in list && b in list && c in list && PodLess(a, b) && PodLess(b, c)
      ensures PodLess(a, c)
    {
      PodLessTransitive(a, b, c);
    }
  }

  lemma {:induction false} ListingIds(pods: map<string, Pod>, list: seq<Pod>)
    requires Listing(pods, list)
    ensures DistinctIds(list)
  {
    forall i, j | 0 <= i < j < |list| ensures list[i].id != list[j].id {
      assert PodLess(list[i], list[j]);
      TextTrichotomy(list[i].id, list[j].id);
    }
  }

  /** A pod map has only one listing, so a pass does not depend on map iteration order. */
  lemma {:induction false} ListingUnique(pods: map<string, Pod>, a: seq<Pod>, b: seq<Pod>)
    requires KeyedById(pods) && Listing(pods, a) && Listing(pods, b)
    ensures a == b
    decreases |a|
  {
    hide PodLess;
    if a != [] {
      assert pods[a[0].id] in b;
    }
    if b != [] {
      assert pods[b[0].id] in a;
    }
    if a != [] && b != [] {
      HeadsEqual(pods, a, b);
      ListingTail(pods, a);
      ListingTail(pods, b);
      ListingUnique(pods - {a[0].id}, a[1..], b[1..]);
      assert a == [a[0]] + a[1..] && b == [b[0]] + b[1..];
    }
  }

  lemma {:induction false} HeadsEqual(pods: map<string, Pod>, a: seq<Pod>, b: seq<Pod>)
    requires Listing(pods, a) && Listing(pods, b) && a != [] && b != []
    ensures a[0] == b[0]
  {
    assert a[0] in b && b[0] in a;
    if a[0] != b[0] {
      assert PodLess(a[0], b[0]) && PodLess(b[0], a[0]);
      PodLessTransitive(a[0], b[0], a[0]);
      TextTrichotomy(a[0].id, a[0].id);
      assert false;
    }
  }

  lemma {:induction false} ListingTail(pods: map<string, Pod>, list: seq<Pod>)
    requires KeyedById(pods) && Listing(pods, list) && list != []
    ensures KeyedById(pods - {list[0].id}) && Listing(pods - {list[0].id}, list[1..])
  {
    ListingIds(pods, list);
    var rest := pods - {list[0].id};
    forall k | k in rest ensures rest[k] in list[1..] {
      var i :| 0 <= i < |list| && list[i] == pods[k];
      assert i > 0;
      assert list[1..][i - 1] == rest[k];
    }
  }

  /** Deleting ids from the map deletes them from the listing. */
  lemma {:induction false} KeepIsListing(pods: map<string, Pod>, list: seq<Pod>, gone: set<string>)
    requires KeyedById(pods) && Listing(pods, list)
    ensures Listing(pods - gone, Keep(list, gone))
  {
    KeepOrdered(list, gone);
    var kept := Keep(list, gone);
    forall i | 0 <= i < |kept| ensures kept[i].id in pods - gone && (pods - gone)[kept[i].id] == kept[i] {
      assert kept[i] in list;
    }
  }

  lemma {:induction false} KeepOrdered(list: seq<Pod>, gone: set<string>)
    requires forall i, j :: 0 <= i < j < |list| ==> PodLess(list[i], list[j])
    ensures var kept := Keep(list, gone);
            && (forall i, j :: 0 <= i < j < |kept| ==> PodLess(kept[i], kept[j]))
            && (forall i :: 0 <= i < |kept| ==> kept[i] in list && kept[i].id !in gone)
            && (forall i :: 0 <= i < |list| && list[i].id !in gone ==> list[i] in kept)
  {
    if list != [] {
      var n := |list| - 1;
      KeepOrdered(list[..n], gone);
    }
  }

  // ---------- cpuset files ----------

  /** The cpuset.cpus files below the cgroup root.  A missing entry cannot be read; the
      kernel may give back any text of the same normal form as the one written. */
  class CgroupFiles {
    var texts: map<string, string>
    const unwritable: set<string>

    constructor (texts: map<string, string>, unwritable: set<string>)
      ensures this.texts == texts && this.unwritable == unwritable
    {
      this.texts := texts;
      this.unwritable := unwritable;
    }

    ghost function Normals(): map<string, string>
      reads this
    {
      map p | p in texts :: Cpuset.NormalForm(texts[p])
    }

    method Read(path: string) returns (current: Option<string>)
      ensures current.Some? <==> path in Normals()
      ensures current.Some? ==> Cpuset.NormalForm(current.value) == Normals()[path]
    {
      if path !in texts {
        return None;
      }
      Cpuset.NormalFormTrims(texts[path]);
      return Some(TrimSpace(texts[path]));
    }

    method Write(path: string, text: string) returns (ok: bool)
      modifies this
      ensures ok <==> path in old(Normals()) && path !in unwritable
      ensures Normals() == if ok then old(Normals())[path := Cpuset.NormalForm(text)] else old(Normals())
    {
      hide Cpuset.NormalForm;
      ok := path in texts && path !in unwritable;
      if ok {
        assert Cpuset.NormalForm(text) == Cpuset.NormalForm(text);
        var readBack: string :| Cpuset.NormalForm(readBack) == Cpuset.NormalForm(text);
        texts := texts[path := readBack];
      }
    }
  }

  // ---------- the agent ----------

  class Agent {
    const pairs: seq<Cpuset.SiblingPair>
    const namespaces: set<string>
    const runtimeClasses: set<string>
    const dryRun: bool
    var pods: map<string, Pod>
    var token: bool  // the one-slot reconcile channel

    constructor (pairs: seq<Cpuset.SiblingPair>, namespaces: set<string>, runtimeClasses: set<string>, dryRun: bool)
      ensures this.pairs == pairs && this.namespaces == namespaces
      ensures this.runtimeClasses == runtimeClasses && this.dryRun == dryRun
      ensures pods == map[] && !token
    {
      this.pairs := pairs;
      this.namespaces := namespaces;
      this.runtimeClasses := runtimeClasses;
      this.dryRun := dryRun;
      pods := map[];
      token := false;
    }

    /** The initial snapshot replaces the whole map; the last of equal ids wins. */
    method ReplacePods(sandboxes: seq<Option<Sandbox>>)
      modifies this`pods
      ensures pods == Snapshot(sandboxes)
    {
      var next: map<string, Pod> := map[];
      for i := 0 to |sandboxes|
        invariant next == Snapshot(sandboxes[..i])
      {
        assert sandboxes[..i + 1][..i] == sandboxes[..i];
        if sandboxes[i].None? {
          continue;
        }
        next := next[sandboxes[i].value.id := ConvertPod(sandboxes[i].value)];
      }
      assert sandboxes[..|sandboxes|] == sandboxes;
      pods := next;
    }

    method UpsertPod(sandbox: Option<Sandbox>)
      modifies this`pods
      ensures pods == Upserted(old(pods), sandbox)
    {
      if sandbox.None? {
        return;
      }
      pods := pods[sandbox.value.id := ConvertPod(sandbox.value)];
    }

    method RemovePod(sandbox: Option<Sandbox>)
      modifies this`pods
      ensures pods == Removed(old(pods), sandbox)
    {
      if sandbox.None? {
        return;
      }
      pods := pods - {sandbox.value.id};
    }

    /** A send that never blocks: a full slot already holds a wake-up. */
    method RequestReconcile()
      modifies this`token
      ensures token
    {
      if !token {
        token := true;
      }
    }

    method ListPods() returns (list: seq<Pod>)
      requires KeyedById(pods)
      ensures Listing(pods, list)
    {
      var out: seq<Pod> := [];
      var keys := pods.Keys;
      while keys != {}
        invariant keys <= pods.Keys
        invariant forall i :: 0 <= i < |out| ==> out[i].id in pods && out[i].id !in keys && pods[out[i].id] == out[i]
        invariant DistinctIds(out)
        invariant forall k :: k in pods && k !in keys ==> pods[k] in out
        decreases keys
      {
        var k :| k in keys;
        keys := keys - {k};
        out := out + [pods[k]];
      }
      var backing := new Pod[|out|](i requires 0 <= i < |out| => out[i]);
      assert backing[..] == out;
      SortSlice(backing, PodLess);
      list := backing[..];
      SortedListing(pods, out);
    }

    method PairSet(i: nat) returns (pairSet: string)
      requires PairsValid() && i < |pairs|
      ensures pairSet == PairTexts(pairs)[i]
    {
      pairSet := Cpuset.NormalizeCpuset(pairs[i].String());
      Cpuset.PairIsNormal(pairs[i]);
    }

    ghost predicate PairsValid() {
      forall i :: 0 <= i < |pairs| ==> pairs[i].Valid()
    }

    /** The first scan: the pair the pod is on already, unless another pod took it. */
    method KeptPair(currentSet: string, occupied: set<string>) returns (target: Option<string>)
      requires PairsValid()
      ensures target == if currentSet in PairTexts(pairs) && currentSet !in occupied then Some(currentSet) else None
    {
      for i := 0 to |pairs|
        invariant forall k :: 0 <= k < i ==> PairTexts(pairs)[k] != currentSet
      {
        var pairSet := PairSet(i);
        if currentSet == pairSet {
          if pairSet in occupied {
            break;
          }
          return Some(pairs[i].String());
        }
      }
      return None;
    }

    /** The second scan: the first pair nobody holds. */
    method FirstFreePair(occupied: set<string>) returns (target: string)
      requires PairsValid()
      ensures target == FirstFree(PairTexts(pairs), occupied)
    {
      ghost var texts := PairTexts(pairs);
      assert texts[0..] == texts;
      for i := 0 to |pairs|
        invariant FirstFree(texts, occupied) == FirstFree(texts[i..], occupied)
      {
        var pairSet := PairSet(i);
        if pairSet !in occupied {
          return pairs[i].String();
        }
        assert texts[i..][1..] == texts[i + 1..];
      }
      return "";
    }

    /** Keep the current pair if it is free, else the first free pair, else "". */
    method TargetCpuset(current: string, occupied: set<string>) returns (target: string)
      requires PairsValid()
      ensures target == Target(PairTexts(pairs), Cpuset.NormalForm(current), occupied)
    {
      var currentSet := Cpuset.NormalizeCpuset(current);
      var kept := KeptPair(currentSet, occupied);
      if kept.Some? {
        return kept.value;
      }
      target := FirstFreePair(occupied);
    }

    method NeedsCpusetUpdate(files: CgroupFiles, paths: seq<string>, target: string) returns (r: Option<bool>)
      ensures r == NeedsUpdate(paths, files.Normals(), Cpuset.NormalForm(target))
    {
      var targetSet := Cpuset.NormalizeCpuset(target);
      var i := 0;
      while i < |paths|
        invariant 0 <= i <= |paths|
        invariant NeedsUpdate(paths, files.Normals(), targetSet) == NeedsUpdate(paths[i..], files.Normals(), targetSet)
      {
        var current := files.Read(paths[i]);
        if current.None? {
          return None;
        }
        var currentSet := Cpuset.NormalizeCpuset(current.value);
        if currentSet != targetSet {
          return Some(true);
        }
        assert paths[i..][1..] == paths[i + 1..];
        i := i + 1;
      }
      return Some(false);
    }

    method WriteCpusets(files: CgroupFiles, paths: seq<string>, target: string) returns (attempts: seq<Write>)
      modifies files
      ensures files.Normals() == WriteAll(old(files.Normals()), paths, Cpuset.NormalForm(target), files.unwritable)
      ensures attempts == Attempts(paths, target)
    {
      hide CgroupFiles.Normals, Cpuset.NormalForm, WriteAll;
      attempts := [];
      ghost var before := files.Normals();
      ghost var text := Cpuset.NormalForm(target);
      WriteNothing(before, text, files.unwritable);
      for i := 0 to |paths|
        invariant files.Normals() == WriteAll(before, paths[..i], text, files.unwritable)
        invariant attempts == Attempts(paths[..i], target)
      {
        WriteOneMore(before, paths[..i], paths[i], text, files.unwritable);
        assert paths[..i + 1] == paths[..i] + [paths[i]];
        var ok := files.Write(paths[i], target);
        attempts := attempts + [Write(paths[i], target)];
      }
      assert paths[..|paths|] == paths;
    }

    ghost function EnvOf(files: CgroupFiles, cgroups: map<string, seq<string>>): Env {
      Env(PairTexts(pairs), namespaces, runtimeClasses, cgroups, files.unwritable, dryRun)
    }

    predicate Match(pod: Pod) {
      pod.namespace in namespaces && pod.runtimeClass in runtimeClasses && HasTargetCPULimit(pod)
    }

    /** The loop body of one pass; "cgroups" stands for resolving a pod to its cgroup
        directories. */
    method HandlePod(files: CgroupFiles, cgroups: map<string, seq<string>>, pod: Pod,
                     occupied: set<string>, bound: map<string, string>, writes: seq<Write>)
      returns (occupied': set<string>, bound': map<string, string>, writes': seq<Write>)
      requires PairsValid()
      modifies files
      ensures Pass(files.Normals(), occupied', bound', writes') ==
              BindPod(EnvOf(files, cgroups), Pass(old(files.Normals()), occupied, bound, writes), pod)
    {
      hide CgroupFiles.Normals, Cpuset.NormalForm;
      occupied', bound', writes' := occupied, bound, writes;
      if !Match(pod) {
        return;
      }
      if pod.cgroupPath == "" {
        return;
      }
      if pod.id !in cgroups || cgroups[pod.id] == [] {
        return;
      }
      var paths := cgroups[pod.id];
      var current := files.Read(paths[0]);
      if current.None? {
        return;
      }
      var target := TargetCpuset(current.value, occupied);
      if target == "" {
        return;
      }
      TargetIsNormal(pairs, Cpuset.NormalForm(current.value), occupied);
      var taken := Cpuset.NormalizeCpuset(target);
      occupied' := occupied + {taken};
      bound' := bound[pod.id := target];
      var needsUpdate := NeedsCpusetUpdate(files, paths, target);
      if needsUpdate.None? {
        return;
      }
      if !needsUpdate.value {
        return;
      }
      if dryRun {
        return;
      }
      var attempts := WriteCpusets(files, paths, target);
      writes' := writes + attempts;
    }

    /** MAIN: a pass over the texts does what Binding.Run does to their normal forms, on the
        one listing of the pod map. */
    method ReconcileOnce(files: CgroupFiles, cgroups: map<string, seq<string>>)
      returns (list: seq<Pod>, bound: map<string, string>, writes: seq<Write>)
      requires PairsValid() && KeyedById(pods)
      modifies files
      ensures Listing(pods, list)
      ensures var s := Run(EnvOf(files, cgroups), list, old(files.Normals()));
              files.Normals() == s.files && bound == s.bound && writes == s.writes
    {
      list := ListPods();
      var occupied: set<string> := {};
      bound, writes := map[], [];
      for i := 0 to |list|
        invariant Pass(files.Normals(), occupied, bound, writes) ==
                  Run(EnvOf(files, cgroups), list[..i], old(files.Normals()))
      {
        assert list[..i + 1] == list[..i] + [list[i]];
        RunSnoc(EnvOf(files, cgroups), list[..i], list[i], old(files.Normals()));
        occupied, bound, writes := HandlePod(files, cgroups, list[i], occupied, bound, writes);
      }
      assert list[..|list|] == list;
    }
  }

  lemma {:induction false} WriteNothing(files: map<string, string>, text: string, unwritable: set<string>)
    ensures WriteAll(files, [], text, unwritable) == files
  {
  }

  lemma {:induction false} WriteOneMore(
      files: map<string, string>, paths: seq<string>, p: string, text: string, unwritable: set<string>)
    ensures var before := WriteAll(files, paths, text, unwritable);
            WriteAll(files, paths + [p], text, unwritable) ==
              if p in before && p !in unwritable then before[p := text] else before
  {
  }

  /** MAIN: a pod whose file reads back as the range of two neighbouring CPUs keeps their
      pair when nobody else holds it. */
  lemma {:induction false} RangeReadBackKeepsPair(
      pairs: seq<Cpuset.SiblingPair>, l: string, a: int, r: string, occupied: set<string>)
    requires 0 <= a < MAX_INT64 && IsBlank(l) && IsBlank(r)
    requires Cpuset.SiblingPair(a, a + 1) in pairs && Cpuset.SiblingPair(a, a + 1).String() !in occupied
    ensures Target(PairTexts(pairs), Cpuset.NormalForm(l + (FormatInt(a) + "-" + FormatInt(a + 1)) + r), occupied) ==
            Cpuset.SiblingPair(a, a + 1).String()
  {
    hide FormatInt, Cpuset.NormalForm;
    Cpuset.PairAsRange(l, a, r);
    var i :| 0 <= i < |pairs| && pairs[i] == Cpuset.SiblingPair(a, a + 1);
    assert PairTexts(pairs)[i] == pairs[i].String();
  }

  lemma {:induction false} TargetIsNormal(pairs: seq<Cpuset.SiblingPair>, current: string, occupied: set<string>)
    requires forall i :: 0 <= i < |pairs| ==> pairs[i].Valid()
    ensures var target := Target(PairTexts(pairs), current, occupied);
            target != "" ==> Cpuset.NormalForm(target) == target
  {
    var target := Target(PairTexts(pairs), current, occupied);
    if target in PairTexts(pairs) {
      var i :| 0 <= i < |pairs| && PairTexts(pairs)[i] == target;
      Cpuset.PairIsNormal(pairs[i]);
    }
  }

  function PairTexts(pairs: seq<Cpuset.SiblingPair>): (r: seq<string>)
    ensures |r| == |pairs| && forall i :: 0 <= i < |pairs| ==> r[i] == pairs[i].String()
  {
    seq(|pairs|, i requires 0 <= i < |pairs| => pairs[i].String())
  }

  function Upserted(pods: map<string, Pod>, sandbox: Option<Sandbox>): map<string, Pod> {
    if sandbox.None? then pods else pods[sandbox.value.id := ConvertPod(sandbox.value)]
  }

  function Removed(pods: map<string, Pod>, sandbox: Option<Sandbox>): map<string, Pod> {
    if sandbox.None? then pods else pods - {sandbox.value.id}
  }

  function Snapshot(sandboxes: seq<Option<Sandbox>>): map<string, Pod> {
    if sandboxes == [] then map[]
    else Upserted(Snapshot(sandboxes[..|sandboxes| - 1]), sandboxes[|sandboxes| - 1])
  }

  /** MAIN: after a snapshot the map holds exactly the ids of its non-nil sandboxes, each with
      the last sandbox of that id. */
  lemma {:induction false} SnapshotMeaning(sandboxes: seq<Option<Sandbox>>, id: string)
    ensures id in Snapshot(sandboxes) <==>
              exists i :: 0 <= i < |sandboxes| && sandboxes[i].Some? && sandboxes[i].value.id == id
    ensures forall i :: 0 <= i < |sandboxes| && IsLast(sandboxes, id, i) ==>
              id in Snapshot(sandboxes) && Snapshot(sandboxes)[id] == ConvertPod(sandboxes[i].value)
  {
    hide ConvertPod, Snapshot;
    SnapshotIds(sandboxes, id);
    forall i | 0 <= i < |sandboxes| && IsLast(sandboxes, id, i)
      ensures id in Snapshot(sandboxes) && Snapshot(sandboxes)[id] == ConvertPod(sandboxes[i].value)
    {
      SnapshotLast(sandboxes, id, i);
    }
  }

  lemma {:induction false} SnapshotIds(sandboxes: seq<Option<Sandbox>>, id: string)
    ensures id in Snapshot(sandboxes) <==>
              exists i :: 0 <= i < |sandboxes| && sandboxes[i].Some? && sandboxes[i].value.id == id
  {
    hide ConvertPod;
    if sandboxes != [] {
      SnapshotIds(sandboxes[..|sandboxes| - 1], id);
    }
  }

  lemma {:induction false} SnapshotLast(sandboxes: seq<Option<Sandbox>>, id: string, i: nat)
    requires IsLast(sandboxes, id, i)
    ensures id in Snapshot(sandboxes) && Snapshot(sandboxes)[id] == ConvertPod(sandboxes[i].value)
  {
    hide ConvertPod;
    if i < |sandboxes| - 1 {
      SnapshotLast(sandboxes[..|sandboxes| - 1], id, i);
    }
  }

  /** Sandbox i is the last of that id. */
  predicate IsLast(sandboxes: seq<Option<Sandbox>>, id: string, i: nat) {
    && i < |sandboxes| && sandboxes[i].Some? && sandboxes[i].value.id == id
    && forall j :: i < j < |sandboxes| && sandboxes[j].Some? ==> sandboxes[j].value.id != id
  }

  /** Sorting the distinct values of a map gives its listing. */
  lemma {:induction false} SortedListing(pods: map<string, Pod>, out: seq<Pod>)
    requires DistinctIds(out)
    requires forall i :: 0 <= i < |out| ==> out[i].id in pods && pods[out[i].id] == out[i]
    requires forall k :: k in pods ==> pods[k] in out
    ensures Listing(pods, Sort(PodLess, out))
  {
    var list := Sort(PodLess, out);
    PodLessTotal(out);
    SortSorted(PodLess, out);
    SortMultiset(PodLess, out);
    SameElements(list, out);
    SameElements(out, list);
    forall i | 0 <= i < |list| ensures list[i].id in pods && pods[list[i].id] == list[i] {
      var j :| 0 <= j < |out| && out[j] == list[i];
    }
    DistinctFromMultiset(list, out);
    forall i, j | 0 <= i < j < |list| ensures PodLess(list[i], list[j]) {
      assert list[i] in out && list[j] in out;
      assert !PodLess(list[j], list[i]);
    }
  }

  lemma {:induction false} ListingExists(pods: map<string, Pod>) returns (list: seq<Pod>)
    requires KeyedById(pods)
    ensures Listing(pods, list)
  {
    var out := Collect(pods);
    SortedListing(pods, out);
    list := Sort(PodLess, out);
  }

  lemma {:induction false} Collect(pods: map<string, Pod>) returns (out: seq<Pod>)
    requires KeyedById(pods)
    ensures DistinctIds(out)
    ensures forall i :: 0 <= i < |out| ==> out[i].id in pods && pods[out[i].id] == out[i]
    ensures forall k :: k in pods ==> pods[k] in out
    decreases pods.Keys
  {
    if pods.Keys == {} {
      out := [];
    } else {
      var k :| k in pods;
      var rest := Collect(pods - {k});
      out := rest + [pods[k]];
      forall l | l in pods ensures pods[l] in out {
        if l != k {
          assert (pods - {k})[l] in rest;
        }
      }
    }
  }

  lemma {:induction false} DistinctFromMultiset(a: seq<Pod>, b: seq<Pod>)
    requires multiset(a) == multiset(b) && DistinctIds(b)
    ensures forall i, j :: 0 <= i < j < |a| ==> a[i] != a[j]
  {
    forall i, j | 0 <= i < j < |a| ensures a[i] != a[j] {
      if a[i] == a[j] {
        TwiceInMultiset(a, i, j);
        OnceInMultiset(b, a[i]);
        assert false;
      }
    }
  }

  lemma {:induction false} TwiceInMultiset(s: seq<Pod>, i: nat, j: nat)
    requires i < j < |s| && s[i] == s[j]
    ensures multiset(s)[s[i]] >= 2
  {
    assert s == s[..i] + [s[i]] + s[i + 1..j] + [s[j]] + s[j + 1..];
  }

  lemma {:induction false} OnceInMultiset(s: seq<Pod>, x: Pod)
    requires DistinctIds(s)
    ensures multiset(s)[x] <= 1
  {
    if s != [] {
      OnceInMultiset(s[1..], x);
      assert s == [s[0]] + s[1..];
      if x == s[0] {
        assert x !in s[1..];
      }
    }
  }

  // ---------- exclusive CPUs ----------

  ghost predicate PairsDisjoint(pairs: seq<Cpuset.SiblingPair>) {
    && (forall i :: 0 <= i < |pairs| ==> pairs[i].Valid())
    && forall i, j, c | 0 <= i < j < |pairs| && c in pairs[i].Cpus() :: c !in pairs[j].Cpus()
  }

  lemma {:induction false} DisjointPairsDistinct(pairs: seq<Cpuset.SiblingPair>)
    requires PairsDisjoint(pairs)
    ensures "" !in PairTexts(pairs)
    ensures forall i, j :: 0 <= i < j < |pairs| ==> PairTexts(pairs)[i] != PairTexts(pairs)[j]
  {
    hide Cpuset.Parse, Cpuset.NormalForm;
    forall i | 0 <= i < |pairs| ensures pairs[i].String() != "" {
    }
    forall i, j | 0 <= i < j < |pairs| ensures PairTexts(pairs)[i] != PairTexts(pairs)[j] {
      Cpuset.PairIsNormal(pairs[i]);
      Cpuset.PairIsNormal(pairs[j]);
      assert pairs[i].Cpus()[0] in pairs[i].Cpus();
    }
  }

  /** A text in a pair's normal form lists that pair's CPUs and no others. */
  lemma {:induction false} TextOfPair(text: string, pair: Cpuset.SiblingPair)
    requires pair.Valid() && Cpuset.NormalForm(text) == pair.String()
    ensures Cpuset.Parse(text).Some?
    ensures forall c :: c in Cpuset.Parse(text).value <==> c in pair.Cpus()
  {
    hide Cpuset.Parse, Cpuset.NormalForm;
    Cpuset.PairIsNormal(pair);
    if Cpuset.Parse(text).None? {
      Cpuset.UnreadableDiffers(text, pair.String());
    } else {
      Cpuset.NormalFormIffSameCpus(text, pair.String());
      SameElements(Cpuset.Parse(text).value, pair.Cpus());
    }
  }

  lemma {:induction false} BoundPodsHoldDifferentPairs(
      env: Env, pods: seq<Pod>, files: map<string, string>, i: nat, j: nat)
    requires env.Distinct() && DistinctIds(pods) && i < |pods| && j < |pods| && i != j
    requires pods[i].id in Run(env, pods, files).bound && pods[j].id in Run(env, pods, files).bound
    ensures var bound := Run(env, pods, files).bound;
            && bound[pods[i].id] in env.pairs && bound[pods[j].id] in env.pairs
            && bound[pods[i].id] != bound[pods[j].id]
  {
    hide Run, Askers;
    PassIsFair(env, pods, files);
    assert pods[i].id != pods[j].id;
  }

  lemma {:induction false} SettledFile(env: Env, pods: seq<Pod>, files: map<string, string>, i: nat, p: string)
    requires Settled(env, pods, files) && i < |pods|
    requires pods[i].id in Run(env, pods, files).bound && p in Cgroups(env, pods[i])
    ensures p in files && files[p] == Run(env, pods, files).bound[pods[i].id]
  {
    hide Run, Cgroups;
  }

  ghost predicate NormalsOf(normals: map<string, string>, texts: map<string, string>) {
    normals.Keys == texts.Keys && forall f :: f in texts ==> normals[f] == Cpuset.NormalForm(texts[f])
  }

  /** MAIN: in a settled state, the cpuset texts of two different bound pods parse and have
      no CPU in common. */
  lemma {:induction false} BoundPodsShareNoCpu(
      pairs: seq<Cpuset.SiblingPair>, env: Env, pods: seq<Pod>,
      texts: map<string, string>, normals: map<string, string>, i: nat, p: string, j: nat, q: string)
    requires PairsDisjoint(pairs) && env.pairs == PairTexts(pairs) && DistinctIds(pods)
    requires NormalsOf(normals, texts) && Settled(env, pods, normals)
    requires i < |pods| && j < |pods| && i != j
    requires pods[i].id in Run(env, pods, normals).bound && p in Cgroups(env, pods[i])
    requires pods[j].id in Run(env, pods, normals).bound && q in Cgroups(env, pods[j])
    ensures p in texts && Cpuset.Parse(texts[p]).Some?
    ensures q in texts && Cpuset.Parse(texts[q]).Some?
    ensures forall c :: c in Cpuset.Parse(texts[p]).value ==> c !in Cpuset.Parse(texts[q]).value
  {
    hide Cpuset.Parse, Cpuset.NormalForm, Run, Settled, Cgroups;
    DisjointPairsDistinct(pairs);
    BoundPodsHoldDifferentPairs(env, pods, normals, i, j);
    SettledFile(env, pods, normals, i, p);
    SettledFile(env, pods, normals, j, q);
    var k :| 0 <= k < |pairs| && PairTexts(pairs)[k] == normals[p];
    var l :| 0 <= l < |pairs| && PairTexts(pairs)[l] == normals[q];
    assert k != l;
    TextOfPair(texts[p], pairs[k]);
    TextOfPair(texts[q], pairs[l]);
  }
}
