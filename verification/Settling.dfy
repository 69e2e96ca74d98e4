/** Repeated reconcile passes: after a pass everything stays where it is (agent.go). */
module Settling {
  import opened Text
  import opened Binding

  function Cgroups(env: Env, pod: Pod): seq<string> {
    if pod.id in env.cgroups then env.cgroups[pod.id] else []
  }

  // ---------- a pass touches only the cgroups of the pods it has seen ----------

  lemma {:induction false} BindPodFrame(env: Env, s: Pass, pod: Pod, p: string)
    requires p in s.files && p !in Cgroups(env, pod)
    ensures p in BindPod(env, s, pod).files && BindPod(env, s, pod).files[p] == s.files[p]
  {
  }

  lemma {:induction false} BindPodKeys(env: Env, s: Pass, pod: Pod)
    ensures BindPod(env, s, pod).files.Keys == s.files.Keys
  {
  }

  lemma {:induction false} RunKeys(env: Env, pods: seq<Pod>, files: map<string, string>)
    ensures Run(env, pods, files).files.Keys == files.Keys
  {
    if pods != [] {
      var n := |pods| - 1;
      RunKeys(env, pods[..n], files);
      BindPodKeys(env, Run(env, pods[..n], files), pods[n]);
    }
  }

  lemma {:induction false} RunFrame(env: Env, pods: seq<Pod>, files: map<string, string>, p: string)
    requires p in files && forall i :: 0 <= i < |pods| ==> p !in Cgroups(env, pods[i])
    ensures p in Run(env, pods, files).files && Run(env, pods, files).files[p] == files[p]
  {
    if pods != [] {
      var n := |pods| - 1;
      RunFrame(env, pods[..n], files, p);
      BindPodFrame(env, Run(env, pods[..n], files), pods[n], p);
    }
  }

  lemma {:induction false} OthersAvoid(env: Env, pods: seq<Pod>, i: nat, j: nat, p: string)
    requires env.Separate() && DistinctIds(pods)
    requires i < |pods| && j < |pods| && i != j && p in Cgroups(env, pods[i])
    ensures p !in Cgroups(env, pods[j])
  {
    assert pods[i].id != pods[j].id;
  }

  /** A pod's files do not change any more once the pod has been handled. */
  lemma {:induction false} RunLater(env: Env, pods: seq<Pod>, i: nat, files: map<string, string>, p: string)
    requires env.Separate() && DistinctIds(pods)
    requires i < |pods| && p in files && p in Cgroups(env, pods[i])
    ensures p in Run(env, pods, files).files && p in Run(env, pods[..i + 1], files).files
    ensures Run(env, pods, files).files[p] == Run(env, pods[..i + 1], files).files[p]
  {
    RunKeys(env, pods, files);
    RunKeys(env, pods[..i + 1], files);
    if i + 1 == |pods| {
      assert pods[..i + 1] == pods;
    } else {
      var n := |pods| - 1;
      assert pods[..n][..i + 1] == pods[..i + 1];
      assert pods[..n][i] == pods[i];
      RunLater(env, pods[..n], i, files, p);
      OthersAvoid(env, pods, i, n, p);
      BindPodFrame(env, Run(env, pods[..n], files), pods[n], p);
    }
  }

  /** A pod's files still have their initial content when its turn comes. */
  lemma {:induction false} RunEarlier(env: Env, pods: seq<Pod>, i: nat, files: map<string, string>, p: string)
    requires env.Separate() && DistinctIds(pods)
    requires i < |pods| && p in files && p in Cgroups(env, pods[i])
    ensures p in Run(env, pods[..i], files).files && Run(env, pods[..i], files).files[p] == files[p]
  {
    forall j | 0 <= j < i ensures p !in Cgroups(env, pods[..i][j]) {
      OthersAvoid(env, pods, i, j, p);
    }
    RunFrame(env, pods[..i], files, p);
  }

  // ---------- the choice of a pair is stable ----------

  /** Offered its own pair, or nothing at all, a pod chooses as it did before. */
  lemma {:induction false} TargetStable(pairs: seq<string>, current: string, again: string, occupied: set<string>)
    requires "" !in pairs
    requires again == current || again == Target(pairs, current, occupied)
    ensures Target(pairs, again, occupied) == Target(pairs, current, occupied)
  {
  }

  /** The pod's own first file after its turn: untouched, or the pair just chosen. */
  lemma {:induction false} FirstFileAfter(env: Env, s: Pass, pod: Pod)
    requires env.Eligible(pod, s.files.Keys)
    ensures var p := env.cgroups[pod.id][0];
            var target := Target(env.pairs, s.files[p], s.occupied);
            var t := BindPod(env, s, pod);
            p in t.files && (t.files[p] == s.files[p] || t.files[p] == target)
  {
  }

  lemma {:induction false} SamePairAgain(env: Env, env2: Env, first: Pass, second: Pass, pod: Pod)
    requires env.Distinct() && env.SameSetup(env2)
    requires first.files.Keys == second.files.Keys
    requires first.bound == second.bound && first.occupied == second.occupied
    requires env.Eligible(pod, first.files.Keys) ==>
               var p := env.cgroups[pod.id][0];
               second.files[p] == BindPod(env, first, pod).files[p]
    ensures BindPod(env2, second, pod).bound == BindPod(env, first, pod).bound
    ensures BindPod(env2, second, pod).occupied == BindPod(env, first, pod).occupied
  {
    if env.Eligible(pod, first.files.Keys) {
      var p := env.cgroups[pod.id][0];
      FirstFileAfter(env, first, pod);
      TargetStable(env.pairs, first.files[p], second.files[p], first.occupied);
    }
  }

  /** MAIN: a second pass over what a first pass left behind hands every pod the same pair
      again, whichever writes failed in either pass and even if dry-run was switched. */
  lemma {:induction false} SecondPassSamePairs(
      env: Env, env2: Env, pods: seq<Pod>, n: nat, files: map<string, string>)
    requires env.Distinct() && env.Separate() && DistinctIds(pods) && env.SameSetup(env2)
    requires n <= |pods|
    ensures var after := Run(env, pods, files).files;
            var first, second := Run(env, pods[..n], files), Run(env2, pods[..n], after);
            second.bound == first.bound && second.occupied == first.occupied
  {
    hide BindPod;
    if n > 0 {
      var i := n - 1;
      SecondPassSamePairs(env, env2, pods, i, files);
      var after := Run(env, pods, files).files;
      var first, second := Run(env, pods[..i], files), Run(env2, pods[..i], after);
      assert pods[..n] == pods[..i] + [pods[i]];
      RunSnoc(env, pods[..i], pods[i], files);
      RunSnoc(env2, pods[..i], pods[i], after);
      RunKeys(env, pods, files);
      RunKeys(env, pods[..i], files);
      RunKeys(env2, pods[..i], after);
      if env.Eligible(pods[i], files.Keys) {
        var p := env.cgroups[pods[i].id][0];
        RunEarlier(env2, pods, i, after, p);
        RunLater(env, pods, i, files, p);
      }
      SamePairAgain(env, env2, first, second, pods[i]);
    }
  }

  // ---------- a pass without failures leaves a settled state ----------

  /** Every file of every pod that a pass would bind already holds that pod's pair. */
  ghost predicate Settled(env: Env, pods: seq<Pod>, files: map<string, string>) {
    var bound := Run(env, pods, files).bound;
    forall i, p | 0 <= i < |pods| && pods[i].id in bound && p in Cgroups(env, pods[i]) ::
      p in files && files[p] == bound[pods[i].id]
  }

  /** The pass is not a dry run, and no file of a pod it binds refuses a read or a write. */
  ghost predicate AllAccessible(env: Env, pods: seq<Pod>, files: map<string, string>) {
    var bound := Run(env, pods, files).bound;
    && !env.dryRun
    && forall i, p | 0 <= i < |pods| && pods[i].id in bound && p in Cgroups(env, pods[i]) ::
         p in files && p !in env.unwritable
  }

  lemma {:induction false} NoUpdateNeeded(paths: seq<string>, files: map<string, string>, target: string)
    requires forall p :: p in paths ==> p in files
    ensures NeedsUpdate(paths, files, target) == Some(exists p :: p in paths && files[p] != target)
  {
    if paths != [] {
      NoUpdateNeeded(paths[1..], files, target);
      assert forall p :: p in paths <==> p == paths[0] || p in paths[1..];
    }
  }

  lemma {:induction false} BoundOnce(env: Env, s: Pass, pod: Pod)
    requires pod.id !in s.bound && pod.id in BindPod(env, s, pod).bound
    requires forall p | p in Cgroups(env, pod) :: p in s.files && p !in env.unwritable
    requires !env.dryRun
    ensures var t := BindPod(env, s, pod);
            forall p | p in Cgroups(env, pod) :: p in t.files && t.files[p] == t.bound[pod.id]
  {
    var t := BindPod(env, s, pod);
    NoUpdateNeeded(Cgroups(env, pod), s.files, t.bound[pod.id]);
  }

  lemma {:induction false} BindPodBound(env: Env, s: Pass, pod: Pod)
    ensures var t := BindPod(env, s, pod);
            forall id :: id != pod.id ==>
              (id in t.bound <==> id in s.bound) && (id in s.bound ==> t.bound[id] == s.bound[id])
  {
  }

  lemma {:induction false} BoundStays(env: Env, pods: seq<Pod>, i: nat, files: map<string, string>)
    requires DistinctIds(pods) && i < |pods|
    ensures pods[i].id !in Run(env, pods[..i], files).bound
    ensures var early, late := Run(env, pods[..i + 1], files).bound, Run(env, pods, files).bound;
            && (pods[i].id in early <==> pods[i].id in late)
            && (pods[i].id in early ==> early[pods[i].id] == late[pods[i].id])
  {
    hide BindPod;
    OnlySeenBound(env, pods[..i], files);
    assert pods[i].id !in Ids(pods[..i]);
    if i + 1 == |pods| {
      assert pods[..i + 1] == pods;
    } else {
      var n := |pods| - 1;
      assert pods[..n][..i + 1] == pods[..i + 1];
      assert pods[..n][i] == pods[i];
      BoundStays(env, pods[..n], i, files);
      BindPodBound(env, Run(env, pods[..n], files), pods[n]);
      assert pods[n].id != pods[i].id;
    }
  }

  lemma {:induction false} OnlySeenBound(env: Env, pods: seq<Pod>, files: map<string, string>)
    ensures Run(env, pods, files).bound.Keys <= Ids(pods)
  {
    if pods != [] {
      var n := |pods| - 1;
      OnlySeenBound(env, pods[..n], files);
      assert Ids(pods[..n]) <= Ids(pods);
      assert pods[n].id in Ids(pods);
    }
  }

  lemma {:induction false} SecondPassBinds(env: Env, pods: seq<Pod>, files: map<string, string>)
    requires env.Distinct() && env.Separate() && DistinctIds(pods)
    ensures Run(env, pods, Run(env, pods, files).files).bound == Run(env, pods, files).bound
  {
    SecondPassSamePairs(env, env, pods, |pods|, files);
    assert pods[..|pods|] == pods;
  }

  /** MAIN: after a pass in which nothing failed, the state is settled. */
  lemma {:induction false} PassSettles(env: Env, pods: seq<Pod>, files: map<string, string>)
    requires env.Distinct() && env.Separate() && DistinctIds(pods)
    requires AllAccessible(env, pods, files)
    ensures Settled(env, pods, Run(env, pods, files).files)
  {
    var s := Run(env, pods, files);
    SecondPassBinds(env, pods, files);
    forall i, p | 0 <= i < |pods| && pods[i].id in s.bound && p in Cgroups(env, pods[i])
      ensures p in s.files && s.files[p] == s.bound[pods[i].id]
    {
      OwnFilesHoldPair(env, pods, i, files, p);
    }
  }

  lemma {:induction false} JustBound(env: Env, pods: seq<Pod>, i: nat, files: map<string, string>)
    requires DistinctIds(pods) && AllAccessible(env, pods, files) && i < |pods|
    requires pods[i].id in Run(env, pods[..i + 1], files).bound
    ensures var s := Run(env, pods[..i + 1], files);
            forall p | p in Cgroups(env, pods[i]) :: p in s.files && s.files[p] == s.bound[pods[i].id]
  {
    assert pods[..i + 1] == pods[..i] + [pods[i]];
    RunSnoc(env, pods[..i], pods[i], files);
    RunKeys(env, pods[..i], files);
    BoundStays(env, pods, i, files);
    BoundOnce(env, Run(env, pods[..i], files), pods[i]);
  }

  lemma {:induction false} OwnFilesHoldPair(env: Env, pods: seq<Pod>, i: nat, files: map<string, string>, p: string)
    requires env.Separate() && DistinctIds(pods) && AllAccessible(env, pods, files) && i < |pods|
    requires pods[i].id in Run(env, pods, files).bound && p in Cgroups(env, pods[i])
    ensures var s := Run(env, pods, files); p in s.files && s.files[p] == s.bound[pods[i].id]
  {
    BoundStays(env, pods, i, files);
    JustBound(env, pods, i, files);
    RunLater(env, pods, i, files, p);
  }

  lemma {:induction false} SettledPodWritesNothing(env: Env, s: Pass, pod: Pod)
    requires pod.id !in s.bound
    requires var t := BindPod(env, s, pod);
             pod.id in t.bound ==>
               forall p | p in Cgroups(env, pod) :: p in s.files && s.files[p] == t.bound[pod.id]
    ensures var t := BindPod(env, s, pod); t.files == s.files && t.writes == s.writes
  {
    var t := BindPod(env, s, pod);
    if pod.id in t.bound {
      NoUpdateNeeded(Cgroups(env, pod), s.files, t.bound[pod.id]);
    }
  }

  lemma {:induction false} SettledPrefix(env: Env, pods: seq<Pod>, n: nat, files: map<string, string>)
    requires DistinctIds(pods) && Settled(env, pods, files) && n <= |pods|
    ensures Run(env, pods[..n], files).files == files
    ensures Run(env, pods[..n], files).writes == []
  {
    hide BindPod;
    if n > 0 {
      var i := n - 1;
      SettledPrefix(env, pods, i, files);
      assert pods[..n] == pods[..i] + [pods[i]];
      RunSnoc(env, pods[..i], pods[i], files);
      BoundStays(env, pods, i, files);
      SettledPodWritesNothing(env, Run(env, pods[..i], files), pods[i]);
    }
  }

  /** MAIN: in a settled state a pass writes nothing and changes nothing. */
  lemma {:induction false} SettledIsFixpoint(env: Env, pods: seq<Pod>, files: map<string, string>)
    requires DistinctIds(pods) && Settled(env, pods, files)
    ensures Run(env, pods, files).writes == [] && Run(env, pods, files).files == files
  {
    SettledPrefix(env, pods, |pods|, files);
    assert pods[..|pods|] == pods;
  }

  // ---------- removing pods ----------

  function Keep(pods: seq<Pod>, gone: set<string>): seq<Pod> {
    if pods == [] then []
    else
      var n := |pods| - 1;
      if pods[n].id in gone then Keep(pods[..n], gone) else Keep(pods[..n], gone) + [pods[n]]
  }

  lemma {:induction false} KeepIds(pods: seq<Pod>, gone: set<string>)
    ensures forall i :: 0 <= i < |Keep(pods, gone)| ==>
              Keep(pods, gone)[i] in pods && Keep(pods, gone)[i].id !in gone
    ensures DistinctIds(pods) ==> DistinctIds(Keep(pods, gone))
  {
    if pods != [] {
      var n := |pods| - 1;
      KeepIds(pods[..n], gone);
    }
  }

  /** While every asker so far got a pair, the reduced run takes no pair that the full run
      did not take and writes nothing; bound pods that are kept keep their pairs. */
  ghost predicate Tracks(env: Env, full: Pass, askers: nat, part: Pass, gone: set<string>, files: map<string, string>) {
    && (forall a | a in full.bound && a !in gone :: a in part.bound && part.bound[a] == full.bound[a])
    && (|full.occupied| == askers ==> part.occupied <= full.occupied && part.files == files)
  }

  lemma {:induction false} RemovalTracks(
      env: Env, pods: seq<Pod>, n: nat, gone: set<string>, files: map<string, string>)
    requires env.Distinct() && DistinctIds(pods) && Settled(env, pods, files) && n <= |pods|
    ensures Tracks(env, Run(env, pods[..n], files), |Askers(env, pods[..n], files.Keys)|,
                   Run(env, Keep(pods[..n], gone), files), gone, files)
  {
    if n > 0 {
      var i := n - 1;
      RemovalTracks(env, pods, i, gone, files);
      assert pods[..n] == pods[..i] + [pods[i]];
      assert pods[..n][..i] == pods[..i];
      var full, part := Run(env, pods[..i], files), Run(env, Keep(pods[..i], gone), files);
      RunSnoc(env, Keep(pods[..i], gone), pods[i], files);
      RunKeys(env, Keep(pods[..i], gone), files);
      ServedInOrder(env, pods, i, files);
      RemovalStep(env, full, part, pods[i], |Askers(env, pods[..i], files.Keys)|, gone, files);
    }
  }

  /** In a settled run: pod i finds the files unchanged, and it is served only if every
      asker before it was. */
  lemma {:induction false} ServedInOrder(env: Env, pods: seq<Pod>, i: nat, files: map<string, string>)
    requires env.Distinct() && DistinctIds(pods) && Settled(env, pods, files) && i < |pods|
    ensures var full, askers := Run(env, pods[..i], files), |Askers(env, pods[..i], files.Keys)|;
            var t := BindPod(env, full, pods[i]);
            && t == Run(env, pods[..i + 1], files)
            && full.files == files && pods[i].id !in full.bound
            && |full.occupied| <= askers
            && (pods[i].id in t.bound ==> |full.occupied| == askers)
            && (pods[i].id in t.bound ==>
                  forall p | p in Cgroups(env, pods[i]) :: p in files && files[p] == t.bound[pods[i].id])
  {
    hide BindPod, Fair;
    assert pods[..i + 1] == pods[..i] + [pods[i]];
    RunSnoc(env, pods[..i], pods[i], files);
    SettledPrefix(env, pods, i, files);
    BoundStays(env, pods, i, files);
    PassIsFair(env, pods[..i], files);
    ServedMeansRoom(env, Run(env, pods[..i], files), pods[i], Askers(env, pods[..i], files.Keys));
  }

  lemma {:induction false} ServedMeansRoom(env: Env, s: Pass, pod: Pod, askers: seq<string>)
    requires env.Distinct() && Fair(env, askers, s) && pod.id !in s.bound
    ensures |s.occupied| <= |askers|
    ensures pod.id in BindPod(env, s, pod).bound ==> |s.occupied| == |askers|
  {
    AllTaken(env.pairs, s.occupied);
  }

  lemma {:induction false} RemovalStep(
      env: Env, full: Pass, part: Pass, pod: Pod, askers: nat, gone: set<string>, files: map<string, string>)
    requires env.Distinct() && Tracks(env, full, askers, part, gone, files)
    requires full.files == files && part.files.Keys == files.Keys && pod.id !in full.bound
    requires |full.occupied| <= askers
    // a pod is served only if everyone before it was
    requires pod.id in BindPod(env, full, pod).bound ==> |full.occupied| == askers
    requires var t := BindPod(env, full, pod);
             pod.id in t.bound ==>
               forall p | p in Cgroups(env, pod) :: p in files && files[p] == t.bound[pod.id]
    ensures var askersNow := if env.Eligible(pod, files.Keys) then askers + 1 else askers;
            var partNow := if pod.id in gone then part else BindPod(env, part, pod);
            Tracks(env, BindPod(env, full, pod), askersNow, partNow, gone, files)
  {
    var t := BindPod(env, full, pod);
    if env.Eligible(pod, files.Keys) {
      if pod.id in t.bound {
        var pair := t.bound[pod.id];
        if pod.id !in gone {
          assert part.files == files;
          assert files[env.cgroups[pod.id][0]] == pair;
          assert pair in env.pairs && pair !in part.occupied;
          NoUpdateNeeded(Cgroups(env, pod), files, pair);
          assert BindPod(env, part, pod) ==
                 part.(occupied := part.occupied + {pair}, bound := part.bound[pod.id := pair]);
        }
      }
    }
  }

  /** MAIN: from a settled state, removing any pods leaves every remaining bound pod on
      the pair it has. */
  lemma {:induction false} RemovalKeepsPairs(
      env: Env, pods: seq<Pod>, gone: set<string>, files: map<string, string>, id: string)
    requires env.Distinct() && DistinctIds(pods) && Settled(env, pods, files)
    requires id in Run(env, pods, files).bound && id !in gone
    ensures var rest := Run(env, Keep(pods, gone), files);
            id in rest.bound && rest.bound[id] == Run(env, pods, files).bound[id]
  {
    RemovalTracks(env, pods, |pods|, gone, files);
    assert pods[..|pods|] == pods;
  }
}
