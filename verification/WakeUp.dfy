/** The agent as a concurrent system (plugin/agent.go): event handlers update the pod map
    and then offer a wake-up token to a one-slot channel; the run loop takes a token or a
    tick, lists the pods, and reconciles.  The map is updated under the lock and the send
    never blocks, so these steps are atomic in the code; the reads and writes of one pass
    are taken as one step here.  Steps may interleave freely. */
module WakeUp {
  import opened Text
  import opened Binding
  import opened Settling
  import opened Agent

  datatype Change =
    | Synchronize(sandboxes: seq<Option<Sandbox>>)
    | RunPod(sandbox: Option<Sandbox>)
    | StopOrRemovePod(sandbox: Option<Sandbox>)

  function Apply(pods: map<string, Pod>, change: Change): map<string, Pod> {
    match change
    case Synchronize(sandboxes) => Snapshot(sandboxes)
    case RunPod(sandbox) => Upserted(pods, sandbox)
    case StopOrRemovePod(sandbox) => Removed(pods, sandbox)
  }

  /** Where the run loop is.  Woken: a token or tick was received, pods not yet listed. */
  datatype Phase = Starting | Waiting | Woken | Reconciling(list: seq<Pod>) | Stopped

  /** sending counts the handlers between their map update and their send; listed is the
      pod list of the last pass that was begun; changed says whether the map was updated
      after that listing. */
  datatype State = State(
    pods: map<string, Pod>, files: map<string, string>, token: bool, phase: Phase,
    sending: nat, listed: Option<seq<Pod>>, changed: bool)

  datatype Step =
    | Start                    // Run asks for a first pass before entering its loop
    | Update(change: Change)   // a handler updates the map
    | Send                     // a handler offers the token and returns
    | Receive                  // the loop takes the token
    | Tick                     // the ticker fires
    | List(list: seq<Pod>)     // the pass lists the pods
    | Finish(cgroups: map<string, seq<string>>, unwritable: set<string>)
                               // the pass ends; which cgroups it found, which writes failed
    | Outside(files: map<string, string>)
                               // anyone else changes cpuset files, or makes or removes some
    | Stop                     // the context is cancelled

  /** The environment of one pass: the configuration is fixed, the cgroups are what the pass
      finds. */
  function PassEnv(env: Env, step: Step): Env
    requires step.Finish?
  {
    env.(cgroups := step.cgroups, unwritable := step.unwritable)
  }

  ghost predicate Enabled(s: State, step: Step) {
    match step
    case Start => s.phase.Starting?
    case Update(_) => true
    case Send => s.sending > 0
    case Receive => s.phase.Waiting? && s.token
    case Tick => s.phase.Waiting?
    case List(list) => s.phase.Woken? && Listing(s.pods, list)
    case Finish(_, _) => s.phase.Reconciling?
    case Outside(_) => true
    case Stop => s.phase.Waiting?
  }

  ghost function After(env: Env, s: State, step: Step): State
    requires Enabled(s, step)
  {
    match step
    case Start => s.(phase := Waiting, token := true)
    case Update(change) => s.(pods := Apply(s.pods, change), sending := s.sending + 1, changed := true)
    case Send => s.(sending := s.sending - 1, token := true)
    case Receive => s.(phase := Woken, token := false)
    case Tick => s.(phase := Woken)
    case List(list) => s.(phase := Reconciling(list), listed := Some(list), changed := false)
    case Finish(_, _) => s.(phase := Waiting, files := Run(PassEnv(env, step), s.phase.list, s.files).files)
    case Outside(files) => s.(files := files)
    case Stop => s.(phase := Stopped)
  }

  ghost predicate Initial(s: State) {
    s.pods == map[] && !s.token && s.phase == Starting && s.sending == 0 && s.listed == None && !s.changed
  }

  /** An execution: any interleaving of enabled steps. */
  ghost predicate Execution(env: Env, steps: seq<Step>, states: seq<State>) {
    && |states| == |steps| + 1
    && Initial(states[0])
    && forall i :: 0 <= i < |steps| ==> Enabled(states[i], steps[i]) && states[i + 1] == After(env, states[i], steps[i])
  }

  // ---------- no wake-up is lost ----------

  /** Unlisted work always has someone on the way to it. */
  ghost predicate Awake(s: State) {
    && (s.changed || s.listed.None? ==> s.token || s.phase.Woken? || s.sending > 0 || s.phase.Starting?)
    && (!s.changed && s.listed.Some? ==> Listing(s.pods, s.listed.value))
    && KeyedById(s.pods)
    && (s.phase.Reconciling? ==> s.listed == Some(s.phase.list) && DistinctIds(s.phase.list))
    && (s.listed.Some? ==> DistinctIds(s.listed.value))
  }

  lemma {:induction false} SnapshotKeyed(sandboxes: seq<Option<Sandbox>>)
    ensures KeyedById(Snapshot(sandboxes))
  {
    if sandboxes != [] {
      SnapshotKeyed(sandboxes[..|sandboxes| - 1]);
    }
  }

  lemma {:induction false} ApplyKeyed(pods: map<string, Pod>, change: Change)
    requires KeyedById(pods)
    ensures KeyedById(Apply(pods, change))
  {
    if change.Synchronize? {
      SnapshotKeyed(change.sandboxes);
    }
  }

  lemma {:induction false} StepStaysAwake(env: Env, s: State, step: Step)
    requires Awake(s) && Enabled(s, step)
    ensures Awake(After(env, s, step))
  {
    match step
    case Update(change) => ApplyKeyed(s.pods, change);
    case List(list) => ListingIds(s.pods, list);
    case _ =>
  }

  /** MAIN: in every interleaving, a change that no listing has seen yet is announced: the
      token is in the slot, or taken but not yet listed, or a handler is about to send. */
  lemma {:induction false} NoLostWakeUp(env: Env, steps: seq<Step>, states: seq<State>, i: nat)
    requires Execution(env, steps, states) && i <= |steps|
    ensures Awake(states[i])
  {
    if i > 0 {
      NoLostWakeUp(env, steps, states, i - 1);
      StepStaysAwake(env, states[i - 1], steps[i - 1]);
    }
  }

  // ---------- at rest, the cgroups match the current pods ----------

  /** Nothing is under way and nothing is announced. */
  predicate AtRest(s: State) {
    s.phase.Waiting? && !s.token && s.sending == 0
  }

  /** The pass that ends with this step shares no cgroup between pods and meets no failing
      read or write. */
  ghost predicate Succeeds(env: Env, s: State, step: Step)
    requires step.Finish? && Enabled(s, step)
  {
    PassEnv(env, step).Separate() && AllAccessible(PassEnv(env, step), s.phase.list, s.files)
  }

  /** The last pass that ended before point i succeeded, and nobody else has changed a file
      since.  Earlier passes may have failed. */
  ghost predicate LastPassHolds(env: Env, steps: seq<Step>, states: seq<State>, i: nat)
    requires Execution(env, steps, states) && i <= |steps|
  {
    i == 0
    || (if steps[i - 1].Finish? then Succeeds(env, states[i - 1], steps[i - 1])
        else !steps[i - 1].Outside? && LastPassHolds(env, steps, states, i - 1))
  }

  /** Outside a pass, the files are settled for the last listing, as the last pass saw it. */
  ghost predicate SettledFor(now: Env, s: State) {
    !s.phase.Reconciling? && s.listed.Some? ==> Settled(now, s.listed.value, s.files)
  }

  lemma {:induction false} WaitingIsSettled(env: Env, steps: seq<Step>, states: seq<State>, i: nat) returns (now: Env)
    requires env.Distinct() && Execution(env, steps, states) && i <= |steps| && LastPassHolds(env, steps, states, i)
    ensures SettledFor(now, states[i])
    ensures now == env.(cgroups := now.cgroups, unwritable := now.unwritable)
  {
    hide Settled, Run, AllAccessible, Execution;
    now := env;
    if i == 0 {
      FirstState(env, steps, states);
    } else {
      var step := steps[i - 1];
      StepOf(env, steps, states, i - 1);
      NoLostWakeUp(env, steps, states, i - 1);
      if step.Finish? {
        now := PassEnv(env, step);
        PassSettles(now, states[i - 1].phase.list, states[i - 1].files);
      } else {
        now := WaitingIsSettled(env, steps, states, i - 1);
      }
    }
  }

  lemma {:induction false} FirstState(env: Env, steps: seq<Step>, states: seq<State>)
    requires Execution(env, steps, states)
    ensures states != [] && states[0].listed.None?
  {
  }

  lemma {:induction false} StepOf(env: Env, steps: seq<Step>, states: seq<State>, i: nat)
    requires Execution(env, steps, states) && i < |steps|
    ensures |states| == |steps| + 1 && Enabled(states[i], steps[i]) && states[i + 1] == After(env, states[i], steps[i])
  {
  }

  /** MAIN: whenever the agent is at rest after a pass that succeeded, however many passes
      failed before it, the files are settled for the listing of the current pod map: every
      event that ever happened is reflected in the cgroups. */
  lemma {:induction false} AtRestIsCurrent(env: Env, steps: seq<Step>, states: seq<State>, i: nat)
    returns (list: seq<Pod>, now: Env)
    requires env.Distinct() && Execution(env, steps, states) && i <= |steps| && LastPassHolds(env, steps, states, i)
    requires AtRest(states[i])
    ensures Listing(states[i].pods, list) && DistinctIds(list)
    ensures Settled(now, list, states[i].files) && now == env.(cgroups := now.cgroups, unwritable := now.unwritable)
  {
    NoLostWakeUp(env, steps, states, i);
    now := WaitingIsSettled(env, steps, states, i);
    list := states[i].listed.value;
  }

  // ---------- the loop comes to rest ----------

  /** Loop steps still needed before rest, once handlers are quiet. */
  function Remaining(s: State): nat {
    match s.phase
    case Starting => 4
    case Waiting => if s.token then 3 else 0
    case Woken => 2 + (if s.token then 3 else 0)
    case Reconciling(_) => 1 + (if s.token then 3 else 0)
    case Stopped => 0
  }

  /** Steps still needed before rest: an active handler has its send to do, and the send can
      cause one more pass. */
  function Work(s: State): nat { Remaining(s) + 4 * s.sending }

  predicate IsOwn(step: Step) { !step.Update? && !step.Tick? && !step.Outside? && !step.Stop? }

  /** What a step of the outside world adds. */
  function Adds(step: Step): nat { if step.Update? then 4 else if step.Tick? then 2 else 0 }

  lemma {:induction false} StepWorks(env: Env, s: State, step: Step)
    requires Enabled(s, step)
    ensures Work(After(env, s, step)) + (if IsOwn(step) then 1 else 0) <= Work(s) + Adds(step)
  {
    hide Run;
  }

  function Owns(steps: seq<Step>): nat {
    if steps == [] then 0 else Owns(steps[..|steps| - 1]) + if IsOwn(steps[|steps| - 1]) then 1 else 0
  }

  function Added(steps: seq<Step>): nat {
    if steps == [] then 0 else Added(steps[..|steps| - 1]) + Adds(steps[|steps| - 1])
  }

  /** MAIN: between any two points of an execution, the steps of the loop and of the handlers'
      sends number at most the work at the first point plus 4 for every event and 2 for
      every tick in between: no stale token keeps the loop running. */
  lemma {:induction false} ComesToRest(env: Env, steps: seq<Step>, states: seq<State>, i: nat, j: nat)
    requires Execution(env, steps, states) && i <= j <= |steps|
    ensures Work(states[j]) + Owns(steps[i..j]) <= Work(states[i]) + Added(steps[i..j])
    decreases j
  {
    hide Execution, Work, IsOwn, Adds, After;
    StateCount(env, steps, states);
    if i < j {
      ComesToRest(env, steps, states, i, j - 1);
      StepOf(env, steps, states, j - 1);
      StepWorks(env, states[j - 1], steps[j - 1]);
      assert steps[i..j][..j - i - 1] == steps[i..j - 1];
    }
  }

  lemma {:induction false} StateCount(env: Env, steps: seq<Step>, states: seq<State>)
    requires Execution(env, steps, states)
    ensures |states| == |steps| + 1
  {
  }

  /** MAIN: until the loop stops or rests, it or a handler has such a step to take. */
  lemma {:induction false} NeverStuck(s: State) returns (step: Step)
    requires Awake(s) && !s.phase.Stopped? && !AtRest(s)
    ensures Enabled(s, step) && IsOwn(step)
  {
    match s.phase
    case Starting => step := Start;
    case Waiting => step := if s.token then Receive else Send;
    case Woken =>
      var list := ListingExists(s.pods);
      step := List(list);
    case Reconciling(_) => step := Finish(map[], {});
  }
}
