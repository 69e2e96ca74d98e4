/** Throttling of collection failure logs (devkit_logging.go).  Rounds run one after the
    other (devkit_coordination.go), each a start followed by a finish or a panic. */
module LogThrottle {
  import opened Text
  import opened DevkitArgs
  import DevkitConfig

  /** Five minutes, in nanoseconds. */
  const WINDOW: int := 300_000_000_000

  const NUL := '\0'

  // ---------- fingerprints ----------

  datatype Failure = Failure(stage: string, exitCode: int, timedOut: bool, summary: string)

  function FailureFingerprint(f: Failure): string {
    f.stage + [NUL] + (FormatInt(f.exitCode) + [NUL] + ((if f.timedOut then "true" else "false") + [NUL] + f.summary))
  }

  function ParametersFingerprint(binaryPath: string, args: seq<string>): string {
    binaryPath + [NUL] + Join(args, NUL)
  }

  /** MAIN: failures with NUL-free stages share a fingerprint only if they are equal. */
  lemma {:induction false} FailureFingerprintInjective(a: Failure, b: Failure)
    requires NUL !in a.stage && NUL !in b.stage
    requires MIN_INT64 <= a.exitCode <= MAX_INT64 && MIN_INT64 <= b.exitCode <= MAX_INT64
    requires FailureFingerprint(a) == FailureFingerprint(b)
    ensures a == b
  {
    hide FormatInt, Cut, ParseInt;
    FingerprintParts(a);
    FingerprintParts(b);
    ParseFormatInt(a.exitCode);
    ParseFormatInt(b.exitCode);
  }

  /** Cutting at the first NUL three times recovers the four parts. */
  lemma {:induction false} FingerprintParts(f: Failure)
    requires NUL !in f.stage
    ensures var flag := if f.timedOut then "true" else "false";
            && Cut(FailureFingerprint(f), NUL) ==
                 Some((f.stage, FormatInt(f.exitCode) + [NUL] + (flag + [NUL] + f.summary)))
            && Cut(FormatInt(f.exitCode) + [NUL] + (flag + [NUL] + f.summary), NUL) ==
                 Some((FormatInt(f.exitCode), flag + [NUL] + f.summary))
            && Cut(flag + [NUL] + f.summary, NUL) == Some((flag, f.summary))
  {
    hide Cut;
    var flag := if f.timedOut then "true" else "false";
    CutJoined(flag, f.summary, NUL);
    NoNulInNumber(f.exitCode);
    CutJoined(FormatInt(f.exitCode), flag + [NUL] + f.summary, NUL);
    CutJoined(f.stage, FormatInt(f.exitCode) + [NUL] + (flag + [NUL] + f.summary), NUL);
  }

  lemma {:induction false} NoNulInNumber(n: int)
    ensures NUL !in FormatInt(n)
  {
  }

  /** Non-empty lists of NUL-free arguments are told apart. */
  lemma {:induction false} ParametersFingerprintInjective(
      path: string, args: seq<string>, path2: string, args2: seq<string>)
    requires NUL !in path && NUL !in path2 && args != [] && args2 != []
    requires NulFree(args) && NulFree(args2)
    requires ParametersFingerprint(path, args) == ParametersFingerprint(path2, args2)
    ensures path == path2 && args == args2
  {
    hide Cut, Join;
    CutJoined(path, Join(args, NUL), NUL);
    CutJoined(path2, Join(args2, NUL), NUL);
    JoinInjective(args, args2, NUL);
  }

  predicate NulFree(args: seq<string>) {
    forall i :: 0 <= i < |args| ==> NUL !in args[i]
  }

  /** No argument, or one empty argument: the separator does not tell these apart. */
  predicate Blank(args: seq<string>) { args == [] || args == [""] }

  /** MAIN: NUL-free parameters share a fingerprint exactly when they are equal, or have equal
      paths and blank arguments. */
  lemma {:induction false} ParametersFingerprintIff(path: string, args: seq<string>, path2: string, args2: seq<string>)
    requires NUL !in path && NUL !in path2 && NulFree(args) && NulFree(args2)
    ensures ParametersFingerprint(path, args) == ParametersFingerprint(path2, args2) <==>
              path == path2 && (args == args2 || (Blank(args) && Blank(args2)))
  {
    hide Cut, Join, ParametersFingerprint;
    var shown, shown2 := if args == [] then [""] else args, if args2 == [] then [""] else args2;
    EmptyArgumentCollides(path);
    EmptyArgumentCollides(path2);
    if ParametersFingerprint(path, args) == ParametersFingerprint(path2, args2) {
      ParametersFingerprintInjective(path, shown, path2, shown2);
    }
  }

  lemma {:induction false} EmptyArgumentCollides(path: string)
    ensures ParametersFingerprint(path, []) == ParametersFingerprint(path, [""])
  {
    assert Join([], NUL) == "" && Join([""], NUL) == "";
  }

  /** A command line of either collector for a configuration with NUL-free selectors. */
  ghost predicate BuiltCommand(args: seq<string>) {
    || (exists c: TopdownConfig :: NUL !in c.cpu && NUL !in c.pid && args == TopdownCommandArgs(c))
    || (exists c: MemoryConfig :: NUL !in c.cpu && args == MemoryCommandArgs(c))
  }

  /** MAIN: the command lines the collectors log share a fingerprint only if they are equal. */
  lemma {:induction false} BuiltCommandsAreToldApart(path: string, args: seq<string>, path2: string, args2: seq<string>)
    requires NUL !in path && NUL !in path2 && BuiltCommand(args) && BuiltCommand(args2)
    ensures ParametersFingerprint(path, args) == ParametersFingerprint(path2, args2) <==> path == path2 && args == args2
  {
    hide ParametersFingerprint, BuiltCommand;
    BuiltIsNulFree(args);
    BuiltIsNulFree(args2);
    ParametersFingerprintIff(path, args, path2, args2);
  }

  /** Every accepted configuration makes such command lines. */
  lemma {:induction false} AcceptedCommandsAreBuilt(raw: DevkitConfig.Raw, host: DevkitConfig.Host)
    requires DevkitConfig.ParseConfig(raw, host).Accepted?
    ensures var c := DevkitConfig.ParseConfig(raw, host).value;
            BuiltCommand(TopdownCommandArgs(c.topdown)) && BuiltCommand(MemoryCommandArgs(c.memory))
  {
    hide DevkitConfig.ParseConfig, TopdownCommandArgs, MemoryCommandArgs;
    DevkitConfig.AcceptedSelectorsArePlain(raw, host, NUL);
  }

  lemma {:induction false} BuiltIsNulFree(args: seq<string>)
    requires BuiltCommand(args)
    ensures NulFree(args) && !Blank(args)
  {
    hide FormatInt;
    forall n: int ensures NUL !in FormatInt(n) {
      NoNulInNumber(n);
    }
  }

  // ---------- the state machine ----------

  datatype Log = Initialized | Changed | Recovered | Failed(fingerprint: string)

  datatype State = State(parameters: Option<string>, failed: bool, fingerprint: string, loggedAt: int)

  const INITIAL := State(None, false, "", 0)

  function Reset(s: State): State { s.(failed := false, fingerprint := "", loggedAt := 0) }

  function Started(s: State, parameters: string): State {
    if s.parameters.None? then s.(parameters := Some(parameters))
    else if s.parameters.value != parameters then Reset(s).(parameters := Some(parameters))
    else s
  }

  predicate ShouldLog(s: State, now: int, fingerprint: string) {
    !s.failed || fingerprint != s.fingerprint || now - s.loggedAt >= WINDOW
  }

  function FinishedBadly(s: State, now: int, fingerprint: string, hasLogger: bool): State {
    var t := s.(failed := true, fingerprint := fingerprint);
    if ShouldLog(s, now, fingerprint) && hasLogger then t.(loggedAt := now) else t
  }

  class LogState {
    const hasLogger: bool
    var hasParameters: bool
    var parametersFingerprint: string
    var failed: bool
    var failureFingerprint: string
    var failureLoggedAt: int

    constructor (hasLogger: bool)
      ensures this.hasLogger == hasLogger && Current() == INITIAL
    {
      this.hasLogger := hasLogger;
      hasParameters, parametersFingerprint := false, "";
      failed, failureFingerprint, failureLoggedAt := false, "", 0;
    }

    function Current(): State
      reads this
    {
      State(if hasParameters then Some(parametersFingerprint) else None, failed, failureFingerprint, failureLoggedAt)
    }

    method ResetFailure()
      modifies this`failed, this`failureFingerprint, this`failureLoggedAt
      ensures Current() == Reset(old(Current()))
    {
      failed := false;
      failureFingerprint := "";
      failureLoggedAt := 0;
    }

    method Start(binaryPath: string, args: seq<string>) returns (logs: seq<Log>)
      modifies this
      ensures Current() == Started(old(Current()), ParametersFingerprint(binaryPath, args))
      ensures logs ==
              if !hasLogger then []
              else if !old(hasParameters) then [Initialized]
              else if old(parametersFingerprint) != ParametersFingerprint(binaryPath, args) then [Changed]
              else []
    {
      logs := [];
      var fingerprint := ParametersFingerprint(binaryPath, args);
      if !hasParameters {
        hasParameters := true;
        parametersFingerprint := fingerprint;
        if hasLogger {
          logs := [Initialized];
        }
      } else if fingerprint != parametersFingerprint {
        parametersFingerprint := fingerprint;
        ResetFailure();
        if hasLogger {
          logs := [Changed];
        }
      }
    }

    method Finish(now: int, failure: Option<Failure>) returns (logs: seq<Log>)
      modifies this
      ensures failure.None? ==>
                && Current() == Reset(old(Current()))
                && logs == if old(failed) && hasLogger then [Recovered] else []
      ensures failure.Some? ==>
                var fingerprint := FailureFingerprint(failure.value);
                && Current() == FinishedBadly(old(Current()), now, fingerprint, hasLogger)
                && logs ==
                     if ShouldLog(old(Current()), now, fingerprint) && hasLogger then [Failed(fingerprint)] else []
    {
      logs := [];
      if failure.None? {
        if failed && hasLogger {
          logs := [Recovered];
        }
        ResetFailure();
        return;
      }
      var fingerprint := FailureFingerprint(failure.value);
      var shouldLog := !failed || fingerprint != failureFingerprint || now - failureLoggedAt >= WINDOW;
      failed := true;
      failureFingerprint := fingerprint;
      if !shouldLog || !hasLogger {
        return;
      }
      failureLoggedAt := now;
      logs := [Failed(fingerprint)];
    }
  }

  // ---------- runs ----------

  /** A panicking round ends without touching the failure state. */
  datatype Outcome = Success | Fails(fingerprint: string) | Panics

  datatype Round = Round(parameters: string, finish: int, outcome: Outcome)

  function Ended(s: State, r: Round): State {
    match r.outcome
    case Success => Reset(s)
    case Fails(fingerprint) => FinishedBadly(s, r.finish, fingerprint, true)
    case Panics => s
  }

  /** The state of a logger-backed log state after the first n rounds. */
  function After(rounds: seq<Round>, n: nat): State
    requires n <= |rounds|
  {
    if n == 0 then INITIAL
    else Ended(Started(After(rounds, n - 1), rounds[n - 1].parameters), rounds[n - 1])
  }

  /** The state in which round i finishes. */
  function Before(rounds: seq<Round>, i: nat): State
    requires i < |rounds|
  {
    Started(After(rounds, i), rounds[i].parameters)
  }

  predicate EmitsFailure(rounds: seq<Round>, i: nat)
    requires i < |rounds|
  {
    rounds[i].outcome.Fails? && ShouldLog(Before(rounds, i), rounds[i].finish, rounds[i].outcome.fingerprint)
  }

  predicate EmitsRecovery(rounds: seq<Round>, i: nat)
    requires i < |rounds|
  {
    rounds[i].outcome.Success? && Before(rounds, i).failed
  }

  // ---------- the same, told without the state ----------

  /** Round k starts with other parameters than the round before it. */
  predicate ParametersChange(rounds: seq<Round>, k: nat)
    requires k < |rounds|
  {
    k > 0 && rounds[k].parameters != rounds[k - 1].parameters
  }

  /** From the end of round j to the finish of round i: no success, no parameter change. */
  predicate Unbroken(rounds: seq<Round>, j: nat, i: nat)
    requires j <= i < |rounds|
  {
    && (forall k :: j < k <= i ==> !ParametersChange(rounds, k))
    && (forall k :: j < k < i ==> !rounds[k].outcome.Success?)
  }

  /** Round j logged the failure that round i repeats, and nothing else failed since. */
  predicate Covers(rounds: seq<Round>, j: nat, i: nat)
    requires j < i < |rounds|
  {
    && rounds[i].outcome.Fails? && rounds[j].outcome == rounds[i].outcome
    && EmitsFailure(rounds, j)
    && Unbroken(rounds, j, i)
    && (forall k :: j < k < i && rounds[k].outcome.Fails? ==>
          rounds[k].outcome == rounds[i].outcome && !EmitsFailure(rounds, k))
    && rounds[i].finish - rounds[j].finish < WINDOW
  }

  ghost predicate InStreak(rounds: seq<Round>, i: nat)
    requires i < |rounds|
  {
    exists j :: 0 <= j < i && rounds[j].outcome.Fails? && Unbroken(rounds, j, i)
  }

  /** What the failure state remembers when round i finishes: the last logged failure. */
  ghost predicate Remembers(rounds: seq<Round>, i: nat, j: nat)
    requires j < i < |rounds|
  {
    var s := Before(rounds, i);
    && rounds[j].outcome == Fails(s.fingerprint) && s.loggedAt == rounds[j].finish
    && EmitsFailure(rounds, j) && Unbroken(rounds, j, i)
    && forall k :: j < k < i && rounds[k].outcome.Fails? ==>
         rounds[k].outcome == Fails(s.fingerprint) && !EmitsFailure(rounds, k)
  }

  lemma {:induction false} ParametersKept(rounds: seq<Round>, n: nat)
    requires n <= |rounds|
    ensures After(rounds, n).parameters == if n == 0 then None else Some(rounds[n - 1].parameters)
  {
    if n > 0 {
      ParametersKept(rounds, n - 1);
    }
  }

  lemma {:induction false} UnbrokenExtends(rounds: seq<Round>, j: nat, i: nat)
    requires j <= i && i + 1 < |rounds|
    ensures j < i ==> (Unbroken(rounds, j, i + 1) <==>
              Unbroken(rounds, j, i) && !rounds[i].outcome.Success? && !ParametersChange(rounds, i + 1))
    ensures Unbroken(rounds, i, i + 1) <==> !ParametersChange(rounds, i + 1)
  {
    if j < i && Unbroken(rounds, j, i + 1) {
      assert forall k :: j < k <= i ==> !ParametersChange(rounds, k);
    }
  }

  /** The failure flag is up exactly inside a streak, and then the state remembers the last
      logged failure of it. */
  lemma {:induction false} StateMeaning(rounds: seq<Round>, i: nat) returns (j: nat)
    requires i < |rounds|
    ensures Before(rounds, i).failed <==> InStreak(rounds, i)
    ensures Before(rounds, i).failed ==> j < i && Remembers(rounds, i, j)
  {
    hide Unbroken;
    j := 0;
    if i == 0 {
      assert After(rounds, 0) == INITIAL;
    } else {
      j := StateMeaning(rounds, i - 1);
      ParametersKept(rounds, i);
      StreakStep(rounds, i - 1);
      if Before(rounds, i).failed {
        if EmitsFailure(rounds, i - 1) {
          JustLogged(rounds, i);
          j := i - 1;
        } else {
          StillRemembered(rounds, i, j);
        }
      }
    }
  }

  /** Outside a streak nothing of an earlier one is kept. */
  lemma {:induction false} NothingKept(rounds: seq<Round>, i: nat)
    requires i <= |rounds| && !After(rounds, i).failed
    ensures After(rounds, i).fingerprint == "" && After(rounds, i).loggedAt == 0
  {
    if i > 0 && !After(rounds, i - 1).failed {
      NothingKept(rounds, i - 1);
    }
  }

  lemma {:induction false} JustLogged(rounds: seq<Round>, i: nat)
    requires 0 < i < |rounds| && EmitsFailure(rounds, i - 1) && Before(rounds, i).failed
    ensures Remembers(rounds, i, i - 1)
  {
    hide Unbroken;
    ParametersKept(rounds, i);
    UnbrokenExtends(rounds, i - 1, i - 1);
  }

  lemma {:induction false} StillRemembered(rounds: seq<Round>, i: nat, j: nat)
    requires 0 < i < |rounds| && !EmitsFailure(rounds, i - 1) && Before(rounds, i).failed
    requires Before(rounds, i - 1).failed ==> j < i - 1 && Remembers(rounds, i - 1, j)
    ensures j < i && Remembers(rounds, i, j)
  {
    hide Unbroken;
    ParametersKept(rounds, i);
    if Before(rounds, i - 1).failed {
      UnbrokenExtends(rounds, j, i - 1);
    }
  }

  lemma {:induction false} StreakStep(rounds: seq<Round>, i: nat)
    requires i + 1 < |rounds|
    ensures InStreak(rounds, i + 1) <==>
              !ParametersChange(rounds, i + 1)
              && (rounds[i].outcome.Fails? || (InStreak(rounds, i) && !rounds[i].outcome.Success?))
  {
    UnbrokenExtends(rounds, i, i);
    forall j | 0 <= j < i
      ensures Unbroken(rounds, j, i + 1) <==>
              Unbroken(rounds, j, i) && !rounds[i].outcome.Success? && !ParametersChange(rounds, i + 1)
    {
      UnbrokenExtends(rounds, j, i);
    }
    if InStreak(rounds, i) {
      var j :| 0 <= j < i && rounds[j].outcome.Fails? && Unbroken(rounds, j, i);
      assert Unbroken(rounds, j, i + 1) <==> !rounds[i].outcome.Success? && !ParametersChange(rounds, i + 1);
    }
    if InStreak(rounds, i + 1) {
      var j :| 0 <= j < i + 1 && rounds[j].outcome.Fails? && Unbroken(rounds, j, i + 1);
      if j < i {
        assert Unbroken(rounds, j, i);
      }
    }
  }

  // ---------- the claims ----------

  /** MAIN: a failing round stays silent exactly when the last logged failure of its streak
      was the same one, less than a window ago. */
  lemma {:induction false} SilentIffCovered(rounds: seq<Round>, i: nat)
    requires i < |rounds| && rounds[i].outcome.Fails?
    ensures !EmitsFailure(rounds, i) <==> exists j :: 0 <= j < i && Covers(rounds, j, i)
  {
    hide After;
    var j := StateMeaning(rounds, i);
    if !EmitsFailure(rounds, i) {
      assert Covers(rounds, j, i);
    }
    if exists l :: 0 <= l < i && Covers(rounds, l, i) {
      var l :| 0 <= l < i && Covers(rounds, l, i);
      assert InStreak(rounds, i);
      assert l == j;
    }
  }

  /** MAIN: two logged failures of one streak with the same fingerprint and no other logged
      failure between them are at least a window apart. */
  lemma {:induction false} RepeatsAreAWindowApart(rounds: seq<Round>, j: nat, i: nat)
    requires j < i < |rounds| && EmitsFailure(rounds, j) && EmitsFailure(rounds, i)
    requires rounds[j].outcome == rounds[i].outcome && Unbroken(rounds, j, i)
    requires forall k :: j < k < i ==> !EmitsFailure(rounds, k)
    ensures rounds[i].finish - rounds[j].finish >= WINDOW
  {
    hide After;
    var l := StateMeaning(rounds, i);
    assert InStreak(rounds, i);
    assert l == j;
  }

  /** MAIN: a failure that repeats the logged one under the same parameters is silent 299
      seconds later and logged again 300 seconds later. */
  lemma {:induction false} FiveMinutes(parameters: string, fingerprint: string, t: int, u: int)
    ensures var rounds := [Round(parameters, t, Fails(fingerprint)), Round(parameters, u, Fails(fingerprint))];
            && EmitsFailure(rounds, 0)
            && (EmitsFailure(rounds, 1) <==> u - t >= 300_000_000_000)
            && (u == t + 299 * 1_000_000_000 ==> !EmitsFailure(rounds, 1))
            && (u == t + 300 * 1_000_000_000 ==> EmitsFailure(rounds, 1))
  {
    var rounds := [Round(parameters, t, Fails(fingerprint)), Round(parameters, u, Fails(fingerprint))];
    assert After(rounds, 1) == Ended(Started(After(rounds, 0), parameters), rounds[0]);
  }

  /** MAIN: recovery is logged by exactly those successful rounds that end a streak of
      failures, so once per streak. */
  lemma {:induction false} RecoveryEndsStreak(rounds: seq<Round>, i: nat)
    requires i < |rounds|
    ensures EmitsRecovery(rounds, i) <==> rounds[i].outcome.Success? && InStreak(rounds, i)
  {
    var j := StateMeaning(rounds, i);
  }

  /** Between two recoveries lies a logged failure. */
  lemma {:induction false} RecoveriesAreSeparated(rounds: seq<Round>, a: nat, b: nat) returns (j: nat)
    requires a < b < |rounds| && EmitsRecovery(rounds, a) && EmitsRecovery(rounds, b)
    ensures a < j < b && EmitsFailure(rounds, j)
  {
    j := StateMeaning(rounds, b);
    assert Unbroken(rounds, j, b);
    assert rounds[a].outcome.Success? && rounds[j].outcome.Fails?;
  }
}
