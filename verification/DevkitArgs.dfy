/** Command lines of the DevKit collectors: built from a configuration (devkit_topdown.go,
    devkit_memory.go) and read back for metric labels (devkit_coordination.go). */
module DevkitArgs {
  import opened Text

  const MIN_DURATION := 1
  const MAX_DURATION := 5
  const DEFAULT_DURATION := 3
  const DEFAULT_MEMORY_PERIOD := 1000

  datatype TopdownConfig = TopdownConfig(cpu: string, pid: string, duration: int)

  datatype MemoryConfig = MemoryConfig(cpu: string, duration: int, period: int)

  datatype Metadata = Metadata(targetType: string, target: string, targetValue: string, period: int)

  datatype Problem =
    | NoSubcommand | MissingValue | EmptyValue | Duplicate | BadDuration | Unsupported
    | BadLevel | BothTargets | BadMetric | BadPeriod | BadSubcommand

  datatype Result<+T> = Ok(value: T) | Err(problem: Problem)

  // ---------- building ----------

  predicate DurationInRange(d: int) { MIN_DURATION <= d <= MAX_DURATION }

  predicate PeriodAllowed(p: int) { p == 100 || p == 1000 }

  /** topdownCommandArgs, with its own default for the duration. */
  function TopdownCommandArgs(cfg: TopdownConfig): seq<string> {
    var d := if cfg.duration < MIN_DURATION || cfg.duration > MAX_DURATION then DEFAULT_DURATION else cfg.duration;
    var args := ["tuner", "top-down", "-d", FormatInt(d), "-L", "0"];
    if cfg.pid != "" then args + ["-p", cfg.pid]
    else if cfg.cpu != "" then args + ["-c", cfg.cpu]
    else args
  }

  /** memoryCommandArgs, with its own defaults for duration and period. */
  function MemoryCommandArgs(cfg: MemoryConfig): seq<string> {
    var duration :=
      if cfg.duration < MIN_DURATION || cfg.duration > MAX_DURATION then DEFAULT_DURATION else cfg.duration;
    var period :=
      if cfg.period == 100 || cfg.period == 1000 then cfg.period
      else if duration == 1 then 100 else DEFAULT_MEMORY_PERIOD;
    var args := ["tuner", "memory", "-d", FormatInt(duration), "-m", "1", "-P", FormatInt(period)];
    if cfg.cpu != "" then args + ["-c", cfg.cpu] else args
  }

  // ---------- reading the flags ----------

  type Values = map<string, string>

  /** The value of a flag, empty when the flag is absent. */
  function Get(values: Values, flag: string): string {
    if flag in values then values[flag] else ""
  }

  /** Flags and values in alternation, or the first problem met. */
  function Gather(rest: seq<string>): Result<Values>
    decreases |rest|
  {
    if rest == [] then Ok(map[])
    else if |rest| % 2 == 1 then
      var init := Gather(rest[..|rest| - 1]);
      if init.Err? then init else Err(MissingValue)
    else
      var n := |rest| - 2;
      var init := Gather(rest[..n]);
      if init.Err? then init
      else if rest[n + 1] == "" then Err(EmptyValue)
      else if rest[n] in init.value then Err(Duplicate)
      else Ok(init.value[rest[n] := rest[n + 1]])
  }

  function Flag(rest: seq<string>, i: nat): string requires 2 * i + 1 < |rest| { rest[2 * i] }

  function Argument(rest: seq<string>, i: nat): string requires 2 * i + 1 < |rest| { rest[2 * i + 1] }

  /** Every flag has a non-empty value and no flag comes twice. */
  predicate Paired(rest: seq<string>) {
    && |rest| % 2 == 0
    && (forall i: nat :: i < |rest| / 2 ==> Argument(rest, i) != "")
    && (forall i: nat, j: nat :: i < j < |rest| / 2 ==> Flag(rest, i) != Flag(rest, j))
  }

  /** The table holds what the list says and nothing else. */
  ghost predicate Tabulates(rest: seq<string>, values: Values) {
    && (forall i: nat :: i < |rest| / 2 ==> Flag(rest, i) in values && values[Flag(rest, i)] == Argument(rest, i))
    && (forall f :: f in values ==> exists i: nat :: i < |rest| / 2 && Flag(rest, i) == f)
  }

  /** Exactly the paired lists are taken, and the table says what the list says. */
  lemma {:induction false} GatherMeaning(rest: seq<string>)
    ensures Gather(rest).Ok? <==> Paired(rest)
    ensures Gather(rest).Ok? ==> Tabulates(rest, Gather(rest).value)
    decreases |rest|
  {
    if rest != [] && |rest| % 2 == 0 {
      hide Paired, Tabulates;
      var init := rest[..|rest| - 2];
      GatherMeaning(init);
      PairedStep(rest);
      if Paired(init) {
        TabulatesStep(rest, Gather(init).value);
      }
    }
  }

  lemma {:induction false} Shared(rest: seq<string>)
    requires |rest| >= 2 && |rest| % 2 == 0
    ensures var init := rest[..|rest| - 2];
            && (forall i: nat :: i < |init| / 2 ==>
                  Flag(init, i) == Flag(rest, i) && Argument(init, i) == Argument(rest, i))
            && |rest| / 2 == |init| / 2 + 1
            && Flag(rest, |init| / 2) == rest[|rest| - 2] && Argument(rest, |init| / 2) == rest[|rest| - 1]
  {
  }

  lemma {:induction false} PairedStep(rest: seq<string>)
    requires |rest| >= 2 && |rest| % 2 == 0
    ensures var n := |rest| - 2;
            Paired(rest) <==>
              && Paired(rest[..n]) && rest[n + 1] != ""
              && forall i: nat :: i < n / 2 ==> Flag(rest[..n], i) != rest[n]
  {
    hide Flag, Argument;
    Shared(rest);
  }

  lemma {:induction false} TabulatesStep(rest: seq<string>, values: Values)
    requires |rest| >= 2 && |rest| % 2 == 0 && Tabulates(rest[..|rest| - 2], values)
    ensures var n := |rest| - 2;
            && (rest[n] in values <==> exists i: nat :: i < n / 2 && Flag(rest[..n], i) == rest[n])
            && (rest[n] !in values ==> Tabulates(rest, values[rest[n] := rest[n + 1]]))
  {
    hide Flag, Argument;
    Shared(rest);
  }

  // ---------- reading the command line ----------

  predicate OnlyFlags(values: Values, allowed: seq<string>) {
    forall f :: f in values ==> f in allowed
  }

  function Targeted(kind: string, value: string, period: int): Metadata {
    Metadata(kind, kind + value, value, period)
  }

  function ReadTopdown(values: Values): Result<Metadata> {
    if !OnlyFlags(values, ["-d", "-L", "-c", "-p"]) then Err(Unsupported)
    else if Get(values, "-L") != "0" then Err(BadLevel)
    else if Get(values, "-c") != "" && Get(values, "-p") != "" then Err(BothTargets)
    else if Get(values, "-c") != "" then Ok(Targeted("cpu", Get(values, "-c"), 0))
    else if Get(values, "-p") != "" then Ok(Targeted("pid", Get(values, "-p"), 0))
    else Ok(Metadata("system", "system", "", 0))
  }

  function ReadMemory(values: Values): Result<Metadata> {
    var period := ParseInt(Get(values, "-P"), Decimal);
    if !OnlyFlags(values, ["-d", "-m", "-P", "-c"]) then Err(Unsupported)
    else if Get(values, "-m") != "1" then Err(BadMetric)
    else if period.None? || !PeriodAllowed(period.value) then Err(BadPeriod)
    else if Get(values, "-c") != "" then Ok(Targeted("cpu", Get(values, "-c"), period.value))
    else Ok(Metadata("system", "system", "", period.value))
  }

  function Duration(values: Values): Option<int> { ParseInt(Get(values, "-d"), Decimal) }

  function ReadValues(subcommand: string, values: Values): Result<Metadata> {
    if Duration(values).None? || !DurationInRange(Duration(values).value) then Err(BadDuration)
    else if subcommand == "top-down" then ReadTopdown(values)
    else if subcommand == "memory" then ReadMemory(values)
    else Err(BadSubcommand)
  }

  function ReadArgs(args: seq<string>): Result<Metadata> {
    if |args| < 2 || args[0] != "tuner" then Err(NoSubcommand)
    else
      var values := Gather(args[2..]);
      if values.Err? then Err(values.problem) else ReadValues(args[1], values.value)
  }

  lemma {:induction false} GatherPrefixError(rest: seq<string>, n: nat)
    requires n <= |rest| && Gather(rest[..n]).Err? && (n % 2 == 0 || n == |rest|)
    ensures Gather(rest) == Gather(rest[..n])
    decreases |rest|
  {
    if n == |rest| {
      assert rest[..n] == rest;
    } else {
      var m := if |rest| % 2 == 1 then |rest| - 1 else |rest| - 2;
      assert rest[..m][..n] == rest[..n];
      GatherPrefixError(rest[..m], n);
    }
  }

  /** parseDevkitAttemptMetadata, with its index loop over the flags. */
  method ParseAttemptMetadata(args: seq<string>) returns (r: Result<Metadata>)
    ensures r == ReadArgs(args)
  {
    hide ParseInt, OnlyFlags;
    if |args| < 2 || args[0] != "tuner" {
      return Err(NoSubcommand);
    }
    ghost var rest := args[2..];
    var values: Values := map[];
    var i := 2;
    while i < |args|
      invariant 2 <= i <= |args| && i % 2 == 0
      invariant Gather(rest[..i - 2]) == Ok(values)
    {
      if i + 1 >= |args| {
        assert rest[..i - 2] == rest[..|rest| - 1];
        return Err(MissingValue);
      }
      var flag, value := args[i], args[i + 1];
      assert rest[..i][..i - 2] == rest[..i - 2];
      assert rest[..i][i - 2] == flag && rest[..i][i - 1] == value;
      if value == "" {
        GatherPrefixError(rest, i);
        return Err(EmptyValue);
      }
      if flag in values {
        GatherPrefixError(rest, i);
        return Err(Duplicate);
      }
      values := values[flag := value];
      i := i + 2;
    }
    assert rest[..|rest|] == rest;
    var duration := ParseInt(Get(values, "-d"), Decimal);
    if duration.None? || duration.value < MIN_DURATION || duration.value > MAX_DURATION {
      return Err(BadDuration);
    }
    if args[1] == "top-down" {
      return ReadTopdown(values);
    } else if args[1] == "memory" {
      return ReadMemory(values);
    }
    return Err(BadSubcommand);
  }

  /** The sampling time a command line asks for. */
  function AskedDuration(args: seq<string>): Option<int>
    requires |args| >= 2
  {
    var values := Gather(args[2..]);
    if values.Err? then None else Duration(values.value)
  }

  // ---------- every built command line reads back ----------

  lemma {:induction false} GatherPair(rest: seq<string>, flag: string, value: string, values: Values)
    requires |rest| % 2 == 0 && Gather(rest) == Ok(values) && value != "" && flag !in values
    ensures Gather(rest + [flag, value]) == Ok(values[flag := value])
  {
    assert (rest + [flag, value])[..|rest|] == rest;
  }

  /** MAIN: for every configuration value the TopDown command line is accepted; it names the
      process when one is set, else the CPUs when set, else the whole system, and asks for
      the configured duration, or 3 when that is out of range. */
  lemma {:induction false} TopdownArgsReadBack(cfg: TopdownConfig)
    ensures ReadArgs(TopdownCommandArgs(cfg)) ==
            Ok(if cfg.pid != "" then Metadata("pid", "pid" + cfg.pid, cfg.pid, 0)
               else if cfg.cpu != "" then Metadata("cpu", "cpu" + cfg.cpu, cfg.cpu, 0)
               else Metadata("system", "system", "", 0))
    ensures AskedDuration(TopdownCommandArgs(cfg)) == Some(if 1 <= cfg.duration <= 5 then cfg.duration else 3)
  {
    hide FormatInt, ParseInt, Gather;
    var args := TopdownCommandArgs(cfg);
    var d := if DurationInRange(cfg.duration) then cfg.duration else 3;
    ParseFormatInt(d);
    GatherNone();
    var one: Values := map["-d" := FormatInt(d)];
    var two := one["-L" := "0"];
    GatherPair([], "-d", FormatInt(d), map[]);
    assert [] + ["-d", FormatInt(d)] == ["-d", FormatInt(d)];
    GatherPair(["-d", FormatInt(d)], "-L", "0", one);
    var common := ["-d", FormatInt(d)] + ["-L", "0"];
    if cfg.pid != "" {
      GatherPair(common, "-p", cfg.pid, two);
      assert args[2..] == common + ["-p", cfg.pid];
    } else if cfg.cpu != "" {
      GatherPair(common, "-c", cfg.cpu, two);
      assert args[2..] == common + ["-c", cfg.cpu];
    } else {
      assert args[2..] == common;
    }
  }

  lemma {:induction false} GatherNone()
    ensures Gather([]) == Ok(map[])
  {
  }

  lemma {:induction false} GatherThree(d: string, p: string)
    requires d != "" && p != ""
    ensures Gather(["-d", d, "-m", "1", "-P", p]) == Ok(map["-d" := d, "-m" := "1", "-P" := p])
  {
    hide Gather;
    GatherNone();
    GatherPair([], "-d", d, map[]);
    assert [] + ["-d", d] == ["-d", d];
    GatherPair(["-d", d], "-m", "1", map["-d" := d]);
    assert ["-d", d] + ["-m", "1"] == ["-d", d, "-m", "1"];
    GatherPair(["-d", d, "-m", "1"], "-P", p, map["-d" := d, "-m" := "1"]);
    assert ["-d", d, "-m", "1"] + ["-P", p] == ["-d", d, "-m", "1", "-P", p];
  }

  /** MAIN: for every configuration value the Memory command line is accepted, with the
      configured period when it is 100 or 1000 and the duration's default otherwise. */
  lemma {:induction false} MemoryArgsReadBack(cfg: MemoryConfig)
    ensures var period := if cfg.period == 100 || cfg.period == 1000 then cfg.period
                          else if cfg.duration == 1 then 100 else 1000;
            ReadArgs(MemoryCommandArgs(cfg)) ==
              Ok(if cfg.cpu != "" then Metadata("cpu", "cpu" + cfg.cpu, cfg.cpu, period)
                 else Metadata("system", "system", "", period))
    ensures AskedDuration(MemoryCommandArgs(cfg)) == Some(if 1 <= cfg.duration <= 5 then cfg.duration else 3)
  {
    hide FormatInt, ParseInt, Gather, ReadArgs, AskedDuration, MemoryCommandArgs;
    var d := if DurationInRange(cfg.duration) then cfg.duration else 3;
    var p := if PeriodAllowed(cfg.period) then cfg.period else if d == 1 then 100 else 1000;
    MemoryLine(cfg, d, p);
    MemoryLineReadBack(FormatInt(d), FormatInt(p), d, p, cfg.cpu);
  }

  function MemoryWords(duration: string, period: string, cpu: string): seq<string> {
    ["tuner", "memory"] + ["-d", duration, "-m", "1", "-P", period] + if cpu == "" then [] else ["-c", cpu]
  }

  lemma {:induction false} MemoryLine(cfg: MemoryConfig, d: int, p: int)
    requires d == if DurationInRange(cfg.duration) then cfg.duration else 3
    requires p == if PeriodAllowed(cfg.period) then cfg.period else if d == 1 then 100 else 1000
    ensures MemoryCommandArgs(cfg) == MemoryWords(FormatInt(d), FormatInt(p), cfg.cpu)
  {
    hide FormatInt;
  }

  lemma {:induction false} MemoryLineReadBack(duration: string, period: string, d: int, p: int, cpu: string)
    requires DurationInRange(d) && PeriodAllowed(p) && duration == FormatInt(d) && period == FormatInt(p)
    ensures var args := MemoryWords(duration, period, cpu);
            && ReadArgs(args) ==
                 Ok(if cpu != "" then Metadata("cpu", "cpu" + cpu, cpu, p) else Metadata("system", "system", "", p))
            && AskedDuration(args) == Some(d)
  {
    hide FormatInt, ParseInt, Gather, ReadValues, Duration;
    var args := MemoryWords(duration, period, cpu);
    ParseFormatInt(d);
    ParseFormatInt(p);
    GatherThree(duration, period);
    MemoryValues(d, p, cpu);
    var common := ["-d", duration, "-m", "1", "-P", period];
    if cpu != "" {
      GatherPair(common, "-c", cpu, map["-d" := duration, "-m" := "1", "-P" := period]);
      assert args[2..] == common + ["-c", cpu];
    } else {
      assert args[2..] == common;
    }
  }

  lemma {:induction false} MemoryValues(d: int, p: int, cpu: string)
    requires DurationInRange(d) && PeriodAllowed(p)
    ensures var three: Values := map["-d" := FormatInt(d), "-m" := "1", "-P" := FormatInt(p)];
            && ReadValues("memory", three) == Ok(Metadata("system", "system", "", p))
            && Duration(three) == Duration(three["-c" := cpu]) == Some(d)
            && (cpu != "" ==> ReadValues("memory", three["-c" := cpu]) == Ok(Metadata("cpu", "cpu" + cpu, cpu, p)))
  {
    hide FormatInt, ParseInt;
    ParseFormatInt(d);
    ParseFormatInt(p);
  }

  /** The command lines, written out. */
  lemma {:induction false} CommandsWrittenOut(cpu: string, pid: string)
    requires cpu != "" && pid != ""
    ensures TopdownCommandArgs(TopdownConfig(cpu, pid, 2)) == ["tuner", "top-down", "-d", "2", "-L", "0", "-p", pid]
    ensures TopdownCommandArgs(TopdownConfig(cpu, "", 0)) == ["tuner", "top-down", "-d", "3", "-L", "0", "-c", cpu]
    ensures TopdownCommandArgs(TopdownConfig("", "", 5)) == ["tuner", "top-down", "-d", "5", "-L", "0"]
    ensures MemoryCommandArgs(MemoryConfig(cpu, 1, 0)) ==
            ["tuner", "memory", "-d", "1", "-m", "1", "-P", "100", "-c", cpu]
    ensures MemoryCommandArgs(MemoryConfig("", 4, 7)) == ["tuner", "memory", "-d", "4", "-m", "1", "-P", "1000"]
  {
    hide FormatInt;
    SmallNumbers();
  }

  lemma {:induction false} SmallNumbers()
    ensures FormatInt(1) == "1" && FormatInt(2) == "2" && FormatInt(3) == "3" && FormatInt(4) == "4"
    ensures FormatInt(5) == "5" && FormatInt(100) == "100" && FormatInt(1000) == "1000"
  {
    assert Format(10, Decimal) == Format(1, Decimal) + "0";
    assert Format(100, Decimal) == Format(10, Decimal) + "0";
    assert Format(1000, Decimal) == Format(100, Decimal) + "0";
  }

  /** MAIN: conversely, whatever TopDown command line is accepted, some configuration builds
      one with the same labels: the parser accepts nothing the builder cannot mean. */
  lemma {:induction false} AcceptedTopdownIsBuilt(args: seq<string>) returns (cfg: TopdownConfig)
    requires ReadArgs(args).Ok? && args[1] == "top-down"
    ensures ReadArgs(TopdownCommandArgs(cfg)) == ReadArgs(args)
    ensures AskedDuration(TopdownCommandArgs(cfg)) == AskedDuration(args)
    ensures Paired(args[2..]) && DurationInRange(cfg.duration)
  {
    hide Gather, Paired, ParseInt, OnlyFlags;
    GatherMeaning(args[2..]);
    var values := Gather(args[2..]).value;
    cfg := TopdownConfig(Get(values, "-c"), Get(values, "-p"), Duration(values).value);
    TopdownArgsReadBack(cfg);
  }

  lemma {:induction false} AcceptedMemoryIsBuilt(args: seq<string>) returns (cfg: MemoryConfig)
    requires ReadArgs(args).Ok? && args[1] == "memory"
    ensures ReadArgs(MemoryCommandArgs(cfg)) == ReadArgs(args)
    ensures AskedDuration(MemoryCommandArgs(cfg)) == AskedDuration(args)
    ensures Paired(args[2..]) && DurationInRange(cfg.duration) && PeriodAllowed(cfg.period)
  {
    hide Gather, Paired, ParseInt, OnlyFlags;
    GatherMeaning(args[2..]);
    var values := Gather(args[2..]).value;
    cfg := MemoryConfig(Get(values, "-c"), Duration(values).value, ParseInt(Get(values, "-P"), Decimal).value);
    MemoryArgsReadBack(cfg);
  }
}
