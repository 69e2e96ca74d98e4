/** The DevKit configuration after YAML decoding (devkit_config.go): defaults, validation,
    and what the collectors make of an accepted configuration. */
module DevkitConfig {
  import opened Text
  import opened Intervals
  import opened DevkitArgs
  import Selector
  import PidSelector
  import Scopes

  /** Decoded fields; None is an absent field, as opposed to an explicit zero. */
  datatype Raw = Raw(
    topdownCPU: string, topdownPID: string, topdownDuration: Option<int>,
    memoryCPU: string, memoryDuration: Option<int>, memoryPeriod: Option<int>)

  datatype Config = Config(topdown: TopdownConfig, memory: MemoryConfig)

  /** What validation reads from the host. */
  datatype Host = Host(maxCPU: nat, maxPID: nat) {
    predicate Valid() { maxCPU <= MAX_UINT64 && maxPID <= MAX_UINT64 }
  }

  datatype Refusal =
    | Exclusive | TopdownCPUInvalid | TopdownPIDInvalid | MemoryCPUInvalid | PeriodInvalid | PeriodTooLong
    | DurationInvalid

  datatype Outcome<+T> = Accepted(value: T) | Refused(refusal: Refusal)

  function NormalizeDuration(value: Option<int>): Outcome<int> {
    if value.None? then Accepted(DEFAULT_DURATION)
    else if !DurationInRange(value.value) then Refused(DurationInvalid)
    else Accepted(value.value)
  }

  function NormalizeMemoryPeriod(duration: int, value: Option<int>): Outcome<int> {
    if value.None? then Accepted(if duration == 1 then 100 else DEFAULT_MEMORY_PERIOD)
    else if !PeriodAllowed(value.value) then Refused(PeriodInvalid)
    else if duration == 1 && value.value == 1000 then Refused(PeriodTooLong)
    else Accepted(value.value)
  }

  predicate CPUAccepted(cpu: string, host: Host) { cpu == "" || Selector.CanonicalCPU(cpu, host.maxCPU).Ok? }

  predicate PIDAccepted(pid: string, host: Host) { pid == "" || PidSelector.CanonicalPID(pid, host.maxPID).Ok? }

  function Validate(c: Config, host: Host): Option<Refusal> {
    if c.topdown.cpu != "" && c.topdown.pid != "" then Some(Exclusive)
    else if !CPUAccepted(c.topdown.cpu, host) then Some(TopdownCPUInvalid)
    else if !PIDAccepted(c.topdown.pid, host) then Some(TopdownPIDInvalid)
    else if !CPUAccepted(c.memory.cpu, host) then Some(MemoryCPUInvalid)
    else if !PeriodAllowed(c.memory.period) then Some(PeriodInvalid)
    else if c.memory.duration == 1 && c.memory.period == 1000 then Some(PeriodTooLong)
    else None
  }

  function WithDefaults(c: Config): Config {
    var topdown :=
      if c.topdown.duration < MIN_DURATION || c.topdown.duration > MAX_DURATION
      then c.topdown.(duration := DEFAULT_DURATION) else c.topdown;
    var memory :=
      if c.memory.duration < MIN_DURATION || c.memory.duration > MAX_DURATION
      then c.memory.(duration := DEFAULT_DURATION) else c.memory;
    if memory.period != 100 && memory.period != 1000
    then Config(topdown, memory.(period := if memory.duration == 1 then 100 else DEFAULT_MEMORY_PERIOD))
    else Config(topdown, memory)
  }

  /** parseDevkitConfig from the decoded fields on. */
  function ParseConfig(raw: Raw, host: Host): Outcome<Config> {
    var topdownDuration := NormalizeDuration(raw.topdownDuration);
    if topdownDuration.Refused? then Refused(topdownDuration.refusal)
    else
      var memoryDuration := NormalizeDuration(raw.memoryDuration);
      if memoryDuration.Refused? then Refused(memoryDuration.refusal)
      else
        var period := NormalizeMemoryPeriod(memoryDuration.value, raw.memoryPeriod);
        if period.Refused? then Refused(period.refusal)
        else
          var c := Config(
            TopdownConfig(raw.topdownCPU, raw.topdownPID, topdownDuration.value),
            MemoryConfig(raw.memoryCPU, memoryDuration.value, period.value));
          var problem := Validate(c, host);
          if problem.Some? then Refused(problem.value) else Accepted(WithDefaults(c))
  }

  // ---------- which configurations are accepted ----------

  predicate Acceptable(raw: Raw, host: Host) {
    && (raw.topdownCPU == "" || raw.topdownPID == "")
    && CPUAccepted(raw.topdownCPU, host) && PIDAccepted(raw.topdownPID, host) && CPUAccepted(raw.memoryCPU, host)
    && (raw.topdownDuration.Some? ==> 1 <= raw.topdownDuration.value <= 5)
    && (raw.memoryDuration.Some? ==> 1 <= raw.memoryDuration.value <= 5)
    && (raw.memoryPeriod.Some? ==>
          raw.memoryPeriod.value == 100 || (raw.memoryPeriod.value == 1000 && raw.memoryDuration != Some(1)))
  }

  /** MAIN: for the host's 64-bit bounds, the selector texts that are accepted: an empty one,
      or 1 to 1024 characters with at most 512 numbers and ranges for CPUs, 1 to 512
      characters with at most 32 numbers for processes, all within the bounds. */
  lemma {:induction false} SelectorsAcceptedIff(cpu: string, pid: string, host: Host)
    requires host.Valid()
    ensures CPUAccepted(cpu, host) <==>
              || cpu == ""
              || (|cpu| <= 1024 && |Split(cpu, ',')| <= 512
                  && forall i :: 0 <= i < |Split(cpu, ',')| ==>
                       Selector.ElementFits(Split(cpu, ',')[i], host.maxCPU))
    ensures PIDAccepted(pid, host) <==>
              || pid == ""
              || (|pid| <= 512 && |Split(pid, ',')| <= 32
                  && forall i :: 0 <= i < |Split(pid, ',')| ==>
                       PidSelector.ElementFits(Split(pid, ',')[i], host.maxPID))
  {
    hide Selector.CanonicalCPU, PidSelector.CanonicalPID, Split, Selector.ElementFits, PidSelector.ElementFits;
    Selector.AcceptedIff(cpu, host.maxCPU);
    PidSelector.AcceptedIff(pid, host.maxPID);
  }

  /** Write every field out. */
  function Explicit(c: Config): Raw {
    Raw(c.topdown.cpu, c.topdown.pid, Some(c.topdown.duration),
        c.memory.cpu, Some(c.memory.duration), Some(c.memory.period))
  }

  /** MAIN: exactly the acceptable configurations are accepted; the result keeps the selector
      texts and every explicit number, passes validation, is a fixed point of the defaults,
      and parses to itself when written out in full. */
  lemma {:induction false} ParseMeaning(raw: Raw, host: Host)
    ensures ParseConfig(raw, host).Accepted? <==> Acceptable(raw, host)
    ensures ParseConfig(raw, host).Accepted? ==>
              var c := ParseConfig(raw, host).value;
              && Validate(c, host) == None
              && WithDefaults(c) == c
              && ParseConfig(Explicit(c), host) == Accepted(c)
              && c.topdown.cpu == raw.topdownCPU && c.topdown.pid == raw.topdownPID && c.memory.cpu == raw.memoryCPU
              && (raw.topdownDuration.Some? ==> c.topdown.duration == raw.topdownDuration.value)
              && (raw.memoryDuration.Some? ==> c.memory.duration == raw.memoryDuration.value)
              && (raw.memoryPeriod.Some? ==> c.memory.period == raw.memoryPeriod.value)
              && (raw.topdownDuration.None? ==> c.topdown.duration == 3)
              && (raw.memoryDuration.None? ==> c.memory.duration == 3)
              && (raw.memoryPeriod.None? ==> c.memory.period == if raw.memoryDuration == Some(1) then 100 else 1000)
  {
    hide Selector.CanonicalCPU, PidSelector.CanonicalPID;
  }

  /** The defaults are written down three times, in WithDefaults and in each builder; they
      agree on every configuration, accepted or not, and applying them twice changes
      nothing. */
  lemma {:induction false} DefaultsAgree(c: Config)
    ensures TopdownCommandArgs(WithDefaults(c).topdown) == TopdownCommandArgs(c.topdown)
    ensures MemoryCommandArgs(WithDefaults(c).memory) == MemoryCommandArgs(c.memory)
    ensures WithDefaults(WithDefaults(c)) == WithDefaults(c)
  {
    hide FormatInt;
  }

  // ---------- accepted selectors hold digits and separators only ----------

  predicate IsSelectorChar(c: char) { '0' <= c <= '9' || c == ',' || c == '-' }

  lemma {:induction false} NumberChars(raw: string, c: char)
    requires Selector.ParseUnsigned(raw).Ok? && !IsSelectorChar(c)
    ensures c !in raw
  {
  }

  lemma {:induction false} CPUChars(cpu: string, host: Host, c: char)
    requires CPUAccepted(cpu, host) && !IsSelectorChar(c)
    ensures c !in cpu
  {
    if cpu != "" {
      hide Selector.ParseUnsigned, Join, Split, Selector.SizeProblem, Normalise;
      var elements := Split(cpu, ',');
      var parsed := Selector.ParseElements(elements, host.maxCPU).value;
      forall i | 0 <= i < |elements| ensures c !in elements[i] {
        assert Selector.ParseElement(elements[i], host.maxCPU) == Selector.Ok(parsed[i]);
        ElementChars(elements[i], host.maxCPU, c);
      }
      JoinAdds(elements, ',', c);
      JoinSplit(cpu, ',');
    }
  }

  lemma {:induction false} ElementChars(element: string, maxCPU: nat, c: char)
    requires Selector.ParseElement(element, maxCPU).Ok? && !IsSelectorChar(c)
    ensures c !in element
  {
    hide Selector.ParseUnsigned, Join, Split;
    var bounds := Split(element, '-');
    forall i | 0 <= i < |bounds| ensures c !in bounds[i] {
      NumberChars(bounds[i], c);
    }
    JoinAdds(bounds, '-', c);
    JoinSplit(element, '-');
  }

  lemma {:induction false} PIDChars(pid: string, host: Host, c: char)
    requires PIDAccepted(pid, host) && !IsSelectorChar(c)
    ensures c !in pid
  {
    if pid != "" {
      hide Selector.ParseUnsigned, Join, Split, Selector.SizeProblem;
      var elements := Split(pid, ',');
      var parsed := PidSelector.ParsePids(elements, host.maxPID).value;
      forall i | 0 <= i < |elements| ensures c !in elements[i] {
        assert PidSelector.ParsePid(elements[i], host.maxPID) == Selector.Ok(parsed[i]);
        NumberChars(elements[i], c);
      }
      JoinAdds(elements, ',', c);
      JoinSplit(pid, ',');
    }
  }

  /** Every character of an accepted configuration's selectors is a digit, a comma or a minus
      sign. */
  lemma {:induction false} AcceptedSelectorsArePlain(raw: Raw, host: Host, c: char)
    requires ParseConfig(raw, host).Accepted? && !IsSelectorChar(c)
    ensures var config := ParseConfig(raw, host).value;
            c !in config.topdown.cpu && c !in config.topdown.pid && c !in config.memory.cpu
  {
    hide CPUAccepted, PIDAccepted;
    CPUChars(raw.topdownCPU, host, c);
    PIDChars(raw.topdownPID, host, c);
    CPUChars(raw.memoryCPU, host, c);
  }

  // ---------- the scope of an accepted configuration ----------

  /** A text accepted under a host bound is accepted, with the same canonical form, without
      the bound. */
  lemma {:induction false} CPUBoundOnlyRejects(raw: string, maxCPU: nat)
    requires maxCPU <= MAX_UINT64 && Selector.CanonicalCPU(raw, maxCPU).Ok?
    ensures Selector.CanonicalCPU(raw, MAX_UINT64) == Selector.CanonicalCPU(raw, maxCPU)
  {
    hide Selector.SizeProblem, Selector.ParseElement, Normalise, Split;
    var elements := Split(raw, ',');
    var parsed := Selector.ParseElements(elements, maxCPU).value;
    forall i | 0 <= i < |elements| ensures Selector.ParseElement(elements[i], MAX_UINT64) == Selector.Ok(parsed[i]) {
      Selector.BoundOnlyRejects(elements[i], maxCPU);
    }
    Selector.ParseElementsExact(elements, parsed, MAX_UINT64);
  }

  lemma {:induction false} PIDBoundOnlyRejects(raw: string, maxPID: nat)
    requires maxPID <= MAX_UINT64 && PidSelector.CanonicalPID(raw, maxPID).Ok?
    ensures PidSelector.CanonicalPID(raw, MAX_UINT64) == PidSelector.CanonicalPID(raw, maxPID)
  {
    hide Selector.SizeProblem, Split, Selector.ParseUnsigned;
    var elements := Split(raw, ',');
    var parsed := PidSelector.ParsePids(elements, maxPID).value;
    forall i | 0 <= i < |elements|
      ensures PidSelector.ParsePid(elements[i], MAX_UINT64) == Selector.Ok(parsed[i])
    {
      assert PidSelector.ParsePid(elements[i], maxPID) == Selector.Ok(parsed[i]);
    }
    PidSelector.ParsePidsExact(elements, parsed, MAX_UINT64);
  }

  /** The scope a TopDown report is compared with: what the command line said. */
  function RequestedScope(c: TopdownConfig): Scopes.Scope {
    var read := ReadArgs(TopdownCommandArgs(c));
    if read.Err? then Scopes.Scope("", "") else Scopes.Scope(read.value.targetType, read.value.targetValue)
  }

  /** MAIN: through configuration, command line and labels, the requested scope of an accepted
      configuration is always comparable and covers exactly the configured CPUs or processes. */
  lemma {:induction false} AcceptedScopeIsConfigured(raw: Raw, host: Host)
    requires host.Valid() && ParseConfig(raw, host).Accepted?
    ensures var scope := RequestedScope(ParseConfig(raw, host).value.topdown);
            && Scopes.Acceptable(scope)
            && scope == if raw.topdownPID != "" then Scopes.Scope("pid", raw.topdownPID)
                        else if raw.topdownCPU != "" then Scopes.Scope("cpu", raw.topdownCPU)
                        else Scopes.Scope("system", "")
  {
    hide Selector.CanonicalCPU, PidSelector.CanonicalPID, ReadArgs, TopdownCommandArgs;
    var c := ParseConfig(raw, host).value;
    TopdownArgsReadBack(c.topdown);
    if raw.topdownPID != "" {
      PIDBoundOnlyRejects(raw.topdownPID, host.maxPID);
    } else if raw.topdownCPU != "" {
      CPUBoundOnlyRejects(raw.topdownCPU, host.maxCPU);
    }
  }
}
