/** The dynamic QoS policy of a node: every round of interference reasons steps its limits
    down (qospolicy_dynamic_updater.go, coordinator.go) under the rules of the resource's
    schema (qospolicy_types.go). */
module QosStepDown {
  import opened Text

  const NODE_KEY := "kubernetes.io/hostname"

  // ---------- reasons ----------

  datatype Reason = Nothing | Cpu | Mb | L3

  function ReadReason(raw: string): Option<Reason> {
    var text := LowerAll(TrimSpace(raw));
    if text == "none" then Some(Nothing)
    else if text == "cpu" then Some(Cpu)
    else if text == "mb" then Some(Mb)
    else if text == "l3" then Some(L3)
    else None
  }

  /** The text is the lower-case word up to the case of its letters. */
  predicate SameLetters(text: string, word: string) {
    && |text| == |word|
    && forall i :: 0 <= i < |word| ==>
         text[i] == word[i] || ('a' <= word[i] <= 'z' && text[i] as int == word[i] as int - 32)
  }

  /** MAIN: the resource each text names, in any case and with white space around it. */
  lemma {:induction false} ReasonMeaning(raw: string)
    ensures ReadReason(raw) == Some(Cpu) <==> SameLetters(TrimSpace(raw), "cpu")
    ensures ReadReason(raw) == Some(Mb) <==> SameLetters(TrimSpace(raw), "mb")
    ensures ReadReason(raw) == Some(L3) <==> SameLetters(TrimSpace(raw), "l3")
    ensures ReadReason(raw) == Some(Nothing) <==> SameLetters(TrimSpace(raw), "none")
  {
    hide TrimSpace, SameLetters;
    var text := TrimSpace(raw);
    LowerIsSame(text, "cpu");
    LowerIsSame(text, "mb");
    LowerIsSame(text, "l3");
    LowerIsSame(text, "none");
  }

  lemma {:induction false} LowerIsSame(text: string, word: string)
    requires forall i :: 0 <= i < |word| ==>
               ('a' <= word[i] <= 'z' && word[i] != 'k' && word[i] != 'i') || '0' <= word[i] <= '9'
    ensures LowerAll(text) == word <==> SameLetters(text, word)
  {
    if |text| == |word| {
      forall i | 0 <= i < |word|
        ensures LowerAll(text)[i] == word[i] <==>
                  text[i] == word[i] || ('a' <= word[i] <= 'z' && text[i] as int == word[i] as int - 32)
      {
      }
    }
  }

  /** One of the texts names the word's resource. */
  predicate Says(raw: seq<string>, word: string) {
    exists i :: 0 <= i < |raw| && SameLetters(TrimSpace(raw[i]), word)
  }

  lemma {:induction false} SetMeaning(raw: seq<string>)
    ensures Cpu in ReasonSet(raw, false) <==> Says(raw, "cpu")
    ensures Mb in ReasonSet(raw, false) <==> Says(raw, "mb")
    ensures L3 in ReasonSet(raw, false) <==> Says(raw, "l3")
    ensures Nothing !in ReasonSet(raw, false)
  {
    hide ReadReason, SameLetters, TrimSpace;
    forall i | 0 <= i < |raw|
      ensures ReadReason(raw[i]) == Some(Cpu) <==> SameLetters(TrimSpace(raw[i]), "cpu")
      ensures ReadReason(raw[i]) == Some(Mb) <==> SameLetters(TrimSpace(raw[i]), "mb")
      ensures ReadReason(raw[i]) == Some(L3) <==> SameLetters(TrimSpace(raw[i]), "l3")
    {
      ReasonMeaning(raw[i]);
    }
  }

  function ReasonSet(raw: seq<string>, includeNone: bool): set<Reason> {
    set i | 0 <= i < |raw| && ReadReason(raw[i]).Some? && (includeNone || ReadReason(raw[i]).value != Nothing)
      :: ReadReason(raw[i]).value
  }

  const ORDER := [Cpu, Mb, L3]

  function Chosen(order: seq<Reason>, s: set<Reason>): seq<Reason> {
    if order == [] then []
    else
      var n := |order| - 1;
      if order[n] in s then Chosen(order[..n], s) + [order[n]] else Chosen(order[..n], s)
  }

  /** The members of the set in their fixed order. */
  function Listed(s: set<Reason>): seq<Reason> {
    (if Nothing in s then [Nothing] else []) + Chosen(ORDER, s)
  }

  lemma {:induction false} ChosenMeaning(order: seq<Reason>, s: set<Reason>)
    requires NoRepeats(order)
    ensures forall x :: x in Chosen(order, s) <==> x in order && x in s
    ensures NoRepeats(Chosen(order, s))
  {
    if order != [] {
      var n := |order| - 1;
      ChosenMeaning(order[..n], s);
      assert order == order[..n] + [order[n]];
      assert order[n] !in order[..n];
    }
  }

  /** The list holds exactly the members of the set, each once. */
  lemma {:induction false} ListedMeaning(s: set<Reason>)
    ensures forall x :: x in Listed(s) <==> x in s
    ensures NoRepeats(Listed(s))
  {
    ChosenMeaning(ORDER, s);
    forall x ensures x in ORDER <==> x != Nothing {
      assert ORDER[0] == Cpu && ORDER[1] == Mb && ORDER[2] == L3;
    }
  }

  predicate NoRepeats(r: seq<Reason>) { forall i, j :: 0 <= i < j < |r| ==> r[i] != r[j] }

  function Unknown(raw: seq<string>): seq<string> {
    if raw == [] then []
    else
      var n := |raw| - 1;
      if ReadReason(raw[n]).None? then Unknown(raw[..n]) + [raw[n]] else Unknown(raw[..n])
  }

  /** What is ignored. */
  lemma {:induction false} UnknownMeaning(raw: seq<string>, x: string)
    ensures x in Unknown(raw) <==> x in raw && ReadReason(x).None?
  {
    hide ReadReason;
    if raw != [] {
      var n := |raw| - 1;
      UnknownMeaning(raw[..n], x);
      assert raw == raw[..n] + [raw[n]];
    }
  }

  /** The order of the list, written out. */
  lemma {:induction false} OrderWrittenOut()
    ensures Listed({L3, Mb, Cpu, Nothing}) == [Nothing, Cpu, Mb, L3]
  {
    var all := {L3, Mb, Cpu, Nothing};
    assert [Cpu][..0] == [] && [Cpu, Mb][..1] == [Cpu] && ORDER[..2] == [Cpu, Mb];
    assert Chosen([Cpu], all) == [Cpu];
    assert Chosen([Cpu, Mb], all) == [Cpu, Mb];
    assert Chosen(ORDER, all) == [Cpu, Mb, L3];
  }

  /** normalizeInterferenceReasons: only the set of recognised reasons matters. */
  method NormalizeReasons(raw: seq<string>, includeNone: bool) returns (normalized: seq<Reason>, ignored: seq<string>)
    ensures normalized == Listed(ReasonSet(raw, includeNone))
    ensures ignored == Unknown(raw)
  {
    hide ReadReason, ReasonSet;
    assert ReasonSet([], includeNone) == {} by {
      NoReasons(includeNone);
    }
    var seen: set<Reason> := {};
    ignored := [];
    for i := 0 to |raw|
      invariant seen == ReasonSet(raw[..i], includeNone)
      invariant ignored == Unknown(raw[..i])
    {
      assert raw[..i + 1][..i] == raw[..i];
      SetStep(raw[..i + 1], includeNone);
      match ReadReason(raw[i])
      case None => ignored := ignored + [raw[i]];
      case Some(r) =>
        if r != Nothing || includeNone {
          seen := seen + {r};
        }
    }
    assert raw[..|raw|] == raw;
    normalized := if Nothing in seen then [Nothing] else [];
    ghost var head := normalized;
    for i := 0 to |ORDER|
      invariant normalized == head + Chosen(ORDER[..i], seen)
    {
      assert ORDER[..i + 1][..i] == ORDER[..i];
      if ORDER[i] in seen {
        normalized := normalized + [ORDER[i]];
      }
    }
    assert ORDER[..|ORDER|] == ORDER;
  }

  lemma {:induction false} NoReasons(includeNone: bool)
    ensures ReasonSet([], includeNone) == {}
  {
  }

  lemma {:induction false} SetStep(raw: seq<string>, includeNone: bool)
    requires raw != []
    ensures var n := |raw| - 1; var last := ReadReason(raw[n]);
            ReasonSet(raw, includeNone) ==
              ReasonSet(raw[..n], includeNone)
              + if last.Some? && (includeNone || last.value != Nothing) then {last.value} else {}
  {
    hide ReadReason;
    assert raw == raw[..|raw| - 1] + [raw[|raw| - 1]];
  }

  // ---------- settings ----------

  /** The numbers of a policy; each is an int32. */
  datatype Settings = Settings(
    mbHdl: int, mbPri: int, mbMin: int, mbMax: int, l3Pri: int, l3Min: int, l3Max: int, l3Ways: int, qosLevel: int)

  const DEFAULTS := Settings(1, 3, 0, 100, 0, 0, 100, 4, 0)

  datatype Steps = Steps(mb: int, ways: int, l3Max: int) {
    predicate Valid() { 0 <= mb < 0x8000_0000 && 0 <= ways < 0x8000_0000 && 0 <= l3Max < 0x8000_0000 }
  }

  const DEFAULT_STEPS := Steps(10, 1, 10)

  /** The schema's ranges; no cache ways means the field is absent. */
  predicate InRange(s: Settings) {
    && 0 <= s.mbHdl <= 1 && 0 <= s.mbPri <= 7 && 0 <= s.mbMin <= 100 && 0 <= s.mbMax <= 100
    && 0 <= s.l3Pri <= 3 && 0 <= s.l3Min <= 100 && 0 <= s.l3Max <= 100 && 0 <= s.l3Ways < 0x8000_0000
    && -1 <= s.qosLevel <= 1
  }

  /** The schema's rule on changes of the level. */
  predicate LevelRule(before: int, after: int) { after == before || before == 0 }

  /** The client leaves zero fields out of a request, and the server fills in its defaults. */
  function Received(s: Settings): Settings {
    s.(mbHdl := if s.mbHdl == 0 then 1 else s.mbHdl,
       mbPri := if s.mbPri == 0 then 3 else s.mbPri,
       mbMax := if s.mbMax == 0 then 100 else s.mbMax,
       l3Max := if s.l3Max == 0 then 100 else s.l3Max)
  }

  /** Subtraction on int32. */
  function Minus32(a: int, b: int): (r: int)
    ensures (a - b - r) % 0x1_0000_0000 == 0
    ensures -0x8000_0000 <= a < 0x8000_0000 && -0x8000_0000 <= b < 0x8000_0000 ==> -0x8000_0000 <= r < 0x8000_0000
  {
    var d := a - b;
    if d < -0x8000_0000 then d + 0x1_0000_0000 else if d >= 0x8000_0000 then d - 0x1_0000_0000 else d
  }

  /** maxInt32 */
  function AtLeast(v: int, min: int): int { if v < min then min else v }

  function ApplyOne(s: Settings, reason: Reason, steps: Steps): Settings {
    match reason
    case Mb => s.(mbMax := AtLeast(Minus32(s.mbMax, steps.mb), 1))
    case L3 =>
      s.(l3Ways := AtLeast(Minus32(s.l3Ways, steps.ways), 1), l3Max := AtLeast(Minus32(s.l3Max, steps.l3Max), 1))
    case Cpu => s.(qosLevel := -1)
    case Nothing => s
  }

  function Apply(s: Settings, reasons: seq<Reason>, steps: Steps): Settings {
    if reasons == [] then s
    else ApplyOne(Apply(s, reasons[..|reasons| - 1], steps), reasons[|reasons| - 1], steps)
  }

  /** What one round does, stated per limit. */
  function Effect(s: Settings, reasons: set<Reason>, steps: Steps): Settings {
    var mb := if Mb in reasons then AtLeast(Minus32(s.mbMax, steps.mb), 1) else s.mbMax;
    var ways := if L3 in reasons then AtLeast(Minus32(s.l3Ways, steps.ways), 1) else s.l3Ways;
    var l3Max := if L3 in reasons then AtLeast(Minus32(s.l3Max, steps.l3Max), 1) else s.l3Max;
    var level := if Cpu in reasons then -1 else s.qosLevel;
    s.(mbMax := mb, l3Ways := ways, l3Max := l3Max, qosLevel := level)
  }

  /** MAIN: applying reasons without repeats, in any order, has the effect of their set. */
  lemma {:induction false} OrderIsIrrelevant(s: Settings, reasons: seq<Reason>, steps: Steps)
    requires NoRepeats(reasons)
    ensures Apply(s, reasons, steps) == Effect(s, (set r | r in reasons), steps)
  {
    hide ApplyOne, Effect, NoRepeats;
    if reasons == [] {
      EffectOfNothing(s, steps);
      assert (set r | r in reasons) == {};
    } else {
      var init, last := reasons[..|reasons| - 1], reasons[|reasons| - 1];
      NoRepeatsStep(reasons);
      OrderIsIrrelevant(s, init, steps);
      assert reasons == init + [last];
      assert (set r | r in reasons) == (set r | r in init) + {last};
      EffectAdds(s, (set r | r in init), last, steps);
    }
  }

  lemma {:induction false} NoRepeatsStep(reasons: seq<Reason>)
    requires reasons != [] && NoRepeats(reasons)
    ensures NoRepeats(reasons[..|reasons| - 1]) && reasons[|reasons| - 1] !in reasons[..|reasons| - 1]
  {
  }

  lemma {:induction false} EffectAdds(s: Settings, reasons: set<Reason>, last: Reason, steps: Steps)
    requires last !in reasons
    ensures ApplyOne(Effect(s, reasons, steps), last, steps) == Effect(s, reasons + {last}, steps)
  {
    hide Minus32, AtLeast;
  }

  lemma {:induction false} EffectOfNothing(s: Settings, steps: Steps)
    ensures Effect(s, {}, steps) == s
  {
  }

  // ---------- the stored policy ----------

  /** A stored policy; the selector is None when the field is absent. */
  datatype Saved = Saved(settings: Settings, selector: Option<map<string, string>>)

  /** What a call did to the store. */
  datatype Write = NoWrite | Created | Updated | Refused | BadNode

  datatype Turn = Turn(saved: Option<Saved>, write: Write)

  function Labelled(selector: Option<map<string, string>>, node: string): map<string, string> {
    (if selector.Some? then selector.value else map[])[NODE_KEY := node]
  }

  function WithWays(s: Settings): Settings { if s.l3Ways < 1 then s.(l3Ways := 1) else s }

  /** The effect of a round on the store. */
  function Round(saved: Option<Saved>, reasons: set<Reason>, node: string, steps: Steps): Turn {
    if reasons == {} then Turn(saved, NoWrite)
    else if saved.None? then
      CreateTurn(Effect(DEFAULTS, reasons, steps), Some(map[NODE_KEY := node]))
    else
      var desired := Effect(WithWays(saved.value.settings), reasons, steps);
      if desired == saved.value.settings && saved.value.selector.Some? then Turn(saved, NoWrite)
      else UpdateTurn(saved.value, desired, Some(Labelled(saved.value.selector, node)))
  }

  function CreateTurn(s: Settings, selector: Option<map<string, string>>): Turn {
    if InRange(Received(s)) then Turn(Some(Saved(Received(s), selector)), Created) else Turn(None, Refused)
  }

  function UpdateTurn(saved: Saved, s: Settings, selector: Option<map<string, string>>): Turn {
    if InRange(Received(s)) && LevelRule(saved.settings.qosLevel, s.qosLevel)
    then Turn(Some(Saved(Received(s), selector)), Updated)
    else Turn(Some(saved), Refused)
  }

  // ---------- the updater ----------

  /** A decoded selector; copies of a decoded policy share it. */
  class NodeSelector {
    var entries: map<string, string>

    constructor (e: map<string, string>)
      ensures entries == e
    {
      entries := e;
    }
  }

  /** A decoded policy. */
  class Spec {
    var settings: Settings
    var selector: NodeSelector?

    constructor (s: Settings, n: NodeSelector?)
      ensures settings == s && selector == n
    {
      settings, selector := s, n;
    }

    function Entries(): Option<map<string, string>>
      reads this, selector
    {
      if selector == null then None else Some(selector.entries)
    }
  }

  /** reflect.DeepEqual: the selectors are compared by content, and a nil one differs from an
      empty one. */
  predicate DeepEqual(a: Spec, b: Spec)
    reads a, b, a.selector, b.selector
  {
    a.settings == b.settings && a.Entries() == b.Entries()
  }

  /** The API server, as far as this one policy goes. */
  class Store {
    var saved: Option<Saved>

    method Get() returns (spec: Spec?)
      ensures spec == null <==> saved.None?
      ensures spec != null ==>
                && fresh(spec) && (spec.selector != null ==> fresh(spec.selector))
                && Saved(spec.settings, spec.Entries()) == saved.value
    {
      if saved.None? {
        return null;
      }
      var selector: NodeSelector? := null;
      if saved.value.selector.Some? {
        selector := new NodeSelector(saved.value.selector.value);
      }
      spec := new Spec(saved.value.settings, selector);
    }

    method Create(spec: Spec) returns (write: Write)
      requires saved.None?
      modifies this
      ensures Turn(saved, write) == CreateTurn(old(spec.settings), old(spec.Entries()))
    {
      var s := Received(spec.settings);
      if !InRange(s) {
        return Refused;
      }
      saved := Some(Saved(s, spec.Entries()));
      return Created;
    }

    method Update(spec: Spec) returns (write: Write)
      requires saved.Some?
      modifies this
      ensures Turn(saved, write) == UpdateTurn(old(saved).value, old(spec.settings), old(spec.Entries()))
    {
      var s := Received(spec.settings);
      if !InRange(s) || !LevelRule(saved.value.settings.qosLevel, s.qosLevel) {
        return Refused;
      }
      saved := Some(Saved(s, spec.Entries()));
      return Updated;
    }
  }

  class Updater {
    const steps: Steps

    constructor ()
      ensures steps == DEFAULT_STEPS
    {
      steps := DEFAULT_STEPS;
    }

    method ApplyReasonsToSpec(spec: Spec, reasons: seq<Reason>)
      modifies spec
      ensures spec.settings == Apply(old(spec.settings), reasons, steps)
      ensures spec.selector == old(spec.selector)
    {
      for i := 0 to |reasons|
        invariant spec.settings == Apply(old(spec.settings), reasons[..i], steps)
        invariant spec.selector == old(spec.selector)
      {
        assert reasons[..i + 1][..i] == reasons[..i];
        match reasons[i]
        case Mb => spec.settings := spec.settings.(mbMax := AtLeast(Minus32(spec.settings.mbMax, steps.mb), 1));
        case L3 =>
          spec.settings := spec.settings.(l3Ways := AtLeast(Minus32(spec.settings.l3Ways, steps.ways), 1));
          spec.settings := spec.settings.(l3Max := AtLeast(Minus32(spec.settings.l3Max, steps.l3Max), 1));
        case Cpu => spec.settings := spec.settings.(qosLevel := -1);
        case Nothing =>
      }
      assert reasons[..|reasons|] == reasons;
    }

    method EnsurePolicy(store: Store, node: string) returns (write: Write)
      modifies store
      ensures TrimSpace(node) == "" ==> store.saved == old(store.saved) && write == BadNode
      ensures TrimSpace(node) != "" ==> Turn(store.saved, write) == EnsureTurn(old(store.saved), node)
    {
      hide TrimSpace;
      if TrimSpace(node) == "" {
        return BadNode;
      }
      var current := store.Get();
      if current != null {
        return NoWrite;
      }
      var selector := new NodeSelector(map[NODE_KEY := node]);
      var spec := new Spec(DEFAULTS, selector);
      write := store.Create(spec);
    }

    /** One round against the store. */
    method ApplyReasons(store: Store, node: string, raw: seq<string>) returns (write: Write)
      modifies store
      ensures TrimSpace(node) == "" ==> store.saved == old(store.saved) && write == BadNode
      ensures TrimSpace(node) != "" ==>
                Turn(store.saved, write) == Round(old(store.saved), ReasonSet(raw, false), node, steps)
    {
      hide TrimSpace, ReasonSet, Apply, Effect, CreateTurn, UpdateTurn;
      if TrimSpace(node) == "" {
        return BadNode;
      }
      ghost var given := ReasonSet(raw, false);
      var reasons, _ := NormalizeReasons(raw, false);
      ListedMeaning(given);
      assert (set r | r in reasons) == given;
      if |reasons| == 0 {
        assert forall r :: r !in given;
        return NoWrite;
      }
      assert reasons[0] in given;
      var current := store.Get();
      if current == null {
        OrderIsIrrelevant(DEFAULTS, reasons, steps);
        var labels := new NodeSelector(map[NODE_KEY := node]);
        var spec := new Spec(DEFAULTS, labels);
        ApplyReasonsToSpec(spec, reasons);
        write := store.Create(spec);
        return;
      }
      OrderIsIrrelevant(WithWays(current.settings), reasons, steps);
      var desired := new Spec(current.settings, current.selector);
      if desired.selector == null {
        desired.selector := new NodeSelector(map[]);
      }
      desired.selector.entries := desired.selector.entries[NODE_KEY := node];
      if desired.settings.l3Ways < 1 {
        desired.settings := desired.settings.(l3Ways := 1);
      }
      ApplyReasonsToSpec(desired, reasons);
      if DeepEqual(current, desired) {
        return NoWrite;
      }
      current.settings, current.selector := desired.settings, desired.selector;
      write := store.Update(current);
    }
  }

  function EnsureTurn(saved: Option<Saved>, node: string): Turn {
    if saved.Some? then Turn(saved, NoWrite) else CreateTurn(DEFAULTS, Some(map[NODE_KEY := node]))
  }

  // ---------- runs in which only this updater writes ----------

  datatype Event = Ensure | Reasons(reasons: set<Reason>)

  function Next(saved: Option<Saved>, e: Event, node: string, steps: Steps): Turn {
    match e
    case Ensure => EnsureTurn(saved, node)
    case Reasons(rs) => Round(saved, rs, node, steps)
  }

  /** The store after a history that starts without a policy, and the writes of the history. */
  function Run(events: seq<Event>, node: string, steps: Steps): (r: (Option<Saved>, seq<Write>))
    ensures |r.1| == |events|
  {
    if events == [] then (None, [])
    else
      var n := |events| - 1;
      var before := Run(events[..n], node, steps);
      var turn := Next(before.0, events[n], node, steps);
      (turn.saved, before.1 + [turn.write])
  }

  /** The number of rounds with the reason. */
  function Rounds(events: seq<Event>, reason: Reason): nat {
    if events == [] then 0
    else
      var n := |events| - 1;
      Rounds(events[..n], reason) + if events[n].Reasons? && reason in events[n].reasons then 1 else 0
  }

  /** No policy is made: nothing ensured and no reason given. */
  predicate Idle(events: seq<Event>) {
    forall i :: 0 <= i < |events| ==> events[i] == Reasons({})
  }

  function Expected(mb: nat, l3: nat, cpu: nat, steps: Steps): Settings {
    DEFAULTS.(mbMax := AtLeast(100 - steps.mb * mb, 1), l3Max := AtLeast(100 - steps.l3Max * l3, 1),
              l3Ways := AtLeast(4 - steps.ways * l3, 1), qosLevel := if cpu > 0 then -1 else 0)
  }

  /** One more step down from a value that has stepped down n times. */
  lemma {:induction false} StepDown(top: int, step: int, n: nat)
    requires 1 <= top <= 100 && 0 <= step < 0x8000_0000
    ensures var v := AtLeast(top - step * n, 1);
            1 <= v <= top && AtLeast(Minus32(v, step), 1) == AtLeast(top - step * (n + 1), 1)
  {
    assert step * (n + 1) == step * n + step;
    assert step * n >= 0;
  }

  lemma {:induction false} ExpectedStep(mb: nat, l3: nat, cpu: nat, reasons: set<Reason>, steps: Steps)
    requires steps.Valid()
    ensures var s := Expected(mb, l3, cpu, steps);
            && InRange(s) && Received(s) == s && WithWays(s) == s
            && Effect(s, reasons, steps) ==
                 Expected(mb + (if Mb in reasons then 1 else 0), l3 + (if L3 in reasons then 1 else 0),
                          cpu + (if Cpu in reasons then 1 else 0), steps)
            && LevelRule(s.qosLevel, Effect(s, reasons, steps).qosLevel)
  {
    hide AtLeast, Minus32;
    StepDown(100, steps.mb, mb);
    StepDown(100, steps.l3Max, l3);
    StepDown(4, steps.ways, l3);
  }

  function ExpectedAfter(events: seq<Event>, steps: Steps): Settings {
    Expected(Rounds(events, Mb), Rounds(events, L3), Rounds(events, Cpu), steps)
  }

  /** MAIN: after any history with m MB rounds and k L3 rounds the policy is exactly
      max(100 - 10m, 1), max(4 - k, 1), max(100 - 10k, 1) (stated for any steps), selects the
      node, is in range, and no request was refused. */
  lemma {:induction false} RunFormula(events: seq<Event>, node: string, steps: Steps)
    requires steps.Valid()
    ensures Run(events, node, steps).0 ==
            if Idle(events) then None else Some(Saved(ExpectedAfter(events, steps), Some(map[NODE_KEY := node])))
    ensures InRange(ExpectedAfter(events, steps))
    ensures forall w :: w in Run(events, node, steps).1 ==> w in [NoWrite, Created, Updated]
  {
    hide Effect, Expected, InRange, Received, WithWays;
    if events == [] {
      ExpectedStep(0, 0, 0, {}, steps);
    } else {
      var n := |events| - 1;
      var init, e := events[..n], events[n];
      RunFormula(init, node, steps);
      IdleStep(events);
      IdleCounts(init);
      var reasons := if e.Reasons? then e.reasons else {};
      ExpectedStep(Rounds(init, Mb), Rounds(init, L3), Rounds(init, Cpu), reasons, steps);
      ExpectedStep(Rounds(events, Mb), Rounds(events, L3), Rounds(events, Cpu), {}, steps);
      EffectOfNothing(ExpectedAfter(init, steps), steps);
      ExpectedAtFirst(steps);
      assert map[NODE_KEY := node][NODE_KEY := node] == map[NODE_KEY := node];
    }
  }

  /** MAIN: the same with the default steps, in numbers. */
  lemma {:induction false} RunInNumbers(events: seq<Event>, node: string)
    requires !Idle(events)
    ensures var m, k := Rounds(events, Mb), Rounds(events, L3);
            Run(events, node, DEFAULT_STEPS).0 ==
            Some(Saved(
              Settings(1, 3, 0, if m < 10 then 100 - 10 * m else 1, 0, 0,
                       if k < 10 then 100 - 10 * k else 1, if k < 3 then 4 - k else 1,
                       if Rounds(events, Cpu) > 0 then -1 else 0),
              Some(map["kubernetes.io/hostname" := node])))
  {
    hide Run, Rounds, Idle;
    RunFormula(events, node, DEFAULT_STEPS);
  }

  lemma {:induction false} IdleStep(events: seq<Event>)
    requires events != []
    ensures Idle(events) <==> Idle(events[..|events| - 1]) && events[|events| - 1] == Reasons({})
  {
    assert events == events[..|events| - 1] + [events[|events| - 1]];
  }

  lemma {:induction false} IdleCounts(events: seq<Event>)
    ensures Idle(events) ==> forall r :: Rounds(events, r) == 0
  {
    if events != [] && Idle(events) {
      IdleStep(events);
      IdleCounts(events[..|events| - 1]);
    }
  }

  lemma {:induction false} ExpectedAtFirst(steps: Steps)
    ensures Expected(0, 0, 0, steps) == DEFAULTS
  {
  }

  // ---------- the run settles ----------

  /** Rounds until a limit that goes down by tens from 100 reaches one. */
  function Left(rounds: nat): nat { if rounds >= 10 then 0 else 10 - rounds }

  function Budget(events: seq<Event>): nat {
    Left(Rounds(events, Mb)) + Left(Rounds(events, L3)) + (if Rounds(events, Cpu) == 0 then 1 else 0)
  }

  function Writes(writes: seq<Write>): nat {
    if writes == [] then 0
    else Writes(writes[..|writes| - 1]) + if writes[|writes| - 1] == NoWrite then 0 else 1
  }

  /** Whether a round still changes something depends on three counts only. */
  lemma {:induction false} ChangesIff(mb: nat, l3: nat, cpu: nat, reasons: set<Reason>)
    ensures Effect(Expected(mb, l3, cpu, DEFAULT_STEPS), reasons, DEFAULT_STEPS) != Expected(mb, l3, cpu, DEFAULT_STEPS)
       <==> (Mb in reasons && mb < 10) || (L3 in reasons && l3 < 10) || (Cpu in reasons && cpu == 0)
  {
  }

  /** The last event writes only if it makes the policy or uses up some of the budget. */
  lemma {:induction false} LastWrite(events: seq<Event>, node: string)
    requires events != []
    ensures var n := |events| - 1;
            var before, after := events[..n], events;
            var write := Run(after, node, DEFAULT_STEPS).1[n];
            && (write != NoWrite ==>
                  (Idle(before) && !Idle(after)) || (!Idle(before) && Budget(after) < Budget(before)))
            && Budget(after) <= Budget(before) && (Idle(after) ==> Idle(before))
  {
    hide Effect, Expected, Received, WithWays, CreateTurn, UpdateTurn, Idle;
    var n := |events| - 1;
    var init, e := events[..n], events[n];
    RunFormula(init, node, DEFAULT_STEPS);
    IdleStep(events);
    var mb, l3, cpu := Rounds(init, Mb), Rounds(init, L3), Rounds(init, Cpu);
    var reasons := if e.Reasons? then e.reasons else {};
    ChangesIff(mb, l3, cpu, reasons);
    ExpectedStep(mb, l3, cpu, reasons, DEFAULT_STEPS);
  }

  /** MAIN: with the default steps a run writes at most 22 times, however long it is, and
      after ten MB rounds, ten L3 rounds and one CPU round it never writes again. */
  lemma {:induction false} RunSettles(events: seq<Event>, node: string)
    ensures Writes(Run(events, node, DEFAULT_STEPS).1) + Budget(events) + (if Idle(events) then 1 else 0) <= 22
    ensures events != [] && !Idle(events[..|events| - 1]) && Budget(events[..|events| - 1]) == 0 ==>
              Run(events, node, DEFAULT_STEPS).1[|events| - 1] == NoWrite
  {
    hide Idle, Next, Budget;
    if events != [] {
      var init := events[..|events| - 1];
      RunSettles(init, node);
      LastWrite(events, node);
      WritesSnoc(Run(init, node, DEFAULT_STEPS).1, Run(events, node, DEFAULT_STEPS).1[|events| - 1]);
    } else {
      NothingYet();
    }
  }

  lemma {:induction false} NothingYet()
    ensures Idle([]) && Budget([]) == 21
  {
  }

  lemma {:induction false} WritesSnoc(writes: seq<Write>, w: Write)
    ensures Writes(writes + [w]) == Writes(writes) + if w == NoWrite then 0 else 1
  {
    assert (writes + [w])[..|writes|] == writes;
  }

  // ---------- policies other writers have touched ----------

  /** MAIN: on any stored policy in range a round is refused exactly when it gives the CPU
      reason while the stored level is 1; its bandwidth and cache steps are then lost too. */
  lemma {:induction false} RefusedIff(saved: Saved, reasons: set<Reason>, node: string, steps: Steps)
    requires steps.Valid() && InRange(saved.settings)
    ensures Round(Some(saved), reasons, node, steps).write == Refused <==>
              Cpu in reasons && saved.settings.qosLevel == 1
    ensures Round(Some(saved), reasons, node, steps).write == Refused ==>
              Round(Some(saved), reasons, node, steps).saved == Some(saved)
  {
    if reasons != {} {
      var desired := Effect(WithWays(saved.settings), reasons, steps);
      assert InRange(Received(desired));
    }
  }

  /** MAIN: a written round raises no limit exactly when no limit was stored as zero, and
      keeps the two fields it does not step exactly when they were not zero: a zero is left
      out of the request and comes back as the default. */
  lemma {:induction false} WrittenRoundLowersIff(saved: Saved, reasons: set<Reason>, node: string, steps: Steps)
    requires steps.Valid() && InRange(saved.settings)
    requires Round(Some(saved), reasons, node, steps).write == Updated
    ensures var before, after := saved.settings, Round(Some(saved), reasons, node, steps).saved.value.settings;
            && InRange(after) && LevelRule(before.qosLevel, after.qosLevel)
            && (after.mbMax <= before.mbMax <==> before.mbMax != 0)
            && (after.l3Max <= before.l3Max <==> before.l3Max != 0)
            && (after.l3Ways <= before.l3Ways <==> before.l3Ways != 0)
            && (after.mbHdl == before.mbHdl <==> before.mbHdl != 0)
            && (after.mbPri == before.mbPri <==> before.mbPri != 0)
            && after.mbMin == before.mbMin && after.l3Min == before.l3Min && after.l3Pri == before.l3Pri
  {
  }

  /** MAIN: what the texts of a round that is written do to a stored policy, with the default
      steps: "mb" lowers the bandwidth limit by 10, "l3" the ways by 1 and the cache limit by
      10, none below 1, and "cpu" sets the level to -1.  Without a step, a zero becomes 1 way
      or the server's default; nothing else changes. */
  lemma {:induction false} TextsStepDown(saved: Saved, raw: seq<string>, node: string)
    requires InRange(saved.settings)
    requires Round(Some(saved), ReasonSet(raw, false), node, DEFAULT_STEPS).write == Updated
    ensures var before := saved.settings;
            var after := Round(Some(saved), ReasonSet(raw, false), node, DEFAULT_STEPS).saved.value;
            && after.settings.mbMax == (if Says(raw, "mb") then Lowered(before.mbMax, 10) else Given(before.mbMax, 100))
            && after.settings.l3Ways == (if Says(raw, "l3") then Lowered(before.l3Ways, 1) else Given(before.l3Ways, 1))
            && after.settings.l3Max == (if Says(raw, "l3") then Lowered(before.l3Max, 10) else Given(before.l3Max, 100))
            && after.settings.qosLevel == (if Says(raw, "cpu") then -1 else before.qosLevel)
            && after.settings.mbHdl == Given(before.mbHdl, 1) && after.settings.mbPri == Given(before.mbPri, 3)
            && after.settings.mbMin == before.mbMin
            && after.settings.l3Pri == before.l3Pri && after.settings.l3Min == before.l3Min
            && after.selector.Some? && "kubernetes.io/hostname" in after.selector.value
            && after.selector.value["kubernetes.io/hostname"] == node
  {
    hide ReasonSet, Says;
    SetMeaning(raw);
  }

  /** Lowered by the step, but not below 1. */
  function Lowered(v: int, step: nat): int { if v > step then v - step else 1 }

  /** A value, or what stands for a missing one. */
  function Given(v: int, missing: int): int { if v == 0 then missing else v }

  /** The schema's ranges and the defaults the server fills in, written out. */
  lemma {:induction false} SchemaWrittenOut(s: Settings)
    ensures InRange(s) <==>
              && s.mbHdl in {0, 1} && s.mbPri in {0, 1, 2, 3, 4, 5, 6, 7} && s.l3Pri in {0, 1, 2, 3}
              && s.qosLevel in {-1, 0, 1}
              && 0 <= s.mbMin <= 100 && 0 <= s.mbMax <= 100 && 0 <= s.l3Min <= 100 && 0 <= s.l3Max <= 100
              && 0 <= s.l3Ways <= 2147483647
    ensures Received(Settings(0, 0, s.mbMin, 0, s.l3Pri, s.l3Min, 0, s.l3Ways, s.qosLevel)) ==
            Settings(1, 3, s.mbMin, 100, s.l3Pri, s.l3Min, 100, s.l3Ways, s.qosLevel)
  {
  }

  predicate SelectsNode(selector: Option<map<string, string>>, node: string) {
    selector.Some? && NODE_KEY in selector.value && selector.value[NODE_KEY] == node
  }

  /** MAIN: a round repairs a wrong node label only if it writes for another reason: the
      comparison that decides about the write cannot see the repaired label, because the
      stored and the desired policy share one selector. */
  lemma {:induction false} LabelRepairedIff(saved: Saved, reasons: set<Reason>, node: string, steps: Steps)
    requires steps.Valid() && InRange(saved.settings) && !SelectsNode(saved.selector, node)
    ensures var turn := Round(Some(saved), reasons, node, steps);
            SelectsNode(turn.saved.value.selector, node) <==>
              && reasons != {} && !(Cpu in reasons && saved.settings.qosLevel == 1)
              && (saved.selector.None? || Effect(WithWays(saved.settings), reasons, steps) != saved.settings)
  {
    RefusedIff(saved, reasons, node, steps);
  }
}
