/** Names and levels of TopDown table rows (devkit_topdown_parser.go). */
module TopdownNames {
  import opened Text

  // ---------- names ----------

  predicate IsAlnum(c: char) { 'a' <= c <= 'z' || '0' <= c <= '9' }

  function SkipOthers(s: string): (r: string)
    ensures |r| <= |s|
    ensures r == "" || IsAlnum(r[0])
  {
    if s != "" && !IsAlnum(s[0]) then SkipOthers(s[1..]) else s
  }

  /** Replace every run of characters outside a-z and 0-9 by one underscore. */
  function ReplaceRuns(s: string): string
    decreases |s|
  {
    if s == "" then ""
    else if IsAlnum(s[0]) then [s[0]] + ReplaceRuns(s[1..])
    else ['_'] + ReplaceRuns(SkipOthers(s[1..]))
  }

  function TrimUnderscoreLeft(s: string): string {
    if s != "" && s[0] == '_' then TrimUnderscoreLeft(s[1..]) else s
  }

  function TrimUnderscoreRight(s: string): string {
    if s != "" && s[|s| - 1] == '_' then TrimUnderscoreRight(s[..|s| - 1]) else s
  }

  /** normalizeTopdownName. */
  function NormalizeName(raw: string): string {
    TrimUnderscoreRight(TrimUnderscoreLeft(ReplaceRuns(LowerAll(TrimSpace(raw)))))
  }

  /** Letters a-z, digits, and single underscores between them. */
  predicate IsSnake(s: string) {
    && (forall i :: 0 <= i < |s| ==> IsAlnum(s[i]) || s[i] == '_')
    && (forall i :: 0 <= i < |s| - 1 ==> !(s[i] == '_' && s[i + 1] == '_'))
  }

  predicate IsNormalName(s: string) {
    IsSnake(s) && (s != "" ==> s[0] != '_' && s[|s| - 1] != '_')
  }

  lemma {:induction false} ReplaceRunsIsSnake(s: string)
    ensures IsSnake(ReplaceRuns(s))
    ensures s != "" && IsAlnum(s[0]) ==> ReplaceRuns(s) != "" && ReplaceRuns(s)[0] == s[0]
    decreases |s|
  {
    if s != "" {
      if IsAlnum(s[0]) {
        ReplaceRunsIsSnake(s[1..]);
      } else {
        ReplaceRunsIsSnake(SkipOthers(s[1..]));
        if SkipOthers(s[1..]) == "" {
          assert ReplaceRuns("") == "";
        }
      }
    }
  }

  lemma {:induction false} TrimLeftIsSnake(s: string)
    requires IsSnake(s)
    ensures var t := TrimUnderscoreLeft(s); IsSnake(t) && (t == "" || t[0] != '_')
  {
    if s != "" && s[0] == '_' {
      assert forall i :: 0 <= i < |s| - 1 ==> s[1..][i] == s[i + 1];
      TrimLeftIsSnake(s[1..]);
    }
  }

  lemma {:induction false} TrimRightIsSnake(s: string)
    requires IsSnake(s) && (s == "" || s[0] != '_')
    ensures IsNormalName(TrimUnderscoreRight(s))
  {
    if s != "" && s[|s| - 1] == '_' {
      TrimRightIsSnake(s[..|s| - 1]);
    }
  }

  /** MAIN: a normalised name never holds a '.', so it can be a path segment. */
  lemma {:induction false} NormalizedIsNormal(raw: string)
    ensures IsNormalName(NormalizeName(raw))
    ensures '.' !in NormalizeName(raw)
  {
    var replaced := ReplaceRuns(LowerAll(TrimSpace(raw)));
    ReplaceRunsIsSnake(LowerAll(TrimSpace(raw)));
    TrimLeftIsSnake(replaced);
    TrimRightIsSnake(TrimUnderscoreLeft(replaced));
  }

  lemma {:induction false} ReplaceRunsFixed(s: string)
    requires IsSnake(s) && (s == "" || s[|s| - 1] != '_')
    ensures ReplaceRuns(s) == s
    decreases |s|
  {
    if s != "" {
      assert forall i :: 0 <= i < |s| - 1 ==> s[1..][i] == s[i + 1];
      ReplaceRunsFixed(s[1..]);
      if s[0] == '_' {
        assert SkipOthers(s[1..]) == s[1..];
      }
      assert s == [s[0]] + s[1..];
    }
  }

  /** MAIN: normalising is the identity on normal names, hence idempotent. */
  lemma {:induction false} NormalNameIsFixed(s: string)
    requires IsNormalName(s)
    ensures NormalizeName(s) == s
  {
    hide TrimSpace, ReplaceRuns;
    NormalNameIsTrimmed(s);
    assert LowerAll(s) == s;
    ReplaceRunsFixed(s);
  }

  lemma {:induction false} NormalNameIsTrimmed(s: string)
    requires IsNormalName(s)
    ensures TrimSpace(s) == s
    ensures s != "" ==> !IsSpace(s[0]) && !IsSpace(s[|s| - 1])
  {
    if s != "" {
      assert IsAlnum(s[0]) && IsAlnum(s[|s| - 1]);
    }
    TrimSpaceId(s);
  }

  lemma {:induction false} NormalizeIdempotent(raw: string)
    ensures NormalizeName(NormalizeName(raw)) == NormalizeName(raw)
  {
    NormalizedIsNormal(raw);
    NormalNameIsFixed(NormalizeName(raw));
  }

  // ---------- what a name becomes ----------

  /** Letters and digits; the Kelvin sign and the dotted capital I have ASCII lower cases. */
  predicate IsWordChar(c: char) {
    'a' <= c <= 'z' || 'A' <= c <= 'Z' || '0' <= c <= '9' || c == '\U{212A}' || c == '\U{0130}'
  }

  /** d is c in lower case. */
  predicate LowerCase(c: char, d: char) {
    if 'A' <= c <= 'Z' then d as int == c as int + 32
    else if c == '\U{212A}' then d == 'k'
    else if c == '\U{0130}' then d == 'i'
    else d == c
  }

  predicate IsWord(w: string) { w != "" && forall i :: 0 <= i < |w| ==> IsWordChar(w[i]) }

  predicate IsGap(g: string) { forall i :: 0 <= i < |g| ==> !IsWordChar(g[i]) }

  ghost predicate LowerWord(w: string, v: string) {
    |w| == |v| && forall i :: 0 <= i < |w| ==> LowerCase(w[i], v[i])
  }

  /** The words with the gaps before, between and behind them. */
  function Woven(words: seq<string>, gaps: seq<string>): string
    requires |gaps| == |words| + 1
  {
    if words == [] then gaps[0] else gaps[0] + words[0] + Woven(words[1..], gaps[1..])
  }

  /** Words with gaps between them; the outer gaps may be empty. */
  ghost predicate WellWoven(words: seq<string>, gaps: seq<string>) {
    && |gaps| == |words| + 1
    && (forall i :: 0 <= i < |words| ==> IsWord(words[i]))
    && (forall i :: 0 <= i < |gaps| ==> IsGap(gaps[i]))
    && (forall i :: 0 < i < |words| ==> gaps[i] != "")
  }

  ghost predicate LowerWords(words: seq<string>, lowered: seq<string>) {
    |words| == |lowered| && forall i :: 0 <= i < |words| ==> LowerWord(words[i], lowered[i])
  }

  lemma {:induction false} WordCharsStay(c: char)
    ensures IsWordChar(c) <==> IsAlnum(Lower(c))
    ensures LowerCase(c, Lower(c))
    ensures IsWordChar(c) ==> !IsSpace(c)
  {
  }

  lemma {:induction false} LowerWordIs(w: string, v: string)
    requires IsWord(w) && LowerWord(w, v)
    ensures LowerAll(w) == v && v != "" && forall i :: 0 <= i < |v| ==> IsAlnum(v[i])
  {
    forall i | 0 <= i < |w| ensures LowerAll(w)[i] == v[i] && IsAlnum(v[i]) {
      WordCharsStay(w[i]);
    }
  }

  lemma {:induction false} LowerAllJoins(a: string, b: string)
    ensures LowerAll(a + b) == LowerAll(a) + LowerAll(b)
  {
  }

  lemma {:induction false} ReplaceWord(w: string, x: string)
    requires forall i :: 0 <= i < |w| ==> IsAlnum(w[i])
    ensures ReplaceRuns(w + x) == w + ReplaceRuns(x)
  {
    if w == "" {
      assert w + x == x;
    } else {
      assert (w + x)[1..] == w[1..] + x;
      ReplaceWord(w[1..], x);
      assert w == [w[0]] + w[1..];
    }
  }

  lemma {:induction false} SkipGap(g: string, x: string)
    requires forall i :: 0 <= i < |g| ==> !IsAlnum(g[i])
    requires x == "" || IsAlnum(x[0])
    ensures SkipOthers(g + x) == x
  {
    if g == "" {
      assert g + x == x;
    } else {
      assert (g + x)[1..] == g[1..] + x;
      SkipGap(g[1..], x);
    }
  }

  lemma {:induction false} ReplaceGap(g: string, x: string)
    requires forall i :: 0 <= i < |g| ==> !IsAlnum(g[i])
    requires x == "" || IsAlnum(x[0])
    ensures ReplaceRuns(g + x) == (if g == "" then "" else "_") + ReplaceRuns(x)
  {
    if g == "" {
      assert g + x == x;
    } else {
      assert (g + x)[1..] == g[1..] + x;
      SkipGap(g[1..], x);
    }
  }

  /** The lowered words with one underscore for every gap that is there. */
  function Underscored(lowered: seq<string>, gaps: seq<string>): string
    requires |gaps| == |lowered| + 1
  {
    (if gaps[0] == "" then "" else "_")
    + if lowered == [] then "" else lowered[0] + Underscored(lowered[1..], gaps[1..])
  }

  lemma {:induction false} WovenTail(words: seq<string>, gaps: seq<string>)
    requires WellWoven(words, gaps) && words != []
    ensures WellWoven(words[1..], gaps[1..])
    ensures |words| > 1 ==> gaps[1] != ""
  {
  }

  lemma {:induction false} GapLowered(g: string)
    requires IsGap(g)
    ensures forall i :: 0 <= i < |LowerAll(g)| ==> !IsAlnum(LowerAll(g)[i])
  {
    forall i | 0 <= i < |g| ensures !IsAlnum(LowerAll(g)[i]) {
      WordCharsStay(g[i]);
    }
  }

  lemma {:induction false} RunsReplaced(words: seq<string>, gaps: seq<string>, lowered: seq<string>)
    requires WellWoven(words, gaps) && LowerWords(words, lowered)
    ensures ReplaceRuns(LowerAll(Woven(words, gaps))) == Underscored(lowered, gaps)
  {
    hide ReplaceRuns, LowerAll, IsGap, IsWord, LowerWord;
    var g := gaps[0];
    GapLowered(g);
    if words == [] {
      ReplaceGap(LowerAll(g), "");
      assert LowerAll(g) + "" == LowerAll(g);
      NothingReplaced();
    } else {
      WovenTail(words, gaps);
      RunsReplaced(words[1..], gaps[1..], lowered[1..]);
      var w, rest := words[0], Woven(words[1..], gaps[1..]);
      LowerWordIs(w, lowered[0]);
      assert g + w + rest == g + (w + rest);
      LowerAllJoins(g, w + rest);
      LowerAllJoins(w, rest);
      ReplaceGap(LowerAll(g), lowered[0] + LowerAll(rest));
      ReplaceWord(lowered[0], LowerAll(rest));
    }
  }

  lemma {:induction false} NothingReplaced()
    ensures ReplaceRuns("") == ""
  {
  }

  /** Behind an empty first gap: the words joined by underscores, and one more for a last gap. */
  lemma {:induction false} UnderscoredIsJoin(words: seq<string>, gaps: seq<string>, lowered: seq<string>)
    requires WellWoven(words, gaps) && LowerWords(words, lowered) && words != []
    ensures Underscored(lowered, gaps) ==
            (if gaps[0] == "" then "" else "_") + Join(lowered, '_') + (if gaps[|words|] == "" then "" else "_")
  {
    hide IsGap, IsWord, LowerWord;
    WovenTail(words, gaps);
    if |words| == 1 {
      assert lowered[1..] == [] && Underscored([], gaps[1..]) == (if gaps[1] == "" then "" else "_") + "";
    } else {
      UnderscoredIsJoin(words[1..], gaps[1..], lowered[1..]);
      assert gaps[1..][|words| - 1] == gaps[|words|];
    }
  }

  lemma {:induction false} UnderscoresTrimmed(first: string, core: string, last: string)
    requires first in ["", "_"] && last in ["", "_"] && core != "" && core[0] != '_' && core[|core| - 1] != '_'
    ensures TrimUnderscoreRight(TrimUnderscoreLeft(first + core + last)) == core
  {
    var s := first + core + last;
    if first == "" {
      assert s == core + last;
    } else {
      assert s[1..] == core + last;
      assert TrimUnderscoreLeft(s) == TrimUnderscoreLeft(s[1..]);
    }
    assert TrimUnderscoreLeft(core + last) == core + last;
    if last == "" {
      assert core + last == core;
    } else {
      assert (core + last)[..|core + last| - 1] == core;
    }
  }

  /** Trimming white space leaves woven words woven. */
  lemma {:induction false} TrimmedIsWoven(words: seq<string>, gaps: seq<string>) returns (trimmed: seq<string>)
    requires WellWoven(words, gaps)
    ensures WellWoven(words, trimmed) && TrimSpace(Woven(words, gaps)) == Woven(words, trimmed)
  {
    hide WellWoven, Woven, TrimLeft, TrimRight;
    var first := OuterGap(words, gaps, 0, true);
    TrimLeftWoven(words, gaps);
    assert first == [TrimLeft(gaps[0])] + gaps[1..];
    trimmed := OuterGap(words, first, |words|, false);
    TrimRightWoven(words, first);
  }

  /** An outer gap may be trimmed. */
  lemma {:induction false} OuterGap(words: seq<string>, gaps: seq<string>, k: nat, left: bool)
    returns (changed: seq<string>)
    requires WellWoven(words, gaps) && (k == 0 || k == |words|)
    ensures |gaps| == |words| + 1 && k < |gaps|
    ensures changed == gaps[k := if left then TrimLeft(gaps[k]) else TrimRight(gaps[k])]
    ensures WellWoven(words, changed)
  {
    hide IsGap, IsWord, TrimLeft, TrimRight;
    var part := if left then TrimLeft(gaps[k]) else TrimRight(gaps[k]);
    GapPart(gaps[k], part);
    changed := gaps[k := part];
  }

  lemma {:induction false} GapPart(g: string, part: string)
    requires IsGap(g) && |part| <= |g| && (part == g[..|part|] || part == g[|g| - |part|..])
    ensures IsGap(part)
  {
    if part == g[..|part|] {
      forall i | 0 <= i < |part| ensures !IsWordChar(part[i]) {
        assert part[i] == g[i];
      }
    } else {
      forall i | 0 <= i < |part| ensures !IsWordChar(part[i]) {
        assert part[i] == g[|g| - |part| + i];
      }
    }
  }

  lemma {:induction false} TrimLeftWoven(words: seq<string>, gaps: seq<string>)
    requires WellWoven(words, gaps)
    ensures TrimLeft(Woven(words, gaps)) == Woven(words, [TrimLeft(gaps[0])] + gaps[1..])
  {
    hide TrimLeft, IsGap;
    if words != [] {
      WordCharsStay(words[0][0]);
      hide WellWoven, IsWord;
      var g, first := gaps[0], TrimLeft(gaps[0]);
      assert ([first] + gaps[1..])[1..] == gaps[1..];
      var rest := Woven(words[1..], gaps[1..]);
      TrimLeftBefore(g, words[0] + rest);
      assert g + words[0] + rest == g + (words[0] + rest);
      assert first + words[0] + rest == first + (words[0] + rest);
    }
  }

  lemma {:induction false} TrimLeftBefore(g: string, x: string)
    requires x != "" && !IsSpace(x[0])
    ensures TrimLeft(g + x) == TrimLeft(g) + x
  {
    if g == "" {
      assert g + x == x;
    } else {
      assert (g + x)[1..] == g[1..] + x;
      TrimLeftBefore(g[1..], x);
    }
  }

  lemma {:induction false} EndStays(x: string)
    requires x != "" && !IsSpace(x[|x| - 1])
    ensures TrimRight(x) == x
  {
  }

  lemma {:induction false} TrimRightWoven(words: seq<string>, gaps: seq<string>)
    requires WellWoven(words, gaps)
    ensures TrimRight(Woven(words, gaps)) == Woven(words, gaps[|words| := TrimRight(gaps[|words|])])
  {
    hide TrimRight, IsGap;
    var n := |words|;
    var changed := gaps[n := TrimRight(gaps[n])];
    if words != [] {
      WovenTail(words, gaps);
      TrimRightWoven(words[1..], gaps[1..]);
      assert changed[1..] == gaps[1..][n - 1 := TrimRight(gaps[1..][n - 1])];
      var head, rest := gaps[0] + words[0], Woven(words[1..], gaps[1..]);
      if TrimRight(rest) != "" {
        TrimRightKeeps(head, rest);
      } else {
        AllBlank(rest);
        TrimRightPadded(head, rest);
        WordCharsStay(words[0][|words[0]| - 1]);
        EndStays(head);
        assert head + "" == head;
      }
    }
  }

  lemma {:induction false} AllBlank(s: string)
    requires TrimRight(s) == ""
    ensures IsBlank(s)
  {
    if s != "" {
      AllBlank(s[..|s| - 1]);
      assert s == s[..|s| - 1] + [s[|s| - 1]];
    }
  }

  /** MAIN: of a name made of words and gaps, the words remain, in lower case, joined by single
      underscores. */
  lemma {:induction false} NameMeaning(words: seq<string>, gaps: seq<string>, lowered: seq<string>)
    requires WellWoven(words, gaps) && LowerWords(words, lowered)
    ensures NormalizeName(Woven(words, gaps)) == Join(lowered, '_')
  {
    hide ReplaceRuns, LowerAll, TrimSpace, Woven, Underscored, IsGap, TrimUnderscoreLeft, TrimUnderscoreRight, Join;
    var trimmed := TrimmedIsWoven(words, gaps);
    RunsReplaced(words, trimmed, lowered);
    if words == [] {
      NothingLeft(lowered, trimmed);
    } else {
      UnderscoredIsJoin(words, trimmed, lowered);
      forall i | 0 <= i < |lowered|
        ensures lowered[i] != "" && lowered[i][0] != '_' && lowered[i][|lowered[i]| - 1] != '_'
      {
        LowerWordIs(words[i], lowered[i]);
      }
      JoinEnds(lowered, '_');
      UnderscoresTrimmed(
        if trimmed[0] == "" then "" else "_", Join(lowered, '_'), if trimmed[|words|] == "" then "" else "_");
    }
  }

  lemma {:induction false} NothingLeft(lowered: seq<string>, gaps: seq<string>)
    requires lowered == [] && |gaps| == 1
    ensures TrimUnderscoreRight(TrimUnderscoreLeft(Underscored(lowered, gaps))) == "" == Join(lowered, '_')
  {
    assert TrimUnderscoreLeft("") == "" && "_"[1..] == "" && TrimUnderscoreLeft("_") == TrimUnderscoreLeft("_"[1..]);
    assert "_" + "" == "_" && "" + "" == "";
  }

  /** The raw name is made of at least one word, and the name is its words in lower case,
      joined by underscores. */
  ghost predicate Stands(raw: string, name: string) {
    exists words, gaps, lowered ::
      && WellWoven(words, gaps) && words != [] && LowerWords(words, lowered)
      && raw == Woven(words, gaps) && name == Join(lowered, '_')
  }

  lemma {:induction false} StandsIsRead(raw: string, name: string)
    requires Stands(raw, name)
    ensures NormalizeName(TrimSpace(raw)) == name && name != "" && IsNormalName(name)
  {
    hide TrimSpace, Woven, Join, IsWord, IsGap, LowerWord, IsNormalName;
    var words, gaps, lowered :|
      && WellWoven(words, gaps) && words != [] && LowerWords(words, lowered)
      && raw == Woven(words, gaps) && name == Join(lowered, '_');
    var trimmed := TrimmedIsWoven(words, gaps);
    NameMeaning(words, trimmed, lowered);
    NormalizedIsNormal(TrimSpace(raw));
    JoinIsThere(words, lowered);
  }

  lemma {:induction false} JoinIsThere(words: seq<string>, lowered: seq<string>)
    requires words != [] && LowerWords(words, lowered) && forall i :: 0 <= i < |words| ==> IsWord(words[i])
    ensures Join(lowered, '_') != ""
  {
    LowerWordIs(words[0], lowered[0]);
  }

  /** A normal name stands for itself. */
  lemma {:induction false} NormalStands(name: string)
    requires IsNormalName(name) && name != ""
    ensures Stands(name, name)
  {
    var words, gaps := NormalWoven(name);
    assert LowerWords(words, words) by {
      forall i, j | 0 <= i < |words| && 0 <= j < |words[i]| ensures LowerCase(words[i][j], words[i][j]) {
        assert IsAlnum(words[i][j]);
      }
    }
  }

  lemma {:induction false} NormalWoven(name: string) returns (words: seq<string>, gaps: seq<string>)
    requires IsNormalName(name) && name != ""
    ensures WellWoven(words, gaps) && words != [] && name == Woven(words, gaps) == Join(words, '_')
    ensures forall i, j :: 0 <= i < |words| && 0 <= j < |words[i]| ==> IsAlnum(words[i][j])
    decreases |name|
  {
    CutMeaning(name, '_');
    if '_' !in name {
      words, gaps := [name], ["", ""];
      assert words[1..] == [] && gaps[1..] == [""] && "" + name + "" == name;
    } else {
      var (first, rest) := Cut(name, '_').value;
      NormalParts(first, rest);
      hide WellWoven, Woven, Join, IsNormalName;
      var words', gaps' := NormalWoven(rest);
      words, gaps := [first] + words', ["", "_" + gaps'[0]] + gaps'[1..];
      WovenShift(first, rest, words', gaps');
    }
  }

  /** A normal name cut at its first underscore: a word and a normal name. */
  lemma {:induction false} NormalParts(first: string, rest: string)
    requires IsNormalName(first + ['_'] + rest) && '_' !in first
    ensures IsWord(first) && (forall i :: 0 <= i < |first| ==> IsAlnum(first[i])) && rest != "" && IsNormalName(rest)
  {
    var name := first + ['_'] + rest;
    var n := |first|;
    assert name[n] == '_' && name[0] != '_' && name[|name| - 1] != '_';
    forall i | 0 <= i < n ensures IsAlnum(first[i]) {
      assert name[i] == first[i] && first[i] in first;
    }
    forall i | 0 <= i < |rest| ensures rest[i] == name[n + 1 + i] {
    }
  }

  lemma {:induction false} WovenShift(first: string, rest: string, words: seq<string>, gaps: seq<string>)
    requires WellWoven(words, gaps) && words != [] && rest == Woven(words, gaps) == Join(words, '_') && IsWord(first)
    ensures var all := ["", "_" + gaps[0]] + gaps[1..];
            && WellWoven([first] + words, all)
            && Woven([first] + words, all) == first + ['_'] + rest == Join([first] + words, '_')
  {
    var all := ["", "_" + gaps[0]] + gaps[1..];
    assert ([first] + words)[1..] == words;
    assert all[1..] == ["_" + gaps[0]] + gaps[1..];
    assert all[1..][1..] == gaps[1..];
    assert Woven(words, all[1..]) == "_" + gaps[0] + words[0] + Woven(words[1..], gaps[1..]);
    assert "_" + gaps[0] + words[0] + Woven(words[1..], gaps[1..]) == "_" + rest;
    assert "" + first + ("_" + rest) == first + ['_'] + rest;
    assert IsGap("_" + gaps[0]);
    forall i | 0 <= i < |all| ensures IsGap(all[i]) {
      if i >= 2 {
        assert all[i] == gaps[i - 1];
      }
    }
  }

  // ---------- levels ----------

  const TEE := '\U{251C}'
  const CORNER := '\U{2514}'
  const BAR := '\U{2500}'

  predicate MarkerAt(s: string, i: nat) {
    i + 2 < |s| && (s[i] == TEE || s[i] == CORNER) && s[i + 1] == BAR && s[i + 2] == BAR
  }

  /** The last branch mark among the first n positions. */
  function LastMarker(s: string, n: nat): (r: Option<nat>)
    requires n <= |s|
    ensures r.Some? ==> r.value < n && MarkerAt(s, r.value)
    ensures forall i :: (if r.Some? then r.value + 1 else 0) <= i < n ==> !MarkerAt(s, i)
  {
    if n == 0 then None
    else if MarkerAt(s, n - 1) then Some(n - 1)
    else LastMarker(s, n - 1)
  }

  /** treeNameAndLevel: a row without a branch mark is at level 1; otherwise every four
      characters before the last mark stand for one more level. */
  function NameAndLevel(namePart: string): (r: (string, nat))
    ensures r.1 >= 1
  {
    var marker := LastMarker(namePart, |namePart|);
    if marker.None? then (TrimSpace(namePart), 1)
    else (TrimSpace(namePart[marker.value + 3..]), marker.value / 4 + 2)
  }

  /** How the CLI draws a row: two spaces at level 1; below that, 2 + 4 * (level - 2)
      characters of tree drawing, a branch mark, a space. */
  ghost predicate Draws(namePart: string, name: string, level: nat) {
    if level == 1 then namePart == "  " + name
    else
      exists prefix: string, mark: char ::
        && level >= 2 && |prefix| == 2 + 4 * (level - 2) && (mark == TEE || mark == CORNER)
        && namePart == prefix + [mark, BAR, BAR, ' '] + name
  }

  lemma {:induction false} LastMarkerIs(s: string, from: nat)
    requires from <= |s|
    requires forall i :: from <= i < |s| ==> s[i] != TEE && s[i] != CORNER
    ensures from > 0 && MarkerAt(s, from - 1) ==> LastMarker(s, |s|) == Some(from - 1)
    ensures from == 0 ==> LastMarker(s, |s|) == None
  {
    assert forall i :: from <= i < |s| ==> !MarkerAt(s, i);
  }

  /** MAIN: a drawn row gives back its name, without white space around it, and its level,
      whatever the drawing characters in front of its branch mark are. */
  lemma {:induction false} DrawnRowReadsBack(namePart: string, name: string, level: nat)
    requires TEE !in name && CORNER !in name && level >= 1 && Draws(namePart, name, level)
    ensures NameAndLevel(namePart) == (TrimSpace(name), level)
  {
    hide TrimSpace, LastMarker;
    AsciiSpaces('a');
    assert IsBlank("  ") && IsBlank(" ") && IsBlank("");
    TrimPadded("  ", name, "");
    TrimPadded(" ", name, "");
    assert "  " + name + "" == "  " + name && " " + name + "" == " " + name;
    if level == 1 {
      LastMarkerIs(namePart, 0);
    } else {
      var prefix: string, mark: char :|
        |prefix| == 2 + 4 * (level - 2) && (mark == TEE || mark == CORNER)
        && namePart == prefix + [mark, BAR, BAR, ' '] + name;
      BranchRow(prefix, mark, name);
    }
  }

  /** The characters of the tree drawing, and rows with them written out. */
  lemma {:induction false} DrawingWrittenOut(name: string)
    requires '\U{251C}' !in name && '\U{2514}' !in name
    ensures NameAndLevel("  " + name) == (TrimSpace(name), 1)
    ensures NameAndLevel("  " + ['\U{251C}', '\U{2500}', '\U{2500}', ' '] + name) == (TrimSpace(name), 2)
    ensures NameAndLevel("  \U{2502}   " + ['\U{2514}', '\U{2500}', '\U{2500}', ' '] + name) == (TrimSpace(name), 3)
  {
    hide NameAndLevel, TrimSpace;
    DrawnRowReadsBack("  " + name, name, 1);
    DrawnRowReadsBack("  " + [TEE, BAR, BAR, ' '] + name, name, 2);
    DrawnRowReadsBack("  \U{2502}   " + [CORNER, BAR, BAR, ' '] + name, name, 3);
  }

  lemma {:induction false} BranchRow(prefix: string, mark: char, name: string)
    requires TEE !in name && CORNER !in name && (mark == TEE || mark == CORNER)
    ensures var row := prefix + [mark, BAR, BAR, ' '] + name;
            LastMarker(row, |row|) == Some(|prefix|) && row[|prefix| + 3..] == " " + name
  {
    hide LastMarker;
    var row := prefix + [mark, BAR, BAR, ' '] + name;
    var n := |prefix|;
    assert row[n] == mark && row[n + 1] == BAR && row[n + 2] == BAR && row[n + 3] == ' ';
    forall i | n + 1 <= i < |row| ensures row[i] != TEE && row[i] != CORNER {
      if i >= n + 4 {
        assert row[i] == name[i - n - 4];
      }
    }
    LastMarkerIs(row, n + 1);
    assert row[n + 3..] == " " + name;
  }
}
