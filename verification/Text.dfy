/** Text operations of the Go standard library that the modelled code relies on:
    splitting, joining, trimming, and reading and printing numbers.  A string is a
    sequence of characters (Go runes). */
module Text {

  datatype Option<+T> = None | Some(value: T)

  // ---------- splitting and joining ----------

  /** strings.Split on a one-character separator. */
  function Split(s: string, sep: char): (parts: seq<string>)
    ensures |parts| >= 1
    ensures forall i :: 0 <= i < |parts| ==> sep !in parts[i]
  {
    if s == "" then [""]
    else
      var rest := Split(s[1..], sep);
      if s[0] == sep then [""] + rest else [[s[0]] + rest[0]] + rest[1..]
  }

  /** strings.Join with a one-character separator. */
  function Join(parts: seq<string>, sep: char): string {
    if |parts| == 0 then ""
    else if |parts| == 1 then parts[0]
    else parts[0] + [sep] + Join(parts[1..], sep)
  }

  lemma {:induction false} JoinOne(a: string, sep: char)
    ensures Join([a], sep) == a
  {
  }

  lemma {:induction false} JoinTwo(a: string, b: string, sep: char)
    ensures Join([a, b], sep) == a + [sep] + b
  {
    assert [a, b][1..] == [b];
  }

  /** strings.Count of a one-character substring. */
  function Count(s: string, c: char): nat {
    if s == "" then 0 else (if s[0] == c then 1 else 0) + Count(s[1..], c)
  }

  lemma {:induction false} JoinSplit(s: string, sep: char)
    ensures Join(Split(s, sep), sep) == s
  {
    if s != "" {
      JoinSplit(s[1..], sep);
      var rest := Split(s[1..], sep);
      if s[0] == sep {
        assert ([""] + rest)[1..] == rest;
      } else {
        var parts := [[s[0]] + rest[0]] + rest[1..];
        if |rest| > 1 {
          assert parts[1..] == rest[1..];
          assert Join(parts, sep) == [s[0]] + Join(rest, sep);
        }
      }
    }
  }

  lemma {:induction false} SplitPrefix(p: string, rest: string, sep: char)
    requires sep !in p
    ensures Split(p, sep) == [p]
    ensures Split(p + [sep] + rest, sep) == [p] + Split(rest, sep)
  {
    var whole := p + [sep] + rest;
    if p == "" {
      assert whole[1..] == rest;
    } else {
      SplitPrefix(p[1..], rest, sep);
      assert whole[1..] == p[1..] + [sep] + rest;
      assert [p[0]] + p[1..] == p;
    }
  }

  lemma {:induction false} SplitJoin(parts: seq<string>, sep: char)
    requires |parts| >= 1
    requires forall i :: 0 <= i < |parts| ==> sep !in parts[i]
    ensures Split(Join(parts, sep), sep) == parts
  {
    if |parts| == 1 {
      SplitPrefix(parts[0], "", sep);
    } else {
      SplitJoin(parts[1..], sep);
      SplitPrefix(parts[0], Join(parts[1..], sep), sep);
    }
  }

  /** Joining is injective on non-empty lists of separator-free parts. */
  lemma {:induction false} JoinInjective(a: seq<string>, b: seq<string>, sep: char)
    requires |a| >= 1 && |b| >= 1
    requires forall i :: 0 <= i < |a| ==> sep !in a[i]
    requires forall i :: 0 <= i < |b| ==> sep !in b[i]
    requires Join(a, sep) == Join(b, sep)
    ensures a == b
  {
    SplitJoin(a, sep);
    SplitJoin(b, sep);
  }

  lemma {:induction false} SplitCount(s: string, sep: char)
    ensures |Split(s, sep)| == Count(s, sep) + 1
  {
    if s != "" {
      SplitCount(s[1..], sep);
    }
  }

  function TotalLength(parts: seq<string>): nat {
    if parts == [] then 0 else |parts[0]| + TotalLength(parts[1..])
  }

  lemma {:induction false} JoinLength(parts: seq<string>, sep: char)
    requires |parts| >= 1
    ensures |Join(parts, sep)| == TotalLength(parts) + |parts| - 1
  {
    if |parts| == 1 {
      assert parts[1..] == [];
    } else {
      JoinLength(parts[1..], sep);
    }
  }

  lemma {:induction false} JoinSnoc(parts: seq<string>, last: string, sep: char)
    requires |parts| >= 1
    ensures Join(parts + [last], sep) == Join(parts, sep) + [sep] + last
  {
    var all := parts + [last];
    if |parts| == 1 {
      assert all[1..] == [last];
    } else {
      JoinSnoc(parts[1..], last, sep);
      assert all[1..] == parts[1..] + [last];
    }
  }

  /** A joined text begins like its first part and ends like its last. */
  lemma {:induction false} JoinEnds(parts: seq<string>, sep: char)
    requires parts != [] && forall i :: 0 <= i < |parts| ==> parts[i] != ""
    ensures var s, last := Join(parts, sep), parts[|parts| - 1];
            s != "" && s[0] == parts[0][0] && s[|s| - 1] == last[|last| - 1]
  {
    if |parts| > 1 {
      JoinEnds(parts[1..], sep);
    }
  }

  /** Joining brings in no other character than the separator. */
  lemma {:induction false} JoinAdds(parts: seq<string>, sep: char, c: char)
    requires c != sep && forall i :: 0 <= i < |parts| ==> c !in parts[i]
    ensures c !in Join(parts, sep)
  {
    if |parts| > 1 {
      JoinAdds(parts[1..], sep, c);
    }
  }

  /** strings.Cut and strings.SplitN(_, _, 2): split at the first separator, if any. */
  function Cut(s: string, sep: char): Option<(string, string)> {
    if s == "" then None
    else if s[0] == sep then Some(("", s[1..]))
    else match Cut(s[1..], sep)
      case None => None
      case Some((before, after)) => Some(([s[0]] + before, after))
  }

  lemma {:induction false} CutJoined(before: string, after: string, sep: char)
    requires sep !in before
    ensures Cut(before + [sep] + after, sep) == Some((before, after))
  {
    var whole := before + [sep] + after;
    if before == "" {
      assert whole[1..] == after;
    } else {
      CutJoined(before[1..], after, sep);
      assert whole[1..] == before[1..] + [sep] + after;
      assert [before[0]] + before[1..] == before;
    }
  }

  /** Cut splits at the first separator, and fails exactly when there is none. */
  lemma {:induction false} CutMeaning(s: string, sep: char)
    ensures Cut(s, sep).None? <==> sep !in s
    ensures Cut(s, sep).Some? ==>
              s == Cut(s, sep).value.0 + [sep] + Cut(s, sep).value.1 && sep !in Cut(s, sep).value.0
  {
    if s != "" {
      CutMeaning(s[1..], sep);
      assert s == [s[0]] + s[1..];
    }
  }

  // ---------- white space ----------

  /** unicode.IsSpace. */
  predicate IsSpace(c: char) {
    || '\t' <= c <= '\r' || c == ' '
    || c == '\U{85}' || c == '\U{A0}' || c == '\U{1680}'
    || '\U{2000}' <= c <= '\U{200A}'
    || c == '\U{2028}' || c == '\U{2029}' || c == '\U{202F}'
    || c == '\U{205F}' || c == '\U{3000}'
  }

  function TrimLeft(s: string): (t: string)
    ensures t == "" || !IsSpace(t[0])
    ensures |t| <= |s| && t == s[|s| - |t|..]
  {
    if s != "" && IsSpace(s[0]) then TrimLeft(s[1..]) else s
  }

  function TrimRight(s: string): (t: string)
    ensures t == "" || !IsSpace(t[|t| - 1])
    ensures |t| <= |s| && t == s[..|t|]
  {
    if s != "" && IsSpace(s[|s| - 1]) then TrimRight(s[..|s| - 1]) else s
  }

  /** strings.TrimSpace. */
  function TrimSpace(s: string): (t: string)
    ensures t == "" || (!IsSpace(t[0]) && !IsSpace(t[|t| - 1]))
    ensures |t| <= |s|
    ensures forall c :: c in t ==> c in s
  {
    var l := TrimLeft(s);
    var t := TrimRight(l);
    assert t != "" ==> t[0] == l[0];
    t
  }

  lemma {:induction false} TrimSpaceId(s: string)
    requires s == "" || (!IsSpace(s[0]) && !IsSpace(s[|s| - 1]))
    ensures TrimSpace(s) == s
  {
  }

  predicate IsBlank(s: string) {
    forall i :: 0 <= i < |s| ==> IsSpace(s[i])
  }

  /** Blanks and line ends are white space; the other printable ASCII characters are not. */
  lemma {:induction false} AsciiSpaces(c: char)
    ensures IsBlank(" \t\n\r")
    ensures '!' <= c <= '~' ==> !IsSpace(c)
  {
  }

  lemma {:induction false} TrimLeftPadded(l: string, s: string)
    requires IsBlank(l)
    ensures TrimLeft(l + s) == TrimLeft(s)
  {
    if l == "" {
      assert l + s == s;
    } else {
      assert (l + s)[1..] == l[1..] + s;
      TrimLeftPadded(l[1..], s);
    }
  }

  lemma {:induction false} TrimRightPadded(s: string, r: string)
    requires IsBlank(r)
    ensures TrimRight(s + r) == TrimRight(s)
  {
    if r == "" {
      assert s + r == s;
    } else {
      assert (s + r)[..|s + r| - 1] == s + r[..|r| - 1];
      TrimRightPadded(s, r[..|r| - 1]);
    }
  }

  /** What follows a character that stays is left alone. */
  lemma {:induction false} TrimLeftKeeps(s: string, r: string)
    ensures TrimLeft(s) != "" ==> TrimLeft(s + r) == TrimLeft(s) + r
    ensures TrimLeft(s) == "" ==> IsBlank(s)
  {
    hide IsSpace;
    TrimLeftBlank(s);
    if s != "" {
      assert (s + r)[1..] == s[1..] + r && (s + r)[0] == s[0];
      if IsSpace(s[0]) {
        TrimLeftKeeps(s[1..], r);
      }
    }
  }

  lemma {:induction false} TrimLeftBlank(s: string)
    ensures TrimLeft(s) == "" ==> IsBlank(s)
  {
    hide IsSpace;
    if s != "" {
      TrimLeftBlank(s[1..]);
      assert s == [s[0]] + s[1..];
    }
  }

  lemma {:induction false} TrimRightKeeps(l: string, s: string)
    ensures TrimRight(s) != "" ==> TrimRight(l + s) == l + TrimRight(s)
  {
    if s != "" {
      assert (l + s)[..|l + s| - 1] == l + s[..|s| - 1];
      if IsSpace(s[|s| - 1]) {
        TrimRightKeeps(l, s[..|s| - 1]);
      }
    }
  }

  /** MAIN: white space around a text makes no difference to what trimming leaves. */
  lemma {:induction false} TrimPadded(l: string, s: string, r: string)
    requires IsBlank(l) && IsBlank(r)
    ensures TrimSpace(l + s + r) == TrimSpace(s)
  {
    hide TrimLeft, TrimRight;
    assert l + s + r == l + (s + r);
    TrimLeftPadded(l, s + r);
    TrimLeftKeeps(s, r);
    if TrimLeft(s) == "" {
      assert IsBlank(s + r);
      TrimLeftPadded(s + r, "");
      TrimLeftPadded(s, "");
      assert s + r + "" == s + r && s + "" == s;
    } else {
      TrimRightPadded(TrimLeft(s), r);
    }
  }

  predicate NoSpace(s: string) {
    forall i :: 0 <= i < |s| ==> !IsSpace(s[i])
  }

  // ---------- case ----------

  /** unicode.ToLower, as far as the callers can tell: the letters that end up in a-z.  Every
      other character stays outside a-z and 0-9 whatever its case. */
  function Lower(c: char): char {
    if 'A' <= c <= 'Z' then (c as int - 'A' as int + 'a' as int) as char
    else if c == '\U{212A}' then 'k'
    else if c == '\U{0130}' then 'i'
    else c
  }

  function LowerAll(s: string): (r: string)
    ensures |r| == |s|
    ensures forall i :: 0 <= i < |s| ==> r[i] == Lower(s[i])
  {
    seq(|s|, i requires 0 <= i < |s| => Lower(s[i]))
  }

  // ---------- numbers ----------

  /** The value of a digit character in base 16, or 16 for any other character. */
  function DigitValue(c: char): nat {
    if '0' <= c <= '9' then c as int - '0' as int
    else if 'a' <= c <= 'f' then c as int - 'a' as int + 10
    else if 'A' <= c <= 'F' then c as int - 'A' as int + 10
    else 16
  }

  /** The digit character for a value below 16, in lower case. */
  function DigitChar(d: nat): (c: char)
    requires d < 16
    ensures DigitValue(c) == d && !IsSpace(c)
    ensures d < 10 <==> '0' <= c <= '9'
    ensures d >= 10 <==> 'a' <= c <= 'f'
  {
    if d < 10 then ('0' as int + d) as char else ('a' as int + (d - 10)) as char
  }

  /** The two bases in use. */
  datatype Base = Decimal | Hex {
    const size: nat := if Decimal? then 10 else 16

    function Times(v: nat): nat { if Decimal? then v * 10 else v * 16 }

    function Quotient(n: nat): nat { if Decimal? then n / 10 else n / 16 }

    function Remainder(n: nat): (d: nat)
      ensures d < size
    {
      if Decimal? then n % 10 else n % 16
    }
  }

  predicate AllDigits(s: string, base: Base) {
    forall i :: 0 <= i < |s| ==> DigitValue(s[i]) < base.size
  }

  /** The number a digit string denotes, most significant digit first. */
  function Value(s: string, base: Base): nat
    requires AllDigits(s, base)
  {
    if s == "" then 0
    else base.Times(Value(s[..|s| - 1], base)) + DigitValue(s[|s| - 1])
  }

  function Power(base: Base, n: nat): nat {
    if n == 0 then 1 else base.Times(Power(base, n - 1))
  }

  /** The first digit counts for its place: the value read from the other end. */
  lemma {:induction false} ValueFromLeft(s: string, base: Base)
    requires s != "" && AllDigits(s, base)
    ensures Value(s, base) == DigitValue(s[0]) * Power(base, |s| - 1) + Value(s[1..], base)
  {
    var n := |s| - 1;
    if n == 0 {
      assert s[..0] == "" && s[1..] == "";
    } else {
      ValueFromLeft(s[..n], base);
      assert s[..n][1..] == s[1..][..n - 1] && s[1..][n - 1] == s[n];
      TimesDistributes(base, DigitValue(s[0]), Power(base, n - 1), Value(s[..n][1..], base));
    }
  }

  lemma {:induction false} TimesDistributes(base: Base, d: nat, p: nat, v: nat)
    ensures base.Times(d * p + v) == d * base.Times(p) + base.Times(v)
  {
  }

  /** The digits and some numerals, written out. */
  lemma {:induction false} Numerals()
    ensures forall i :: 0 <= i < 10 ==> DigitValue("0123456789"[i]) == i
    ensures forall i :: 0 <= i < 6 ==> DigitValue("abcdef"[i]) == 10 + i && DigitValue("ABCDEF"[i]) == 10 + i
    ensures Power(Decimal, 2) == 100 && Power(Hex, 2) == 256
  {
    assert Power(Decimal, 1) == 10 * Power(Decimal, 0);
    assert Power(Hex, 1) == 16 * Power(Hex, 0);
  }

  /** strconv.FormatUint in base 10 and big.Int.Text in base 16. */
  function Format(n: nat, base: Base): (s: string)
    ensures |s| >= 1 && AllDigits(s, base) && NoSpace(s)
    ensures forall i :: 0 <= i < |s| ==> '0' <= s[i] <= '9' || (base.Hex? && 'a' <= s[i] <= 'f')
    decreases n
  {
    if n < base.size then [DigitChar(n)]
    else Format(base.Quotient(n), base) + [DigitChar(base.Remainder(n))]
  }

  lemma {:induction false} ValueFormat(n: nat, base: Base)
    ensures Value(Format(n, base), base) == n
    decreases n
  {
    var s := Format(n, base);
    if n < base.size {
      assert s[..0] == "";
    } else {
      ValueFormat(base.Quotient(n), base);
      assert s[..|s| - 1] == Format(base.Quotient(n), base);
    }
  }

  lemma {:induction false} FormatInjective(m: nat, n: nat, base: Base)
    requires Format(m, base) == Format(n, base)
    ensures m == n
  {
    ValueFormat(m, base);
    ValueFormat(n, base);
  }

  /** Printing a number is never longer than any digit string that denotes it. */
  lemma {:induction false} FormatShortest(s: string, base: Base)
    requires |s| >= 1 && AllDigits(s, base)
    ensures |Format(Value(s, base), base)| <= |s|
  {
    if |s| == 1 {
      assert s[..0] == "";
    } else {
      FormatShortest(s[..|s| - 1], base);
    }
  }

  lemma {:induction false} FormatMonotone(m: nat, n: nat, base: Base)
    requires m <= n
    ensures |Format(m, base)| <= |Format(n, base)|
    decreases n
  {
    if m >= base.size {
      FormatMonotone(base.Quotient(m), base.Quotient(n), base);
    }
  }

  const MAX_INT64: int := 9223372036854775807
  const MIN_INT64: int := -9223372036854775808

  /** strconv.ParseInt(_, base, 64); in base 10 also strconv.Atoi. */
  function ParseInt(s: string, base: Base): (r: Option<int>)
    ensures r.Some? ==> MIN_INT64 <= r.value <= MAX_INT64
    ensures r.Some? && '-' !in s ==> r.value >= 0
  {
    var negative := s != "" && s[0] == '-';
    var digits := if s != "" && (s[0] == '-' || s[0] == '+') then s[1..] else s;
    if digits == "" || !AllDigits(digits, base) then None
    else
      var v: int := if negative then 0 - Value(digits, base) else Value(digits, base);
      if MIN_INT64 <= v <= MAX_INT64 then Some(v) else None
  }

  /** A non-empty string of decimal digits. */
  predicate IsNumeral(s: string) {
    s != "" && forall i :: 0 <= i < |s| ==> '0' <= s[i] <= '9'
  }

  lemma {:induction false} NumeralDigits(s: string)
    ensures IsNumeral(s) <==> s != "" && AllDigits(s, Decimal)
  {
  }

  /** The number a numeral denotes. */
  function Numeral(s: string): nat
    requires IsNumeral(s)
  {
    NumeralDigits(s);
    Value(s, Decimal)
  }

  /** The number a text spells: a numeral, after an optional plus sign, of a 64-bit value. */
  function Spelled(s: string): (n: Option<int>)
    ensures n.Some? ==> 0 <= n.value <= MAX_INT64
  {
    var digits := if s != "" && s[0] == '+' then s[1..] else s;
    if IsNumeral(digits) && Numeral(digits) <= MAX_INT64 then Some(Numeral(digits)) else None
  }

  /** MAIN: exactly the spelled numbers are read from a text without minus sign. */
  lemma {:induction false} ParseMeaning(s: string)
    requires '-' !in s
    ensures ParseInt(s, Decimal) == Spelled(s)
  {
    hide Value;
    NumeralDigits(if s != "" && s[0] == '+' then s[1..] else s);
  }

  lemma {:induction false} FormatSpells(n: nat)
    requires n <= MAX_INT64
    ensures Spelled(FormatInt(n)) == Some(n) && '-' !in FormatInt(n) && ',' !in FormatInt(n)
  {
    hide Value, Format;
    ValueFormat(n, Decimal);
    NumeralDigits(FormatInt(n));
  }

  /** strconv.Itoa and strconv.FormatInt(_, 10). */
  function FormatInt(n: int): (s: string)
    ensures |s| >= 1 && NoSpace(s)
    ensures forall i :: 0 <= i < |s| ==> '0' <= s[i] <= '9' || (i == 0 && n < 0 && s[i] == '-')
  {
    if n < 0 then "-" + Format(-n, Decimal) else Format(n, Decimal)
  }

  lemma {:induction false} ParseDigits(s: string, base: Base)
    requires |s| >= 1 && AllDigits(s, base)
    ensures Value(s, base) <= MAX_INT64 ==> ParseInt(s, base) == Some(Value(s, base))
    ensures Value(s, base) > MAX_INT64 ==> ParseInt(s, base) == None
    ensures 0 - Value(s, base) >= MIN_INT64 ==> ParseInt("-" + s, base) == Some(0 - Value(s, base))
  {
    hide Value;
    assert DigitValue(s[0]) < base.size;
    assert s[0] != '-' && s[0] != '+';
    assert ("-" + s)[1..] == s;
  }

  /** Every 64-bit integer reads back from its printed form. */
  lemma {:induction false} ParseFormatInt(n: int)
    requires MIN_INT64 <= n <= MAX_INT64
    ensures ParseInt(FormatInt(n), Decimal) == Some(n)
  {
    var m := if n < 0 then -n else n;
    ValueFormat(m, Decimal);
    ParseDigits(Format(m, Decimal), Decimal);
  }
}
