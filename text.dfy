/** The few string operations of Python that the bot relies on: decimal
    rendering of integers (f-strings), `int(...)` parsing of ASCII digits, `sep.join`,
    `str.split(sep)`, the `in` test on strings and ASCII `str.upper`. */
module Text {
  import opened Wrappers

  // ---------------------------------------------------------------------
  // Decimal digits
  // ---------------------------------------------------------------------

  predicate IsDigit(c: char) {
    '0' <= c <= '9'
  }

  predicate AllDigits(s: string) {
    forall i :: 0 <= i < |s| ==> IsDigit(s[i])
  }

  function DigitChar(d: nat): (c: char)
    requires d < 10
    ensures IsDigit(c) && c as int - '0' as int == d
  {
    (d + '0' as int) as char
  }

  function DigitValue(c: char): (d: nat)
    requires IsDigit(c)
    ensures d < 10
  {
    c as int - '0' as int
  }

  /** `str(n)` for a non-negative integer: most significant digit first, no
      leading zero. */
  function NatToDecimal(n: nat): (s: string)
    ensures |s| > 0 && AllDigits(s)
    ensures |s| > 1 ==> s[0] != '0'
  {
    if n < 10 then [DigitChar(n)] else NatToDecimal(n / 10) + [DigitChar(n % 10)]
  }

  /** The value of a string of decimal digits (the empty string is worth 0). */
  function DecimalValue(s: string): nat
    requires AllDigits(s)
  {
    if s == [] then 0 else DecimalValue(s[..|s| - 1]) * 10 + DigitValue(s[|s| - 1])
  }

  /** Reading back what `NatToDecimal` wrote gives the number again. */
  lemma {:induction false} DecimalRoundTrip(n: nat)
    ensures DecimalValue(NatToDecimal(n)) == n
  {
    var s := NatToDecimal(n);
    if n >= 10 {
      DecimalRoundTrip(n / 10);
      assert s[..|s| - 1] == NatToDecimal(n / 10);
    }
  }

  /** `f"{n}{unit}"`: a count followed by its unit. */
  function Counted(n: nat, unit: string): (r: string)
    ensures |r| == |NatToDecimal(n)| + |unit|
    ensures r[..|r| - |unit|] == NatToDecimal(n) && r[|r| - |unit|..] == unit
  {
    var r := NatToDecimal(n) + unit;
    assert r[..|r| - |unit|] == NatToDecimal(n) && r[|r| - |unit|..] == unit;
    r
  }

  /** `str(i)` for any integer. */
  function IntToText(i: int): (s: string)
    ensures |s| > 0
  {
    if i < 0 then "-" + NatToDecimal(-i) else NatToDecimal(i)
  }

  // ---------------------------------------------------------------------
  // Python int(text)
  // ---------------------------------------------------------------------

  /** The white space `int()` ignores around a number: the ASCII characters
      `\t` to `\r` and the space, and the non-ASCII characters Python's
      `str.isspace` accepts. The ASCII separators U+001C to U+001F count as
      `isspace` but are not stripped by `int()`. */
  predicate IsSpace(c: char) {
    || '\t' <= c <= '\r' || c == ' ' || c == '\U{0085}' || c == '\U{00A0}' || c == '\U{1680}'
    || '\U{2000}' <= c <= '\U{200A}' || c == '\U{2028}' || c == '\U{2029}' || c == '\U{202F}'
    || c == '\U{205F}' || c == '\U{3000}'
  }

  function StripLeft(s: string): (r: string)
    ensures |r| <= |s| && r == s[|s| - |r|..]
    ensures r == [] || !IsSpace(r[0])
  {
    if s != [] && IsSpace(s[0]) then StripLeft(s[1..]) else s
  }

  function StripRight(s: string): (r: string)
    ensures |r| <= |s| && r == s[..|r|]
    ensures r == [] || !IsSpace(r[|r| - 1])
  {
    if s != [] && IsSpace(s[|s| - 1]) then StripRight(s[..|s| - 1]) else s
  }

  function Strip(s: string): string {
    StripRight(StripLeft(s))
  }

  predicate DigitsOrUnderscores(s: string) {
    forall i :: 0 <= i < |s| ==> IsDigit(s[i]) || s[i] == '_'
  }

  /** The digits of a numeral as `int()` accepts it: digits and underscores,
      a digit at both ends, and no two underscores in a row (`1_000`). */
  predicate Numeral(s: string) {
    && |s| > 0 && IsDigit(s[0]) && IsDigit(s[|s| - 1]) && DigitsOrUnderscores(s)
    && forall i :: 0 < i < |s| ==> !DoubleUnderscore(s, i)
  }

  predicate DoubleUnderscore(s: string, i: nat)
    requires 0 < i < |s|
  {
    s[i - 1] == '_' && s[i] == '_'
  }

  /** The digits of a numeral with its underscores dropped. */
  function Ungrouped(s: string): (r: string)
    requires DigitsOrUnderscores(s)
    ensures AllDigits(r) && |r| <= |s|
  {
    if s == [] then []
    else Ungrouped(s[..|s| - 1]) + if s[|s| - 1] == '_' then [] else [s[|s| - 1]]
  }

  /** The value of a numeral, its underscores ignored. */
  function NumeralValue(s: string): nat
    requires Numeral(s)
  {
    DecimalValue(Ungrouped(s))
  }

  /** `int()` on text without surrounding white space: an optional sign, then
      a numeral. */
  function ParseSigned(t: string): (r: Option<int>)
    ensures r.Some? ==> |t| > 0 && IsDigit(t[|t| - 1])
    ensures r.Some? && t[0] == '-' ==> r.value <= 0
    ensures r.Some? && t[0] != '-' ==> r.value >= 0
  {
    if |t| > 0 && (t[0] == '-' || t[0] == '+') then
      if Numeral(t[1..]) then
        var v: int := NumeralValue(t[1..]);
        Some(if t[0] == '-' then -v else v)
      else None
    else if Numeral(t) then
      Some(NumeralValue(t))
    else None
  }

  /** Python's `int(text)` for base 10 on ASCII digits: white space around,
      then an optional sign, then a numeral; any other such text raises,
      modelled as `None`. Non-ASCII decimal digits are not modelled. */
  function ParseInt(text: string): (r: Option<int>)
    ensures r.Some? ==> |Strip(text)| > 0
  {
    ParseSigned(Strip(text))
  }

  /** A plain digit string has nothing to drop. */
  lemma {:induction false} UngroupedDigits(d: string)
    requires AllDigits(d)
    ensures Ungrouped(d) == d
  {
    if d != [] {
      var n := |d| - 1;
      UngroupedDigits(d[..n]);
      assert d[..n] + [d[n]] == d;
    }
  }

  /** Dropping underscores works piece by piece. */
  lemma {:induction false} UngroupedAppend(s: string, t: string)
    requires DigitsOrUnderscores(s) && DigitsOrUnderscores(t)
    ensures Ungrouped(s + t) == Ungrouped(s) + Ungrouped(t)
  {
    if t != [] {
      var n := |t| - 1;
      UngroupedAppend(s, t[..n]);
      assert (s + t)[..|s + t| - 1] == s + t[..n];
    } else {
      assert s + t == s;
    }
  }

  /** A non-empty digit string is a numeral worth its decimal value. */
  lemma DigitsNumeral(d: string)
    requires |d| > 0 && AllDigits(d)
    ensures Numeral(d) && Ungrouped(d) == d
  {
    UngroupedDigits(d);
  }

  /** The decimal text of a natural number is a numeral worth that number. */
  lemma NumeralRoundTrip(n: nat)
    ensures Numeral(NatToDecimal(n)) && NumeralValue(NatToDecimal(n)) == n
  {
    DigitsNumeral(NatToDecimal(n));
    DecimalRoundTrip(n);
  }

  /** Text that starts and ends with a non-space is left alone by `strip`. */
  lemma StripKeeps(s: string)
    requires |s| > 0 && !IsSpace(s[0]) && !IsSpace(s[|s| - 1])
    ensures Strip(s) == s
  {
    assert StripLeft(s) == s;
  }

  /** A numeral with nothing around it parses as its value. */
  lemma ParseNumeral(s: string)
    requires Numeral(s)
    ensures ParseInt(s) == Some(NumeralValue(s))
  {
    StripKeeps(s);
  }

  lemma StripSigned(d: string)
    requires Numeral(d)
    ensures Strip("-" + d) == "-" + d
  {
    var s := "-" + d;
    assert s[|s| - 1] == d[|d| - 1];
    StripKeeps(s);
  }

  /** A minus sign followed by a numeral parses as the negated value. */
  lemma ParseNegative(d: string)
    requires Numeral(d)
    ensures ParseInt("-" + d) == Some(0 - NumeralValue(d))
  {
    StripSigned(d);
    SignedNumeral(d);
  }

  /** Without surrounding white space, a minus sign followed by a numeral
      reads as the negated value. */
  lemma SignedNumeral(d: string)
    requires Numeral(d)
    ensures ParseSigned("-" + d) == Some(0 - NumeralValue(d))
  {
    var s := "-" + d;
    assert s[0] == '-' && s[1..] == d;
  }

  /** An underscore between two groups of digits is ignored: `int("1_000")`
      is `int("1000")`. */
  lemma GroupedDigits(a: string, b: string)
    requires |a| > 0 && AllDigits(a) && |b| > 0 && AllDigits(b)
    ensures ParseInt(a + "_" + b).Some? && ParseInt(a + "_" + b) == ParseInt(a + b)
  {
    GroupedValue(a, b);
    ParseNumeral(a + "_" + b);
    ParseNumeral(a + b);
  }

  /** Both spellings are numerals, and they are worth the same. */
  lemma GroupedValue(a: string, b: string)
    requires |a| > 0 && AllDigits(a) && |b| > 0 && AllDigits(b)
    ensures Numeral(a + "_" + b) && Numeral(a + b)
    ensures NumeralValue(a + "_" + b) == NumeralValue(a + b)
  {
    var s := a + "_" + b;
    GroupedNumeral(a, b);
    assert AllDigits(a + b);
    DigitsNumeral(a + b);
    assert Ungrouped(s) == a + b by {
      UngroupedAppend(a + "_", b);
      UngroupedAppend(a, "_");
      UngroupedDigits(a);
      UngroupedDigits(b);
    }
  }

  lemma GroupedNumeral(a: string, b: string)
    requires |a| > 0 && AllDigits(a) && |b| > 0 && AllDigits(b)
    ensures Numeral(a + "_" + b)
  {
    var s := a + "_" + b;
    assert s[|s| - 1] == b[|b| - 1];
    forall i | 0 < i < |s|
      ensures !DoubleUnderscore(s, i)
    {
      if s[i] == '_' {
        assert i == |a|;
      }
    }
  }

  /** `int(str(i)) == i` for every integer. */
  lemma ParseIntRoundTrip(i: int)
    ensures ParseInt(IntToText(i)) == Some(i)
  {
    var d := NatToDecimal(if i < 0 then -i else i);
    NumeralRoundTrip(if i < 0 then -i else i);
    if i < 0 {
      assert IntToText(i) == "-" + d;
      ParseNegative(d);
    } else {
      assert IntToText(i) == d;
      ParseNumeral(d);
    }
  }

  /** An ASCII information separator before a number is not stripped, so
      `int()` refuses the text. */
  lemma SeparatorNotStripped(d: string)
    requires Numeral(d)
    ensures ParseInt("\U{001C}" + d).None?
  {
    var t := "\U{001C}" + d;
    assert t[0] == '\U{001C}' && t[|t| - 1] == d[|d| - 1];
    StripKeeps(t);
    UnsignedRefused(t);
  }

  /** Text that starts with neither a sign nor a digit is no numeral. */
  lemma UnsignedRefused(t: string)
    requires |t| > 0 && t[0] != '-' && t[0] != '+' && !IsDigit(t[0])
    ensures ParseSigned(t).None?
  {
    assert !Numeral(t);
  }

  /** The decimal text of a count parses back to the count. */
  lemma DecimalParses(n: nat)
    ensures ParseInt(NatToDecimal(n)) == Some(n)
  {
    ParseIntRoundTrip(n);
  }

  /** An integer setting read from the environment:
      `int(os.environ.get(NAME, str(default)))`, and `default` when that raises. */
  function IntSetting(env: Option<string>, default: int): (r: int)
    ensures env.None? ==> r == default
    ensures env.Some? && ParseInt(env.value).None? ==> r == default
    ensures env.Some? && ParseInt(env.value).Some? ==> r == ParseInt(env.value).value
  {
    ParseIntRoundTrip(default);
    ParseInt(env.GetOr(IntToText(default))).GetOr(default)
  }

  /** A setting written as the decimal text of an integer reads back as that
      integer, whatever the default. */
  lemma IntSettingOfText(n: int, default: int)
    ensures IntSetting(Some(IntToText(n)), default) == n
  {
    ParseIntRoundTrip(n);
  }

  // ---------------------------------------------------------------------
  // Searching, joining and splitting
  // ---------------------------------------------------------------------

  /** `pat` occurs in `s` starting at index `j`. */
  predicate OccursAt(s: string, pat: string, j: nat) {
    j + |pat| <= |s| && s[j..j + |pat|] == pat
  }

  /** `s.find(pat)`: the first index at or after `from` where `pat` occurs. */
  function FindFrom(s: string, pat: string, from: nat): (r: Option<nat>)
    requires |pat| > 0
    ensures r.Some? ==> from <= r.value && OccursAt(s, pat, r.value)
    ensures r.Some? ==> forall j :: from <= j < r.value ==> !OccursAt(s, pat, j)
    ensures r.None? ==> forall j :: from <= j ==> !OccursAt(s, pat, j)
    decreases |s| - from
  {
    if from + |pat| > |s| then None
    else if OccursAt(s, pat, from) then Some(from)
    else FindFrom(s, pat, from + 1)
  }

  function Find(s: string, pat: string): (r: Option<nat>)
    requires |pat| > 0
  {
    FindFrom(s, pat, 0)
  }

  /** Python's `pat in s`. */
  predicate Contains(s: string, pat: string)
    requires |pat| > 0
  {
    Find(s, pat).Some?
  }

  lemma OccursThenContains(s: string, pat: string, j: nat)
    requires |pat| > 0 && OccursAt(s, pat, j)
    ensures Contains(s, pat)
  {
  }

  /** If `pat` starts with a character that `s` lacks before `k`, the first
      occurrence of `pat` in `s` is not before `k`. */
  lemma FindSkipsPrefix(s: string, pat: string, k: nat)
    requires |pat| > 0 && k <= |s|
    requires forall j :: 0 <= j < k ==> s[j] != pat[0]
    ensures Find(s, pat) == FindFrom(s, pat, k)
  {
    var j := 0;
    while j < k
      invariant j <= k
      invariant FindFrom(s, pat, 0) == FindFrom(s, pat, j)
    {
      assert !OccursAt(s, pat, j) by { assert s[j] != pat[0]; }
      j := j + 1;
    }
  }

  /** Python's `sep.join(parts)`. */
  function Join(parts: seq<string>, sep: string): string {
    if |parts| == 0 then ""
    else if |parts| == 1 then parts[0]
    else parts[0] + sep + Join(parts[1..], sep)
  }

  /** Python's `s.split(sep)` for a non-empty separator: the pieces between the
      non-overlapping occurrences of `sep`, left to right. */
  function Split(s: string, sep: string): (r: seq<string>)
    requires |sep| > 0
    ensures |r| > 0
    decreases |s|
  {
    match Find(s, sep)
    case None => [s]
    case Some(i) => [s[..i]] + Split(s[i + |sep|..], sep)
  }

  /** The first piece of a split is everything before the first separator. */
  lemma {:induction false} SplitHead(s: string, sep: string)
    requires |sep| > 0
    ensures Split(s, sep)[0] == if Contains(s, sep) then s[..Find(s, sep).value] else s
    ensures !Contains(s, sep) <==> Split(s, sep) == [s]
  {
  }

  predicate Lacks(s: string, c: char) {
    forall j :: 0 <= j < |s| ==> s[j] != c
  }

  lemma LacksConcat(a: string, b: string, c: char)
    requires Lacks(a, c) && Lacks(b, c)
    ensures Lacks(a + b, c)
  {
  }

  /** Splitting a single-character-separated join at that character gives the
      parts back, when no part holds the separator. */
  lemma {:induction false} SplitJoin(parts: seq<string>, c: char)
    requires |parts| > 0
    requires forall i :: 0 <= i < |parts| ==> Lacks(parts[i], c)
    ensures Split(Join(parts, [c]), [c]) == parts
  {
    var s := Join(parts, [c]);
    if |parts| == 1 {
      assert !Contains(s, [c]) by { FindSkipsPrefix(s, [c], |s|); }
    } else {
      var rest := Join(parts[1..], [c]);
      assert s == parts[0] + [c] + rest;
      FindSkipsPrefix(s, [c], |parts[0]|);
      assert OccursAt(s, [c], |parts[0]|);
      assert Find(s, [c]) == Some(|parts[0]|);
      assert s[..|parts[0]|] == parts[0];
      assert s[|parts[0]| + 1..] == rest;
      SplitJoin(parts[1..], c);
    }
  }

  // ---------------------------------------------------------------------
  // Case
  // ---------------------------------------------------------------------

  predicate IsLower(c: char) {
    'a' <= c <= 'z'
  }

  function UpperChar(c: char): (u: char)
    ensures !IsLower(u)
    ensures IsLower(c) ==> u as int == c as int - 32
    ensures !IsLower(c) ==> u == c
  {
    if IsLower(c) then (c as int - 32) as char else c
  }

  /** `s.upper()` on ASCII letters. */
  function Upper(s: string): (r: string)
    ensures |r| == |s|
    ensures forall i :: 0 <= i < |s| ==> r[i] == UpperChar(s[i])
  {
    seq(|s|, i requires 0 <= i < |s| => UpperChar(s[i]))
  }

  /** Upper-casing twice is upper-casing once, and leaves no lower-case letter. */
  lemma UpperIdempotent(s: string)
    ensures Upper(Upper(s)) == Upper(s)
    ensures forall i :: 0 <= i < |s| ==> !IsLower(Upper(s)[i])
  {
  }
}
