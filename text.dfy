/** The text primitives a table row goes through: the two regular-expression
    scans `\d+` and `\D+`, `str.strip()` and `int()` on a run of digits. */
module RowText {
  import opened Results

  /** `\d`, restricted to the ASCII digits. */
  predicate IsDigit(c: char) {
    '0' <= c <= '9'
  }

  /** The characters for which Python's `str.isspace()` holds; `str.strip()`
      with no argument removes exactly these. */
  predicate IsSpace(c: char) {
    c == ' ' || '\t' <= c <= '\r' || '\U{1c}' <= c <= '\U{1f}'
    || c == '\U{85}' || c == '\U{a0}' || c == '\U{1680}'
    || '\U{2000}' <= c <= '\U{200a}' || c == '\U{2028}' || c == '\U{2029}'
    || c == '\U{202f}' || c == '\U{205f}' || c == '\U{3000}'
  }

  /** A non-empty string whose characters are all digits or all non-digits. */
  predicate Uniform(r: string) {
    |r| > 0 && forall i :: 0 <= i < |r| ==> IsDigit(r[i]) == IsDigit(r[0])
  }

  predicate AllDigits(s: string) {
    forall i :: 0 <= i < |s| ==> IsDigit(s[i])
  }

  /** Whether a run is a run of digits. */
  predicate IsDigitRun(r: string) {
    |r| > 0 && IsDigit(r[0])
  }

  function Flatten(ss: seq<string>): string {
    if ss == [] then [] else ss[0] + Flatten(ss[1..])
  }

  /** Length of the longest prefix of `s` whose characters are digits exactly when `digit`. */
  function RunLength(s: string, digit: bool): (n: nat)
    ensures n <= |s|
    ensures forall i :: 0 <= i < n ==> IsDigit(s[i]) == digit
    ensures n < |s| ==> IsDigit(s[n]) != digit
  {
    if s == [] || IsDigit(s[0]) != digit then 0 else 1 + RunLength(s[1..], digit)
  }

  /** `s` cut, left to right, into maximal runs of digits and of non-digits. */
  function Runs(s: string): seq<string>
    decreases |s|
  {
    if s == [] then []
    else
      var n := RunLength(s, IsDigit(s[0]));
      [s[..n]] + Runs(s[n..])
  }

  lemma {:induction false} RunLengthOfRun(r: string, rest: string, digit: bool)
    requires forall i :: 0 <= i < |r| ==> IsDigit(r[i]) == digit
    requires rest == [] || IsDigit(rest[0]) != digit
    ensures RunLength(r + rest, digit) == |r|
  {
    if r == [] {
      assert r + rest == rest;
    } else {
      assert (r + rest)[1..] == r[1..] + rest;
      RunLengthOfRun(r[1..], rest, digit);
    }
  }

  /** Every run is non-empty and of one class. */
  lemma {:induction false} RunsUniform(s: string)
    ensures forall k :: 0 <= k < |Runs(s)| ==> Uniform(Runs(s)[k])
    decreases |s|
  {
    if s != [] {
      var n := RunLength(s, IsDigit(s[0]));
      RunsUniform(s[n..]);
    }
  }

  /** A maximal run at the front of a text is its first run. */
  lemma RunsCons(r: string, rest: string)
    requires Uniform(r)
    requires rest == [] || IsDigit(rest[0]) != IsDigit(r[0])
    ensures Runs(r + rest) == [r] + Runs(rest)
  {
    var s := r + rest;
    RunLengthOfRun(r, rest, IsDigit(r[0]));
    assert s[0] == r[0];
    assert s[..|r|] == r;
    assert s[|r|..] == rest;
  }

  /** The runs of one class, in order: `findall` of `\d+` (`digit`) or of `\D+` (`!digit`). */
  function Select(runs: seq<string>, digit: bool): seq<string> {
    if runs == [] then []
    else (if |runs[0]| > 0 && IsDigit(runs[0][0]) == digit then [runs[0]] else []) + Select(runs[1..], digit)
  }

  /** `DIGIT_RE.findall(s)`. */
  function DigitRuns(s: string): (r: seq<string>)
    ensures forall k :: 0 <= k < |r| ==> |r[k]| > 0 && AllDigits(r[k])
  {
    RunsUniform(s);
    SelectUniform(Runs(s), true);
    Select(Runs(s), true)
  }

  /** `NON_DIGIT_RE.findall(s)`. */
  function NonDigitRuns(s: string): seq<string> {
    Select(Runs(s), false)
  }

  /** What `findall` returns: non-empty runs of digits, and non-empty runs
      without a digit. */
  lemma RunsOfEachClass(s: string)
    ensures forall k :: 0 <= k < |DigitRuns(s)| ==> |DigitRuns(s)[k]| > 0 && AllDigits(DigitRuns(s)[k])
    ensures forall k :: 0 <= k < |NonDigitRuns(s)| ==>
      |NonDigitRuns(s)[k]| > 0 && forall i :: 0 <= i < |NonDigitRuns(s)[k]| ==> !IsDigit(NonDigitRuns(s)[k][i])
  {
    RunsUniform(s);
    SelectUniform(Runs(s), true);
    SelectUniform(Runs(s), false);
  }

  lemma {:induction false} SelectUniform(runs: seq<string>, digit: bool)
    requires forall k :: 0 <= k < |runs| ==> Uniform(runs[k])
    ensures forall k :: 0 <= k < |Select(runs, digit)| ==>
      Uniform(Select(runs, digit)[k]) && IsDigit(Select(runs, digit)[k][0]) == digit
  {
    if runs != [] {
      SelectUniform(runs[1..], digit);
    }
  }

  /** The runs put back together give the text, and no two neighbouring runs
      are of the same class, so every run is maximal. */
  lemma {:induction false} RunsPartition(s: string)
    ensures Flatten(Runs(s)) == s
    ensures forall k :: 0 <= k < |Runs(s)| ==> Uniform(Runs(s)[k])
    ensures forall k :: 0 <= k < |Runs(s)| - 1 ==> IsDigitRun(Runs(s)[k]) != IsDigitRun(Runs(s)[k + 1])
    decreases |s|
  {
    RunsUniform(s);
    if s != [] {
      var n := RunLength(s, IsDigit(s[0]));
      RunsPartition(s[n..]);
      assert s == s[..n] + s[n..];
      if s[n..] != [] {
        assert Runs(s[n..])[0] == s[n..][..RunLength(s[n..], IsDigit(s[n..][0]))];
      }
    }
  }

  /** The characters of `s` that are digits (`keep`) or non-digits (`!keep`), in order. */
  function Only(s: string, keep: bool): string {
    if s == [] then [] else (if IsDigit(s[0]) == keep then [s[0]] else []) + Only(s[1..], keep)
  }

  lemma {:induction false} OnlyAppend(a: string, b: string, keep: bool)
    ensures Only(a + b, keep) == Only(a, keep) + Only(b, keep)
  {
    if a == [] {
      assert a + b == b;
    } else {
      var head := if IsDigit(a[0]) == keep then [a[0]] else [];
      assert (a + b)[0] == a[0];
      assert (a + b)[1..] == a[1..] + b;
      OnlyAppend(a[1..], b, keep);
      calc {
        Only(a + b, keep);
        head + Only(a[1..] + b, keep);
        head + (Only(a[1..], keep) + Only(b, keep));
        (head + Only(a[1..], keep)) + Only(b, keep);
      }
    }
  }

  lemma {:induction false} OnlyUniform(r: string, keep: bool)
    requires Uniform(r)
    ensures Only(r, keep) == if IsDigit(r[0]) == keep then r else []
  {
    if |r| > 1 {
      assert Uniform(r[1..]);
      OnlyUniform(r[1..], keep);
    }
  }

  lemma {:induction false} SelectOnly(runs: seq<string>, keep: bool)
    requires forall k :: 0 <= k < |runs| ==> Uniform(runs[k])
    ensures Flatten(Select(runs, keep)) == Only(Flatten(runs), keep)
  {
    if runs != [] {
      SelectOnly(runs[1..], keep);
      OnlyAppend(runs[0], Flatten(runs[1..]), keep);
      OnlyUniform(runs[0], keep);
      var head := if IsDigit(runs[0][0]) == keep then [runs[0]] else [];
      assert Select(runs, keep) == head + Select(runs[1..], keep);
      FlattenAppend(head, Select(runs[1..], keep));
    }
  }

  lemma {:induction false} FlattenAppend(a: seq<string>, b: seq<string>)
    ensures Flatten(a + b) == Flatten(a) + Flatten(b)
  {
    if a == [] {
      assert a + b == b;
    } else {
      assert (a + b)[1..] == a[1..] + b;
      FlattenAppend(a[1..], b);
    }
  }

  /** The digit runs hold every digit of the text and nothing else, in order;
      the non-digit runs hold every other character. */
  lemma RunsKeepEveryCharacter(s: string)
    ensures Flatten(DigitRuns(s)) == Only(s, true)
    ensures Flatten(NonDigitRuns(s)) == Only(s, false)
  {
    RunsPartition(s);
    RunsUniform(s);
    SelectOnly(Runs(s), true);
    SelectOnly(Runs(s), false);
  }

  /** The number of whitespace characters `s` starts with. */
  function LeadingSpaces(s: string): (n: nat)
    ensures n <= |s|
    ensures forall i :: 0 <= i < n ==> IsSpace(s[i])
    ensures n < |s| ==> !IsSpace(s[n])
  {
    if s != [] && IsSpace(s[0]) then 1 + LeadingSpaces(s[1..]) else 0
  }

  /** The number of whitespace characters `s` ends with. */
  function TrailingSpaces(s: string): (n: nat)
    ensures n <= |s|
    ensures forall i :: |s| - n <= i < |s| ==> IsSpace(s[i])
    ensures n < |s| ==> !IsSpace(s[|s| - 1 - n])
  {
    if s != [] && IsSpace(s[|s| - 1]) then 1 + TrailingSpaces(s[..|s| - 1]) else 0
  }

  /** `s.strip()`: `s` without its leading and trailing whitespace. */
  function Strip(s: string): string {
    var t := s[LeadingSpaces(s)..];
    t[..|t| - TrailingSpaces(t)]
  }

  /** Neither end of a stripped string is whitespace, and only whitespace was removed. */
  lemma StripEnds(s: string)
    ensures var r := Strip(s);
      r == [] || (!IsSpace(r[0]) && !IsSpace(r[|r| - 1]))
    ensures var lead := LeadingSpaces(s);
      lead + |Strip(s)| <= |s| && Strip(s) == s[lead..lead + |Strip(s)|]
      && (forall i :: 0 <= i < lead ==> IsSpace(s[i]))
      && (forall i :: lead + |Strip(s)| <= i < |s| ==> IsSpace(s[i]))
  {
    var lead := LeadingSpaces(s);
    var t := s[lead..];
    var trail := TrailingSpaces(t);
    var r := Strip(s);
    assert r == s[lead..lead + |r|];
    assert forall i :: lead + |r| <= i < |s| ==> s[i] == t[i - lead];
    if r != [] {
      assert r[0] == t[0];
      if trail < |t| {
        assert r[|r| - 1] == t[|t| - 1 - trail];
      }
    }
  }

  /** A string strips to nothing exactly when it is all whitespace. */
  lemma StripEmpty(s: string)
    ensures Strip(s) == [] <==> forall i :: 0 <= i < |s| ==> IsSpace(s[i])
  {
    StripEnds(s);
  }

  /** Stripping twice is stripping once. */
  lemma StripIdempotent(s: string)
    ensures Strip(Strip(s)) == Strip(s)
  {
    StripEnds(s);
    var r := Strip(s);
    if r != [] {
      assert LeadingSpaces(r) == 0;
      assert TrailingSpaces(r) == 0;
    }
  }

  function DigitValue(c: char): (d: nat)
    requires IsDigit(c)
    ensures d < 10
  {
    (c as int) - ('0' as int)
  }

  /** `int(s)` on a run of ASCII digits, leading zeros allowed. */
  function DecimalValue(s: string): nat
    requires AllDigits(s)
  {
    if s == [] then 0 else 10 * DecimalValue(s[..|s| - 1]) + DigitValue(s[|s| - 1])
  }

  /** CPython's default `sys.get_int_max_str_digits()` (Python 3.11 and
      later): `int()` refuses a decimal string with more digits than this. */
  const IntMaxStrDigits: nat := 4300

  /** `int(s)` on a run of ASCII digits: its value, or `None` where `int()`
      raises `ValueError` because the run is longer than the limit. */
  function IntOf(s: string): (r: Option<nat>)
    requires AllDigits(s)
    ensures r.None? <==> |s| > IntMaxStrDigits
  {
    if |s| > IntMaxStrDigits then None else Some(DecimalValue(s))
  }

  function Pow10(k: nat): (p: nat)
    ensures p > 0
  {
    if k == 0 then 1 else 10 * Pow10(k - 1)
  }

  /** The decimal numeral of `n`, without leading zeros. */
  function Numeral(n: nat): (s: string)
    ensures |s| > 0 && AllDigits(s)
  {
    var c := ('0' as int + n % 10) as char;
    if n < 10 then [c] else Numeral(n / 10) + [c]
  }

  /** `int(str(n)) == n`: `DecimalValue` reads back every numeral. */
  lemma {:induction false} DecimalValueOfNumeral(n: nat)
    ensures DecimalValue(Numeral(n)) == n
  {
    var c := ('0' as int + n % 10) as char;
    if n >= 10 {
      DecimalValueOfNumeral(n / 10);
      assert (Numeral(n / 10) + [c])[..|Numeral(n)| - 1] == Numeral(n / 10);
    }
  }

  /** A numeral has at most `k` digits exactly when `n < 10^k` (for `k >= 1`). */
  lemma {:induction false} NumeralLength(n: nat, k: nat)
    requires k >= 1
    ensures |Numeral(n)| <= k <==> n < Pow10(k)
  {
    if n >= 10 {
      assert |Numeral(n)| == |Numeral(n / 10)| + 1;
      if k > 1 {
        NumeralLength(n / 10, k - 1);
      }
    }
  }

  /** `int(str(n)) == n` for every `n` below `10^4300`; for larger `n`,
      `int()` raises `ValueError`. */
  lemma IntOfNumeral(n: nat)
    ensures n < Pow10(IntMaxStrDigits) ==> IntOf(Numeral(n)) == Some(n)
    ensures n >= Pow10(IntMaxStrDigits) ==> IntOf(Numeral(n)) == None
  {
    NumeralLength(n, IntMaxStrDigits);
    DecimalValueOfNumeral(n);
  }
}
