/** `extract_coords_and_chars`: each row's text becomes an `(x, y)` pair and a
    "char" token, or is skipped, or raises `IndexError`. */
module Extraction {
  import opened Results
  import opened RowText

  /** What a row stores as its "char": the Python string `" "`, or the list
      of its trimmed non-digit runs. */
  datatype Token = Text(s: string) | RunList(runs: seq<string>)

  /** The pair of parallel lists the function returns. */
  datatype Extracted = Extracted(coords: seq<(int, int)>, chars: seq<Token>)

  /** What one row contributes. */
  datatype RowResult = Skipped | Accepted(x: nat, y: nat, token: Token) | RaisesIndexError

  /** The index the source reads y from (`digits[21]`). */
  const SourceYIndex: nat := 21
  /** The index its docstring describes ("the first two numbers"). */
  const IntendedYIndex: nat := 1

  /** `[s.strip() for s in runs if s.strip()]`. */
  function TrimmedRuns(runs: seq<string>): seq<string> {
    if runs == [] then []
    else
      var t := Strip(runs[0]);
      (if t != [] then [t] else []) + TrimmedRuns(runs[1..])
  }

  /** Each kept run is non-blank and already stripped. */
  lemma {:induction false} TrimmedRunsShape(runs: seq<string>)
    ensures |TrimmedRuns(runs)| <= |runs|
    ensures forall k :: 0 <= k < |TrimmedRuns(runs)| ==>
      TrimmedRuns(runs)[k] != [] && Strip(TrimmedRuns(runs)[k]) == TrimmedRuns(runs)[k]
  {
    if runs != [] {
      TrimmedRunsShape(runs[1..]);
      var t := Strip(runs[0]);
      StripIdempotent(runs[0]);
      var head := if t != [] then [t] else [];
      assert TrimmedRuns(runs) == head + TrimmedRuns(runs[1..]);
      forall k | 0 <= k < |TrimmedRuns(runs)|
        ensures TrimmedRuns(runs)[k] != [] && Strip(TrimmedRuns(runs)[k]) == TrimmedRuns(runs)[k]
      {
        if k >= |head| {
          assert TrimmedRuns(runs)[k] == TrimmedRuns(runs[1..])[k - |head|];
        }
      }
    }
  }

  /** Line 121: the list of non-digit runs when there is one, else `" "`. */
  function TokenOf(text: string): Token {
    var nonDigits := TrimmedRuns(NonDigitRuns(text));
    if nonDigits == [] then Text(" ") else RunList(nonDigits)
  }

  /** The body of the loop for one row, reading y from digit run `yIndex`.
      The tuple is evaluated left to right: `int(digits[0])`, then the index,
      then `int(digits[yIndex])`; a `ValueError` from either `int()` skips the
      row. */
  function ParseRow(text: string, yIndex: nat): RowResult {
    if text == [] then Skipped
    else
      var digits := DigitRuns(text);
      if |digits| < 2 then Skipped
      else
        var x := IntOf(digits[0]);
        if x.None? then Skipped
        else if yIndex >= |digits| then RaisesIndexError
        else
          var y := IntOf(digits[yIndex]);
          if y.None? then Skipped
          else Accepted(x.value, y.value, TokenOf(text))
  }

  /** Every row's contribution, in order. */
  function Outcomes(rows: seq<string>, yIndex: nat): (r: seq<RowResult>)
    ensures |r| == |rows|
  {
    seq(|rows|, k requires 0 <= k < |rows| => ParseRow(rows[k], yIndex))
  }

  /** Appending the contributions: the accepted ones in order, or the first
      `IndexError`. */
  function Collect(results: seq<RowResult>): (r: Result<Extracted>)
    ensures r.Err? ==> r.error == IndexOutOfRange
    ensures r.Ok? ==> |r.value.coords| == |r.value.chars| <= |results|
    ensures r.Ok? ==> forall k :: 0 <= k < |r.value.coords| ==>
      r.value.coords[k].0 >= 0 && r.value.coords[k].1 >= 0
  {
    if results == [] then Ok(Extracted([], []))
    else
      match Collect(results[..|results| - 1])
      case Err(e) => Err(e)
      case Ok(acc) => Append(acc, results[|results| - 1])
  }

  /** One turn of the loop: append an accepted row's entry, pass over a
      skipped row, or raise. */
  function Append(acc: Extracted, row: RowResult): Result<Extracted> {
    match row
    case Skipped => Ok(acc)
    case RaisesIndexError => Err(IndexOutOfRange)
    case Accepted(x, y, t) => Ok(Extracted(acc.coords + [(x, y)], acc.chars + [t]))
  }

  /** What `extract_coords_and_chars(rows)` returns or raises. */
  function Extract(rows: seq<string>, yIndex: nat): (r: Result<Extracted>)
    ensures r.Err? ==> r.error == IndexOutOfRange
    ensures r.Ok? ==> |r.value.coords| == |r.value.chars| <= |rows|
    ensures r.Ok? ==> forall k :: 0 <= k < |r.value.coords| ==>
      r.value.coords[k].0 >= 0 && r.value.coords[k].1 >= 0
  {
    Collect(Outcomes(rows, yIndex))
  }

  /** The positions of the accepted contributions. */
  function AcceptedPositions(results: seq<RowResult>): (r: seq<nat>)
    ensures forall k :: 0 <= k < |r| ==> r[k] < |results| && results[r[k]].Accepted?
    ensures forall j, k :: 0 <= j < k < |r| ==> r[j] < r[k]
    ensures forall i :: 0 <= i < |results| && results[i].Accepted? ==> i in r
  {
    if results == [] then []
    else
      var n := |results| - 1;
      AcceptedPositions(results[..n]) + (if results[n].Accepted? then [n] else [])
  }

  /** The rows that contribute an entry, by position. */
  function AcceptedRows(rows: seq<string>, yIndex: nat): (r: seq<nat>)
    ensures forall k :: 0 <= k < |r| ==> r[k] < |rows| && ParseRow(rows[r[k]], yIndex).Accepted?
    ensures forall j, k :: 0 <= j < k < |r| ==> r[j] < r[k]
    ensures forall i :: 0 <= i < |rows| && ParseRow(rows[i], yIndex).Accepted? ==> i in r
  {
    AcceptedPositions(Outcomes(rows, yIndex))
  }

  /** With the source's index 21, a row of 2 to 21 digit runs whose first run
      `int()` accepts raises; a row of at least 22 runs takes its y from the
      22nd; the rest are skipped, among them those where `int()` raises
      `ValueError` on the first or the 22nd run. */
  lemma AsWrittenRowOutcome(text: string)
    ensures var d := DigitRuns(text);
      var n := |d|;
      (ParseRow(text, SourceYIndex).Skipped? <==>
        text == [] || n < 2 || |d[0]| > IntMaxStrDigits || (n >= 22 && |d[21]| > IntMaxStrDigits))
      && (ParseRow(text, SourceYIndex).RaisesIndexError? <==>
        text != [] && 2 <= n <= 21 && |d[0]| <= IntMaxStrDigits)
      && (ParseRow(text, SourceYIndex).Accepted? <==>
        n >= 22 && |d[0]| <= IntMaxStrDigits && |d[21]| <= IntMaxStrDigits)
  {
    if |DigitRuns(text)| > 0 {
      assert |text| > 0 by {
        RunsKeepEveryCharacter(text);
        assert DigitRuns(text)[0] != [];
        assert Flatten(DigitRuns(text)) != [];
        OnlyLength(text, true);
      }
    }
  }

  lemma {:induction false} OnlyLength(s: string, keep: bool)
    ensures |Only(s, keep)| <= |s|
  {
    if s != [] {
      OnlyLength(s[1..], keep);
    }
  }

  /** An accepted row's x is the first digit run's value and y that of run
      `yIndex`, both runs short enough for `int()`; its token is `" "` exactly
      when every non-digit run is blank, and otherwise lists the trimmed
      non-blank runs. */
  lemma AcceptedRow(text: string, yIndex: nat)
    requires ParseRow(text, yIndex).Accepted?
    ensures var p := ParseRow(text, yIndex);
      var digits := DigitRuns(text);
      yIndex < |digits|
      && |digits[0]| <= IntMaxStrDigits && |digits[yIndex]| <= IntMaxStrDigits
      && p.x == DecimalValue(digits[0]) && p.y == DecimalValue(digits[yIndex])
      && (p.token == Text(" ") || p.token.RunList?)
      && (p.token == Text(" ") <==>
          forall k :: 0 <= k < |NonDigitRuns(text)| ==> Strip(NonDigitRuns(text)[k]) == [])
      && (p.token.RunList? ==> p.token.runs != [] && p.token.runs == TrimmedRuns(NonDigitRuns(text)))
  {
    TrimmedEmpty(NonDigitRuns(text));
  }

  lemma {:induction false} TrimmedEmpty(runs: seq<string>)
    ensures TrimmedRuns(runs) == [] <==> forall k :: 0 <= k < |runs| ==> Strip(runs[k]) == []
  {
    if runs != [] {
      TrimmedEmpty(runs[1..]);
      assert forall k :: 1 <= k < |runs| ==> runs[k] == runs[1..][k - 1];
    }
  }

  lemma {:induction false} CollectOkIff(results: seq<RowResult>)
    ensures Collect(results).Ok? <==> forall k :: 0 <= k < |results| ==> !results[k].RaisesIndexError?
  {
    if results != [] {
      var n := |results| - 1;
      CollectOkIff(results[..n]);
      assert forall k :: 0 <= k < n ==> results[..n][k] == results[k];
    }
  }

  /** The loop raises exactly when some row has too few digit runs for `yIndex`. */
  lemma ExtractOkIff(rows: seq<string>, yIndex: nat)
    ensures Extract(rows, yIndex).Ok? <==>
      forall k :: 0 <= k < |rows| ==> !ParseRow(rows[k], yIndex).RaisesIndexError?
  {
    CollectOkIff(Outcomes(rows, yIndex));
    assert forall k :: 0 <= k < |rows| ==> Outcomes(rows, yIndex)[k] == ParseRow(rows[k], yIndex);
  }

  lemma {:induction false} CollectInOrder(results: seq<RowResult>)
    requires Collect(results).Ok?
    ensures var e := Collect(results).value;
      var idx := AcceptedPositions(results);
      |idx| == |e.coords|
      && forall j :: 0 <= j < |idx| ==>
        e.coords[j] == (results[idx[j]].x, results[idx[j]].y) && e.chars[j] == results[idx[j]].token
  {
    if results != [] {
      var n := |results| - 1;
      CollectInOrder(results[..n]);
      assert forall k :: 0 <= k < n ==> results[..n][k] == results[k];
    }
  }

  /** One entry per accepted row, in input order, holding that row's values. */
  lemma ExtractInOrder(rows: seq<string>, yIndex: nat)
    requires Extract(rows, yIndex).Ok?
    ensures var e := Extract(rows, yIndex).value;
      var idx := AcceptedRows(rows, yIndex);
      |idx| == |e.coords|
      && forall j :: 0 <= j < |idx| ==>
        var p := ParseRow(rows[idx[j]], yIndex);
        e.coords[j] == (p.x, p.y) && e.chars[j] == p.token
  {
    CollectInOrder(Outcomes(rows, yIndex));
  }

  lemma {:induction false} CollectSkips(pre: seq<RowResult>, post: seq<RowResult>)
    ensures Collect(pre + [Skipped] + post) == Collect(pre + post)
  {
    if post == [] {
      assert (pre + [Skipped] + post)[..|pre|] == pre;
      assert pre + post == pre;
    } else {
      var m := |post| - 1;
      CollectSkips(pre, post[..m]);
      assert (pre + [Skipped] + post)[..|pre| + 1 + m] == pre + [Skipped] + post[..m];
      assert (pre + post)[..|pre| + m] == pre + post[..m];
    }
  }

  /** A row that is skipped leaves the result as if it were not there, and
      does not stop the rows after it from being read. */
  lemma SkippedRowIgnored(pre: seq<string>, text: string, post: seq<string>, yIndex: nat)
    requires ParseRow(text, yIndex).Skipped?
    ensures Extract(pre + [text] + post, yIndex) == Extract(pre + post, yIndex)
  {
    var o, q := Outcomes(pre, yIndex), Outcomes(post, yIndex);
    OutcomesAppend(pre, [text], yIndex);
    OutcomesAppend(pre + [text], post, yIndex);
    OutcomesAppend(pre, post, yIndex);
    assert Outcomes([text], yIndex) == [Skipped];
    CollectSkips(o, q);
  }

  lemma OutcomesAppend(a: seq<string>, b: seq<string>, yIndex: nat)
    ensures Outcomes(a + b, yIndex) == Outcomes(a, yIndex) + Outcomes(b, yIndex)
  {
    var l, r := Outcomes(a + b, yIndex), Outcomes(a, yIndex) + Outcomes(b, yIndex);
    assert |l| == |r|;
    forall k | 0 <= k < |l|
      ensures l[k] == r[k]
    {
      if k < |a| {
        assert (a + b)[k] == a[k];
      } else {
        assert (a + b)[k] == b[k - |a|];
      }
    }
  }

  /** The loop of lines 102-124: rows are visited in order, each accepted row
      appends to both lists, and the first row that raises ends the loop. */
  method ExtractCoordsAndChars(rows: seq<string>, yIndex: nat) returns (r: Result<Extracted>)
    ensures r == Extract(rows, yIndex)
    ensures r.Ok? ==> |r.value.coords| == |r.value.chars| <= |rows|
  {
    var coords: seq<(int, int)> := [];
    var chars: seq<Token> := [];
    var i := 0;
    while i < |rows|
      invariant 0 <= i <= |rows|
      invariant Extract(rows[..i], yIndex) == Ok(Extracted(coords, chars))
    {
      ExtractStep(rows, i, yIndex);
      var text := rows[i];
      if text != [] {
        var digits := DigitRuns(text);
        if |digits| >= 2 {
          var x := IntOf(digits[0]);
          if x.Some? {
            if yIndex >= |digits| {
              assert Extract(rows[..i + 1], yIndex).Err?;
              ErrorPersists(rows, i + 1, |rows|, yIndex);
              assert rows[..|rows|] == rows;
              return Err(IndexOutOfRange);
            }
            var y := IntOf(digits[yIndex]);
            if y.Some? {
              var nonDigits := TrimmedRuns(NonDigitRuns(text));
              var ch := if nonDigits == [] then Text(" ") else RunList(nonDigits);
              assert ParseRow(text, yIndex) == Accepted(x.value, y.value, ch);
              coords := coords + [(x.value, y.value)];
              chars := chars + [ch];
            }
          }
        }
      }
      i := i + 1;
    }
    assert rows[..i] == rows;
    r := Ok(Extracted(coords, chars));
  }

  /** Reading one more row applies `Append` to what the rows before it gave. */
  lemma ExtractStep(rows: seq<string>, i: nat, yIndex: nat)
    requires i < |rows|
    ensures Extract(rows[..i + 1], yIndex) ==
      match Extract(rows[..i], yIndex)
      case Err(e) => Err(e)
      case Ok(acc) => Append(acc, ParseRow(rows[i], yIndex))
  {
    OutcomesStep(rows, i, yIndex);
  }

  lemma OutcomesStep(rows: seq<string>, i: nat, yIndex: nat)
    requires i < |rows|
    ensures Outcomes(rows[..i + 1], yIndex)[..i] == Outcomes(rows[..i], yIndex)
    ensures Outcomes(rows[..i + 1], yIndex)[i] == ParseRow(rows[i], yIndex)
  {
  }

  /** Once a prefix raises, every longer prefix raises. */
  lemma {:induction false} ErrorPersists(rows: seq<string>, i: nat, j: nat, yIndex: nat)
    requires i <= j <= |rows|
    requires Extract(rows[..i], yIndex).Err?
    ensures Extract(rows[..j], yIndex).Err?
    decreases j - i
  {
    if i < j {
      ExtractStep(rows, i, yIndex);
      ErrorPersists(rows, i + 1, j, yIndex);
    }
  }

  /** The example rows "X 0 0" and "Y 1 1": two short digit runs each, so they raise
      with the source's index and are accepted with index 1. */
  lemma TwoExampleRows()
    ensures ParseRow("X 0 0", SourceYIndex) == RaisesIndexError
    ensures ParseRow("Y 1 1", SourceYIndex) == RaisesIndexError
    ensures ParseRow("X 0 0", IntendedYIndex) == Accepted(0, 0, RunList(["X"]))
    ensures ParseRow("Y 1 1", IntendedYIndex) == Accepted(1, 1, RunList(["Y"]))
  {
    ExampleRow('X', '0');
    ExampleRow('Y', '1');
  }

  lemma ExampleRow(c: char, d: char)
    requires !IsDigit(c) && !IsSpace(c) && IsDigit(d)
    ensures var text := [c, ' ', d, ' ', d];
      ParseRow(text, SourceYIndex) == RaisesIndexError
      && ParseRow(text, IntendedYIndex) == Accepted(DigitValue(d), DigitValue(d), RunList([[c]]))
  {
    var text := [c, ' ', d, ' ', d];
    ExampleRuns(c, d);
    var runs := [[c, ' '], [d], [' '], [d]];
    ExampleSelect(c, d);
    ExampleStrip(c);
    assert TrimmedRuns([[c, ' '], [' ']]) == [[c]] by {
      assert [[c, ' '], [' ']][1..] == [[' ']];
      assert [[' ']][1..] == [];
    }
    assert DecimalValue([d]) == DigitValue(d) by {
      assert [d][..0] == [];
    }
  }

  lemma ExampleRuns(c: char, d: char)
    requires !IsDigit(c) && IsDigit(d)
    ensures Runs([c, ' ', d, ' ', d]) == [[c, ' '], [d], [' '], [d]]
  {
    ExampleRunsTail(d);
    RunsCons([c, ' '], [d, ' ', d]);
    assert [c, ' '] + [d, ' ', d] == [c, ' ', d, ' ', d];
  }

  lemma ExampleRunsTail(d: char)
    requires IsDigit(d)
    ensures Runs([d, ' ', d]) == [[d], [' '], [d]]
  {
    RunsCons([d], []);
    assert [d] + [] == [d];
    RunsCons([' '], [d]);
    assert [' '] + [d] == [' ', d];
    RunsCons([d], [' ', d]);
    assert [d] + [' ', d] == [d, ' ', d];
  }

  lemma ExampleSelect(c: char, d: char)
    requires !IsDigit(c) && IsDigit(d)
    ensures Select([[c, ' '], [d], [' '], [d]], true) == [[d], [d]]
    ensures Select([[c, ' '], [d], [' '], [d]], false) == [[c, ' '], [' ']]
  {
    var r3: seq<string> := [[d]];
    var r2: seq<string> := [[' '], [d]];
    var r1: seq<string> := [[d], [' '], [d]];
    var r0: seq<string> := [[c, ' '], [d], [' '], [d]];
    assert r3[1..] == [] && r2[1..] == r3 && r1[1..] == r2 && r0[1..] == r1;
    var empty: seq<string> := [];
    assert Select(r3[1..], true) == empty && Select(r3[1..], false) == empty;
    assert Select(r3, true) == [[d]] + empty;
    assert Select(r3, false) == empty + empty;
    assert Select(r2, true) == [[d]] && Select(r2, false) == [[' ']];
    assert Select(r1, true) == [[d], [d]] && Select(r1, false) == [[' ']];
  }

  lemma ExampleStrip(c: char)
    requires !IsSpace(c)
    ensures Strip([c, ' ']) == [c] && Strip([' ']) == []
  {
    var s := [c, ' '];
    assert IsSpace(' ');
    assert LeadingSpaces(s) == 0;
    assert s[1..] == [' '] && s[..1] == [c];
    assert [c][..0] == [] && [' '][..0] == [] && [' '][1..] == [];
    assert TrailingSpaces([c]) == 0;
    assert TrailingSpaces(s) == 1;
    assert LeadingSpaces([' ']) == 1;
    assert s[0..] == s;
  }
}
