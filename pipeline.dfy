/** `data`: rows in, printed lines out, with the two "nothing to render"
    guards and the exceptions the stages raise. */
module Pipeline {
  import opened Results
  import opened RowText
  import opened Extraction
  import opened Grid
  import opened Rendering

  /** Which digit run y is read from, and what the x guard compares with. */
  datatype Variant = Variant(yIndex: nat, xLimit: XLimit)

  /** The source as written: `digits[21]` and `x >= len(grid)`. */
  const AsWritten := Variant(SourceYIndex, RowCount)
  /** The behaviour the docstrings describe: `digits[1]` and a width guard. */
  const Intended := Variant(IntendedYIndex, RowWidth)

  /** How a call of `data` ends: one of the two early returns, the printed
      lines, or an exception propagating to the caller. */
  datatype Outcome = NoRows | NoCoordinates | Printed(lines: seq<string>) | Raised(failure: Failure)

  /** Lines 178-189 on the rows `parse_rows` produced. */
  function Run(rows: seq<string>, repr: seq<string> -> string, v: Variant): Outcome {
    if rows == [] then NoRows
    else
      var extracted := Extract(rows, v.yIndex);
      if extracted.Err? then Raised(extracted.error)
      else
        var e := extracted.value;
        if e.coords == [] then NoCoordinates
        else
          var grid := GridOf(e.coords, e.chars, repr, v.xLimit);
          if grid.Err? then Raised(grid.error) else Printed(Render(grid.value))
  }

  /** Lines 178-189: the stages in sequence, each guard returning early. */
  method Data(rows: seq<string>, repr: seq<string> -> string, v: Variant) returns (out: Outcome)
    ensures out == Run(rows, repr, v)
  {
    if rows == [] {
      return NoRows;
    }
    var extracted := ExtractCoordsAndChars(rows, v.yIndex);
    if extracted.Err? {
      return Raised(extracted.error);
    }
    var coords, chars := extracted.value.coords, extracted.value.chars;
    if coords == [] {
      return NoCoordinates;
    }
    var grid := BuildGrid(coords, chars, repr, v.xLimit);
    if grid.Err? {
      return Raised(grid.error);
    }
    var lines := RenderGrid(grid.value);
    return Printed(lines);
  }

  /** How a run ends, in terms of the rows: nothing to render without rows or
      without an accepted row; an `IndexError` exactly when some row has too
      few digit runs for the y index; the grid stage never raises; otherwise
      the grid is printed. */
  lemma RunOutcome(rows: seq<string>, repr: seq<string> -> string, v: Variant)
    ensures Run(rows, repr, v) == NoRows <==> rows == []
    ensures Run(rows, repr, v).Raised? <==>
      exists k :: 0 <= k < |rows| && ParseRow(rows[k], v.yIndex).RaisesIndexError?
    ensures Run(rows, repr, v).Raised? ==> Run(rows, repr, v).failure == IndexOutOfRange
    ensures Run(rows, repr, v) == NoCoordinates <==>
      rows != [] && (forall k :: 0 <= k < |rows| ==> ParseRow(rows[k], v.yIndex).Skipped?)
  {
    ExtractOkIff(rows, v.yIndex);
    if rows != [] && Extract(rows, v.yIndex).Ok? {
      var e := Extract(rows, v.yIndex).value;
      ExtractInOrder(rows, v.yIndex);
      var idx := AcceptedRows(rows, v.yIndex);
      if e.coords != [] {
        GridShape(e.coords, e.chars, repr, v.xLimit);
        var k := idx[0];
        assert !ParseRow(rows[k], v.yIndex).Skipped?;
      } else {
        assert idx == [];
      }
    }
  }

  /** A printed outcome comes from an accepted row set and its grid. */
  lemma PrintedFrom(rows: seq<string>, repr: seq<string> -> string, v: Variant)
    requires Run(rows, repr, v).Printed?
    ensures Extract(rows, v.yIndex).Ok? && Extract(rows, v.yIndex).value.coords != []
    ensures var e := Extract(rows, v.yIndex).value;
      GridOf(e.coords, e.chars, repr, v.xLimit).Ok?
      && Run(rows, repr, v).lines == Render(GridOf(e.coords, e.chars, repr, v.xLimit).value)
  {
  }

  /** The printed lines: one per grid row, `max(y) + 1` of them, the top row
      first and row 0 last. */
  lemma PrintedLines(rows: seq<string>, repr: seq<string> -> string, v: Variant)
    requires Run(rows, repr, v).Printed?
    ensures var e := Extract(rows, v.yIndex).value;
      var g := GridOf(e.coords, e.chars, repr, v.xLimit).value;
      var lines := Run(rows, repr, v).lines;
      |lines| == |g| == Max(Ys(e.coords)) + 1
      && forall i :: 0 <= i < |lines| ==> lines[i] == Join(g[|g| - 1 - i])
  {
    PrintedFrom(rows, repr, v);
    var e := Extract(rows, v.yIndex).value;
    var g := GridOf(e.coords, e.chars, repr, v.xLimit).value;
    GridShape(e.coords, e.chars, repr, v.xLimit);
    LinesOfRender(Run(rows, repr, v).lines, g);
  }

  /** Lines rendered from a grid: one per row, the last row first. */
  lemma LinesOfRender(lines: seq<string>, g: seq<seq<string>>)
    requires lines == Render(g)
    ensures |lines| == |g|
    ensures forall i :: 0 <= i < |lines| ==> lines[i] == Join(g[|g| - 1 - i])
  {
    RenderAt(g);
  }

  /** As written, output appears only when every row is skipped (too few digit
      runs, or a first run `int()` refuses) or has at least 22 digit runs, and
      some row has that many. */
  lemma AsWrittenPrintsOnlyLongRows(rows: seq<string>, repr: seq<string> -> string)
    requires Run(rows, repr, AsWritten).Printed?
    ensures forall k :: 0 <= k < |rows| ==>
      rows[k] == [] || |DigitRuns(rows[k])| < 2 || |DigitRuns(rows[k])[0]| > IntMaxStrDigits
      || |DigitRuns(rows[k])| >= 22
    ensures exists k :: 0 <= k < |rows| && |DigitRuns(rows[k])| >= 22
  {
    RunOutcome(rows, repr, AsWritten);
    forall k | 0 <= k < |rows|
      ensures rows[k] == [] || |DigitRuns(rows[k])| < 2 || |DigitRuns(rows[k])[0]| > IntMaxStrDigits
        || |DigitRuns(rows[k])| >= 22
    {
      AsWrittenRowOutcome(rows[k]);
    }
    var k :| 0 <= k < |rows| && !ParseRow(rows[k], SourceYIndex).Skipped?;
    AsWrittenRowOutcome(rows[k]);
  }

  /** Reading y from the second digit run, no row raises. */
  lemma IntendedNeverRaises(rows: seq<string>, repr: seq<string> -> string)
    ensures !Run(rows, repr, Intended).Raised?
  {
    RunOutcome(rows, repr, Intended);
  }

  /** The two rows "X 0 0" and "Y 1 1" raise `IndexError` as written. */
  lemma AsWrittenTwoRowExample(repr: seq<string> -> string)
    ensures Run(["X 0 0", "Y 1 1"], repr, AsWritten) == Raised(IndexOutOfRange)
  {
    TwoExampleRows();
    var rows := ["X 0 0", "Y 1 1"];
    ExtractOkIff(rows, SourceYIndex);
  }

  /** Read as intended, two rows "a 0 0" and "b 1 1" (for any labels a and b
      that are neither digits nor whitespace) print the row y = 1 above the
      row y = 0. */
  lemma IntendedTwoRowExample(a: char, b: char, repr: seq<string> -> string)
    requires !IsDigit(a) && !IsSpace(a) && !IsDigit(b) && !IsSpace(b)
    ensures Run([[a, ' ', '0', ' ', '0'], [b, ' ', '1', ' ', '1']], repr, Intended) ==
      Printed([" " + CellText(RunList([[b]]), repr), CellText(RunList([[a]]), repr) + " "])
  {
    var rows := [[a, ' ', '0', ' ', '0'], [b, ' ', '1', ' ', '1']];
    var ca, cb := CellText(RunList([[a]]), repr), CellText(RunList([[b]]), repr);
    ExampleExtract(a, b);
    var coords, chars := [(0, 0), (1, 1)], [RunList([[a]]), RunList([[b]])];
    ExampleGrid([[a]], [[b]], repr);
    var g := [[ca, " "], [" ", cb]];
    assert GridOf(coords, chars, repr, RowWidth) == Ok(g);
    RenderTwoRows([ca, " "], [" ", cb]);
    assert Join([ca, " "]) == ca + " " by {
      assert [ca, " "][1..] == [" "];
      assert [" "][1..] == [];
    }
    assert Join([" ", cb]) == " " + cb by {
      assert [" ", cb][1..] == [cb];
      assert [cb][1..] == [];
    }
    assert Run(rows, repr, Intended) == Printed(Render(g));
  }

  lemma RenderTwoRows(r0: seq<string>, r1: seq<string>)
    ensures Render([r0, r1]) == [Join(r1), Join(r0)]
  {
    assert [r0, r1][1..] == [r1];
    assert [r1][1..] == [];
    assert Render([r1]) == [Join(r1)];
  }

  /** The two example rows, read with index 1. */
  lemma ExampleExtract(a: char, b: char)
    requires !IsDigit(a) && !IsSpace(a) && !IsDigit(b) && !IsSpace(b)
    ensures Extract([[a, ' ', '0', ' ', '0'], [b, ' ', '1', ' ', '1']], IntendedYIndex) ==
      Ok(Extracted([(0, 0), (1, 1)], [RunList([[a]]), RunList([[b]])]))
  {
    var rows := [[a, ' ', '0', ' ', '0'], [b, ' ', '1', ' ', '1']];
    ExampleRow(a, '0');
    ExampleRow(b, '1');
    var p, q := ParseRow(rows[0], IntendedYIndex), ParseRow(rows[1], IntendedYIndex);
    var o := Outcomes(rows, IntendedYIndex);
    assert |o| == 2 && o[0] == p && o[1] == q;
    assert o == [p, q];
    CollectTwo(p, q);
    assert Extract(rows, IntendedYIndex) == Collect(o);
  }

  lemma CollectTwo(a: RowResult, b: RowResult)
    requires a.Accepted? && b.Accepted?
    ensures Collect([a, b]) == Ok(Extracted([(a.x, a.y), (b.x, b.y)], [a.token, b.token]))
  {
    assert [a, b][..1] == [a];
    assert [a][..0] == [];
    assert Collect([]) == Ok(Extracted([], []));
    assert a == Accepted(a.x, a.y, a.token);
    var noCoords: seq<(int, int)>, noChars: seq<Token> := [], [];
    assert noCoords + [(a.x, a.y)] == [(a.x, a.y)];
    assert noChars + [a.token] == [a.token];
    assert Collect([a]) == Ok(Extracted([(a.x, a.y)], [a.token]));
    assert b == Accepted(b.x, b.y, b.token) && [a, b][1] == b;
    assert [(a.x, a.y)] + [(b.x, b.y)] == [(a.x, a.y), (b.x, b.y)];
    assert [a.token] + [b.token] == [a.token, b.token];
  }

  /** Their grid: the first token at (0, 0), the second at (1, 1). */
  lemma ExampleGrid(first: seq<string>, second: seq<string>, repr: seq<string> -> string)
    ensures GridOf([(0, 0), (1, 1)], [RunList(first), RunList(second)], repr, RowWidth) ==
      Ok([[CellText(RunList(first), repr), " "], [" ", CellText(RunList(second), repr)]])
  {
    var coords, chars := [(0, 0), (1, 1)], [RunList(first), RunList(second)];
    assert Max(Xs(coords)) == 1 && Max(Ys(coords)) == 1;
    var g := GridOf(coords, chars, repr, RowWidth).value;
    assert LastHit(coords, (0, 0)) == Some(0) && LastHit(coords, (1, 1)) == Some(1);
    assert LastHit(coords, (1, 0)) == None && LastHit(coords, (0, 1)) == None;
    assert g[0] == [CellText(RunList(first), repr), " "];
    assert g[1] == [" ", CellText(RunList(second), repr)];
    assert g == [g[0], g[1]];
  }
}
