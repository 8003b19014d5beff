/** `build_grid`: a space-filled grid sized from the largest coordinates, with
    each point's text painted at `grid[y][x]` behind a bounds guard. */
module Grid {
  import opened Results
  import opened Extraction

  /** What the guard compares x with: the row count `len(grid)` (as the source
      does) or the row width `len(grid[0])`. */
  datatype XLimit = RowCount | RowWidth

  /** `str(ch)`: a string is itself; a list is its Python repr, given by `repr`. */
  function Str(t: Token, repr: seq<string> -> string): string {
    match t
    case Text(s) => s
    case RunList(l) => repr(l)
  }

  /** Line 154: what a cell receives, never empty. */
  function CellText(t: Token, repr: seq<string> -> string): (r: string)
    ensures r != []
    ensures Str(t, repr) != [] ==> r == Str(t, repr)
  {
    var s := Str(t, repr);
    if s == [] then " " else s
  }

  /** `max(s)` on a non-empty list. */
  function Max(s: seq<int>): (m: int)
    requires |s| > 0
    ensures forall k :: 0 <= k < |s| ==> s[k] <= m
    ensures exists k :: 0 <= k < |s| && s[k] == m
  {
    if |s| == 1 then s[0]
    else
      var rest := Max(s[1..]);
      assert forall k :: 1 <= k < |s| ==> s[k] == s[1..][k - 1];
      if s[0] > rest then s[0] else rest
  }

  function Xs(coords: seq<(int, int)>): (r: seq<int>)
    ensures |r| == |coords| && forall k :: 0 <= k < |coords| ==> r[k] == coords[k].0
  {
    seq(|coords|, k requires 0 <= k < |coords| => coords[k].0)
  }

  function Ys(coords: seq<(int, int)>): (r: seq<int>)
    ensures |r| == |coords| && forall k :: 0 <= k < |coords| ==> r[k] == coords[k].1
  {
    seq(|coords|, k requires 0 <= k < |coords| => coords[k].1)
  }

  /** The guard of line 150, for a grid of `height` rows and `width` columns. */
  predicate Passes(p: (int, int), height: int, width: int, limit: XLimit) {
    var bound := if limit == RowCount then height else width;
    !(p.0 < 0 || p.1 < 0 || p.1 >= height || p.0 >= bound)
  }

  /** The position of the last point equal to `p`. */
  function LastHit(coords: seq<(int, int)>, p: (int, int)): (r: Option<nat>)
    ensures r.Some? ==>
      r.value < |coords| && coords[r.value] == p && forall k :: r.value < k < |coords| ==> coords[k] != p
    ensures r.None? ==> forall k :: 0 <= k < |coords| ==> coords[k] != p
  {
    if coords == [] then None
    else if coords[|coords| - 1] == p then Some(|coords| - 1)
    else LastHit(coords[..|coords| - 1], p)
  }

  /** The final content of cell `(x, y)`: the text of the last point at `(x, y)`
      when that point passes the guard, and `" "` otherwise. */
  function CellAt(coords: seq<(int, int)>, chars: seq<Token>, repr: seq<string> -> string,
                  limit: XLimit, height: int, width: int, x: int, y: int): string
    requires |coords| == |chars|
  {
    match LastHit(coords, (x, y))
    case None => " "
    case Some(k) => if Passes((x, y), height, width, limit) then CellText(chars[k], repr) else " "
  }

  /** What `build_grid(coords, chars)` returns or raises, as rows of cells. */
  function GridOf(coords: seq<(int, int)>, chars: seq<Token>, repr: seq<string> -> string,
                  limit: XLimit): Result<seq<seq<string>>>
  {
    if |coords| != |chars| then Err(LengthMismatch)
    else if coords == [] then Ok([[" "]])
    else
      var width := Max(Xs(coords)) + 1;
      var height := Max(Ys(coords)) + 1;
      if width <= 0 || height <= 0 then Err(InvalidGridSize(width, height))
      else Ok(seq(height, y => seq(width, x => CellAt(coords, chars, repr, limit, height, width, x, y))))
  }

  /** The rows of an array grid. */
  function Cells(a: array2<string>): (g: seq<seq<string>>)
    reads a
    ensures |g| == a.Length0
    ensures forall y :: 0 <= y < a.Length0 ==> |g[y]| == a.Length1
  {
    seq(a.Length0, y requires 0 <= y < a.Length0 reads a =>
      seq(a.Length1, x requires 0 <= x < a.Length1 reads a => a[y, x]))
  }

  /** Painting one more point changes only that point's cell, and only when
      it passes the guard. */
  lemma CellAtStep(coords: seq<(int, int)>, chars: seq<Token>, repr: seq<string> -> string,
                   limit: XLimit, height: int, width: int, i: nat, x: int, y: int)
    requires |coords| == |chars| && i < |coords|
    ensures CellAt(coords[..i + 1], chars[..i + 1], repr, limit, height, width, x, y) ==
      if coords[i] == (x, y) && Passes(coords[i], height, width, limit) then CellText(chars[i], repr)
      else CellAt(coords[..i], chars[..i], repr, limit, height, width, x, y)
  {
    assert coords[..i + 1][..i] == coords[..i];
  }

  /** Lines 149-154: paint the points in order onto a grid of spaces. */
  method PaintPoints(grid: array2<string>, coords: seq<(int, int)>, chars: seq<Token>,
                     repr: seq<string> -> string, limit: XLimit)
    requires |coords| == |chars|
    requires forall k :: 0 <= k < |coords| ==> coords[k].0 < grid.Length1
    requires forall y, x :: 0 <= y < grid.Length0 && 0 <= x < grid.Length1 ==> grid[y, x] == " "
    modifies grid
    ensures forall y, x :: 0 <= y < grid.Length0 && 0 <= x < grid.Length1 ==>
      grid[y, x] == CellAt(coords, chars, repr, limit, grid.Length0, grid.Length1, x, y)
  {
    var i := 0;
    while i < |coords|
      invariant 0 <= i <= |coords|
      invariant forall y, x :: 0 <= y < grid.Length0 && 0 <= x < grid.Length1 ==>
        grid[y, x] == CellAt(coords[..i], chars[..i], repr, limit, grid.Length0, grid.Length1, x, y)
    {
      var p := coords[i];
      if Passes(p, grid.Length0, grid.Length1, limit) {
        grid[p.1, p.0] := CellText(chars[i], repr);
      }
      forall y, x | 0 <= y < grid.Length0 && 0 <= x < grid.Length1 {
        CellAtStep(coords, chars, repr, limit, grid.Length0, grid.Length1, i, x, y);
      }
      i := i + 1;
    }
    assert coords[..i] == coords && chars[..i] == chars;
  }

  /** Lines 135-156: check the lengths, size the grid, fill it with spaces,
      then paint the points in order. */
  method BuildGrid(coords: seq<(int, int)>, chars: seq<Token>, repr: seq<string> -> string,
                   limit: XLimit) returns (r: Result<array2<string>>)
    ensures r.Err? <==> GridOf(coords, chars, repr, limit).Err?
    ensures r.Err? ==> r.error == GridOf(coords, chars, repr, limit).error
    ensures r.Ok? ==> Cells(r.value) == GridOf(coords, chars, repr, limit).value
  {
    if |coords| != |chars| {
      return Err(LengthMismatch);
    }
    if coords == [] {
      var single := new string[1, 1]((_, _) => " ");
      assert Cells(single)[0] == [" "];
      return Ok(single);
    }
    var width := Max(Xs(coords)) + 1;
    var height := Max(Ys(coords)) + 1;
    if width <= 0 || height <= 0 {
      return Err(InvalidGridSize(width, height));
    }
    var grid := new string[height, width]((_, _) => " ");
    PaintPoints(grid, coords, chars, repr, limit);
    r := Ok(grid);
    ghost var g := GridOf(coords, chars, repr, limit).value;
    assert forall y :: 0 <= y < height ==> Cells(grid)[y] == g[y];
  }

  /** Lines 135-145: lists of different lengths raise, no points give the
      one-cell grid `[[" "]]`, and a grid size that is not positive raises. */
  lemma GridEdgeCases(coords: seq<(int, int)>, chars: seq<Token>, repr: seq<string> -> string, limit: XLimit)
    ensures |coords| != |chars| ==> GridOf(coords, chars, repr, limit) == Err(LengthMismatch)
    ensures |coords| == |chars| == 0 ==> GridOf(coords, chars, repr, limit) == Ok([[" "]])
    ensures |coords| == |chars| > 0 ==>
      (GridOf(coords, chars, repr, limit).Err? <==> Max(Xs(coords)) < 0 || Max(Ys(coords)) < 0)
    ensures |coords| == |chars| > 0 && GridOf(coords, chars, repr, limit).Err? ==>
      GridOf(coords, chars, repr, limit).error == InvalidGridSize(Max(Xs(coords)) + 1, Max(Ys(coords)) + 1)
  {
  }

  /** Lines 141-147: for non-empty, non-negative points the grid is returned,
      with `max(y) + 1` rows of `max(x) + 1` cells each. */
  lemma GridShape(coords: seq<(int, int)>, chars: seq<Token>, repr: seq<string> -> string, limit: XLimit)
    requires |coords| == |chars| && |coords| > 0
    requires forall k :: 0 <= k < |coords| ==> coords[k].0 >= 0 && coords[k].1 >= 0
    ensures GridOf(coords, chars, repr, limit).Ok?
    ensures var g := GridOf(coords, chars, repr, limit).value;
      |g| == Max(Ys(coords)) + 1
      && forall y :: 0 <= y < |g| ==> |g[y]| == Max(Xs(coords)) + 1
  {
    assert Xs(coords)[0] >= 0 && Ys(coords)[0] >= 0;
  }

  /** Lines 149-154, for one cell: the last point at it that passes the guard
      wins, and a cell no passing point reaches stays `" "`. */
  lemma CellContent(coords: seq<(int, int)>, chars: seq<Token>, repr: seq<string> -> string,
                    limit: XLimit, x: int, y: int)
    requires |coords| == |chars| && |coords| > 0
    requires GridOf(coords, chars, repr, limit).Ok?
    requires 0 <= y < |GridOf(coords, chars, repr, limit).value|
    requires 0 <= x < |GridOf(coords, chars, repr, limit).value[y]|
    ensures var g := GridOf(coords, chars, repr, limit).value;
      var height, width := |g|, |g[y]|;
      (forall k :: 0 <= k < |coords| && coords[k] == (x, y) ==> !Passes(coords[k], height, width, limit))
        ==> g[y][x] == " "
    ensures var g := GridOf(coords, chars, repr, limit).value;
      var height, width := |g|, |g[y]|;
      forall k :: 0 <= k < |coords| && coords[k] == (x, y) && Passes(coords[k], height, width, limit)
        && (forall j :: k < j < |coords| ==> coords[j] != (x, y))
        ==> g[y][x] == CellText(chars[k], repr)
  {
    var g := GridOf(coords, chars, repr, limit).value;
    var width, height := Max(Xs(coords)) + 1, Max(Ys(coords)) + 1;
    assert |g| == height && |g[y]| == width;
    assert g[y][x] == CellAt(coords, chars, repr, limit, height, width, x, y);
    forall k | 0 <= k < |coords| && coords[k] == (x, y) && Passes(coords[k], height, width, limit)
      && (forall j :: k < j < |coords| ==> coords[j] != (x, y))
      ensures g[y][x] == CellText(chars[k], repr)
    {
      LastHitIsLast(coords, (x, y), k);
    }
  }

  /** The last index holding `p` is the one `LastHit` finds. */
  lemma LastHitIsLast(coords: seq<(int, int)>, p: (int, int), k: nat)
    requires k < |coords| && coords[k] == p
    requires forall j :: k < j < |coords| ==> coords[j] != p
    ensures LastHit(coords, p) == Some(k)
  {
  }

  /** As the source is written, a point whose x reaches the row count is
      dropped even though the grid is wide enough for it. */
  lemma RowCountGuardDrops(coords: seq<(int, int)>, chars: seq<Token>, repr: seq<string> -> string, x: int, y: int)
    requires |coords| == |chars| && |coords| > 0
    requires GridOf(coords, chars, repr, RowCount).Ok?
    requires var g := GridOf(coords, chars, repr, RowCount).value;
      0 <= y < |g| && |g| <= x < |g[y]|
    ensures GridOf(coords, chars, repr, RowCount).value[y][x] == " "
  {
  }

  /** With the guard against the row width, every non-negative point lands:
      its cell holds the text of the last point at the same coordinates. */
  lemma WidthGuardPlacesEveryPoint(coords: seq<(int, int)>, chars: seq<Token>, repr: seq<string> -> string, k: nat)
    requires |coords| == |chars| && k < |coords|
    requires forall j :: 0 <= j < |coords| ==> coords[j].0 >= 0 && coords[j].1 >= 0
    ensures GridOf(coords, chars, repr, RowWidth).Ok?
    ensures var g := GridOf(coords, chars, repr, RowWidth).value;
      var (x, y) := coords[k];
      LastHit(coords, coords[k]).Some?
      && 0 <= y < |g| && 0 <= x < |g[y]|
      && g[y][x] == CellText(chars[LastHit(coords, coords[k]).value], repr)
  {
    GridShape(coords, chars, repr, RowWidth);
    assert Xs(coords)[k] == coords[k].0 && Ys(coords)[k] == coords[k].1;
  }

  /** Line 150 as written: a single point at (2, 0) makes a one-row grid of
      width 3, and the guard drops the point. */
  lemma WidePointDroppedExample(repr: seq<string> -> string)
    ensures GridOf([(2, 0)], [Text("A")], repr, RowCount) == Ok([[" ", " ", " "]])
  {
    var coords := [(2, 0)];
    assert Max(Xs(coords)) == 2 && Max(Ys(coords)) == 0;
    var g := GridOf(coords, [Text("A")], repr, RowCount).value;
    assert LastHit(coords, (0, 0)) == None && LastHit(coords, (1, 0)) == None;
    assert LastHit(coords, (2, 0)) == Some(0);
    assert g[0][0] == " " && g[0][1] == " " && g[0][2] == " ";
    assert |g| == 1 && |g[0]| == 3;
    assert g[0] == [" ", " ", " "];
    assert g == [g[0]];
  }

  /** Line 150 checked against the width: the same point lands at (2, 0). */
  lemma WidePointPlacedExample(repr: seq<string> -> string)
    ensures GridOf([(2, 0)], [Text("A")], repr, RowWidth) == Ok([[" ", " ", "A"]])
  {
    var coords := [(2, 0)];
    assert Max(Xs(coords)) == 2 && Max(Ys(coords)) == 0;
    var g := GridOf(coords, [Text("A")], repr, RowWidth).value;
    assert LastHit(coords, (0, 0)) == None && LastHit(coords, (1, 0)) == None;
    assert LastHit(coords, (2, 0)) == Some(0);
    assert g[0][0] == " " && g[0][1] == " " && g[0][2] == "A";
    assert |g| == 1 && |g[0]| == 3;
    assert g[0] == [" ", " ", "A"];
    assert g == [g[0]];
  }
}
