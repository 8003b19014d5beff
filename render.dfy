/** `render_grid`: the grid's rows, joined, from the top row down, so that
    (0, 0) is printed at the bottom left. */
module Rendering {
  import opened Grid

  /** `"".join(cells)`. */
  function Join(cells: seq<string>): string {
    if cells == [] then "" else cells[0] + Join(cells[1..])
  }

  /** The lines printed for `grid`, first printed first: row 0 comes last. */
  function Render(grid: seq<seq<string>>): seq<string> {
    if grid == [] then [] else Render(grid[1..]) + [Join(grid[0])]
  }

  /** One line per row, and line `i` joins row `|grid| - 1 - i`. */
  lemma {:induction false} RenderAt(grid: seq<seq<string>>)
    ensures |Render(grid)| == |grid|
    ensures forall i :: 0 <= i < |grid| ==> Render(grid)[i] == Join(grid[|grid| - 1 - i])
  {
    if grid != [] {
      RenderAt(grid[1..]);
      assert forall j :: 0 <= j < |grid| - 1 ==> grid[1..][j] == grid[j + 1];
    }
  }

  /** A row of one-character cells joins to a line as long as the row. */
  lemma {:induction false} JoinSingleCharacters(cells: seq<string>)
    requires forall k :: 0 <= k < |cells| ==> |cells[k]| == 1
    ensures |Join(cells)| == |cells|
    ensures forall k :: 0 <= k < |cells| ==> Join(cells)[k] == cells[k][0]
  {
    if cells != [] {
      JoinSingleCharacters(cells[1..]);
      assert forall k :: 1 <= k < |cells| ==> cells[k] == cells[1..][k - 1];
    }
  }

  /** Lines 164-165: walk the rows from the last to the first, joining each. */
  method RenderGrid(grid: array2<string>) returns (lines: seq<string>)
    ensures lines == Render(Cells(grid))
    ensures |lines| == grid.Length0
    ensures forall i :: 0 <= i < |lines| ==> lines[i] == Join(Cells(grid)[grid.Length0 - 1 - i])
  {
    ghost var g := Cells(grid);
    lines := [];
    var y := grid.Length0;
    while y > 0
      invariant 0 <= y <= grid.Length0
      invariant lines == Render(g[y..])
    {
      y := y - 1;
      var row := seq(grid.Length1, x requires 0 <= x < grid.Length1 reads grid => grid[y, x]);
      assert row == g[y];
      assert g[y..][1..] == g[y + 1..];
      lines := lines + [Join(row)];
    }
    assert g[0..] == g;
    RenderAt(g);
  }
}
