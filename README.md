# infonotes grid decoder — Dafny model

The script `infonotes-python.py` decodes a "secret message". The message is
published as an HTML table whose rows each hold a character and an `(x, y)`
coordinate. The script turns the table's rows into a dense character grid and
prints the grid with row 0 at the bottom. This project models the
sparse-to-dense pipeline of that script and proves properties of it:

- `extract_coords_and_chars` turns row texts into parallel lists of `(x, y)`
  pairs and "char" tokens (module `Extraction`). It uses the scans `\d+` and
  `\D+`, `str.strip()` and `int()` (module `RowText`).
- `build_grid` allocates a space-filled grid and paints each point behind a
  bounds guard (module `Grid`).
- `render_grid` joins the grid's rows, top row first (module `Rendering`).
- the guards of `data` combine the three stages (module `Pipeline`).

`Results` holds the exceptions the stages raise (`IndexError`, and the two
`ValueError`s of `build_grid`) and the `Result`/`Option` wrappers.

How the model maps the code:

- The row texts are an input sequence; fetching and parsing the HTML happen
  outside the model.
- `extract_coords_and_chars` is a `while` loop that appends to two sequences,
  `ExtractCoordsAndChars`. It is proved equal to the function `Extract`, which
  collects the classification `ParseRow` of each row.
- `build_grid` allocates an `array2<string>` and paints it in a loop
  (`BuildGrid`, `PaintPoints`). It is proved equal to the function `GridOf`.
  `GridOf` gives each cell directly: a cell holds the text of the last point at
  that cell which passes the guard, and `" "` otherwise.
- `render_grid` is a loop over the rows from last to first (`RenderGrid`). It
  is proved equal to `Render`, which returns the lines instead of printing
  them.
- `data` is the method `Data`, proved equal to the function `Run`. `Run`
  returns `NoRows` or `NoCoordinates` for the two early returns, `Printed(lines)`
  for printed output, and `Raised(failure)` when an exception propagates.
- Line 121 stores the whole list of trimmed non-digit runs as the "char" when
  there is one, and the string `" "` otherwise. The docstrings at lines 96 and
  133 say "first non-digit sequence" and "first character"; the model follows
  the code. The token is `Token.RunList(runs)` or `Token.Text(" ")`.
- Line 153 writes `str(ch)`. For a list this is Python's repr, which the model
  does not spell out: it is the parameter `repr: seq<string> -> string`. The
  fallback at line 154 (an empty `str(ch)` becomes `" "`) is modelled, so no
  property depends on what `repr` returns.
- The code reads y from `digits[21]` and checks x against `len(grid)`. Both
  choices are parameters (`Pipeline.Variant`). `Pipeline.AsWritten` is the code
  as written: index 21 and the row count. `Pipeline.Intended` is what the
  docstrings describe: index 1 and the row width. See "## Findings".
- The code skips a row with fewer than two digit runs after printing a
  warning (line 111). The model skips it too, and the warning is left out.
- `int()` follows CPython's default limit on integer string conversion
  (Python 3.11 and later): a run of more than 4300 digits makes `int()`
  raise `ValueError` (`RowText.IntOf`). The tuple at line 115 is evaluated
  left to right, so `int(digits[0])` runs before the index `digits[21]`.
  A first run that is too long skips the row at lines 116-118 before the
  index can raise; a y run that is too long skips it after the index.

## Model

| member | source | states |
|---|---|---|
| `RowText.DigitRuns` | infonotes-python.py:12 | every element of `findall(\d+)` is a non-empty string of ASCII digits |
| `RowText.RunsOfEachClass` | infonotes-python.py:12-13 | `findall(\d+)` returns non-empty all-digit runs; `findall(\D+)` returns non-empty runs that contain no digit |
| `RowText.RunsPartition` | infonotes-python.py:12-13 | the runs concatenate back to the text, each run is non-empty and of one class, and no two neighbouring runs share a class, so every run is maximal |
| `RowText.RunsKeepEveryCharacter` | infonotes-python.py:12-13 | the digit runs concatenated are exactly the text's digits in order; the non-digit runs are exactly its other characters in order |
| `RowText.StripEnds` | infonotes-python.py:120 | `strip()` removes only whitespace, from both ends, and leaves neither end as whitespace |
| `RowText.StripEmpty` | infonotes-python.py:120 | a run strips to `""` exactly when every character of it is whitespace |
| `RowText.StripIdempotent` | infonotes-python.py:120 | stripping twice gives what stripping once gives |
| `RowText.DecimalValueOfNumeral` | infonotes-python.py:115 | the decimal value of a digit run reads back every numeral: `DecimalValue(Numeral(n)) == n` |
| `RowText.IntOf` | infonotes-python.py:115-118 | `int()` on a digit run raises `ValueError` exactly when the run has more than 4300 digits |
| `RowText.IntOfNumeral` | infonotes-python.py:115-118 | `int(str(n)) == n` for every `n` below `10^4300`; for larger `n`, `int()` raises `ValueError` |
| `Extraction.TrimmedRunsShape` | infonotes-python.py:120 | the comprehension keeps at most one entry per run, and each entry is non-empty and already stripped |
| `Extraction.AsWrittenRowOutcome` | infonotes-python.py:103-118 | with index 21, each as an iff: a row is skipped when it is empty, has fewer than 2 digit runs, or `int()` refuses its first or 22nd run; it raises `IndexError` when it has 2 to 21 runs and a first run `int()` accepts; it is accepted when it has 22 or more runs and `int()` accepts both |
| `Extraction.AcceptedRow` | infonotes-python.py:114-121 | an accepted row has both runs within `int()`'s limit; its x is the value of the first digit run and y that of run `yIndex`; its token is `" "` or a list, and it is `" "` exactly when every non-digit run is blank; a list token is the non-empty list of trimmed non-blank runs |
| `Extraction.Extract` | infonotes-python.py:99-126 | the two lists have equal length, at most the number of rows; all coordinates are non-negative; the only exception is `IndexError` |
| `Extraction.AcceptedRows` | infonotes-python.py:102-124 | the positions of the accepted rows, strictly increasing, including every accepted row and no other |
| `Extraction.ExtractOkIff` | infonotes-python.py:114-118 | the loop raises exactly when some row raises: it has at least two digit runs and a first run `int()` accepts, but no run at the y index; `except ValueError` does not catch the `IndexError` |
| `Extraction.ExtractInOrder` | infonotes-python.py:102-126 | entry j of both lists comes from the j-th accepted row, in input order, with that row's x, y and token |
| `Extraction.SkippedRowIgnored` | infonotes-python.py:103-118 | a skipped row gives the same result as if it were absent, and the rows after it are still read. A row is skipped when it is empty, has fewer than two digit runs, or `int()` raises `ValueError` |
| `Extraction.ExtractCoordsAndChars` | infonotes-python.py:93-126 | the loop returns exactly `Extract(rows, yIndex)`, and on success both lists have equal length |
| `Extraction.TwoExampleRows` | infonotes-python.py:107-121 | rows "X 0 0" and "Y 1 1" raise `IndexError` with index 21, and are accepted with index 1 as (0, 0) and (1, 1), tokens `["X"]` and `["Y"]` |
| `Grid.CellText` | infonotes-python.py:153-154 | a painted cell is never empty, and holds `str(ch)` whenever that is non-empty |
| `Grid.Max` | infonotes-python.py:141-142 | `max` is at least every element and equal to one of them |
| `Grid.GridEdgeCases` | infonotes-python.py:135-145 | lists of different lengths raise the length `ValueError`; no points give `[[" "]]`; otherwise the size `ValueError`, with `max_x` and `max_y`, is raised exactly when a largest coordinate is negative |
| `Grid.GridShape` | infonotes-python.py:141-147 | for non-empty, non-negative points the grid has `max(y) + 1` rows of `max(x) + 1` cells |
| `Grid.CellContent` | infonotes-python.py:149-154 | a cell that no passing point reaches stays `" "`; otherwise it holds the text of the last passing point at it (last write wins) |
| `Grid.RowCountGuardDrops` | infonotes-python.py:150-152 | as written, every cell whose x is at least the row count stays `" "`, even where the grid is wide enough |
| `Grid.WidthGuardPlacesEveryPoint` | infonotes-python.py:149-154 | with the guard against the row width, every non-negative point lands, and its cell holds the text of the last point with the same coordinates |
| `Grid.WidePointDroppedExample` | infonotes-python.py:150 | as written, the single point (2, 0) with "A" produces the grid `[[" ", " ", " "]]` |
| `Grid.WidePointPlacedExample` | infonotes-python.py:150 | with the width guard, the same point produces `[[" ", " ", "A"]]` |
| `Grid.PaintPoints` | infonotes-python.py:149-154 | painting a grid of spaces in order leaves every cell equal to its `CellAt` content |
| `Grid.BuildGrid` | infonotes-python.py:129-156 | raises exactly when `GridOf` raises, with the same exception, and otherwise returns an array whose rows are `GridOf`'s grid |
| `Rendering.RenderAt` | infonotes-python.py:164-165 | one line per row; line i joins row `len(grid) - 1 - i`, so row 0 is printed last |
| `Rendering.JoinSingleCharacters` | infonotes-python.py:165 | a row of one-character cells joins to a line of the same length, with cell k at position k |
| `Rendering.RenderGrid` | infonotes-python.py:159-165 | the loop returns `Render` of the grid: `len(grid)` lines, line i joining row `len(grid) - 1 - i` |
| `Pipeline.Data` | infonotes-python.py:178-189 | the stages in sequence give exactly `Run(rows, repr, v)` |
| `Pipeline.RunOutcome` | infonotes-python.py:178-189 | no rows means nothing is rendered; an exception propagates exactly when some row raises `IndexError`, and it is always `IndexError` because the grid stage never raises here; "no valid coordinates" exactly when every row is skipped |
| `Pipeline.PrintedLines` | infonotes-python.py:183-189 | printed output has `max(y) + 1` lines, top row first and row 0 last |
| `Pipeline.AsWrittenPrintsOnlyLongRows` | infonotes-python.py:107-118 | as written, output is printed only when every row is skipped or has at least 22 digit runs, and some row has that many. A row is skipped when it is empty, has too few digit runs, or has a first run `int()` refuses |
| `Pipeline.IntendedNeverRaises` | infonotes-python.py:115 | with y read from the second digit run, `data` never raises |
| `Pipeline.AsWrittenTwoRowExample` | infonotes-python.py:115 | as written, the rows "X 0 0" and "Y 1 1" raise `IndexError` |
| `Pipeline.IntendedTwoRowExample` | infonotes-python.py:178-189 | read as intended, rows "a 0 0" and "b 1 1" (labels that are neither digits nor whitespace) print the cell text of `["b"]` after one space, and then the cell text of `["a"]` followed by a space: the y = 1 row above the y = 0 row |

## Left out

- `make_session` and `_timeout_wrapper` (lines 16-52): retry, back-off and timeout settings of the HTTP library. These are library configuration with floating-point values, not part of the grid logic.
- `fetch_html` (lines 55-68): network I/O and HTTP status handling.
- `parse_rows` (lines 71-90): a BeautifulSoup wrapper. Its output, the row texts after the header row, is the input `rows`.
- The `[warn]` messages (lines 111, 117) and `[info]` messages (lines 180, 185) on stderr are not modelled. Each `[warn]` is followed by `continue`, and the model makes that row `Skipped`. Each `[info]` is followed by a return from `data`, and those returns are `NoRows` and `NoCoordinates`.
- The `__main__` block (lines 192-201): argument handling, `sys.exit` and error printing. An exception that reaches it is `Raised(failure)`.
- Python's repr of a list in `str(ch)` (line 153): this is the parameter `repr`, not a formatter.
- `\d` and `int()` on non-ASCII decimal digits: the model treats only `'0'..'9'` as digits. Python's `\d` also matches other Unicode decimal digits; the model treats those as non-digits. In the model, `except ValueError` at lines 116-118 is reached only through the digit limit.
- `RowText.IntOf`: the limit is fixed at CPython's default of 4300 digits. A limit set with `sys.set_int_max_str_digits` or `PYTHONINTMAXSTRDIGITS`, and interpreters older than 3.11 that have no limit, are not modelled.
- Whitespace for `strip()` is the set of characters for which Python's `str.isspace()` holds, written out as a fixed list. The model does not use Python's Unicode tables.
- Printing: `render_grid` prints each line; `Render` and `RenderGrid` return the lines in print order.
- The grid is an `array2<string>`. Python's list of lists is always rectangular here, so nothing is lost. Aliasing between rows cannot happen in either.

## Findings

| source | as written | input that shows it | evidently intended | confidence | as-written member | corrected member |
|---|---|---|---|---|---|---|
| infonotes-python.py:115 | y is read from `digits[21]`; a row with 2 to 21 digit runs raises `IndexError`, which `except ValueError` does not catch, so `data` fails | the rows "X 0 0" and "Y 1 1" | y is read from `digits[1]`, the second number, as the docstring at line 95 says | high; not executed | `Pipeline.AsWrittenTwoRowExample` | `Pipeline.IntendedNeverRaises` |
| infonotes-python.py:150 | x is checked against `len(grid)`, the row count, so a point with x at least the number of rows is dropped | the single point (2, 0): the grid is 1 row by 3 columns and stays blank | x is checked against the row width `len(grid[0])`, so every non-negative point lands | medium; not executed | `Grid.WidePointDroppedExample` | `Grid.WidthGuardPlacesEveryPoint` |

Both halves of each finding stay in the model. The pipeline takes a
`Pipeline.Variant`: `Pipeline.AsWritten` reproduces the code, and
`Pipeline.Intended` applies both corrections.
`Pipeline.IntendedTwoRowExample` shows the corrected pipeline printing the
two-row example.
