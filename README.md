# ascii_canvas in Dafny

A model of the `asciicanvas` library: a `Canvas` that queues ASCII-art
`Figure`s with their `Point` positions, and on `draw` clears the terminal and
prints every queued figure, line by line. Each line is clipped against the
terminal size. A line whose row is below the bottom edge, or whose start
column is right of the right edge, is skipped. A line that would run past the
right edge is cut at it.

Standard output is modelled as a trace of commands (`Terminal.Write`):
`ClearAll`, `MoveTo(col, row)` and `Print(text)`. The object that holds it,
`Terminal.Screen`, also holds the terminal size that `size()` would report.

Modules, leaves first:

- `Points` (points.dfy): `u16` as a newtype, `Point`, and the four
  componentwise operators. Each operator requires what keeps the Rust operator
  from panicking: no overflow, no underflow, no division by zero.
- `TextLines` (text_lines.dfy): Rust's `str::lines()`. A line ends at `\n` or
  `\r\n`. A final terminator does not start an empty line.
- `Terminal` (terminal.dfy): the command trace and the screen.
- `Figures` (figures.dfy): a figure, the clipping of its lines with exact
  integer arithmetic, and `Draw`, the loop of `Figure::draw`.
- `FigureU16` (figure_u16.dfy): the same loop with the code's own `u16` casts
  and checked additions. It proves that this loop agrees with `Figures` on
  every figure that stays inside the 16-bit range, and it gives inputs where
  the two differ (see Findings).
- `Canvases` (canvas.dfy): the `Canvas` class with its `drawList`, and
  `FrameWrites`, the commands for a whole queue.

A figure is just its text, and an empty figure draws nothing.

## Model

| member | source | states |
|---|---|---|
| `Points.Add` | src/lib.rs:24-33 | each component of the result is the sum of the components; requires that neither sum exceeds 65535, where the Rust `+` panics |
| `Points.Sub` | src/lib.rs:35-44 | each component is the difference; requires `rhs <= self` in both components, where the Rust `-` panics |
| `Points.Mul` | src/lib.rs:46-55 | each component is the product; requires that neither product exceeds 65535 |
| `Points.Div` | src/lib.rs:57-66 | each component is the truncated quotient `q` with `q*d <= n < (q+1)*d`; requires both divisors nonzero |
| `Points.AddThenSub` | src/lib.rs:24-44 | subtracting what was added gives the original point, and the subtraction cannot underflow |
| `Points.SubThenAdd` | src/lib.rs:24-44 | adding back what was subtracted gives the original point, and the addition cannot overflow |
| `Points.MulThenDiv` | src/lib.rs:46-66 | dividing a product by a nonzero factor gives the other factor back |
| `Points.AddCommutes` | src/lib.rs:11-33 | `+` is commutative, and the default point (0, 0) is its identity |
| `TextLines.LinesHaveNoNewline` | src/lib.rs:91 | no line from `lines()` contains `\n` |
| `TextLines.LinesCount` | src/lib.rs:91 | there is one line per `\n`, plus one when the text is nonempty and does not end in `\n` |
| `TextLines.UnlinesLines` | src/lib.rs:91 | for text without `\r`, the lines each followed by `\n` rebuild the text; a `\n` is added only when the last line had none |
| `TextLines.LinesUnlines` | src/lib.rs:91 | lines that contain no `\n` and do not end in `\r` are recovered exactly from their `\n`-joined text |
| `TextLines.OneLine` | src/lib.rs:91 | nonempty text without `\n` is one line |
| `Figures.NewFigure` | src/lib.rs:79-84 | a figure keeps its text unchanged, and the empty text is accepted |
| `Figures.ClipText` | src/lib.rs:93-100 | the printed text is the prefix of the line of length `min(len, cols - x)`; the cut `len - (x + len - cols)` is in bounds; the text never reaches past column `cols`; the whole line is printed when `x + len < cols` |
| `Figures.ClipLine` | src/lib.rs:92-102 | one loop iteration emits one span exactly when `pos.y + i < rows` and `pos.x < cols`, and nothing otherwise |
| `Figures.SpanWritesAt` | src/lib.rs:94-101 | each drawn line is written as a `MoveTo` immediately followed by its `Print` |
| `Figures.SpansUpToShape` | src/lib.rs:91-103 | the first `n` lines emit exactly `VisibleCount` spans; span `j` comes from line `j`, at column `pos.x` and row `pos.y + j`, with the clipped text of line `j` |
| `Figures.LineDrawnIff` | src/lib.rs:91-92 | line `i` is drawn if and only if it exists, `pos.y + i < rows` and `pos.x < cols` |
| `Figures.DrawnLinesPlaced` | src/lib.rs:91-101 | every drawn line is a `MoveTo(pos.x, pos.y + j)` followed by its `Print`; rows strictly increase, so each row is written at most once |
| `Figures.DrawnTextClipped` | src/lib.rs:93-101 | every printed text is a prefix of its own line, of length `min(len, cols - pos.x)`, ends at or before column `cols`, and is the whole line when it fits |
| `Figures.EmptyFigureDrawsNothing` | src/lib.rs:79-91 | a figure made from the empty text writes nothing |
| `Figures.RightEdgeExample` | src/lib.rs:92-101 | `"abc123\nhej"` at (8, 0) on a 10 by 2 terminal prints `"ab"` at row 0 and `"he"` at row 1 |
| `Figures.DrawLine` | src/lib.rs:92-102 | one iteration appends `MoveTo(pos.x, pos.y + i)` and the clipped line when the line starts on screen, and nothing otherwise |
| `Figures.Draw` | src/lib.rs:86-104 | the loop over the enumerated lines appends exactly `FigureWrites` of the figure to the trace |
| `FigureU16.ClipLineU16` | src/lib.rs:92-101 | with `u16` casts and checked arithmetic, a line is emitted exactly when the cast row is on screen; the printed text is a prefix of the line, so the slice is in bounds; and when the cut applies, the slice length `len - (pos.x + len - cols)` equals `cols - pos.x` |
| `FigureU16.ClipLineAgrees` | src/lib.rs:92-101 | for an index and a length below 65536, one iteration as written emits the same as the exact model |
| `FigureU16.AgreesWithExact` | src/lib.rs:91-103 | on lines that fit in 16 bits and do not panic, the loop as written emits the same spans as the exact model |
| `FigureU16.FigureAgreesWithExact` | src/lib.rs:87-104 | `Figure::draw` as written and the exact model draw a fitting, non-panicking figure identically |
| `FigureU16.LongLineOverrunsRightEdge` | src/lib.rs:93-96 | a 65537-character line at column 0 of an 80-column terminal is printed whole, past the right edge, while the exact model prints 80 characters |
| `FigureU16.LineIndexWrapsToTop` | src/lib.rs:91-94 | line 65536 of a figure at the origin is drawn over row 0, while the exact model skips it |
| `FigureU16.OffScreenFigurePanics` | src/lib.rs:92 | the second line of a figure at row 65535 overflows `pos.y + i`, while the exact model just skips it |
| `FigureU16.LongLineOverflowPanics` | src/lib.rs:95 | a 65530-character line at column 10 overflows `pos.x + line_length`, while the exact model prints the 70 characters that fit |
| `Canvases.FrameWritesAppend` | src/lib.rs:143-146 | drawing a queue is drawing its parts one after the other, so entries are drawn in insertion order |
| `Canvases.FrameWritesSingle` | src/lib.rs:143-146 | a queued entry is drawn as its own figure at its own queued position |
| `Canvases.FrameWritesPush` | src/lib.rs:134-146 | one more queued entry adds exactly that figure's commands after those already queued |
| `Canvases.Canvas.constructor` | src/lib.rs:112-122 | a new (or default) canvas has an empty draw list |
| `Canvases.Canvas.AddDrawing` | src/lib.rs:134-136 | appends exactly one `(drawing, position)` at the end of the draw list and changes nothing else |
| `Canvases.Canvas.Draw` | src/lib.rs:139-149 | leaves the draw list empty; the trace gains a screen clear followed by every queued figure's commands, in queue order, each at its own position |
| `Canvases.DrawTwice` | src/lib.rs:134-149 | two figures added to a new canvas are drawn after a clear, first then second; a second `draw` with nothing queued only clears the screen |

## Left out

- Terminal modes in `Canvas::init` and `Canvas::revert` (alternate screen, line wrap, cursor): these are crossterm calls with no logic.
- Flushing standard output in `Canvas::draw`. The trace of `Write`s stands for what is queued and printed; `print!` buffering is not modelled.
- The `size()` query in `Figure::draw`. `Screen.cols` and `Screen.rows` are fixed per screen, so a terminal resized in the middle of a frame is not modelled.
- The `.unwrap()` calls on I/O results: a failing terminal write or size query, which panics in the code, is not modelled.
- The `Draw` trait and the boxed trait objects in the draw list. `Figure` is the only implementation, so the draw list holds figures directly.
- Non-ASCII text. The code counts `chars()` but slices by bytes, which can panic on a multi-byte character. The model slices characters, which agrees with the code on ASCII text.
- Release builds, where `u16` overflow wraps instead of panicking. The model follows debug-build semantics: overflow is a precondition in `Points` and in `FigureU16`.
- The derived `PartialOrd`, `Ord` and `Debug` on `Point`, which the core does not use. `Point::new` is the datatype constructor `Point`.
- The demo program src/bin/main.rs, which only queues two constant figures and sleeps.
- Figures.Draw: computes with exact integers instead of the code's `u16` casts and checked additions (see Findings). The code as written is `FigureU16`, and `FigureU16.FigureAgreesWithExact` proves the two the same on every figure with fewer than 65537 lines, each shorter than 65536 characters, that does not panic.

## Findings

Each finding comes from a disagreement between the code's 16-bit arithmetic
(`FigureU16`) and the clipping the code evidently intends (`Figures`). The
rest of the model, including `Canvas::draw`, uses the intended clipping.

| source | as written | input that shows it | evidently intended | confidence | as-written member | corrected member |
|---|---|---|---|---|---|---|
| src/lib.rs:93-96 | `chars().count() as u16` keeps only the low 16 bits of the length, so the right-edge test can pass for a long line | a line of 65537 characters at (0, 0) on an 80 by 24 terminal: the length becomes 1 and the whole line is printed | cut the line at the right edge, printing `cols - pos.x` characters | not executed; follows from the cast | `FigureU16.LongLineOverrunsRightEdge` | `Figures.ClipText` |
| src/lib.rs:91-94 | `line.0 as u16` wraps the line index, so line 65536 passes the bottom-edge test | line 65536 of a figure at (0, 0) on an 80 by 24 terminal is drawn again at row 0 | skip every line below the bottom edge | not executed; follows from the cast | `FigureU16.LineIndexWrapsToTop` | `Figures.LineDrawnIff` |
| src/lib.rs:92 | `pos.y + (line.0 as u16)` is a `u16` addition that overflows for a figure near row 65535 (a panic in debug builds) | the second line of the two-line figure `"x\nx"` at (0, 65535) | skip the off-screen line | not executed; follows from the checked addition | `FigureU16.OffScreenFigurePanics` | `Figures.ClipLine` |
| src/lib.rs:95 | `pos.x + line_length` is a `u16` addition that overflows for a long line that starts on screen | a line of 65530 characters at (10, 0) on an 80 by 24 terminal | print the 70 characters that fit | not executed; follows from the checked addition | `FigureU16.LongLineOverflowPanics` | `Figures.DrawnTextClipped` |
