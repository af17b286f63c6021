/** Figures: a `Figure` and how `Figure::draw` clips it against the
    terminal. Each line of the figure's text is placed at column `pos.x`,
    row `pos.y + i`; a line is drawn only when that cell is on screen, and
    a line that would run past the right edge is cut at the edge.

    The arithmetic here is exact: it is the behaviour the code evidently
    intends. Module FigureU16 models the code's own 16-bit arithmetic and
    proves that the two agree on every input that does not reach past the
    16-bit range. */
module Figures {
  import opened Points
  import opened Terminal
  import opened TextLines

  /** A figure is the text it was created from; nothing is parsed up front. */
  datatype Figure = Figure(text: string)

  /** `Figure::new`: keeps the text, empty or not. */
  function NewFigure(text: string): (f: Figure)
    ensures f.text == text
  {
    Figure(text)
  }

  /** One drawn line: the `MoveTo(col, row)` and the `print!` of `text` that
      follows it. */
  datatype Span = Span(col: u16, row: u16, text: string)

  function Min(a: int, b: int): int {
    if a <= b then a else b
  }

  /** The commands that draw the spans, in order: each span is a cursor move
      and then its text. */
  function SpanWrites(spans: seq<Span>): seq<Write> {
    if spans == [] then []
    else [MoveTo(spans[0].col, spans[0].row), Print(spans[0].text)] + SpanWrites(spans[1..])
  }

  /** Span `j` is written as commands `2j` (the move) and `2j + 1` (the text). */
  lemma {:induction false} SpanWritesAt(spans: seq<Span>)
    ensures |SpanWrites(spans)| == 2 * |spans|
    ensures forall j :: 0 <= j < |spans| ==>
      SpanWrites(spans)[2 * j] == MoveTo(spans[j].col, spans[j].row) &&
      SpanWrites(spans)[2 * j + 1] == Print(spans[j].text)
  {
    if spans != [] {
      SpanWritesAt(spans[1..]);
      var w := SpanWrites(spans);
      var rest := SpanWrites(spans[1..]);
      assert w == [MoveTo(spans[0].col, spans[0].row), Print(spans[0].text)] + rest;
      forall j | 1 <= j < |spans|
        ensures w[2 * j] == MoveTo(spans[j].col, spans[j].row) && w[2 * j + 1] == Print(spans[j].text)
      {
        assert spans[1..][j - 1] == spans[j];
        assert w[2 * j] == rest[2 * (j - 1)];
        assert w[2 * j + 1] == rest[2 * (j - 1) + 1];
      }
    }
  }

  lemma {:induction false} SpanWritesAppend(a: seq<Span>, b: seq<Span>)
    ensures SpanWrites(a + b) == SpanWrites(a) + SpanWrites(b)
  {
    if a == [] {
      assert a + b == b;
    } else {
      assert (a + b)[0] == a[0];
      assert (a + b)[1..] == a[1..] + b;
      SpanWritesAppend(a[1..], b);
    }
  }

  /** The part of a line starting at column `x` that is printed: the whole
      line when it ends left of the last column, otherwise a cut of length
      `len - (x + len - cols)`, which is `cols - x`. */
  function ClipText(line: string, x: u16, cols: u16): (t: string)
    requires x < cols
    ensures |t| == Min(|line|, cols as int - x as int) && t == line[..|t|]
    ensures x as int + |t| <= cols as int
    ensures x as int + |line| < cols as int ==> t == line
  {
    var len := |line|;
    if x as int + len < cols as int then line
    else line[..len - (x as int + len - cols as int)]
  }

  /** Line `i` of a figure at `pos` starts on screen. */
  predicate Visible(i: nat, pos: Point, cols: u16, rows: u16) {
    pos.y as int + i < rows as int && pos.x < cols
  }

  /** What one iteration of the drawing loop emits for line `i`. */
  function ClipLine(line: string, i: nat, pos: Point, cols: u16, rows: u16): (s: seq<Span>)
    ensures |s| == if Visible(i, pos, cols, rows) then 1 else 0
  {
    if Visible(i, pos, cols, rows) then
      [Span(pos.x, (pos.y as int + i) as u16, ClipText(line, pos.x, cols))]
    else []
  }

  /** The spans emitted for the first `n` lines, in line order. */
  function SpansUpTo(lines: seq<string>, n: nat, pos: Point, cols: u16, rows: u16): seq<Span>
    requires n <= |lines|
  {
    if n == 0 then []
    else SpansUpTo(lines, n - 1, pos, cols, rows) + ClipLine(lines[n - 1], n - 1, pos, cols, rows)
  }

  /** The spans `Figure::draw` emits for `f` at `pos`. */
  function FigureSpans(f: Figure, pos: Point, cols: u16, rows: u16): seq<Span> {
    var lines := Lines(f.text);
    SpansUpTo(lines, |lines|, pos, cols, rows)
  }

  /** The commands `Figure::draw` queues and prints for `f` at `pos`. */
  function FigureWrites(f: Figure, pos: Point, cols: u16, rows: u16): seq<Write> {
    SpanWrites(FigureSpans(f, pos, cols, rows))
  }

  /** How many of the first `n` lines are on screen: none when the figure
      starts right of the last column or below the last row, else as many
      as fit above the bottom edge. */
  function VisibleCount(n: nat, pos: Point, cols: u16, rows: u16): nat {
    if pos.x < cols && pos.y < rows then Min(n, rows as int - pos.y as int) else 0
  }

  /** The spans of the first `n` lines are exactly the visible lines, line
      `j` at column `pos.x` and row `pos.y + j` with its clipped text. */
  lemma {:induction false} SpansUpToShape(lines: seq<string>, n: nat, pos: Point, cols: u16, rows: u16)
    requires n <= |lines|
    ensures var s := SpansUpTo(lines, n, pos, cols, rows);
      |s| == VisibleCount(n, pos, cols, rows) &&
      forall j :: 0 <= j < |s| ==>
        pos.x < cols && s[j].col == pos.x && s[j].row as int == pos.y as int + j &&
        s[j].text == ClipText(lines[j], pos.x, cols)
  {
    if n > 0 {
      SpansUpToShape(lines, n - 1, pos, cols, rows);
      var prev := SpansUpTo(lines, n - 1, pos, cols, rows);
      var s := SpansUpTo(lines, n, pos, cols, rows);
      assert s == prev + ClipLine(lines[n - 1], n - 1, pos, cols, rows);
      if Visible(n - 1, pos, cols, rows) {
        assert |prev| == n - 1;
        assert s[n - 1] == Span(pos.x, (pos.y as int + n - 1) as u16, ClipText(lines[n - 1], pos.x, cols));
      } else {
        assert s == prev;
      }
    }
  }

  /** Line `i` of the figure is drawn (as the `i`-th span) if and only if
      its row is above the bottom edge and `pos.x` is left of the right
      edge; no other line produces output. */
  lemma LineDrawnIff(f: Figure, pos: Point, cols: u16, rows: u16, i: nat)
    ensures var lines := Lines(f.text);
      i < |FigureSpans(f, pos, cols, rows)| <==> i < |lines| && Visible(i, pos, cols, rows)
  {
    var lines := Lines(f.text);
    SpansUpToShape(lines, |lines|, pos, cols, rows);
  }

  /** Every drawn line is positioned at column `pos.x` and row `pos.y + i`
      before its text is printed, and rows strictly increase, so no row is
      written twice. */
  lemma DrawnLinesPlaced(f: Figure, pos: Point, cols: u16, rows: u16)
    ensures var s := FigureSpans(f, pos, cols, rows);
      var w := FigureWrites(f, pos, cols, rows);
      |w| == 2 * |s| &&
      (forall j :: 0 <= j < |s| ==>
        w[2 * j] == MoveTo(pos.x, s[j].row) && s[j].row as int == pos.y as int + j &&
        w[2 * j + 1] == Print(s[j].text)) &&
      (forall j, k :: 0 <= j < k < |s| ==> s[j].row < s[k].row)
  {
    var lines := Lines(f.text);
    SpansUpToShape(lines, |lines|, pos, cols, rows);
    SpanWritesAt(FigureSpans(f, pos, cols, rows));
  }

  /** Every printed text is a prefix of its own line, as long as fits
      between `pos.x` and the right edge, and the whole line when the line
      ends before the last column. */
  lemma DrawnTextClipped(f: Figure, pos: Point, cols: u16, rows: u16)
    ensures var lines := Lines(f.text);
      var s := FigureSpans(f, pos, cols, rows);
      |s| <= |lines| &&
      forall j :: 0 <= j < |s| ==>
        var t := s[j].text;
        |t| == Min(|lines[j]|, cols as int - pos.x as int) && t == lines[j][..|t|] &&
        pos.x as int + |t| <= cols as int &&
        (pos.x as int + |lines[j]| < cols as int ==> t == lines[j])
  {
    var lines := Lines(f.text);
    SpansUpToShape(lines, |lines|, pos, cols, rows);
  }

  /** A figure whose text has no lines (the empty text) draws nothing. */
  lemma EmptyFigureDrawsNothing(pos: Point, cols: u16, rows: u16)
    ensures FigureWrites(NewFigure(""), pos, cols, rows) == []
  {
  }

  /** A two-line figure straddling the right edge of a 10 by 2 terminal:
      only the two characters of each line that fit are printed. The text
      arrives as a parameter pinned by `requires` (here and in the helpers
      below) because a string literal in the contract makes Dafny unroll
      `Lines` on it eagerly, which costs far more than the proof itself. */
  lemma RightEdgeExample(f: Figure)
    requires f.text == "abc123\nhej"
    ensures FigureWrites(f, Point(8, 0), 10, 2)
         == [MoveTo(8, 0), Print("ab"), MoveTo(8, 1), Print("he")]
  {
    ExampleLines(f.text);
    var first, second := [Span(8, 0, "ab")], [Span(8, 1, "he")];
    ExampleSpans(Lines(f.text));
    SpanWritesAppend(first, second);
    assert SpanWrites(first) == [MoveTo(8, 0), Print("ab")];
    assert SpanWrites(second) == [MoveTo(8, 1), Print("he")];
  }

  /** The spans of the example's two lines. */
  lemma ExampleSpans(lines: seq<string>)
    requires lines == ["abc123", "hej"]
    ensures SpansUpTo(lines, 2, Point(8, 0), 10, 2) == [Span(8, 0, "ab")] + [Span(8, 1, "he")]
  {
    var pos := Point(8, 0);
    assert Visible(0, pos, 10, 2) && Visible(1, pos, 10, 2);
    assert ClipText(lines[0], 8, 10) == "ab";
    assert ClipText(lines[1], 8, 10) == "he";
    assert ClipLine(lines[0], 0, pos, 10, 2) == [Span(8, 0, "ab")];
    assert ClipLine(lines[1], 1, pos, 10, 2) == [Span(8, 1, "he")];
    assert SpansUpTo(lines, 1, pos, 10, 2) == [Span(8, 0, "ab")];
  }

  /** The example text splits into its two lines. */
  lemma ExampleLines(text: string)
    requires text == "abc123\nhej"
    ensures Lines(text) == ["abc123", "hej"]
  {
    ExampleFirstLine(text);
    var rest := text[7..];
    OneLine(rest);
    assert StripCR(text[..6]) == "abc123";
    assert Lines(text) == [StripCR(text[..6])] + Lines(rest);
  }

  /** The example's first line ends at index 6. */
  lemma ExampleFirstLine(text: string)
    requires text == "abc123" + "\nhej"
    ensures LineEnd(text) == 6 && text[..6] == "abc123" && text[7..] == "hej"
  {
    LineEndAt("abc123", "\nhej");
  }

  /** What drawing line `i` adds to the commands of the lines before it. */
  lemma DrawStep(lines: seq<string>, i: nat, pos: Point, cols: u16, rows: u16)
    requires i < |lines|
    ensures SpanWrites(SpansUpTo(lines, i + 1, pos, cols, rows))
         == SpanWrites(SpansUpTo(lines, i, pos, cols, rows)) +
            if Visible(i, pos, cols, rows)
            then [MoveTo(pos.x, (pos.y as int + i) as u16), Print(ClipText(lines[i], pos.x, cols))]
            else []
  {
    var step := ClipLine(lines[i], i, pos, cols, rows);
    assert SpansUpTo(lines, i + 1, pos, cols, rows) == SpansUpTo(lines, i, pos, cols, rows) + step;
    SpanWritesAppend(SpansUpTo(lines, i, pos, cols, rows), step);
    if Visible(i, pos, cols, rows) {
      assert step[1..] == [];
    }
  }

  /** The body of the loop in `Figure::draw` for line `i`: when the line
      starts on screen, move the cursor there and print the clipped line. */
  method DrawLine(line: string, i: nat, pos: Point, screen: Screen)
    modifies screen
    ensures screen.out == old(screen.out) +
      if Visible(i, pos, screen.cols, screen.rows)
      then [MoveTo(pos.x, (pos.y as int + i) as u16), Print(ClipText(line, pos.x, screen.cols))]
      else []
  {
    var cols, rows := screen.cols, screen.rows;
    if pos.y as int + i < rows as int && pos.x < cols {
      var len := |line|;
      screen.out := screen.out + [MoveTo(pos.x, (pos.y as int + i) as u16)];
      var text := if pos.x as int + len < cols as int then line
                  else line[..len - (pos.x as int + len - cols as int)];
      screen.out := screen.out + [Print(text)];
    }
  }

  /** `Figure::draw`: iterates over the lines of the text with their index,
      drawing each one. */
  method Draw(f: Figure, pos: Point, screen: Screen)
    modifies screen
    ensures screen.out == old(screen.out) + FigureWrites(f, pos, screen.cols, screen.rows)
  {
    var lines := Lines(f.text);
    for i := 0 to |lines|
      invariant screen.out == old(screen.out) + SpanWrites(SpansUpTo(lines, i, pos, screen.cols, screen.rows))
    {
      DrawStep(lines, i, pos, screen.cols, screen.rows);
      DrawLine(lines[i], i, pos, screen);
    }
  }
}
