/** FigureU16: the clipping loop of `Figure::draw` with the code's own
    arithmetic. The line index and the line length are cast to `u16`
    (keeping their low 16 bits), and every `+` and `-` on `u16` is checked:
    an overflow panics, so it is a precondition here.

    On every figure whose lines are shorter than 65536 characters and whose
    line indices stay below 65536, this loop emits exactly what the
    exact-arithmetic model in module Figures emits (AgreesWithExact). The
    lemmas at the end exhibit inputs on which it does not. */
module FigureU16 {
  import opened Points
  import opened TextLines
  import opened Figures

  /** Rust's `n as u16` on an unsigned value. */
  function AsU16(n: nat): u16 {
    (n % 0x1_0000) as u16
  }

  /** Drawing line `i` neither overflows `pos.y + i as u16` (tested for
      every line) nor `pos.x + line_length` (tested for lines that pass
      the on-screen test). */
  predicate LineNoPanic(line: string, i: nat, pos: Point, cols: u16, rows: u16) {
    pos.y as int + AsU16(i) as int <= U16_MAX &&
    (pos.y as int + AsU16(i) as int < rows as int && pos.x < cols ==>
      pos.x as int + AsU16(|line|) as int <= U16_MAX)
  }

  /** One iteration of the loop, as written. The slice bound
      `line_length - (pos.x + line_length - cols)` is computed in `u16`
      and is shown to be `cols - pos.x`, which never exceeds the line. */
  function ClipLineU16(line: string, i: nat, pos: Point, cols: u16, rows: u16): (s: seq<Span>)
    requires LineNoPanic(line, i, pos, cols, rows)
    ensures |s| <= 1
    ensures s != [] <==> pos.y as int + AsU16(i) as int < rows as int && pos.x < cols
    ensures s != [] ==> s[0].col == pos.x && s[0].row as int == pos.y as int + i % 0x1_0000
    ensures s != [] ==> |s[0].text| <= |line| && s[0].text == line[..|s[0].text|]
    ensures s != [] && pos.x as int + AsU16(|line|) as int >= cols as int ==>
      |s[0].text| == cols as int - pos.x as int
  {
    if pos.y + AsU16(i) < rows && pos.x < cols then
      var lineLength := AsU16(|line|);
      var text := if pos.x + lineLength < cols then line
                  else line[..lineLength - (pos.x + lineLength - cols)];
      [Span(pos.x, pos.y + AsU16(i), text)]
    else []
  }

  predicate LinesNoPanic(lines: seq<string>, n: nat, pos: Point, cols: u16, rows: u16)
    requires n <= |lines|
  {
    forall i :: 0 <= i < n ==> LineNoPanic(lines[i], i, pos, cols, rows)
  }

  /** The spans the loop emits for the first `n` lines, as written. */
  function SpansUpToU16(lines: seq<string>, n: nat, pos: Point, cols: u16, rows: u16): seq<Span>
    requires n <= |lines| && LinesNoPanic(lines, n, pos, cols, rows)
  {
    if n == 0 then []
    else SpansUpToU16(lines, n - 1, pos, cols, rows) + ClipLineU16(lines[n - 1], n - 1, pos, cols, rows)
  }

  /** A figure small enough for the casts to keep every value: fewer than
      65537 lines, each shorter than 65536 characters. */
  predicate Fits16(lines: seq<string>) {
    |lines| <= 0x1_0000 && forall i :: 0 <= i < |lines| ==> |lines[i]| < 0x1_0000
  }

  /** On a figure that fits and does not panic, each iteration as written
      emits what the exact model emits. */
  lemma ClipLineAgrees(line: string, i: nat, pos: Point, cols: u16, rows: u16)
    requires i < 0x1_0000 && |line| < 0x1_0000
    requires LineNoPanic(line, i, pos, cols, rows)
    ensures ClipLineU16(line, i, pos, cols, rows) == ClipLine(line, i, pos, cols, rows)
  {
    assert AsU16(i) as int == i && AsU16(|line|) as int == |line|;
  }

  lemma {:induction false} AgreesWithExact(lines: seq<string>, n: nat, pos: Point, cols: u16, rows: u16)
    requires n <= |lines| && Fits16(lines) && LinesNoPanic(lines, n, pos, cols, rows)
    ensures SpansUpToU16(lines, n, pos, cols, rows) == SpansUpTo(lines, n, pos, cols, rows)
  {
    if n > 0 {
      AgreesWithExact(lines, n - 1, pos, cols, rows);
      ClipLineAgrees(lines[n - 1], n - 1, pos, cols, rows);
    }
  }

  /** `Figure::draw` on `f` at `pos` runs without panicking. */
  predicate DrawNoPanic(f: Figure, pos: Point, cols: u16, rows: u16) {
    var lines := Lines(f.text);
    LinesNoPanic(lines, |lines|, pos, cols, rows)
  }

  /** The spans `Figure::draw` emits for `f` at `pos`, as written. */
  function FigureSpansU16(f: Figure, pos: Point, cols: u16, rows: u16): seq<Span>
    requires DrawNoPanic(f, pos, cols, rows)
  {
    var lines := Lines(f.text);
    SpansUpToU16(lines, |lines|, pos, cols, rows)
  }

  /** A figure that fits and does not panic is drawn as the exact model
      draws it. */
  lemma FigureAgreesWithExact(f: Figure, pos: Point, cols: u16, rows: u16)
    requires Fits16(Lines(f.text)) && DrawNoPanic(f, pos, cols, rows)
    ensures FigureSpansU16(f, pos, cols, rows) == FigureSpans(f, pos, cols, rows)
  {
    var lines := Lines(f.text);
    AgreesWithExact(lines, |lines|, pos, cols, rows);
  }

  /** A line of 65537 characters at column 0 of an 80-column terminal: its
      length is cast to 1, so the code prints all of it, running 65457
      characters past the right edge; the exact model prints 80. */
  lemma LongLineOverrunsRightEdge()
    ensures var line := seq(0x1_0001, _ => 'a');
      LineNoPanic(line, 0, Origin, 80, 24) &&
      ClipLineU16(line, 0, Origin, 80, 24) == [Span(0, 0, line)] && |line| > 80 &&
      ClipLine(line, 0, Origin, 80, 24) == [Span(0, 0, line[..80])]
  {
    var line := seq(0x1_0001, _ => 'a');
    assert AsU16(|line|) == 1;
  }

  /** Line 65536 of a figure at the origin: its index is cast to 0, so the
      code draws it again over row 0; the exact model leaves it below the
      screen. */
  lemma LineIndexWrapsToTop()
    ensures LineNoPanic("x", 0x1_0000, Origin, 80, 24) &&
      ClipLineU16("x", 0x1_0000, Origin, 80, 24) == [Span(0, 0, "x")] &&
      ClipLine("x", 0x1_0000, Origin, 80, 24) == []
  {
    assert AsU16(0x1_0000) == 0;
  }

  /** A two-line figure placed at row 65535, below any screen: the row of its
      second line overflows and the code panics; the exact model draws
      nothing. */
  lemma OffScreenFigurePanics()
    ensures !LineNoPanic("x", 1, Point(0, 0xFFFF), 80, 24) &&
      ClipLine("x", 1, Point(0, 0xFFFF), 80, 24) == []
  {
    assert AsU16(1) == 1;
  }

  /** A line of 65530 characters at column 10: `pos.x + line_length`
      overflows and the code panics; the exact model prints the 70
      characters that fit. */
  lemma LongLineOverflowPanics()
    ensures var line := seq(65530, _ => 'a');
      !LineNoPanic(line, 0, Point(10, 0), 80, 24) &&
      ClipLine(line, 0, Point(10, 0), 80, 24) == [Span(10, 0, line[..70])]
  {
    var line := seq(65530, _ => 'a');
    assert AsU16(|line|) == 65530;
  }
}
