/** Canvases: the `Canvas` draw queue. Figures are queued with their
    positions; `draw` takes the whole queue, leaving it empty, clears the
    screen and draws the queued figures in the order they were added. */
module Canvases {
  import opened Points
  import opened Terminal
  import opened Figures

  /** One queued drawing: a figure (the only kind of drawing there is) and
      where to draw it. */
  type Entry = (Figure, Point)

  /** The commands that draw the queued entries, in queue order. */
  function FrameWrites(queue: seq<Entry>, cols: u16, rows: u16): seq<Write> {
    Concat(EntryWrites(queue, cols, rows))
  }

  /** Entry `i`'s commands: its figure drawn at its own position. */
  function EntryWrites(queue: seq<Entry>, cols: u16, rows: u16): (parts: seq<seq<Write>>)
    ensures |parts| == |queue|
    ensures forall i :: 0 <= i < |queue| ==> parts[i] == FigureWrites(queue[i].0, queue[i].1, cols, rows)
  {
    seq(|queue|, i requires 0 <= i < |queue| => FigureWrites(queue[i].0, queue[i].1, cols, rows))
  }

  function Concat(parts: seq<seq<Write>>): seq<Write> {
    if parts == [] then [] else Concat(parts[..|parts| - 1]) + parts[|parts| - 1]
  }

  lemma {:induction false} ConcatAppend(a: seq<seq<Write>>, b: seq<seq<Write>>)
    ensures Concat(a + b) == Concat(a) + Concat(b)
    decreases |b|
  {
    if b == [] {
      assert a + b == a;
    } else {
      var init, last := b[..|b| - 1], b[|b| - 1];
      var ab := a + b;
      assert ab[..|ab| - 1] == a + init;
      assert ab[|ab| - 1] == last;
      ConcatAppend(a, init);
    }
  }

  /** Drawing two queues one after the other is drawing their concatenation:
      every entry is drawn in insertion order. */
  lemma FrameWritesAppend(a: seq<Entry>, b: seq<Entry>, cols: u16, rows: u16)
    ensures FrameWrites(a + b, cols, rows) == FrameWrites(a, cols, rows) + FrameWrites(b, cols, rows)
  {
    var pa, pb := EntryWrites(a, cols, rows), EntryWrites(b, cols, rows);
    assert EntryWrites(a + b, cols, rows) == pa + pb;
    ConcatAppend(pa, pb);
  }

  /** A queue of one entry draws that figure at its own position. */
  lemma FrameWritesSingle(e: Entry, cols: u16, rows: u16)
    ensures FrameWrites([e], cols, rows) == FigureWrites(e.0, e.1, cols, rows)
  {
    var parts := EntryWrites([e], cols, rows);
    assert parts == [FigureWrites(e.0, e.1, cols, rows)];
    assert parts[..0] == [];
    assert Concat(parts) == Concat(parts[..0]) + parts[0];
    assert Concat(parts[..0]) == [];
    assert FrameWrites([e], cols, rows) == Concat(parts);
  }

  /** Queueing one more entry adds exactly that figure's commands after the
      ones already queued. */
  lemma FrameWritesPush(queue: seq<Entry>, e: Entry, cols: u16, rows: u16)
    ensures FrameWrites(queue + [e], cols, rows)
         == FrameWrites(queue, cols, rows) + FigureWrites(e.0, e.1, cols, rows)
  {
    FrameWritesAppend(queue, [e], cols, rows);
    FrameWritesSingle(e, cols, rows);
  }

  class Canvas {
    var drawList: seq<Entry>

    /** `Canvas::new` (and `Canvas::default`): an empty queue. */
    constructor ()
      ensures drawList == []
    {
      drawList := [];
    }

    /** `Canvas::add_drawing`: appends one entry and changes nothing else;
        nothing is checked at queue time. */
    method AddDrawing(drawing: Figure, position: Point)
      modifies this
      ensures drawList == old(drawList) + [(drawing, position)]
    {
      drawList := drawList + [(drawing, position)];
    }

    /** `Canvas::draw`: takes the queue, leaving it empty, queues a screen
        clear and then draws every taken entry in queue order. */
    method Draw(screen: Screen)
      modifies this, screen
      ensures drawList == []
      ensures screen.out == old(screen.out) + [ClearAll] + FrameWrites(old(drawList), screen.cols, screen.rows)
    {
      var list := drawList;
      drawList := [];
      screen.out := screen.out + [ClearAll];
      for k := 0 to |list|
        invariant drawList == []
        invariant screen.out == old(screen.out) + [ClearAll] + FrameWrites(list[..k], screen.cols, screen.rows)
      {
        var (drawing, pos) := list[k];
        assert list[..k + 1] == list[..k] + [(drawing, pos)];
        FrameWritesPush(list[..k], (drawing, pos), screen.cols, screen.rows);
        Figures.Draw(drawing, pos, screen);
      }
      assert list[..|list|] == list;
    }
  }

  /** Two figures added to a new canvas and drawn: the screen is cleared,
      then the first figure is drawn, then the second. The queue is empty
      afterwards, so drawing again only clears the screen. */
  method DrawTwice(f1: Figure, p1: Point, f2: Figure, p2: Point, screen: Screen)
    modifies screen
    ensures screen.out == old(screen.out) + [ClearAll]
      + FigureWrites(f1, p1, screen.cols, screen.rows)
      + FigureWrites(f2, p2, screen.cols, screen.rows) + [ClearAll]
  {
    assert EntryWrites([], screen.cols, screen.rows) == [];
    assert FrameWrites([], screen.cols, screen.rows) == [];
    var canvas := new Canvas();
    canvas.AddDrawing(f1, p1);
    assert canvas.drawList == [(f1, p1)];
    canvas.AddDrawing(f2, p2);
    FrameWritesPush([(f1, p1)], (f2, p2), screen.cols, screen.rows);
    FrameWritesSingle((f1, p1), screen.cols, screen.rows);
    assert [(f1, p1)] + [(f2, p2)] == [(f1, p1), (f2, p2)];
    canvas.Draw(screen);
    ghost var drawn := screen.out;
    canvas.Draw(screen);
    assert screen.out == drawn + [ClearAll];
  }
}
