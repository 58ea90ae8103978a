/**
 * What the model gives for concrete shapes, proved: a triangle fill, a
 * bucket whose shared edge was recorded backwards, and an open stroke.
 */
module Scenarios {
  import opened Wrappers
  import opened Edges
  import opened Styles
  import opened Stitcher
  import opened Exporter

  const Red: Color := Rgba(255, 0, 0, 255)

  function Line(x0: int, y0: int, x1: int, y1: int, fill: nat, line: nat): Edge
  {
    StraightEdge(Point(x0, y0), Point(x1, y1), fill, line, false)
  }

  /** The triangle (0,0)→(10,0)→(10,10)→(0,0), recorded in drawing order with fill 1. */
  const Triangle: seq<Edge> := [Line(0, 0, 10, 0, 1, 0), Line(10, 0, 10, 10, 1, 0), Line(10, 10, 0, 0, 1, 0)]

  /** A bucket that is already one closed loop comes out of stitching unchanged. */
  lemma TriangleStitchesToItself()
    ensures CleanPath(Triangle) == Triangle
  {
    var a, b, c := Triangle[0], Triangle[1], Triangle[2];
    assert Triangle[..0] + Triangle[1..] == [b, c];
    assert [b, c][..0] + [b, c][1..] == [c];
    assert [c][..0] + [c][1..] == [];
    assert Stitch([c], 0, Some(b)) == [c];
    assert Stitch([b, c], 0, Some(a)) == [b, c];
  }

  /** The triangle's fill pass: one fill in the style's colour, one move-to, three lines. */
  lemma TriangleFillCommands()
    ensures ExportFillPath(Triangle, [SolidFill(Red)])
            == Success([BeginFills, BeginFill(Red), MoveTo(Point(0, 0)),
                        LineTo(Point(10, 0)), LineTo(Point(10, 10)), LineTo(Point(0, 0)),
                        EndFill, EndFills])
  {
    var styles := [SolidFill(Red)];
    var a, b, c := Line(0, 0, 10, 0, 1, 0), Line(10, 0, 10, 10, 1, 0), Line(10, 10, 0, 0, 1, 0);
    assert Triangle == [a, b, c];
    assert Triangle[1..] == [b, c];
    assert [b, c][1..] == [c];
    assert [c][1..] == [];
    var r3 := FillLoop([], styles, Point(0, 0), 1);
    assert r3.Success? && r3.value == [EndFill];
    var r2 := FillLoop([c], styles, Point(10, 10), 1);
    assert r2.Success? && r2.value == [LineTo(Point(0, 0))] + r3.value;
    var r1 := FillLoop([b, c], styles, Point(10, 0), 1);
    assert r1.Success? && r1.value == [LineTo(Point(10, 10))] + r2.value;
    assert ResolveFill(styles, 1) == Success(Red);
    var r0 := FillLoop(Triangle, styles, NoPosition, IntMax);
    assert r0.Success? && r0.value == [BeginFill(Red), MoveTo(Point(0, 0)), LineTo(Point(10, 0))] + r1.value;
    var out := ExportFillPath(Triangle, styles);
    assert out.Success? && out.value == [BeginFills] + r0.value + [EndFills];
    assert out.value == [BeginFills, BeginFill(Red), MoveTo(Point(0, 0)),
                        LineTo(Point(10, 0)), LineTo(Point(10, 10)), LineTo(Point(0, 0)),
                        EndFill, EndFills];
  }

  /**
   * The right triangle's bucket holds the shared edge (0,0)→(10,10) as the
   * left triangle recorded it; stitching flips it to close the loop.
   */
  const Backwards: Edge := Line(0, 0, 10, 10, 1, 0)
  const RightBucket: seq<Edge> := [Line(0, 0, 10, 0, 1, 0), Backwards, Line(10, 0, 10, 10, 1, 0)]

  lemma SharedEdgeIsFlipped()
    ensures CleanPath(RightBucket)
            == [Line(0, 0, 10, 0, 1, 0), Line(10, 0, 10, 10, 1, 0), Backwards.ReverseWithStyle(1)]
  {
    var a, d, b := RightBucket[0], RightBucket[1], RightBucket[2];
    var f := d.ReverseWithStyle(1);
    assert RightBucket[..0] + RightBucket[1..] == [d, b];
    // After a: idx 0 holds d, which does not continue; b starts at (10,0).
    assert FirstAt([d, b], Start, a.to) == Some(1);
    assert [d, b][..1] + [d, b][2..] == [d];
    // After b: d ends at (10,10) and is flipped in place.
    assert FirstAt([d], Start, b.to) == None;
    assert FirstAt([d], End, b.to) == Some(0);
    assert [d][0 := f] == [f];
    assert [f][..0] + [f][1..] == [];
    assert Stitch([f], 0, Some(b)) == [f];
    assert Stitch([d], 0, Some(b)) == [f];
    assert Stitch([d, b], 1, Some(a)) == [b, f];
    assert Stitch([d, b], 0, Some(a)) == [b, f];
  }

  /** An open polyline (0,0)→(10,0)→(10,10)→(20,10) with line style 1. */
  const Polyline: seq<Edge> := [Line(0, 0, 10, 0, 0, 1), Line(10, 0, 10, 10, 0, 1), Line(10, 10, 20, 10, 0, 1)]

  /** Its stroke pass ends with EndLines(false): the figure is left open. */
  lemma OpenPolylineStaysOpen()
    ensures ExportLinePath(Polyline, [LineStyleRGB(20, Red)])
            == Success([BeginLines, LineStyle(20, Red), MoveTo(Point(0, 0)),
                        LineTo(Point(10, 0)), LineTo(Point(10, 10)), LineTo(Point(20, 10)),
                        EndLines(false)])
  {
    var styles := [LineStyleRGB(20, Red)];
    var a, b, c := Line(0, 0, 10, 0, 0, 1), Line(10, 0, 10, 10, 0, 1), Line(10, 10, 20, 10, 0, 1);
    assert Polyline == [a, b, c];
    assert Polyline[1..] == [b, c];
    assert [b, c][1..] == [c];
    assert [c][1..] == [];
    var r3 := LineLoop([], styles, Point(20, 10), Point(0, 0), 1);
    assert r3.Success? && r3.value == [EndLines(false)];
    var r2 := LineLoop([c], styles, Point(10, 10), Point(0, 0), 1);
    assert r2.Success? && r2.value == [LineTo(Point(20, 10))] + r3.value;
    var r1 := LineLoop([b, c], styles, Point(10, 0), Point(0, 0), 1);
    assert r1.Success? && r1.value == [LineTo(Point(10, 10))] + r2.value;
    assert ResolveLine(styles, 1) == Success(LineStyleRGB(20, Red));
    var r0 := LineLoop(Polyline, styles, NoPosition, NoPosition, IntMax);
    assert r0.Success? && r0.value == [LineStyle(20, Red), MoveTo(Point(0, 0)), LineTo(Point(10, 0))] + r1.value;
    var out := ExportLinePath(Polyline, styles);
    assert out.Success? && out.value == [BeginLines] + r0.value;
    assert out.value == [BeginLines, LineStyle(20, Red), MoveTo(Point(0, 0)),
                        LineTo(Point(10, 0)), LineTo(Point(10, 10)), LineTo(Point(20, 10)),
                        EndLines(false)];
  }
}
