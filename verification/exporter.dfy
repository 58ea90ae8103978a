/**
 * The path exporter of SwfShapeRGB (Export, ExportFillPath, ExportLinePath):
 * walks each group's stitched buckets in ascending style order and emits
 * the IShapeHandler calls as a sequence of commands.
 */
module Exporter {
  import opened Wrappers
  import opened Edges
  import opened Styles
  import opened EdgeMaps
  import opened Shape

  /** The IShapeHandler calls the engine makes. */
  datatype Command =
    | BeginShape | EndShape
    | BeginFills | EndFills
    | BeginLines | EndLines(close: bool)
    | BeginFill(color: Color) | EndFill
    | LineStyle(thickness: nat, color: Color)
    | MoveTo(pos: Point)
    | LineTo(pos: Point)
    | CurveTo(control: Point, anchor: Point)

  /** int.MaxValue, the exporters' "no style yet" index and "nowhere" coordinate. */
  const IntMax: int := 0x7FFF_FFFF

  /** The pen position the exporters start from and reset to on a style change. */
  const NoPosition: Point := Point(IntMax, IntMax)

  /** The colour BeginFill receives for a fill index: black for 0, the entry's colour for a solid fill. */
  function ResolveFill(fillStyles: seq<FillStyleRGB>, idx: nat): (r: Result<Color, ShapeError>)
    ensures idx == 0 ==> r == Success(Black)
    ensures idx > |fillStyles| ==> r == Failure(FillStyleOutOfRange(idx))
    ensures 0 < idx <= |fillStyles| ==>
              (r.Success? <==> fillStyles[idx - 1].SolidFill?)
              && (r.Success? ==> r.value == fillStyles[idx - 1].color)
              && (r.Failure? ==> r.error == UnsupportedFillStyle(idx))
  {
    if idx == 0 then Success(Black)
    else if idx > |fillStyles| then Failure(FillStyleOutOfRange(idx))
    else match fillStyles[idx - 1]
      case SolidFill(c) => Success(c)
      case UnsupportedFill => Failure(UnsupportedFillStyle(idx))
  }

  /** The width and colour LineStyle receives for a line index: (0, black) for 0, the table entry otherwise. */
  function ResolveLine(lineStyles: seq<LineStyleRGB>, idx: nat): (r: Result<LineStyleRGB, ShapeError>)
    ensures idx == 0 ==> r == Success(LineStyleRGB(0, Black))
    ensures idx > |lineStyles| ==> r == Failure(LineStyleOutOfRange(idx))
    ensures 0 < idx <= |lineStyles| ==> r == Success(lineStyles[idx - 1])
  {
    if idx == 0 then Success(LineStyleRGB(0, Black))
    else if idx > |lineStyles| then Failure(LineStyleOutOfRange(idx))
    else Success(lineStyles[idx - 1])
  }

  /** The drawing call for one edge: CurveTo for a curve, LineTo for a straight edge. */
  function DrawEdge(e: Edge): Command
  {
    if e.CurvedEdge? then CurveTo(e.control, e.to) else LineTo(e.to)
  }

  /**
   * The foreach loop of ExportFillPath from pen `pos` and fill `styleIdx`,
   * then the final EndFill. Each edge of the path is drawn exactly once.
   */
  function FillLoop(path: seq<Edge>, fillStyles: seq<FillStyleRGB>, pos: Point, styleIdx: int): (r: Result<seq<Command>, ShapeError>)
    ensures r.Success? ==> DrawCount(r.value) == |path|
    decreases |path|
  {
    if |path| == 0 then Success(if styleIdx != IntMax then [EndFill] else [])
    else
      var e := path[0];
      if styleIdx != e.fillStyleIdx then
        var color :- ResolveFill(fillStyles, e.fillStyleIdx);
        var head := (if styleIdx != IntMax then [EndFill] else []) + [BeginFill(color)]
                    + (if NoPosition != e.from then [MoveTo(e.from)] else []) + [DrawEdge(e)];
        var rest :- FillLoop(path[1..], fillStyles, e.to, e.fillStyleIdx);
        DrawCountOneDraw(head, rest);
        Success(head + rest)
      else
        var head := (if pos != e.from then [MoveTo(e.from)] else []) + [DrawEdge(e)];
        var rest :- FillLoop(path[1..], fillStyles, e.to, styleIdx);
        DrawCountOneDraw(head, rest);
        Success(head + rest)
  }

  /** The number of drawing calls (LineTo and CurveTo) in a command list. */
  function DrawCount(cmds: seq<Command>): nat
  {
    if |cmds| == 0 then 0 else (if IsDraw(cmds[0]) then 1 else 0) + DrawCount(cmds[1..])
  }

  lemma {:induction false} DrawCountAppend(a: seq<Command>, b: seq<Command>)
    ensures DrawCount(a + b) == DrawCount(a) + DrawCount(b)
    decreases |a|
  {
    if |a| > 0 {
      assert (a + b)[1..] == a[1..] + b;
      DrawCountAppend(a[1..], b);
    } else {
      assert a + b == b;
    }
  }

  /** Framing calls that draw nothing leave the draw count of what they frame unchanged. */
  lemma DrawCountWrapped(pre: seq<Command>, body: seq<Command>, post: seq<Command>)
    requires forall i :: 0 <= i < |pre| ==> !IsDraw(pre[i])
    requires forall i :: 0 <= i < |post| ==> !IsDraw(post[i])
    ensures DrawCount(pre + body + post) == DrawCount(body)
  {
    DrawCountAppend(pre + body, post);
    DrawCountAppend(pre, body);
    NoDrawsCount(pre);
    NoDrawsCount(post);
  }

  /** A head of set-up calls ending in one drawing call adds one draw to what follows it. */
  lemma DrawCountOneDraw(head: seq<Command>, rest: seq<Command>)
    requires |head| > 0 && IsDraw(head[|head| - 1])
    requires forall i :: 0 <= i < |head| - 1 ==> !IsDraw(head[i])
    ensures DrawCount(head + rest) == 1 + DrawCount(rest)
  {
    DrawCountAppend(head, rest);
    NoDrawsCount(head[..|head| - 1]);
    DrawCountAppend(head[..|head| - 1], [head[|head| - 1]]);
    assert head[..|head| - 1] + [head[|head| - 1]] == head;
  }

  lemma {:induction false} NoDrawsCount(s: seq<Command>)
    requires forall i :: 0 <= i < |s| ==> !IsDraw(s[i])
    ensures DrawCount(s) == 0
    decreases |s|
  {
    if |s| > 0 {
      NoDrawsCount(s[1..]);
    }
  }

  /** ExportFillPath for a group's flattened fill path: nothing for an empty path, else a bracketed fill pass. */
  function ExportFillPath(path: seq<Edge>, fillStyles: seq<FillStyleRGB>): (r: Result<seq<Command>, ShapeError>)
    ensures |path| == 0 ==> r == Success([])
    ensures r.Success? && |path| > 0 ==>
              |r.value| >= 2 && r.value[0] == BeginFills && r.value[|r.value| - 1] == EndFills
    ensures r.Success? ==> DrawCount(r.value) == |path|
  {
    if |path| == 0 then Success([])
    else
      var body :- FillLoop(path, fillStyles, NoPosition, IntMax);
      DrawCountWrapped([BeginFills], body, [EndFills]);
      Success([BeginFills] + body + [EndFills])
  }

  /** The foreach loop of ExportLinePath from pen `pos`, last move-to point `lastMove` and line `styleIdx`, then EndLines. */
  function LineLoop(path: seq<Edge>, lineStyles: seq<LineStyleRGB>, pos: Point, lastMove: Point, styleIdx: int): (r: Result<seq<Command>, ShapeError>)
    ensures r.Success? ==> DrawCount(r.value) == |path|
    decreases |path|
  {
    if |path| == 0 then Success([EndLines(pos == lastMove)])
    else
      var e := path[0];
      if styleIdx != e.lineStyleIdx then
        var style :- ResolveLine(lineStyles, e.lineStyleIdx);
        var moves := NoPosition != e.from;
        var head := [LineStyle(style.width, style.color)] + (if moves then [MoveTo(e.from)] else []) + [DrawEdge(e)];
        var rest :- LineLoop(path[1..], lineStyles, e.to, if moves then e.from else lastMove, e.lineStyleIdx);
        DrawCountOneDraw(head, rest);
        Success(head + rest)
      else
        var moves := pos != e.from;
        var head := (if moves then [MoveTo(e.from)] else []) + [DrawEdge(e)];
        var rest :- LineLoop(path[1..], lineStyles, e.to, if moves then e.from else lastMove, styleIdx);
        DrawCountOneDraw(head, rest);
        Success(head + rest)
  }

  /** ExportLinePath for a group's flattened line path: nothing for an empty path, else a line pass ending in EndLines. */
  function ExportLinePath(path: seq<Edge>, lineStyles: seq<LineStyleRGB>): (r: Result<seq<Command>, ShapeError>)
    ensures |path| == 0 ==> r == Success([])
    ensures r.Success? && |path| > 0 ==>
              |r.value| >= 2 && r.value[0] == BeginLines && r.value[|r.value| - 1].EndLines?
    ensures r.Success? ==> DrawCount(r.value) == |path|
  {
    if |path| == 0 then Success([])
    else
      var body :- LineLoop(path, lineStyles, NoPosition, NoPosition, IntMax);
      LineLoopEndsWithEndLines(path, lineStyles, NoPosition, NoPosition, IntMax);
      DrawCountWrapped([BeginLines], body, []);
      Success([BeginLines] + body)
  }

  lemma LineLoopEndsWithEndLines(path: seq<Edge>, lineStyles: seq<LineStyleRGB>, pos: Point, lastMove: Point, styleIdx: int)
    ensures var r := LineLoop(path, lineStyles, pos, lastMove, styleIdx);
            r.Success? ==> |r.value| > 0 && r.value[|r.value| - 1].EndLines?
  {
    if |path| > 0 {
      var e := path[0];
      if styleIdx != e.lineStyleIdx {
        LineLoopEndsWithEndLines(path[1..], lineStyles, e.to, if NoPosition != e.from then e.from else lastMove, e.lineStyleIdx);
      } else {
        LineLoopEndsWithEndLines(path[1..], lineStyles, e.to, if pos != e.from then e.from else lastMove, styleIdx);
      }
    }
  }

  /** The fill pass then the line pass of every group from `i` on. */
  function ExportGroups(sh: SwfShape, i: nat): (r: Result<seq<Command>, ShapeError>)
    requires ShapeValid(sh) && sh.edgeMapsCreated
    requires i <= sh.numGroups
    ensures r.Failure? <==> exists g :: i <= g < sh.numGroups && GroupFails(sh, g)
    ensures r.Success? ==> DrawCount(r.value) == EdgesFrom(sh, i)
    decreases sh.numGroups - i
  {
    if i == sh.numGroups then Success([])
    else
      SomeGroupFailsStep(sh, i);
      var fills :- ExportFillPath(PathFromEdgeMap(sh.fillEdgeMaps[i]), sh.fillStyles);
      var lines :- ExportLinePath(PathFromEdgeMap(sh.lineEdgeMaps[i]), sh.lineStyles);
      var rest :- ExportGroups(sh, i + 1);
      DrawCountAppend(fills, lines);
      DrawCountAppend(fills + lines, rest);
      Success(fills + lines + rest)
  }

  /** The number of edges in the flattened fill and line paths of the groups from `i` on. */
  function EdgesFrom(sh: SwfShape, i: nat): nat
    requires ShapeValid(sh) && sh.edgeMapsCreated
    requires i <= sh.numGroups
    decreases sh.numGroups - i
  {
    if i == sh.numGroups then 0
    else |PathFromEdgeMap(sh.fillEdgeMaps[i])| + |PathFromEdgeMap(sh.lineEdgeMaps[i])| + EdgesFrom(sh, i + 1)
  }

  /**
   * Export: build the edge maps (once), then BeginShape, each group's fill
   * and line passes, EndShape. The shape is returned with its memoised maps.
   */
  function Export(sh: SwfShape): (r: Result<(SwfShape, seq<Command>), ShapeError>)
    requires ShapeValid(sh)
    ensures r.Success? ==> r.value.0.edgeMapsCreated && ShapeValid(r.value.0)
    ensures r.Success? ==> |r.value.1| >= 2 && r.value.1[0] == BeginShape && r.value.1[|r.value.1| - 1] == EndShape
    ensures r.Failure? <==>
              CreateEdgeMaps(sh).Failure?
              || exists g :: 0 <= g < CreateEdgeMaps(sh).value.numGroups && GroupFails(CreateEdgeMaps(sh).value, g)
    ensures r.Success? ==> r.value.0 == CreateEdgeMaps(sh).value && DrawCount(r.value.1) == EdgesFrom(r.value.0, 0)
  {
    var built :- CreateEdgeMaps(sh);
    var body :- ExportGroups(built, 0);
    DrawCountWrapped([BeginShape], body, [EndShape]);
    Success((built, [BeginShape] + body + [EndShape]))
  }

  /** Exporting the shape a previous export returned emits the same commands and leaves the shape as it is. */
  lemma ExportIsRepeatable(sh: SwfShape)
    requires ShapeValid(sh)
    requires Export(sh).Success?
    ensures Export(Export(sh).value.0) == Export(sh)
  {
  }

  // ---------------------------------------------------------------------
  // What a drawing sink sees: replaying the command trace
  // ---------------------------------------------------------------------

  /** The style a sink draws with. */
  datatype Paint = FillPaint(color: Color) | StrokePaint(width: nat, color: Color)

  /**
   * One drawn edge as a sink sees it: the paint in force, where the pen was,
   * the drawing call, and whether a new style and a move-to came since the
   * previous drawn edge.
   */
  datatype Segment = Segment(paint: Paint, from: Point, draw: Command, restyled: bool, moved: bool)

  /** A sink's state between calls. */
  datatype Pen = Pen(paint: Option<Paint>, at: Option<Point>, restyled: bool, moved: bool)

  const Idle: Pen := Pen(None, None, false, false)

  predicate IsDraw(c: Command)
  {
    c.LineTo? || c.CurveTo?
  }

  function DrawTarget(c: Command): Point
    requires IsDraw(c)
  {
    if c.LineTo? then c.pos else c.anchor
  }

  /** The segment a draw call adds and the pen after it. */
  function Drawn(pen: Pen, c: Command): Segment
    requires pen.paint.Some? && pen.at.Some?
  {
    Segment(pen.paint.value, pen.at.value, c, pen.restyled, pen.moved)
  }

  function AfterDraw(pen: Pen, c: Command): Pen
    requires IsDraw(c)
  {
    Pen(pen.paint, Some(DrawTarget(c)), false, false)
  }

  /**
   * Replays the calls between BeginFills and EndFills. None when they are out
   * of order: a move or a draw with no fill open, a draw before any move-to
   * since the fill began, two fills open at once, or a fill left open.
   */
  function ReplayFills(cmds: seq<Command>, pen: Pen): Option<seq<Segment>>
  {
    if |cmds| == 0 then (if pen.paint.None? then Some([]) else None)
    else
      var c := cmds[0];
      match c
      case BeginFill(color) =>
        if pen.paint.None? then ReplayFills(cmds[1..], Pen(Some(FillPaint(color)), None, true, false)) else None
      case EndFill =>
        if pen.paint.Some? then ReplayFills(cmds[1..], Idle) else None
      case MoveTo(p) =>
        if pen.paint.Some? then ReplayFills(cmds[1..], pen.(at := Some(p), moved := true)) else None
      case _ =>
        if IsDraw(c) && pen.paint.Some? && pen.at.Some? then
          match ReplayFills(cmds[1..], AfterDraw(pen, c))
          case None => None
          case Some(rest) => Some([Drawn(pen, c)] + rest)
        else None
  }

  /**
   * Replays the calls after BeginLines: the drawn segments and the flag of
   * the closing EndLines, which must be the last call. None when a move or a
   * draw comes before any line style, or a draw before any move-to since the
   * style was set.
   */
  function ReplayLines(cmds: seq<Command>, pen: Pen): Option<(seq<Segment>, bool)>
  {
    if |cmds| == 0 then None
    else
      var c := cmds[0];
      match c
      case EndLines(close) =>
        if |cmds| == 1 then Some(([], close)) else None
      case LineStyle(w, color) =>
        ReplayLines(cmds[1..], Pen(Some(StrokePaint(w, color)), None, true, false))
      case MoveTo(p) =>
        if pen.paint.Some? then ReplayLines(cmds[1..], pen.(at := Some(p), moved := true)) else None
      case _ =>
        if IsDraw(c) && pen.paint.Some? && pen.at.Some? then
          match ReplayLines(cmds[1..], AfterDraw(pen, c))
          case None => None
          case Some(rest) => Some(([Drawn(pen, c)] + rest.0, rest.1))
        else None
  }

  // ---------------------------------------------------------------------
  // What the path demands, edge by edge
  // ---------------------------------------------------------------------

  /** The edge before `path[i]`, where `prev` is the edge before the whole path. */
  function PrevOf(path: seq<Edge>, prev: Option<Edge>, i: nat): Option<Edge>
    requires i < |path|
  {
    if i == 0 then prev else Some(path[i - 1])
  }

  /** A new style is due before `e`: it is the first edge, or its style index differs from its predecessor's. */
  predicate Restyles(prev: Option<Edge>, e: Edge, kind: StyleKind)
  {
    prev.None? || StyleIdx(prev.value, kind) != StyleIdx(e, kind)
  }

  /** A move-to is due before `e`: a new style starts there, or it does not begin where its predecessor ended. */
  predicate NeedsMove(prev: Option<Edge>, e: Edge, kind: StyleKind)
  {
    Restyles(prev, e, kind) || prev.value.to != e.from
  }

  /** No edge uses the sentinel style index, and none starts at the sentinel position. */
  ghost predicate Drawable(path: seq<Edge>, kind: StyleKind)
  {
    forall i :: 0 <= i < |path| ==> StyleIdx(path[i], kind) < IntMax && path[i].from != NoPosition
  }

  /** The pen position and style index the exporters hold after `prev`. */
  function PosAfter(prev: Option<Edge>): Point
  {
    if prev.None? then NoPosition else prev.value.to
  }

  function IdxAfter(prev: Option<Edge>, kind: StyleKind): int
  {
    if prev.None? then IntMax else StyleIdx(prev.value, kind)
  }

  /** The fill a sink holds after `prev` was drawn in `color`. */
  function FillPen(prev: Option<Edge>, color: Color): Pen
  {
    if prev.None? then Idle else Pen(Some(FillPaint(color)), Some(prev.value.to), false, false)
  }

  function LinePen(prev: Option<Edge>, style: LineStyleRGB): Pen
  {
    if prev.None? then Idle else Pen(Some(StrokePaint(style.width, style.color)), Some(prev.value.to), false, false)
  }

  /** `s` draws `e` in the colour of its fill, after a new fill exactly when one is due and a move-to exactly when one is due. */
  ghost predicate FillSegmentOf(s: Segment, fillStyles: seq<FillStyleRGB>, prev: Option<Edge>, e: Edge)
  {
    s.paint.FillPaint?
    && ResolveFill(fillStyles, e.fillStyleIdx) == Success(s.paint.color)
    && s.from == e.from && s.draw == DrawEdge(e)
    && (s.restyled <==> Restyles(prev, e, FillKind))
    && (s.moved <==> NeedsMove(prev, e, FillKind))
  }

  /** `s` strokes `e` with its line style, after a new style exactly when one is due and a move-to exactly when one is due. */
  ghost predicate LineSegmentOf(s: Segment, lineStyles: seq<LineStyleRGB>, prev: Option<Edge>, e: Edge)
  {
    s.paint.StrokePaint?
    && ResolveLine(lineStyles, e.lineStyleIdx) == Success(LineStyleRGB(s.paint.width, s.paint.color))
    && s.from == e.from && s.draw == DrawEdge(e)
    && (s.restyled <==> Restyles(prev, e, LineKind))
    && (s.moved <==> NeedsMove(prev, e, LineKind))
  }

  ghost predicate SomeFillFails(path: seq<Edge>, fillStyles: seq<FillStyleRGB>)
  {
    exists i :: 0 <= i < |path| && ResolveFill(fillStyles, path[i].fillStyleIdx).Failure?
  }

  ghost predicate SomeLineFails(path: seq<Edge>, lineStyles: seq<LineStyleRGB>)
  {
    exists i :: 0 <= i < |path| && ResolveLine(lineStyles, path[i].lineStyleIdx).Failure?
  }

  /** `path[i]` begins the last figure: a move-to is due there and at no later edge. */
  ghost predicate IsLastMove(path: seq<Edge>, prev: Option<Edge>, i: nat)
    requires i < |path|
  {
    NeedsMove(PrevOf(path, prev, i), path[i], LineKind)
    && forall j :: i < j < |path| ==> !NeedsMove(PrevOf(path, prev, j), path[j], LineKind)
  }

  /** Where the pen is after the path (after `prev` when the path is empty). */
  function EndOf(path: seq<Edge>, prev: Option<Edge>): Point
  {
    if |path| > 0 then path[|path| - 1].to else PosAfter(prev)
  }

  lemma SomeFillFailsCons(path: seq<Edge>, fillStyles: seq<FillStyleRGB>)
    requires |path| > 0
    ensures SomeFillFails(path, fillStyles)
            <==> ResolveFill(fillStyles, path[0].fillStyleIdx).Failure? || SomeFillFails(path[1..], fillStyles)
  {
    if SomeFillFails(path, fillStyles) && ResolveFill(fillStyles, path[0].fillStyleIdx).Success? {
      var i :| 0 <= i < |path| && ResolveFill(fillStyles, path[i].fillStyleIdx).Failure?;
      assert path[1..][i - 1] == path[i];
    }
    if SomeFillFails(path[1..], fillStyles) {
      var i :| 0 <= i < |path[1..]| && ResolveFill(fillStyles, path[1..][i].fillStyleIdx).Failure?;
      assert path[i + 1] == path[1..][i];
    }
  }

  lemma SomeLineFailsCons(path: seq<Edge>, lineStyles: seq<LineStyleRGB>)
    requires |path| > 0
    ensures SomeLineFails(path, lineStyles)
            <==> ResolveLine(lineStyles, path[0].lineStyleIdx).Failure? || SomeLineFails(path[1..], lineStyles)
  {
    if SomeLineFails(path, lineStyles) && ResolveLine(lineStyles, path[0].lineStyleIdx).Success? {
      var i :| 0 <= i < |path| && ResolveLine(lineStyles, path[i].lineStyleIdx).Failure?;
      assert path[1..][i - 1] == path[i];
    }
    if SomeLineFails(path[1..], lineStyles) {
      var i :| 0 <= i < |path[1..]| && ResolveLine(lineStyles, path[1..][i].lineStyleIdx).Failure?;
      assert path[i + 1] == path[1..][i];
    }
  }

  lemma DrawableTail(path: seq<Edge>, kind: StyleKind)
    requires |path| > 0 && Drawable(path, kind)
    ensures Drawable(path[1..], kind)
  {
    forall i | 0 <= i < |path[1..]|
      ensures StyleIdx(path[1..][i], kind) < IntMax && path[1..][i].from != NoPosition
    {
      assert path[1..][i] == path[i + 1];
    }
  }

  /** The edges after the first see the first edge as their predecessor. */
  lemma PrevOfTail(path: seq<Edge>, prev: Option<Edge>)
    requires |path| > 0
    ensures forall i :: 1 <= i < |path| ==> PrevOf(path[1..], Some(path[0]), i - 1) == PrevOf(path, prev, i) && path[1..][i - 1] == path[i]
  {
    forall i | 1 <= i < |path|
      ensures PrevOf(path[1..], Some(path[0]), i - 1) == PrevOf(path, prev, i) && path[1..][i - 1] == path[i]
    {
      if i > 1 {
        assert PrevOf(path[1..], Some(path[0]), i - 1) == Some(path[1..][i - 2]);
      }
    }
  }

  // ---------------------------------------------------------------------
  // The fill pass
  // ---------------------------------------------------------------------

  /** The fill loop throws exactly when some edge's fill index does not resolve to a solid colour. */
  lemma {:induction false} FillLoopFails(path: seq<Edge>, fillStyles: seq<FillStyleRGB>, prev: Option<Edge>)
    requires Drawable(path, FillKind)
    requires prev.Some? ==> prev.value.fillStyleIdx < IntMax && ResolveFill(fillStyles, prev.value.fillStyleIdx).Success?
    ensures FillLoop(path, fillStyles, PosAfter(prev), IdxAfter(prev, FillKind)).Failure? <==> SomeFillFails(path, fillStyles)
    decreases |path|
  {
    if |path| > 0 {
      var e := path[0];
      DrawableTail(path, FillKind);
      SomeFillFailsCons(path, fillStyles);
      if IdxAfter(prev, FillKind) != e.fillStyleIdx && ResolveFill(fillStyles, e.fillStyleIdx).Failure? {
      } else {
        FillLoopFails(path[1..], fillStyles, Some(e));
      }
    }
  }

  /** `segs` are the segments a sink should see for `path`, drawn after `prev`. */
  ghost predicate FillSegmentsOf(segs: seq<Segment>, fillStyles: seq<FillStyleRGB>, path: seq<Edge>, prev: Option<Edge>)
  {
    |segs| == |path|
    && forall i :: 0 <= i < |path| ==> FillSegmentOf(segs[i], fillStyles, PrevOf(path, prev, i), path[i])
  }

  lemma FillSegmentsCons(seg: Segment, segs: seq<Segment>, fillStyles: seq<FillStyleRGB>, path: seq<Edge>, prev: Option<Edge>)
    requires |path| > 0
    requires FillSegmentOf(seg, fillStyles, prev, path[0])
    requires FillSegmentsOf(segs, fillStyles, path[1..], Some(path[0]))
    ensures FillSegmentsOf([seg] + segs, fillStyles, path, prev)
  {
    PrevOfTail(path, prev);
    forall i | 0 <= i < |path|
      ensures FillSegmentOf(([seg] + segs)[i], fillStyles, PrevOf(path, prev, i), path[i])
    {
      if i > 0 {
        assert ([seg] + segs)[i] == segs[i - 1];
      }
    }
  }

  lemma ReplayFillsDraw(pen: Pen, d: Command, rest: seq<Command>)
    requires IsDraw(d) && pen.paint.Some? && pen.at.Some?
    requires ReplayFills(rest, AfterDraw(pen, d)).Some?
    ensures ReplayFills([d] + rest, pen) == Some([Drawn(pen, d)] + ReplayFills(rest, AfterDraw(pen, d)).value)
  {
    assert ([d] + rest)[1..] == rest;
  }

  lemma ReplayFillsMove(pen: Pen, p: Point, rest: seq<Command>)
    requires pen.paint.Some?
    ensures ReplayFills([MoveTo(p)] + rest, pen) == ReplayFills(rest, pen.(at := Some(p), moved := true))
  {
    assert ([MoveTo(p)] + rest)[1..] == rest;
  }

  lemma ReplayFillsBegin(pen: Pen, c: Color, rest: seq<Command>)
    requires pen.paint.None?
    ensures ReplayFills([BeginFill(c)] + rest, pen) == ReplayFills(rest, Pen(Some(FillPaint(c)), None, true, false))
  {
    assert ([BeginFill(c)] + rest)[1..] == rest;
  }

  lemma ReplayFillsEnd(pen: Pen, rest: seq<Command>)
    requires pen.paint.Some?
    ensures ReplayFills([EndFill] + rest, pen) == ReplayFills(rest, Idle)
  {
    assert ([EndFill] + rest)[1..] == rest;
  }

  /** The fill loop when a new fill is due before the first edge: the commands it emits. */
  lemma FillLoopRestyles(path: seq<Edge>, fillStyles: seq<FillStyleRGB>, prev: Option<Edge>)
    requires |path| > 0 && Drawable(path, FillKind)
    requires prev.Some? ==> prev.value.fillStyleIdx < IntMax
    requires IdxAfter(prev, FillKind) != path[0].fillStyleIdx
    requires FillLoop(path, fillStyles, PosAfter(prev), IdxAfter(prev, FillKind)).Success?
    ensures var e := path[0];
            var c := ResolveFill(fillStyles, e.fillStyleIdx);
            var rr := FillLoop(path[1..], fillStyles, e.to, e.fillStyleIdx);
            c.Success? && rr.Success?
            && FillLoop(path, fillStyles, PosAfter(prev), IdxAfter(prev, FillKind)).value
               == (if prev.Some? then [EndFill] else []) + ([BeginFill(c.value)] + ([MoveTo(e.from)] + ([DrawEdge(e)] + rr.value)))
  {
  }

  /** The fill loop when the first edge keeps the fill: the commands it emits. */
  lemma FillLoopKeeps(path: seq<Edge>, fillStyles: seq<FillStyleRGB>, prev: Option<Edge>)
    requires |path| > 0 && Drawable(path, FillKind)
    requires IdxAfter(prev, FillKind) == path[0].fillStyleIdx
    requires FillLoop(path, fillStyles, PosAfter(prev), IdxAfter(prev, FillKind)).Success?
    ensures var e := path[0];
            var rr := FillLoop(path[1..], fillStyles, e.to, e.fillStyleIdx);
            prev.Some? && rr.Success?
            && FillLoop(path, fillStyles, PosAfter(prev), IdxAfter(prev, FillKind)).value
               == (if PosAfter(prev) != e.from then [MoveTo(e.from)] else []) + ([DrawEdge(e)] + rr.value)
  {
  }

  /**
   * A sink replaying the fill loop draws every edge of the path, in order,
   * each in its own fill's colour, with a new fill begun exactly where the
   * fill index changes and a move-to exactly where the path is broken.
   */
  lemma {:induction false} FillLoopReplays(path: seq<Edge>, fillStyles: seq<FillStyleRGB>, prev: Option<Edge>, color: Color)
    requires Drawable(path, FillKind)
    requires prev.Some? ==> prev.value.fillStyleIdx < IntMax && ResolveFill(fillStyles, prev.value.fillStyleIdx) == Success(color)
    ensures var r := FillLoop(path, fillStyles, PosAfter(prev), IdxAfter(prev, FillKind));
            r.Success? ==>
              var rep := ReplayFills(r.value, FillPen(prev, color));
              rep.Some? && FillSegmentsOf(rep.value, fillStyles, path, prev)
    decreases |path|
  {
    var r := FillLoop(path, fillStyles, PosAfter(prev), IdxAfter(prev, FillKind));
    if |path| == 0 || r.Failure? {
      return;
    }
    var e := path[0];
    var rest := path[1..];
    DrawableTail(path, FillKind);
    var pen := FillPen(prev, color);
    var d := DrawEdge(e);
    if IdxAfter(prev, FillKind) != e.fillStyleIdx {
      FillLoopRestyles(path, fillStyles, prev);
      var c := ResolveFill(fillStyles, e.fillStyleIdx).value;
      var rr := FillLoop(rest, fillStyles, e.to, e.fillStyleIdx).value;
      FillLoopReplays(rest, fillStyles, Some(e), c);
      var penE := FillPen(Some(e), c);
      var repRest := ReplayFills(rr, penE).value;
      var pen1 := Pen(Some(FillPaint(c)), None, true, false);
      var pen2 := pen1.(at := Some(e.from), moved := true);
      assert AfterDraw(pen2, d) == penE;
      ReplayFillsDraw(pen2, d, rr);
      ReplayFillsMove(pen1, e.from, [d] + rr);
      ReplayFillsBegin(Idle, c, [MoveTo(e.from)] + ([d] + rr));
      var tail := [BeginFill(c)] + ([MoveTo(e.from)] + ([d] + rr));
      if prev.Some? {
        ReplayFillsEnd(pen, tail);
        assert r.value == [EndFill] + tail;
      } else {
        assert r.value == tail;
      }
      FillSegmentsCons(Drawn(pen2, d), repRest, fillStyles, path, prev);
    } else {
      FillLoopKeeps(path, fillStyles, prev);
      var rr := FillLoop(rest, fillStyles, e.to, e.fillStyleIdx).value;
      FillLoopReplays(rest, fillStyles, Some(e), color);
      var penE := FillPen(Some(e), color);
      var repRest := ReplayFills(rr, penE).value;
      if PosAfter(prev) != e.from {
        var pen2 := pen.(at := Some(e.from), moved := true);
        assert AfterDraw(pen2, d) == penE;
        ReplayFillsDraw(pen2, d, rr);
        ReplayFillsMove(pen, e.from, [d] + rr);
        assert r.value == [MoveTo(e.from)] + ([d] + rr);
        FillSegmentsCons(Drawn(pen2, d), repRest, fillStyles, path, prev);
      } else {
        assert AfterDraw(pen, d) == penE;
        ReplayFillsDraw(pen, d, rr);
        assert r.value == [d] + rr;
        FillSegmentsCons(Drawn(pen, d), repRest, fillStyles, path, prev);
      }
    }
  }

  /**
   * ExportFillPath on a non-empty path: it throws exactly when some fill does
   * not resolve; otherwise, between BeginFills and EndFills, a sink draws
   * every edge in order in its fill's colour, beginning a new fill exactly
   * where the fill index changes and moving the pen exactly where the path
   * is broken.
   */
  lemma ExportFillPathReplays(path: seq<Edge>, fillStyles: seq<FillStyleRGB>)
    requires |path| > 0 && Drawable(path, FillKind)
    ensures ExportFillPath(path, fillStyles).Failure? <==> SomeFillFails(path, fillStyles)
    ensures var r := ExportFillPath(path, fillStyles);
            r.Success? ==>
              var rep := ReplayFills(r.value[1..|r.value| - 1], Idle);
              rep.Some? && FillSegmentsOf(rep.value, fillStyles, path, None)
  {
    FillLoopFails(path, fillStyles, None);
    FillLoopReplays(path, fillStyles, None, Black);
    var r := ExportFillPath(path, fillStyles);
    if r.Success? {
      var body := FillLoop(path, fillStyles, NoPosition, IntMax).value;
      assert r.value[1..|r.value| - 1] == body;
    }
  }

  // ---------------------------------------------------------------------
  // The line pass
  // ---------------------------------------------------------------------

  /** The line loop throws exactly when some edge's line index is out of range. */
  lemma {:induction false} LineLoopFails(path: seq<Edge>, lineStyles: seq<LineStyleRGB>, prev: Option<Edge>, lastMove: Point)
    requires Drawable(path, LineKind)
    requires prev.Some? ==> prev.value.lineStyleIdx < IntMax && ResolveLine(lineStyles, prev.value.lineStyleIdx).Success?
    ensures LineLoop(path, lineStyles, PosAfter(prev), lastMove, IdxAfter(prev, LineKind)).Failure? <==> SomeLineFails(path, lineStyles)
    decreases |path|
  {
    if |path| > 0 {
      var e := path[0];
      DrawableTail(path, LineKind);
      SomeLineFailsCons(path, lineStyles);
      if IdxAfter(prev, LineKind) != e.lineStyleIdx {
        if ResolveLine(lineStyles, e.lineStyleIdx).Success? {
          LineLoopFails(path[1..], lineStyles, Some(e), e.from);
        }
      } else {
        LineLoopFails(path[1..], lineStyles, Some(e), if PosAfter(prev) != e.from then e.from else lastMove);
      }
    }
  }

  /** The move-to decision of the line loop is exactly NeedsMove. */
  lemma LineLoopMoves(path: seq<Edge>, prev: Option<Edge>)
    requires |path| > 0 && Drawable(path, LineKind)
    requires prev.Some? ==> prev.value.lineStyleIdx < IntMax
    ensures var e := path[0];
            (if IdxAfter(prev, LineKind) != e.lineStyleIdx then NoPosition != e.from else PosAfter(prev) != e.from)
            <==> NeedsMove(prev, e, LineKind)
  {
  }

  /** No move-to is due anywhere along the path. */
  ghost predicate NoMoves(path: seq<Edge>, prev: Option<Edge>)
  {
    forall i :: 0 <= i < |path| ==> !NeedsMove(PrevOf(path, prev, i), path[i], LineKind)
  }

  /** `close` holds exactly when the path ends where its last figure began. */
  ghost predicate ClosesLastFigure(path: seq<Edge>, prev: Option<Edge>, close: bool)
  {
    forall i :: 0 <= i < |path| && IsLastMove(path, prev, i) ==> (close <==> EndOf(path, prev) == path[i].from)
  }

  lemma NoMovesCons(path: seq<Edge>, prev: Option<Edge>)
    requires |path| > 0
    ensures NoMoves(path, prev) <==> !NeedsMove(prev, path[0], LineKind) && NoMoves(path[1..], Some(path[0]))
  {
    PrevOfTail(path, prev);
    if !NeedsMove(prev, path[0], LineKind) && NoMoves(path[1..], Some(path[0])) {
      forall i | 0 <= i < |path|
        ensures !NeedsMove(PrevOf(path, prev, i), path[i], LineKind)
      {
        if i > 0 {
          assert !NeedsMove(PrevOf(path[1..], Some(path[0]), i - 1), path[1..][i - 1], LineKind);
        }
      }
    }
  }

  /** How the last figure of a path relates to the last figure of its tail. */
  lemma ClosesLastFigureCons(path: seq<Edge>, prev: Option<Edge>, close: bool)
    requires |path| > 0
    requires NeedsMove(prev, path[0], LineKind) && NoMoves(path[1..], Some(path[0])) ==>
               (close <==> EndOf(path, prev) == path[0].from)
    requires ClosesLastFigure(path[1..], Some(path[0]), close)
    ensures ClosesLastFigure(path, prev, close)
  {
    var rest := path[1..];
    PrevOfTail(path, prev);
    assert EndOf(rest, Some(path[0])) == EndOf(path, prev);
    forall i | 0 <= i < |path| && IsLastMove(path, prev, i)
      ensures close <==> EndOf(path, prev) == path[i].from
    {
      if i == 0 {
        forall j | 0 <= j < |rest|
          ensures !NeedsMove(PrevOf(rest, Some(path[0]), j), rest[j], LineKind)
        {
          assert PrevOf(rest, Some(path[0]), j) == PrevOf(path, prev, j + 1);
        }
      } else {
        assert IsLastMove(rest, Some(path[0]), i - 1);
      }
    }
  }

  /** The line loop's first step: it continues with the pen at the first edge's end and the figure start updated on a move, and ends on the same command as that continuation. */
  lemma LineLoopStep(path: seq<Edge>, lineStyles: seq<LineStyleRGB>, prev: Option<Edge>, lastMove: Point)
    requires |path| > 0 && Drawable(path, LineKind)
    requires prev.Some? ==> prev.value.lineStyleIdx < IntMax
    requires LineLoop(path, lineStyles, PosAfter(prev), lastMove, IdxAfter(prev, LineKind)).Success?
    ensures var e := path[0];
            var lm := if NeedsMove(prev, e, LineKind) then e.from else lastMove;
            var rr := LineLoop(path[1..], lineStyles, e.to, lm, e.lineStyleIdx);
            var r := LineLoop(path, lineStyles, PosAfter(prev), lastMove, IdxAfter(prev, LineKind));
            rr.Success? && |rr.value| > 0 && |r.value| > 0 && r.value[|r.value| - 1] == rr.value[|rr.value| - 1]
  {
    LineLoopMoves(path, prev);
    var e := path[0];
    LineLoopEndsWithEndLines(path[1..], lineStyles, e.to, if NeedsMove(prev, e, LineKind) then e.from else lastMove, e.lineStyleIdx);
  }

  /** Where the figure in progress began after the path, `lastMove` being where it began before. */
  function FigureStart(path: seq<Edge>, prev: Option<Edge>, lastMove: Point): Point
    decreases |path|
  {
    if |path| == 0 then lastMove
    else FigureStart(path[1..], Some(path[0]), if NeedsMove(prev, path[0], LineKind) then path[0].from else lastMove)
  }

  /** The line loop ends on EndLines, closing exactly when the pen is back at the start of the figure in progress. */
  lemma {:induction false} LineLoopEndsAtFigure(path: seq<Edge>, lineStyles: seq<LineStyleRGB>, prev: Option<Edge>, lastMove: Point)
    requires Drawable(path, LineKind)
    requires prev.Some? ==> prev.value.lineStyleIdx < IntMax
    ensures var r := LineLoop(path, lineStyles, PosAfter(prev), lastMove, IdxAfter(prev, LineKind));
            r.Success? ==>
              |r.value| > 0 && r.value[|r.value| - 1] == EndLines(EndOf(path, prev) == FigureStart(path, prev, lastMove))
    decreases |path|
  {
    if |path| > 0 {
      var r := LineLoop(path, lineStyles, PosAfter(prev), lastMove, IdxAfter(prev, LineKind));
      if r.Success? {
        var e := path[0];
        DrawableTail(path, LineKind);
        LineLoopStep(path, lineStyles, prev, lastMove);
        LineLoopEndsAtFigure(path[1..], lineStyles, Some(e), if NeedsMove(prev, e, LineKind) then e.from else lastMove);
        assert EndOf(path[1..], Some(e)) == EndOf(path, prev);
      }
    }
  }

  /** The figure in progress after the path began at the path's last move-to, or at `lastMove` when there is none. */
  lemma {:induction false} FigureStartIsLastMove(path: seq<Edge>, prev: Option<Edge>, lastMove: Point)
    ensures ClosesLastFigure(path, prev, EndOf(path, prev) == FigureStart(path, prev, lastMove))
    ensures NoMoves(path, prev) ==> FigureStart(path, prev, lastMove) == lastMove
    decreases |path|
  {
    if |path| > 0 {
      var lm := if NeedsMove(prev, path[0], LineKind) then path[0].from else lastMove;
      FigureStartIsLastMove(path[1..], Some(path[0]), lm);
      ClosesStep(path, prev, lastMove, lm, EndOf(path, prev) == FigureStart(path, prev, lastMove));
    }
  }

  /**
   * The flag of the closing EndLines: with `lastMove` the start of the figure
   * in progress before the path, EndLines closes exactly when the path ends
   * where its last figure began.
   */
  lemma LineLoopCloses(path: seq<Edge>, lineStyles: seq<LineStyleRGB>, prev: Option<Edge>, lastMove: Point)
    requires Drawable(path, LineKind)
    requires prev.Some? ==> prev.value.lineStyleIdx < IntMax
    ensures var r := LineLoop(path, lineStyles, PosAfter(prev), lastMove, IdxAfter(prev, LineKind));
            r.Success? ==>
              |r.value| > 0 && r.value[|r.value| - 1].EndLines?
              && ClosesLastFigure(path, prev, r.value[|r.value| - 1].close)
              && (NoMoves(path, prev) ==> (r.value[|r.value| - 1].close <==> EndOf(path, prev) == lastMove))
  {
    LineLoopEndsAtFigure(path, lineStyles, prev, lastMove);
    FigureStartIsLastMove(path, prev, lastMove);
  }

  /** The closing facts for a path follow from those for its tail, the figure start updated as the loop does. */
  lemma ClosesStep(path: seq<Edge>, prev: Option<Edge>, lastMove: Point, lm: Point, close: bool)
    requires |path| > 0
    requires lm == if NeedsMove(prev, path[0], LineKind) then path[0].from else lastMove
    requires ClosesLastFigure(path[1..], Some(path[0]), close)
    requires NoMoves(path[1..], Some(path[0])) ==> (close <==> EndOf(path[1..], Some(path[0])) == lm)
    ensures ClosesLastFigure(path, prev, close)
    ensures NoMoves(path, prev) ==> (close <==> EndOf(path, prev) == lastMove)
  {
    assert EndOf(path[1..], Some(path[0])) == EndOf(path, prev);
    NoMovesCons(path, prev);
    ClosesLastFigureCons(path, prev, close);
  }

  ghost predicate LineSegmentsOf(segs: seq<Segment>, lineStyles: seq<LineStyleRGB>, path: seq<Edge>, prev: Option<Edge>)
  {
    |segs| == |path|
    && forall i :: 0 <= i < |path| ==> LineSegmentOf(segs[i], lineStyles, PrevOf(path, prev, i), path[i])
  }

  lemma LineSegmentsCons(seg: Segment, segs: seq<Segment>, lineStyles: seq<LineStyleRGB>, path: seq<Edge>, prev: Option<Edge>)
    requires |path| > 0
    requires LineSegmentOf(seg, lineStyles, prev, path[0])
    requires LineSegmentsOf(segs, lineStyles, path[1..], Some(path[0]))
    ensures LineSegmentsOf([seg] + segs, lineStyles, path, prev)
  {
    PrevOfTail(path, prev);
    forall i | 0 <= i < |path|
      ensures LineSegmentOf(([seg] + segs)[i], lineStyles, PrevOf(path, prev, i), path[i])
    {
      if i > 0 {
        assert ([seg] + segs)[i] == segs[i - 1];
      }
    }
  }

  lemma ReplayLinesDraw(pen: Pen, d: Command, rest: seq<Command>)
    requires IsDraw(d) && pen.paint.Some? && pen.at.Some?
    requires ReplayLines(rest, AfterDraw(pen, d)).Some?
    ensures var rr := ReplayLines(rest, AfterDraw(pen, d)).value;
            ReplayLines([d] + rest, pen) == Some(([Drawn(pen, d)] + rr.0, rr.1))
  {
    assert ([d] + rest)[1..] == rest;
  }

  lemma ReplayLinesMove(pen: Pen, p: Point, rest: seq<Command>)
    requires pen.paint.Some?
    ensures ReplayLines([MoveTo(p)] + rest, pen) == ReplayLines(rest, pen.(at := Some(p), moved := true))
  {
    assert ([MoveTo(p)] + rest)[1..] == rest;
  }

  lemma ReplayLinesStyle(pen: Pen, w: nat, c: Color, rest: seq<Command>)
    ensures ReplayLines([LineStyle(w, c)] + rest, pen) == ReplayLines(rest, Pen(Some(StrokePaint(w, c)), None, true, false))
  {
    assert ([LineStyle(w, c)] + rest)[1..] == rest;
  }

  /** The line loop when a new line style is due before the first edge: the commands it emits. */
  lemma LineLoopRestyles(path: seq<Edge>, lineStyles: seq<LineStyleRGB>, prev: Option<Edge>, lastMove: Point)
    requires |path| > 0 && Drawable(path, LineKind)
    requires IdxAfter(prev, LineKind) != path[0].lineStyleIdx
    requires LineLoop(path, lineStyles, PosAfter(prev), lastMove, IdxAfter(prev, LineKind)).Success?
    ensures var e := path[0];
            var st := ResolveLine(lineStyles, e.lineStyleIdx);
            var rr := LineLoop(path[1..], lineStyles, e.to, e.from, e.lineStyleIdx);
            st.Success? && rr.Success?
            && LineLoop(path, lineStyles, PosAfter(prev), lastMove, IdxAfter(prev, LineKind)).value
               == [LineStyle(st.value.width, st.value.color)] + ([MoveTo(e.from)] + ([DrawEdge(e)] + rr.value))
  {
  }

  /** The line loop when the first edge keeps the line style: the commands it emits. */
  lemma LineLoopKeeps(path: seq<Edge>, lineStyles: seq<LineStyleRGB>, prev: Option<Edge>, lastMove: Point)
    requires |path| > 0 && Drawable(path, LineKind)
    requires IdxAfter(prev, LineKind) == path[0].lineStyleIdx
    requires LineLoop(path, lineStyles, PosAfter(prev), lastMove, IdxAfter(prev, LineKind)).Success?
    ensures var e := path[0];
            var moves := PosAfter(prev) != e.from;
            var rr := LineLoop(path[1..], lineStyles, e.to, if moves then e.from else lastMove, e.lineStyleIdx);
            prev.Some? && rr.Success?
            && LineLoop(path, lineStyles, PosAfter(prev), lastMove, IdxAfter(prev, LineKind)).value
               == (if moves then [MoveTo(e.from)] else []) + ([DrawEdge(e)] + rr.value)
  {
  }

  /** What LineLoopReplays promises for one path. */
  ghost predicate LineLoopReplaysTo(path: seq<Edge>, lineStyles: seq<LineStyleRGB>, prev: Option<Edge>, style: LineStyleRGB, lastMove: Point)
  {
    var r := LineLoop(path, lineStyles, PosAfter(prev), lastMove, IdxAfter(prev, LineKind));
    r.Success? ==> ReplaysLines(r.value, lineStyles, path, prev, style)
  }

  /**
   * A sink replaying the line loop strokes every edge of the path, in order,
   * each with its own line style, with a new style set exactly where the
   * line index changes and a move-to exactly where the path is broken; it
   * ends on the loop's EndLines.
   */
  lemma {:induction false} LineLoopReplays(path: seq<Edge>, lineStyles: seq<LineStyleRGB>, prev: Option<Edge>, style: LineStyleRGB, lastMove: Point)
    requires Drawable(path, LineKind)
    requires prev.Some? ==> prev.value.lineStyleIdx < IntMax && ResolveLine(lineStyles, prev.value.lineStyleIdx) == Success(style)
    ensures var r := LineLoop(path, lineStyles, PosAfter(prev), lastMove, IdxAfter(prev, LineKind));
            r.Success? ==>
              var rep := ReplayLines(r.value, LinePen(prev, style));
              rep.Some? && LineSegmentsOf(rep.value.0, lineStyles, path, prev)
              && |r.value| > 0 && r.value[|r.value| - 1] == EndLines(rep.value.1)
    decreases |path|, 1
  {
    var r := LineLoop(path, lineStyles, PosAfter(prev), lastMove, IdxAfter(prev, LineKind));
    if r.Failure? {
    } else if |path| == 0 {
      assert r.value == [EndLines(PosAfter(prev) == lastMove)];
    } else if IdxAfter(prev, LineKind) != path[0].lineStyleIdx {
      LineReplayRestyled(path, lineStyles, prev, style, lastMove);
    } else {
      LineReplayKept(path, lineStyles, prev, style, lastMove);
    }
  }

  /** LineLoopReplays when a new line style is due before the first edge. */
  lemma LineReplayRestyled(path: seq<Edge>, lineStyles: seq<LineStyleRGB>, prev: Option<Edge>, style: LineStyleRGB, lastMove: Point)
    requires |path| > 0 && Drawable(path, LineKind)
    requires prev.Some? ==> prev.value.lineStyleIdx < IntMax && ResolveLine(lineStyles, prev.value.lineStyleIdx) == Success(style)
    requires IdxAfter(prev, LineKind) != path[0].lineStyleIdx
    ensures LineLoopReplaysTo(path, lineStyles, prev, style, lastMove)
    decreases |path|, 0
  {
    var r := LineLoop(path, lineStyles, PosAfter(prev), lastMove, IdxAfter(prev, LineKind));
    if r.Success? {
      var e := path[0];
      var rest := path[1..];
      DrawableTail(path, LineKind);
      var pen := LinePen(prev, style);
      var d := DrawEdge(e);
      LineLoopRestyles(path, lineStyles, prev, lastMove);
      var st := ResolveLine(lineStyles, e.lineStyleIdx).value;
      var rr := LineLoop(rest, lineStyles, e.to, e.from, e.lineStyleIdx).value;
      LineLoopReplays(rest, lineStyles, Some(e), st, e.from);
      var penE := LinePen(Some(e), st);
      var repRest := ReplayLines(rr, penE).value;
      var pen1 := Pen(Some(StrokePaint(st.width, st.color)), None, true, false);
      var pen2 := pen1.(at := Some(e.from), moved := true);
      assert AfterDraw(pen2, d) == penE;
      ReplayLinesDraw(pen2, d, rr);
      ReplayLinesMove(pen1, e.from, [d] + rr);
      ReplayLinesStyle(pen, st.width, st.color, [MoveTo(e.from)] + ([d] + rr));
      LineSegmentsCons(Drawn(pen2, d), repRest.0, lineStyles, path, prev);
      assert r.value[|r.value| - 1] == rr[|rr| - 1];
    }
  }

  /** LineLoopReplays when the first edge keeps the line style. */
  lemma LineReplayKept(path: seq<Edge>, lineStyles: seq<LineStyleRGB>, prev: Option<Edge>, style: LineStyleRGB, lastMove: Point)
    requires |path| > 0 && Drawable(path, LineKind)
    requires prev.Some? ==> prev.value.lineStyleIdx < IntMax && ResolveLine(lineStyles, prev.value.lineStyleIdx) == Success(style)
    requires IdxAfter(prev, LineKind) == path[0].lineStyleIdx
    ensures LineLoopReplaysTo(path, lineStyles, prev, style, lastMove)
    decreases |path|, 0
  {
    var r := LineLoop(path, lineStyles, PosAfter(prev), lastMove, IdxAfter(prev, LineKind));
    if r.Success? {
      var e := path[0];
      DrawableTail(path, LineKind);
      LineLoopKeeps(path, lineStyles, prev, lastMove);
      var lm := if PosAfter(prev) != e.from then e.from else lastMove;
      LineLoopReplays(path[1..], lineStyles, Some(e), style, lm);
      KeptReplayExtends(path, lineStyles, prev, style, r.value, LineLoop(path[1..], lineStyles, e.to, lm, e.lineStyleIdx).value);
    }
  }

  /** Replaying `cmds` from the pen left by `prev` strokes `path` and ends on an EndLines carrying the replay's verdict. */
  ghost predicate ReplaysLines(cmds: seq<Command>, lineStyles: seq<LineStyleRGB>, path: seq<Edge>, prev: Option<Edge>, style: LineStyleRGB)
  {
    var rep := ReplayLines(cmds, LinePen(prev, style));
    rep.Some? && LineSegmentsOf(rep.value.0, lineStyles, path, prev)
    && |cmds| > 0 && cmds[|cmds| - 1] == EndLines(rep.value.1)
  }

  /** A sink's replay of the commands for an edge that keeps its line style extends the replay of the commands after it. */
  lemma KeptReplayExtends(path: seq<Edge>, lineStyles: seq<LineStyleRGB>, prev: Option<Edge>, style: LineStyleRGB, cmds: seq<Command>, rr: seq<Command>)
    requires |path| > 0 && prev.Some? && ResolveLine(lineStyles, prev.value.lineStyleIdx) == Success(style)
    requires IdxAfter(prev, LineKind) == path[0].lineStyleIdx
    requires cmds == (if PosAfter(prev) != path[0].from then [MoveTo(path[0].from)] else []) + ([DrawEdge(path[0])] + rr)
    requires ReplaysLines(rr, lineStyles, path[1..], Some(path[0]), style)
    ensures ReplaysLines(cmds, lineStyles, path, prev, style)
  {
    if PosAfter(prev) != path[0].from {
      assert cmds == [MoveTo(path[0].from)] + ([DrawEdge(path[0])] + rr);
      KeptReplayMoves(path, lineStyles, prev, style, rr);
    } else {
      assert cmds == [DrawEdge(path[0])] + rr;
      KeptReplayDraws(path, lineStyles, prev, style, rr);
    }
  }

  lemma KeptReplayMoves(path: seq<Edge>, lineStyles: seq<LineStyleRGB>, prev: Option<Edge>, style: LineStyleRGB, rr: seq<Command>)
    requires |path| > 0 && prev.Some? && ResolveLine(lineStyles, prev.value.lineStyleIdx) == Success(style)
    requires IdxAfter(prev, LineKind) == path[0].lineStyleIdx && PosAfter(prev) != path[0].from
    requires ReplaysLines(rr, lineStyles, path[1..], Some(path[0]), style)
    ensures ReplaysLines([MoveTo(path[0].from)] + ([DrawEdge(path[0])] + rr), lineStyles, path, prev, style)
  {
    var e := path[0];
    var pen := LinePen(prev, style);
    var d := DrawEdge(e);
    var pen2 := pen.(at := Some(e.from), moved := true);
    assert AfterDraw(pen2, d) == LinePen(Some(e), style);
    ReplayLinesDraw(pen2, d, rr);
    ReplayLinesMove(pen, e.from, [d] + rr);
    LineSegmentsCons(Drawn(pen2, d), ReplayLines(rr, LinePen(Some(e), style)).value.0, lineStyles, path, prev);
    var cmds := [MoveTo(e.from)] + ([d] + rr);
    assert cmds[|cmds| - 1] == rr[|rr| - 1];
  }

  lemma KeptReplayDraws(path: seq<Edge>, lineStyles: seq<LineStyleRGB>, prev: Option<Edge>, style: LineStyleRGB, rr: seq<Command>)
    requires |path| > 0 && prev.Some? && ResolveLine(lineStyles, prev.value.lineStyleIdx) == Success(style)
    requires IdxAfter(prev, LineKind) == path[0].lineStyleIdx && PosAfter(prev) == path[0].from
    requires ReplaysLines(rr, lineStyles, path[1..], Some(path[0]), style)
    ensures ReplaysLines([DrawEdge(path[0])] + rr, lineStyles, path, prev, style)
  {
    var e := path[0];
    var pen := LinePen(prev, style);
    var d := DrawEdge(e);
    assert AfterDraw(pen, d) == LinePen(Some(e), style);
    ReplayLinesDraw(pen, d, rr);
    LineSegmentsCons(Drawn(pen, d), ReplayLines(rr, LinePen(Some(e), style)).value.0, lineStyles, path, prev);
    var cmds := [d] + rr;
    assert cmds[|cmds| - 1] == rr[|rr| - 1];
  }

  /** A non-empty path has a last figure: the first edge always needs a move-to. */
  lemma LastMoveExists(path: seq<Edge>, prev: Option<Edge>)
    requires |path| > 0 && NeedsMove(prev, path[0], LineKind)
    ensures exists i :: 0 <= i < |path| && IsLastMove(path, prev, i)
  {
    var i := |path| - 1;
    while !NeedsMove(PrevOf(path, prev, i), path[i], LineKind)
      invariant 0 <= i < |path|
      invariant forall j :: i < j < |path| ==> !NeedsMove(PrevOf(path, prev, j), path[j], LineKind)
      decreases i
    {
      i := i - 1;
    }
    assert IsLastMove(path, prev, i);
  }

  /**
   * ExportLinePath on a non-empty path: it throws exactly when some line
   * index is out of range; otherwise, after BeginLines, a sink strokes every
   * edge in order with its line style, setting a new style exactly where
   * the line index changes and moving the pen exactly where the path is
   * broken, and the final EndLines closes exactly when the path ends where
   * its last figure began.
   */
  lemma ExportLinePathReplays(path: seq<Edge>, lineStyles: seq<LineStyleRGB>)
    requires |path| > 0 && Drawable(path, LineKind)
    ensures ExportLinePath(path, lineStyles).Failure? <==> SomeLineFails(path, lineStyles)
    ensures var r := ExportLinePath(path, lineStyles);
            r.Success? ==>
              var rep := ReplayLines(r.value[1..], Idle);
              rep.Some? && LineSegmentsOf(rep.value.0, lineStyles, path, None)
              && ClosesLastFigure(path, None, rep.value.1)
              && exists i :: 0 <= i < |path| && IsLastMove(path, None, i)
  {
    LineLoopFails(path, lineStyles, None, NoPosition);
    LineLoopReplays(path, lineStyles, None, LineStyleRGB(0, Black), NoPosition);
    LineLoopCloses(path, lineStyles, None, NoPosition);
    LastMoveExists(path, None);
    var r := ExportLinePath(path, lineStyles);
    if r.Success? {
      var body := LineLoop(path, lineStyles, NoPosition, NoPosition, IntMax).value;
      assert r.value[1..] == body;
    }
  }

  // ---------------------------------------------------------------------
  // The whole shape
  // ---------------------------------------------------------------------

  /** Group `g` of the shape cannot be exported: its fill pass or its line pass throws. */
  ghost predicate GroupFails(sh: SwfShape, g: nat)
    requires ShapeValid(sh) && sh.edgeMapsCreated && g < sh.numGroups
  {
    ExportFillPath(PathFromEdgeMap(sh.fillEdgeMaps[g]), sh.fillStyles).Failure?
    || ExportLinePath(PathFromEdgeMap(sh.lineEdgeMaps[g]), sh.lineStyles).Failure?
  }

  lemma SomeGroupFailsStep(sh: SwfShape, i: nat)
    requires ShapeValid(sh) && sh.edgeMapsCreated
    requires i < sh.numGroups
    ensures (exists g :: i <= g < sh.numGroups && GroupFails(sh, g))
            <==> GroupFails(sh, i) || exists g :: i + 1 <= g < sh.numGroups && GroupFails(sh, g)
  {
    if exists g :: i <= g < sh.numGroups && GroupFails(sh, g) {
      var g :| i <= g < sh.numGroups && GroupFails(sh, g);
      assert g == i || (i + 1 <= g < sh.numGroups && GroupFails(sh, g));
    }
  }
}
