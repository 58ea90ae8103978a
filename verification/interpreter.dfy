/**
 * The record interpreter of SwfShapeRGB.CreateEdgeMaps / ProcessSubPath:
 * walks the shape-record stream, turns edge records into absolute edges,
 * and files each run of edges into per-group fill and line buckets.
 */
module Interpreter {
  import opened Wrappers
  import opened Edges
  import opened Styles
  import opened EdgeMaps
  import opened Stitcher

  /** Style tables declared by a style-change record (StateNewStyles). */
  datatype NewStyles = NewStyles(fillStyles: seq<FillStyleRGB>, lineStyles: seq<LineStyleRGB>)

  /**
   * The decoded shape records. An absent style index is None. `moveTo` holds
   * the record's MoveDeltaX/MoveDeltaY, which the engine uses as an absolute
   * position.
   */
  datatype ShapeRecord =
    | StyleChangeRecord(lineStyle: Option<nat>, fillStyle0: Option<nat>, fillStyle1: Option<nat>,
                        newStyles: Option<NewStyles>, moveTo: Option<Point>)
    | StraightEdgeRecord(deltaX: int, deltaY: int)
    | CurvedEdgeRecord(controlDeltaX: int, controlDeltaY: int, anchorDeltaX: int, anchorDeltaY: int)
    | EndRecord
    | OtherRecord(typeCode: int)

  /** A style change naming at least one style index; it ends the current run. */
  predicate SetsAnyStyle(rec: ShapeRecord)
  {
    rec.StyleChangeRecord? && (rec.lineStyle.Some? || rec.fillStyle0.Some? || rec.fillStyle1.Some?)
  }

  /** A style change setting line, fill0 and fill1 all explicitly to 0: a group boundary. */
  predicate IsGroupReset(rec: ShapeRecord)
  {
    rec.StyleChangeRecord? && rec.lineStyle == Some(0) && rec.fillStyle0 == Some(0) && rec.fillStyle1 == Some(0)
  }

  predicate ClosesGroup(rec: ShapeRecord)
  {
    IsGroupReset(rec) || rec.EndRecord?
  }

  function CountGroupClosers(records: seq<ShapeRecord>): nat
  {
    if |records| == 0 then 0
    else (if ClosesGroup(records[0]) then 1 else 0) + CountGroupClosers(records[1..])
  }

  /** A group's pair of bucket maps. */
  datatype Buckets = Buckets(fill: EdgeMap, line: EdgeMap)

  /** `m` with `s` appended to the list under `k`, creating the list when absent. */
  function Append(m: EdgeMap, k: nat, s: seq<Edge>): (r: EdgeMap)
    ensures r.Keys == m.Keys + {k}
    ensures forall j :: j in m && j != k ==> r[j] == m[j]
    ensures r[k] == Get(m, k) + s
  {
    m[k := Get(m, k) + s]
  }

  /** Appending edges of style k under a nonzero key k keeps a map well keyed. */
  lemma AppendKeepsWellKeyed(m: EdgeMap, k: nat, s: seq<Edge>, kind: StyleKind)
    requires WellKeyed(m, kind) && k != 0
    requires forall e :: e in s ==> StyleIdx(e, kind) == k
    ensures WellKeyed(Append(m, k, s), kind)
  {
    var r := Append(m, k, s);
    forall j, e | j in r && e in r[j]
      ensures StyleIdx(e, kind) == j
    {
      if j == k && e !in Get(m, k) {
        assert e in s;
      }
    }
  }

  /** The run as fill0 receives it: every edge flipped and restyled with `f`, in reverse order. */
  function ReverseRun(run: seq<Edge>, f: nat): (r: seq<Edge>)
    ensures |r| == |run|
    ensures forall j :: 0 <= j < |run| ==> r[j] == run[|run| - 1 - j].ReverseWithStyle(f)
  {
    if |run| == 0 then [] else ReverseRun(run[1..], f) + [run[0].ReverseWithStyle(f)]
  }

  /** The fill half of ProcessSubPath: fill0 receives the reversed run, then fill1 the run itself. */
  function DispatchFills(m: EdgeMap, subPath: seq<Edge>, fillStyleIdx0: nat, fillStyleIdx1: nat): (r: EdgeMap)
    ensures r.Keys == m.Keys + (if fillStyleIdx0 != 0 then {fillStyleIdx0} else {})
                             + (if fillStyleIdx1 != 0 then {fillStyleIdx1} else {})
    ensures forall k :: k in m && k != fillStyleIdx0 && k != fillStyleIdx1 ==> r[k] == m[k]
    ensures fillStyleIdx0 != 0 && fillStyleIdx0 != fillStyleIdx1 ==>
              r[fillStyleIdx0] == Get(m, fillStyleIdx0) + ReverseRun(subPath, fillStyleIdx0)
    ensures fillStyleIdx1 != 0 && fillStyleIdx0 != fillStyleIdx1 ==>
              r[fillStyleIdx1] == Get(m, fillStyleIdx1) + subPath
    ensures fillStyleIdx0 != 0 && fillStyleIdx0 == fillStyleIdx1 ==>
              r[fillStyleIdx0] == Get(m, fillStyleIdx0) + ReverseRun(subPath, fillStyleIdx0) + subPath
  {
    var fill0 := if fillStyleIdx0 != 0 then Append(m, fillStyleIdx0, ReverseRun(subPath, fillStyleIdx0)) else m;
    if fillStyleIdx1 != 0 then Append(fill0, fillStyleIdx1, subPath) else fill0
  }

  /** Dispatching a run tagged with fill1 keeps the fill map well keyed. */
  lemma DispatchFillsWellKeyed(m: EdgeMap, subPath: seq<Edge>, fillStyleIdx0: nat, fillStyleIdx1: nat)
    requires WellKeyed(m, FillKind)
    requires forall e :: e in subPath ==> e.fillStyleIdx == fillStyleIdx1
    ensures WellKeyed(DispatchFills(m, subPath, fillStyleIdx0, fillStyleIdx1), FillKind)
  {
    var reversed := ReverseRun(subPath, fillStyleIdx0);
    assert forall e :: e in reversed ==> e.fillStyleIdx == fillStyleIdx0;
    var fill0 := if fillStyleIdx0 != 0 then Append(m, fillStyleIdx0, reversed) else m;
    if fillStyleIdx0 != 0 {
      AppendKeepsWellKeyed(m, fillStyleIdx0, reversed, FillKind);
    }
    if fillStyleIdx1 != 0 {
      AppendKeepsWellKeyed(fill0, fillStyleIdx1, subPath, FillKind);
    }
  }

  /** The line half of ProcessSubPath: a nonzero line index receives the run itself. */
  function DispatchLine(m: EdgeMap, subPath: seq<Edge>, lineStyleIdx: nat): (r: EdgeMap)
    ensures r.Keys == m.Keys + (if lineStyleIdx != 0 then {lineStyleIdx} else {})
    ensures forall k :: k in m && k != lineStyleIdx ==> r[k] == m[k]
    ensures lineStyleIdx != 0 ==> r[lineStyleIdx] == Get(m, lineStyleIdx) + subPath
  {
    if lineStyleIdx != 0 then Append(m, lineStyleIdx, subPath) else m
  }

  /**
   * ProcessSubPath: a nonzero fill0 receives the run reversed and restyled,
   * then a nonzero fill1 and a nonzero line index each receive it unchanged;
   * nothing else changes and key 0 is never created.
   */
  function ProcessSubPath(b: Buckets, subPath: seq<Edge>, lineStyleIdx: nat, fillStyleIdx0: nat, fillStyleIdx1: nat): (r: Buckets)
    ensures r.fill.Keys == b.fill.Keys + (if fillStyleIdx0 != 0 then {fillStyleIdx0} else {})
                                       + (if fillStyleIdx1 != 0 then {fillStyleIdx1} else {})
    ensures r.line.Keys == b.line.Keys + (if lineStyleIdx != 0 then {lineStyleIdx} else {})
    ensures forall k :: k in b.fill && k != fillStyleIdx0 && k != fillStyleIdx1 ==> r.fill[k] == b.fill[k]
    ensures forall k :: k in b.line && k != lineStyleIdx ==> r.line[k] == b.line[k]
    ensures fillStyleIdx0 != 0 && fillStyleIdx0 != fillStyleIdx1 ==>
              r.fill[fillStyleIdx0] == Get(b.fill, fillStyleIdx0) + ReverseRun(subPath, fillStyleIdx0)
    ensures fillStyleIdx1 != 0 && fillStyleIdx0 != fillStyleIdx1 ==>
              r.fill[fillStyleIdx1] == Get(b.fill, fillStyleIdx1) + subPath
    ensures fillStyleIdx0 != 0 && fillStyleIdx0 == fillStyleIdx1 ==>
              r.fill[fillStyleIdx0] == Get(b.fill, fillStyleIdx0) + ReverseRun(subPath, fillStyleIdx0) + subPath
    ensures lineStyleIdx != 0 ==> r.line[lineStyleIdx] == Get(b.line, lineStyleIdx) + subPath
    ensures (WellKeyed(b.fill, FillKind) && forall e :: e in subPath ==> e.fillStyleIdx == fillStyleIdx1) ==>
              WellKeyed(r.fill, FillKind)
    ensures (WellKeyed(b.line, LineKind) && forall e :: e in subPath ==> e.lineStyleIdx == lineStyleIdx) ==>
              WellKeyed(r.line, LineKind)
  {
    var fill := DispatchFills(b.fill, subPath, fillStyleIdx0, fillStyleIdx1);
    var line := DispatchLine(b.line, subPath, lineStyleIdx);
    ProcessSubPathWellKeyed(b, subPath, lineStyleIdx, fillStyleIdx0, fillStyleIdx1);
    Buckets(fill, line)
  }

  lemma ProcessSubPathWellKeyed(b: Buckets, subPath: seq<Edge>, lineStyleIdx: nat, fillStyleIdx0: nat, fillStyleIdx1: nat)
    ensures (WellKeyed(b.fill, FillKind) && forall e :: e in subPath ==> e.fillStyleIdx == fillStyleIdx1) ==>
              WellKeyed(DispatchFills(b.fill, subPath, fillStyleIdx0, fillStyleIdx1), FillKind)
    ensures (WellKeyed(b.line, LineKind) && forall e :: e in subPath ==> e.lineStyleIdx == lineStyleIdx) ==>
              WellKeyed(DispatchLine(b.line, subPath, lineStyleIdx), LineKind)
  {
    if WellKeyed(b.fill, FillKind) && forall e :: e in subPath ==> e.fillStyleIdx == fillStyleIdx1 {
      DispatchFillsWellKeyed(b.fill, subPath, fillStyleIdx0, fillStyleIdx1);
    }
    if WellKeyed(b.line, LineKind) && lineStyleIdx != 0 && forall e :: e in subPath ==> e.lineStyleIdx == lineStyleIdx {
      AppendKeepsWellKeyed(b.line, lineStyleIdx, subPath, LineKind);
    }
  }

  /**
   * The local variables of CreateEdgeMaps plus the shape's growing tables
   * and output lists. `shared` counts the trailing entries of the group
   * lists that are the current bucket maps themselves: after an end record
   * the source appends the current maps without replacing them, so later
   * writes to them show through those entries.
   */
  datatype BuildState = BuildState(
    fillStyles: seq<FillStyleRGB>, lineStyles: seq<LineStyleRGB>,
    pos: Point,
    fillStyleIdxOffset: nat, lineStyleIdxOffset: nat,
    fillStyleIdx0: nat, fillStyleIdx1: nat, lineStyleIdx: nat,
    subPath: seq<Edge>,
    fillEdgeMaps: seq<EdgeMap>, lineEdgeMaps: seq<EdgeMap>, numGroups: nat,
    current: Buckets,
    shared: nat)

  /** The state invariant of the interpreter. */
  ghost predicate Valid(s: BuildState)
  {
    && |s.fillEdgeMaps| == s.numGroups
    && |s.lineEdgeMaps| == s.numGroups
    && s.shared <= s.numGroups
    && s.fillStyleIdxOffset <= |s.fillStyles|
    && s.lineStyleIdxOffset <= |s.lineStyles|
    && (forall i :: 0 <= i < s.numGroups ==> WellKeyed(s.fillEdgeMaps[i], FillKind))
    && (forall i :: 0 <= i < s.numGroups ==> WellKeyed(s.lineEdgeMaps[i], LineKind))
    && WellKeyed(s.current.fill, FillKind)
    && WellKeyed(s.current.line, LineKind)
    && (forall i :: s.numGroups - s.shared <= i < s.numGroups ==>
          s.fillEdgeMaps[i] == s.current.fill && s.lineEdgeMaps[i] == s.current.line)
    && (forall e :: e in s.subPath ==> e.fillStyleIdx == s.fillStyleIdx1 && e.lineStyleIdx == s.lineStyleIdx)
  }

  /** The state CreateEdgeMaps starts from: cursor at the origin, no styles, nothing built. */
  function Initial(fillStyles: seq<FillStyleRGB>, lineStyles: seq<LineStyleRGB>): (s: BuildState)
    ensures Valid(s)
  {
    BuildState(fillStyles, lineStyles, Point(0, 0), 0, 0, 0, 0, 0, [], [], [], 0, Buckets(map[], map[]), 0)
  }

  /** `maps` with its last `n` entries (or all, if fewer) replaced by `m`. */
  function Share(maps: seq<EdgeMap>, n: nat, m: EdgeMap): (r: seq<EdgeMap>)
    ensures |r| == |maps|
  {
    var keep := if n <= |maps| then |maps| - n else 0;
    maps[..keep] + seq(|maps| - keep, _ => m)
  }

  /** Replace the current bucket maps, updating the group entries that share them. */
  function SetCurrent(s: BuildState, b: Buckets): (r: BuildState)
    ensures r == s.(current := b, fillEdgeMaps := r.fillEdgeMaps, lineEdgeMaps := r.lineEdgeMaps)
    ensures |r.fillEdgeMaps| == |s.fillEdgeMaps| && |r.lineEdgeMaps| == |s.lineEdgeMaps|
    ensures forall i :: 0 <= i < |s.fillEdgeMaps| - s.shared ==> r.fillEdgeMaps[i] == s.fillEdgeMaps[i]
    ensures forall i :: 0 <= i < |s.lineEdgeMaps| - s.shared ==> r.lineEdgeMaps[i] == s.lineEdgeMaps[i]
  {
    s.(current := b,
       fillEdgeMaps := Share(s.fillEdgeMaps, s.shared, b.fill),
       lineEdgeMaps := Share(s.lineEdgeMaps, s.shared, b.line))
  }

  lemma SetCurrentValid(s: BuildState, b: Buckets)
    ensures Valid(s) && WellKeyed(b.fill, FillKind) && WellKeyed(b.line, LineKind) ==> Valid(SetCurrent(s, b))
  {
  }

  /** Dispatch the pending run into the current buckets with the current indices (the run is kept). */
  function Flush(s: BuildState): (r: BuildState)
    ensures Valid(s) ==> Valid(r)
    ensures r.current == ProcessSubPath(s.current, s.subPath, s.lineStyleIdx, s.fillStyleIdx0, s.fillStyleIdx1)
    ensures r.fillStyles == s.fillStyles && r.lineStyles == s.lineStyles && r.pos == s.pos
    ensures r.fillStyleIdxOffset == s.fillStyleIdxOffset && r.lineStyleIdxOffset == s.lineStyleIdxOffset
    ensures r.fillStyleIdx0 == s.fillStyleIdx0 && r.fillStyleIdx1 == s.fillStyleIdx1 && r.lineStyleIdx == s.lineStyleIdx
    ensures r.subPath == s.subPath && r.numGroups == s.numGroups && r.shared == s.shared
    ensures |r.fillEdgeMaps| == |s.fillEdgeMaps| && |r.lineEdgeMaps| == |s.lineEdgeMaps|
    ensures forall i :: 0 <= i < |s.fillEdgeMaps| - s.shared ==> r.fillEdgeMaps[i] == s.fillEdgeMaps[i]
    ensures forall i :: 0 <= i < |s.lineEdgeMaps| - s.shared ==> r.lineEdgeMaps[i] == s.lineEdgeMaps[i]
  {
    var b := ProcessSubPath(s.current, s.subPath, s.lineStyleIdx, s.fillStyleIdx0, s.fillStyleIdx1);
    SetCurrentValid(s, b);
    SetCurrent(s, b)
  }

  /** Stitch the current buckets and append them as a new group; they stay the current maps. */
  function CloseGroup(s: BuildState): (r: BuildState)
    ensures Valid(s) ==> Valid(r)
    ensures r.current == Buckets(CleanEdgeMap(s.current.fill), CleanEdgeMap(s.current.line))
    ensures r.fillStyles == s.fillStyles && r.lineStyles == s.lineStyles && r.pos == s.pos
    ensures r.fillStyleIdxOffset == s.fillStyleIdxOffset && r.lineStyleIdxOffset == s.lineStyleIdxOffset
    ensures r.fillStyleIdx0 == s.fillStyleIdx0 && r.fillStyleIdx1 == s.fillStyleIdx1 && r.lineStyleIdx == s.lineStyleIdx
    ensures r.subPath == s.subPath && r.numGroups == s.numGroups + 1 && r.shared == s.shared + 1
    ensures |r.fillEdgeMaps| == |s.fillEdgeMaps| + 1 && r.fillEdgeMaps[|s.fillEdgeMaps|] == r.current.fill
    ensures |r.lineEdgeMaps| == |s.lineEdgeMaps| + 1 && r.lineEdgeMaps[|s.lineEdgeMaps|] == r.current.line
    ensures forall i :: 0 <= i < |s.fillEdgeMaps| - s.shared ==> r.fillEdgeMaps[i] == s.fillEdgeMaps[i]
    ensures forall i :: 0 <= i < |s.lineEdgeMaps| - s.shared ==> r.lineEdgeMaps[i] == s.lineEdgeMaps[i]
  {
    var cleaned := Buckets(CleanEdgeMap(s.current.fill), CleanEdgeMap(s.current.line));
    var s1 := SetCurrent(s, cleaned);
    var r := s1.(fillEdgeMaps := s1.fillEdgeMaps + [cleaned.fill],
                 lineEdgeMaps := s1.lineEdgeMaps + [cleaned.line],
                 numGroups := s.numGroups + 1,
                 shared := s.shared + 1);
    SetCurrentValid(s, cleaned);
    r
  }

  /** The group boundary of a style change: close the group, start fresh maps, clear all three indices. */
  function ResetGroup(s: BuildState): (r: BuildState)
    ensures Valid(s) && s.subPath == [] ==> Valid(r)
    ensures r.numGroups == s.numGroups + 1 && r.subPath == s.subPath && r.pos == s.pos
    ensures r.fillStyles == s.fillStyles && r.lineStyles == s.lineStyles
    ensures r.current == Buckets(map[], map[]) && r.shared == 0
    ensures r.lineStyleIdx == 0 && r.fillStyleIdx0 == 0 && r.fillStyleIdx1 == 0
    ensures |r.fillEdgeMaps| == |s.fillEdgeMaps| + 1 && r.fillEdgeMaps[|s.fillEdgeMaps|] == CleanEdgeMap(s.current.fill)
    ensures |r.lineEdgeMaps| == |s.lineEdgeMaps| + 1 && r.lineEdgeMaps[|s.lineEdgeMaps|] == CleanEdgeMap(s.current.line)
    ensures forall i :: 0 <= i < |s.fillEdgeMaps| - s.shared ==> r.fillEdgeMaps[i] == s.fillEdgeMaps[i]
    ensures forall i :: 0 <= i < |s.lineEdgeMaps| - s.shared ==> r.lineEdgeMaps[i] == s.lineEdgeMaps[i]
  {
    var c := CloseGroup(s);
    ResetGroupValid(s, c);
    c.(current := Buckets(map[], map[]), shared := 0, lineStyleIdx := 0, fillStyleIdx0 := 0, fillStyleIdx1 := 0)
  }

  lemma ResetGroupValid(s: BuildState, c: BuildState)
    requires c == CloseGroup(s)
    ensures Valid(s) && s.subPath == [] ==>
              Valid(c.(current := Buckets(map[], map[]), shared := 0, lineStyleIdx := 0, fillStyleIdx0 := 0, fillStyleIdx1 := 0))
  {
    if Valid(s) && s.subPath == [] {
      assert Valid(c);
      var r := c.(current := Buckets(map[], map[]), shared := 0, lineStyleIdx := 0, fillStyleIdx0 := 0, fillStyleIdx1 := 0);
      assert r.subPath == [];
      assert WellKeyed(r.current.fill, FillKind) && WellKeyed(r.current.line, LineKind);
    }
  }

  /** An explicit nonzero index biased by the table offset, an explicit 0, or the previous index. */
  function ResolveStyleIdx(given: Option<nat>, previous: nat, offset: nat): nat
  {
    match given
    case None => previous
    case Some(v) => if v > 0 then v + offset else 0
  }

  /** Append the record's styles to the tables, the offsets becoming the table sizes before the append. */
  function DeclareStyles(s: BuildState, ns: Option<NewStyles>): (r: BuildState)
    ensures Valid(s) ==> Valid(r)
    ensures r.pos == s.pos && r.subPath == s.subPath && r.numGroups == s.numGroups && r.shared == s.shared
    ensures r.current == s.current && r.fillEdgeMaps == s.fillEdgeMaps && r.lineEdgeMaps == s.lineEdgeMaps
    ensures r.fillStyleIdx0 == s.fillStyleIdx0 && r.fillStyleIdx1 == s.fillStyleIdx1 && r.lineStyleIdx == s.lineStyleIdx
    ensures ns.None? ==> r == s
    ensures ns.Some? ==> r.fillStyles == s.fillStyles + ns.value.fillStyles && r.lineStyles == s.lineStyles + ns.value.lineStyles
    ensures ns.Some? ==> r.fillStyleIdxOffset == |s.fillStyles| && r.lineStyleIdxOffset == |s.lineStyles|
    ensures s.fillStyles <= r.fillStyles && s.lineStyles <= r.lineStyles
  {
    match ns
    case None => s
    case Some(n) =>
      s.(fillStyleIdxOffset := |s.fillStyles|, lineStyleIdxOffset := |s.lineStyles|,
         fillStyles := s.fillStyles + n.fillStyles, lineStyles := s.lineStyles + n.lineStyles)
  }

  /** Resolve whichever of the three indices the record gives, against the current offsets. */
  function ResolveIndices(s: BuildState, rec: ShapeRecord): (r: BuildState)
    requires rec.StyleChangeRecord?
    ensures Valid(s) && (SetsAnyStyle(rec) ==> s.subPath == []) ==> Valid(r)
    ensures r.numGroups == s.numGroups && r.subPath == s.subPath && r.pos == s.pos
    ensures r.fillStyles == s.fillStyles && r.lineStyles == s.lineStyles
  {
    s.(lineStyleIdx := ResolveStyleIdx(rec.lineStyle, s.lineStyleIdx, s.lineStyleIdxOffset),
       fillStyleIdx0 := ResolveStyleIdx(rec.fillStyle0, s.fillStyleIdx0, s.fillStyleIdxOffset),
       fillStyleIdx1 := ResolveStyleIdx(rec.fillStyle1, s.fillStyleIdx1, s.fillStyleIdxOffset))
  }

  /** The start of a style change: a record naming any index dispatches and clears the pending run. */
  function EndRun(s: BuildState, rec: ShapeRecord): (r: BuildState)
    ensures Valid(s) ==> Valid(r)
    ensures r.subPath == (if SetsAnyStyle(rec) then [] else s.subPath)
    ensures r.fillStyles == s.fillStyles && r.lineStyles == s.lineStyles && r.pos == s.pos
    ensures r.fillStyleIdxOffset == s.fillStyleIdxOffset && r.lineStyleIdxOffset == s.lineStyleIdxOffset
    ensures r.fillStyleIdx0 == s.fillStyleIdx0 && r.fillStyleIdx1 == s.fillStyleIdx1 && r.lineStyleIdx == s.lineStyleIdx
    ensures r.numGroups == s.numGroups && r.shared == s.shared
    ensures SetsAnyStyle(rec) ==> r.current == Flush(s).current && r.fillEdgeMaps == Flush(s).fillEdgeMaps
  {
    if SetsAnyStyle(rec) then Flush(s).(subPath := []) else s
  }

  /** A style-change record: flush, declare styles, reset the group or resolve indices, then move. */
  function ApplyStyleChange(s: BuildState, rec: ShapeRecord): (r: BuildState)
    requires rec.StyleChangeRecord?
    ensures Valid(s) ==> Valid(r)
    ensures r.numGroups == s.numGroups + (if IsGroupReset(rec) then 1 else 0)
    ensures r.subPath == (if SetsAnyStyle(rec) then [] else s.subPath)
    ensures r.pos == (if rec.moveTo.Some? then rec.moveTo.value else s.pos)
    ensures s.fillStyles <= r.fillStyles && s.lineStyles <= r.lineStyles
  {
    var s1 := EndRun(s, rec);
    var s2 := DeclareStyles(s1, rec.newStyles);
    var s3 := if IsGroupReset(rec) then ResetGroup(s2) else ResolveIndices(s2, rec);
    if rec.moveTo.Some? then s3.(pos := rec.moveTo.value) else s3
  }

  /** A straight-edge record: an edge from the cursor displaced by the record's delta. */
  function AddStraightEdge(s: BuildState, deltaX: int, deltaY: int): (r: BuildState)
    ensures |r.subPath| == |s.subPath| + 1 && r.subPath[..|s.subPath|] == s.subPath
    ensures var e := r.subPath[|s.subPath|];
            && e.StraightEdge?
            && e.from == s.pos && e.to == r.pos
            && r.pos.x - s.pos.x == deltaX && r.pos.y - s.pos.y == deltaY
            && e.fillStyleIdx == s.fillStyleIdx1 && e.lineStyleIdx == s.lineStyleIdx
            && !e.isReverseEdge
    ensures r == s.(pos := r.pos, subPath := r.subPath)
    ensures Valid(s) ==> Valid(r)
  {
    var to := Translate(s.pos, deltaX, deltaY);
    s.(pos := to, subPath := s.subPath + [StraightEdge(s.pos, to, s.fillStyleIdx1, s.lineStyleIdx, false)])
  }

  /** A curved-edge record: control point relative to the cursor, anchor relative to the control point. */
  function AddCurvedEdge(s: BuildState, controlDeltaX: int, controlDeltaY: int, anchorDeltaX: int, anchorDeltaY: int): (r: BuildState)
    ensures |r.subPath| == |s.subPath| + 1 && r.subPath[..|s.subPath|] == s.subPath
    ensures var e := r.subPath[|s.subPath|];
            && e.CurvedEdge?
            && e.from == s.pos && e.to == r.pos
            && e.control.x - s.pos.x == controlDeltaX && e.control.y - s.pos.y == controlDeltaY
            && r.pos.x - e.control.x == anchorDeltaX && r.pos.y - e.control.y == anchorDeltaY
            && e.fillStyleIdx == s.fillStyleIdx1 && e.lineStyleIdx == s.lineStyleIdx
            && !e.isReverseEdge
    ensures r == s.(pos := r.pos, subPath := r.subPath)
    ensures Valid(s) ==> Valid(r)
  {
    var control := Translate(s.pos, controlDeltaX, controlDeltaY);
    var to := Translate(control, anchorDeltaX, anchorDeltaY);
    s.(pos := to, subPath := s.subPath + [CurvedEdge(s.pos, control, to, s.fillStyleIdx1, s.lineStyleIdx, false)])
  }

  /**
   * The end record: dispatch the pending run, stitch the current buckets and
   * append them as a group. Unlike a group reset it neither clears the run
   * nor replaces the current maps, so the appended group stays shared with them.
   */
  function EndShape(s: BuildState): (r: BuildState)
    ensures Valid(s) ==> Valid(r)
    ensures r.numGroups == s.numGroups + 1 && r.shared == s.shared + 1
    ensures r.subPath == s.subPath && r.pos == s.pos
    ensures r.fillStyles == s.fillStyles && r.lineStyles == s.lineStyles
    ensures r.fillStyleIdx0 == s.fillStyleIdx0 && r.fillStyleIdx1 == s.fillStyleIdx1 && r.lineStyleIdx == s.lineStyleIdx
    ensures var flushed := ProcessSubPath(s.current, s.subPath, s.lineStyleIdx, s.fillStyleIdx0, s.fillStyleIdx1);
            && r.current.fill.Keys == flushed.fill.Keys && r.current.line.Keys == flushed.line.Keys
            && (forall k :: k in flushed.fill ==> SameEdgesUpToReversal(r.current.fill[k], flushed.fill[k]) && Chained(r.current.fill[k]))
            && (forall k :: k in flushed.line ==> SameEdgesUpToReversal(r.current.line[k], flushed.line[k]) && Chained(r.current.line[k]))
    ensures |r.fillEdgeMaps| == |s.fillEdgeMaps| + 1 && r.fillEdgeMaps[|s.fillEdgeMaps|] == r.current.fill
    ensures |r.lineEdgeMaps| == |s.lineEdgeMaps| + 1 && r.lineEdgeMaps[|s.lineEdgeMaps|] == r.current.line
    ensures forall i :: 0 <= i < |s.fillEdgeMaps| - s.shared ==> r.fillEdgeMaps[i] == s.fillEdgeMaps[i]
    ensures forall i :: 0 <= i < |s.lineEdgeMaps| - s.shared ==> r.lineEdgeMaps[i] == s.lineEdgeMaps[i]
  {
    CloseGroup(Flush(s))
  }

  /** One iteration of the record loop of CreateEdgeMaps. */
  function Step(s: BuildState, rec: ShapeRecord): (r: Result<BuildState, ShapeError>)
    ensures r.Failure? <==> rec.OtherRecord?
    ensures r.Failure? ==> r.error == InvalidRecordType(rec.typeCode)
    ensures r.Success? ==> r.value.numGroups == s.numGroups + (if ClosesGroup(rec) then 1 else 0)
    ensures r.Success? && Valid(s) ==> Valid(r.value)
    ensures r.Success? ==> s.fillStyles <= r.value.fillStyles && s.lineStyles <= r.value.lineStyles
  {
    match rec
    case StyleChangeRecord(_, _, _, _, _) => Success(ApplyStyleChange(s, rec))
    case StraightEdgeRecord(dx, dy) => Success(AddStraightEdge(s, dx, dy))
    case CurvedEdgeRecord(cdx, cdy, adx, ady) => Success(AddCurvedEdge(s, cdx, cdy, adx, ady))
    case EndRecord => Success(EndShape(s))
    case OtherRecord(t) => Failure(InvalidRecordType(t))
  }

  /**
   * A style change setting all three indices to 0 flushes the run, appends
   * exactly one stitched fill map and one stitched line map, clears the
   * three indices and starts empty buckets; groups not sharing the current
   * maps are untouched.
   */
  lemma GroupResetClosesGroup(s: BuildState, rec: ShapeRecord)
    requires Valid(s) && IsGroupReset(rec)
    ensures var r := ApplyStyleChange(s, rec);
            && r.numGroups == s.numGroups + 1
            && |r.fillEdgeMaps| == r.numGroups && |r.lineEdgeMaps| == r.numGroups
            && r.lineStyleIdx == 0 && r.fillStyleIdx0 == 0 && r.fillStyleIdx1 == 0
            && r.subPath == [] && r.current == Buckets(map[], map[])
            && (forall i :: 0 <= i < s.numGroups - s.shared ==>
                  r.fillEdgeMaps[i] == s.fillEdgeMaps[i] && r.lineEdgeMaps[i] == s.lineEdgeMaps[i])
    ensures var r := ApplyStyleChange(s, rec);
            var flushed := Flush(s).current;
            var closed := r.fillEdgeMaps[s.numGroups];
            && closed.Keys == flushed.fill.Keys
            && forall k :: k in flushed.fill ==> SameEdgesUpToReversal(closed[k], flushed.fill[k]) && Chained(closed[k])
  {
    var s1 := EndRun(s, rec);
    var s2 := DeclareStyles(s1, rec.newStyles);
    var s3 := ResetGroup(s2);
    assert s2.current == Flush(s).current && s2.shared == s.shared;
    assert ApplyStyleChange(s, rec) == if rec.moveTo.Some? then s3.(pos := rec.moveTo.value) else s3;
  }

  /**
   * Fill-index resolution in a style change that is not a group reset: an
   * absent index keeps its value, an explicit 0 stays 0, and a nonzero index
   * is biased by the fill-table size from before the latest declaration.
   */
  lemma FillIndexResolution(s: BuildState, rec: ShapeRecord)
    requires rec.StyleChangeRecord? && !IsGroupReset(rec)
    ensures var r := ApplyStyleChange(s, rec);
            var offset := if rec.newStyles.Some? then |s.fillStyles| else s.fillStyleIdxOffset;
            && (rec.fillStyle0.None? ==> r.fillStyleIdx0 == s.fillStyleIdx0)
            && (rec.fillStyle0 == Some(0) ==> r.fillStyleIdx0 == 0)
            && (rec.fillStyle0.Some? && rec.fillStyle0.value > 0 ==> r.fillStyleIdx0 == rec.fillStyle0.value + offset)
            && (rec.fillStyle1.None? ==> r.fillStyleIdx1 == s.fillStyleIdx1)
            && (rec.fillStyle1 == Some(0) ==> r.fillStyleIdx1 == 0)
            && (rec.fillStyle1.Some? && rec.fillStyle1.value > 0 ==> r.fillStyleIdx1 == rec.fillStyle1.value + offset)
  {
  }

  /** Line-index resolution, as for fills, against the line-table size. */
  lemma LineIndexResolution(s: BuildState, rec: ShapeRecord)
    requires rec.StyleChangeRecord? && !IsGroupReset(rec)
    ensures var r := ApplyStyleChange(s, rec);
            var offset := if rec.newStyles.Some? then |s.lineStyles| else s.lineStyleIdxOffset;
            && (rec.lineStyle.None? ==> r.lineStyleIdx == s.lineStyleIdx)
            && (rec.lineStyle == Some(0) ==> r.lineStyleIdx == 0)
            && (rec.lineStyle.Some? && rec.lineStyle.value > 0 ==> r.lineStyleIdx == rec.lineStyle.value + offset)
  {
  }

  /** With a declaration in the same record, a nonzero fill1 index within the declared table addresses, in the grown table, the style the record declared at that position. */
  lemma DeclaredFill1IsAddressed(s: BuildState, rec: ShapeRecord)
    requires rec.StyleChangeRecord? && !IsGroupReset(rec) && rec.newStyles.Some?
    requires rec.fillStyle1.Some? && 0 < rec.fillStyle1.value <= |rec.newStyles.value.fillStyles|
    ensures var r := ApplyStyleChange(s, rec);
            0 < r.fillStyleIdx1 <= |r.fillStyles|
            && r.fillStyles[r.fillStyleIdx1 - 1] == rec.newStyles.value.fillStyles[rec.fillStyle1.value - 1]
  {
  }

  /** The same for fill0. */
  lemma DeclaredFill0IsAddressed(s: BuildState, rec: ShapeRecord)
    requires rec.StyleChangeRecord? && !IsGroupReset(rec) && rec.newStyles.Some?
    requires rec.fillStyle0.Some? && 0 < rec.fillStyle0.value <= |rec.newStyles.value.fillStyles|
    ensures var r := ApplyStyleChange(s, rec);
            0 < r.fillStyleIdx0 <= |r.fillStyles|
            && r.fillStyles[r.fillStyleIdx0 - 1] == rec.newStyles.value.fillStyles[rec.fillStyle0.value - 1]
  {
  }

  /** The same for the line index. */
  lemma DeclaredLineIsAddressed(s: BuildState, rec: ShapeRecord)
    requires rec.StyleChangeRecord? && !IsGroupReset(rec) && rec.newStyles.Some?
    requires rec.lineStyle.Some? && 0 < rec.lineStyle.value <= |rec.newStyles.value.lineStyles|
    ensures var r := ApplyStyleChange(s, rec);
            0 < r.lineStyleIdx <= |r.lineStyles|
            && r.lineStyles[r.lineStyleIdx - 1] == rec.newStyles.value.lineStyles[rec.lineStyle.value - 1]
  {
  }

  /** Position of the first record of a type the interpreter does not know. */
  function FirstInvalid(records: seq<ShapeRecord>): (r: Option<nat>)
    ensures r.Some? ==> r.value < |records| && records[r.value].OtherRecord?
    ensures r.Some? ==> forall j :: 0 <= j < r.value ==> !records[j].OtherRecord?
    ensures r.None? ==> forall j :: 0 <= j < |records| ==> !records[j].OtherRecord?
  {
    if |records| == 0 then None
    else if records[0].OtherRecord? then Some(0)
    else match FirstInvalid(records[1..])
      case None => None
      case Some(i) => Some(i + 1)
  }

  /**
   * The record loop of CreateEdgeMaps. It fails exactly on the first record of
   * an unknown type; otherwise one group is added per group-closing record
   * and the state invariant is kept.
   */
  function Interpret(records: seq<ShapeRecord>, s: BuildState): (r: Result<BuildState, ShapeError>)
    ensures r.Failure? <==> FirstInvalid(records).Some?
    ensures r.Failure? ==> r.error == InvalidRecordType(records[FirstInvalid(records).value].typeCode)
    ensures r.Success? ==> r.value.numGroups == s.numGroups + CountGroupClosers(records)
    ensures r.Success? && Valid(s) ==> Valid(r.value)
    ensures r.Success? ==> s.fillStyles <= r.value.fillStyles && s.lineStyles <= r.value.lineStyles
  {
    if |records| == 0 then Success(s)
    else
      match Step(s, records[0])
      case Failure(e) =>
        assert FirstInvalid(records) == Some(0);
        Failure(e)
      case Success(s1) =>
        var r := Interpret(records[1..], s1);
        assert CountGroupClosers(records) == (if ClosesGroup(records[0]) then 1 else 0) + CountGroupClosers(records[1..]);
        assert FirstInvalid(records).Some? == FirstInvalid(records[1..]).Some?;
        assert FirstInvalid(records[1..]).Some? ==>
                 FirstInvalid(records).value == FirstInvalid(records[1..]).value + 1
                 && records[FirstInvalid(records).value] == records[1..][FirstInvalid(records[1..]).value];
        r
  }
}

/** The shape object of SwfShapeRGB and its memoised CreateEdgeMaps. */
module Shape {
  import opened Wrappers
  import opened Styles
  import opened EdgeMaps
  import opened Interpreter

  /** Records and style tables of one shape, and the groups built from them on first use. */
  datatype SwfShape = SwfShape(
    records: seq<ShapeRecord>,
    fillStyles: seq<FillStyleRGB>, lineStyles: seq<LineStyleRGB>,
    fillEdgeMaps: seq<EdgeMap>, lineEdgeMaps: seq<EdgeMap>, numGroups: nat,
    edgeMapsCreated: bool)

  /** A freshly constructed shape: nothing built yet. */
  function NewShape(records: seq<ShapeRecord>, fillStyles: seq<FillStyleRGB>, lineStyles: seq<LineStyleRGB>): SwfShape
  {
    SwfShape(records, fillStyles, lineStyles, [], [], 0, false)
  }

  /** Once built, the group lists agree in size with the group count and every bucket map is well keyed. */
  ghost predicate ShapeValid(sh: SwfShape)
  {
    sh.edgeMapsCreated ==>
      && |sh.fillEdgeMaps| == sh.numGroups
      && |sh.lineEdgeMaps| == sh.numGroups
      && (forall i :: 0 <= i < sh.numGroups ==> WellKeyed(sh.fillEdgeMaps[i], FillKind))
      && (forall i :: 0 <= i < sh.numGroups ==> WellKeyed(sh.lineEdgeMaps[i], LineKind))
  }

  /**
   * CreateEdgeMaps: a no-op once the maps exist; otherwise interpret the
   * records from the initial state, failing on an unknown record type, and
   * keep the grown style tables and the built groups.
   */
  function CreateEdgeMaps(sh: SwfShape): (r: Result<SwfShape, ShapeError>)
    ensures sh.edgeMapsCreated ==> r == Success(sh)
    ensures !sh.edgeMapsCreated ==> (r.Failure? <==> FirstInvalid(sh.records).Some?)
    ensures r.Success? ==> r.value.edgeMapsCreated && r.value.records == sh.records
    ensures r.Success? && !sh.edgeMapsCreated ==> r.value.numGroups == CountGroupClosers(sh.records)
    ensures r.Success? && (ShapeValid(sh) || !sh.edgeMapsCreated) ==> ShapeValid(r.value)
    ensures r.Success? ==> sh.fillStyles <= r.value.fillStyles && sh.lineStyles <= r.value.lineStyles
  {
    if sh.edgeMapsCreated then Success(sh)
    else
      match Interpret(sh.records, Initial(sh.fillStyles, sh.lineStyles))
      case Failure(e) => Failure(e)
      case Success(b) =>
        Success(sh.(fillStyles := b.fillStyles, lineStyles := b.lineStyles,
                    fillEdgeMaps := b.fillEdgeMaps, lineEdgeMaps := b.lineEdgeMaps,
                    numGroups := b.numGroups, edgeMapsCreated := true))
  }

  /** A second CreateEdgeMaps changes nothing: in particular the style tables are extended only once. */
  lemma CreateEdgeMapsMemoised(sh: SwfShape)
    requires CreateEdgeMaps(sh).Success?
    ensures CreateEdgeMaps(CreateEdgeMaps(sh).value) == CreateEdgeMaps(sh)
  {
  }
}
