/**
 * The edge value type of src/Edges: a closed two-case variant (straight
 * segment or quadratic Bezier curve) carrying its fill and line style
 * references and a flag recording whether it has been flipped.
 */
module Edges {
  import opened Seqs

  /** An integer point in twips; equality is exact coordinate equality. */
  datatype Point = Point(x: int, y: int)

  /** `p` displaced by (dx, dy). */
  function Translate(p: Point, dx: int, dy: int): Point
  {
    Point(p.x + dx, p.y + dy)
  }

  datatype Edge =
    | StraightEdge(from: Point, to: Point, fillStyleIdx: nat, lineStyleIdx: nat, isReverseEdge: bool)
    | CurvedEdge(from: Point, control: Point, to: Point, fillStyleIdx: nat, lineStyleIdx: nat, isReverseEdge: bool)
  {
    /** The points the edge passes through or is pulled towards, in drawing order. */
    function Trace(): seq<Point>
    {
      match this
      case StraightEdge(f, t, _, _, _) => [f, t]
      case CurvedEdge(f, c, t, _, _, _) => [f, c, t]
    }

    /**
     * The same geometry traversed the other way, filed under a new fill
     * style; the line style is kept and the reversal flag toggles.
     */
    function ReverseWithStyle(newFillStyleIdx: nat): (r: Edge)
      ensures r.CurvedEdge? <==> CurvedEdge?
      ensures r.Trace() == Reversed(Trace())
      ensures r.from == to && r.to == from
      ensures CurvedEdge? ==> r.control == control
      ensures r.fillStyleIdx == newFillStyleIdx
      ensures r.lineStyleIdx == lineStyleIdx
      ensures r.isReverseEdge == !isReverseEdge
    {
      match this
      case StraightEdge(f, t, _, l, rev) => StraightEdge(t, f, newFillStyleIdx, l, !rev)
      case CurvedEdge(f, c, t, _, l, rev) => CurvedEdge(t, c, f, newFillStyleIdx, l, !rev)
    }

    /** True when `p` is one of the edge's two endpoints. */
    predicate Touches(p: Point)
    {
      from == p || to == p
    }

    /**
     * The unflipped representative of this edge: the edge itself, or its
     * reversal with its own fill style when it is currently flipped.
     */
    function Canonical(): (c: Edge)
      ensures !c.isReverseEdge
      ensures c == this || c == ReverseWithStyle(fillStyleIdx)
    {
      if isReverseEdge then ReverseWithStyle(fillStyleIdx) else this
    }
  }

  /** Reversing twice, the second time with the original fill, gives back the original edge. */
  lemma DoubleReversalRestores(e: Edge, f: nat)
    ensures e.ReverseWithStyle(f).ReverseWithStyle(e.fillStyleIdx) == e
  {
  }

  /** An edge and its self-styled reversal share their canonical representative. */
  lemma CanonicalOfReversal(e: Edge)
    ensures e.ReverseWithStyle(e.fillStyleIdx).Canonical() == e.Canonical()
  {
  }

  /** Edges with the same canonical representative are equal or self-styled reversals of each other. */
  lemma SameCanonical(a: Edge, b: Edge)
    requires a.Canonical() == b.Canonical()
    ensures a == b || a == b.ReverseWithStyle(b.fillStyleIdx)
  {
  }

  /** The canonical representative has the same endpoints and style references. */
  lemma CanonicalKeepsEndpointsAndStyles(e: Edge, p: Point)
    ensures e.Canonical().Touches(p) == e.Touches(p)
    ensures e.Canonical().fillStyleIdx == e.fillStyleIdx
    ensures e.Canonical().lineStyleIdx == e.lineStyleIdx
  {
  }
}
