/**
 * Where CreateEdgeMaps files the edges it makes. Every edge record makes
 * one edge; the group open when it is made and the fill0, fill1 and line
 * indices in force decide which buckets receive a copy: fill1 and the line
 * index receive the edge itself, fill0 its reversal restyled with fill0.
 * Stitching reorders and flips edges but keeps their canonical
 * representatives, so a group's content is stated as a multiset of those.
 */
module Filing {
  import opened Wrappers
  import opened Edges
  import opened EdgeMaps
  import opened Stitcher
  import opened Interpreter
  import opened Styles
  import opened Shape

  /** An edge an edge record made, with the group it was made in and the indices then in force. */
  datatype Made = Made(group: nat, fill0: nat, fill1: nat, line: nat, edge: Edge)

  /** The canonical edges a map holds under key `k`. */
  ghost function Content(m: EdgeMap, k: nat): multiset<Edge>
  {
    multiset(CanonSeq(Get(m, k)))
  }

  /** What fill key `k` receives for one made edge: its fill0 copy restyled with `k`, and the edge itself for fill1. */
  function FillShare(m: Made, k: nat): multiset<Edge>
  {
    (if k != 0 && m.fill0 == k then multiset{m.edge.(fillStyleIdx := k)} else multiset{})
    + (if k != 0 && m.fill1 == k then multiset{m.edge} else multiset{})
  }

  /** What line key `k` receives for one made edge. */
  function LineShare(m: Made, k: nat): multiset<Edge>
  {
    if k != 0 && m.line == k then multiset{m.edge} else multiset{}
  }

  /** The canonical edges fill key `k` of group `g` should hold: the fill shares of the edges made in that group. */
  function FillFiled(made: seq<Made>, g: nat, k: nat): multiset<Edge>
  {
    if |made| == 0 then multiset{}
    else (if made[0].group == g then FillShare(made[0], k) else multiset{}) + FillFiled(made[1..], g, k)
  }

  /** The canonical edges line key `k` of group `g` should hold. */
  function LineFiled(made: seq<Made>, g: nat, k: nat): multiset<Edge>
  {
    if |made| == 0 then multiset{}
    else (if made[0].group == g then LineShare(made[0], k) else multiset{}) + LineFiled(made[1..], g, k)
  }

  /** The run's edges as made in group `g` under the given indices. */
  function Pending(run: seq<Edge>, g: nat, fill0: nat, fill1: nat, line: nat): (r: seq<Made>)
    ensures |r| == |run|
    ensures forall j :: 0 <= j < |run| ==> r[j] == Made(g, fill0, fill1, line, run[j])
  {
    seq(|run|, j requires 0 <= j < |run| => Made(g, fill0, fill1, line, run[j]))
  }

  /** `run` with every edge restyled with fill `k`. */
  function Restyled(run: seq<Edge>, k: nat): (r: seq<Edge>)
    ensures |r| == |run|
  {
    if |run| == 0 then [] else [run[0].(fillStyleIdx := k)] + Restyled(run[1..], k)
  }

  /** No edge of the run has been flipped. */
  ghost predicate Unflipped(run: seq<Edge>)
  {
    forall j :: 0 <= j < |run| ==> !run[j].isReverseEdge
  }

  lemma {:induction false} FillFiledAppend(a: seq<Made>, b: seq<Made>, g: nat, k: nat)
    ensures FillFiled(a + b, g, k) == FillFiled(a, g, k) + FillFiled(b, g, k)
    decreases |a|
  {
    if |a| == 0 {
      assert a + b == b;
    } else {
      assert (a + b)[1..] == a[1..] + b;
      FillFiledAppend(a[1..], b, g, k);
    }
  }

  lemma {:induction false} LineFiledAppend(a: seq<Made>, b: seq<Made>, g: nat, k: nat)
    ensures LineFiled(a + b, g, k) == LineFiled(a, g, k) + LineFiled(b, g, k)
    decreases |a|
  {
    if |a| == 0 {
      assert a + b == b;
    } else {
      assert (a + b)[1..] == a[1..] + b;
      LineFiledAppend(a[1..], b, g, k);
    }
  }

  /** Edges made in other groups contribute nothing to group `g`. */
  lemma {:induction false} FiledElsewhere(made: seq<Made>, g: nat, k: nat)
    requires forall j :: 0 <= j < |made| ==> made[j].group != g
    ensures FillFiled(made, g, k) == multiset{} && LineFiled(made, g, k) == multiset{}
    decreases |made|
  {
    if |made| > 0 {
      FiledElsewhere(made[1..], g, k);
    }
  }

  /** A pending run's fill shares: its edges restyled with `k` when `k` is fill0, the edges themselves when `k` is fill1. */
  lemma {:induction false} PendingFillFiled(run: seq<Edge>, g: nat, fill0: nat, fill1: nat, line: nat, k: nat)
    ensures FillFiled(Pending(run, g, fill0, fill1, line), g, k)
            == (if k != 0 && fill0 == k then multiset(Restyled(run, k)) else multiset{})
               + (if k != 0 && fill1 == k then multiset(run) else multiset{})
    decreases |run|
  {
    if |run| > 0 {
      var p := Pending(run, g, fill0, fill1, line);
      var e := run[0];
      assert p[1..] == Pending(run[1..], g, fill0, fill1, line);
      PendingFillFiled(run[1..], g, fill0, fill1, line, k);
      var a0 := if k != 0 && fill0 == k then multiset{e.(fillStyleIdx := k)} else multiset{};
      var b0 := if k != 0 && fill1 == k then multiset{e} else multiset{};
      var a := if k != 0 && fill0 == k then multiset(Restyled(run[1..], k)) else multiset{};
      var b := if k != 0 && fill1 == k then multiset(run[1..]) else multiset{};
      assert p[0] == Made(g, fill0, fill1, line, e);
      assert FillShare(p[0], k) == a0 + b0;
      assert FillFiled(p, g, k) == FillShare(p[0], k) + FillFiled(p[1..], g, k);
      ConsShares(run, k, k != 0 && fill0 == k, k != 0 && fill1 == k);
      Regroup(a0, b0, a, b);
    }
  }

  /** The fill0 and fill1 shares of a run split into those of its first edge and those of the rest. */
  lemma ConsShares(run: seq<Edge>, k: nat, c0: bool, c1: bool)
    requires |run| > 0
    ensures (if c0 then multiset(Restyled(run, k)) else multiset{})
            == (if c0 then multiset{run[0].(fillStyleIdx := k)} else multiset{})
               + (if c0 then multiset(Restyled(run[1..], k)) else multiset{})
    ensures (if c1 then multiset(run) else multiset{})
            == (if c1 then multiset{run[0]} else multiset{}) + (if c1 then multiset(run[1..]) else multiset{})
  {
    if c0 {
      var x := run[0].(fillStyleIdx := k);
      var rest := Restyled(run[1..], k);
      assert Restyled(run, k) == [x] + rest;
      assert multiset([x] + rest) == multiset([x]) + multiset(rest);
    }
    if c1 {
      assert run == [run[0]] + run[1..];
      assert multiset(run) == multiset([run[0]]) + multiset(run[1..]);
    }
  }

  lemma Regroup<T>(a0: multiset<T>, b0: multiset<T>, a: multiset<T>, b: multiset<T>)
    ensures (a0 + b0) + (a + b) == (a0 + a) + (b0 + b)
  {
  }

  /** A pending run's line shares: the edges themselves when `k` is the line index. */
  lemma {:induction false} PendingLineFiled(run: seq<Edge>, g: nat, fill0: nat, fill1: nat, line: nat, k: nat)
    ensures LineFiled(Pending(run, g, fill0, fill1, line), g, k)
            == (if k != 0 && line == k then multiset(run) else multiset{})
    decreases |run|
  {
    if |run| > 0 {
      var p := Pending(run, g, fill0, fill1, line);
      assert p[1..] == Pending(run[1..], g, fill0, fill1, line);
      assert LineFiled(p, g, k) == LineShare(p[0], k) + LineFiled(p[1..], g, k);
      PendingLineFiled(run[1..], g, fill0, fill1, line, k);
      assert run == [run[0]] + run[1..];
      assert multiset(run) == multiset{run[0]} + multiset(run[1..]);
    }
  }

  /** An unflipped edge is its own canonical representative. */
  lemma {:induction false} CanonUnflipped(run: seq<Edge>)
    requires Unflipped(run)
    ensures CanonSeq(run) == run
  {
  }

  /** The fill0 copy of an unflipped run has, as canonical edges, the run restyled with fill0. */
  lemma {:induction false} CanonReverseRun(run: seq<Edge>, k: nat)
    requires Unflipped(run)
    ensures multiset(CanonSeq(ReverseRun(run, k))) == multiset(Restyled(run, k))
    decreases |run|
  {
    if |run| > 0 {
      var e := run[0];
      CanonReverseRun(run[1..], k);
      assert ReverseRun(run, k) == ReverseRun(run[1..], k) + [e.ReverseWithStyle(k)];
      CanonSeqAppend(ReverseRun(run[1..], k), [e.ReverseWithStyle(k)]);
      assert CanonSeq([e.ReverseWithStyle(k)]) == [e.(fillStyleIdx := k)];
      assert multiset(Restyled(run, k)) == multiset{e.(fillStyleIdx := k)} + multiset(Restyled(run[1..], k));
    }
  }

  /** Stitching a map keeps every key's content. */
  lemma CleanKeepsContent(m: EdgeMap, k: nat)
    ensures Content(CleanEdgeMap(m), k) == Content(m, k)
  {
    if k in m {
      assert SameEdgesUpToReversal(CleanEdgeMap(m)[k], m[k]);
    }
  }

  /** Appending the fill0 copy of an unflipped run adds the run restyled with `k`. */
  lemma AppendReversedContent(prefix: seq<Edge>, run: seq<Edge>, k: nat)
    requires Unflipped(run)
    ensures multiset(CanonSeq(prefix + ReverseRun(run, k))) == multiset(CanonSeq(prefix)) + multiset(Restyled(run, k))
  {
    CanonSeqAppend(prefix, ReverseRun(run, k));
    CanonReverseRun(run, k);
  }

  /** Appending an unflipped run adds the run itself. */
  lemma AppendRunContent(prefix: seq<Edge>, run: seq<Edge>)
    requires Unflipped(run)
    ensures multiset(CanonSeq(prefix + run)) == multiset(CanonSeq(prefix)) + multiset(run)
  {
    CanonSeqAppend(prefix, run);
    CanonUnflipped(run);
  }

  /** What a fill key holds after a run is dispatched: what it held, then the fill0 copy and the run as the key is fill0 or fill1. */
  lemma DispatchFillsAt(m: EdgeMap, run: seq<Edge>, fill0: nat, fill1: nat, k: nat)
    requires 0 !in m
    ensures Get(DispatchFills(m, run, fill0, fill1), k)
            == Get(m, k) + (if k != 0 && k == fill0 then ReverseRun(run, k) else [])
                         + (if k != 0 && k == fill1 then run else [])
  {
    if k == 0 || (k != fill0 && k != fill1) {
      DispatchFillsUntouched(m, run, fill0, fill1, k);
      assert Get(m, k) + [] + [] == Get(m, k);
    } else {
      DispatchFillsTouched(m, run, fill0, fill1, k);
    }
  }

  lemma DispatchFillsUntouched(m: EdgeMap, run: seq<Edge>, fill0: nat, fill1: nat, k: nat)
    requires 0 !in m && (k == 0 || (k != fill0 && k != fill1))
    ensures Get(DispatchFills(m, run, fill0, fill1), k) == Get(m, k)
  {
  }

  lemma DispatchFillsTouched(m: EdgeMap, run: seq<Edge>, fill0: nat, fill1: nat, k: nat)
    requires k != 0 && (k == fill0 || k == fill1)
    ensures Get(DispatchFills(m, run, fill0, fill1), k)
            == Get(m, k) + (if k == fill0 then ReverseRun(run, k) else []) + (if k == fill1 then run else [])
  {
    if k != fill1 {
      assert Get(m, k) + ReverseRun(run, k) + [] == Get(m, k) + ReverseRun(run, k);
    } else if k != fill0 {
      assert Get(m, k) + [] + run == Get(m, k) + run;
    }
  }

  /** Dispatching an unflipped run adds its pending fill shares to every fill key. */
  lemma {:induction false} DispatchFillContent(m: EdgeMap, run: seq<Edge>, g: nat, line: nat, fill0: nat, fill1: nat, k: nat)
    requires 0 !in m && Unflipped(run)
    ensures Content(DispatchFills(m, run, fill0, fill1), k)
            == Content(m, k) + FillFiled(Pending(run, g, fill0, fill1, line), g, k)
  {
    DispatchFillsAt(m, run, fill0, fill1, k);
    PendingFillFiled(run, g, fill0, fill1, line, k);
    var c0 := k != 0 && k == fill0;
    var c1 := k != 0 && k == fill1;
    FilledContent(Get(m, k), run, k, c0, c1);
  }

  /** The content of a list extended with the optional fill0 copy and the optional run. */
  lemma FilledContent(prefix: seq<Edge>, run: seq<Edge>, k: nat, c0: bool, c1: bool)
    requires Unflipped(run)
    ensures multiset(CanonSeq(prefix + (if c0 then ReverseRun(run, k) else []) + (if c1 then run else [])))
            == multiset(CanonSeq(prefix)) + ((if c0 then multiset(Restyled(run, k)) else multiset{})
                                             + (if c1 then multiset(run) else multiset{}))
  {
    var mid := prefix + (if c0 then ReverseRun(run, k) else []);
    MaybeReversedContent(prefix, run, k, c0);
    MaybeRunContent(mid, run, c1);
    Regroup(multiset(CanonSeq(prefix)), multiset{}, if c0 then multiset(Restyled(run, k)) else multiset{},
            if c1 then multiset(run) else multiset{});
  }

  lemma MaybeReversedContent(prefix: seq<Edge>, run: seq<Edge>, k: nat, c0: bool)
    requires Unflipped(run)
    ensures multiset(CanonSeq(prefix + (if c0 then ReverseRun(run, k) else [])))
            == multiset(CanonSeq(prefix)) + (if c0 then multiset(Restyled(run, k)) else multiset{})
  {
    if c0 {
      AppendReversedContent(prefix, run, k);
    } else {
      assert prefix + [] == prefix;
    }
  }

  lemma MaybeRunContent(prefix: seq<Edge>, run: seq<Edge>, c1: bool)
    requires Unflipped(run)
    ensures multiset(CanonSeq(prefix + (if c1 then run else [])))
            == multiset(CanonSeq(prefix)) + (if c1 then multiset(run) else multiset{})
  {
    if c1 {
      AppendRunContent(prefix, run);
    } else {
      assert prefix + [] == prefix;
    }
  }

  /** Dispatching an unflipped run adds its pending line shares to every line key. */
  lemma {:induction false} DispatchLineContent(m: EdgeMap, run: seq<Edge>, g: nat, line: nat, fill0: nat, fill1: nat, k: nat)
    requires Unflipped(run)
    ensures Content(DispatchLine(m, run, line), k)
            == Content(m, k) + LineFiled(Pending(run, g, fill0, fill1, line), g, k)
  {
    PendingLineFiled(run, g, fill0, fill1, line, k);
    if k != 0 && k == line {
      AppendRunContent(Get(m, k), run);
    }
  }

  /** The edge an edge record appends to the run. */
  function AddedEdge(s: BuildState, rec: ShapeRecord): (e: Edge)
    requires rec.StraightEdgeRecord? || rec.CurvedEdgeRecord?
    ensures !e.isReverseEdge && e.fillStyleIdx == s.fillStyleIdx1 && e.lineStyleIdx == s.lineStyleIdx
    ensures e.from == s.pos
  {
    match rec
    case StraightEdgeRecord(dx, dy) => AddStraightEdge(s, dx, dy).subPath[|s.subPath|]
    case CurvedEdgeRecord(cdx, cdy, adx, ady) => AddCurvedEdge(s, cdx, cdy, adx, ady).subPath[|s.subPath|]
  }

  /**
   * The edges the records make when interpreted from `s`, in order: one per
   * edge record, tagged with the group count and the indices in force when
   * the record is read; nothing from the first unknown record on.
   */
  ghost function MadeBy(records: seq<ShapeRecord>, s: BuildState): seq<Made>
    decreases |records|
  {
    if |records| == 0 then []
    else match Step(s, records[0])
      case Failure(_) => []
      case Success(s1) =>
        MadeFrom(s, records[0]) + MadeBy(records[1..], s1)
  }

  /** The edge one record makes in state `s`, if it is an edge record. */
  function MadeFrom(s: BuildState, rec: ShapeRecord): seq<Made>
  {
    if rec.StraightEdgeRecord? || rec.CurvedEdgeRecord?
    then [Made(s.numGroups, s.fillStyleIdx0, s.fillStyleIdx1, s.lineStyleIdx, AddedEdge(s, rec))]
    else []
  }

  /** Every closed group holds, key by key, exactly the shares of the edges made in it. */
  ghost predicate Grouped(s: BuildState, made: seq<Made>)
  {
    && |s.fillEdgeMaps| == s.numGroups && |s.lineEdgeMaps| == s.numGroups
    && (forall g, k: nat :: 0 <= g < s.numGroups ==> Content(s.fillEdgeMaps[g], k) == FillFiled(made, g, k))
    && (forall g, k: nat :: 0 <= g < s.numGroups ==> Content(s.lineEdgeMaps[g], k) == LineFiled(made, g, k))
  }

  /** The pending run as made edges of the open group. */
  function PendingOf(s: BuildState): seq<Made>
  {
    Pending(s.subPath, s.numGroups, s.fillStyleIdx0, s.fillStyleIdx1, s.lineStyleIdx)
  }

  /** The open group's buckets plus the pending run hold exactly the shares of the edges made in it. */
  ghost predicate OpenFiled(s: BuildState, done: seq<Made>)
  {
    && (forall k: nat :: Content(s.current.fill, k) + FillFiled(PendingOf(s), s.numGroups, k) == FillFiled(done, s.numGroups, k))
    && (forall k: nat :: Content(s.current.line, k) + LineFiled(PendingOf(s), s.numGroups, k) == LineFiled(done, s.numGroups, k))
  }

  /** No edge was made beyond group `n`. */
  ghost predicate MadeUpTo(done: seq<Made>, n: nat)
  {
    forall j :: 0 <= j < |done| ==> done[j].group <= n
  }

  /**
   * The invariant of the record loop before any end record: closed groups
   * are filed, the open group is filed up to the pending run, and no edge is
   * filed beyond the open group.
   */
  ghost predicate Files(s: BuildState, done: seq<Made>)
  {
    && Valid(s) && s.shared == 0 && Unflipped(s.subPath)
    && MadeUpTo(done, s.numGroups)
    && Grouped(s, done)
    && OpenFiled(s, done)
  }

  /** The shares of one made edge. */
  lemma FiledOne(x: Made, g: nat, k: nat)
    ensures FillFiled([x], g, k) == (if x.group == g then FillShare(x, k) else multiset{})
    ensures LineFiled([x], g, k) == (if x.group == g then LineShare(x, k) else multiset{})
  {
    assert [x][1..] == [];
  }

  /** An edge made in the open group leaves the closed groups filed. */
  lemma EdgeKeepsGrouped(s: BuildState, r: BuildState, x: Made, done: seq<Made>)
    requires Grouped(s, done) && x.group == s.numGroups
    requires r.numGroups == s.numGroups && r.fillEdgeMaps == s.fillEdgeMaps && r.lineEdgeMaps == s.lineEdgeMaps
    ensures Grouped(r, done + [x])
  {
    forall g: nat, k: nat | 0 <= g < s.numGroups
      ensures Content(r.fillEdgeMaps[g], k) == FillFiled(done + [x], g, k)
      ensures Content(r.lineEdgeMaps[g], k) == LineFiled(done + [x], g, k)
    {
      FillFiledAppend(done, [x], g, k);
      LineFiledAppend(done, [x], g, k);
      FiledOne(x, g, k);
    }
  }

  /** An edge appended to the run is made in the open group. */
  lemma EdgeKeepsOpenFiled(s: BuildState, r: BuildState, x: Made, done: seq<Made>)
    requires OpenFiled(s, done)
    requires r.numGroups == s.numGroups && r.current == s.current
    requires PendingOf(r) == PendingOf(s) + [x]
    ensures OpenFiled(r, done + [x])
  {
    var n := s.numGroups;
    forall k: nat
      ensures Content(r.current.fill, k) + FillFiled(PendingOf(r), n, k) == FillFiled(done + [x], n, k)
    {
      FillFiledAppend(PendingOf(s), [x], n, k);
      FillFiledAppend(done, [x], n, k);
      AddBoth(Content(s.current.fill, k), FillFiled(PendingOf(s), n, k), FillFiled([x], n, k), FillFiled(done, n, k));
    }
    forall k: nat
      ensures Content(r.current.line, k) + LineFiled(PendingOf(r), n, k) == LineFiled(done + [x], n, k)
    {
      LineFiledAppend(PendingOf(s), [x], n, k);
      LineFiledAppend(done, [x], n, k);
      AddBoth(Content(s.current.line, k), LineFiled(PendingOf(s), n, k), LineFiled([x], n, k), LineFiled(done, n, k));
    }
  }

  lemma AddBoth<T>(c: multiset<T>, p: multiset<T>, x: multiset<T>, d: multiset<T>)
    requires c + p == d
    ensures c + (p + x) == d + x
  {
  }

  /** An edge record extends the pending run and the made edges alike. */
  lemma EdgeFiles(s: BuildState, r: BuildState, e: Edge, done: seq<Made>)
    requires Files(s, done) && Valid(r)
    requires r == s.(pos := r.pos, subPath := s.subPath + [e])
    requires !e.isReverseEdge
    ensures Files(r, done + [Made(s.numGroups, s.fillStyleIdx0, s.fillStyleIdx1, s.lineStyleIdx, e)])
  {
    var x := Made(s.numGroups, s.fillStyleIdx0, s.fillStyleIdx1, s.lineStyleIdx, e);
    assert PendingOf(r) == PendingOf(s) + [x];
    EdgeKeepsGrouped(s, r, x, done);
    EdgeKeepsOpenFiled(s, r, x, done);
    assert forall j :: 0 <= j < |r.subPath| ==> r.subPath[j] == if j < |s.subPath| then s.subPath[j] else e;
  }

  lemma AddEmpty<T>(c: multiset<T>)
    ensures c + multiset{} == c
  {
  }

  /** A state that differs only in fields the invariant does not read keeps it. */
  lemma FilesFrame(s: BuildState, r: BuildState, done: seq<Made>)
    requires Files(s, done) && Valid(r) && r.shared == 0
    requires r.subPath == s.subPath && r.current == s.current && r.numGroups == s.numGroups
    requires r.fillEdgeMaps == s.fillEdgeMaps && r.lineEdgeMaps == s.lineEdgeMaps
    requires PendingOf(r) == PendingOf(s)
    ensures Files(r, done)
  {
  }

  /** Dispatching the run leaves the closed groups as they were. */
  lemma FlushKeepsGrouped(s: BuildState, done: seq<Made>)
    requires Valid(s) && s.shared == 0 && Grouped(s, done)
    ensures Grouped(Flush(s).(subPath := []), done)
  {
    var r := Flush(s);
    assert forall g :: 0 <= g < s.numGroups ==> r.fillEdgeMaps[g] == s.fillEdgeMaps[g] && r.lineEdgeMaps[g] == s.lineEdgeMaps[g];
  }

  /** Dispatching the run moves its shares from the pending run into the open group's buckets. */
  lemma FlushKeepsOpenFiled(s: BuildState, done: seq<Made>)
    requires Valid(s) && Unflipped(s.subPath) && OpenFiled(s, done)
    ensures OpenFiled(Flush(s).(subPath := []), done)
  {
    var r := Flush(s).(subPath := []);
    var n := s.numGroups;
    assert PendingOf(r) == [];
    forall k: nat
      ensures Content(r.current.fill, k) + FillFiled(PendingOf(r), n, k) == FillFiled(done, n, k)
      ensures Content(r.current.line, k) + LineFiled(PendingOf(r), n, k) == LineFiled(done, n, k)
    {
      DispatchFillContent(s.current.fill, s.subPath, n, s.lineStyleIdx, s.fillStyleIdx0, s.fillStyleIdx1, k);
      DispatchLineContent(s.current.line, s.subPath, n, s.lineStyleIdx, s.fillStyleIdx0, s.fillStyleIdx1, k);
      AddEmpty(Content(r.current.fill, k));
      AddEmpty(Content(r.current.line, k));
    }
  }

  /** A style change naming an index dispatches the run into the open group. */
  lemma FlushFiles(s: BuildState, done: seq<Made>)
    requires Files(s, done)
    ensures Files(Flush(s).(subPath := []), done)
  {
    FlushKeepsGrouped(s, done);
    FlushKeepsOpenFiled(s, done);
  }

  /** A group reset files the open group as the next closed group. */
  lemma ResetKeepsGrouped(s: BuildState, r: BuildState, done: seq<Made>)
    requires Files(s, done) && s.subPath == []
    requires r.numGroups == s.numGroups + 1
    requires |r.fillEdgeMaps| == s.numGroups + 1 && r.fillEdgeMaps[s.numGroups] == CleanEdgeMap(s.current.fill)
    requires |r.lineEdgeMaps| == s.numGroups + 1 && r.lineEdgeMaps[s.numGroups] == CleanEdgeMap(s.current.line)
    requires forall i :: 0 <= i < s.numGroups ==> r.fillEdgeMaps[i] == s.fillEdgeMaps[i] && r.lineEdgeMaps[i] == s.lineEdgeMaps[i]
    ensures Grouped(r, done)
  {
    var n := s.numGroups;
    assert PendingOf(s) == [];
    forall g: nat, k: nat | 0 <= g < n + 1
      ensures Content(r.fillEdgeMaps[g], k) == FillFiled(done, g, k)
      ensures Content(r.lineEdgeMaps[g], k) == LineFiled(done, g, k)
    {
      if g == n {
        CleanKeepsContent(s.current.fill, k);
        CleanKeepsContent(s.current.line, k);
        AddEmpty(Content(s.current.fill, k));
        AddEmpty(Content(s.current.line, k));
      }
    }
  }

  /** After a group reset nothing has been made in the new open group. */
  lemma ResetKeepsOpenFiled(s: BuildState, r: BuildState, done: seq<Made>)
    requires MadeUpTo(done, s.numGroups)
    requires r.current == Buckets(map[], map[]) && r.subPath == [] && r.numGroups == s.numGroups + 1
    ensures OpenFiled(r, done)
  {
    assert PendingOf(r) == [];
    forall k: nat
      ensures FillFiled(done, r.numGroups, k) == multiset{} && LineFiled(done, r.numGroups, k) == multiset{}
    {
      FiledElsewhere(done, r.numGroups, k);
    }
  }

  /** A group reset keeps the invariant. */
  lemma ResetFiles(s: BuildState, done: seq<Made>)
    requires Files(s, done) && s.subPath == []
    ensures Files(ResetGroup(s), done)
  {
    var r := ResetGroup(s);
    ResetKeepsGrouped(s, r, done);
    ResetKeepsOpenFiled(s, r, done);
  }

  /** A style change keeps the invariant: it may dispatch the run, declare styles, reset the group, resolve indices and move. */
  lemma StyleChangeFiles(s: BuildState, rec: ShapeRecord, done: seq<Made>)
    requires Files(s, done) && rec.StyleChangeRecord?
    ensures Files(ApplyStyleChange(s, rec), done)
  {
    var s1 := EndRun(s, rec);
    if SetsAnyStyle(rec) {
      FlushFiles(s, done);
    }
    var s2 := DeclareStyles(s1, rec.newStyles);
    FilesFrame(s1, s2, done);
    var s3 := if IsGroupReset(rec) then ResetGroup(s2) else ResolveIndices(s2, rec);
    if IsGroupReset(rec) {
      ResetFiles(s2, done);
    } else {
      assert PendingOf(s3) == PendingOf(s2);
      FilesFrame(s2, s3, done);
    }
    var s4 := if rec.moveTo.Some? then s3.(pos := rec.moveTo.value) else s3;
    FilesFrame(s3, s4, done);
  }

  /** Equal keys whose lists agree up to reversal have equal contents. */
  lemma SameContent(a: EdgeMap, b: EdgeMap, k: nat)
    requires a.Keys == b.Keys
    requires forall j :: j in b ==> SameEdgesUpToReversal(a[j], b[j])
    ensures Content(a, k) == Content(b, k)
  {
    if k in b {
      assert SameEdgesUpToReversal(a[k], b[k]);
    }
  }

  /** The end record files the open group, run included, as the last closed group. */
  lemma EndGrouped(s: BuildState, done: seq<Made>)
    requires Files(s, done)
    ensures Grouped(EndShape(s), done)
  {
    var r := EndShape(s);
    var flushed := ProcessSubPath(s.current, s.subPath, s.lineStyleIdx, s.fillStyleIdx0, s.fillStyleIdx1);
    EndKeepsGrouped(s, r, flushed, done);
  }

  lemma EndKeepsGrouped(s: BuildState, r: BuildState, flushed: Buckets, done: seq<Made>)
    requires Files(s, done)
    requires flushed.fill == DispatchFills(s.current.fill, s.subPath, s.fillStyleIdx0, s.fillStyleIdx1)
    requires flushed.line == DispatchLine(s.current.line, s.subPath, s.lineStyleIdx)
    requires r.numGroups == s.numGroups + 1
    requires |r.fillEdgeMaps| == s.numGroups + 1 && r.fillEdgeMaps[s.numGroups] == r.current.fill
    requires |r.lineEdgeMaps| == s.numGroups + 1 && r.lineEdgeMaps[s.numGroups] == r.current.line
    requires forall i :: 0 <= i < s.numGroups ==> r.fillEdgeMaps[i] == s.fillEdgeMaps[i]
    requires forall i :: 0 <= i < s.numGroups ==> r.lineEdgeMaps[i] == s.lineEdgeMaps[i]
    requires r.current.fill.Keys == flushed.fill.Keys && r.current.line.Keys == flushed.line.Keys
    requires forall k :: k in flushed.fill ==> SameEdgesUpToReversal(r.current.fill[k], flushed.fill[k])
    requires forall k :: k in flushed.line ==> SameEdgesUpToReversal(r.current.line[k], flushed.line[k])
    ensures Grouped(r, done)
  {
    var n := s.numGroups;
    forall g: nat, k: nat | 0 <= g < n + 1
      ensures Content(r.fillEdgeMaps[g], k) == FillFiled(done, g, k)
      ensures Content(r.lineEdgeMaps[g], k) == LineFiled(done, g, k)
    {
      if g == n {
        SameContent(r.current.fill, flushed.fill, k);
        SameContent(r.current.line, flushed.line, k);
        DispatchFillContent(s.current.fill, s.subPath, n, s.lineStyleIdx, s.fillStyleIdx0, s.fillStyleIdx1, k);
        DispatchLineContent(s.current.line, s.subPath, n, s.lineStyleIdx, s.fillStyleIdx0, s.fillStyleIdx1, k);
      }
    }
  }

  /** Any record other than an end record or an unknown one keeps the invariant, extended by the edge it makes. */
  lemma StepFiles(s: BuildState, rec: ShapeRecord, done: seq<Made>)
    requires Files(s, done) && !rec.EndRecord? && !rec.OtherRecord?
    ensures Step(s, rec).Success? && Files(Step(s, rec).value, done + MadeFrom(s, rec))
  {
    var r := Step(s, rec).value;
    match rec
    case StyleChangeRecord(_, _, _, _, _) =>
      StyleChangeFiles(s, rec, done);
      assert done + [] == done;
    case StraightEdgeRecord(dx, dy) =>
      assert r.subPath == r.subPath[..|s.subPath|] + [r.subPath[|s.subPath|]];
      EdgeFiles(s, r, AddedEdge(s, rec), done);
    case CurvedEdgeRecord(cdx, cdy, adx, ady) =>
      assert r.subPath == r.subPath[..|s.subPath|] + [r.subPath[|s.subPath|]];
      EdgeFiles(s, r, AddedEdge(s, rec), done);
  }

  /** One record that is neither an end record nor unknown: the invariant moves to the next state, and so do the results. */
  lemma NextFiles(records: seq<ShapeRecord>, s: BuildState, done: seq<Made>) returns (s1: BuildState, d1: seq<Made>)
    requires |records| > 0 && !records[0].EndRecord?
    requires Interpret(records, s).Success?
    ensures Interpret(records, s) == Interpret(records[1..], s1)
    ensures done + MadeBy(records, s) == d1 + MadeBy(records[1..], s1)
    ensures Files(s, done) ==> Files(s1, d1)
  {
    var rec := records[0];
    s1 := Step(s, rec).value;
    d1 := done + MadeFrom(s, rec);
    assert MadeBy(records, s) == MadeFrom(s, rec) + MadeBy(records[1..], s1);
    assert done + (MadeFrom(s, rec) + MadeBy(records[1..], s1)) == d1 + MadeBy(records[1..], s1);
    if Files(s, done) {
      StepFiles(s, rec, done);
    }
  }

  /** A final end record files the open group, run included, as the last closed group. */
  lemma EndThrough(records: seq<ShapeRecord>, s: BuildState, done: seq<Made>)
    requires |records| == 1 && records[0].EndRecord?
    ensures Interpret(records, s).Success?
    ensures Files(s, done) ==> Grouped(Interpret(records, s).value, done + MadeBy(records, s))
  {
    assert Interpret(records, s) == Success(EndShape(s));
    assert MadeBy(records, s) == [];
    assert done + [] == done;
    if Files(s, done) {
      EndGrouped(s, done);
    }
  }

  /** From a state keeping the invariant, the groups built by the rest of the stream hold what its edges file. */
  lemma {:induction false} FilesThrough(records: seq<ShapeRecord>, s: BuildState, done: seq<Made>)
    requires forall i :: 0 <= i < |records| - 1 ==> !records[i].EndRecord?
    requires Interpret(records, s).Success?
    ensures Files(s, done) ==> Grouped(Interpret(records, s).value, done + MadeBy(records, s))
    decreases |records|
  {
    if |records| == 0 {
      assert done + [] == done;
    } else if records[0].EndRecord? {
      EndThrough(records, s, done);
    } else {
      var s1, d1 := NextFiles(records, s, done);
      FilesThrough(records[1..], s1, d1);
    }
  }

  /**
   * Where CreateEdgeMaps files the edges, for a stream whose only end record
   * (if any) is its last: group g's fill key k holds, as canonical edges,
   * exactly the edges made in group g with fill1 == k and, restyled with k,
   * those made with fill0 == k; its line key k exactly those made with line
   * index k. Edges of a run left pending at the end are filed nowhere.
   */
  lemma InterpretFiles(records: seq<ShapeRecord>, fillStyles: seq<FillStyleRGB>, lineStyles: seq<LineStyleRGB>)
    requires forall i :: 0 <= i < |records| - 1 ==> !records[i].EndRecord?
    requires Interpret(records, Initial(fillStyles, lineStyles)).Success?
    ensures Grouped(Interpret(records, Initial(fillStyles, lineStyles)).value, MadeBy(records, Initial(fillStyles, lineStyles)))
  {
    var s := Initial(fillStyles, lineStyles);
    InitialFiles(fillStyles, lineStyles);
    FilesThrough(records, s, []);
    assert [] + MadeBy(records, s) == MadeBy(records, s);
  }

  /** Nothing is made or filed before the first record. */
  lemma InitialFiles(fillStyles: seq<FillStyleRGB>, lineStyles: seq<LineStyleRGB>)
    ensures Files(Initial(fillStyles, lineStyles), [])
  {
    assert PendingOf(Initial(fillStyles, lineStyles)) == [];
  }

  predicate IsEdgeRecord(rec: ShapeRecord)
  {
    rec.StraightEdgeRecord? || rec.CurvedEdgeRecord?
  }

  /** The number of edge records in a stream. */
  function EdgeRecords(records: seq<ShapeRecord>): nat
  {
    if |records| == 0 then 0 else (if IsEdgeRecord(records[0]) then 1 else 0) + EdgeRecords(records[1..])
  }

  /** `made` has one entry per edge record, the one of record i tagged with `n` plus the group-closing records before i. */
  ghost predicate InGroups(records: seq<ShapeRecord>, made: seq<Made>, n: nat)
  {
    && |made| == EdgeRecords(records)
    && forall i :: 0 <= i < |records| && IsEdgeRecord(records[i]) ==>
         EdgeRecords(records[..i]) < |made| && made[EdgeRecords(records[..i])].group == n + CountGroupClosers(records[..i])
  }

  /**
   * In a stream without unknown records the made edges are one per edge
   * record, in stream order, and the edge of record i is tagged with the
   * group count plus the number of group-closing records before i.
   */
  lemma {:induction false} MadeGroups(records: seq<ShapeRecord>, s: BuildState)
    requires forall i :: 0 <= i < |records| ==> !records[i].OtherRecord?
    ensures InGroups(records, MadeBy(records, s), s.numGroups)
    decreases |records|
  {
    if |records| > 0 {
      var s1 := MadeStep(records, s);
      MadeGroups(records[1..], s1);
      InGroupsCons(records, MadeFrom(s, records[0]), MadeBy(records[1..], s1), s.numGroups, s1.numGroups);
    }
  }

  /** Tagging extends from the rest of a stream to the whole stream. */
  lemma InGroupsCons(records: seq<ShapeRecord>, head: seq<Made>, tail: seq<Made>, n: nat, n1: nat)
    requires |records| > 0
    requires |head| == (if IsEdgeRecord(records[0]) then 1 else 0)
    requires IsEdgeRecord(records[0]) ==> head[0].group == n
    requires n1 == n + (if ClosesGroup(records[0]) then 1 else 0)
    requires InGroups(records[1..], tail, n1)
    ensures InGroups(records, head + tail, n)
  {
    var rest := records[1..];
    var made := head + tail;
    forall i | 0 <= i < |records| && IsEdgeRecord(records[i])
      ensures EdgeRecords(records[..i]) < |made|
      ensures made[EdgeRecords(records[..i])].group == n + CountGroupClosers(records[..i])
    {
      if i == 0 {
        assert records[..0] == [];
      } else {
        PrefixCounts(records, i);
        assert rest[i - 1] == records[i];
      }
    }
  }

  /** Counting over a nonempty prefix: the first record, then the rest's prefix. */
  lemma PrefixCounts(records: seq<ShapeRecord>, i: nat)
    requires 0 < i <= |records|
    ensures EdgeRecords(records[..i]) == (if IsEdgeRecord(records[0]) then 1 else 0) + EdgeRecords(records[1..][..i - 1])
    ensures CountGroupClosers(records[..i]) == (if ClosesGroup(records[0]) then 1 else 0) + CountGroupClosers(records[1..][..i - 1])
  {
    assert records[..i][0] == records[0];
    assert records[..i][1..] == records[1..][..i - 1];
  }

  /** One record of MadeBy: the edge it makes, if any, tagged with the current group count, then the rest from the next state. */
  lemma MadeStep(records: seq<ShapeRecord>, s: BuildState) returns (s1: BuildState)
    requires |records| > 0 && !records[0].OtherRecord?
    ensures s1.numGroups == s.numGroups + (if ClosesGroup(records[0]) then 1 else 0)
    ensures |MadeFrom(s, records[0])| == (if IsEdgeRecord(records[0]) then 1 else 0)
    ensures IsEdgeRecord(records[0]) ==> MadeFrom(s, records[0])[0].group == s.numGroups
    ensures MadeBy(records, s) == MadeFrom(s, records[0]) + MadeBy(records[1..], s1)
  {
    s1 := Step(s, records[0]).value;
  }

  /**
   * Where CreateEdgeMaps files the edges of a fresh shape whose only end
   * record (if any) is its last: the made edges are one per edge record,
   * the one of record i made in group CountGroupClosers(records[..i]); group
   * g's fill key k holds, as canonical edges, exactly the edges made in g
   * under fill1 == k and, restyled with k, those made under fill0 == k; its
   * line key k exactly those made under line index k.
   */
  lemma CreateEdgeMapsFiles(sh: SwfShape)
    requires !sh.edgeMapsCreated
    requires forall i :: 0 <= i < |sh.records| - 1 ==> !sh.records[i].EndRecord?
    requires CreateEdgeMaps(sh).Success?
    ensures var r := CreateEdgeMaps(sh).value;
            var made := MadeBy(sh.records, Initial(sh.fillStyles, sh.lineStyles));
            && InGroups(sh.records, made, 0)
            && (forall g, k: nat :: 0 <= g < r.numGroups ==> Content(r.fillEdgeMaps[g], k) == FillFiled(made, g, k))
            && (forall g, k: nat :: 0 <= g < r.numGroups ==> Content(r.lineEdgeMaps[g], k) == LineFiled(made, g, k))
  {
    var s := Initial(sh.fillStyles, sh.lineStyles);
    InterpretFiles(sh.records, sh.fillStyles, sh.lineStyles);
    MadeGroups(sh.records, s);
  }
}
