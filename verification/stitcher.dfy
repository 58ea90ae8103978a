/**
 * The contour stitcher of SwfShapeRGB.CleanEdgeMap: reorders each bucket's
 * edges into chains whose consecutive edges meet end to start, flipping in
 * place an edge that points the wrong way and starting a new chain only when
 * nothing left in the bucket touches the end of the current one.
 */
module Stitcher {
  import opened Wrappers
  import opened Edges
  import opened EdgeMaps

  /** The endpoint a coordinate map is keyed by: From (forward map) or To (reverse map). */
  datatype Endpoint = Start | End

  function EndpointOf(e: Edge, end: Endpoint): Point
  {
    if end == Start then e.from else e.to
  }

  /**
   * An edge object in the stitcher's lists. `id` stands for the object's
   * reference: List.IndexOf and List.Remove compare edges by reference, and
   * ReverseWithStyle creates a new object.
   */
  datatype Entry = Entry(id: nat, edge: Edge)

  /** The edges of a list of entries, position by position. */
  function EdgesOf(s: seq<Entry>): (r: seq<Edge>)
    ensures |r| == |s|
    ensures forall i :: 0 <= i < |s| ==> r[i] == s[i].edge
  {
    seq(|s|, i requires 0 <= i < |s| => s[i].edge)
  }

  /** No object occurs twice in the list. */
  ghost predicate DistinctIds(s: seq<Entry>)
  {
    forall i, j :: 0 <= i < j < |s| ==> s[i].id != s[j].id
  }

  /** Every identity in the list is below `next`, so `next` names a new object. */
  ghost predicate IdsBelow(s: seq<Entry>, next: nat)
  {
    forall i :: 0 <= i < |s| ==> s[i].id < next
  }

  /** The entries of `pool` whose `end` endpoint is `p`, in pool order. */
  function Filter(pool: seq<Entry>, end: Endpoint, p: Point): seq<Entry>
  {
    if |pool| == 0 then []
    else (if EndpointOf(pool[0].edge, end) == p then [pool[0]] else []) + Filter(pool[1..], end, p)
  }

  /** Endpoint-to-edges dictionary: the forward map (keyed by From) or the reverse map (keyed by To). */
  type CoordMap = map<Point, seq<Entry>>

  /** The list a coordinate map holds under `p`, absent keys reading as empty. */
  function Lookup(m: CoordMap, p: Point): seq<Entry>
  {
    if p in m then m[p] else []
  }

  /** A coordinate map agrees with a pool when it holds, under every point, the pool's entries with that endpoint, in pool order. */
  ghost predicate Agrees(m: CoordMap, pool: seq<Entry>, end: Endpoint)
  {
    forall p :: Lookup(m, p) == Filter(pool, end, p)
  }

  /**
   * CreateCoordMap / CreateReverseCoordMap: append every edge of the path to
   * the list under its endpoint. The map built agrees with the path.
   */
  function CreateCoordMap(path: seq<Entry>, end: Endpoint): (r: CoordMap)
    ensures Agrees(r, path, end)
  {
    if |path| == 0 then map[]
    else
      var pre := path[..|path| - 1];
      var e := path[|path| - 1];
      var m := CreateCoordMap(pre, end);
      var key := EndpointOf(e.edge, end);
      var r := m[key := Lookup(m, key) + [e]];
      assert path == pre + [e];
      forall p
        ensures Lookup(r, p) == Filter(path, end, p)
      {
        FilterSnoc(pre, e, end, p);
      }
      r
  }

  /** FindNextEdgeInCoordMap / FindNextEdgeInReverseCoordMap: the head of the list under `p`, if any. */
  function FindNextEdge(m: CoordMap, p: Point): (r: Option<Entry>)
    ensures r.None? <==> |Lookup(m, p)| == 0
    ensures r.Some? ==> r.value == Lookup(m, p)[0]
  {
    if p in m && |m[p]| > 0 then Some(m[p][0]) else None
  }

  /** List.IndexOf on edge objects: the position of the entry with that identity, or -1. */
  function IndexOf(s: seq<Entry>, id: nat): (r: int)
    ensures -1 <= r < |s|
    ensures r >= 0 ==> s[r].id == id && forall k :: 0 <= k < r ==> s[k].id != id
    ensures r == -1 ==> forall k :: 0 <= k < |s| ==> s[k].id != id
  {
    if |s| == 0 then -1
    else if s[0].id == id then 0
    else
      var r := IndexOf(s[1..], id);
      if r == -1 then -1 else r + 1
  }

  /** List.Remove on edge objects: drop the first entry with that identity, if any. */
  function RemoveId(s: seq<Entry>, id: nat): seq<Entry>
  {
    if |s| == 0 then []
    else if s[0].id == id then s[1..]
    else [s[0]] + RemoveId(s[1..], id)
  }

  /**
   * RemoveEdgeFromCoordMap / RemoveEdgeFromReverseCoordMap: drop the edge
   * from the list under its endpoint, removing the key when it was the
   * list's only entry.
   */
  function RemoveEdgeFrom(m: CoordMap, x: Entry, end: Endpoint): CoordMap
  {
    var key := EndpointOf(x.edge, end);
    if key !in m then m
    else if |m[key]| == 1 then m - {key}
    else m[key := RemoveId(m[key], x.id)]
  }

  /**
   * UpdateEdgeInCoordMap / UpdateEdgeInReverseCoordMap: drop the old edge
   * from the list under its endpoint (the key must exist) and append the new
   * one to the list under its own endpoint.
   */
  function UpdateEdgeIn(m: CoordMap, x: Entry, y: Entry, end: Endpoint): CoordMap
    requires EndpointOf(x.edge, end) in m
  {
    var key1 := EndpointOf(x.edge, end);
    var m1 := m[key1 := RemoveId(m[key1], x.id)];
    var key2 := EndpointOf(y.edge, end);
    m1[key2 := Lookup(m1, key2) + [y]]
  }

  /** Position of the first pool edge whose `end` endpoint is `p`. */
  function FirstAt(pool: seq<Edge>, end: Endpoint, p: Point): (r: Option<nat>)
    ensures r.Some? ==> r.value < |pool| && EndpointOf(pool[r.value], end) == p
    ensures r.Some? ==> forall j :: 0 <= j < r.value ==> EndpointOf(pool[j], end) != p
    ensures r.None? ==> forall j :: 0 <= j < |pool| ==> EndpointOf(pool[j], end) != p
  {
    if |pool| == 0 then None
    else if EndpointOf(pool[0], end) == p then Some(0)
    else match FirstAt(pool[1..], end, p)
      case None => None
      case Some(i) => Some(i + 1)
  }

  lemma FilterSnoc(pool: seq<Entry>, e: Entry, end: Endpoint, p: Point)
    ensures Filter(pool + [e], end, p) == Filter(pool, end, p) + (if EndpointOf(e.edge, end) == p then [e] else [])
  {
    if |pool| == 0 {
      assert pool + [e] == [e];
    } else {
      assert (pool + [e])[1..] == pool[1..] + [e];
      FilterSnoc(pool[1..], e, end, p);
    }
  }

  lemma FilterAppend(a: seq<Entry>, b: seq<Entry>, end: Endpoint, p: Point)
    ensures Filter(a + b, end, p) == Filter(a, end, p) + Filter(b, end, p)
  {
    if |a| == 0 {
      assert a + b == b;
    } else {
      assert (a + b)[1..] == a[1..] + b;
      FilterAppend(a[1..], b, end, p);
    }
  }

  /** Every filtered entry is an entry of the pool with that endpoint. */
  lemma FilterMember(pool: seq<Entry>, end: Endpoint, p: Point, x: Entry)
    requires x in Filter(pool, end, p)
    ensures x in pool && EndpointOf(x.edge, end) == p
  {
    if |pool| > 0 && x != pool[0] {
      FilterMember(pool[1..], end, p, x);
    }
  }

  lemma FilterHead(pool: seq<Entry>, end: Endpoint, p: Point)
    ensures FirstAt(EdgesOf(pool), end, p).None? <==> |Filter(pool, end, p)| == 0
    ensures FirstAt(EdgesOf(pool), end, p).Some? ==> Filter(pool, end, p)[0] == pool[FirstAt(EdgesOf(pool), end, p).value]
  {
    if |pool| > 0 {
      assert EdgesOf(pool)[1..] == EdgesOf(pool[1..]);
      FilterHead(pool[1..], end, p);
    }
  }

  /** Removing an entry whose identity does not occur before it drops exactly that entry. */
  lemma RemoveIdAt(a: seq<Entry>, x: Entry, b: seq<Entry>)
    requires forall k :: 0 <= k < |a| ==> a[k].id != x.id
    ensures RemoveId(a + [x] + b, x.id) == a + b
  {
    if |a| == 0 {
      assert a + [x] + b == [x] + b;
    } else {
      assert (a + [x] + b)[1..] == a[1..] + [x] + b;
      RemoveIdAt(a[1..], x, b);
    }
  }

  /**
   * A coordinate-map lookup in a map that agrees with the pool yields the
   * first pool edge with that endpoint, and nothing exactly when no pool
   * edge has it.
   */
  lemma FindNextIsFirstMatch(m: CoordMap, pool: seq<Entry>, end: Endpoint, p: Point)
    requires Agrees(m, pool, end)
    ensures FindNextEdge(m, p)
         == match FirstAt(EdgesOf(pool), end, p)
            case None => None
            case Some(i) => Some(pool[i])
  {
    FilterHead(pool, end, p);
    assert Lookup(m, p) == Filter(pool, end, p);
  }

  /** Without repeated objects, IndexOf finds an entry at its own position. */
  lemma IndexOfOwn(pool: seq<Entry>, k: nat)
    requires DistinctIds(pool) && k < |pool|
    ensures IndexOf(pool, pool[k].id) == k
  {
  }

  /** Filtering keeps out an identity the list does not hold. */
  lemma FilterKeepsIdOut(a: seq<Entry>, end: Endpoint, p: Point, id: nat)
    requires forall k :: 0 <= k < |a| ==> a[k].id != id
    ensures forall k :: 0 <= k < |Filter(a, end, p)| ==> Filter(a, end, p)[k].id != id
  {
    if |a| > 0 {
      FilterKeepsIdOut(a[1..], end, p, id);
    }
  }

  /** The pool around position i, filtered: what precedes the entry, the entry when it matches, what follows. */
  lemma FilterAround(pool: seq<Entry>, end: Endpoint, p: Point, i: nat)
    requires i < |pool|
    ensures Filter(pool, end, p)
         == Filter(pool[..i], end, p) + (if EndpointOf(pool[i].edge, end) == p then [pool[i]] else []) + Filter(pool[i + 1..], end, p)
    ensures Filter(pool[..i] + pool[i + 1..], end, p) == Filter(pool[..i], end, p) + Filter(pool[i + 1..], end, p)
  {
    assert pool == pool[..i] + [pool[i]] + pool[i + 1..];
    FilterAppend(pool[..i] + [pool[i]], pool[i + 1..], end, p);
    FilterAppend(pool[..i], [pool[i]], end, p);
    FilterAppend(pool[..i], pool[i + 1..], end, p);
  }

  /** TakeKeepsAgreement at one point. */
  lemma TakeAt(pool: seq<Entry>, m: CoordMap, end: Endpoint, i: nat, p: Point)
    requires Agrees(m, pool, end) && DistinctIds(pool) && i < |pool|
    ensures Lookup(RemoveEdgeFrom(m, pool[i], end), p) == Filter(pool[..i] + pool[i + 1..], end, p)
  {
    var x := pool[i];
    FilterAround(pool, end, p, i);
    if p == EndpointOf(x.edge, end) {
      var fa, fb := Filter(pool[..i], end, p), Filter(pool[i + 1..], end, p);
      assert Lookup(m, p) == fa + [x] + fb;
      assert forall k :: 0 <= k < i ==> pool[..i][k].id != x.id;
      FilterKeepsIdOut(pool[..i], end, p, x.id);
      if |m[p]| != 1 {
        RemoveIdAt(fa, x, fb);
      }
    } else {
      assert Lookup(RemoveEdgeFrom(m, x, end), p) == Lookup(m, p);
    }
  }

  /**
   * Taking the entry at position i out of the pool and out of a map that
   * agrees with it (RemoveEdgeFrom) leaves a map that agrees with the rest
   * of the pool.
   */
  lemma TakeKeepsAgreement(pool: seq<Entry>, m: CoordMap, end: Endpoint, i: nat)
    requires Agrees(m, pool, end) && DistinctIds(pool) && i < |pool|
    ensures Agrees(RemoveEdgeFrom(m, pool[i], end), pool[..i] + pool[i + 1..], end)
  {
    forall p
      ensures Lookup(RemoveEdgeFrom(m, pool[i], end), p) == Filter(pool[..i] + pool[i + 1..], end, p)
    {
      TakeAt(pool, m, end, i, p);
    }
  }

  /** The first half of UpdateEdgeIn, which drops the old entry from its list, agrees with the pool without it. */
  lemma DropOldAt(pool: seq<Entry>, m: CoordMap, end: Endpoint, j: nat, q: Point)
    requires Agrees(m, pool, end) && DistinctIds(pool) && j < |pool|
    requires EndpointOf(pool[j].edge, end) in m
    ensures var key1 := EndpointOf(pool[j].edge, end);
            Lookup(m[key1 := RemoveId(m[key1], pool[j].id)], q) == Filter(pool[..j] + pool[j + 1..], end, q)
  {
    var x := pool[j];
    var key1 := EndpointOf(x.edge, end);
    TakeAt(pool, m, end, j, q);
    if q == key1 && |m[key1]| == 1 {
      FilterAround(pool, end, key1, j);
      assert Lookup(m, key1) == Filter(pool, end, key1);
      assert m[key1] == [x];
    }
  }

  /** After the flip and the take, the list under the new edge's key agrees with the pool without the old entry. */
  lemma FlipTakeAtNewKey(pool: seq<Entry>, m: CoordMap, end: Endpoint, j: nat, y: Entry)
    requires Agrees(m, pool, end) && DistinctIds(pool) && j < |pool|
    requires forall k :: 0 <= k < |pool| ==> pool[k].id != y.id
    requires EndpointOf(pool[j].edge, end) != EndpointOf(y.edge, end)
    requires EndpointOf(pool[j].edge, end) in m
    ensures var key2 := EndpointOf(y.edge, end);
            Lookup(RemoveEdgeFrom(UpdateEdgeIn(m, pool[j], y, end), y, end), key2) == Filter(pool[..j] + pool[j + 1..], end, key2)
  {
    var x := pool[j];
    var key1, key2 := EndpointOf(x.edge, end), EndpointOf(y.edge, end);
    var m1 := m[key1 := RemoveId(m[key1], x.id)];
    var l := Lookup(m1, key2);
    var rest := pool[..j] + pool[j + 1..];
    DropOldAt(pool, m, end, j, key2);
    assert UpdateEdgeIn(m, x, y, end)[key2] == l + [y];
    if |l + [y]| != 1 {
      assert forall k :: 0 <= k < |rest| ==> rest[k].id != y.id by {
        assert forall k :: 0 <= k < |rest| ==> rest[k] == pool[if k < j then k else k + 1];
      }
      FilterKeepsIdOut(rest, end, key2, y.id);
      RemoveIdAt(l, y, []);
      assert l + [y] + [] == l + [y];
    }
  }

  /** FlipTakeKeepsAgreement at one point. */
  lemma FlipTakeAt(pool: seq<Entry>, m: CoordMap, end: Endpoint, j: nat, y: Entry, p: Point)
    requires Agrees(m, pool, end) && DistinctIds(pool) && j < |pool|
    requires forall k :: 0 <= k < |pool| ==> pool[k].id != y.id
    requires EndpointOf(pool[j].edge, end) != EndpointOf(y.edge, end)
    requires EndpointOf(pool[j].edge, end) in m
    ensures Lookup(RemoveEdgeFrom(UpdateEdgeIn(m, pool[j], y, end), y, end), p) == Filter(pool[..j] + pool[j + 1..], end, p)
  {
    var x := pool[j];
    var key1, key2 := EndpointOf(x.edge, end), EndpointOf(y.edge, end);
    if p == key2 {
      FlipTakeAtNewKey(pool, m, end, j, y);
    } else {
      var m1 := m[key1 := RemoveId(m[key1], x.id)];
      assert Lookup(RemoveEdgeFrom(UpdateEdgeIn(m, x, y, end), y, end), p) == Lookup(m1, p);
      DropOldAt(pool, m, end, j, p);
    }
  }

  /**
   * A flip followed by the take of the flipped entry: UpdateEdgeIn moves the
   * entry from its old key to the new edge's key, and RemoveEdgeFrom then
   * takes the new edge out again. When the two keys differ and the new
   * identity is fresh, the map ends up agreeing with the pool without the
   * old entry.
   */
  lemma FlipTakeKeepsAgreement(pool: seq<Entry>, m: CoordMap, end: Endpoint, j: nat, y: Entry)
    requires Agrees(m, pool, end) && DistinctIds(pool) && j < |pool|
    requires forall k :: 0 <= k < |pool| ==> pool[k].id != y.id
    requires EndpointOf(pool[j].edge, end) != EndpointOf(y.edge, end)
    ensures EndpointOf(pool[j].edge, end) in m
    ensures Agrees(RemoveEdgeFrom(UpdateEdgeIn(m, pool[j], y, end), y, end), pool[..j] + pool[j + 1..], end)
  {
    var key1 := EndpointOf(pool[j].edge, end);
    FilterAround(pool, end, key1, j);
    assert Lookup(m, key1) == Filter(pool, end, key1);
    forall p
      ensures Lookup(RemoveEdgeFrom(UpdateEdgeIn(m, pool[j], y, end), y, end), p) == Filter(pool[..j] + pool[j + 1..], end, p)
    {
      FlipTakeAt(pool, m, end, j, y, p);
    }
  }

  /** The canonical representatives of `s`, position by position. */
  ghost function CanonSeq(s: seq<Edge>): seq<Edge>
  {
    seq(|s|, i requires 0 <= i < |s| => s[i].Canonical())
  }

  /**
   * `a` holds the edges of `b`, each one either unchanged or flipped with its
   * own fill style, with nothing duplicated or lost.
   */
  ghost predicate SameEdgesUpToReversal(a: seq<Edge>, b: seq<Edge>)
  {
    multiset(CanonSeq(a)) == multiset(CanonSeq(b))
  }

  /** A chain break before position k is allowed only when no later edge touches the end of the chain. */
  ghost predicate BreakJustified(s: seq<Edge>, k: nat)
    requires 0 < k < |s|
  {
    s[k - 1].to != s[k].from ==> forall j :: k <= j < |s| ==> !s[j].Touches(s[k - 1].to)
  }

  /** Every break between consecutive edges of `s` is justified. */
  ghost predicate Chained(s: seq<Edge>)
  {
    forall k :: 0 < k < |s| ==> BreakJustified(s, k)
  }

  lemma CanonSeqAppend(a: seq<Edge>, b: seq<Edge>)
    ensures CanonSeq(a + b) == CanonSeq(a) + CanonSeq(b)
  {
  }

  lemma TakeKeepsEdges(pool: seq<Edge>, i: nat, tail: seq<Edge>)
    requires i < |pool|
    requires SameEdgesUpToReversal(tail, pool[..i] + pool[i + 1..])
    ensures SameEdgesUpToReversal([pool[i]] + tail, pool)
  {
    assert pool == pool[..i] + [pool[i]] + pool[i + 1..];
    CanonSeqAppend(pool[..i], pool[i + 1..]);
    CanonSeqAppend(pool[..i] + [pool[i]], pool[i + 1..]);
    CanonSeqAppend(pool[..i], [pool[i]]);
    CanonSeqAppend([pool[i]], tail);
  }

  lemma FlipKeepsEdges(pool: seq<Edge>, j: nat)
    requires j < |pool|
    ensures SameEdgesUpToReversal(pool[j := pool[j].ReverseWithStyle(pool[j].fillStyleIdx)], pool)
  {
    CanonicalOfReversal(pool[j]);
    assert CanonSeq(pool[j := pool[j].ReverseWithStyle(pool[j].fillStyleIdx)]) == CanonSeq(pool);
  }

  /** Each edge of `a` is an edge of `b`, unchanged or flipped with its own fill style. */
  lemma OriginInPool(a: seq<Edge>, b: seq<Edge>, j: nat) returns (k: nat)
    requires SameEdgesUpToReversal(a, b)
    requires j < |a|
    ensures k < |b|
    ensures a[j] == b[k] || a[j] == b[k].ReverseWithStyle(b[k].fillStyleIdx)
  {
    assert CanonSeq(a)[j] in multiset(CanonSeq(a));
    assert CanonSeq(a)[j] in CanonSeq(b);
    k :| 0 <= k < |b| && CanonSeq(b)[k] == CanonSeq(a)[j];
    SameCanonical(a[j], b[k]);
  }

  lemma NoContactTransfers(a: seq<Edge>, b: seq<Edge>, p: Point)
    requires SameEdgesUpToReversal(a, b)
    requires forall k :: 0 <= k < |b| ==> !b[k].Touches(p)
    ensures forall j :: 0 <= j < |a| ==> !a[j].Touches(p)
  {
    forall j | 0 <= j < |a|
      ensures !a[j].Touches(p)
    {
      var k := OriginInPool(a, b, j);
    }
  }

  lemma ChainedCons(e: Edge, tail: seq<Edge>)
    requires Chained(tail)
    requires |tail| > 0 && tail[0].from != e.to ==> forall j :: 0 <= j < |tail| ==> !tail[j].Touches(e.to)
    ensures Chained([e] + tail)
  {
    var s := [e] + tail;
    forall k | 0 < k < |s|
      ensures BreakJustified(s, k)
    {
      if k > 1 {
        assert BreakJustified(tail, k - 1);
      }
    }
  }

  /** The inner loop's index, or 0 once the index has run past the end (the outer loop's reset). */
  function Wrap(idx: nat, n: nat): nat
  {
    if idx < n then idx else 0
  }

  /** Second termination component: 0 with no chain, 1 when the edge at the index continues it, 2 otherwise. */
  function Rank(pool: seq<Edge>, idx: nat, prev: Option<Edge>): nat
  {
    if |pool| == 0 || prev.None? then 0
    else if pool[Wrap(idx, |pool|)].from == prev.value.to then 1
    else 2
  }

  /**
   * The stitching loop of CleanEdgeMap from state (pool, idx, prev); the
   * result is what it appends to the output list from here on. One call is
   * one pass of the inner loop: take the edge at idx when it continues the
   * chain (or no chain is open); otherwise point idx at the first edge
   * starting at prev.To, or else flip in place the first edge ending there,
   * or else close the chain and restart at index 0.
   */
  function Stitch(pool: seq<Edge>, idx: nat, prev: Option<Edge>): (r: seq<Edge>)
    ensures |r| == |pool|
    ensures SameEdgesUpToReversal(r, pool)
    ensures Chained(r)
    ensures prev.Some? && |r| > 0 && r[0].from != prev.value.to ==>
              forall j :: 0 <= j < |r| ==> !r[j].Touches(prev.value.to)
    decreases |pool|, Rank(pool, idx, prev)
  {
    if |pool| == 0 then []
    else
      var i := Wrap(idx, |pool|);
      if prev.None? || pool[i].from == prev.value.to then
        var e := pool[i];
        var tail := Stitch(pool[..i] + pool[i + 1..], i, Some(e));
        TakeKeepsEdges(pool, i, tail);
        ChainedCons(e, tail);
        [e] + tail
      else
        match FirstAt(pool, Start, prev.value.to)
        case Some(j) => Stitch(pool, j, prev)
        case None =>
          match FirstAt(pool, End, prev.value.to)
          case Some(j) =>
            var flipped := pool[j := pool[j].ReverseWithStyle(pool[j].fillStyleIdx)];
            FlipKeepsEdges(pool, j);
            Stitch(flipped, j, prev)
          case None =>
            var tail := Stitch(pool, 0, None);
            NoContactTransfers(tail, pool, prev.value.to);
            tail
  }

  /** One bucket list after CleanEdgeMap: empty lists are skipped, others stitched from a fresh state. */
  function CleanPath(path: seq<Edge>): (r: seq<Edge>)
    ensures SameEdgesUpToReversal(r, path)
    ensures Chained(r)
  {
    if |path| == 0 then path else Stitch(path, 0, None)
  }

  /** The edge an optional entry holds. */
  function PrevEdge(prev: Option<Entry>): Option<Edge>
  {
    match prev
    case None => None
    case Some(x) => Some(x.edge)
  }

  /** Taking an entry out keeps the identities distinct and below the same bound. */
  lemma TakeKeepsIds(pool: seq<Entry>, i: nat, next: nat)
    requires DistinctIds(pool) && IdsBelow(pool, next) && i < |pool|
    ensures DistinctIds(pool[..i] + pool[i + 1..]) && IdsBelow(pool[..i] + pool[i + 1..], next)
  {
    var rest := pool[..i] + pool[i + 1..];
    assert forall k :: 0 <= k < |rest| ==> rest[k] == pool[if k < i then k else k + 1];
  }

  /**
   * The stitching loop of CleanEdgeMap as written: its lookups go through the
   * forward and reverse coordinate maps it maintains, an edge is found in the
   * pool by identity (IndexOf), and a taken or flipped edge is removed from or
   * moved between the maps. One call is one pass of the inner loop, except
   * that a flip and the take of the flipped edge form one call: the next pass
   * always takes it, since it starts where the chain ends. The maps agree
   * with the pool at every call; StitchWithMapsIsStitch shows the result is
   * what Stitch gives.
   */
  function StitchWithMaps(pool: seq<Entry>, fwd: CoordMap, rev: CoordMap, idx: nat, prev: Option<Entry>, next: nat): (r: seq<Edge>)
    requires DistinctIds(pool) && IdsBelow(pool, next)
    requires Agrees(fwd, pool, Start) && Agrees(rev, pool, End)
    ensures |r| == |pool|
    decreases |pool|, Rank(EdgesOf(pool), idx, PrevEdge(prev))
  {
    if |pool| == 0 then []
    else
      var i := Wrap(idx, |pool|);
      if prev.None? || pool[i].edge.from == prev.value.edge.to then
        var e := pool[i];
        var rest := pool[..i] + pool[i + 1..];
        var fwd1, rev1 := RemoveEdgeFrom(fwd, e, Start), RemoveEdgeFrom(rev, e, End);
        assert Agrees(fwd1, rest, Start) && Agrees(rev1, rest, End) && DistinctIds(rest) && IdsBelow(rest, next) by {
          TakeKeepsConsistent(pool, fwd, rev, i, next);
        }
        [e.edge] + StitchWithMaps(rest, fwd1, rev1, i, Some(e), next)
      else
        var at := prev.value.edge.to;
        match FindNextEdge(fwd, at)
        case Some(x) =>
          var j := IndexOf(pool, x.id);
          assert FirstAt(EdgesOf(pool), Start, at) == Some(j) && j < |pool| && pool[j].edge.from == at by {
            JumpFinds(pool, fwd, rev, at, next);
          }
          StitchWithMaps(pool, fwd, rev, j, prev, next)
        case None =>
          assert FirstAt(EdgesOf(pool), Start, at).None? by {
            FindNextIsFirstMatch(fwd, pool, Start, at);
          }
          match FindNextEdge(rev, at)
          case Some(x) =>
            var j := IndexOf(pool, x.id);
            assert && FirstAt(EdgesOf(pool), End, at) == Some(j) && j < |pool| && x == pool[j] && x.edge.from != x.edge.to
                   && EndpointOf(x.edge, Start) in fwd && EndpointOf(x.edge, End) in rev by {
              FlipFinds(pool, fwd, rev, at, next);
            }
            var y := FlippedEntry(x, next);
            var rest := pool[..j] + pool[j + 1..];
            var fwd1 := RemoveEdgeFrom(UpdateEdgeIn(fwd, x, y, Start), y, Start);
            var rev1 := RemoveEdgeFrom(UpdateEdgeIn(rev, x, y, End), y, End);
            assert Agrees(fwd1, rest, Start) && Agrees(rev1, rest, End) && DistinctIds(rest) && IdsBelow(rest, next + 1) by {
              FlipKeepsConsistent(pool, fwd, rev, j, next);
            }
            [y.edge] + StitchWithMaps(rest, fwd1, rev1, j, Some(y), next + 1)
          case None =>
            StitchWithMaps(pool, fwd, rev, 0, None, next)
  }

  /** The pool, both coordinate maps and the identities are consistent: the maps agree with the pool. */
  ghost predicate Consistent(pool: seq<Entry>, fwd: CoordMap, rev: CoordMap, next: nat)
  {
    DistinctIds(pool) && IdsBelow(pool, next) && Agrees(fwd, pool, Start) && Agrees(rev, pool, End)
  }

  /** Taking the entry at position i out of the pool and out of both maps keeps them consistent. */
  lemma TakeKeepsConsistent(pool: seq<Entry>, fwd: CoordMap, rev: CoordMap, i: nat, next: nat)
    requires Consistent(pool, fwd, rev, next) && i < |pool|
    ensures Consistent(pool[..i] + pool[i + 1..], RemoveEdgeFrom(fwd, pool[i], Start), RemoveEdgeFrom(rev, pool[i], End), next)
  {
    TakeKeepsAgreement(pool, fwd, Start, i);
    TakeKeepsAgreement(pool, rev, End, i);
    TakeKeepsIds(pool, i, next);
  }

  /** When some pool edge starts at `at`, the map-driven loop finds the first one, by identity. */
  lemma JumpFinds(pool: seq<Entry>, fwd: CoordMap, rev: CoordMap, at: Point, next: nat)
    requires Consistent(pool, fwd, rev, next)
    requires FindNextEdge(fwd, at).Some?
    ensures FirstAt(EdgesOf(pool), Start, at).Some?
    ensures var j := FirstAt(EdgesOf(pool), Start, at).value;
            j < |pool| && FindNextEdge(fwd, at).value == pool[j] && IndexOf(pool, pool[j].id) == j && pool[j].edge.from == at
  {
    FindNextIsFirstMatch(fwd, pool, Start, at);
    IndexOfOwn(pool, FirstAt(EdgesOf(pool), Start, at).value);
  }

  /**
   * The stitching loop driven by its maintained coordinate maps computes
   * exactly what the position-based Stitch computes from the same pool,
   * index and previous edge.
   */
  lemma {:induction false} StitchWithMapsIsStitch(pool: seq<Entry>, fwd: CoordMap, rev: CoordMap, idx: nat, prev: Option<Entry>, next: nat)
    ensures Consistent(pool, fwd, rev, next) ==>
              StitchWithMaps(pool, fwd, rev, idx, prev, next) == Stitch(EdgesOf(pool), idx, PrevEdge(prev))
    decreases |pool|, Rank(EdgesOf(pool), idx, PrevEdge(prev)), 1
  {
    if Consistent(pool, fwd, rev, next) && |pool| > 0 {
      var i := Wrap(idx, |pool|);
      if prev.None? || pool[i].edge.from == prev.value.edge.to {
        TakeIsStitch(pool, fwd, rev, idx, prev, next);
      } else {
        var at := prev.value.edge.to;
        FindNextIsFirstMatch(fwd, pool, Start, at);
        FindNextIsFirstMatch(rev, pool, End, at);
        if FindNextEdge(fwd, at).Some? {
          JumpIsStitch(pool, fwd, rev, idx, prev, next);
        } else if FindNextEdge(rev, at).Some? {
          var j, y, rest, fwd1, rev1 := FlipStep(pool, fwd, rev, idx, prev, next);
          FlipIsStitch(pool, fwd, rev, idx, prev, next, j, y, rest, fwd1, rev1);
        } else {
          assert StitchWithMaps(pool, fwd, rev, idx, prev, next) == StitchWithMaps(pool, fwd, rev, 0, None, next);
          StitchRestarts(EdgesOf(pool), idx, PrevEdge(prev));
          StitchWithMapsIsStitch(pool, fwd, rev, 0, None, next);
        }
      }
    }
  }

  /** A take pass of the map-driven loop: the maps stay consistent and the taken edge is emitted first. */
  lemma TakeUnfolds(pool: seq<Entry>, fwd: CoordMap, rev: CoordMap, idx: nat, prev: Option<Entry>, next: nat)
    requires Consistent(pool, fwd, rev, next) && |pool| > 0
    requires prev.None? || pool[Wrap(idx, |pool|)].edge.from == prev.value.edge.to
    ensures var i := Wrap(idx, |pool|);
            var rest := pool[..i] + pool[i + 1..];
            var fwd1, rev1 := RemoveEdgeFrom(fwd, pool[i], Start), RemoveEdgeFrom(rev, pool[i], End);
            && Consistent(rest, fwd1, rev1, next)
            && StitchWithMaps(pool, fwd, rev, idx, prev, next) == [pool[i].edge] + StitchWithMaps(rest, fwd1, rev1, i, Some(pool[i]), next)
            && EdgesOf(rest) == EdgesOf(pool)[..i] + EdgesOf(pool)[i + 1..]
  {
    var i := Wrap(idx, |pool|);
    TakeKeepsAgreement(pool, fwd, Start, i);
    TakeKeepsAgreement(pool, rev, End, i);
    TakeKeepsIds(pool, i, next);
    assert EdgesOf(pool[..i] + pool[i + 1..]) == EdgesOf(pool)[..i] + EdgesOf(pool)[i + 1..];
  }

  lemma {:induction false} TakeIsStitch(pool: seq<Entry>, fwd: CoordMap, rev: CoordMap, idx: nat, prev: Option<Entry>, next: nat)
    requires Consistent(pool, fwd, rev, next) && |pool| > 0
    requires prev.None? || pool[Wrap(idx, |pool|)].edge.from == prev.value.edge.to
    ensures StitchWithMaps(pool, fwd, rev, idx, prev, next) == Stitch(EdgesOf(pool), idx, PrevEdge(prev))
    decreases |pool|, Rank(EdgesOf(pool), idx, PrevEdge(prev)), 0
  {
    var i := Wrap(idx, |pool|);
    var rest := pool[..i] + pool[i + 1..];
    TakeUnfolds(pool, fwd, rev, idx, prev, next);
    StitchTakes(EdgesOf(pool), idx, PrevEdge(prev));
    StitchWithMapsIsStitch(rest, RemoveEdgeFrom(fwd, pool[i], Start), RemoveEdgeFrom(rev, pool[i], End), i, Some(pool[i]), next);
  }

  /** A jump pass of the map-driven loop: the index moves to the first pool edge starting where the chain ends. */
  lemma JumpUnfolds(pool: seq<Entry>, fwd: CoordMap, rev: CoordMap, idx: nat, prev: Option<Entry>, next: nat)
    requires Consistent(pool, fwd, rev, next) && |pool| > 0
    requires prev.Some? && pool[Wrap(idx, |pool|)].edge.from != prev.value.edge.to
    requires FindNextEdge(fwd, prev.value.edge.to).Some?
    ensures FirstAt(EdgesOf(pool), Start, prev.value.edge.to).Some?
    ensures StitchWithMaps(pool, fwd, rev, idx, prev, next)
         == StitchWithMaps(pool, fwd, rev, FirstAt(EdgesOf(pool), Start, prev.value.edge.to).value, prev, next)
  {
    var at := prev.value.edge.to;
    FindNextIsFirstMatch(fwd, pool, Start, at);
    IndexOfOwn(pool, FirstAt(EdgesOf(pool), Start, at).value);
  }

  lemma {:induction false} JumpIsStitch(pool: seq<Entry>, fwd: CoordMap, rev: CoordMap, idx: nat, prev: Option<Entry>, next: nat)
    requires Consistent(pool, fwd, rev, next) && |pool| > 0
    requires prev.Some? && pool[Wrap(idx, |pool|)].edge.from != prev.value.edge.to
    requires FindNextEdge(fwd, prev.value.edge.to).Some?
    ensures StitchWithMaps(pool, fwd, rev, idx, prev, next) == Stitch(EdgesOf(pool), idx, PrevEdge(prev))
    decreases |pool|, Rank(EdgesOf(pool), idx, PrevEdge(prev)), 0
  {
    JumpUnfolds(pool, fwd, rev, idx, prev, next);
    var j := FirstAt(EdgesOf(pool), Start, prev.value.edge.to).value;
    StitchJumps(EdgesOf(pool), idx, PrevEdge(prev));
    StitchWithMapsIsStitch(pool, fwd, rev, j, prev, next);
  }

  /** The flipped copy of the first pool edge ending at `at`, as a new object. */
  function FlippedEntry(x: Entry, next: nat): Entry
  {
    Entry(next, x.edge.ReverseWithStyle(x.edge.fillStyleIdx))
  }

  /** When no pool edge starts at `at`, the map-driven loop finds the first pool edge ending there. */
  lemma FlipFinds(pool: seq<Entry>, fwd: CoordMap, rev: CoordMap, at: Point, next: nat)
    requires Consistent(pool, fwd, rev, next)
    requires FindNextEdge(fwd, at).None? && FindNextEdge(rev, at).Some?
    ensures FirstAt(EdgesOf(pool), Start, at).None?
    ensures FirstAt(EdgesOf(pool), End, at).Some?
    ensures var j := FirstAt(EdgesOf(pool), End, at).value;
            && FindNextEdge(rev, at).value == pool[j] && IndexOf(pool, pool[j].id) == j
            && pool[j].edge.from != at
            && EndpointOf(pool[j].edge, Start) in fwd && EndpointOf(pool[j].edge, End) in rev
  {
    FindNextIsFirstMatch(fwd, pool, Start, at);
    FindNextIsFirstMatch(rev, pool, End, at);
    var j := FirstAt(EdgesOf(pool), End, at).value;
    IndexOfOwn(pool, j);
    var y := FlippedEntry(pool[j], next);
    FlipTakeKeepsAgreement(pool, fwd, Start, j, y);
    FlipTakeKeepsAgreement(pool, rev, End, j, y);
  }

  /** Flipping the j-th pool edge and taking the flipped copy keeps the maps consistent with the rest of the pool. */
  lemma FlipKeepsConsistent(pool: seq<Entry>, fwd: CoordMap, rev: CoordMap, j: nat, next: nat)
    requires Consistent(pool, fwd, rev, next) && j < |pool| && pool[j].edge.from != pool[j].edge.to
    ensures EndpointOf(pool[j].edge, Start) in fwd && EndpointOf(pool[j].edge, End) in rev
    ensures var y := FlippedEntry(pool[j], next);
            Consistent(pool[..j] + pool[j + 1..], RemoveEdgeFrom(UpdateEdgeIn(fwd, pool[j], y, Start), y, Start),
                       RemoveEdgeFrom(UpdateEdgeIn(rev, pool[j], y, End), y, End), next + 1)
  {
    var y := FlippedEntry(pool[j], next);
    FlipTakeKeepsAgreement(pool, fwd, Start, j, y);
    FlipTakeKeepsAgreement(pool, rev, End, j, y);
    TakeKeepsIds(pool, j, next);
  }

  /** A flip-and-take pass of the map-driven loop emits the flipped copy and continues on the rest of the pool. */
  lemma FlipUnfolds(pool: seq<Entry>, fwd: CoordMap, rev: CoordMap, idx: nat, prev: Option<Entry>, next: nat, j: nat)
    requires Consistent(pool, fwd, rev, next) && |pool| > 0
    requires prev.Some? && pool[Wrap(idx, |pool|)].edge.from != prev.value.edge.to
    requires j < |pool| && IndexOf(pool, pool[j].id) == j && pool[j].edge.from != pool[j].edge.to
    requires FindNextEdge(fwd, prev.value.edge.to).None? && FindNextEdge(rev, prev.value.edge.to) == Some(pool[j])
    requires EndpointOf(pool[j].edge, Start) in fwd && EndpointOf(pool[j].edge, End) in rev
    requires var y := FlippedEntry(pool[j], next);
             Consistent(pool[..j] + pool[j + 1..], RemoveEdgeFrom(UpdateEdgeIn(fwd, pool[j], y, Start), y, Start),
                        RemoveEdgeFrom(UpdateEdgeIn(rev, pool[j], y, End), y, End), next + 1)
    ensures var y := FlippedEntry(pool[j], next);
            StitchWithMaps(pool, fwd, rev, idx, prev, next) ==
              [y.edge] + StitchWithMaps(pool[..j] + pool[j + 1..], RemoveEdgeFrom(UpdateEdgeIn(fwd, pool[j], y, Start), y, Start),
                                        RemoveEdgeFrom(UpdateEdgeIn(rev, pool[j], y, End), y, End), j, Some(y), next + 1)
  {
  }

  /**
   * One flip-and-take pass, named: the pool entry `j` it flips, the flipped
   * copy `y`, the rest of the pool and the updated maps. Both the map-driven
   * loop and Stitch emit the flipped edge and continue from the same state.
   */
  lemma FlipStep(pool: seq<Entry>, fwd: CoordMap, rev: CoordMap, idx: nat, prev: Option<Entry>, next: nat)
      returns (j: nat, y: Entry, rest: seq<Entry>, fwd1: CoordMap, rev1: CoordMap)
    requires Consistent(pool, fwd, rev, next) && |pool| > 0
    requires prev.Some? && pool[Wrap(idx, |pool|)].edge.from != prev.value.edge.to
    requires FirstAt(EdgesOf(pool), Start, prev.value.edge.to).None? && FirstAt(EdgesOf(pool), End, prev.value.edge.to).Some?
    ensures |rest| < |pool| && Consistent(rest, fwd1, rev1, next + 1)
    ensures StitchWithMaps(rest, fwd1, rev1, j, Some(y), next + 1) == Stitch(EdgesOf(rest), j, PrevEdge(Some(y))) ==>
              StitchWithMaps(pool, fwd, rev, idx, prev, next) == Stitch(EdgesOf(pool), idx, PrevEdge(prev))
  {
    var at := prev.value.edge.to;
    FindNextIsFirstMatch(fwd, pool, Start, at);
    FindNextIsFirstMatch(rev, pool, End, at);
    FlipFinds(pool, fwd, rev, at, next);
    j := FirstAt(EdgesOf(pool), End, at).value;
    y := FlippedEntry(pool[j], next);
    rest := pool[..j] + pool[j + 1..];
    FlipKeepsConsistent(pool, fwd, rev, j, next);
    fwd1 := RemoveEdgeFrom(UpdateEdgeIn(fwd, pool[j], y, Start), y, Start);
    rev1 := RemoveEdgeFrom(UpdateEdgeIn(rev, pool[j], y, End), y, End);
    FlipUnfolds(pool, fwd, rev, idx, prev, next, j);
    StitchFlipsEntries(pool, idx, prev, j, y, rest);
  }

  /** The flip-and-take case, given the state FlipStep continues from. */
  lemma {:induction false} FlipIsStitch(pool: seq<Entry>, fwd: CoordMap, rev: CoordMap, idx: nat, prev: Option<Entry>, next: nat,
                                        j: nat, y: Entry, rest: seq<Entry>, fwd1: CoordMap, rev1: CoordMap)
    requires Consistent(pool, fwd, rev, next) && |rest| < |pool| && Consistent(rest, fwd1, rev1, next + 1)
    requires StitchWithMaps(rest, fwd1, rev1, j, Some(y), next + 1) == Stitch(EdgesOf(rest), j, PrevEdge(Some(y))) ==>
               StitchWithMaps(pool, fwd, rev, idx, prev, next) == Stitch(EdgesOf(pool), idx, PrevEdge(prev))
    ensures StitchWithMaps(pool, fwd, rev, idx, prev, next) == Stitch(EdgesOf(pool), idx, PrevEdge(prev))
    decreases |pool|, Rank(EdgesOf(pool), idx, PrevEdge(prev)), 0
  {
    StitchWithMapsIsStitch(rest, fwd1, rev1, j, Some(y), next + 1);
  }

  /** StitchFlips restated on a pool of entries, with the flipped copy `y` of the j-th entry as a new entry. */
  lemma StitchFlipsEntries(pool: seq<Entry>, idx: nat, prev: Option<Entry>, j: nat, y: Entry, rest: seq<Entry>)
    requires |pool| > 0 && prev.Some? && pool[Wrap(idx, |pool|)].edge.from != prev.value.edge.to
    requires FirstAt(EdgesOf(pool), Start, prev.value.edge.to).None? && FirstAt(EdgesOf(pool), End, prev.value.edge.to) == Some(j)
    requires j < |pool| && y.edge == pool[j].edge.ReverseWithStyle(pool[j].edge.fillStyleIdx) && rest == pool[..j] + pool[j + 1..]
    ensures Stitch(EdgesOf(pool), idx, PrevEdge(prev)) == [y.edge] + Stitch(EdgesOf(rest), j, PrevEdge(Some(y)))
  {
    assert EdgesOf(rest) == EdgesOf(pool)[..j] + EdgesOf(pool)[j + 1..];
    StitchFlips(EdgesOf(pool), idx, PrevEdge(prev));
  }

  /** Stitch when the edge at the index continues the chain (or no chain is open): take it. */
  lemma StitchTakes(pool: seq<Edge>, idx: nat, prev: Option<Edge>)
    requires |pool| > 0
    requires prev.None? || pool[Wrap(idx, |pool|)].from == prev.value.to
    ensures var i := Wrap(idx, |pool|);
            Stitch(pool, idx, prev) == [pool[i]] + Stitch(pool[..i] + pool[i + 1..], i, Some(pool[i]))
  {
  }

  /** Stitch when some pool edge starts where the chain ends: move the index to the first one. */
  lemma StitchJumps(pool: seq<Edge>, idx: nat, prev: Option<Edge>)
    requires |pool| > 0 && prev.Some? && pool[Wrap(idx, |pool|)].from != prev.value.to
    requires FirstAt(pool, Start, prev.value.to).Some?
    ensures Stitch(pool, idx, prev) == Stitch(pool, FirstAt(pool, Start, prev.value.to).value, prev)
  {
  }

  /**
   * Stitch when no pool edge starts where the chain ends but one ends there:
   * flip the first such edge in place, and the next pass takes it.
   */
  lemma StitchFlips(pool: seq<Edge>, idx: nat, prev: Option<Edge>)
    requires |pool| > 0 && prev.Some? && pool[Wrap(idx, |pool|)].from != prev.value.to
    requires FirstAt(pool, Start, prev.value.to).None? && FirstAt(pool, End, prev.value.to).Some?
    ensures var j := FirstAt(pool, End, prev.value.to).value;
            var y := pool[j].ReverseWithStyle(pool[j].fillStyleIdx);
            Stitch(pool, idx, prev) == [y] + Stitch(pool[..j] + pool[j + 1..], j, Some(y))
  {
    var j := FirstAt(pool, End, prev.value.to).value;
    var y := pool[j].ReverseWithStyle(pool[j].fillStyleIdx);
    StitchFlipsInPlace(pool, idx, prev, j);
    assert Wrap(j, |pool[j := y]|) == j;
    StitchTakes(pool[j := y], j, prev);
    SliceAfterUpdate(pool, j, y);
  }

  /** The flip case of Stitch: the edge is flipped in place and the index moves to it. */
  lemma StitchFlipsInPlace(pool: seq<Edge>, idx: nat, prev: Option<Edge>, j: nat)
    requires |pool| > 0 && prev.Some? && pool[Wrap(idx, |pool|)].from != prev.value.to
    requires FirstAt(pool, Start, prev.value.to).None? && FirstAt(pool, End, prev.value.to) == Some(j)
    ensures j < |pool|
    ensures Stitch(pool, idx, prev) == Stitch(pool[j := pool[j].ReverseWithStyle(pool[j].fillStyleIdx)], j, prev)
  {
  }

  /** Replacing an element and then cutting it out is the same as cutting it out. */
  lemma SliceAfterUpdate<T>(s: seq<T>, j: nat, v: T)
    requires j < |s|
    ensures s[j := v][..j] + s[j := v][j + 1..] == s[..j] + s[j + 1..]
  {
    assert s[j := v][..j] == s[..j];
    assert s[j := v][j + 1..] == s[j + 1..];
  }

  /** Stitch when nothing in the pool touches the end of the chain: close it and restart at index 0. */
  lemma StitchRestarts(pool: seq<Edge>, idx: nat, prev: Option<Edge>)
    requires |pool| > 0 && prev.Some? && pool[Wrap(idx, |pool|)].from != prev.value.to
    requires FirstAt(pool, Start, prev.value.to).None? && FirstAt(pool, End, prev.value.to).None?
    ensures Stitch(pool, idx, prev) == Stitch(pool, 0, None)
  {
  }

  /**
   * One bucket list after CleanEdgeMap as written: an empty list is skipped;
   * otherwise the coordinate maps are built from the list and the stitching
   * loop runs from a fresh state. The result is the position-based CleanPath.
   */
  function CleanPathWithMaps(path: seq<Edge>): (r: seq<Edge>)
    ensures r == CleanPath(path)
  {
    if |path| == 0 then path
    else
      var pool := seq(|path|, i requires 0 <= i < |path| => Entry(i, path[i]));
      assert EdgesOf(pool) == path;
      StitchWithMapsIsStitch(pool, CreateCoordMap(pool, Start), CreateCoordMap(pool, End), 0, None, |path|);
      StitchWithMaps(pool, CreateCoordMap(pool, Start), CreateCoordMap(pool, End), 0, None, |path|)
  }

  /**
   * Every stitched edge is a bucket edge, unchanged or flipped with its own
   * fill, so it keeps both style references.
   */
  lemma StitchedEdgeOrigin(path: seq<Edge>, j: nat) returns (k: nat)
    requires j < |CleanPath(path)|
    ensures k < |path|
    ensures CleanPath(path)[j] == path[k] || CleanPath(path)[j] == path[k].ReverseWithStyle(path[k].fillStyleIdx)
    ensures CleanPath(path)[j].fillStyleIdx == path[k].fillStyleIdx
    ensures CleanPath(path)[j].lineStyleIdx == path[k].lineStyleIdx
  {
    k := OriginInPool(CleanPath(path), path, j);
  }

  lemma StylesTransfer(a: seq<Edge>, b: seq<Edge>, kind: StyleKind, s: nat)
    requires SameEdgesUpToReversal(a, b)
    requires forall e :: e in b ==> StyleIdx(e, kind) == s
    ensures forall e :: e in a ==> StyleIdx(e, kind) == s
  {
    forall e | e in a
      ensures StyleIdx(e, kind) == s
    {
      var j :| 0 <= j < |a| && a[j] == e;
      var k := OriginInPool(a, b, j);
      assert b[k] in b;
    }
  }

  /** CleanEdgeMap: stitch every list of a bucket map, keeping its keys. */
  function CleanEdgeMap(m: EdgeMap): (r: EdgeMap)
    ensures r.Keys == m.Keys
    ensures forall k :: k in m ==> SameEdgesUpToReversal(r[k], m[k]) && Chained(r[k])
    ensures WellKeyed(m, FillKind) ==> WellKeyed(r, FillKind)
    ensures WellKeyed(m, LineKind) ==> WellKeyed(r, LineKind)
  {
    var r := map k | k in m :: CleanPathWithMaps(m[k]);
    forall kind: StyleKind, k | Tagged(m, kind) && k in m
      ensures forall e :: e in r[k] ==> StyleIdx(e, kind) == k
    {
      StylesTransfer(r[k], m[k], kind, k);
    }
    r
  }
}
