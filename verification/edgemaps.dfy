/**
 * Style buckets: a map from style index to the edges filed under it, and
 * the flattening of a bucket map into one path in ascending key order.
 */
module EdgeMaps {
  import opened Edges

  type EdgeMap = map<nat, seq<Edge>>

  /** Which style reference of an edge a bucket map is keyed by. */
  datatype StyleKind = FillKind | LineKind

  function StyleIdx(e: Edge, kind: StyleKind): nat
  {
    if kind == FillKind then e.fillStyleIdx else e.lineStyleIdx
  }

  /** The list under `k`, or the empty list when the key is absent. */
  function Get(m: EdgeMap, k: nat): seq<Edge>
  {
    if k in m then m[k] else []
  }

  /** Every edge filed under key k carries style index k of the given kind. */
  ghost predicate Tagged(m: EdgeMap, kind: StyleKind)
  {
    forall k, e :: k in m && e in m[k] ==> StyleIdx(e, kind) == k
  }

  /** A bucket map as the engine builds it: tagged, and never keyed by the "no style" index 0. */
  ghost predicate WellKeyed(m: EdgeMap, kind: StyleKind)
  {
    0 !in m && Tagged(m, kind)
  }

  /** The edges of `s` whose style index of the given kind is `k`, in order. */
  function Select(s: seq<Edge>, kind: StyleKind, k: nat): (r: seq<Edge>)
  {
    if |s| == 0 then []
    else (if StyleIdx(s[0], kind) == k then [s[0]] else []) + Select(s[1..], kind, k)
  }

  /** Style indices of `s` never decrease along the sequence. */
  ghost predicate StylesAscending(s: seq<Edge>, kind: StyleKind)
  {
    forall i, j :: 0 <= i < j < |s| ==> StyleIdx(s[i], kind) <= StyleIdx(s[j], kind)
  }

  lemma MinimumOf(keys: set<nat>) returns (least: nat)
    requires keys != {}
    ensures least in keys
    ensures forall j :: j in keys ==> least <= j
  {
    var x :| x in keys;
    if keys == {x} {
      least := x;
    } else {
      var y := MinimumOf(keys - {x});
      least := if y < x then y else x;
      forall j | j in keys
        ensures least <= j
      {
        if j != x {
          assert j in keys - {x};
        }
      }
    }
  }

  lemma HasMinimum(keys: set<nat>)
    requires keys != {}
    ensures exists k :: k in keys && forall j :: j in keys ==> k <= j
  {
    var least := MinimumOf(keys);
    assert least in keys && forall j :: j in keys ==> least <= j;
  }

  /** The least key of a non-empty key set. */
  function MinKey(keys: set<nat>): (k: nat)
    requires keys != {}
    ensures k in keys
    ensures forall j :: j in keys ==> k <= j
  {
    HasMinimum(keys);
    var k :| k in keys && forall j :: j in keys ==> k <= j;
    k
  }

  /** The lists of all keys concatenated in ascending key order. */
  function PathFromEdgeMap(m: EdgeMap): (r: seq<Edge>)
    ensures forall e :: e in r <==> exists k :: k in m && e in m[k]
    decreases m.Keys
  {
    if m.Keys == {} then []
    else
      var k := MinKey(m.Keys);
      var rest := m - {k};
      forall e
        ensures (exists j :: j in m && e in m[j]) <==> e in m[k] || exists j :: j in rest && e in rest[j]
      {
        if exists j :: j in m && e in m[j] {
          var j :| j in m && e in m[j];
          if j != k {
            assert j in rest && e in rest[j];
          }
        }
      }
      m[k] + PathFromEdgeMap(rest)
  }

  lemma SelectAppend(a: seq<Edge>, b: seq<Edge>, kind: StyleKind, k: nat)
    ensures Select(a + b, kind, k) == Select(a, kind, k) + Select(b, kind, k)
  {
    if |a| == 0 {
      assert a + b == b;
    } else {
      assert (a + b)[1..] == a[1..] + b;
      SelectAppend(a[1..], b, kind, k);
    }
  }

  lemma SelectAll(s: seq<Edge>, kind: StyleKind, k: nat)
    requires forall e :: e in s ==> StyleIdx(e, kind) == k
    ensures Select(s, kind, k) == s
  {
    if |s| > 0 {
      SelectAll(s[1..], kind, k);
    }
  }

  lemma SelectNone(s: seq<Edge>, kind: StyleKind, k: nat)
    requires forall e :: e in s ==> StyleIdx(e, kind) != k
    ensures Select(s, kind, k) == []
  {
    if |s| > 0 {
      SelectNone(s[1..], kind, k);
    }
  }

  /** A list of style `k` followed by an ascending list of styles above `k` is ascending. */
  lemma AscendingAppend(a: seq<Edge>, b: seq<Edge>, kind: StyleKind, k: nat)
    requires forall e :: e in a ==> StyleIdx(e, kind) == k
    requires forall e :: e in b ==> k < StyleIdx(e, kind)
    requires StylesAscending(b, kind)
    ensures StylesAscending(a + b, kind)
  {
    var r := a + b;
    forall i, j | 0 <= i < j < |r|
      ensures StyleIdx(r[i], kind) <= StyleIdx(r[j], kind)
    {
      if j >= |a| {
        assert r[j] == b[j - |a|];
        if i < |a| {
          assert r[i] == a[i];
        } else {
          assert r[i] == b[i - |a|];
        }
      } else {
        assert r[i] == a[i] && r[j] == a[j];
      }
    }
  }

  /**
   * Flattening a tagged bucket map walks the keys in ascending order, and
   * the edges of each style form exactly that style's list.
   */
  lemma {:induction false} PathFromTaggedEdgeMap(m: EdgeMap, kind: StyleKind)
    requires Tagged(m, kind)
    ensures StylesAscending(PathFromEdgeMap(m), kind)
    ensures forall k :: k in m ==> Select(PathFromEdgeMap(m), kind, k) == m[k]
    decreases m.Keys
  {
    if m.Keys != {} {
      var k0 := MinKey(m.Keys);
      var rest := m - {k0};
      var tail := PathFromEdgeMap(rest);
      assert PathFromEdgeMap(m) == m[k0] + tail;
      assert Tagged(rest, kind);
      PathFromTaggedEdgeMap(rest, kind);
      forall e | e in tail
        ensures StyleIdx(e, kind) in rest && k0 < StyleIdx(e, kind)
      {
        var j :| j in rest && e in rest[j];
      }
      var r := m[k0] + tail;
      AscendingAppend(m[k0], tail, kind, k0);
      forall k | k in m
        ensures Select(r, kind, k) == m[k]
      {
        SelectAppend(m[k0], tail, kind, k);
        if k == k0 {
          SelectAll(m[k0], kind, k0);
          SelectNone(tail, kind, k0);
        } else {
          SelectNone(m[k0], kind, k);
        }
      }
    }
  }
}
