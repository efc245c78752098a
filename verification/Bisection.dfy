/**
 Two-way refinement. A bisection carries, for every vertex, its weight to its own side and to the other
 side, the weights of the sides, and the boundary list with its inverse index, all updated in place when a
 vertex changes sides. FM_2WayEdgeRefine moves vertices greedily and rolls back to the best prefix; the two
 balancers move vertices one way only.
 */
module Bisection {
  import opened Graphs
  import Boundary
  import PriorityQueue
  import Finite

  // ----- Two-way facts

  ghost predicate TwoWay(g: Graph, where: seq<int>)
  {
    Partition(g, where) && forall u :: 0 <= u < |where| ==> 0 <= where[u] <= 1
  }

  /** The other side of every edge is one part. */
  lemma {:induction false} ExtIsOtherSide(g: Valid, where: seq<int>, u: nat, k: nat)
    requires TwoWay(g, where) && u < Size(g) && k <= Size(g)
    ensures Ext(g, where, u, k) == Deg(g, where, u, 1 - where[u], k)
  {
    if k > 0 {
      ExtIsOtherSide(g, where, u, k - 1);
    }
  }

  /** `id` and `ed` of vertex `u` are its weights to its own side and to the other side. */
  ghost predicate DegreesOk(g: Valid, where: seq<int>, u: nat, id: int, ed: int)
    requires Partition(g, where) && u < Size(g)
  {
    id == DegTo(g, where, u, where[u]) && ed == ExtTo(g, where, u)
  }

  function Flip(where: seq<int>, v: nat): seq<int>
    requires v < |where|
  {
    where[v := 1 - where[v]]
  }

  /** The flipped vertex trades its two weights. */
  lemma FlipOwn(g: Valid, where: seq<int>, v: nat, id: int, ed: int)
    requires TwoWay(g, where) && v < Size(g) && DegreesOk(g, where, v, id, ed)
    ensures TwoWay(g, Flip(where, v)) && DegreesOk(g, Flip(where, v), v, ed, id)
  {
    WSymmetric(g, v, v);
    MoveOwn(g, where, v, 1 - where[v], Size(g));
    MoveDeg(g, where, v, 1 - where[v], v, 1 - where[v], Size(g));
    ExtIsOtherSide(g, where, v, Size(g));
  }

  /** The edge of another vertex to the flipped one changes sides. */
  lemma FlipOther(g: Valid, where: seq<int>, v: nat, u: nat, id: int, ed: int)
    requires TwoWay(g, where) && v < Size(g) && u < Size(g) && u != v && DegreesOk(g, where, u, id, ed)
    ensures var kwgt := if where[u] == 1 - where[v] then W(g, v, u) else -W(g, v, u);
      DegreesOk(g, Flip(where, v), u, id + kwgt, ed - kwgt)
  {
    WSymmetric(g, u, v);
    MoveDeg(g, where, v, 1 - where[v], u, where[u], Size(g));
    MoveExt(g, where, v, 1 - where[v], u, Size(g));
  }

  lemma FlipCut(g: Valid, where: seq<int>, v: nat, id: int, ed: int)
    requires TwoWay(g, where) && v < Size(g) && DegreesOk(g, where, v, id, ed)
    ensures Cut2(g, Flip(where, v)) == Cut2(g, where) - 2 * (ed - id)
    ensures WeightOf(g, Flip(where, v), where[v]) == WeightOf(g, where, where[v]) - g.vwgt[v]
    ensures WeightOf(g, Flip(where, v), 1 - where[v]) == WeightOf(g, where, 1 - where[v]) + g.vwgt[v]
  {
    MoveCut(g, where, v, 1 - where[v]);
    ExtIsOtherSide(g, where, v, Size(g));
    MovePartWeight(g, where, v, 1 - where[v], where[v], Size(g));
    MovePartWeight(g, where, v, 1 - where[v], 1 - where[v], Size(g));
  }

  function Abs(x: int): nat
  {
    if x < 0 then -x else x
  }

  /** The partitions a sequence of flips goes through. */
  ghost predicate History(g: Graph, hist: seq<seq<int>>, swaps: seq<nat>)
  {
    && |hist| == |swaps| + 1
    && (forall t :: 0 <= t < |hist| ==> TwoWay(g, hist[t]))
    && (forall t :: 0 <= t < |swaps| ==> swaps[t] < Size(g) && hist[t + 1] == Flip(hist[t], swaps[t]))
  }

  lemma HistoryPush(g: Graph, hist: seq<seq<int>>, swaps: seq<nat>, v: nat)
    requires History(g, hist, swaps) && v < Size(g)
    ensures History(g, hist + [Flip(hist[|swaps|], v)], swaps + [v])
  {
  }

  /** Flipping the last vertex again undoes the last step. */
  lemma HistoryPop(g: Graph, hist: seq<seq<int>>, swaps: seq<nat>)
    requires History(g, hist, swaps) && |swaps| > 0
    ensures History(g, hist[..|hist| - 1], swaps[..|swaps| - 1])
    ensures swaps[|swaps| - 1] < Size(g) && Flip(hist[|swaps|], swaps[|swaps| - 1]) == hist[|swaps| - 1]
  {
    var v := swaps[|swaps| - 1];
    assert hist[|swaps| - 1 + 1] == Flip(hist[|swaps| - 1], v);
  }

  // ----- Which vertex is moved

  /** What flipping `u` takes off the cut. */
  ghost function Gain(g: Valid, wh: seq<int>, u: nat): int
    requires Partition(g, wh) && u < Size(g)
  {
    ExtTo(g, wh, u) - DegTo(g, wh, u, wh[u])
  }

  /** Boundary vertices have an edge to the other side, or none at all. */
  ghost predicate OnBorder(g: Valid, wh: seq<int>, u: nat)
    requires Partition(g, wh) && u < Size(g)
  {
    ExtTo(g, wh, u) > 0 || Isolated(g, u)
  }

  /** `u` may be taken from `side`: it was not taken before, weighs no more than `cap` (if that is not negative), and with
      `bndOnly` it is on the boundary. */
  ghost predicate Free(g: Valid, wh: seq<int>, taken: seq<nat>, side: int, cap: int, bndOnly: bool, u: nat)
    requires Partition(g, wh) && u < Size(g)
  {
    wh[u] == side && u !in taken && (cap >= 0 ==> g.vwgt[u] <= cap) && (bndOnly ==> OnBorder(g, wh, u))
  }

  /** `v` may be taken, and nothing that may be taken gains more. */
  ghost predicate Tops(g: Valid, wh: seq<int>, taken: seq<nat>, side: int, cap: int, bndOnly: bool, v: nat)
    requires Partition(g, wh)
  {
    && v < Size(g) && Free(g, wh, taken, side, cap, bndOnly, v)
    && forall u: nat :: u < Size(g) && Free(g, wh, taken, side, cap, bndOnly, u) ==> Gain(g, wh, u) <= Gain(g, wh, v)
  }

  ghost predicate NoneFree(g: Valid, wh: seq<int>, taken: seq<nat>, side: int, cap: int, bndOnly: bool)
    requires Partition(g, wh)
  {
    forall u: nat :: u < Size(g) ==> !Free(g, wh, taken, side, cap, bndOnly, u)
  }

  /** The side that is further above its target, or not as far below it; side 1 if both are the same. */
  ghost function HeavySide(g: Valid, wh: seq<int>, tp0: int, tp1: int): int
    requires Partition(g, wh)
  {
    if tp0 - WeightOf(g, wh, 0) < tp1 - WeightOf(g, wh, 1) then 0 else 1
  }

  /** Swap `t` takes a boundary vertex of the heavy side with the largest gain. */
  ghost predicate TakesBest(g: Valid, hist: seq<seq<int>>, swaps: seq<nat>, tp0: int, tp1: int, t: nat)
  {
    && t < |swaps| && t < |hist| && Partition(g, hist[t])
    && Tops(g, hist[t], swaps[..t], HeavySide(g, hist[t], tp0, tp1), -1, true, swaps[t])
  }

  /** Every swap does, so no vertex is swapped twice. */
  ghost predicate Greedy(g: Valid, hist: seq<seq<int>>, swaps: seq<nat>, tp0: int, tp1: int)
  {
    forall t: nat :: t < |swaps| ==> TakesBest(g, hist, swaps, tp0, tp1, t)
  }

  lemma GreedyPush(g: Valid, hist: seq<seq<int>>, swaps: seq<nat>, tp0: int, tp1: int, wh: seq<int>, v: nat)
    requires History(g, hist, swaps) && Greedy(g, hist, swaps, tp0, tp1)
    requires Tops(g, hist[|swaps|], swaps, HeavySide(g, hist[|swaps|], tp0, tp1), -1, true, v)
    ensures Greedy(g, hist + [wh], swaps + [v], tp0, tp1)
  {
    var hist', swaps' := hist + [wh], swaps + [v];
    forall t: nat | t < |swaps'| ensures TakesBest(g, hist', swaps', tp0, tp1, t) {
      if t < |swaps| {
        assert TakesBest(g, hist, swaps, tp0, tp1, t);
        assert swaps'[..t] == swaps[..t];
      } else {
        assert swaps'[..t] == swaps;
      }
    }
  }

  lemma GreedyOnce(g: Valid, hist: seq<seq<int>>, swaps: seq<nat>, tp0: int, tp1: int)
    requires Greedy(g, hist, swaps, tp0, tp1)
    ensures Finite.NoRepeats(swaps)
  {
    forall i, j | 0 <= i < j < |swaps| ensures swaps[i] != swaps[j] {
      assert TakesBest(g, hist, swaps, tp0, tp1, j);
      assert swaps[..j][i] == swaps[i];
    }
  }

  /** The cut and the imbalance of `wh` are better than `best` and `mindiff`, within the slack. */
  ghost predicate Improves(g: Valid, wh: seq<int>, best: int, mindiff: nat, tp0: int, slack: int)
    requires Partition(g, wh)
  {
    var diff := Abs(tp0 - WeightOf(g, wh, 0));
    (Cut2(g, wh) < 2 * best && diff <= slack) || (Cut2(g, wh) == 2 * best && diff < mindiff)
  }

  /** Why the forward loop has stopped before all vertices were swapped: the heavy side has no boundary vertex left, or
      more than `limit` swaps, with the next one, have not improved on the best prefix. */
  ghost predicate Exhausted(g: Valid, wh: seq<int>, swaps: seq<nat>, keep: nat, best: int, mindiff: nat, tp0: int, tp1: int, limit: int, slack: int)
    requires Partition(g, wh)
  {
    || NoneFree(g, wh, swaps, HeavySide(g, wh, tp0, tp1), -1, true)
    || (|swaps| + 1 - keep > limit && exists v: nat ::
          Tops(g, wh, swaps, HeavySide(g, wh, tp0, tp1), -1, true, v) && !Improves(g, Flip(wh, v), best, mindiff, tp0, slack))
  }

  class Bisector {
    const g: Valid
    const where: array<int>
    const id: array<int>
    const ed: array<int>
    const bndptr: array<int>
    const bndind: array<int>
    const moved: array<int>
    var nbnd: nat
    /** pwgts[0] and pwgts[1]. */
    var pwgt0: int
    var pwgt1: int
    var mincut: int
    /** The two priority queues, from vertex to key. */
    var queue0: map<nat, int>
    var queue1: map<nat, int>

    constructor (g: Valid, where: array<int>, id: array<int>, ed: array<int>, bndptr: array<int>, bndind: array<int>,
                 moved: array<int>, nbnd: nat, pwgt0: int, pwgt1: int, mincut: int)
      ensures this.g == g && this.where == where && this.id == id && this.ed == ed
      ensures this.bndptr == bndptr && this.bndind == bndind && this.moved == moved && this.nbnd == nbnd
      ensures this.pwgt0 == pwgt0 && this.pwgt1 == pwgt1 && this.mincut == mincut && queue0 == queue1 == map[]
    {
      this.g, this.where, this.id, this.ed := g, where, id, ed;
      this.bndptr, this.bndind, this.moved, this.nbnd := bndptr, bndind, moved, nbnd;
      this.pwgt0, this.pwgt1, this.mincut, queue0, queue1 := pwgt0, pwgt1, mincut, map[], map[];
    }

    ghost predicate Shape()
    {
      && where.Length == id.Length == ed.Length == bndptr.Length == bndind.Length == moved.Length == Size(g)
      && where != id && where != ed && where != bndptr && where != bndind && where != moved
      && id != ed && id != bndptr && id != bndind && id != moved
      && ed != bndptr && ed != bndind && ed != moved
      && bndptr != bndind && bndptr != moved && bndind != moved
    }

    // ----- The boundary list

    ghost predicate Listed()
      requires Shape()
      reads this`nbnd, bndptr, bndind
    {
      Boundary.Listed(nbnd, bndind, bndptr)
    }

    // ----- Flipping one vertex

    /** The boundary is exactly the vertices with an edge to the other side, and the islands. */
    ghost predicate Exact()
      requires Shape()
      reads this`nbnd, bndptr, bndind, ed
    {
      Listed() && forall u: nat :: u < Size(g) ==> (bndptr[u] != -1 <==> ed[u] > 0 || Isolated(g, u))
    }

    ghost predicate Degrees(wh: seq<int>)
      requires Shape() && Partition(g, wh)
      reads id, ed
    {
      forall u: nat :: u < Size(g) ==> DegreesOk(g, wh, u, id[u], ed[u])
    }

    ghost function Keyed(s: int): map<nat, int>
      reads this`queue0, this`queue1
    {
      if s == 0 then queue0 else queue1
    }

    /** INC_DEC on a neighbour of the flipped vertex, and its place in the boundary. */
    method Touch(k: nat, kwgt: int)
      requires Shape() && Exact() && k < Size(g) && !Isolated(g, k) && ed[k] - kwgt >= 0
      modifies id, ed, this`nbnd, bndptr, bndind
      ensures Exact() && id[k] == old(id[k]) + kwgt && ed[k] == old(ed[k]) - kwgt
      ensures forall u :: 0 <= u < Size(g) && u != k ==>
        id[u] == old(id[u]) && ed[u] == old(ed[u]) && (bndptr[u] == -1 <==> old(bndptr[u]) == -1)
    {
      id[k] := id[k] + kwgt;
      ed[k] := ed[k] - kwgt;
      if bndptr[k] != -1 && ed[k] == 0 {
        nbnd := Boundary.BndDelete(nbnd, bndind, bndptr, k);
      } else if bndptr[k] == -1 && ed[k] > 0 {
        nbnd := Boundary.BndInsert(nbnd, bndind, bndptr, k);
      }
    }

    /** `where`, the two weights, and the place in the boundary of the flipped vertex itself. */
    method FlipSelf(v: nat)
      requires Shape() && Exact() && v < Size(g) && id[v] >= 0 && (Isolated(g, v) ==> id[v] == 0)
      modifies where, id, ed, this`nbnd, bndptr, bndind
      ensures where[..] == Flip(old(where[..]), v)
      ensures Exact() && id[v] == old(ed[v]) && ed[v] == old(id[v])
      ensures forall u :: 0 <= u < Size(g) && u != v ==>
        id[u] == old(id[u]) && ed[u] == old(ed[u]) && (bndptr[u] == -1 <==> old(bndptr[u]) == -1)
    {
      where[v] := 1 - where[v];
      var tmp := id[v];
      id[v] := ed[v];
      ed[v] := tmp;
      if ed[v] == 0 && bndptr[v] != -1 && g.xadj[v] < g.xadj[v + 1] {
        nbnd := Boundary.BndDelete(nbnd, bndind, bndptr, v);
      } else if ed[v] > 0 && bndptr[v] == -1 {
        nbnd := Boundary.BndInsert(nbnd, bndind, bndptr, v);
      }
    }

    /** Degrees midway through the neighbours of the flipped vertex: those listed before slot `j` are done. */
    ghost predicate Midway(before: seq<int>, v: nat, j: int)
      requires Shape() && TwoWay(g, before) && v < Size(g)
      reads id, ed
    {
      forall u: nat :: u < Size(g) ==>
        DegreesOk(g, if u == v || Seen(g, v, j, u) then Flip(before, v) else before, u, id[u], ed[u])
    }

    lemma MidwayEnd(before: seq<int>, v: nat)
      requires Shape() && TwoWay(g, before) && v < Size(g) && Midway(before, v, g.xadj[v + 1])
      ensures Degrees(Flip(before, v))
    {
      forall u: nat | u < Size(g) ensures DegreesOk(g, Flip(before, v), u, id[u], ed[u]) {
        SeenEnds(g, v, u);
        WSymmetric(g, v, u);
        if u != v && !Adjacent(g, v, u) {
          FlipOther(g, before, v, u, id[u], ed[u]);
        }
      }
    }

    /** One slot of the flipped vertex. */
    method TouchSlot(ghost before: seq<int>, v: nat, j: nat)
      requires Shape() && Exact() && TwoWay(g, before) && v < Size(g) && Slot(g, v, j)
      requires where[..] == Flip(before, v) && Midway(before, v, j)
      modifies id, ed, this`nbnd, bndptr, bndind
      ensures Exact() && Midway(before, v, j + 1)
      ensures forall u: nat :: u < Size(g) && u != g.adjncy[j] ==>
        id[u] == old(id[u]) && ed[u] == old(ed[u]) && (bndptr[u] == -1 <==> old(bndptr[u]) == -1)
    {
      SlotWeight(g, v, j);
      var k := g.adjncy[j];
      SeenStep(g, v, j, k);
      FlipOther(g, before, v, k, id[k], ed[k]);
      ExtSign(g, Flip(before, v), k, Size(g));
      NotIsolated(v, k);
      var kwgt := if where[v] == where[k] then g.adjwgt[j] else -g.adjwgt[j];
      Touch(k, kwgt);
      forall u: nat | u < Size(g)
        ensures DegreesOk(g, if u == v || Seen(g, v, j + 1, u) then Flip(before, v) else before, u, id[u], ed[u])
      {
        SeenStep(g, v, j, u);
      }
    }

    lemma NotIsolated(v: nat, k: nat)
      requires v < Size(g) && k < Size(g) && Adjacent(g, v, k)
      ensures !Isolated(g, k)
    {
      WSymmetric(g, v, k);
      var s :| Lists(g, k, s, v);
    }

    /** Flip `v` without touching the queues, as the rollback does. */
    method FlipVertex(v: nat)
      requires Shape() && Exact() && v < Size(g) && TwoWay(g, where[..]) && Degrees(where[..])
      modifies where, id, ed, this`nbnd, bndptr, bndind
      ensures where[..] == Flip(old(where[..]), v) && TwoWay(g, where[..])
      ensures Exact() && Degrees(where[..])
    {
      ghost var before := where[..];
      OwnSigns(v);
      FlipOwn(g, before, v, id[v], ed[v]);
      FlipSelf(v);
      MidwayStart(before, v);
      for j := g.xadj[v] to g.xadj[v + 1]
        invariant where[..] == Flip(before, v) && Exact() && Midway(before, v, j)
      {
        TouchSlot(before, v, j);
      }
      MidwayEnd(before, v);
    }

    lemma OwnSigns(v: nat)
      requires Shape() && v < Size(g) && TwoWay(g, where[..]) && DegreesOk(g, where[..], v, id[v], ed[v])
      ensures id[v] >= 0 && ed[v] >= 0 && (Isolated(g, v) ==> id[v] == 0)
    {
      DegSign(g, where[..], v, where[v], Size(g));
      ExtSign(g, where[..], v, Size(g));
    }

    lemma MidwayStart(before: seq<int>, v: nat)
      requires Shape() && TwoWay(g, before) && v < Size(g) && DegreesOk(g, Flip(before, v), v, id[v], ed[v])
      requires forall u: nat :: u < Size(g) && u != v ==> DegreesOk(g, before, u, id[u], ed[u])
      ensures Midway(before, v, g.xadj[v])
    {
      forall u: nat | u < Size(g)
        ensures DegreesOk(g, if u == v || Seen(g, v, g.xadj[v], u) then Flip(before, v) else before, u, id[u], ed[u])
      {
        SeenEnds(g, v, u);
      }
    }

    // ----- The queues of FM

    /** The queue of side `s` holds exactly its unmoved boundary vertices, keyed by the gain of moving them;
        `except` names a vertex whose entry is being brought up to date. */
    ghost predicate SideQueued(s: int, except: int)
      requires Shape()
      reads this`queue0, this`queue1, where, moved, bndptr, id, ed
    {
      forall u: nat :: u != except ==>
        && (u in Keyed(s) <==> u < Size(g) && where[u] == s && moved[u] == -1 && bndptr[u] != -1)
        && (u in Keyed(s) && u < Size(g) ==> Keyed(s)[u] == ed[u] - id[u])
    }

    ghost predicate Queued(except: int)
      requires Shape()
      reads this`queue0, this`queue1, where, moved, bndptr, id, ed
    {
      SideQueued(0, except) && SideQueued(1, except)
    }

    method PutKey(s: int, u: nat, key: int)
      modifies this`queue0, this`queue1
      ensures Keyed(s) == old(Keyed(s))[u := key]
      ensures forall t :: (t == 0) != (s == 0) ==> Keyed(t) == old(Keyed(t))
    {
      if s == 0 { queue0 := queue0[u := key]; } else { queue1 := queue1[u := key]; }
    }

    method RemoveKey(s: int, u: nat)
      modifies this`queue0, this`queue1
      ensures Keyed(s) == old(Keyed(s)) - {u}
      ensures forall t :: (t == 0) != (s == 0) ==> Keyed(t) == old(Keyed(t))
    {
      if s == 0 { queue0 := queue0 - {u}; } else { queue1 := queue1 - {u}; }
    }

    /** PQueueGetMax: remove and return a vertex with the largest key, or -1. */
    method GetMax(s: int) returns (v: int)
      modifies this`queue0, this`queue1
      ensures v == -1 ==> old(Keyed(s)) == map[] && Keyed(s) == map[]
      ensures v != -1 ==> v >= 0 && v in old(Keyed(s)) && (forall u <- old(Keyed(s)) :: old(Keyed(s))[u] <= old(Keyed(s))[v])
      ensures v >= 0 ==> Keyed(s) == old(Keyed(s)) - {v}
      ensures v >= -1 && forall t :: (t == 0) != (s == 0) ==> Keyed(t) == old(Keyed(t))
    {
      var q;
      if s == 0 {
        v, q := PriorityQueue.GetMax(queue0);
        queue0 := q;
      } else {
        v, q := PriorityQueue.GetMax(queue1);
        queue1 := q;
      }
    }

    /** Bring the queue entry of an unmoved vertex up to date: insert, update or delete. */
    method Sync(k: nat)
      requires Shape() && k < Size(g) && 0 <= where[k] <= 1
      requires Queued(k)
      requires k !in Keyed(1 - where[k]) && (moved[k] != -1 ==> k !in Keyed(where[k]))
      modifies this`queue0, this`queue1
      ensures Queued(-1)
    {
      if moved[k] == -1 {
        if bndptr[k] != -1 {
          PutKey(where[k], k, ed[k] - id[k]);
        } else {
          RemoveKey(where[k], k);
        }
      }
    }

    /** Mark and flip a vertex that was just taken from its queue, before its neighbours are updated. */
    method StartMove(v: nat, order: nat)
      requires Shape() && Exact() && v < Size(g) && TwoWay(g, where[..]) && Degrees(where[..])
      requires v !in queue0 && v !in queue1 && Queued(v)
      modifies where, id, ed, this`nbnd, bndptr, bndind, moved
      ensures where[..] == Flip(old(where[..]), v) && TwoWay(g, where[..])
      ensures Exact() && Midway(old(where[..]), v, g.xadj[v]) && Queued(-1)
      ensures moved[..] == old(moved[..])[v := order]
    {
      ghost var before := where[..];
      OwnSigns(v);
      FlipOwn(g, before, v, id[v], ed[v]);
      moved[v] := order;
      FlipSelf(v);
      assert where[v] == Flip(before, v)[v];
      assert forall u :: 0 <= u < Size(g) && u != v ==> where[u] == before[u] by {
        assert forall u :: 0 <= u < Size(g) ==> where[u] == where[..][u];
      }
      MidwayStart(before, v);
    }

    /** Flip a vertex that was just taken from its queue. */
    method MoveVertex(v: nat, order: nat)
      requires Shape() && Exact() && v < Size(g) && TwoWay(g, where[..]) && Degrees(where[..])
      requires v !in queue0 && v !in queue1 && Queued(v)
      modifies where, id, ed, this`nbnd, bndptr, bndind, moved, this`queue0, this`queue1
      ensures where[..] == Flip(old(where[..]), v) && TwoWay(g, where[..])
      ensures Exact() && Degrees(where[..]) && Queued(-1)
      ensures moved[..] == old(moved[..])[v := order]
    {
      ghost var before := where[..];
      StartMove(v, order);
      for j := g.xadj[v] to g.xadj[v + 1]
        invariant where[..] == Flip(before, v) && Exact() && Midway(before, v, j) && Queued(-1)
        invariant moved[..] == old(moved[..])[v := order]
      {
        TouchAndSync(before, v, j);
      }
      MidwayEnd(before, v);
    }

    method TouchAndSync(ghost before: seq<int>, v: nat, j: nat)
      requires Shape() && Exact() && TwoWay(g, before) && v < Size(g) && Slot(g, v, j) && Queued(-1)
      requires where[..] == Flip(before, v) && Midway(before, v, j)
      modifies id, ed, this`nbnd, bndptr, bndind, this`queue0, this`queue1
      ensures Exact() && Midway(before, v, j + 1) && Queued(-1)
    {
      SlotWeight(g, v, j);
      TouchSlot(before, v, j);
      var k := g.adjncy[j];
      assert where[k] == Flip(before, v)[k];
      Sync(k);
    }

    // ----- One pass of FM

    /** Between passes: all bookkeeping is exact. */
    ghost predicate Consistent()
      reads this`nbnd, this`pwgt0, this`pwgt1, this`mincut, where, id, ed, bndptr, bndind
    {
      && Shape() && TwoWay(g, where[..]) && Degrees(where[..]) && Exact() && Weighed()
      && 2 * mincut == Cut2(g, where[..])
    }

    ghost predicate Unmoved()
      reads moved
    {
      forall u :: 0 <= u < moved.Length ==> moved[u] == -1
    }

    /** idxset(nvtxs, -1, moved). */
    method ClearMoved()
      modifies moved
      ensures Unmoved()
    {
      for i := 0 to moved.Length
        invariant forall u :: 0 <= u < i ==> moved[u] == -1
      {
        moved[i] := -1;
      }
    }

    ghost predicate Weighed()
      requires Shape()
      reads this`pwgt0, this`pwgt1, where
    {
      pwgt0 == WeightOf(g, where[..], 0) && pwgt1 == WeightOf(g, where[..], 1)
    }

    /** INC_DEC(pwgts[to], pwgts[1 - to], w). */
    method ShiftWeight(to: int, w: int)
      requires 0 <= to <= 1
      modifies this`pwgt0, this`pwgt1
      ensures pwgt0 == old(pwgt0) + (if to == 0 then w else -w) && pwgt1 == old(pwgt1) + (if to == 1 then w else -w)
    {
      if to == 0 { pwgt0, pwgt1 := pwgt0 + w, pwgt1 - w; } else { pwgt0, pwgt1 := pwgt0 - w, pwgt1 + w; }
    }

    /** The first `i` boundary vertices are in the queues. */
    ghost predicate Filled(s: int, i: nat)
      requires Shape()
      reads this`queue0, this`queue1, where, bndptr, id, ed
    {
      forall u: nat ::
        && (u in Keyed(s) <==> u < Size(g) && where[u] == s && 0 <= bndptr[u] < i)
        && (u in Keyed(s) && u < Size(g) ==> Keyed(s)[u] == ed[u] - id[u])
    }

    /** Put every boundary vertex into the queue of its side. */
    method FillQueues()
      requires Shape() && Listed() && TwoWay(g, where[..]) && Unmoved()
      modifies this`queue0, this`queue1
      ensures Queued(-1)
    {
      queue0, queue1 := map[], map[];
      Boundary.PointerRange(nbnd, bndind, bndptr);
      for i := 0 to nbnd
        invariant Filled(0, i) && Filled(1, i)
      {
        Boundary.ListedAt(nbnd, bndind, bndptr, i);
        assert where[bndind[i]] == where[..][bndind[i]];
        FillOne(i, bndind[i]);
      }
    }

    method FillOne(i: nat, v: nat)
      requires Shape() && v < Size(g) && 0 <= where[v] <= 1 && Filled(0, i) && Filled(1, i)
      requires bndptr[v] == i && forall u :: 0 <= u < Size(g) && bndptr[u] == i ==> u == v
      modifies this`queue0, this`queue1
      ensures Filled(0, i + 1) && Filled(1, i + 1)
    {
      PutKey(where[v], v, ed[v] - id[v]);
    }

    method ResetMoved(swaps: seq<nat>)
      requires Shape() && forall u: nat :: u < Size(g) && moved[u] != -1 ==> u in swaps
      requires forall v <- swaps :: v < Size(g)
      modifies moved
      ensures Unmoved()
    {
      for i := 0 to |swaps|
        invariant forall u: nat :: u < Size(g) && moved[u] != -1 ==> u in swaps[i..]
      {
        assert swaps[i] in swaps && swaps[i..] == [swaps[i]] + swaps[i + 1..];
        moved[swaps[i]] := -1;
      }
    }

    /** Undo the flips after the best prefix. */
    method Rollback(swaps: seq<nat>, keep: nat, ghost hist: seq<seq<int>>)
      requires Shape() && Exact() && TwoWay(g, where[..]) && Degrees(where[..]) && Weighed()
      requires History(g, hist, swaps) && hist[|swaps|] == where[..] && keep <= |swaps|
      modifies where, id, ed, this`nbnd, bndptr, bndind, this`pwgt0, this`pwgt1
      ensures Exact() && TwoWay(g, where[..]) && Degrees(where[..]) && Weighed()
      ensures where[..] == hist[keep]
    {
      var rest := swaps;
      ghost var h := hist;
      while |rest| > keep
        invariant keep <= |rest| <= |swaps| && h == hist[..|rest| + 1]
        invariant History(g, h, rest) && h[|rest|] == where[..]
        invariant Exact() && TwoWay(g, where[..]) && Degrees(where[..]) && Weighed()
      {
        var v := rest[|rest| - 1];
        HistoryPop(g, h, rest);
        FlipCut(g, where[..], v, id[v], ed[v]);
        assert where[v] == where[..][v];
        var to := 1 - where[v];
        FlipVertex(v);
        ShiftWeight(to, g.vwgt[v]);
        rest, h := rest[..|rest| - 1], h[..|h| - 1];
      }
    }

    /** The best prefix so far: `keep` flips give cut `best` and imbalance `diff`; it is no worse than the start,
        in the lexicographic order of cut and imbalance, and its imbalance is within `slack`. */
    ghost predicate BestSoFar(hist: seq<seq<int>>, keep: nat, best: int, diff: nat, tp0: int, slack: int, initcut: int, initdiff: nat)
    {
      && keep < |hist| && Partition(g, hist[keep])
      && 2 * best == Cut2(g, hist[keep]) && diff == Abs(tp0 - WeightOf(g, hist[keep], 0))
      && (best < initcut || (best == initcut && diff <= initdiff))
      && diff <= slack
    }

    /** Prefix `t`, if its imbalance is within `slack`, is no better than cut `best` with imbalance `diff`. */
    ghost predicate NoBetter(hist: seq<seq<int>>, t: nat, best: int, diff: nat, tp0: int, slack: int)
      requires t < |hist|
    {
      && Partition(g, hist[t])
      && var d := Abs(tp0 - WeightOf(g, hist[t], 0));
      && (d <= slack ==> 2 * best < Cut2(g, hist[t]) || (2 * best == Cut2(g, hist[t]) && diff <= d))
    }

    /** No prefix within `slack` is better than the remembered one. */
    ghost predicate BestOfAll(hist: seq<seq<int>>, best: int, diff: nat, tp0: int, slack: int)
    {
      forall t: nat :: t < |hist| ==> NoBetter(hist, t, best, diff, tp0, slack)
    }

    lemma BestOfAllPush(hist: seq<seq<int>>, wh: seq<int>, best: int, diff: nat, best': int, diff': nat, tp0: int, slack: int)
      requires BestOfAll(hist, best, diff, tp0, slack) && (best' < best || (best' == best && diff' <= diff))
      requires NoBetter([wh], 0, best', diff', tp0, slack)
      ensures BestOfAll(hist + [wh], best', diff', tp0, slack)
    {
      var hist' := hist + [wh];
      forall t: nat | t < |hist'| ensures NoBetter(hist', t, best', diff', tp0, slack) {
        if t < |hist| {
          assert NoBetter(hist, t, best, diff, tp0, slack);
        }
      }
    }

    /** One more flip, giving cut `cut` and imbalance `diff`, is remembered if it is better. */
    lemma BestPush(hist: seq<seq<int>>, wh: seq<int>, cut: int, diff: nat, keep: nat, best: int, mindiff: nat,
                   keep': nat, best': int, mindiff': nat, tp0: int, slack: int, initcut: int, initdiff: nat)
      requires BestSoFar(hist, keep, best, mindiff, tp0, slack, initcut, initdiff) && BestOfAll(hist, best, mindiff, tp0, slack)
      requires Partition(g, wh) && 2 * cut == Cut2(g, wh) && diff == Abs(tp0 - WeightOf(g, wh, 0))
      requires if (cut < best && diff <= slack) || (cut == best && diff < mindiff)
               then keep' == |hist| && best' == cut && mindiff' == diff
               else keep' == keep && best' == best && mindiff' == mindiff
      ensures BestSoFar(hist + [wh], keep', best', mindiff', tp0, slack, initcut, initdiff)
      ensures BestOfAll(hist + [wh], best', mindiff', tp0, slack)
    {
      BestOfAllPush(hist, wh, best, mindiff, best', mindiff', tp0, slack);
    }

    /** The state of the forward loop. */
    ghost predicate Climbing(hist: seq<seq<int>>, swaps: seq<nat>, newcut: int)
      reads this`nbnd, this`pwgt0, this`pwgt1, where, id, ed, bndptr, bndind, moved
    {
      && Shape() && TwoWay(g, where[..]) && Degrees(where[..]) && Exact() && Weighed()
      && History(g, hist, swaps) && hist[|swaps|] == where[..] && 2 * newcut == Cut2(g, where[..])
      && (forall u: nat :: u < Size(g) ==> (moved[u] != -1 <==> u in swaps))
    }

    /** Take the best vertex of side `from` from its queue. */
    method Pick(from: int) returns (v: int)
      requires Shape() && Queued(-1) && 0 <= from <= 1
      modifies this`queue0, this`queue1
      ensures v != -1 ==> 0 <= v < Size(g) && where[v] == from && v !in queue0 && v !in queue1 && Queued(v)
      ensures v != -1 ==> moved[v] == -1 && bndptr[v] != -1
      ensures forall u: nat :: u < Size(g) && where[u] == from && moved[u] == -1 && bndptr[u] != -1 ==>
        0 <= v < Size(g) && ed[u] - id[u] <= ed[v] - id[v]
    {
      assert SideQueued(from, -1) && SideQueued(1 - from, -1);
      v := GetMax(from);
    }

    /** `u` may be taken, by the bookkeeping. */
    ghost predicate Takeable(u: nat, from: int, cap: int, bndOnly: bool)
      requires Shape() && u < Size(g)
      reads where, moved, bndptr
    {
      where[u] == from && moved[u] == -1 && (cap >= 0 ==> g.vwgt[u] <= cap) && (bndOnly ==> bndptr[u] != -1)
    }

    /** What was picked has the largest gain of what may be taken; if nothing was, there is nothing. */
    lemma PickIsBest(swaps: seq<nat>, from: int, cap: int, bndOnly: bool, v: int)
      requires Shape() && TwoWay(g, where[..]) && Degrees(where[..]) && Exact()
      requires forall u: nat :: u < Size(g) ==> (moved[u] != -1 <==> u in swaps)
      requires v != -1 ==> 0 <= v < Size(g) && Takeable(v, from, cap, bndOnly)
      requires forall u: nat :: u < Size(g) && Takeable(u, from, cap, bndOnly) ==> 0 <= v < Size(g) && ed[u] - id[u] <= ed[v] - id[v]
      ensures if v == -1 then NoneFree(g, where[..], swaps, from, cap, bndOnly) else Tops(g, where[..], swaps, from, cap, bndOnly, v)
    {
      var wh := where[..];
      forall u: nat | u < Size(g)
        ensures (Free(g, wh, swaps, from, cap, bndOnly, u) <==> Takeable(u, from, cap, bndOnly))
        ensures Gain(g, wh, u) == ed[u] - id[u]
      {
        assert DegreesOk(g, wh, u, id[u], ed[u]);
      }
    }

    /** Account for moving `v` away from side `from`; the partition follows in `Advance`. */
    method Account(v: nat, from: int, newcut: int) returns (cut: int)
      requires Shape() && TwoWay(g, where[..]) && Degrees(where[..]) && Weighed() && v < Size(g) && where[v] == from
      requires 2 * newcut == Cut2(g, where[..])
      modifies this`pwgt0, this`pwgt1
      ensures 2 * cut == Cut2(g, Flip(where[..], v)) && cut == newcut - (ed[v] - id[v])
      ensures pwgt0 == WeightOf(g, Flip(where[..], v), 0) && pwgt1 == WeightOf(g, Flip(where[..], v), 1)
      ensures pwgt0 == old(pwgt0) + (if from == 1 then g.vwgt[v] else -g.vwgt[v])
      ensures pwgt1 == old(pwgt1) + (if from == 0 then g.vwgt[v] else -g.vwgt[v])
    {
      FlipCut(g, where[..], v, id[v], ed[v]);
      assert where[v] == where[..][v];
      cut := newcut - (ed[v] - id[v]);
      ShiftWeight(1 - from, g.vwgt[v]);
    }

    /** The move of `v` has been accounted for, with cut `cut`, but not been made yet. */
    ghost predicate Probed(hist: seq<seq<int>>, swaps: seq<nat>, v: nat, cut: int)
      reads this`nbnd, this`pwgt0, this`pwgt1, where, id, ed, bndptr, bndind, moved, this`queue0, this`queue1
    {
      && Shape() && TwoWay(g, where[..]) && Degrees(where[..]) && Exact() && v < Size(g)
      && pwgt0 == WeightOf(g, Flip(where[..], v), 0) && pwgt1 == WeightOf(g, Flip(where[..], v), 1)
      && History(g, hist, swaps) && hist[|swaps|] == where[..] && 2 * cut == Cut2(g, Flip(where[..], v))
      && (forall u: nat :: u < Size(g) ==> (moved[u] != -1 <==> u in swaps))
      && v !in queue0 && v !in queue1 && Queued(v)
    }

    /** Take the next vertex, and account for moving it. */
    method Probe(ghost hist: seq<seq<int>>, swaps: seq<nat>, newcut: int, tp0: int, tp1: int) returns (higain: int, cut: int)
      requires Climbing(hist, swaps, newcut) && Queued(-1)
      modifies this`queue0, this`queue1, this`pwgt0, this`pwgt1
      ensures higain == -1 ==> Climbing(hist, swaps, newcut) && NoneFree(g, where[..], swaps, HeavySide(g, where[..], tp0, tp1), -1, true)
      ensures higain != -1 ==> higain >= 0 && Probed(hist, swaps, higain, cut)
      ensures higain != -1 ==> Tops(g, where[..], swaps, HeavySide(g, where[..], tp0, tp1), -1, true, higain)
    {
      var from := if tp0 - pwgt0 < tp1 - pwgt1 then 0 else 1;
      higain := Pick(from);
      PickIsBest(swaps, from, -1, true, higain);
      if higain == -1 { return higain, newcut; }
      cut := Account(higain, from, newcut);
    }

    /** Take back the account. */
    method Undo(ghost hist: seq<seq<int>>, ghost swaps: seq<nat>, v: nat, cut: int) returns (newcut: int)
      requires Probed(hist, swaps, v, cut)
      modifies this`pwgt0, this`pwgt1
      ensures Climbing(hist, swaps, newcut)
    {
      FlipCut(g, where[..], v, id[v], ed[v]);
      assert where[v] == where[..][v];
      newcut := cut + (ed[v] - id[v]);
      ShiftWeight(where[v], g.vwgt[v]);
    }

    method Advance(v: nat, swaps: seq<nat>, newcut: int, ghost hist: seq<seq<int>>)
      requires Probed(hist, swaps, v, newcut)
      modifies where, id, ed, this`nbnd, bndptr, bndind, moved, this`queue0, this`queue1
      ensures Climbing(hist + [Flip(old(where[..]), v)], swaps + [v], newcut) && Queued(-1)
    {
      ghost var was := moved[..];
      assert forall u: nat :: u < Size(g) ==> was[u] == moved[u];
      MoveVertex(v, |swaps|);
      HistoryPush(g, hist, swaps, v);
      forall u: nat | u < Size(g) ensures moved[u] != -1 <==> u in swaps + [v] {
        assert moved[u] == moved[..][u];
      }
    }

    /** What the forward loop has done so far: greedy swaps, of which the first `keep` are the best prefix; since then at most
        `limit` swaps. */
    ghost predicate Record(hist: seq<seq<int>>, swaps: seq<nat>, keep: nat, best: int, mindiff: nat,
                           tp0: int, tp1: int, limit: int, slack: int, initcut: int, initdiff: nat)
    {
      && History(g, hist, swaps) && Greedy(g, hist, swaps, tp0, tp1)
      && BestSoFar(hist, keep, best, mindiff, tp0, slack, initcut, initdiff) && BestOfAll(hist, best, mindiff, tp0, slack)
      && keep <= |swaps| && (|swaps| == keep || |swaps| <= keep + limit) && (keep == 0 ==> best == initcut)
    }

    /** One more swap, which improves on the best prefix or is within the limit. */
    lemma RecordPush(hist: seq<seq<int>>, swaps: seq<nat>, keep: nat, best: int, mindiff: nat, v: nat, keep': nat, best': int, mindiff': nat,
                     tp0: int, tp1: int, limit: int, slack: int, initcut: int, initdiff: nat)
      requires Record(hist, swaps, keep, best, mindiff, tp0, tp1, limit, slack, initcut, initdiff)
      requires Tops(g, hist[|swaps|], swaps, HeavySide(g, hist[|swaps|], tp0, tp1), -1, true, v)
      requires Partition(g, Flip(hist[|swaps|], v))
      requires var wh := Flip(hist[|swaps|], v);
        if Improves(g, wh, best, mindiff, tp0, slack)
        then keep' == |swaps| + 1 && 2 * best' == Cut2(g, wh) && mindiff' == Abs(tp0 - WeightOf(g, wh, 0))
        else keep' == keep && best' == best && mindiff' == mindiff && |swaps| + 1 - keep <= limit
      ensures Record(hist + [Flip(hist[|swaps|], v)], swaps + [v], keep', best', mindiff', tp0, tp1, limit, slack, initcut, initdiff)
    {
      var wh := Flip(hist[|swaps|], v);
      CutIsEven(g, wh);
      HistoryPush(g, hist, swaps, v);
      GreedyPush(g, hist, swaps, tp0, tp1, wh, v);
      BestPush(hist, wh, Cut2(g, wh) / 2, Abs(tp0 - WeightOf(g, wh, 0)), keep, best, mindiff, keep', best', mindiff', tp0, slack, initcut, initdiff);
    }

    /** One iteration of the forward loop of a pass. */
    method ClimbStep(tp0: int, tp1: int, limit: int, slack: int, swaps: seq<nat>, best: int, mindiff: nat, keep: nat,
                     newcut: int, ghost hist: seq<seq<int>>, ghost initcut: int, ghost initdiff: nat)
      returns (stop: bool, swaps': seq<nat>, best': int, mindiff': nat, keep': nat, newcut': int, ghost hist': seq<seq<int>>)
      requires Climbing(hist, swaps, newcut) && Queued(-1)
      requires Record(hist, swaps, keep, best, mindiff, tp0, tp1, limit, slack, initcut, initdiff)
      modifies where, id, ed, this`nbnd, bndptr, bndind, moved, this`queue0, this`queue1, this`pwgt0, this`pwgt1
      ensures Climbing(hist', swaps', newcut') && (!stop ==> Queued(-1)) && hist'[0] == hist[0]
      ensures Record(hist', swaps', keep', best', mindiff', tp0, tp1, limit, slack, initcut, initdiff)
      ensures if stop then Exhausted(g, where[..], swaps', keep', best', mindiff', tp0, tp1, limit, slack) else |swaps'| == |swaps| + 1
    {
      stop, swaps', best', mindiff', keep', newcut', hist' := true, swaps, best, mindiff, keep, newcut, hist;
      var higain;
      higain, newcut' := Probe(hist, swaps, newcut, tp0, tp1);
      if higain == -1 {
        newcut' := newcut;
        return;
      }
      var diff := Abs(tp0 - pwgt0);
      if (newcut' < best && diff <= slack) || (newcut' == best && diff < mindiff) {
        best', mindiff', keep' := newcut', diff, |swaps| + 1;
      } else if |swaps| - (keep - 1) > limit {
        assert !Improves(g, Flip(where[..], higain), best, mindiff, tp0, slack);
        newcut' := Undo(hist, swaps, higain, newcut');
        return;
      }
      RecordPush(hist, swaps, keep, best, mindiff, higain, keep', best', mindiff', tp0, tp1, limit, slack, initcut, initdiff);
      hist' := hist + [Flip(where[..], higain)];
      swaps' := swaps + [higain];
      stop := false;
      Advance(higain, swaps, newcut', hist);
    }

    /** The forward loop of a pass: moves vertices of the heavier side, best gain first, and remembers the best
        prefix, which no other prefix within `slack` beats; gives up when `limit` moves in a row have not improved on it. */
    method Climb(tp0: int, tp1: int, limit: int, slack: int)
      returns (swaps: seq<nat>, best: int, mindiff: nat, keep: nat, newcut: int, ghost hist: seq<seq<int>>)
      requires Consistent() && Unmoved() && Abs(tp0 - pwgt0) <= slack
      modifies where, id, ed, this`nbnd, bndptr, bndind, moved, this`queue0, this`queue1, this`pwgt0, this`pwgt1
      ensures Climbing(hist, swaps, newcut) && hist[0] == old(where[..])
      ensures Record(hist, swaps, keep, best, mindiff, tp0, tp1, limit, slack, old(mincut), old(Abs(tp0 - pwgt0)))
      ensures |swaps| >= Size(g) || Exhausted(g, where[..], swaps, keep, best, mindiff, tp0, tp1, limit, slack)
    {
      FillQueues();
      swaps, best, keep, mindiff, newcut := [], mincut, 0, Abs(tp0 - pwgt0), mincut;
      hist := [where[..]];
      var stop := false;
      while |swaps| < Size(g) && !stop
        invariant Climbing(hist, swaps, newcut) && (!stop ==> Queued(-1)) && hist[0] == old(where[..])
        invariant Record(hist, swaps, keep, best, mindiff, tp0, tp1, limit, slack, old(mincut), old(Abs(tp0 - pwgt0)))
        invariant stop ==> Exhausted(g, where[..], swaps, keep, best, mindiff, tp0, tp1, limit, slack)
        decreases if stop then 0 else Size(g) - |swaps|
      {
        stop, swaps, best, mindiff, keep, newcut, hist := ClimbStep(tp0, tp1, limit, slack, swaps, best, mindiff, keep,
          newcut, hist, old(mincut), old(Abs(tp0 - pwgt0)));
      }
    }

    /** A pass from one partition to another: greedy swaps until the loop had to stop, and back to the best prefix. */
    ghost predicate PassRule(before: seq<int>, after: seq<int>, tp0: int, tp1: int, limit: int, slack: int)
    {
      exists hist, swaps, keep: nat, best, mindiff: nat, initcut, initdiff: nat ::
        && Record(hist, swaps, keep, best, mindiff, tp0, tp1, limit, slack, initcut, initdiff)
        && Ends(hist, swaps, keep, best, mindiff, before, after, tp0, tp1, limit, slack, initcut, initdiff)
    }

    ghost predicate Ends(hist: seq<seq<int>>, swaps: seq<nat>, keep: nat, best: int, mindiff: nat, before: seq<int>, after: seq<int>,
                         tp0: int, tp1: int, limit: int, slack: int, initcut: int, initdiff: nat)
      requires Record(hist, swaps, keep, best, mindiff, tp0, tp1, limit, slack, initcut, initdiff)
    {
      && hist[0] == before && after == hist[keep] && 2 * initcut == Cut2(g, before) && initdiff == Abs(tp0 - WeightOf(g, before, 0))
      && (|swaps| >= Size(g) || Exhausted(g, hist[|swaps|], swaps, keep, best, mindiff, tp0, tp1, limit, slack))
    }

    /** One pass: climb, then roll back to the best prefix. */
    method Pass(tp0: int, tp1: int, limit: int, slack: int) returns (improved: bool)
      requires Consistent() && Unmoved() && Abs(tp0 - pwgt0) <= slack
      modifies where, id, ed, this`nbnd, bndptr, bndind, moved, this`queue0, this`queue1, this`pwgt0, this`pwgt1, this`mincut
      ensures Consistent() && Unmoved() && Abs(tp0 - pwgt0) <= slack
      ensures mincut < old(mincut) || (mincut == old(mincut) && Abs(tp0 - pwgt0) <= old(Abs(tp0 - pwgt0)))
      ensures improved <==> mincut < old(mincut)
      ensures PassRule(old(where[..]), where[..], tp0, tp1, limit, slack)
    {
      var initcut := mincut;
      var swaps, best, mindiff, keep, newcut;
      ghost var hist;
      swaps, best, mindiff, keep, newcut, hist := Climb(tp0, tp1, limit, slack);
      ResetMoved(swaps);
      Rollback(swaps, keep, hist);
      mincut := best;
      improved := !(keep == 0 || best == initcut);
      assert Ends(hist, swaps, keep, best, mindiff, old(where[..]), where[..], tp0, tp1, limit, slack, old(mincut), old(Abs(tp0 - pwgt0)));
    }

    /** Pass follows pass, each from where the one before ended, and every one but perhaps the last lowered the cut. */
    ghost predicate Passes(parts: seq<seq<int>>, tp0: int, tp1: int, limit: int, slack: int)
    {
      && |parts| > 0 && (forall n :: 0 <= n < |parts| ==> Partition(g, parts[n]))
      && (forall n: nat :: n < |parts| - 1 ==> PassRule(parts[n], parts[n + 1], tp0, tp1, limit, slack))
      && (forall n: nat :: n < |parts| - 2 ==> Cut2(g, parts[n + 1]) < Cut2(g, parts[n]))
    }

    lemma PassesPush(parts: seq<seq<int>>, wh: seq<int>, tp0: int, tp1: int, limit: int, slack: int)
      requires Passes(parts, tp0, tp1, limit, slack) && Partition(g, wh)
      requires |parts| > 1 ==> Cut2(g, parts[|parts| - 1]) < Cut2(g, parts[|parts| - 2])
      requires PassRule(parts[|parts| - 1], wh, tp0, tp1, limit, slack)
      ensures Passes(parts + [wh], tp0, tp1, limit, slack)
    {
      var parts' := parts + [wh];
      forall n: nat | n < |parts'| - 1 ensures PassRule(parts'[n], parts'[n + 1], tp0, tp1, limit, slack) {
        if n < |parts| - 1 {
          assert PassRule(parts[n], parts[n + 1], tp0, tp1, limit, slack);
        }
      }
    }

    /**
     FM_2WayEdgeRefine. Every move, undone move and rollback step keeps the bookkeeping exact, so afterwards
     the cut on record is the cut of the partition; the pair of cut and imbalance is lexicographically no worse
     than before, and the imbalance is at most the original one plus `avgvwgt`. `parts` are the partitions between passes; it
     stops early only after a pass that did not lower the cut.
     */
    method FM2WayEdgeRefine(tp0: int, tp1: int, npasses: nat, limit: int, avgvwgt: nat) returns (ghost parts: seq<seq<int>>)
      requires Consistent()
      modifies where, id, ed, this`nbnd, bndptr, bndind, moved, this`queue0, this`queue1, this`pwgt0, this`pwgt1, this`mincut
      ensures Consistent()
      ensures mincut < old(mincut) || (mincut == old(mincut) && Abs(tp0 - pwgt0) <= old(Abs(tp0 - pwgt0)))
      ensures Abs(tp0 - pwgt0) <= old(Abs(tp0 - pwgt0)) + avgvwgt
      ensures Passes(parts, tp0, tp1, limit, old(Abs(tp0 - pwgt0)) + avgvwgt) && parts[0] == old(where[..]) && parts[|parts| - 1] == where[..]
      ensures |parts| <= npasses + 1
      ensures |parts| < npasses + 1 ==> |parts| > 1 && Cut2(g, parts[|parts| - 1]) == Cut2(g, parts[|parts| - 2])
    {
      var slack := Abs(tp0 - pwgt0) + avgvwgt;
      ClearMoved();
      parts := [where[..]];
      ghost var cut, imbalance := mincut, Abs(tp0 - pwgt0);
      for pass := 0 to npasses
        invariant Consistent() && Unmoved() && NotWorse(tp0, cut, imbalance, slack)
        invariant |parts| == pass + 1 && Passes(parts, tp0, tp1, limit, slack) && parts[0] == old(where[..]) && parts[pass] == where[..]
        invariant pass > 0 ==> Cut2(g, parts[pass]) < Cut2(g, parts[pass - 1])
      {
        var improved := NotedPass(tp0, tp1, limit, slack, parts, cut, imbalance);
        parts := parts + [where[..]];
        if !improved { break; }
      }
    }

    /** Cut and imbalance are, in this order, at most the given ones, and the imbalance is within the slack. */
    ghost predicate NotWorse(tp0: int, cut: int, imbalance: int, slack: int)
      reads this`mincut, this`pwgt0
    {
      Abs(tp0 - pwgt0) <= slack && (mincut < cut || (mincut == cut && Abs(tp0 - pwgt0) <= imbalance))
    }

    method NotedPass(tp0: int, tp1: int, limit: int, slack: int, ghost parts: seq<seq<int>>, ghost cut: int, ghost imbalance: int)
      returns (improved: bool)
      requires Consistent() && Unmoved() && NotWorse(tp0, cut, imbalance, slack)
      requires Passes(parts, tp0, tp1, limit, slack) && parts[|parts| - 1] == where[..]
      requires |parts| > 1 ==> Cut2(g, parts[|parts| - 1]) < Cut2(g, parts[|parts| - 2])
      modifies where, id, ed, this`nbnd, bndptr, bndind, moved, this`queue0, this`queue1, this`pwgt0, this`pwgt1, this`mincut
      ensures Consistent() && Unmoved() && NotWorse(tp0, cut, imbalance, slack)
      ensures Passes(parts + [where[..]], tp0, tp1, limit, slack)
      ensures if improved then Cut2(g, where[..]) < Cut2(g, parts[|parts| - 1]) else Cut2(g, where[..]) == Cut2(g, parts[|parts| - 1])
    {
      improved := Pass(tp0, tp1, limit, slack);
      PassesPush(parts, where[..], tp0, tp1, limit, slack);
    }

    // ----- The balancers

    /** The queue of a balancer holds what may be taken, keyed by the gain. */
    ghost predicate BalanceQueue(from: int, mindiff: nat, bndOnly: bool, except: int)
      requires Shape()
      reads this`queue0, where, moved, bndptr, id, ed
    {
      forall u: nat :: u != except ==>
        && (u in queue0 <==> u < Size(g) && Takeable(u, from, mindiff, bndOnly))
        && (u in queue0 && u < Size(g) ==> queue0[u] == ed[u] - id[u])
    }

    method FillBalanceQueue(from: int, mindiff: nat, bndOnly: bool)
      requires Shape() && Listed() && Unmoved()
      modifies this`queue0
      ensures BalanceQueue(from, mindiff, bndOnly, -1)
    {
      queue0 := map[];
      for u := 0 to Size(g)
        invariant forall w: nat ::
          && (w in queue0 <==> w < u && Takeable(w, from, mindiff, bndOnly))
          && (w in queue0 && w < Size(g) ==> queue0[w] == ed[w] - id[w])
      {
        if where[u] == from && g.vwgt[u] <= mindiff && (bndOnly ==> bndptr[u] != -1) {
          queue0 := queue0[u := ed[u] - id[u]];
        }
      }
    }

    method BalanceMove(v: nat, order: nat, from: int, mindiff: nat, bndOnly: bool)
      requires Shape() && Exact() && v < Size(g) && TwoWay(g, where[..]) && Degrees(where[..]) && v !in queue0
      requires BalanceQueue(from, mindiff, bndOnly, v)
      modifies where, id, ed, this`nbnd, bndptr, bndind, moved, this`queue0
      ensures where[..] == Flip(old(where[..]), v) && TwoWay(g, where[..])
      ensures Exact() && Degrees(where[..]) && BalanceQueue(from, mindiff, bndOnly, -1)
      ensures moved[..] == old(moved[..])[v := order]
    {
      ghost var before := where[..];
      OwnSigns(v);
      FlipOwn(g, before, v, id[v], ed[v]);
      moved[v] := order;
      FlipSelf(v);
      assert forall u :: 0 <= u < Size(g) && u != v ==> where[u] == before[u] by {
        assert forall u :: 0 <= u < Size(g) ==> where[u] == where[..][u];
      }
      MidwayStart(before, v);
      for j := g.xadj[v] to g.xadj[v + 1]
        invariant where[..] == Flip(before, v) && Exact() && Midway(before, v, j)
        invariant BalanceQueue(from, mindiff, bndOnly, -1) && moved[..] == old(moved[..])[v := order]
      {
        BalanceTouch(before, v, j, from, mindiff, bndOnly);
      }
      MidwayEnd(before, v);
    }

    method BalanceTouch(ghost before: seq<int>, v: nat, j: nat, from: int, mindiff: nat, bndOnly: bool)
      requires Shape() && Exact() && TwoWay(g, before) && v < Size(g) && Slot(g, v, j)
      requires where[..] == Flip(before, v) && Midway(before, v, j) && BalanceQueue(from, mindiff, bndOnly, -1)
      modifies id, ed, this`nbnd, bndptr, bndind, this`queue0
      ensures Exact() && Midway(before, v, j + 1) && BalanceQueue(from, mindiff, bndOnly, -1)
    {
      SlotWeight(g, v, j);
      TouchSlot(before, v, j);
      var k := g.adjncy[j];
      if moved[k] == -1 && where[k] == from && g.vwgt[k] <= mindiff {
        if bndOnly && bndptr[k] == -1 {
          queue0 := queue0 - {k};
        } else {
          queue0 := queue0[k := ed[k] - id[k]];
        }
      }
    }

    /** What a balancer promises about the weights, `start` being those of side 0 at the beginning: when the
        current and the target weights have equal totals, the receiving side never passes its target. */
    ghost predicate Approaches(tp0: int, tp1: int, start: int, total: int)
      reads this`pwgt0, this`pwgt1
    {
      && pwgt0 + pwgt1 == total
      && (total == tp0 + tp1 ==> if start < tp0 then start <= pwgt0 <= tp0 else tp0 <= pwgt0 <= start)
    }

    /** Take the best vertex from the queue of a balancer. */
    method PickBalance(from: int, mindiff: nat, bndOnly: bool) returns (v: int)
      requires Shape() && BalanceQueue(from, mindiff, bndOnly, -1)
      modifies this`queue0, this`queue1
      ensures v != -1 ==> 0 <= v < Size(g) && Takeable(v, from, mindiff, bndOnly) && v !in queue0 && BalanceQueue(from, mindiff, bndOnly, v)
      ensures forall u: nat :: u < Size(g) && Takeable(u, from, mindiff, bndOnly) ==> 0 <= v < Size(g) && ed[u] - id[u] <= ed[v] - id[v]
    {
      assert forall u: nat :: u < Size(g) ==> (u in Keyed(0) <==> Takeable(u, from, mindiff, bndOnly));
      assert forall u: nat :: u in Keyed(0) ==> u < Size(g);
      v := GetMax(0);
    }

    /** The target of the side that receives. */
    function Target(tp0: int, tp1: int, from: int): int
    {
      if from == 1 then tp0 else tp1
    }

    /** Swap `t` of a balancer takes the best vertex that may be taken, and the other side stays within its target. */
    ghost predicate Gives(hist: seq<seq<int>>, swaps: seq<nat>, tp0: int, tp1: int, from: int, mindiff: nat, bndOnly: bool, t: nat)
    {
      && t < |swaps| && t < |hist| && Partition(g, hist[t]) && 0 <= from <= 1
      && Tops(g, hist[t], swaps[..t], from, mindiff, bndOnly, swaps[t])
      && WeightOf(g, hist[t], 1 - from) + g.vwgt[swaps[t]] <= Target(tp0, tp1, from)
    }

    ghost predicate AllGive(hist: seq<seq<int>>, swaps: seq<nat>, tp0: int, tp1: int, from: int, mindiff: nat, bndOnly: bool)
    {
      forall t: nat :: t < |swaps| ==> Gives(hist, swaps, tp0, tp1, from, mindiff, bndOnly, t)
    }

    lemma AllGivePush(hist: seq<seq<int>>, swaps: seq<nat>, tp0: int, tp1: int, from: int, mindiff: nat, bndOnly: bool, wh: seq<int>, v: nat)
      requires History(g, hist, swaps) && AllGive(hist, swaps, tp0, tp1, from, mindiff, bndOnly) && 0 <= from <= 1
      requires Tops(g, hist[|swaps|], swaps, from, mindiff, bndOnly, v)
      requires WeightOf(g, hist[|swaps|], 1 - from) + g.vwgt[v] <= Target(tp0, tp1, from)
      ensures AllGive(hist + [wh], swaps + [v], tp0, tp1, from, mindiff, bndOnly)
    {
      var hist', swaps' := hist + [wh], swaps + [v];
      forall t: nat | t < |swaps'| ensures Gives(hist', swaps', tp0, tp1, from, mindiff, bndOnly, t) {
        if t < |swaps| {
          assert Gives(hist, swaps, tp0, tp1, from, mindiff, bndOnly, t);
          assert swaps'[..t] == swaps[..t];
        } else {
          assert swaps'[..t] == swaps;
        }
      }
    }

    /** Why a balancer has stopped: nothing may be taken, or the best that may would make the other side pass its target. */
    ghost predicate Settled(wh: seq<int>, swaps: seq<nat>, tp0: int, tp1: int, from: int, mindiff: nat, bndOnly: bool)
    {
      && Partition(g, wh) && 0 <= from <= 1
      && (|| NoneFree(g, wh, swaps, from, mindiff, bndOnly)
          || exists v: nat :: Tops(g, wh, swaps, from, mindiff, bndOnly, v) && WeightOf(g, wh, 1 - from) + g.vwgt[v] > Target(tp0, tp1, from))
    }

    /** One move of a balancer; `done` when the queue is empty or the move would pass the target. */
    method BalanceStep(tp0: int, tp1: int, from: int, mindiff: nat, bndOnly: bool, swaps: seq<nat>, newcut: int,
                       ghost hist: seq<seq<int>>, ghost start: int, ghost total: int)
      returns (done: bool, cut: int, v: int)
      requires Climbing(hist, swaps, newcut) && BalanceQueue(from, mindiff, bndOnly, -1)
      requires from == (if start < tp0 then 1 else 0) && Approaches(tp0, tp1, start, total)
      requires AllGive(hist, swaps, tp0, tp1, from, mindiff, bndOnly)
      modifies where, id, ed, this`nbnd, bndptr, bndind, moved, this`queue0, this`queue1, this`pwgt0, this`pwgt1
      ensures Approaches(tp0, tp1, start, total)
      ensures done ==> Climbing(hist, swaps, cut) && Settled(where[..], swaps, tp0, tp1, from, mindiff, bndOnly)
      ensures !done ==> v >= 0 && Climbing(hist + [where[..]], swaps + [v], cut) && BalanceQueue(from, mindiff, bndOnly, -1)
      ensures !done ==> AllGive(hist + [where[..]], swaps + [v], tp0, tp1, from, mindiff, bndOnly)
    {
      v := PickBalance(from, mindiff, bndOnly);
      PickIsBest(swaps, from, mindiff, bndOnly, v);
      if v == -1 { return true, newcut, v; }
      var to := 1 - from;
      if (if to == 0 then pwgt0 + g.vwgt[v] > tp0 else pwgt1 + g.vwgt[v] > tp1) { return true, newcut, v; }
      AllGivePush(hist, swaps, tp0, tp1, from, mindiff, bndOnly, Flip(where[..], v), v);
      cut := BalanceAdvance(v, swaps, newcut, from, mindiff, bndOnly, hist, tp0, tp1, start, total);
      done := false;
    }

    /** The move itself. */
    method BalanceAdvance(v: nat, swaps: seq<nat>, newcut: int, from: int, mindiff: nat, bndOnly: bool, ghost hist: seq<seq<int>>,
                          ghost tp0: int, ghost tp1: int, ghost start: int, ghost total: int) returns (cut: int)
      requires Climbing(hist, swaps, newcut) && v < Size(g) && where[v] == from && v !in queue0 && BalanceQueue(from, mindiff, bndOnly, v)
      requires from == (if start < tp0 then 1 else 0) && Approaches(tp0, tp1, start, total)
      requires if from == 1 then pwgt0 + g.vwgt[v] <= tp0 else pwgt1 + g.vwgt[v] <= tp1
      modifies where, id, ed, this`nbnd, bndptr, bndind, moved, this`queue0, this`pwgt0, this`pwgt1
      ensures Climbing(hist + [where[..]], swaps + [v], cut) && where[..] == Flip(old(where[..]), v)
      ensures BalanceQueue(from, mindiff, bndOnly, -1) && Approaches(tp0, tp1, start, total)
    {
      assert g.vwgt[v] > 0;
      ghost var was := moved[..];
      assert forall u: nat :: u < Size(g) ==> was[u] == moved[u];
      cut := Account(v, from, newcut);
      BalanceMove(v, |swaps|, from, mindiff, bndOnly);
      HistoryPush(g, hist, swaps, v);
      forall u: nat | u < Size(g) ensures moved[u] != -1 <==> u in swaps + [v] {
        assert moved[u] == moved[..][u];
      }
    }

    /** A balancer from one partition to another. */
    ghost predicate BalanceRule(before: seq<int>, after: seq<int>, tp0: int, tp1: int, from: int, mindiff: nat, bndOnly: bool)
    {
      exists hist, swaps ::
        && History(g, hist, swaps) && AllGive(hist, swaps, tp0, tp1, from, mindiff, bndOnly)
        && hist[0] == before && hist[|swaps|] == after
        && (|swaps| >= Size(g) || Settled(after, swaps, tp0, tp1, from, mindiff, bndOnly))
    }

    /**
     Bnd2WayBalance (`bndOnly`) and General2WayBalance. The bookkeeping stays exact through every move, and when
     the current and the target weights have equal totals the imbalance never grows. Vertices that weigh no more than the
     imbalance leave the heavy side, best gain first, as long as the other side stays within its target.
     */
    method Balance(tp0: int, tp1: int, bndOnly: bool)
      requires Consistent()
      modifies where, id, ed, this`nbnd, bndptr, bndind, moved, this`queue0, this`queue1, this`pwgt0, this`pwgt1, this`mincut
      ensures Consistent() && Approaches(tp0, tp1, old(pwgt0), old(pwgt0 + pwgt1))
      ensures BalanceRule(old(where[..]), where[..], tp0, tp1, if old(pwgt0) < tp0 then 1 else 0, old(Abs(tp0 - pwgt0)), bndOnly)
    {
      var mindiff := Abs(tp0 - pwgt0);
      var from := if pwgt0 < tp0 then 1 else 0;
      ClearMoved();
      FillBalanceQueue(from, mindiff, bndOnly);
      var newcut, done := mincut, false;
      var swaps: seq<nat> := [];
      ghost var hist := [where[..]];
      while |swaps| < Size(g) && !done
        invariant Climbing(hist, swaps, newcut) && AllGive(hist, swaps, tp0, tp1, from, mindiff, bndOnly) && hist[0] == old(where[..])
        invariant if done then Settled(where[..], swaps, tp0, tp1, from, mindiff, bndOnly) else BalanceQueue(from, mindiff, bndOnly, -1)
        invariant Approaches(tp0, tp1, old(pwgt0), old(pwgt0 + pwgt1))
        decreases Size(g) - |swaps|, if done then 0 else 1
      {
        var v;
        done, newcut, v := BalanceStep(tp0, tp1, from, mindiff, bndOnly, swaps, newcut, hist, old(pwgt0), old(pwgt0 + pwgt1));
        if !done {
          hist, swaps := hist + [where[..]], swaps + [v];
        }
      }
      mincut := newcut;
      assert hist[|swaps|] == where[..];
    }
  }
}
