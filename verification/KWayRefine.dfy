/**
 K-way edge refinement: Random_KWayEdgeRefine, Greedy_KWayEdgeRefine and Greedy_KWayEdgeBalance. They differ
 in how they pick vertices and targets; the move itself, which repairs the records, the boundary and, in the
 greedy forms, the queue in place, is the same.
 */
module KWayRefine {
  import opened Graphs
  import opened KWayTables
  import opened KWayChoice
  import Finite
  import Boundary
  import PriorityQueue

  /** What the refinement reads and changes, at one point of time. */
  datatype Snapshot = Snapshot(where: seq<int>, rinfo: seq<RInfo>, pwgts: seq<int>, mincut: int, nbnd: nat, bndind: seq<int>)

  /** Which vertices the boundary holds: those that would not lose by moving, or all that have an edge to
      another part. */
  datatype Rule = NoLoss | Border

  predicate OnBoundary(rule: Rule, r: RInfo)
  {
    if rule == NoLoss then r.ed >= r.id else r.ed > 0
  }

  class KWay {
    const g: Valid
    const nparts: nat
    const where: array<int>
    const rinfo: array<RInfo>
    const pwgts: array<int>
    const bndptr: array<int>
    const bndind: array<int>
    const moved: array<int>
    var nbnd: nat
    var mincut: int
    /** The first free place of the degree arena. */
    var cdegree: int
    var queue: map<nat, int>

    constructor (g: Valid, nparts: nat, where: array<int>, rinfo: array<RInfo>, pwgts: array<int>, bndptr: array<int>,
                 bndind: array<int>, moved: array<int>)
      ensures this.g == g && this.nparts == nparts && this.where == where && this.rinfo == rinfo && this.pwgts == pwgts
      ensures this.bndptr == bndptr && this.bndind == bndind && this.moved == moved
    {
      this.g, this.nparts, this.where, this.rinfo, this.pwgts := g, nparts, where, rinfo, pwgts;
      this.bndptr, this.bndind, this.moved := bndptr, bndind, moved;
      nbnd, mincut, cdegree, queue := 0, 0, 0, map[];
    }

    predicate Shape()
    {
      && where.Length == rinfo.Length == bndptr.Length == bndind.Length == moved.Length == Size(g) && pwgts.Length == nparts
      && where != pwgts && where != bndptr && where != bndind && where != moved
      && pwgts != bndptr && pwgts != bndind && pwgts != moved
      && bndptr != bndind && bndptr != moved && bndind != moved
    }

    // ----- What the bookkeeping promises

    predicate Parts()
      reads where
    {
      forall u :: 0 <= u < where.Length ==> 0 <= where[u] < nparts
    }

    ghost predicate Infos(wh: seq<int>)
      requires Shape() && Partition(g, wh)
      reads rinfo
    {
      forall u: nat :: u < Size(g) ==> InfoOk(g, wh, u, rinfo[u])
    }

    /** The boundary list holds exactly what the rule says; vertices without neighbours may be listed or not. */
    ghost predicate Exact(rule: Rule)
      requires Shape()
      reads this`nbnd, bndptr, bndind, rinfo
    {
      && Boundary.Listed(nbnd, bndind, bndptr)
      && forall u: nat :: u < Size(g) && !Isolated(g, u) ==> (bndptr[u] != -1 <==> OnBoundary(rule, rinfo[u]))
    }

    ghost predicate Arena()
      requires Shape()
      reads this`cdegree, rinfo
    {
      ArenaOk(g, rinfo[..], cdegree)
    }

    /** The weights and the cut on record are those of the partition. */
    ghost predicate Weighed()
      requires Shape()
      reads this`mincut, where, pwgts
    {
      2 * mincut == Cut2(g, where[..]) && forall p :: 0 <= p < nparts ==> pwgts[p] == WeightOf(g, where[..], p)
    }

    ghost predicate Consistent(rule: Rule)
      reads this`nbnd, this`mincut, this`cdegree, where, rinfo, pwgts, bndptr, bndind
    {
      Shape() && Parts() && Infos(where[..]) && Exact(rule) && Arena() && Weighed()
    }

    // ----- Moving one vertex

    /** Records midway through the neighbours of `v`: those listed before slot `j` are done. */
    ghost predicate Midway(before: seq<int>, v: nat, to: int, j: int)
      requires Shape() && Partition(g, before) && v < Size(g)
      reads rinfo
    {
      forall u: nat :: u < Size(g) ==>
        InfoOk(g, if u == v || Seen(g, v, j, u) then before[v := to] else before, u, rinfo[u])
    }

    lemma MidwayEnd(before: seq<int>, v: nat, to: int)
      requires Shape() && Partition(g, before) && v < Size(g) && to != before[v] && Midway(before, v, to, g.xadj[v + 1])
      ensures Infos(before[v := to])
    {
      forall u: nat | u < Size(g) ensures InfoOk(g, before[v := to], u, rinfo[u]) {
        SeenEnds(g, v, u);
        if u != v && !Adjacent(g, v, u) {
          FarInfo(g, before, v, to, u, rinfo[u]);
        }
      }
    }

    /** A vertex that is not a neighbour of `v` does not notice. */
    static lemma FarInfo(g: Valid, before: seq<int>, v: nat, to: int, u: nat, r: RInfo)
      requires Partition(g, before) && v < Size(g) && u < Size(g) && u != v && !Adjacent(g, v, u) && to != before[v]
      requires InfoOk(g, before, u, r)
      ensures InfoOk(g, before[v := to], u, r)
    {
      WSymmetric(g, v, u);
      forall q ensures Degs(g, before[v := to], u)(q) == Degs(g, before, u)(q) {
        NeighbourWeights(g, before, v, to, u, q);
      }
      NeighbourWeights(g, before, v, to, u, before[u]);
      assert Degs(g, before[v := to], u)(before[u]) == Degs(g, before, u)(before[u]);
      MatchesSame(r.edegrees, before[u], Degs(g, before, u), Degs(g, before[v := to], u));
    }

    lemma MidwayStart(before: seq<int>, v: nat, to: int)
      requires Shape() && Partition(g, before) && v < Size(g) && InfoOk(g, before[v := to], v, rinfo[v])
      requires forall u: nat :: u < Size(g) && u != v ==> InfoOk(g, before, u, rinfo[u])
      ensures Midway(before, v, to, g.xadj[v])
    {
      forall u: nat | u < Size(g)
        ensures InfoOk(g, if u == v || Seen(g, v, g.xadj[v], u) then before[v := to] else before, u, rinfo[u])
      {
        SeenEnds(g, v, u);
      }
    }

    /** Cut, weights and partition follow the move of `v` to the part of its entry `k`. */
    method MoveWeights(v: nat, k: nat)
      requires Shape() && Parts() && Weighed() && v < Size(g) && InfoOk(g, where[..], v, rinfo[v]) && k < |rinfo[v].edegrees|
      requires 0 <= rinfo[v].edegrees[k].pid < nparts
      modifies this`mincut, where, pwgts
      ensures Parts() && Weighed() && where[..] == old(where[..])[v := rinfo[v].edegrees[k].pid]
      ensures mincut == old(mincut) - (rinfo[v].edegrees[k].ed - rinfo[v].id)
    {
      var from, to, vwgt := where[v], rinfo[v].edegrees[k].pid, g.vwgt[v];
      ghost var before := where[..];
      MoveCut(g, before, v, to);
      assert Degs(g, before, v)(to) == rinfo[v].edegrees[k].ed;
      forall p ensures WeightOf(g, before[v := to], p) == WeightOf(g, before, p) + (if p == to then vwgt else 0) - (if p == from then vwgt else 0) {
        MovePartWeight(g, before, v, to, p, Size(g));
      }
      mincut := mincut - (rinfo[v].edegrees[k].ed - rinfo[v].id);
      where[v] := to;
      pwgts[to] := pwgts[to] + vwgt;
      pwgts[from] := pwgts[from] - vwgt;
      assert where[..] == before[v := to];
    }

    /** The record of the moved vertex, and its place in the boundary. */
    method MoveRecord(v: nat, k: nat, from: int, rule: Rule)
      requires Shape() && Exact(rule) && Arena() && v < Size(g) && k < |rinfo[v].edegrees| && bndptr[v] != -1 && !Isolated(g, v)
      modifies rinfo, this`nbnd, bndptr, bndind
      ensures Exact(rule) && Arena()
      ensures var r, e := old(rinfo[v]), old(rinfo[v]).edegrees[k];
        rinfo[v] == r.(id := e.ed, ed := r.ed + r.id - e.ed, edegrees := Moved(r.edegrees, k, from, r.id))
      ensures forall u :: 0 <= u < Size(g) && u != v ==> rinfo[u] == old(rinfo[u]) && (bndptr[u] == -1 <==> old(bndptr[u]) == -1)
    {
      var r := rinfo[v];
      var e := r.edegrees[k];
      var r' := r.(id := e.ed, ed := r.ed + r.id - e.ed, edegrees := Moved(r.edegrees, k, from, r.id));
      assert SlabOk(g, rinfo[..], cdegree, v);
      EditKeeps(g, rinfo[..], cdegree, v, r');
      rinfo[v] := r';
      assert rinfo[..] == old(rinfo[..])[v := r'];
      if !OnBoundary(rule, r') {
        nbnd := Boundary.BndDelete(nbnd, bndind, bndptr, v);
      }
    }

    /** A vertex that has no table yet gets a slab from the arena. */
    method Grant(ii: nat)
      requires Shape() && Arena() && ii < Size(g)
      modifies rinfo, this`cdegree
      ensures Arena() && rinfo[ii].slab != -1 && rinfo[ii] == old(rinfo[ii]).(slab := rinfo[ii].slab)
      ensures forall u :: 0 <= u < Size(g) && u != ii ==> rinfo[u] == old(rinfo[u])
    {
      if rinfo[ii].slab == -1 {
        GrantKeeps(g, rinfo[..], cdegree, ii);
        ArenaFits(g, rinfo[..], cdegree);
        rinfo[ii] := rinfo[ii].(slab := cdegree);
        cdegree := cdegree + g.xadj[ii + 1] - g.xadj[ii];
        assert rinfo[..] == old(rinfo[..])[ii := rinfo[ii]];
      }
    }

    /** The new record of a neighbour, and its place in the boundary. */
    method Touch(ii: nat, r': RInfo, me: int, from: int, to: int, rule: Rule)
      requires Shape() && Exact(rule) && Arena() && ii < Size(g) && r'.slab == rinfo[ii].slab != -1
      requires !Isolated(g, ii) && from != to
      requires me == from ==> r'.ed > rinfo[ii].ed && r'.id < rinfo[ii].id
      requires me == to ==> r'.ed < rinfo[ii].ed && r'.id > rinfo[ii].id
      requires me != from && me != to ==> r'.ed == rinfo[ii].ed && r'.id == rinfo[ii].id
      modifies rinfo, this`nbnd, bndptr, bndind
      ensures Exact(rule) && Arena() && rinfo[ii] == r'
      ensures forall u :: 0 <= u < Size(g) && u != ii ==> rinfo[u] == old(rinfo[u]) && (bndptr[u] == -1 <==> old(bndptr[u]) == -1)
    {
      EditKeeps(g, rinfo[..], cdegree, ii, r');
      rinfo[ii] := r';
      assert rinfo[..] == old(rinfo[..])[ii := r'];
      if me == from {
        if OnBoundary(rule, r') && bndptr[ii] == -1 {
          nbnd := Boundary.BndInsert(nbnd, bndind, bndptr, ii);
        }
      } else if me == to {
        if !OnBoundary(rule, r') && bndptr[ii] != -1 {
          nbnd := Boundary.BndDelete(nbnd, bndind, bndptr, ii);
        }
      }
    }

    lemma NotIsolated(v: nat, j: int)
      requires v < Size(g) && Slot(g, v, j)
      ensures !Isolated(g, v) && !Isolated(g, g.adjncy[j])
    {
      SlotWeight(g, v, j);
      WSymmetric(g, v, g.adjncy[j]);
      var s :| Lists(g, g.adjncy[j], s, v);
    }

    /** One slot of the moved vertex. */
    method TouchSlot(ghost before: seq<int>, v: nat, j: nat, from: int, to: int, rule: Rule)
      requires Shape() && Exact(rule) && Arena() && v < Size(g) && Slot(g, v, j) && Partition(g, before)
      requires from == before[v] != to && where[..] == before[v := to] && Midway(before, v, to, j)
      modifies rinfo, this`nbnd, this`cdegree, bndptr, bndind
      ensures Exact(rule) && Arena() && Midway(before, v, to, j + 1)
      ensures forall u: nat :: u < Size(g) && u != g.adjncy[j] ==>
        rinfo[u] == old(rinfo[u]) && (bndptr[u] == -1 <==> old(bndptr[u]) == -1)
      ensures var ii := g.adjncy[j];
        where[ii] != from && where[ii] != to ==> rinfo[ii].ed == old(rinfo[ii].ed) && rinfo[ii].id == old(rinfo[ii].id)
    {
      ghost var ri := rinfo[..];
      SlotWeight(g, v, j);
      NotIsolated(v, j);
      var ii := g.adjncy[j];
      SeenStep(g, v, j, ii);
      WSymmetric(g, v, ii);
      assert where[ii] == where[..][ii] == before[ii];
      var me := where[ii];
      Grant(ii);
      var r' := ShiftInfo(rinfo[ii], me, from, to, g.adjwgt[j], g, before, v, ii);
      Touch(ii, r', me, from, to, rule);
      MidwayStep(before, v, to, j, ri);
    }

    /** The records `ri` were midway, and only that of the neighbour in slot `j` has changed. */
    lemma MidwayStep(before: seq<int>, v: nat, to: int, j: nat, ri: seq<RInfo>)
      requires Shape() && Partition(g, before) && v < Size(g) && Slot(g, v, j) && |ri| == Size(g)
      requires forall u: nat :: u < Size(g) ==> InfoOk(g, if u == v || Seen(g, v, j, u) then before[v := to] else before, u, ri[u])
      requires InfoOk(g, before[v := to], g.adjncy[j], rinfo[g.adjncy[j]])
      requires forall u: nat :: u < Size(g) && u != g.adjncy[j] ==> rinfo[u] == ri[u]
      ensures Midway(before, v, to, j + 1)
    {
      forall u: nat | u < Size(g)
        ensures InfoOk(g, if u == v || Seen(g, v, j + 1, u) then before[v := to] else before, u, rinfo[u])
      {
        SeenStep(g, v, j, u);
      }
    }

    /** Everything about the moved vertex itself. */
    method StartMove(v: nat, k: nat, rule: Rule) returns (from: int, to: int)
      requires Consistent(rule) && v < Size(g) && k < |rinfo[v].edegrees| && bndptr[v] != -1
      modifies this`mincut, this`nbnd, where, pwgts, rinfo, bndptr, bndind
      ensures Parts() && Weighed() && Exact(rule) && Arena() && from == old(where[v]) != to && to == old(rinfo[v].edegrees[k].pid)
      ensures where[..] == old(where[..])[v := to] && Midway(old(where[..]), v, to, g.xadj[v])
      ensures mincut == old(mincut) - (old(rinfo[v].edegrees[k].ed) - old(rinfo[v].id))
      ensures forall u :: 0 <= u < Size(g) && u != v ==> rinfo[u] == old(rinfo[u]) && (bndptr[u] == -1 <==> old(bndptr[u]) == -1)
    {
      ghost var before := where[..];
      from, to := where[v], rinfo[v].edegrees[k].pid;
      ListedPart(v, k);
      MovedInfo(g, before, v, rinfo[v], k);
      MoveWeights(v, k);
      MoveRecord(v, k, from, rule);
      MidwayStart(before, v, to);
    }

    /** The parts in a table are parts, and the vertex has neighbours in them. */
    lemma ListedPart(v: nat, k: nat)
      requires Shape() && Parts() && v < Size(g) && InfoOk(g, where[..], v, rinfo[v]) && k < |rinfo[v].edegrees|
      ensures 0 <= rinfo[v].edegrees[k].pid < nparts && rinfo[v].edegrees[k].pid != where[v] && !Isolated(g, v)
    {
      var q := rinfo[v].edegrees[k].pid;
      assert Degs(g, where[..], v)(q) > 0;
      DegSign(g, where[..], v, q, Size(g));
      var u: nat :| u < Size(g) && Adjacent(g, v, u) && where[..][u] == q;
      var s :| Lists(g, v, s, u);
    }

    /** All neighbours of the moved vertex. */
    method FinishMove(ghost before: seq<int>, v: nat, from: int, to: int, rule: Rule)
      requires Shape() && Exact(rule) && Arena() && v < Size(g) && Partition(g, before)
      requires from == before[v] != to && where[..] == before[v := to] && Midway(before, v, to, g.xadj[v])
      modifies rinfo, this`nbnd, this`cdegree, bndptr, bndind
      ensures Exact(rule) && Arena() && Infos(before[v := to])
    {
      for j := g.xadj[v] to g.xadj[v + 1]
        invariant Exact(rule) && Arena() && Midway(before, v, to, j)
      {
        TouchSlot(before, v, j, from, to, rule);
      }
      MidwayEnd(before, v, to);
    }

    /** Move `v` to the part of its entry `k`. */
    method Move(v: nat, k: nat, rule: Rule)
      requires Consistent(rule) && v < Size(g) && k < |rinfo[v].edegrees| && bndptr[v] != -1
      modifies this`mincut, this`nbnd, this`cdegree, where, pwgts, rinfo, bndptr, bndind
      ensures Consistent(rule) && where[..] == old(where[..])[v := old(rinfo[v].edegrees[k].pid)]
      ensures mincut == old(mincut) - (old(rinfo[v].edegrees[k].ed) - old(rinfo[v].id))
    {
      ghost var before := where[..];
      var from, to := StartMove(v, k, rule);
      FinishMove(before, v, from, to, rule);
    }

    // ----- Visiting one vertex

    predicate Within(b: Bounds)
    {
      |b.minwgt| == |b.maxwgt| == |b.itpwgts| == nparts
    }

    ghost function Now(): Snapshot
      reads where, rinfo, pwgts, bndind, this`mincut, this`nbnd
    {
      Snapshot(where[..], rinfo[..], pwgts[..], mincut, nbnd, bndind[..])
    }

    /** The parts that a visit of `v` looks at exist. */
    ghost predicate Sound(s: Snapshot, b: Bounds, v: nat)
    {
      && v < Size(g) == |s.where| == |s.rinfo| && Within(b) && |s.pwgts| == nparts
      && 0 <= s.where[v] < nparts && InRange(b, s.pwgts, s.rinfo[v].edegrees)
    }

    lemma NowSound(rule: Rule, b: Bounds, v: nat)
      requires Consistent(rule) && Within(b) && v < Size(g)
      ensures Sound(Now(), b, v)
    {
      forall k | 0 <= k < |rinfo[v].edegrees| ensures 0 <= rinfo[v].edegrees[k].pid < nparts {
        ListedPart(v, k);
      }
    }

    /** The vertex has moved to the part of entry `k`, or nothing has changed if that is the length of the table. */
    ghost predicate Goes(s: Snapshot, s': Snapshot, v: nat, k: nat)
      requires v < |s.where| == |s.rinfo|
    {
      if k < |s.rinfo[v].edegrees| then
        s'.where == s.where[v := s.rinfo[v].edegrees[k].pid] && s'.mincut == s.mincut - (s.rinfo[v].edegrees[k].ed - s.rinfo[v].id)
      else s' == s
    }

    // ----- Random_KWayEdgeRefine

    /** What a visit does: the vertex goes where the rule of refinement sends it, if it would not lose altogether. */
    ghost predicate VisitRule(b: Bounds, s: Snapshot, s': Snapshot, v: nat, turn: nat, ffactor: int)
    {
      && Sound(s, b, v)
      && var r := s.rinfo[v];
      && if r.ed < r.id then s' == s
         else exists k: nat :: RefineRule(b, s.pwgts, r, s.where[v], g.vwgt[v], ffactor, true, turn, k) && Goes(s, s', v, k)
    }

    method Visit(v: nat, turn: nat, b: Bounds, ffactor: int)
      requires Consistent(NoLoss) && Within(b) && v < Size(g) && bndptr[v] != -1
      modifies this`mincut, this`nbnd, this`cdegree, where, pwgts, rinfo, bndptr, bndind
      ensures Consistent(NoLoss) && mincut <= old(mincut)
      ensures VisitRule(b, old(Now()), Now(), v, turn, ffactor)
    {
      NowSound(NoLoss, b, v);
      if rinfo[v].ed >= rinfo[v].id {
        var k := RefineTarget(b, pwgts[..], rinfo[v], where[v], g.vwgt[v], ffactor, true, turn);
        if k < |rinfo[v].edegrees| {
          Move(v, k, NoLoss);
        }
      }
    }

    /** Turn `t` of a pass: place `perm[t]` of the boundary is visited, if there is such a place. */
    ghost predicate TurnRule(b: Bounds, perm: seq<nat>, s: Snapshot, s': Snapshot, t: nat, ffactor: int)
    {
      && t < |perm| && s.nbnd <= |s.bndind|
      && if perm[t] < s.nbnd then s.bndind[perm[t]] >= 0 && VisitRule(b, s, s', s.bndind[perm[t]], t, ffactor) else s' == s
    }

    /** A pass went through these states, one turn after the other. */
    ghost predicate PassRun(b: Bounds, perm: seq<nat>, hist: seq<Snapshot>, ffactor: int)
    {
      |hist| == |perm| + 1 && forall t: nat :: t < |perm| ==> TurnRule(b, perm, hist[t], hist[t + 1], t, ffactor)
    }

    method Turn(perm: seq<nat>, b: Bounds, ffactor: int, t: nat)
      requires Consistent(NoLoss) && Within(b) && t < |perm|
      modifies this`mincut, this`nbnd, this`cdegree, where, pwgts, rinfo, bndptr, bndind
      ensures Consistent(NoLoss) && mincut <= old(mincut) && TurnRule(b, perm, old(Now()), Now(), t, ffactor)
    {
      if perm[t] < nbnd {
        Boundary.ListedAt(nbnd, bndind, bndptr, perm[t]);
        Visit(bndind[perm[t]], t, b, ffactor);
      }
    }

    /** One pass; `perm` are places in the boundary list, which may shrink while the pass goes on. */
    method RandomPass(perm: seq<nat>, b: Bounds, ffactor: int) returns (ghost hist: seq<Snapshot>)
      requires Consistent(NoLoss) && Within(b)
      modifies this`mincut, this`nbnd, this`cdegree, where, pwgts, rinfo, bndptr, bndind
      ensures Consistent(NoLoss) && mincut <= old(mincut)
      ensures PassRun(b, perm, hist, ffactor) && hist[0] == old(Now()) && hist[|perm|] == Now()
    {
      hist := [Now()];
      for iii := 0 to |perm|
        invariant Consistent(NoLoss) && mincut <= old(mincut)
        invariant |hist| == iii + 1 && hist[0] == old(Now()) && hist[iii] == Now()
        invariant forall t: nat :: t < iii ==> TurnRule(b, perm, hist[t], hist[t + 1], t, ffactor)
      {
        ghost var before := hist;
        Turn(perm, b, ffactor, iii);
        hist := hist + [Now()];
        forall t: nat | t < iii + 1 ensures TurnRule(b, perm, hist[t], hist[t + 1], t, ffactor) {
          if t < iii {
            assert TurnRule(b, perm, before[t], before[t + 1], t, ffactor);
          }
        }
      }
    }

    ghost predicate Improved(hist: seq<Snapshot>)
    {
      |hist| > 0 && hist[0].mincut != hist[|hist| - 1].mincut
    }

    ghost predicate Joined(a: seq<Snapshot>, b: seq<Snapshot>)
    {
      |a| > 0 && |b| > 0 && b[0] == a[|a| - 1]
    }

    /** Pass follows pass from `start` to `now`, and every one but perhaps the last improved the cut. */
    ghost predicate Linked(runs: seq<seq<Snapshot>>, start: Snapshot, now: Snapshot)
    {
      && (forall n: nat :: n < |runs| - 1 ==> Improved(runs[n]) && Joined(runs[n], runs[n + 1]))
      && Joined([start], if runs == [] then [now] else runs[0]) && (runs != [] ==> Joined(runs[|runs| - 1], [now]))
    }

    lemma LinkedPush(runs: seq<seq<Snapshot>>, start: Snapshot, now: Snapshot, hist: seq<Snapshot>)
      requires Linked(runs, start, now) && (runs != [] ==> Improved(runs[|runs| - 1])) && |hist| > 0 && hist[0] == now
      ensures Linked(runs + [hist], start, hist[|hist| - 1])
    {
    }

    /** Random_KWayEdgeRefine: one visiting order per pass; it stops early only after a pass that left the cut as it was. */
    method RandomKWayEdgeRefine(perms: seq<seq<nat>>, b: Bounds, ffactor: int) returns (ghost runs: seq<seq<Snapshot>>)
      requires Consistent(NoLoss) && Within(b)
      modifies this`mincut, this`nbnd, this`cdegree, where, pwgts, rinfo, bndptr, bndind
      ensures Consistent(NoLoss) && mincut <= old(mincut)
      ensures PassRuns(b, perms, runs, ffactor)
      ensures Linked(runs, old(Now()), Now()) && (|runs| < |perms| ==> runs != [] && !Improved(runs[|runs| - 1]))
    {
      runs := [];
      for pass := 0 to |perms|
        invariant Consistent(NoLoss) && mincut <= old(mincut) && |runs| == pass && PassRuns(b, perms, runs, ffactor)
        invariant Linked(runs, old(Now()), Now()) && (runs != [] ==> Improved(runs[|runs| - 1]))
      {
        var oldcut := mincut;
        ghost var now := Now();
        ghost var hist := RandomPass(perms[pass], b, ffactor);
        LinkedPush(runs, old(Now()), now, hist);
        PassRunsPush(b, perms, runs, ffactor, hist);
        runs := runs + [hist];
        if mincut == oldcut { break; }
      }
    }

    ghost predicate PassRuns(b: Bounds, perms: seq<seq<nat>>, runs: seq<seq<Snapshot>>, ffactor: int)
    {
      |runs| <= |perms| && forall n: nat :: n < |runs| ==> PassRun(b, perms[n], runs[n], ffactor)
    }

    lemma PassRunsPush(b: Bounds, perms: seq<seq<nat>>, runs: seq<seq<Snapshot>>, ffactor: int, hist: seq<Snapshot>)
      requires PassRuns(b, perms, runs, ffactor) && |runs| < |perms| && PassRun(b, perms[|runs|], hist, ffactor)
      ensures PassRuns(b, perms, runs + [hist], ffactor)
    {
      forall n: nat | n < |runs + [hist]| ensures PassRun(b, perms[n], (runs + [hist])[n], ffactor) {
        if n < |runs| {
          assert PassRun(b, perms[n], runs[n], ffactor);
        }
      }
    }

    // ----- The queue of the greedy forms

    /** 2 marks the vertices in the queue, keyed by what moving them gains; 1 those that were taken from it;
        any other vertex is in the queue exactly when it is on the boundary. */
    ghost predicate QueuedAs(rule: Rule, u: nat, r: RInfo)
      requires moved.Length == Size(g) && u < Size(g)
      reads this`queue, moved
    {
      && (u in queue <==> moved[u] == 2)
      && (u in queue ==> queue[u] == r.ed - r.id)
      && (moved[u] == -1 || moved[u] == 1 || moved[u] == 2)
      && (!Isolated(g, u) && moved[u] != 1 ==> (moved[u] == 2 <==> OnBoundary(rule, r)))
    }

    ghost predicate QueuedAt(rule: Rule, u: nat)
      requires Shape() && u < Size(g)
      reads this`queue, rinfo, moved
    {
      QueuedAs(rule, u, rinfo[u])
    }

    ghost predicate QueueOk(rule: Rule, except: int)
      requires Shape()
      reads this`queue, rinfo, moved
    {
      && (forall u <- queue :: u < Size(g))
      && (forall u: nat :: u < Size(g) && u != except ==> QueuedAt(rule, u))
    }

    ghost predicate Popped(popped: seq<nat>)
      reads moved
    {
      forall u: nat :: u < moved.Length ==> (moved[u] == 1 <==> u in popped)
    }

    /** Bring the queue up to date with the record of a neighbour of the moved vertex. */
    method Sync(ii: nat, rule: Rule)
      requires Shape() && ii < Size(g) && QueueOk(rule, ii) && !Isolated(g, ii)
      requires (ii in queue <==> moved[ii] == 2) && (moved[ii] == -1 || moved[ii] == 1 || moved[ii] == 2)
      modifies this`queue, moved
      ensures QueueOk(rule, -1)
      ensures forall u: nat :: u < Size(g) ==> (moved[u] == 1 <==> old(moved[u]) == 1)
    {
      if moved[ii] == 2 {
        if OnBoundary(rule, rinfo[ii]) {
          queue := queue[ii := rinfo[ii].ed - rinfo[ii].id];
        } else {
          queue := queue - {ii};
          moved[ii] := -1;
        }
      } else if moved[ii] == -1 && OnBoundary(rule, rinfo[ii]) {
        queue := queue[ii := rinfo[ii].ed - rinfo[ii].id];
        moved[ii] := 2;
      }
      forall u: nat | u < Size(g) ensures QueuedAt(rule, u) {
        assert u != ii ==> old(QueuedAt(rule, u));
      }
    }

    /** Only the record of `ii` has changed, so the queue is right except perhaps there. */
    lemma StillQueued(rule: Rule, ii: nat, ri: seq<RInfo>)
      requires Shape() && |ri| == Size(g) && forall u <- queue :: u < Size(g)
      requires forall u: nat :: u < Size(g) && u != ii ==> QueuedAs(rule, u, ri[u]) && rinfo[u] == ri[u]
      ensures QueueOk(rule, ii)
    {
      forall u: nat | u < Size(g) && u != ii ensures QueuedAt(rule, u) {
        assert QueuedAs(rule, u, ri[u]);
      }
    }

    /** One slot of the moved vertex, with the queue. */
    method TouchAndSync(ghost before: seq<int>, v: nat, j: nat, from: int, to: int, rule: Rule)
      requires Shape() && Exact(rule) && Arena() && v < Size(g) && Slot(g, v, j) && Partition(g, before)
      requires from == before[v] != to && where[..] == before[v := to] && Midway(before, v, to, j) && QueueOk(rule, -1)
      modifies rinfo, this`nbnd, this`cdegree, bndptr, bndind, this`queue, moved
      ensures Exact(rule) && Arena() && Midway(before, v, to, j + 1) && QueueOk(rule, -1)
      ensures forall u: nat :: u < Size(g) ==> (moved[u] == 1 <==> old(moved[u]) == 1)
    {
      NotIsolated(v, j);
      var ii := g.adjncy[j];
      ghost var ri := rinfo[..];
      forall u: nat | u < Size(g) ensures QueuedAs(rule, u, ri[u]) {
        assert QueuedAt(rule, u);
      }
      TouchSlot(before, v, j, from, to, rule);
      StillQueued(rule, ii, ri);
      if where[ii] == to || where[ii] == from {
        Sync(ii, rule);
      }
    }

    method FinishGreedyMove(ghost before: seq<int>, v: nat, from: int, to: int, rule: Rule)
      requires Shape() && Exact(rule) && Arena() && v < Size(g) && Partition(g, before) && QueueOk(rule, -1)
      requires from == before[v] != to && where[..] == before[v := to] && Midway(before, v, to, g.xadj[v])
      modifies rinfo, this`nbnd, this`cdegree, bndptr, bndind, this`queue, moved
      ensures Exact(rule) && Arena() && Infos(before[v := to]) && QueueOk(rule, -1)
      ensures forall u: nat :: u < Size(g) ==> (moved[u] == 1 <==> old(moved[u]) == 1)
    {
      for j := g.xadj[v] to g.xadj[v + 1]
        invariant Exact(rule) && Arena() && Midway(before, v, to, j) && QueueOk(rule, -1)
        invariant forall u: nat :: u < Size(g) ==> (moved[u] == 1 <==> old(moved[u]) == 1)
      {
        TouchAndSync(before, v, j, from, to, rule);
      }
      MidwayEnd(before, v, to);
    }

    /** Move a vertex that was just taken from the queue. */
    method GreedyMove(v: nat, k: nat, rule: Rule)
      requires Consistent(rule) && v < Size(g) && k < |rinfo[v].edegrees| && bndptr[v] != -1
      requires QueueOk(rule, -1) && moved[v] == 1
      modifies this`mincut, this`nbnd, this`cdegree, where, pwgts, rinfo, bndptr, bndind, this`queue, moved
      ensures Consistent(rule) && QueueOk(rule, -1) && where[..] == old(where[..])[v := old(rinfo[v].edegrees[k].pid)]
      ensures mincut == old(mincut) - (old(rinfo[v].edegrees[k].ed) - old(rinfo[v].id))
      ensures forall u: nat :: u < Size(g) ==> (moved[u] == 1 <==> old(moved[u]) == 1)
    {
      ghost var before := where[..];
      assert QueuedAt(rule, v);
      var from, to := StartMove(v, k, rule);
      forall u: nat | u < Size(g) ensures QueuedAt(rule, u) {
        assert old(QueuedAt(rule, u));
      }
      FinishGreedyMove(before, v, from, to, rule);
    }

    /** Put the boundary into the queue. */
    method FillQueue(rule: Rule)
      requires Shape() && Exact(rule)
      modifies this`queue, moved
      ensures QueueOk(rule, -1) && Popped([])
    {
      for i := 0 to moved.Length
        invariant forall u :: 0 <= u < i ==> moved[u] == -1
      {
        moved[i] := -1;
      }
      queue := map[];
      Boundary.PointerRange(nbnd, bndind, bndptr);
      for i := 0 to nbnd
        invariant forall u <- queue :: u < Size(g)
        invariant forall u: nat :: u < Size(g) ==> FilledAt(i, u)
      {
        Boundary.ListedAt(nbnd, bndind, bndptr, i);
        var v := bndind[i];
        label Before:
        queue := queue[v := rinfo[v].ed - rinfo[v].id];
        moved[v] := 2;
        var next := i + 1;
        forall u: nat | u < Size(g) ensures FilledAt(next, u) {
          assert old@Before(FilledAt(i, u));
        }
      }
      forall u: nat | u < Size(g) ensures QueuedAt(rule, u) && moved[u] != 1 {
        assert FilledAt(nbnd, u);
      }
    }

    /** The first `i` vertices of the boundary list are in the queue. */
    ghost predicate FilledAt(i: nat, u: nat)
      requires Shape() && u < Size(g)
      reads this`queue, rinfo, moved, bndptr
    {
      && moved[u] == (if 0 <= bndptr[u] < i then 2 else -1)
      && (u in queue <==> moved[u] == 2)
      && (u in queue ==> queue[u] == rinfo[u].ed - rinfo[u].id)
    }

    /** No boundary vertex of `s` that was not taken gains more than `v`; with -1 for `v`, there is none. */
    ghost predicate NoneBetter(rule: Rule, s: Snapshot, popped: seq<nat>, v: int)
    {
      forall u: nat :: u < Size(g) == |s.rinfo| && !Isolated(g, u) && u !in popped && OnBoundary(rule, s.rinfo[u]) ==>
        0 <= v < Size(g) && s.rinfo[u].ed - s.rinfo[u].id <= s.rinfo[v].ed - s.rinfo[v].id
    }

    /** PQueueGetMax; `v` is -1 when the queue is empty. */
    method Pop(rule: Rule, ghost popped: seq<nat>) returns (v: int)
      requires Shape() && Exact(rule) && QueueOk(rule, -1) && Popped(popped)
      modifies this`queue, moved
      ensures QueueOk(rule, -1) && v >= -1 && (v == -1 ==> Popped(popped))
      ensures v != -1 ==> v < Size(g) && v !in popped && Popped(popped + [v]) && moved[v] == 1
      ensures v != -1 && !Isolated(g, v) ==> bndptr[v] != -1
      ensures NoneBetter(rule, Now(), popped, v) && Now() == old(Now())
    {
      var q;
      v, q := PriorityQueue.GetMax(queue);
      if v == -1 {
        forall u: nat | u < Size(g) && !Isolated(g, u) && u !in popped ensures !OnBoundary(rule, rinfo[u]) {
          assert QueuedAt(rule, u) && u !in queue;
        }
        return;
      }
      assert QueuedAt(rule, v);
      forall u: nat | u < Size(g) && !Isolated(g, u) && u !in popped && OnBoundary(rule, rinfo[u])
        ensures rinfo[u].ed - rinfo[u].id <= rinfo[v].ed - rinfo[v].id
      {
        assert QueuedAt(rule, u) && u in queue;
      }
      queue := q;
      moved[v] := 1;
      forall u: nat | u < Size(g) ensures QueuedAt(rule, u) {
        assert old(QueuedAt(rule, u));
      }
    }

    // ----- The greedy passes

    ghost predicate Once(popped: seq<nat>)
    {
      Finite.NoRepeats(popped) && forall v <- popped :: v < Size(g)
    }

    /** No vertex is taken twice, so the pass ends. */
    lemma OnceBound(popped: seq<nat>)
      requires Once(popped)
      ensures |popped| <= Size(g)
    {
      Finite.ShortList(Size(g), popped);
    }

    /** What is done with a vertex taken from the queue: it goes where the rule of refinement or balancing sends it. */
    ghost predicate GreedyRule(b: Bounds, rule: Rule, s: Snapshot, s': Snapshot, v: nat, turn: nat)
    {
      && Sound(s, b, v)
      && exists k: nat :: Goes(s, s', v, k) &&
           if rule == NoLoss then RefineRule(b, s.pwgts, s.rinfo[v], s.where[v], g.vwgt[v], 1, false, turn, k)
           else BalanceRule(b, s.pwgts, s.rinfo[v], s.where[v], g.vwgt[v], k)
    }

    method GreedyVisit(v: nat, turn: nat, b: Bounds, rule: Rule, ghost popped: seq<nat>)
      requires Consistent(rule) && Within(b) && v < Size(g) && QueueOk(rule, -1) && moved[v] == 1 && Popped(popped)
      requires !Isolated(g, v) ==> bndptr[v] != -1
      modifies this`mincut, this`nbnd, this`cdegree, where, pwgts, rinfo, bndptr, bndind, this`queue, moved
      ensures Consistent(rule) && QueueOk(rule, -1) && Popped(popped) && (rule == NoLoss ==> mincut <= old(mincut))
      ensures GreedyRule(b, rule, old(Now()), Now(), v, turn)
    {
      NowSound(rule, b, v);
      var k;
      if rule == NoLoss {
        k := RefineTarget(b, pwgts[..], rinfo[v], where[v], g.vwgt[v], 1, false, turn);
      } else {
        k := BalanceTarget(b, pwgts[..], rinfo[v], where[v], g.vwgt[v]);
      }
      ghost var before := Now();
      if k < |rinfo[v].edegrees| {
        ListedPart(v, k);
        GreedyMove(v, k, rule);
      }
      assert Goes(before, Now(), v, k);
    }

    /** Turn `t` of a greedy pass: a vertex with the largest gain of those not taken yet is taken, and goes where it is sent. */
    ghost predicate GreedyTurnRule(b: Bounds, rule: Rule, s: Snapshot, s': Snapshot, popped: seq<nat>, t: nat)
    {
      t < |popped| && NoneBetter(rule, s, popped[..t], popped[t]) && GreedyRule(b, rule, s, s', popped[t], t)
    }

    /** A greedy pass went through these states, and ended when no vertex was left to take. */
    ghost predicate GreedyRun(b: Bounds, rule: Rule, popped: seq<nat>, hist: seq<Snapshot>)
    {
      && |hist| == |popped| + 1 && NoneBetter(rule, hist[|popped|], popped, -1)
      && forall t: nat :: t < |popped| ==> GreedyTurnRule(b, rule, hist[t], hist[t + 1], popped, t)
    }

    /** One pass of Greedy_KWayEdgeRefine (`NoLoss`) or Greedy_KWayEdgeBalance (`Border`). `popped` are the
        vertices in the order in which they left the queue. */
    method GreedyPass(b: Bounds, rule: Rule) returns (popped: seq<nat>, ghost hist: seq<Snapshot>)
      requires Consistent(rule) && Within(b)
      modifies this`mincut, this`nbnd, this`cdegree, where, pwgts, rinfo, bndptr, bndind, this`queue, moved
      ensures Consistent(rule) && Once(popped) && (rule == NoLoss ==> mincut <= old(mincut))
      ensures GreedyRun(b, rule, popped, hist) && hist[0] == old(Now()) && hist[|popped|] == Now()
    {
      FillQueue(rule);
      popped := [];
      hist := [Now()];
      var done := false;
      while !done
        invariant Consistent(rule) && QueueOk(rule, -1) && Popped(popped) && Once(popped) && |popped| <= Size(g)
        invariant rule == NoLoss ==> mincut <= old(mincut)
        invariant |hist| == |popped| + 1 && hist[0] == old(Now()) && hist[|popped|] == Now()
        invariant forall t: nat :: t < |popped| ==> GreedyTurnRule(b, rule, hist[t], hist[t + 1], popped, t)
        invariant done ==> NoneBetter(rule, Now(), popped, -1)
        decreases Size(g) - |popped|, if done then 0 else 1
      {
        ghost var before, taken := hist, popped;
        done, popped := GreedyTurn(b, rule, popped);
        if !done {
          hist := hist + [Now()];
          TurnsKept(b, rule, before, taken, hist, popped);
        }
      }
    }

    lemma TurnsKept(b: Bounds, rule: Rule, hist: seq<Snapshot>, popped: seq<nat>, hist': seq<Snapshot>, popped': seq<nat>)
      requires |hist| == |popped| + 1 && |hist'| == |popped'| + 1 && |popped'| == |popped| + 1 && hist <= hist' && popped <= popped'
      requires forall t: nat :: t < |popped| ==> GreedyTurnRule(b, rule, hist[t], hist[t + 1], popped, t)
      requires GreedyTurnRule(b, rule, hist'[|popped|], hist'[|popped| + 1], popped', |popped|)
      ensures forall t: nat :: t < |popped'| ==> GreedyTurnRule(b, rule, hist'[t], hist'[t + 1], popped', t)
    {
      forall t: nat | t < |popped'| ensures GreedyTurnRule(b, rule, hist'[t], hist'[t + 1], popped', t) {
        if t < |popped| {
          assert GreedyTurnRule(b, rule, hist[t], hist[t + 1], popped, t);
          assert popped'[..t] == popped[..t];
        }
      }
    }

    /** One iteration of a pass: `done` when the queue is empty. */
    method GreedyTurn(b: Bounds, rule: Rule, popped: seq<nat>) returns (done: bool, popped': seq<nat>)
      requires Consistent(rule) && Within(b) && QueueOk(rule, -1) && Popped(popped) && Once(popped) && |popped| <= Size(g)
      modifies this`mincut, this`nbnd, this`cdegree, where, pwgts, rinfo, bndptr, bndind, this`queue, moved
      ensures Consistent(rule) && QueueOk(rule, -1) && Popped(popped') && Once(popped') && |popped'| <= Size(g)
      ensures if done then popped' == popped && Now() == old(Now()) && NoneBetter(rule, Now(), popped, -1)
              else |popped'| == |popped| + 1 && popped <= popped' && GreedyTurnRule(b, rule, old(Now()), Now(), popped', |popped|)
      ensures rule == NoLoss ==> mincut <= old(mincut)
    {
      var v := Pop(rule, popped);
      if v == -1 { return true, popped; }
      OnceBound(popped + [v]);
      assert (popped + [v])[..|popped|] == popped;
      GreedyVisit(v, |popped|, b, rule, popped + [v]);
      return false, popped + [v];
    }

    /** Some greedy pass, taking every vertex at most once, went through these states. */
    ghost predicate IsGreedyRun(b: Bounds, rule: Rule, hist: seq<Snapshot>)
    {
      |hist| > 0 && exists popped :: Once(popped) && GreedyRun(b, rule, popped, hist)
    }

    method OnePass(b: Bounds, rule: Rule) returns (ghost hist: seq<Snapshot>)
      requires Consistent(rule) && Within(b)
      modifies this`mincut, this`nbnd, this`cdegree, where, pwgts, rinfo, bndptr, bndind, this`queue, moved
      ensures Consistent(rule) && (rule == NoLoss ==> mincut <= old(mincut))
      ensures IsGreedyRun(b, rule, hist) && hist[0] == old(Now()) && hist[|hist| - 1] == Now()
    {
      var popped;
      popped, hist := GreedyPass(b, rule);
    }

    ghost predicate GreedyRuns(b: Bounds, rule: Rule, runs: seq<seq<Snapshot>>)
    {
      forall n: nat :: n < |runs| ==> IsGreedyRun(b, rule, runs[n])
    }

    lemma GreedyRunsPush(b: Bounds, rule: Rule, runs: seq<seq<Snapshot>>, hist: seq<Snapshot>)
      requires GreedyRuns(b, rule, runs) && IsGreedyRun(b, rule, hist)
      ensures GreedyRuns(b, rule, runs + [hist])
    {
      forall n: nat | n < |runs + [hist]| ensures IsGreedyRun(b, rule, (runs + [hist])[n]) {
        if n < |runs| {
          assert IsGreedyRun(b, rule, runs[n]);
        }
      }
    }

    /** All passes of Greedy_KWayEdgeRefine; it stops early only after a pass that left the cut as it was. */
    method GreedyKWayEdgeRefine(npasses: nat, b: Bounds) returns (ghost runs: seq<seq<Snapshot>>)
      requires Consistent(NoLoss) && Within(b)
      modifies this`mincut, this`nbnd, this`cdegree, where, pwgts, rinfo, bndptr, bndind, this`queue, moved
      ensures Consistent(NoLoss) && mincut <= old(mincut) && |runs| <= npasses && GreedyRuns(b, NoLoss, runs)
      ensures Linked(runs, old(Now()), Now()) && (|runs| < npasses ==> runs != [] && !Improved(runs[|runs| - 1]))
    {
      runs := [];
      for pass := 0 to npasses
        invariant Consistent(NoLoss) && mincut <= old(mincut) && |runs| == pass && GreedyRuns(b, NoLoss, runs)
        invariant Linked(runs, old(Now()), Now()) && (runs != [] ==> Improved(runs[|runs| - 1]))
      {
        var oldcut := mincut;
        ghost var now := Now();
        ghost var hist := OnePass(b, NoLoss);
        LinkedPush(runs, old(Now()), now, hist);
        GreedyRunsPush(b, NoLoss, runs, hist);
        runs := runs + [hist];
        if mincut == oldcut { break; }
      }
    }

    method Balanced(b: Bounds) returns (ok: bool)
      requires Shape() && Within(b)
      ensures ok <==> IsBalanced(b, Now())
    {
      for i := 0 to nparts
        invariant forall p :: 0 <= p < i ==> pwgts[p] <= b.maxwgt[p]
      {
        if pwgts[i] > b.maxwgt[i] { return false; }
      }
      return true;
    }

    /** No part is too heavy. */
    ghost predicate IsBalanced(b: Bounds, s: Snapshot)
    {
      |s.pwgts| == |b.maxwgt| && forall p :: 0 <= p < |s.pwgts| ==> s.pwgts[p] <= b.maxwgt[p]
    }

    /** Balancing passes follow each other from `start` to `now`, each from an unbalanced state. */
    ghost predicate Balancing(b: Bounds, runs: seq<seq<Snapshot>>, start: Snapshot, now: Snapshot)
    {
      && GreedyRuns(b, Border, runs) && (forall n: nat :: n < |runs| ==> |runs[n]| > 0 && !IsBalanced(b, runs[n][0]))
      && (forall n: nat :: n < |runs| - 1 ==> Joined(runs[n], runs[n + 1]))
      && Joined([start], if runs == [] then [now] else runs[0]) && (runs != [] ==> Joined(runs[|runs| - 1], [now]))
    }

    lemma BalancingPush(b: Bounds, runs: seq<seq<Snapshot>>, start: Snapshot, now: Snapshot, hist: seq<Snapshot>)
      requires Balancing(b, runs, start, now) && !IsBalanced(b, now) && IsGreedyRun(b, Border, hist) && hist[0] == now
      ensures Balancing(b, runs + [hist], start, hist[|hist| - 1])
    {
      GreedyRunsPush(b, Border, runs, hist);
    }

    /** All passes of Greedy_KWayEdgeBalance: it stops early only when no part is too heavy, and does nothing if none is. */
    method GreedyKWayEdgeBalance(npasses: nat, b: Bounds) returns (ghost runs: seq<seq<Snapshot>>)
      requires Consistent(Border) && Within(b)
      modifies this`mincut, this`nbnd, this`cdegree, where, pwgts, rinfo, bndptr, bndind, this`queue, moved
      ensures Consistent(Border) && |runs| <= npasses && Balancing(b, runs, old(Now()), Now())
      ensures |runs| < npasses ==> IsBalanced(b, Now())
      ensures old(IsBalanced(b, Now())) ==> runs == [] && Now() == old(Now())
    {
      runs := [];
      for pass := 0 to npasses
        invariant Consistent(Border) && |runs| == pass && Balancing(b, runs, old(Now()), Now())
        invariant old(IsBalanced(b, Now())) ==> runs == []
      {
        var balanced := Balanced(b);
        if balanced { break; }
        ghost var now := Now();
        ghost var hist := OnePass(b, Border);
        BalancingPush(b, runs, old(Now()), now, hist);
        runs := runs + [hist];
      }
    }

    // ----- The whole weight

    /** The weight of all parts below `n`. */
    ghost function PartsTotal(wh: seq<int>, n: nat): int
      requires Partition(g, wh)
    {
      if n == 0 then 0 else PartsTotal(wh, n - 1) + WeightOf(g, wh, n - 1)
    }

    /** The weight of the vertices below `k`. */
    ghost function VertexTotal(k: nat): int
      requires k <= Size(g)
    {
      if k == 0 then 0 else VertexTotal(k - 1) + g.vwgt[k - 1]
    }

    ghost function PartsBelow(wh: seq<int>, n: nat, k: nat): int
      requires Partition(g, wh) && k <= Size(g)
    {
      if n == 0 then 0 else PartsBelow(wh, n - 1, k) + PartWeight(g, wh, n - 1, k)
    }

    lemma {:induction false} PartsBelowStep(wh: seq<int>, n: nat, k: nat)
      requires Partition(g, wh) && k < Size(g)
      ensures PartsBelow(wh, n, k + 1) == PartsBelow(wh, n, k) + if 0 <= wh[k] < n then g.vwgt[k] else 0
    {
      if n > 0 {
        PartsBelowStep(wh, n - 1, k);
      }
    }

    lemma {:induction false} PartsBelowIs(wh: seq<int>, n: nat, k: nat)
      requires Partition(g, wh) && k <= Size(g) && forall u :: 0 <= u < |wh| ==> 0 <= wh[u] < n
      ensures PartsBelow(wh, n, k) == VertexTotal(k)
      decreases k, n
    {
      if k > 0 {
        PartsBelowIs(wh, n, k - 1);
        PartsBelowStep(wh, n, k - 1);
      } else {
        PartsBelowZero(wh, n);
      }
    }

    lemma {:induction false} PartsBelowZero(wh: seq<int>, n: nat)
      requires Partition(g, wh)
      ensures PartsBelow(wh, n, 0) == 0
    {
      if n > 0 {
        PartsBelowZero(wh, n - 1);
      }
    }

    lemma {:induction false} PartsTotalIs(wh: seq<int>, n: nat)
      requires Partition(g, wh)
      ensures PartsTotal(wh, n) == PartsBelow(wh, n, Size(g))
    {
      if n > 0 {
        PartsTotalIs(wh, n - 1);
      }
    }

    /** Whatever the partition, the parts together weigh what the vertices weigh: no move changes the total. */
    lemma WeightConserved(wh: seq<int>)
      requires Partition(g, wh) && forall u :: 0 <= u < |wh| ==> 0 <= wh[u] < nparts
      ensures PartsTotal(wh, nparts) == VertexTotal(Size(g))
    {
      PartsTotalIs(wh, nparts);
      PartsBelowIs(wh, nparts, Size(g));
    }
  }
}
