/**
 KWayVolUpdate: after a vertex has moved, the records of the vertices around it, their tables and the
 volume gains stored in them are repaired in place, with two scratch arrays. The contracts say that the
 repaired records are the ones a recomputation from scratch gives for the new partition.
 */
module VolumeRefine {
  import opened Graphs
  import opened Volume
  import opened VolumeTables
  import Boundary
  import opened Ratios

  /** The first entry for part `q`, or the length of the table. */
  method FindPid(tbl: seq<EDegree>, q: int) returns (k: nat)
    ensures k <= |tbl| && (k < |tbl| ==> tbl[k].pid == q) && (k == |tbl| ==> !HasPid(tbl, q))
  {
    k := 0;
    while k < |tbl| && tbl[k].pid != q
      invariant k <= |tbl| && forall l :: 0 <= l < k ==> tbl[l].pid != q
    {
      k := k + 1;
    }
  }

  /** The maximum on record: the largest gain of the table plus what the vertex saves itself, or that much above
      -2^30 for a table without larger gains. */
  ghost predicate MaxOk(r: VRInfo, vsize: int)
  {
    var own := if r.ed > 0 && r.id == 0 then vsize else 0;
    && (forall k :: 0 <= k < |r.edegrees| ==> r.edegrees[k].gv + own <= r.gv)
    && (r.gv == -0x4000_0000 + own || exists k :: 0 <= k < |r.edegrees| && r.edegrees[k].gv + own == r.gv)
  }

  /** The bounds of Random_KWayVolRefine: least, greatest and target weights of the parts, and how much a gain is
      worth in weight. */
  datatype Limits = Limits(minwgt: seq<int>, maxwgt: seq<int>, itpwgts: seq<int>, ffactor: int)

  /** What the refinement reads and changes, at one point of time. */
  datatype Snapshot = Snapshot(where: seq<int>, rinfo: seq<VRInfo>, pwgts: seq<int>, mincut: int, minvol: int, nbnd: nat, bndind: seq<int>)

  // ----- When a vertex moves, and where to

  /** What a vertex saves itself by joining a part it touches, having no neighbour in its own. */
  function Saving(r: VRInfo, vsize: int): int
  {
    if r.id == 0 && r.ed > 0 then vsize else 0
  }

  predicate InRange(b: Limits, pwgts: seq<int>, tbl: seq<EDegree>)
  {
    && |b.minwgt| == |b.maxwgt| == |b.itpwgts| == |pwgts|
    && forall l :: 0 <= l < |tbl| ==> 0 <= tbl[l].pid < |pwgts|
  }

  /** Entry `l` does not lose volume, and its part has room, if need be because of the gain. */
  predicate Admitted(b: Limits, pwgts: seq<int>, tbl: seq<EDegree>, vwgt: int, saving: int, l: nat)
    requires InRange(b, pwgts, tbl) && l < |tbl|
  {
    var e := tbl[l];
    pwgts[e.pid] + vwgt <= b.maxwgt[e.pid] + b.ffactor * e.gv && saving + e.gv >= 0
  }

  /** The part of entry `l` has room. */
  predicate Fits(b: Limits, pwgts: seq<int>, tbl: seq<EDegree>, vwgt: int, l: nat)
    requires InRange(b, pwgts, tbl) && l < |tbl|
  {
    pwgts[tbl[l].pid] + vwgt <= b.maxwgt[tbl[l].pid]
  }

  /** Entry `l` gains more than `k`, or as much and cuts more, or as much and its part is relatively lighter. */
  predicate Better(b: Limits, pwgts: seq<int>, tbl: seq<EDegree>, l: nat, k: nat)
    requires InRange(b, pwgts, tbl) && l < |tbl| && k < |tbl|
  {
    var d, e := tbl[l], tbl[k];
    || d.gv > e.gv
    || (d.gv == e.gv && d.ed > e.ed)
    || (d.gv == e.gv && d.ed == e.ed && Lighter(pwgts[d.pid], b.itpwgts[d.pid], pwgts[e.pid], b.itpwgts[e.pid]))
  }

  predicate PositiveTargets(b: Limits)
  {
    forall q :: 0 <= q < |b.itpwgts| ==> b.itpwgts[q] > 0
  }

  /** Nothing is admitted before `f`. */
  predicate FirstAdmitted(b: Limits, pwgts: seq<int>, tbl: seq<EDegree>, vwgt: int, saving: int, f: nat)
    requires InRange(b, pwgts, tbl)
  {
    && f < |tbl| && Admitted(b, pwgts, tbl, vwgt, saving, f)
    && forall l :: 0 <= l < f ==> !Admitted(b, pwgts, tbl, vwgt, saving, l)
  }

  /** Entry `k` is the first one admitted, `f`, or a later one before `j` that has room and is better; of those no one gains more, or
      as much and cuts more; and if targets are positive, no one is better at all. */
  ghost predicate ChosenTo(b: Limits, pwgts: seq<int>, tbl: seq<EDegree>, vwgt: int, f: nat, k: nat, j: nat)
    requires InRange(b, pwgts, tbl) && j <= |tbl|
  {
    && f <= k < j && (k == f || (Fits(b, pwgts, tbl, vwgt, k) && tbl[k].gv >= tbl[f].gv && (PositiveTargets(b) ==> Better(b, pwgts, tbl, k, f))))
    && forall l :: f < l < j && Fits(b, pwgts, tbl, vwgt, l) ==>
         && (tbl[l].gv < tbl[k].gv || (tbl[l].gv == tbl[k].gv && tbl[l].ed <= tbl[k].ed))
         && (PositiveTargets(b) ==> !Better(b, pwgts, tbl, l, k))
  }

  ghost predicate Chosen(b: Limits, pwgts: seq<int>, tbl: seq<EDegree>, vwgt: int, saving: int, k: nat)
    requires InRange(b, pwgts, tbl)
  {
    exists f: nat :: FirstAdmitted(b, pwgts, tbl, vwgt, saving, f) && ChosenTo(b, pwgts, tbl, vwgt, f, k, |tbl|)
  }

  /** A move to entry `k` gains volume, or lowers the cut, or keeps the cut and it is the turn of such moves, or the own
      part is full, or it balances. */
  predicate Worth(b: Limits, pwgts: seq<int>, r: VRInfo, from: int, vwgt: int, saving: int, k: nat, turn: nat)
    requires InRange(b, pwgts, r.edegrees) && k < |r.edegrees| && 0 <= from < |pwgts|
  {
    var e := r.edegrees[k];
    || saving + e.gv > 0
    || e.ed > r.id
    || (e.ed == r.id && (|| (turn % 2 == 0 && turn / 4 % 2 == 0)
                         || pwgts[from] >= b.maxwgt[from]
                         || b.itpwgts[from] * (pwgts[e.pid] + vwgt) < b.itpwgts[e.pid] * pwgts[from]))
  }

  /** The vertex is not considered: it has nothing to gain, its part cannot give it up, or no entry is admitted. */
  predicate Idle(b: Limits, pwgts: seq<int>, r: VRInfo, from: int, vwgt: int, saving: int)
    requires InRange(b, pwgts, r.edegrees) && 0 <= from < |pwgts|
  {
    || r.gv < 0
    || (r.id > 0 && pwgts[from] - vwgt < b.minwgt[from])
    || (forall l :: 0 <= l < |r.edegrees| ==> !Admitted(b, pwgts, r.edegrees, vwgt, saving, l))
  }

  lemma BetterTransitive(b: Limits, pwgts: seq<int>, tbl: seq<EDegree>, l: nat, j: nat, k: nat)
    requires InRange(b, pwgts, tbl) && PositiveTargets(b) && l < |tbl| && j < |tbl| && k < |tbl|
    requires Better(b, pwgts, tbl, l, j) && Better(b, pwgts, tbl, j, k)
    ensures Better(b, pwgts, tbl, l, k)
  {
    var x, y, z := tbl[l].pid, tbl[j].pid, tbl[k].pid;
    if tbl[l].gv == tbl[j].gv == tbl[k].gv && tbl[l].ed == tbl[j].ed == tbl[k].ed {
      LighterTransitive(pwgts[x], b.itpwgts[x], pwgts[y], b.itpwgts[y], pwgts[z], b.itpwgts[z]);
    }
  }

  /** Entry `j` replaces `k` or does not. */
  lemma ChosenStep(b: Limits, pwgts: seq<int>, tbl: seq<EDegree>, vwgt: int, f: nat, k: nat, j: nat)
    requires InRange(b, pwgts, tbl) && f < j < |tbl| && ChosenTo(b, pwgts, tbl, vwgt, f, k, j)
    ensures var k' := if Fits(b, pwgts, tbl, vwgt, j) && Better(b, pwgts, tbl, j, k) then j else k;
      ChosenTo(b, pwgts, tbl, vwgt, f, k', j + 1)
  {
    if Fits(b, pwgts, tbl, vwgt, j) && Better(b, pwgts, tbl, j, k) {
      if PositiveTargets(b) {
        if k != f {
          BetterTransitive(b, pwgts, tbl, j, k, f);
        }
        forall l | f < l < j && Fits(b, pwgts, tbl, vwgt, l) ensures !Better(b, pwgts, tbl, l, j) {
          if Better(b, pwgts, tbl, l, j) {
            BetterTransitive(b, pwgts, tbl, l, j, k);
          }
        }
        NotBetterThanItself(b, pwgts, tbl, j);
      }
    }
  }

  lemma NotBetterThanItself(b: Limits, pwgts: seq<int>, tbl: seq<EDegree>, j: nat)
    requires InRange(b, pwgts, tbl) && j < |tbl|
    ensures !Better(b, pwgts, tbl, j, j)
  {
  }

  class Refiner {
    const g: Valid
    const nparts: nat
    const where: array<int>
    const rinfo: array<VRInfo>
    const marker: array<int>
    const phtable: array<int>
    const pwgts: array<int>
    const bndptr: array<int>
    const bndind: array<int>
    var nbnd: nat
    var mincut: int
    var minvol: int
    /** The vertices to update, in the order they were marked. */
    var updind: seq<nat>

    constructor (g: Valid, nparts: nat, where: array<int>, rinfo: array<VRInfo>, marker: array<int>, phtable: array<int>,
                 pwgts: array<int>, bndptr: array<int>, bndind: array<int>)
      ensures this.g == g && this.nparts == nparts && this.where == where && this.rinfo == rinfo
      ensures this.marker == marker && this.phtable == phtable && this.pwgts == pwgts && updind == []
      ensures this.bndptr == bndptr && this.bndind == bndind
    {
      this.g, this.nparts, this.where, this.rinfo := g, nparts, where, rinfo;
      this.marker, this.phtable, this.pwgts, this.updind := marker, phtable, pwgts, [];
      this.bndptr, this.bndind, this.nbnd, this.mincut, this.minvol := bndptr, bndind, 0, 0, 0;
    }

    ghost predicate Shape()
      reads where
    {
      && where.Length == rinfo.Length == marker.Length == bndptr.Length == bndind.Length == Size(g)
      && phtable.Length == pwgts.Length == nparts && Apart()
      && forall u :: 0 <= u < where.Length ==> 0 <= where[u] < nparts
    }

    /** The arrays are different. */
    ghost predicate Apart()
    {
      && where != marker && where != phtable && marker != phtable
      && pwgts != where && pwgts != marker && pwgts != phtable
      && bndptr != bndind && bndptr !in {where, marker, phtable, pwgts} && bndind !in {where, marker, phtable, pwgts}
    }

    /** Every marked vertex is queued. */
    ghost predicate Queued()
      reads this`updind, marker
    {
      && (forall u <- updind :: u < Size(g))
      && (forall u: nat :: u < marker.Length && marker[u] != 0 ==> u in updind)
    }

    /** No record has changed its maximum. */
    ghost predicate SameMax(before: seq<VRInfo>)
      reads rinfo
    {
      |before| == rinfo.Length && forall u :: 0 <= u < rinfo.Length ==> rinfo[u].gv == before[u].gv
    }

    /** The neighbours of `v` in slots before `j` are queued. */
    ghost predicate SlotsQueued(v: nat, j: int)
      requires v < Size(g) && j <= g.xadj[v + 1]
      reads this`updind
    {
      forall k :: g.xadj[v] <= k < j ==> g.adjncy[k] in updind
    }

    static lemma StillIn(a: seq<nat>, b: seq<nat>)
      requires a <= b
      ensures forall x <- a :: x in b
    {
      forall x <- a ensures x in b {
        var i :| 0 <= i < |a| && a[i] == x;
        assert b[i] == x;
      }
    }

    ghost predicate Clear()
      reads phtable
    {
      forall q :: 0 <= q < phtable.Length ==> phtable[q] == -1
    }

    /** The parts a table can name, each with at least one edge. */
    ghost predicate Proper(tbl: seq<EDegree>)
    {
      Distinct(tbl) && forall k :: 0 <= k < |tbl| ==> 0 <= tbl[k].pid < nparts && tbl[k].ned > 0
    }

    lemma ListedMeansConnected(tbl: seq<EDegree>, q: int)
      requires Proper(tbl)
      ensures HasPid(tbl, q) <==> Nd(tbl, q) > 0
    {
      if k :| 0 <= k < |tbl| && tbl[k].pid == q {
        NdAt(tbl, k);
      }
    }

    /** The scratch array indexes `tbl` and marks `own`. */
    ghost predicate Indexed(tbl: seq<EDegree>, own: int)
      reads phtable
    {
      && (forall q :: 0 <= q < phtable.Length ==> (phtable[q] != -1 <==> q == own || HasPid(tbl, q)))
      && (forall k :: 0 <= k < |tbl| && 0 <= tbl[k].pid < phtable.Length && tbl[k].pid != own ==> phtable[tbl[k].pid] == k)
    }

    method Index(tbl: seq<EDegree>, own: int, value: nat)
      requires Shape() && Clear() && Proper(tbl) && 0 <= own < nparts
      modifies phtable
      ensures Indexed(tbl, own)
    {
      for k := 0 to |tbl|
        invariant forall q :: 0 <= q < phtable.Length ==> (phtable[q] != -1 <==> HasPid(tbl[..k], q))
        invariant forall l :: 0 <= l < k ==> phtable[tbl[l].pid] == l
      {
        phtable[tbl[k].pid] := k;
        assert tbl[..k + 1] == tbl[..k] + [tbl[k]];
        assert tbl[..k + 1][k] == tbl[k];
        forall q | 0 <= q < phtable.Length ensures HasPid(tbl[..k + 1], q) <==> HasPid(tbl[..k], q) || q == tbl[k].pid {
          if HasPid(tbl[..k], q) {
            var l :| 0 <= l < k && tbl[..k][l].pid == q;
            assert tbl[..k + 1][l].pid == q;
          }
        }
      }
      assert tbl[..|tbl|] == tbl;
      phtable[own] := value;
    }

    method Unindex(tbl: seq<EDegree>, own: int)
      requires Shape() && Proper(tbl) && 0 <= own < nparts && Indexed(tbl, own)
      modifies phtable
      ensures Clear()
    {
      for k := 0 to |tbl|
        invariant forall q :: 0 <= q < phtable.Length && phtable[q] != -1 ==>
          q == own || exists l :: k <= l < |tbl| && tbl[l].pid == q
      {
        phtable[tbl[k].pid] := -1;
      }
      phtable[own] := -1;
    }

    /** How far an entry moves: an entry for a part without neighbours loses if the neighbours are several in
        the old part, and an entry for a part with neighbours gains if there is only one. */
    function Bump(several: bool, connected: bool, amount: int): int
    {
      if several && !connected then -amount else if !several && connected then amount else 0
    }

    /** Move the gains of a table, as the indexed table tells which parts have neighbours. */
    method Spread(before: seq<EDegree>, several: bool, amount: int) returns (tbl: seq<EDegree>)
      requires forall k :: 0 <= k < |before| ==> 0 <= before[k].pid < phtable.Length
      ensures |tbl| == |before| && forall k :: 0 <= k < |tbl| ==>
        tbl[k] == before[k].(gv := before[k].gv + Bump(several, phtable[before[k].pid] != -1, amount))
    {
      tbl := before;
      for k := 0 to |tbl|
        invariant |tbl| == |before| && forall l :: k <= l < |tbl| ==> tbl[l] == before[l]
        invariant forall l :: 0 <= l < k ==>
          tbl[l] == before[l].(gv := before[l].gv + Bump(several, phtable[before[l].pid] != -1, amount))
      {
        if several && phtable[tbl[k].pid] == -1 {
          tbl := tbl[k := tbl[k].(gv := tbl[k].gv - amount)];
        } else if !several && phtable[tbl[k].pid] != -1 {
          tbl := tbl[k := tbl[k].(gv := tbl[k].gv + amount)];
        }
      }
    }

    /** The movement is the contribution of the indexed vertex. */
    lemma BumpIsContribution(tbl: seq<EDegree>, own: int, me: int, vs: int, sign: int, q: int)
      requires Shape() && Proper(tbl) && Indexed(tbl, own) && 0 <= q < nparts
      requires sign == 1 || sign == -1
      ensures Bump(me == own || Nd(tbl, me) != 1, phtable[q] != -1, sign * vs) == sign * Contribution(vs, me, own, TNeds(tbl), q)
    {
      ListedMeansConnected(tbl, q);
    }

    /** One neighbour `u` of `v`: add (`sign` 1) or remove (`sign` -1) what `v` contributes to its gains. */
    method ContributeTo(v: nat, u: nat, own: int, sign: int)
      requires Shape() && v < Size(g) && u < Size(g) && u != v && Adjacent(g, v, u) && 0 <= own < nparts
      requires Proper(rinfo[v].edegrees) && Proper(rinfo[u].edegrees) && Indexed(rinfo[v].edegrees, own) && (sign == 1 || sign == -1)
      requires where[u] != own ==> HasPid(rinfo[v].edegrees, where[u])
      modifies rinfo
      ensures Shifted(g, where[..], OfVertex(v, old(rinfo[v].edegrees), own, sign), u, old(rinfo[u]), rinfo[u])
      ensures forall w :: 0 <= w < Size(g) && w != u ==> rinfo[w] == old(rinfo[w])
    {
      ghost var tblv, sh := rinfo[v].edegrees, OfVertex(v, rinfo[v].edegrees, own, sign);
      var other, r := where[u], rinfo[u];
      var several := other == own;
      if !several {
        NdAt(rinfo[v].edegrees, phtable[other]);
        several := rinfo[v].edegrees[phtable[other]].ned > 1;
      }
      var tbl := Spread(r.edegrees, several, sign * g.vsize[v]);
      forall k | 0 <= k < |tbl|
        ensures Amount(g, where[..], sh, u, tbl[k].pid) == Bump(several, phtable[tbl[k].pid] != -1, sign * g.vsize[v])
      {
        BumpIsContribution(tblv, own, other, g.vsize[v], sign, tbl[k].pid);
      }
      rinfo[u] := r.(edegrees := tbl);
    }

    /** All neighbours of `v`, with `own` as the part of `v`. */
    method Contribute(v: nat, own: int, sign: int)
      requires Shape() && Clear() && v < Size(g) && 0 <= own < nparts && (sign == 1 || sign == -1)
      requires forall u :: 0 <= u < Size(g) ==> Proper(rinfo[u].edegrees)
      requires forall u: nat :: u < Size(g) && Adjacent(g, v, u) && where[u] != own ==> HasPid(rinfo[v].edegrees, where[u])
      modifies rinfo, phtable
      ensures Clear() && rinfo[v] == old(rinfo[v])
      ensures forall u: nat :: u < Size(g) ==>
        Shifted(g, where[..], OfVertex(v, old(rinfo[v].edegrees), own, sign), u, old(rinfo[u]), rinfo[u])
    {
      ghost var tblv := rinfo[v].edegrees;
      Index(rinfo[v].edegrees, own, |rinfo[v].edegrees|);
      assert where[..] == old(where[..]);
      for j := g.xadj[v] to g.xadj[v + 1]
        modifies rinfo
        invariant rinfo[v] == old(rinfo[v])
        invariant forall u: nat :: u < Size(g) && !Seen(g, v, j, u) ==> rinfo[u] == old(rinfo[u])
        invariant forall u: nat :: u < Size(g) && Seen(g, v, j, u) ==>
          Shifted(g, where[..], OfVertex(v, tblv, own, sign), u, old(rinfo[u]), rinfo[u])
      {
        SlotWeight(g, v, j);
        var u := g.adjncy[j];
        forall w: nat | w < Size(g) ensures (Seen(g, v, j + 1, w) <==> Seen(g, v, j, w) || w == u) && !Seen(g, v, j, u) {
          SeenStep(g, v, j, w);
        }
        ContributeTo(v, u, own, sign);
      }
      forall u: nat | u < Size(g)
        ensures Shifted(g, where[..], OfVertex(v, tblv, own, sign), u, old(rinfo[u]), rinfo[u])
      {
        SeenEnds(g, v, u);
      }
      Unindex(rinfo[v].edegrees, own);
    }

    /** Queue a vertex for an update of its maximum. */
    method Mark(u: nat)
      requires Shape() && Queued() && u < Size(g)
      modifies marker, this`updind
      ensures Queued() && old(updind) <= updind && u in updind
      ensures forall w :: 0 <= w < Size(g) && marker[w] != old(marker[w]) ==> old(marker[w]) == 0
    {
      if marker[u] == 0 {
        marker[u] := 2;
        updind := updind + [u];
      }
    }

    method ShiftEntry(ii: nat, u: nat, q: int, delta: int) returns (hit: bool)
      requires Shape() && ii < Size(g) && u < Size(g) && Adjacent(g, ii, u) && Distinct(rinfo[u].edegrees)
      modifies rinfo
      ensures Shifted(g, where[..], OfPart(ii, q, delta), u, old(rinfo[u]), rinfo[u])
      ensures forall w :: 0 <= w < Size(g) && w != u ==> rinfo[w] == old(rinfo[w])
    {
      var tbl := rinfo[u].edegrees;
      var kk := FindPid(tbl, q);
      hit := kk < |tbl|;
      if hit {
        rinfo[u] := rinfo[u].(edegrees := tbl[kk := tbl[kk].(gv := tbl[kk].gv + delta)]);
      }
    }

    /** All neighbours `u` of `ii`: shift the gain of the entry for part `q`, if there is one. With `mark`,
        unmarked vertices that have one are queued for an update of their maximum. */
    method ShiftPart(ii: nat, q: int, delta: int, mark: bool)
      requires Shape() && Queued() && ii < Size(g) && forall u :: 0 <= u < Size(g) ==> Distinct(rinfo[u].edegrees)
      modifies rinfo, marker, this`updind
      ensures forall u: nat :: u < Size(g) ==>
        Shifted(g, where[..], OfPart(ii, q, delta), u, old(rinfo[u]), rinfo[u])
      ensures Queued() && old(updind) <= updind
      ensures forall u :: 0 <= u < Size(g) && marker[u] != old(marker[u]) ==> old(marker[u]) == 0
    {
      for jj := g.xadj[ii] to g.xadj[ii + 1]
        invariant forall u: nat :: u < Size(g) && !Seen(g, ii, jj, u) ==> rinfo[u] == old(rinfo[u])
        invariant forall u: nat :: u < Size(g) && Seen(g, ii, jj, u) ==>
          Shifted(g, where[..], OfPart(ii, q, delta), u, old(rinfo[u]), rinfo[u])
        invariant Queued() && old(updind) <= updind
        invariant forall u :: 0 <= u < Size(g) && marker[u] != old(marker[u]) ==> old(marker[u]) == 0
      {
        SlotWeight(g, ii, jj);
        var u := g.adjncy[jj];
        forall w: nat | w < Size(g) ensures (Seen(g, ii, jj + 1, w) <==> Seen(g, ii, jj, w) || w == u) && !Seen(g, ii, jj, u) {
          SeenStep(g, ii, jj, w);
        }
        var hit := ShiftEntry(ii, u, q, delta);
        if hit && mark {
          Mark(u);
        }
      }
      forall u: nat | u < Size(g) ensures Seen(g, ii, g.xadj[ii + 1] as int, u) <==> Adjacent(g, ii, u) {
        SeenEnds(g, ii, u);
      }
    }

    /** The first neighbour of `ii` in part `q`, other than `skip`: shift the gains of all its entries. */
    method ShiftOwner(ii: nat, q: int, skip: nat, delta: int) returns (found: int)
      requires Shape() && ii < Size(g)
      modifies rinfo
      ensures found == -1 || (0 <= found < Size(g) && Adjacent(g, ii, found) && where[found] == q && found != skip)
      ensures found == -1 ==> forall u: nat :: u < Size(g) && Adjacent(g, ii, u) && where[u] == q ==> u == skip
      ensures forall u: nat :: u < Size(g) ==> Shifted(g, where[..], OfOwner(found, delta), u, old(rinfo[u]), rinfo[u])
    {
      found := -1;
      for jj := g.xadj[ii] to g.xadj[ii + 1]
        modifies rinfo
        invariant found == -1 && forall u :: 0 <= u < Size(g) ==> rinfo[u] == old(rinfo[u])
        invariant forall u: nat :: u < Size(g) && Seen(g, ii, jj, u) && where[u] == q ==> u == skip
      {
        SlotWeight(g, ii, jj);
        var u := g.adjncy[jj];
        forall w: nat | w < Size(g) ensures Seen(g, ii, jj + 1, w) <==> Seen(g, ii, jj, w) || w == u {
          SeenStep(g, ii, jj, w);
        }
        if u != skip && where[u] == q {
          ShiftAll(u, delta);
          return u;
        }
      }
      forall u: nat | u < Size(g) ensures Seen(g, ii, g.xadj[ii + 1] as int, u) <==> Adjacent(g, ii, u) {
        SeenEnds(g, ii, u);
      }
    }

    method ShiftAll(u: nat, delta: int)
      requires Shape() && u < Size(g)
      modifies rinfo
      ensures forall w: nat :: w < Size(g) ==> Shifted(g, where[..], OfOwner(u, delta), w, old(rinfo[w]), rinfo[w])
    {
      var r := rinfo[u];
      var tbl := r.edegrees;
      for kk := 0 to |tbl|
        modifies {}
        invariant |tbl| == |r.edegrees|
        invariant forall l :: 0 <= l < kk ==> tbl[l] == r.edegrees[l].(gv := r.edegrees[l].gv + delta)
        invariant forall l :: kk <= l < |tbl| ==> tbl[l] == r.edegrees[l]
      {
        tbl := tbl[kk := tbl[kk].(gv := tbl[kk].gv + delta)];
      }
      rinfo[u] := r.(edegrees := tbl);
    }

    /** Remove the edge of weight `w` to `v` from the entry for part `from` of its neighbour `ii`. */
    method DropFrom(v: nat, ii: nat, from: int, w: int)
      requires Shape() && Queued() && ii in updind && v < Size(g) && ii < Size(g) && AllDistinct(rinfo[..]) && w == W(g, ii, v)
      requires Stale(g, where[..], v, from, ii, rinfo[ii].edegrees) && where[ii] != from
      modifies rinfo, marker, this`updind
      ensures Dropped(g, where[..], v, from, ii, rinfo[ii].edegrees)
      ensures rinfo[ii] == old(rinfo[ii]).(edegrees := rinfo[ii].edegrees)
      ensures KeptInStep(g, where[..], old(rinfo[..]), rinfo[..], ii, v)
      ensures old(InStep(g, where[..], rinfo[..], ii, v)) ==> InStep(g, where[..], rinfo[..], ii, v)
      ensures Queued() && old(updind) <= updind && OnlyHarder(old(marker[..]), marker[..])
    {
      ghost var wh, ri := where[..], rinfo[..];
      var tbl := rinfo[ii].edegrees;
      StaleHasFrom(g, wh, v, from, ii, tbl);
      var k := FindPid(tbl, from);
      DropTable(g, wh, v, from, ii, tbl, k);
      var sh := ShiftAfterDrop(v, ii, from, w, k);
      DropKeeps(g, wh, ri, rinfo[..], v, from, ii, k, sh);
    }

    method ShiftAfterDrop(v: nat, ii: nat, from: int, w: int, k: nat) returns (ghost sh: Shift)
      requires Shape() && Queued() && ii in updind && v < Size(g) && ii < Size(g) && AllDistinct(rinfo[..]) && where[v] != from
      requires k < |rinfo[ii].edegrees| && Distinct(DropEdge(rinfo[ii].edegrees, k, w))
      requires rinfo[ii].edegrees[k].ned == Ned(g, where[..], ii, from) + 1
      modifies rinfo, marker, this`updind
      ensures rinfo[ii] == old(rinfo[ii]).(edegrees := DropEdge(old(rinfo[ii].edegrees), k, w))
      ensures Edited(g, where[..], old(rinfo[..]), rinfo[..], ii, sh)
      ensures DropShift(g, where[..], v, from, ii, old(rinfo[ii].edegrees[k].ned), sh)
      ensures Queued() && old(updind) <= updind && OnlyHarder(old(marker[..]), marker[..])
    {
      var tbl := rinfo[ii].edegrees;
      rinfo[ii] := rinfo[ii].(edegrees := DropEdge(tbl, k, w));
      ghost var edited := rinfo[ii];
      WSymmetric(g, ii, ii);
      if tbl[k].ned == 1 {
        marker[ii] := 1;
        ShiftPart(ii, from, -g.vsize[ii], false);
        sh := OfPart(ii, from, -g.vsize[ii]);
      } else if tbl[k].ned == 2 {
        var u := CountWitness(g, where[..], ii, from, Size(g));
        var owner := ShiftOwner(ii, from, v, g.vsize[ii]);
        sh := OfOwner(owner, g.vsize[ii]);
      } else {
        sh := OfOwner(-1, 0);
      }
      assert rinfo[ii].edegrees == edited.edegrees;
    }

    /** Put the edge of weight `w` to `v` on the entry for the part of `v` of its neighbour `ii`. */
    method AddTo(v: nat, ii: nat, ghost from: int, w: int)
      requires Shape() && Queued() && ii in updind && v < Size(g) && ii < Size(g) && AllDistinct(rinfo[..]) && w == W(g, ii, v)
      requires Dropped(g, where[..], v, from, ii, rinfo[ii].edegrees) && where[ii] != where[v]
      modifies rinfo, marker, this`updind
      ensures TableOk(g, where[..], ii, rinfo[ii].edegrees)
      ensures rinfo[ii] == old(rinfo[ii]).(edegrees := rinfo[ii].edegrees)
      ensures KeptInStep(g, where[..], old(rinfo[..]), rinfo[..], ii, v)
      ensures old(InStep(g, where[..], rinfo[..], ii, v)) && marker[ii] != 1 ==> InStep(g, where[..], rinfo[..], ii, v)
      ensures Queued() && old(updind) <= updind && OnlyHarder(old(marker[..]), marker[..])
    {
      ghost var wh, ri := where[..], rinfo[..];
      var tbl := rinfo[ii].edegrees;
      var k := FindPid(tbl, where[v]);
      var garbage: int := *;
      AddTable(g, wh, v, from, ii, tbl, k, garbage);
      ghost var sh := ShiftAfterAdd(v, ii, w, k, garbage);
      AddKeeps(g, wh, ri, rinfo[..], v, from, ii, k, garbage, sh);
    }

    /** A vertex marked for a complete recomputation stays so. */
    ghost predicate OnlyHarder(before: seq<int>, after: seq<int>)
    {
      |before| == |after| && forall u :: 0 <= u < |before| && before[u] == 1 ==> after[u] == 1
    }

    method ShiftAfterAdd(v: nat, ii: nat, w: int, k: nat, garbage: int) returns (ghost sh: Shift)
      requires Shape() && Queued() && ii in updind && v < Size(g) && ii < Size(g) && AllDistinct(rinfo[..]) && Adjacent(g, ii, v)
      requires k <= |rinfo[ii].edegrees| && Distinct(AddEdge(rinfo[ii].edegrees, k, where[v], w, garbage))
      requires k < |rinfo[ii].edegrees| ==> rinfo[ii].edegrees[k].ned == Ned(g, where[..], ii, where[v]) - 1 > 0
      modifies rinfo, marker, this`updind
      ensures rinfo[ii] == old(rinfo[ii]).(edegrees := AddEdge(old(rinfo[ii].edegrees), k, where[v], w, garbage))
      ensures Edited(g, where[..], old(rinfo[..]), rinfo[..], ii, sh)
      ensures AddShift(g, where[..], v, ii, old(if k < |rinfo[ii].edegrees| then rinfo[ii].edegrees[k].ned else 0), sh)
      ensures k == old(|rinfo[ii].edegrees|) ==> marker[ii] == 1
      ensures Queued() && old(updind) <= updind && OnlyHarder(old(marker[..]), marker[..])
    {
      var tbl := rinfo[ii].edegrees;
      rinfo[ii] := rinfo[ii].(edegrees := AddEdge(tbl, k, where[v], w, garbage));
      ghost var edited := rinfo[ii];
      WSymmetric(g, ii, ii);
      if k == |tbl| {
        marker[ii] := 1;
        ShiftPart(ii, where[v], g.vsize[ii], true);
        sh := OfPart(ii, where[v], g.vsize[ii]);
      } else if tbl[k].ned + 1 == 2 {
        OtherOwnerExists(v, ii);
        var owner := ShiftOwner(ii, where[v], v, -g.vsize[ii]);
        sh := OfOwner(owner, -g.vsize[ii]);
      } else {
        sh := OfOwner(-1, 0);
      }
      assert rinfo[ii].edegrees == edited.edegrees;
    }

    /** A second neighbour in the part of `v` besides `v`. */
    lemma OtherOwnerExists(v: nat, ii: nat)
      requires Shape() && v < Size(g) && ii < Size(g) && Adjacent(g, ii, v) && Ned(g, where[..], ii, where[v]) == 2
      ensures exists u: nat :: u < Size(g) && u != v && Adjacent(g, ii, u) && where[u] == where[v]
    {
      var wh := where[..];
      MoveCount(g, wh, v, wh[v] + 1, ii, wh[v], Size(g));
      var u := CountWitness(g, wh[v := wh[v] + 1], ii, wh[v], Size(g));
      assert u != v && wh[v := wh[v] + 1][u] == where[u];
    }

    /** The table of the neighbour: from the old partition to the new one. */
    method UpdateTable(v: nat, ii: nat, from: int, w: int)
      requires Shape() && Queued() && ii in updind && v < Size(g) && ii < Size(g) && AllDistinct(rinfo[..]) && w == W(g, ii, v)
      requires Stale(g, where[..], v, from, ii, rinfo[ii].edegrees)
      modifies rinfo, marker, this`updind
      ensures TableOk(g, where[..], ii, rinfo[ii].edegrees)
      ensures rinfo[ii] == old(rinfo[ii]).(edegrees := rinfo[ii].edegrees)
      ensures KeptInStep(g, where[..], old(rinfo[..]), rinfo[..], ii, v)
      ensures old(InStep(g, where[..], rinfo[..], ii, v)) && marker[ii] != 1 ==> InStep(g, where[..], rinfo[..], ii, v)
      ensures Queued() && old(updind) <= updind && OnlyHarder(old(marker[..]), marker[..])
    {
      ghost var wh, ri := where[..], rinfo[..];
      if where[ii] != from {
        DropFrom(v, ii, from, w);
      } else {
        NothingToDrop(g, wh, v, from, ii, rinfo[ii].edegrees);
      }
      ghost var ri1 := rinfo[..];
      KeptDistinct(g, wh, ri, ri1, ii, v);
      if where[ii] != where[v] {
        AddTo(v, ii, from, w);
      } else {
        NothingToAdd(g, wh, v, from, ii, rinfo[ii].edegrees);
      }
      KeptTwice(g, wh, ri, ri1, rinfo[..], ii, v);
    }

    /** One slot of the moved vertex: bring the record of the neighbour up to date. */
    method UpdateNeighbour(v: nat, ii: nat, from: int, w: int)
      requires Shape() && Queued() && v < Size(g) && ii < Size(g) && AllDistinct(rinfo[..]) && w == W(g, ii, v)
      requires ii != v && Adjacent(g, ii, v) && where[v] != from && InfoOk(g, where[..][v := from], ii, rinfo[ii])
      modifies rinfo, marker, this`updind
      ensures InfoOk(g, where[..], ii, rinfo[ii])
      ensures KeptInStep(g, where[..], old(rinfo[..]), rinfo[..], ii, v)
      ensures old(InStep(g, where[..], rinfo[..], ii, v)) && marker[ii] != 1 ==> InStep(g, where[..], rinfo[..], ii, v)
      ensures Queued() && OnlyHarder(old(marker[..]), marker[..])
      ensures ii in updind && old(updind) <= updind && rinfo[ii].gv == old(rinfo[ii].gv)
    {
      ghost var wh, ri := where[..], rinfo[..];
      Mark(ii);
      ScalarsOk(g, wh, v, from, ii, rinfo[ii]);
      rinfo[ii] := ScalarsAfter(rinfo[ii], where[ii], from, where[v], w);
      ghost var ri1 := rinfo[..];
      ScalarsInStep(g, wh, ri, ri1, ii, v);
      UpdateTable(v, ii, from, w);
      KeptTwice(g, wh, ri, ri1, rinfo[..], ii, v);
    }

    /** The record of the moved vertex. */
    method UpdateOwn(v: nat, from: int)
      requires Shape() && v < Size(g) && where[v] != from && InfoOk(g, where[..][v := from], v, rinfo[v])
      requires HasPid(rinfo[v].edegrees, where[v])
      modifies rinfo
      ensures rinfo[..] == old(rinfo[..])[v := rinfo[v]] && InfoOk(g, where[..], v, rinfo[v]) && rinfo[v].gv == old(rinfo[v].gv)
    {
      var myidx := FindPid(rinfo[v].edegrees, where[v]);
      OwnRecordOk(g, where[..], v, from, rinfo[v], myidx);
      rinfo[v] := OwnRecord(rinfo[v], myidx, from);
    }

    /** All neighbours of the moved vertex. */
    method UpdateNeighbours(v: nat, from: int)
      requires Shape() && Queued() && v < Size(g) && marker[v] == 1
      requires Midway(g, where[..], v, from, g.xadj[v], rinfo[..])
      requires InStepUnlessMarked(g, where[..], rinfo[..], marker[..], v)
      modifies rinfo, marker, this`updind
      ensures Queued() && marker[v] == 1 && old(updind) <= updind
      ensures SlotsQueued(v, g.xadj[v + 1])
      ensures forall u: nat :: u < Size(g) ==> InfoOk(g, where[..], u, rinfo[u])
      ensures InStepUnlessMarked(g, where[..], rinfo[..], marker[..], v) && SameMax(old(rinfo[..]))
    {
      ghost var wh := where[..];
      for j := g.xadj[v] to g.xadj[v + 1]
        invariant where[..] == wh && Shape() && Queued() && marker[v] == 1 && old(updind) <= updind
        invariant SlotsQueued(v, j) && SameMax(old(rinfo[..]))
        invariant Midway(g, wh, v, from, j, rinfo[..])
        invariant InStepUnlessMarked(g, wh, rinfo[..], marker[..], v)
      {
        StepNeighbour(v, from, j);
      }
      MidwayEnd(g, wh, v, from, rinfo[..]);
    }

    method StepNeighbour(v: nat, from: int, j: nat)
      requires Shape() && Queued() && v < Size(g) && marker[v] == 1 && Slot(g, v, j) && SlotsQueued(v, j)
      requires Midway(g, where[..], v, from, j, rinfo[..])
      requires InStepUnlessMarked(g, where[..], rinfo[..], marker[..], v)
      modifies rinfo, marker, this`updind
      ensures Queued() && marker[v] == 1 && old(updind) <= updind && SlotsQueued(v, j + 1)
      ensures Midway(g, where[..], v, from, j + 1, rinfo[..])
      ensures InStepUnlessMarked(g, where[..], rinfo[..], marker[..], v) && SameMax(old(rinfo[..]))
    {
      SlotWeight(g, v, j);
      var ii := g.adjncy[j];
      WSymmetric(g, v, ii);
      SeenStep(g, v, j, ii);
      ghost var ri, marks := rinfo[..], marker[..];
      MidwayDistinct(g, where[..], v, from, j, ri);
      assert InfoOk(g, where[..][v := from], ii, ri[ii]);
      UpdateNeighbour(v, ii, from, g.adjwgt[j]);
      StillIn(old(updind), updind);
      KeptMax(where[..], ri, rinfo[..], ii, v);
      MidwayStep(g, where[..], v, from, j, ri, rinfo[..], ii);
      StillInStep(where[..], ri, rinfo[..], marks, marker[..], ii, v);
    }

    lemma KeptMax(wh: seq<int>, ri: seq<VRInfo>, ri': seq<VRInfo>, ii: nat, v: nat)
      requires Records(g, wh, ri) && Records(g, wh, ri') && ii < Size(g) && KeptInStep(g, wh, ri, ri', ii, v) && ri'[ii].gv == ri[ii].gv
      ensures forall u :: 0 <= u < Size(g) ==> ri'[u].gv == ri[u].gv
    {
      forall u: nat | u < Size(g) ensures ri'[u].gv == ri[u].gv {
        assert u != ii ==> SameShape(ri[u], ri'[u]);
      }
    }

    lemma StillInStep(wh: seq<int>, ri: seq<VRInfo>, ri': seq<VRInfo>, marks: seq<int>, marks': seq<int>, ii: nat, v: nat)
      requires InStepUnlessMarked(g, wh, ri, marks, v) && Records(g, wh, ri') && ii < Size(g) && OnlyHarder(marks, marks')
      requires KeptInStep(g, wh, ri, ri', ii, v) && (InStep(g, wh, ri, ii, v) && marks'[ii] != 1 ==> InStep(g, wh, ri', ii, v))
      ensures InStepUnlessMarked(g, wh, ri', marks', v)
    {
      forall u: nat | u < Size(g) && u != v && marks'[u] != 1 ensures InStep(g, wh, ri', u, v) {
        assert marks[u] != 1;
      }
    }

    /** Every record, except for the gains, is the one of the partition. */
    ghost predicate AllInfo()
      requires Shape()
      reads where, rinfo
    {
      forall u: nat :: u < Size(g) ==> InfoOk(g, where[..], u, rinfo[u])
    }

    /** The gains of one record from scratch, as in ComputeKWayVolume and ComputeKWayVolGains. */
    method RecomputeGains(i: nat)
      requires Shape() && Clear() && i < Size(g) && AllInfo()
      modifies rinfo, phtable
      ensures Clear() && rinfo[..] == old(rinfo[..])[i := rinfo[i]]
      ensures SameShape(old(rinfo[i]), rinfo[i]) && GainsOk(g, where[..], i, rinfo[i])
    {
      var tbl := GainTable(i);
      PartialGainsEnd(g, where[..], i, rinfo[i].(edegrees := tbl));
      rinfo[i] := rinfo[i].(edegrees := tbl);
    }

    method GainTable(i: nat) returns (tbl: seq<EDegree>)
      requires Shape() && Clear() && i < Size(g) && AllInfo()
      modifies phtable
      ensures Clear() && |tbl| == |rinfo[i].edegrees|
      ensures forall k :: 0 <= k < |tbl| ==> tbl[k] == rinfo[i].edegrees[k].(gv := tbl[k].gv)
      ensures PartialGains(g, where[..], i, g.xadj[i + 1], tbl)
    {
      var entries := rinfo[i].edegrees;
      assert Proper(entries) by { InfoProper(where[..], i, rinfo[i]); }
      tbl := seq(|entries|, k requires 0 <= k < |entries| => entries[k].(gv := 0));
      PartialGainsStart(g, where[..], i, tbl);
      for j := g.xadj[i] to g.xadj[i + 1]
        invariant Clear() && |tbl| == |entries|
        invariant forall k :: 0 <= k < |tbl| ==> tbl[k] == entries[k].(gv := tbl[k].gv)
        invariant PartialGains(g, where[..], i, j, tbl)
      {
        tbl := GainStep(i, j, tbl);
      }
    }

    method GainStep(i: nat, j: nat, tbl: seq<EDegree>) returns (next: seq<EDegree>)
      requires Shape() && Clear() && i < Size(g) && Slot(g, i, j) && AllInfo() && PartialGains(g, where[..], i, j, tbl)
      requires forall k :: 0 <= k < |tbl| ==> 0 <= tbl[k].pid < nparts
      modifies phtable
      ensures Clear() && |next| == |tbl| && forall k :: 0 <= k < |tbl| ==> next[k] == tbl[k].(gv := next[k].gv)
      ensures PartialGains(g, where[..], i, j + 1, next)
    {
      SlotWeight(g, i, j);
      var ii := g.adjncy[j];
      WSymmetric(g, i, ii);
      InfoProper(where[..], ii, rinfo[ii]);
      next := AddTerms(i, ii, tbl);
      PartialGainsStep(g, where[..], i, j, tbl, next);
    }

    /** The tables of a partition into parts below `nparts` name only such parts. */
    lemma InfoProper(wh: seq<int>, u: nat, r: VRInfo)
      requires Partition(g, wh) && u < Size(g) && InfoOk(g, wh, u, r) && forall x :: 0 <= x < |wh| ==> 0 <= wh[x] < nparts
      ensures Proper(r.edegrees)
      ensures forall x: nat :: x < Size(g) && Adjacent(g, u, x) && wh[x] != wh[u] ==> HasPid(r.edegrees, wh[x])
    {
      forall k | 0 <= k < |r.edegrees| ensures 0 <= r.edegrees[k].pid < nparts {
        var x := CountWitness(g, wh, u, r.edegrees[k].pid, Size(g));
      }
      forall x: nat | x < Size(g) && Adjacent(g, u, x) && wh[x] != wh[u] ensures HasPid(r.edegrees, wh[x]) {
        CountMember(g, wh, u, wh[x], Size(g), x);
        assert Neds(g, wh, u)(wh[x]) > 0;
      }
    }

    /** One neighbour `ii` of `i`: add its contribution to every entry of the table of `i`. */
    method AddTerms(i: nat, ii: nat, before: seq<EDegree>) returns (tbl: seq<EDegree>)
      requires Shape() && Clear() && i < Size(g) && ii < Size(g) && Adjacent(g, ii, i) && i != ii
      requires TableOk(g, where[..], ii, rinfo[ii].edegrees) && Proper(rinfo[ii].edegrees)
      requires where[i] != where[ii] ==> HasPid(rinfo[ii].edegrees, where[i])
      requires forall k :: 0 <= k < |before| ==> 0 <= before[k].pid < nparts
      modifies phtable
      ensures Clear() && |tbl| == |before|
      ensures forall k :: 0 <= k < |tbl| ==>
        tbl[k] == before[k].(gv := before[k].gv + Terms(g, where[..], i, before[k].pid)(ii))
    {
      ghost var wh := where[..];
      var otbl, me, other := rinfo[ii].edegrees, where[i], where[ii];
      Index(otbl, other, 1);
      var several := me == other;
      if !several {
        NdAt(otbl, phtable[me]);
        several := otbl[phtable[me]].ned != 1;
      }
      tbl := Spread(before, several, g.vsize[ii]);
      forall k | 0 <= k < |tbl|
        ensures Terms(g, wh, i, before[k].pid)(ii) == Bump(several, phtable[before[k].pid] != -1, g.vsize[ii])
      {
        BumpIsContribution(otbl, other, me, g.vsize[ii], 1, before[k].pid);
        TableTerm(g, wh, ii, i, otbl, before[k].pid);
      }
      Unindex(otbl, other);
    }

    /** One refreshed record: its maximum is right, and its gains are recomputed if it was marked for that. */
    ghost predicate RefreshedOk(wh: seq<int>, mark: int, u: nat, before: VRInfo, after: VRInfo)
      requires Partition(g, wh) && u < Size(g)
    {
      MaxOk(after, g.vsize[u]) && if mark == 1 then GainsOk(g, wh, u, after) else after.edegrees == before.edegrees
    }

    /** The vertices in `done` are refreshed, and no other record has changed. */
    ghost predicate Refreshed(wh: seq<int>, marks: seq<int>, done: seq<nat>, before: seq<VRInfo>, after: seq<VRInfo>)
    {
      && Partition(g, wh) && |marks| == |before| == |after| == Size(g)
      && forall u: nat :: u < Size(g) ==> if u in done then RefreshedOk(wh, marks[u], u, before[u], after[u]) else after[u] == before[u]
    }

    lemma RefreshedPush(wh: seq<int>, marks: seq<int>, done: seq<nat>, i: nat, before: seq<VRInfo>, mid: seq<VRInfo>, after: seq<VRInfo>)
      requires i < Size(g) && Refreshed(wh, marks, done, before, mid) && |after| == |mid| && after == mid[i := after[i]]
      requires RefreshedOk(wh, marks[i], i, mid[i], after[i])
      ensures Refreshed(wh, marks, done + [i], before, after)
    {
      forall u: nat | u < Size(g)
        ensures if u in done + [i] then RefreshedOk(wh, marks[u], u, before[u], after[u]) else after[u] == before[u]
      {
        assert u in done + [i] <==> u in done || u == i;
      }
    }

    /** ComputeKWayVolume: recompute the gains of the marked records, and the maximum of all queued ones. */
    method ComputeKWayVolume()
      requires Shape() && Clear() && Queued() && AllInfo()
      modifies rinfo, phtable
      ensures Clear() && AllInfo() && Refreshed(where[..], marker[..], updind, old(rinfo[..]), rinfo[..])
    {
      for n := 0 to |updind|
        invariant Clear() && AllInfo() && Refreshed(where[..], marker[..], updind[..n], old(rinfo[..]), rinfo[..])
      {
        assert updind[..n + 1] == updind[..n] + [updind[n]];
        assert updind[n] in updind;
        ghost var ri := rinfo[..];
        Refresh(updind[n]);
        RefreshedPush(where[..], marker[..], updind[..n], updind[n], old(rinfo[..]), ri, rinfo[..]);
      }
      assert updind[..|updind|] == updind;
    }

    /** One queued vertex. */
    method Refresh(i: nat)
      requires Shape() && Clear() && AllInfo() && i < Size(g)
      modifies rinfo, phtable
      ensures Clear() && AllInfo() && rinfo[..] == old(rinfo[..])[i := rinfo[i]] && MaxOk(rinfo[i], g.vsize[i])
      ensures if marker[i] == 1 then GainsOk(g, where[..], i, rinfo[i]) else rinfo[i].edegrees == old(rinfo[i].edegrees)
    {
      ghost var ri := rinfo[..];
      if marker[i] == 1 {
        RecomputeGains(i);
        ShapeInfo(g, where[..], i, ri[i], rinfo[i]);
      }
      var gv := MaxGain(rinfo[i], g.vsize[i]);
      rinfo[i] := rinfo[i].(gv := gv);
      forall u: nat | u < Size(g) ensures InfoOk(g, where[..], u, rinfo[u]) {
        assert u != i ==> rinfo[..][u] == ri[u];
      }
    }

    /** The largest gain of a record, plus what the vertex saves itself; an empty table counts as -2^30. */
    method MaxGain(r: VRInfo, vsize: int) returns (gv: int)
      ensures MaxOk(r.(gv := gv), vsize)
    {
      gv := -0x4000_0000;
      for k := 0 to |r.edegrees|
        invariant forall l :: 0 <= l < k ==> r.edegrees[l].gv <= gv
        invariant gv == -0x4000_0000 || exists l :: 0 <= l < k && r.edegrees[l].gv == gv
      {
        if r.edegrees[k].gv > gv { gv := r.edegrees[k].gv; }
      }
      if r.ed > 0 && r.id == 0 { gv := gv + vsize; }
    }

    /** Everything the old partition says of the moved vertex is taken back. */
    method RemoveOld(v: nat, from: int)
      requires Shape() && Clear() && v < Size(g) && 0 <= from < nparts && where[v] != from
      requires forall u: nat :: u < Size(g) ==>
        InfoOk(g, where[..][v := from], u, rinfo[u]) && GainsOk(g, where[..][v := from], u, rinfo[u])
      modifies rinfo, phtable
      ensures Clear()
      ensures forall u: nat :: u < Size(g) ==> InfoOk(g, where[..][v := from], u, rinfo[u])
      ensures forall u: nat :: u < Size(g) && u != v ==> InStep(g, where[..], rinfo[..], u, v)
      ensures SameMax(old(rinfo[..]))
    {
      ghost var wh, ri := where[..], rinfo[..];
      ghost var before := wh[v := from];
      forall u: nat | u < Size(g) ensures Proper(rinfo[u].edegrees) {
        InfoProper(before, u, rinfo[u]);
      }
      InfoProper(before, v, rinfo[v]);
      WSymmetric(g, v, v);
      assert forall u: nat :: u < Size(g) && Adjacent(g, v, u) ==> before[u] == where[u];
      Contribute(v, from, -1);
      RemovedAll(g, wh, v, from, ri, rinfo[..]);
    }

    /** What the moved vertex contributes in its new part is added. */
    method AddNew(v: nat)
      requires Shape() && Clear() && v < Size(g) && AllInfo()
      requires InStepUnlessMarked(g, where[..], rinfo[..], marker[..], v)
      modifies rinfo, phtable
      ensures Clear() && AllInfo() && SameMax(old(rinfo[..]))
      ensures forall u: nat :: u < Size(g) && u != v && marker[u] != 1 ==> GainsOk(g, where[..], u, rinfo[u])
    {
      ghost var wh, ri := where[..], rinfo[..];
      forall u: nat | u < Size(g) ensures Proper(rinfo[u].edegrees) {
        InfoProper(wh, u, rinfo[u]);
      }
      InfoProper(wh, v, rinfo[v]);
      Contribute(v, where[v], 1);
      RestoredAll(g, wh, v, ri, rinfo[..], marker[..]);
    }

    /** What the old partition says of the moved vertex is taken back, its own record is brought up to date, and
        it is marked. */
    method BeginUpdate(v: nat, from: int)
      requires Shape() && Clear() && v < Size(g) && 0 <= from < nparts && where[v] != from
      requires forall u :: 0 <= u < Size(g) ==> marker[u] == 0
      requires forall u: nat :: u < Size(g) ==>
        InfoOk(g, where[..][v := from], u, rinfo[u]) && GainsOk(g, where[..][v := from], u, rinfo[u])
      requires Ned(g, where[..][v := from], v, where[v]) > 0
      modifies rinfo, marker, phtable, this`updind
      ensures Clear() && Queued() && marker[v] == 1 && v in updind
      ensures Midway(g, where[..], v, from, g.xadj[v], rinfo[..])
      ensures InStepUnlessMarked(g, where[..], rinfo[..], marker[..], v) && SameMax(old(rinfo[..]))
    {
      RemoveOld(v, from);
      ghost var ri1 := rinfo[..];
      assert HasPid(rinfo[v].edegrees, where[v]) by {
        assert Neds(g, where[..][v := from], v)(where[v]) > 0;
      }
      UpdateOwn(v, from);
      forall u: nat | u < Size(g) && u != v ensures InStep(g, where[..], rinfo[..], u, v) {
        OwnEditKeeps(g, where[..], ri1, rinfo[v], v, u);
      }
      marker[v] := 1;
      updind := [v];
      MidwayStart(g, where[..], v, from, rinfo[..]);
    }

    /**
     KWayVolUpdate, after `where[v]` was changed from `from` to a part that `v` touches: entered with the
     records of the old partition and clear scratch arrays, it leaves the records of the new one, gains
     included, and clear scratch arrays. The boundary list stays consistent, and lists the updated vertices as
     their records say.
     */
    method KWayVolUpdate(v: nat, from: int)
      requires Shape() && Clear() && v < Size(g) && 0 <= from < nparts && where[v] != from
      requires forall u :: 0 <= u < Size(g) ==> marker[u] == 0
      requires forall u: nat :: u < Size(g) ==>
        InfoOk(g, where[..][v := from], u, rinfo[u]) && GainsOk(g, where[..][v := from], u, rinfo[u])
      requires Ned(g, where[..][v := from], v, where[v]) > 0
      requires Boundary.Listed(nbnd, bndind, bndptr)
      modifies rinfo, marker, phtable, this`updind, this`nbnd, bndptr, bndind
      ensures Clear() && forall u :: 0 <= u < Size(g) ==> marker[u] == 0
      ensures forall u: nat :: u < Size(g) ==> InfoOk(g, where[..], u, rinfo[u]) && GainsOk(g, where[..], u, rinfo[u])
      ensures v in updind && SlotsQueued(v, g.xadj[v + 1]) && Boundary.Listed(nbnd, bndind, bndptr)
      ensures MaxSince(updind, old(rinfo[..]), rinfo[..]) && UpdatesSettled(old(bndptr[..]))
    {
      UpdateRecords(v, from);
      Settle();
    }

    /** What the moved vertex contributes is added, and the gains of the marked vertices are recomputed. */
    method FinishUpdate(v: nat)
      requires Shape() && Clear() && Queued() && v < Size(g) && marker[v] == 1 && AllInfo()
      requires InStepUnlessMarked(g, where[..], rinfo[..], marker[..], v)
      modifies rinfo, phtable
      ensures Clear() && AllInfo() && forall u: nat :: u < Size(g) ==> GainsOk(g, where[..], u, rinfo[u])
      ensures MaxSince(updind, old(rinfo[..]), rinfo[..])
    {
      AddNew(v);
      ghost var ri := rinfo[..];
      ComputeKWayVolume();
      forall u: nat | u < Size(g) ensures GainsOk(g, where[..], u, rinfo[u]) {
        if marker[u] != 1 {
          assert GainsOk(g, where[..], u, ri[u]);
        }
      }
    }

    /** The records of a move, up to the maintenance of the boundary. */
    method UpdateRecords(v: nat, from: int)
      requires Shape() && Clear() && v < Size(g) && 0 <= from < nparts && where[v] != from
      requires forall u :: 0 <= u < Size(g) ==> marker[u] == 0
      requires forall u: nat :: u < Size(g) ==>
        InfoOk(g, where[..][v := from], u, rinfo[u]) && GainsOk(g, where[..][v := from], u, rinfo[u])
      requires Ned(g, where[..][v := from], v, where[v]) > 0
      modifies rinfo, marker, phtable, this`updind
      ensures Clear() && Queued() && v in updind && SlotsQueued(v, g.xadj[v + 1])
      ensures AllInfo() && forall u: nat :: u < Size(g) ==> GainsOk(g, where[..], u, rinfo[u])
      ensures MaxSince(updind, old(rinfo[..]), rinfo[..])
    {
      BeginUpdate(v, from);
      ghost var queued := updind;
      UpdateNeighbours(v, from);
      StillIn(queued, updind);
      ghost var ri := rinfo[..];
      FinishUpdate(v);
      MaxSinceSame(updind, old(rinfo[..]), ri, rinfo[..]);
    }

    /** The vertices in `done` have the right maximum, and the others have kept theirs. */
    ghost predicate MaxSince(done: seq<nat>, before: seq<VRInfo>, after: seq<VRInfo>)
    {
      && |before| == |after| == Size(g)
      && forall u: nat :: u < Size(g) ==> if u in done then MaxOk(after[u], g.vsize[u]) else after[u].gv == before[u].gv
    }

    lemma MaxSinceSame(done: seq<nat>, before: seq<VRInfo>, mid: seq<VRInfo>, after: seq<VRInfo>)
      requires MaxSince(done, mid, after) && |before| == |mid| && forall u :: 0 <= u < |mid| ==> mid[u].gv == before[u].gv
      ensures MaxSince(done, before, after)
    {
    }

    /** Whether the boundary should list a vertex: moving it gains volume, or would not raise the cut. */
    predicate OnBoundary(r: VRInfo)
    {
      r.gv >= 0 || r.ed - r.id >= 0
    }

    ghost predicate Settled(u: nat)
      requires Shape() && u < Size(g)
      reads where, rinfo, bndptr
    {
      bndptr[u] != -1 <==> OnBoundary(rinfo[u])
    }

    /** The updated vertices are listed as their records say, and the others have kept their place in or out of the
        boundary. */
    ghost predicate UpdatesSettled(ptr: seq<int>)
      requires Shape() && |ptr| == Size(g)
      reads this`updind, where, rinfo, bndptr
    {
      forall u: nat :: u < Size(g) ==> if u in updind then Settled(u) else (bndptr[u] == -1 <==> ptr[u] == -1)
    }

    method SettleOne(k: nat)
      requires Shape() && k < Size(g) && Boundary.Listed(nbnd, bndind, bndptr)
      modifies this`nbnd, bndptr, bndind
      ensures Boundary.Listed(nbnd, bndind, bndptr) && Settled(k)
      ensures forall u :: 0 <= u < Size(g) && u != k ==> (bndptr[u] == -1 <==> old(bndptr[u]) == -1)
    {
      if OnBoundary(rinfo[k]) && bndptr[k] == -1 {
        nbnd := Boundary.BndInsert(nbnd, bndind, bndptr, k);
      } else if !OnBoundary(rinfo[k]) && bndptr[k] != -1 {
        nbnd := Boundary.BndDelete(nbnd, bndind, bndptr, k);
      }
    }

    /** Unmark the updated vertices, and list them as their records say. */
    method Settle()
      requires Shape() && Queued() && Boundary.Listed(nbnd, bndind, bndptr)
      modifies marker, this`nbnd, bndptr, bndind
      ensures Boundary.Listed(nbnd, bndind, bndptr)
      ensures forall u :: 0 <= u < Size(g) ==> marker[u] == 0
      ensures UpdatesSettled(old(bndptr[..]))
    {
      for n := 0 to |updind|
        invariant Boundary.Listed(nbnd, bndind, bndptr)
        invariant forall u: nat :: u < Size(g) && u !in updind ==> (bndptr[u] == -1 <==> old(bndptr[u]) == -1)
        invariant forall u: nat :: u < Size(g) && marker[u] != 0 ==> u in updind[n..]
        invariant forall u: nat :: u < Size(g) && u in updind[..n] ==> Settled(u)
      {
        assert updind[n] in updind;
        assert updind[n..] == [updind[n]] + updind[n + 1..] && updind[..n + 1] == updind[..n] + [updind[n]];
        marker[updind[n]] := 0;
        SettleOne(updind[n]);
      }
      assert updind[..|updind|] == updind;
    }

    /** The state between two moves: records, part weights, cut and volume are those of the partition. */
    ghost predicate Consistent()
      reads this`mincut, this`minvol, this`nbnd, where, rinfo, marker, phtable, pwgts, bndptr, bndind
    {
      && Shape() && Clear() && (forall u :: 0 <= u < Size(g) ==> marker[u] == 0)
      && AllInfo() && (forall u: nat :: u < Size(g) ==> GainsOk(g, where[..], u, rinfo[u]))
      && (forall p :: 0 <= p < nparts ==> pwgts[p] == WeightOf(g, where[..], p))
      && 2 * mincut == Cut2(g, where[..])
      && minvol == TotalVolume(g, where[..], nparts)
      && Boundary.Listed(nbnd, bndind, bndptr)
    }

    /** The entry Random_KWayVolRefine moves a vertex to: the first one admitted, replaced by later ones that have room
        and are better; the length of the table if none is admitted. */
    method Candidate(tbl: seq<EDegree>, vwgt: int, saving: int, b: Limits) returns (k: nat)
      requires InRange(b, pwgts[..], tbl)
      ensures k == |tbl| <==> forall l :: 0 <= l < |tbl| ==> !Admitted(b, pwgts[..], tbl, vwgt, saving, l)
      ensures k <= |tbl| && (k < |tbl| ==> Chosen(b, pwgts[..], tbl, vwgt, saving, k) && saving + tbl[k].gv >= 0)
    {
      k := 0;
      while k < |tbl| && !(pwgts[tbl[k].pid] + vwgt <= b.maxwgt[tbl[k].pid] + b.ffactor * tbl[k].gv && saving + tbl[k].gv >= 0)
        invariant k <= |tbl| && forall l :: 0 <= l < k ==> !Admitted(b, pwgts[..], tbl, vwgt, saving, l)
      {
        k := k + 1;
      }
      if k == |tbl| { return; }
      ghost var f := k;
      for j := k + 1 to |tbl|
        invariant f < j && FirstAdmitted(b, pwgts[..], tbl, vwgt, saving, f) && ChosenTo(b, pwgts[..], tbl, vwgt, f, k, j)
      {
        ChosenStep(b, pwgts[..], tbl, vwgt, f, k, j);
        var to, old' := tbl[j].pid, tbl[k].pid;
        if pwgts[to] + vwgt <= b.maxwgt[to] {
          if || tbl[j].gv > tbl[k].gv
             || (tbl[j].gv == tbl[k].gv && tbl[j].ed > tbl[k].ed)
             || (tbl[j].gv == tbl[k].gv && tbl[j].ed == tbl[k].ed && b.itpwgts[old'] * pwgts[to] < b.itpwgts[to] * pwgts[old']) {
            k := j;
          }
        }
      }
    }

    /** The move itself, to the part of entry `k`. */
    method Move(i: nat, k: nat)
      requires Consistent() && i < Size(g) && k < |rinfo[i].edegrees|
      modifies where, rinfo, marker, phtable, pwgts, this`updind, this`mincut, this`minvol, this`nbnd, bndptr, bndind
      ensures Consistent() && where[..] == old(where[..])[i := old(rinfo[i].edegrees[k].pid)]
      ensures minvol == old(minvol) - OwnGain(g, old(where[..]), i) - old(rinfo[i].edegrees[k].gv)
      ensures mincut == old(mincut) - (old(rinfo[i].edegrees[k].ed) - old(rinfo[i].id))
    {
      var from := Reassign(i, k);
      KWayVolUpdate(i, from);
    }

    /** The weights, the cut and the volume, and the vertex itself. */
    method Reassign(i: nat, k: nat) returns (from: int)
      requires Consistent() && i < Size(g) && k < |rinfo[i].edegrees|
      modifies where, pwgts, this`mincut, this`minvol
      ensures Shape() && from == old(where[i]) != where[i] && 0 <= from < nparts && where[..][i := from] == old(where[..])
      ensures where[..] == old(where[..])[i := old(rinfo[i].edegrees[k].pid)] && Ned(g, where[..][i := from], i, where[i]) > 0
      ensures forall p :: 0 <= p < nparts ==> pwgts[p] == WeightOf(g, where[..], p)
      ensures 2 * mincut == Cut2(g, where[..]) && minvol == TotalVolume(g, where[..], nparts)
      ensures minvol == old(minvol) - OwnGain(g, old(where[..]), i) - old(rinfo[i].edegrees[k].gv)
      ensures mincut == old(mincut) - (old(rinfo[i].edegrees[k].ed) - old(rinfo[i].id))
    {
      ghost var wh := where[..];
      var r := rinfo[i];
      var to, vwgt := r.edegrees[k].pid, g.vwgt[i];
      from := where[i];
      var xgain := if r.id == 0 && r.ed > 0 then g.vsize[i] else 0;
      InfoProper(wh, i, r);
      MoveEffects(wh, i, to);
      TouchesMeansExternal(wh, i, to);
      pwgts[to] := pwgts[to] + vwgt;
      pwgts[from] := pwgts[from] - vwgt;
      mincut := mincut - (r.edegrees[k].ed - r.id);
      minvol := minvol - (xgain + r.edegrees[k].gv);
      where[i] := to;
      assert where[..] == wh[i := to] && where[..][i := from] == wh;
    }

    lemma MoveEffects(wh: seq<int>, i: nat, to: int)
      requires Partition(g, wh) && i < Size(g) && 0 <= wh[i] < nparts && 0 <= to < nparts && to != wh[i] && Ned(g, wh, i, to) > 0
      ensures Cut2(g, wh[i := to]) == Cut2(g, wh) - 2 * (DegTo(g, wh, i, to) - DegTo(g, wh, i, wh[i]))
      ensures OwnGain(g, wh, i) + Gain(g, wh, i, to) == TotalVolume(g, wh, nparts) - TotalVolume(g, wh[i := to], nparts)
      ensures forall p ::
        WeightOf(g, wh[i := to], p)
        == WeightOf(g, wh, p) + (if p == to then g.vwgt[i] else 0) - (if p == wh[i] then g.vwgt[i] else 0)
    {
      MoveCut(g, wh, i, to);
      GainIsVolumeChange(g, wh, i, to, nparts);
      forall p ensures WeightOf(g, wh[i := to], p) == WeightOf(g, wh, p)
        + (if p == to then g.vwgt[i] else 0) - (if p == wh[i] then g.vwgt[i] else 0)
      {
        MovePartWeight(g, wh, i, to, p, Size(g));
      }
    }

    lemma TouchesMeansExternal(wh: seq<int>, i: nat, to: int)
      requires Partition(g, wh) && i < Size(g) && to != wh[i] && Ned(g, wh, i, to) > 0
      ensures ExtTo(g, wh, i) > 0
    {
      var x := CountWitness(g, wh, i, to, Size(g));
      ExtSign(g, wh, i, Size(g));
    }

    /** One visit of Random_KWayVolRefine: move the vertex if that helps. A move that changes neither volume nor
        cut is made in turns without bits 0 and 2 (`turn & 5`), or if it helps the balance. */
    method Visit(i: nat, b: Limits, turn: nat)
      requires Consistent() && i < Size(g) && Bounding(b)
      modifies where, rinfo, marker, phtable, pwgts, this`updind, this`mincut, this`minvol, this`nbnd, bndptr, bndind
      ensures Consistent() && minvol <= old(minvol)
      ensures VisitRule(b, old(Now()), Now(), i, turn)
    {
      NowSound(i, b);
      var k, move := Decide(i, b, turn);
      if move {
        ghost var wh, r := where[..], rinfo[i];
        SavingIsOwnGain(i, k);
        Move(i, k);
      }
    }

    /** Whether to move the vertex, and to which entry. */
    method Decide(i: nat, b: Limits, turn: nat) returns (k: nat, move: bool)
      requires Sound(Now(), b, i) && g.vsize[i] > 0 && where.Length == rinfo.Length == Size(g) && pwgts.Length == nparts
      ensures var r, from, vwgt := rinfo[i], where[i], g.vwgt[i]; var saving := Saving(r, g.vsize[i]);
        && (Idle(b, pwgts[..], r, from, vwgt, saving) ==> !move)
        && (!Idle(b, pwgts[..], r, from, vwgt, saving) ==>
              && k < |r.edegrees| && Chosen(b, pwgts[..], r.edegrees, vwgt, saving, k)
              && (move <==> Worth(b, pwgts[..], r, from, vwgt, saving, k, turn)))
        && (move ==> k < |r.edegrees| && saving + r.edegrees[k].gv >= 0)
    {
      var r := rinfo[i];
      var from, vwgt := where[i], g.vwgt[i];
      if r.gv < 0 || (r.id > 0 && pwgts[from] - vwgt < b.minwgt[from]) { return 0, false; }
      var xgain := if r.id == 0 && r.ed > 0 then g.vsize[i] else 0;
      k := Candidate(r.edegrees, vwgt, xgain, b);
      if k == |r.edegrees| { return k, false; }
      var e := r.edegrees[k];
      move := xgain + e.gv > 0 || e.ed - r.id > 0;
      if !move && e.ed - r.id == 0 {
        move := (turn % 2 == 0 && turn / 4 % 2 == 0) || pwgts[from] >= b.maxwgt[from] || b.itpwgts[from] * (pwgts[e.pid] + vwgt) < b.itpwgts[e.pid] * pwgts[from];
      }
    }

    /** A vertex with an entry in its table saves its size exactly when it has no neighbour in its own part. */
    lemma SavingIsOwnGain(i: nat, k: nat)
      requires Consistent() && i < Size(g) && k < |rinfo[i].edegrees|
      ensures Saving(rinfo[i], g.vsize[i]) == OwnGain(g, where[..], i)
    {
      InfoProper(where[..], i, rinfo[i]);
      assert Neds(g, where[..], i)(rinfo[i].edegrees[k].pid) > 0;
      TouchesMeansExternal(where[..], i, rinfo[i].edegrees[k].pid);
    }

    ghost predicate Bounding(b: Limits)
    {
      |b.minwgt| == |b.maxwgt| == |b.itpwgts| == nparts
    }

    ghost function Now(): Snapshot
      reads where, rinfo, pwgts, bndind, this`mincut, this`minvol, this`nbnd
    {
      Snapshot(where[..], rinfo[..], pwgts[..], mincut, minvol, nbnd, bndind[..])
    }

    /** The parts that a visit of `i` looks at exist. */
    ghost predicate Sound(s: Snapshot, b: Limits, i: nat)
    {
      && i < Size(g) == |s.where| == |s.rinfo| && Bounding(b) && |s.pwgts| == nparts
      && 0 <= s.where[i] < nparts && InRange(b, s.pwgts, s.rinfo[i].edegrees)
    }

    lemma NowSound(i: nat, b: Limits)
      requires Consistent() && i < Size(g) && Bounding(b)
      ensures Sound(Now(), b, i)
    {
      InfoProper(where[..], i, rinfo[i]);
    }

    /** What a visit of vertex `i` does: nothing if the vertex is idle; otherwise one entry is chosen, and the vertex moves
        to its part exactly when that is worth it. */
    ghost predicate VisitRule(b: Limits, s: Snapshot, s': Snapshot, i: nat, turn: nat)
    {
      && Sound(s, b, i)
      && var r, from, vwgt := s.rinfo[i], s.where[i], g.vwgt[i];
      && var saving := Saving(r, g.vsize[i]);
      && if Idle(b, s.pwgts, r, from, vwgt, saving) then s' == s
         else exists k: nat :: k < |r.edegrees| && Chosen(b, s.pwgts, r.edegrees, vwgt, saving, k) && VisitTo(b, s, s', i, turn, k)
    }

    ghost predicate VisitTo(b: Limits, s: Snapshot, s': Snapshot, i: nat, turn: nat, k: nat)
      requires Sound(s, b, i) && k < |s.rinfo[i].edegrees|
    {
      var r, from, vwgt := s.rinfo[i], s.where[i], g.vwgt[i];
      var saving, e := Saving(r, g.vsize[i]), r.edegrees[k];
      if Worth(b, s.pwgts, r, from, vwgt, saving, k, turn)
      then s'.where == s.where[i := e.pid] && s'.minvol == s.minvol - (saving + e.gv) && s'.mincut == s.mincut - (e.ed - r.id)
      else s' == s
    }

    /** A vertex that can leave its part, and has an admitted entry with room that gains volume, moves, and the volume
        shrinks. */
    lemma HelpfulMoveIsMade(b: Limits, s: Snapshot, s': Snapshot, i: nat, turn: nat, l: nat)
      requires VisitRule(b, s, s', i, turn) && l < |s.rinfo[i].edegrees|
      requires var r := s.rinfo[i]; r.gv >= 0 && !(r.id > 0 && s.pwgts[s.where[i]] - g.vwgt[i] < b.minwgt[s.where[i]])
      requires Admitted(b, s.pwgts, s.rinfo[i].edegrees, g.vwgt[i], Saving(s.rinfo[i], g.vsize[i]), l)
      requires Fits(b, s.pwgts, s.rinfo[i].edegrees, g.vwgt[i], l) && Saving(s.rinfo[i], g.vsize[i]) + s.rinfo[i].edegrees[l].gv > 0
      ensures s'.minvol < s.minvol && exists k :: 0 <= k < |s.rinfo[i].edegrees| && s'.where == s.where[i := s.rinfo[i].edegrees[k].pid]
    {
      var r, vwgt := s.rinfo[i], g.vwgt[i];
      var saving := Saving(r, g.vsize[i]);
      var k: nat :| k < |r.edegrees| && Chosen(b, s.pwgts, r.edegrees, vwgt, saving, k) && VisitTo(b, s, s', i, turn, k);
      var f: nat :| FirstAdmitted(b, s.pwgts, r.edegrees, vwgt, saving, f) && ChosenTo(b, s.pwgts, r.edegrees, vwgt, f, k, |r.edegrees|);
      assert f <= l;
      assert r.edegrees[l].gv <= r.edegrees[k].gv;
    }

    // ----- Passes

    /** Turn `t` of a pass: place `perm[t]` of the boundary is visited, if there is such a place. */
    ghost predicate TurnRule(b: Limits, perm: seq<nat>, s: Snapshot, s': Snapshot, t: nat)
    {
      && t < |perm| && t < s.nbnd <= |s.bndind|
      && if perm[t] < s.nbnd then s.bndind[perm[t]] >= 0 && VisitRule(b, s, s', s.bndind[perm[t]], t) else s' == s
    }

    /** A pass went through these states, and ended when it had had as many turns as the boundary is long. */
    ghost predicate PassRun(b: Limits, perm: seq<nat>, hist: seq<Snapshot>)
    {
      && |hist| > 0 && hist[|hist| - 1].nbnd <= |hist| - 1
      && forall t: nat :: t < |hist| - 1 ==> TurnRule(b, perm, hist[t], hist[t + 1], t)
    }

    /** One pass of Random_KWayVolRefine. `perm` is the scratch array of visiting places; the boundary list, and
        with it the number of places visited, changes while the pass goes on. */
    method RandomPass(perm: seq<nat>, b: Limits) returns (ghost hist: seq<Snapshot>)
      requires Consistent() && Bounding(b) && |perm| == Size(g)
      modifies where, rinfo, marker, phtable, pwgts, this`updind, this`mincut, this`minvol, this`nbnd, bndptr, bndind
      ensures Consistent() && minvol <= old(minvol)
      ensures PassRun(b, perm, hist) && hist[0] == old(Now()) && hist[|hist| - 1] == Now()
    {
      var iii := 0;
      hist := [Now()];
      while iii < nbnd
        invariant Consistent() && minvol <= old(minvol)
        invariant |hist| == iii + 1 && hist[0] == old(Now()) && hist[iii] == Now()
        invariant forall t: nat :: t < iii ==> TurnRule(b, perm, hist[t], hist[t + 1], t)
        decreases Size(g) - iii
      {
        ghost var before := hist;
        Turn(perm, b, iii);
        hist := hist + [Now()];
        forall t: nat | t < iii + 1 ensures TurnRule(b, perm, hist[t], hist[t + 1], t) {
          if t < iii {
            assert TurnRule(b, perm, before[t], before[t + 1], t);
          }
        }
        iii := iii + 1;
      }
    }

    method Turn(perm: seq<nat>, b: Limits, t: nat)
      requires Consistent() && Bounding(b) && |perm| == Size(g) && t < nbnd
      modifies where, rinfo, marker, phtable, pwgts, this`updind, this`mincut, this`minvol, this`nbnd, bndptr, bndind
      ensures Consistent() && minvol <= old(minvol) && TurnRule(b, perm, old(Now()), Now(), t)
    {
      if perm[t] < nbnd {
        Boundary.ListedAt(nbnd, bndind, bndptr, perm[t]);
        Visit(bndind[perm[t]], b, t);
      }
    }

    ghost predicate Improved(hist: seq<Snapshot>)
    {
      |hist| > 0 && (hist[0].minvol != hist[|hist| - 1].minvol || hist[0].mincut != hist[|hist| - 1].mincut)
    }

    ghost predicate Joined(a: seq<Snapshot>, b: seq<Snapshot>)
    {
      |a| > 0 && |b| > 0 && b[0] == a[|a| - 1]
    }

    /** Pass follows pass from `start` to `now`, and every one but perhaps the last improved something. */
    ghost predicate Passes(b: Limits, perms: seq<seq<nat>>, runs: seq<seq<Snapshot>>, start: Snapshot, now: Snapshot)
    {
      && |runs| <= |perms|
      && (forall n: nat :: n < |runs| ==> PassRun(b, perms[n], runs[n]))
      && (forall n: nat :: n < |runs| - 1 ==> Improved(runs[n]) && Joined(runs[n], runs[n + 1]))
      && Joined([start], if runs == [] then [now] else runs[0]) && (runs != [] ==> Joined(runs[|runs| - 1], [now]))
    }

    lemma PassesPush(b: Limits, perms: seq<seq<nat>>, runs: seq<seq<Snapshot>>, start: Snapshot, now: Snapshot, hist: seq<Snapshot>)
      requires Passes(b, perms, runs, start, now) && |runs| < |perms| && (runs != [] ==> Improved(runs[|runs| - 1]))
      requires PassRun(b, perms[|runs|], hist) && hist[0] == now
      ensures Passes(b, perms, runs + [hist], start, hist[|hist| - 1])
    {
    }

    /** Random_KWayVolRefine: the records stay exact, and the volume never grows; it stops early only after a pass that
        changed neither volume nor cut. */
    method RandomKWayVolRefine(perms: seq<seq<nat>>, b: Limits) returns (ghost runs: seq<seq<Snapshot>>)
      requires Consistent() && Bounding(b) && forall perm <- perms :: |perm| == Size(g)
      modifies where, rinfo, marker, phtable, pwgts, this`updind, this`mincut, this`minvol, this`nbnd, bndptr, bndind
      ensures Consistent() && minvol <= old(minvol) && Passes(b, perms, runs, old(Now()), Now())
      ensures |runs| < |perms| ==> runs != [] && !Improved(runs[|runs| - 1])
    {
      runs := [];
      for pass := 0 to |perms|
        invariant Consistent() && minvol <= old(minvol) && |runs| == pass
        invariant Passes(b, perms, runs, old(Now()), Now()) && (runs != [] ==> Improved(runs[|runs| - 1]))
      {
        var oldcut, oldvol := mincut, minvol;
        assert perms[pass] in perms;
        ghost var now := Now();
        ghost var hist := RandomPass(perms[pass], b);
        PassesPush(b, perms, runs, old(Now()), now, hist);
        runs := runs + [hist];
        if minvol == oldvol && mincut == oldcut { break; }
      }
    }
  }
}
