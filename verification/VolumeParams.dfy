/**
 How the volume refiner gets its records: ComputeVolKWayPartitionParams computes degrees and tables, weights and
 cut from scratch, and ComputeKWayVolGains the gains, the volume and the boundary. Together they establish the
 state that the refiner keeps.
 */
module VolumeParams {
  import opened Graphs
  import opened Volume
  import opened VolumeTables
  import opened VolumeRefine
  import Boundary
  import KWayProject

  // ----- Counting slots

  ghost function CountTerm(where: seq<int>, q: int): nat -> int
  {
    (y: nat) => if y < |where| && where[y] == q then 1 else 0
  }

  /** How many slots of `u` before `j` lead to part `q`. */
  ghost function SlotCount(g: Valid, where: seq<int>, u: nat, q: int, j: int): int
    requires Partition(g, where) && u < Size(g)
  {
    SeenSum(g, u, j, CountTerm(where, q), Size(g))
  }

  lemma SlotCountStep(g: Valid, where: seq<int>, u: nat, q: int, j: int)
    requires Partition(g, where) && u < Size(g) && Slot(g, u, j)
    ensures SlotCount(g, where, u, q, j + 1) == SlotCount(g, where, u, q, j) + if where[g.adjncy[j]] == q then 1 else 0
  {
    SeenSumStep(g, u, j, CountTerm(where, q), Size(g));
  }

  lemma {:induction false} SlotCountEnd(g: Valid, where: seq<int>, u: nat, q: int, m: nat)
    requires Partition(g, where) && u < Size(g) && m <= Size(g)
    ensures SeenSum(g, u, g.xadj[u + 1], CountTerm(where, q), m) == Count(g, where, u, q, m)
  {
    if m > 0 {
      SlotCountEnd(g, where, u, q, m - 1);
      SeenEnds(g, u, m - 1);
    }
  }

  /** No slots, no weight. */
  lemma {:induction false} SlotCountSign(g: Valid, where: seq<int>, u: nat, q: int, j: int, m: nat)
    requires Partition(g, where) && u < Size(g) && m <= Size(g)
    ensures var count, weight := SeenSum(g, u, j, CountTerm(where, q), m), SeenSum(g, u, j, DegTerm(g, where, u, q), m);
      count >= 0 && (count == 0 ==> weight == 0)
  {
    if m > 0 {
      SlotCountSign(g, where, u, q, j, m - 1);
    }
  }

  ghost function SlotCounts(g: Valid, where: seq<int>, u: nat, j: int): int -> int
    requires Partition(g, where) && u < Size(g)
  {
    q => SlotCount(g, where, u, q, j)
  }

  /** The table agrees with the slots of `u` before `j`. */
  ghost predicate Partial(g: Valid, where: seq<int>, u: nat, j: int, tbl: seq<EDegree>)
    requires Partition(g, where) && u < Size(g)
  {
    Matches(tbl, where[u], SlotCounts(g, where, u, j), KWayProject.SlotDegs(g, where, u, j))
  }

  lemma PartialStart(g: Valid, where: seq<int>, u: nat)
    requires Partition(g, where) && u < Size(g)
    ensures Partial(g, where, u, g.xadj[u], [])
  {
    forall q ensures SlotCounts(g, where, u, g.xadj[u])(q) == 0 {
      SeenSumStart(g, u, CountTerm(where, q), Size(g));
    }
  }

  lemma SlotsGrow(g: Valid, where: seq<int>, u: nat, j: int, q: int)
    requires Partition(g, where) && u < Size(g) && Slot(g, u, j)
    ensures SlotCounts(g, where, u, j + 1)(q) == Less(SlotCounts(g, where, u, j), where[g.adjncy[j]], -1)(q)
    ensures KWayProject.SlotDegs(g, where, u, j + 1)(q) == Less(KWayProject.SlotDegs(g, where, u, j), where[g.adjncy[j]], -g.adjwgt[j])(q)
    ensures SlotCounts(g, where, u, j)(q) >= 0
    ensures SlotCounts(g, where, u, j)(q) == 0 ==> KWayProject.SlotDegs(g, where, u, j)(q) == 0
  {
    SlotCountStep(g, where, u, q, j);
    SlotDegStep(g, where, u, q, j);
    SlotCountSign(g, where, u, q, j, Size(g));
  }

  lemma PartialStep(g: Valid, where: seq<int>, u: nat, j: int, tbl: seq<EDegree>, k: nat)
    requires Partition(g, where) && u < Size(g) && Slot(g, u, j) && Partial(g, where, u, j, tbl) && k <= |tbl|
    requires where[g.adjncy[j]] != where[u] && if k < |tbl| then tbl[k].pid == where[g.adjncy[j]] else !HasPid(tbl, where[g.adjncy[j]])
    ensures Partial(g, where, u, j + 1, AddEdge(tbl, k, where[g.adjncy[j]], g.adjwgt[j], 0))
  {
    var cnt, wt := SlotCounts(g, where, u, j), KWayProject.SlotDegs(g, where, u, j);
    var other, w := where[g.adjncy[j]], g.adjwgt[j];
    forall q ensures cnt(q) >= 0 && (cnt(q) == 0 ==> wt(q) == 0)
      && SlotCounts(g, where, u, j + 1)(q) == Less(cnt, other, -1)(q) && KWayProject.SlotDegs(g, where, u, j + 1)(q) == Less(wt, other, -w)(q)
    {
      SlotsGrow(g, where, u, j, q);
    }
    AddMatches(tbl, where[u], cnt, wt, k, other, w, 0);
    MatchesSame(AddEdge(tbl, k, other, w, 0), where[u], Less(cnt, other, -1), Less(wt, other, -w),
                SlotCounts(g, where, u, j + 1), KWayProject.SlotDegs(g, where, u, j + 1));
  }

  lemma PartialSkip(g: Valid, where: seq<int>, u: nat, j: int, tbl: seq<EDegree>)
    requires Partition(g, where) && u < Size(g) && Slot(g, u, j) && Partial(g, where, u, j, tbl) && where[g.adjncy[j]] == where[u]
    ensures Partial(g, where, u, j + 1, tbl)
  {
    var cnt, wt := SlotCounts(g, where, u, j), KWayProject.SlotDegs(g, where, u, j);
    forall q | q != where[u]
      ensures SlotCounts(g, where, u, j + 1)(q) == cnt(q) && KWayProject.SlotDegs(g, where, u, j + 1)(q) == wt(q)
    {
      SlotsGrow(g, where, u, j, q);
    }
    MatchesSame(tbl, where[u], cnt, wt, SlotCounts(g, where, u, j + 1), KWayProject.SlotDegs(g, where, u, j + 1));
  }

  lemma PartialEnd(g: Valid, where: seq<int>, u: nat, tbl: seq<EDegree>)
    requires Partition(g, where) && u < Size(g) && Partial(g, where, u, g.xadj[u + 1], tbl)
    ensures TableOk(g, where, u, tbl)
  {
    var cnt, wt := SlotCounts(g, where, u, g.xadj[u + 1]), KWayProject.SlotDegs(g, where, u, g.xadj[u + 1]);
    forall q ensures Neds(g, where, u)(q) == cnt(q) && Degs(g, where, u)(q) == wt(q) {
      SlotCountEnd(g, where, u, q, Size(g));
      SlotDegEnd(g, where, u, q, Size(g));
    }
    MatchesSame(tbl, where[u], cnt, wt, Neds(g, where, u), Degs(g, where, u));
  }

  // ----- The records

  /** The weight and the number of the edges of `i` inside its part. */
  method Internal(r: Refiner, i: nat) returns (id: int, nid: int)
    requires r.Shape() && i < Size(r.g)
    ensures id == DegTo(r.g, r.where[..], i, r.where[i]) && nid == Ned(r.g, r.where[..], i, r.where[i])
  {
    ghost var wh := r.where[..];
    var g, me := r.g, r.where[i];
    id, nid := 0, 0;
    SeenSumStart(g, i, DegTerm(g, wh, i, me), Size(g));
    SeenSumStart(g, i, CountTerm(wh, me), Size(g));
    for j := g.xadj[i] to g.xadj[i + 1]
      invariant id == SlotDeg(g, wh, i, me, j) && nid == SlotCount(g, wh, i, me, j)
    {
      SlotDegStep(g, wh, i, me, j);
      SlotCountStep(g, wh, i, me, j);
      if me == r.where[g.adjncy[j]] { id, nid := id + g.adjwgt[j], nid + 1; }
    }
    SlotDegEnd(g, wh, i, me, Size(g));
    SlotCountEnd(g, wh, i, me, Size(g));
  }

  method CountEdge(g: Valid, ghost where: seq<int>, ghost u: nat, j: nat, tbl: seq<EDegree>, other: int) returns (tbl': seq<EDegree>)
    requires Partition(g, where) && u < Size(g) && Slot(g, u, j) && Partial(g, where, u, j, tbl)
    requires other == where[g.adjncy[j]] != where[u]
    ensures Partial(g, where, u, j + 1, tbl')
  {
    var k := FindPid(tbl, other);
    PartialStep(g, where, u, j, tbl, k);
    tbl' := AddEdge(tbl, k, other, g.adjwgt[j], 0);
  }

  /** The table of `i`, with gains still to be computed. */
  method FreshTable(r: Refiner, i: nat) returns (tbl: seq<EDegree>)
    requires r.Shape() && i < Size(r.g)
    ensures TableOk(r.g, r.where[..], i, tbl)
  {
    tbl := [];
    PartialStart(r.g, r.where[..], i);
    for j := r.g.xadj[i] to r.g.xadj[i + 1]
      invariant Partial(r.g, r.where[..], i, j, tbl)
    {
      tbl := CountSlot(r.g, r.where, i, j, tbl);
    }
    PartialEnd(r.g, r.where[..], i, tbl);
  }

  method CountSlot(g: Valid, where: array<int>, i: nat, j: nat, tbl: seq<EDegree>) returns (tbl': seq<EDegree>)
    requires Partition(g, where[..]) && i < Size(g) && Slot(g, i, j) && Partial(g, where[..], i, j, tbl)
    ensures Partial(g, where[..], i, j + 1, tbl')
  {
    var other := where[g.adjncy[j]];
    if where[i] != other {
      tbl' := CountEdge(g, where[..], i, j, tbl, other);
    } else {
      tbl' := tbl;
      PartialSkip(g, where[..], i, j, tbl);
    }
  }

  /** A vertex without external weight has an empty table. */
  lemma NoTable(g: Valid, where: seq<int>, u: nat)
    requires Partition(g, where) && u < Size(g) && ExtTo(g, where, u) == 0
    ensures TableOk(g, where, u, [])
  {
    forall q | q != where[u] ensures Neds(g, where, u)(q) == 0 {
      CountSign(g, where, u, q, Size(g));
      KWayProject.PartOfExt(g, where, u, q, Size(g));
    }
  }

  method ComputeRecord(r: Refiner, i: nat, adjwgtsum: seq<int>) returns (ed: int)
    requires r.Shape() && i < Size(r.g) && KWayProject.Sums(r.g, adjwgtsum)
    modifies r.rinfo
    ensures InfoOk(r.g, r.where[..], i, r.rinfo[i]) && ed == ExtTo(r.g, r.where[..], i)
    ensures forall u :: 0 <= u < Size(r.g) && u != i ==> r.rinfo[u] == old(r.rinfo[u])
  {
    ghost var wh := r.where[..];
    var id, nid := Internal(r, i);
    KWayProject.SumIsDegrees(r.g, wh, i);
    ed := adjwgtsum[i] - id;
    var tbl := [];
    if ed > 0 {
      tbl := FreshTable(r, i);
    } else {
      ExtSign(r.g, wh, i, Size(r.g));
      NoTable(r.g, wh, i);
    }
    r.rinfo[i] := VRInfo(id, ed, nid, 0, tbl);
  }

  /** Cut and weights of the vertices below `i`. */
  ghost predicate Summed(r: Refiner, i: nat, cut: int)
    requires r.Shape() && i <= Size(r.g)
    reads r.where, r.pwgts
  {
    cut == ExtSum(r.g, r.where[..], i) && forall p :: 0 <= p < r.nparts ==> r.pwgts[p] == PartWeight(r.g, r.where[..], p, i)
  }

  /** The first loop of ComputeVolKWayPartitionParams: all records, the weights and the cut. */
  method ComputeRecords(r: Refiner, adjwgtsum: seq<int>)
    requires r.Shape() && KWayProject.Sums(r.g, adjwgtsum)
    modifies r.rinfo, r.pwgts, r`mincut
    ensures r.AllInfo() && 2 * r.mincut == Cut2(r.g, r.where[..])
    ensures forall p :: 0 <= p < r.nparts ==> r.pwgts[p] == WeightOf(r.g, r.where[..], p)
  {
    for p := 0 to r.nparts
      invariant forall q :: 0 <= q < p ==> r.pwgts[q] == 0
    {
      r.pwgts[p] := 0;
    }
    var cut := 0;
    for i := 0 to Size(r.g)
      invariant Summed(r, i, cut)
      invariant forall u: nat :: u < i ==> InfoOk(r.g, r.where[..], u, r.rinfo[u])
    {
      r.pwgts[r.where[i]] := r.pwgts[r.where[i]] + r.g.vwgt[i];
      var ed := ComputeRecord(r, i, adjwgtsum);
      cut := cut + ed;
    }
    r.mincut := cut / 2;
    CutIsEven(r.g, r.where[..]);
  }

  // ----- The gains

  /** The first `i` vertices have their gains, and are listed as their records say. */
  ghost predicate Gained(r: Refiner, i: nat)
    requires r.Shape() && i <= Size(r.g)
    reads r`nbnd, r.where, r.rinfo, r.bndptr, r.bndind
  {
    && (forall u: nat :: u < i ==> GainsOk(r.g, r.where[..], u, r.rinfo[u]) && MaxOk(r.rinfo[u], r.g.vsize[u]))
    && Boundary.Listed(r.nbnd, r.bndind, r.bndptr)
    && (forall u: nat :: u < Size(r.g) ==> (r.bndptr[u] != -1 <==> u < i && r.OnBoundary(r.rinfo[u])))
  }

  method GainOne(r: Refiner, i: nat) returns (vol: int)
    requires r.Shape() && r.Clear() && r.AllInfo() && i < Size(r.g) && Gained(r, i)
    modifies r.rinfo, r.phtable, r`nbnd, r.bndptr, r.bndind
    ensures r.Clear() && r.AllInfo() && Gained(r, i + 1) && vol == VolOf(r.g, r.where[..], i, r.nparts)
  {
    ghost var ri := r.rinfo[..];
    vol := |r.rinfo[i].edegrees| * r.g.vsize[i];
    TableVolume(r.g, r.where[..], i, r.rinfo[i].edegrees, r.nparts);
    if |r.rinfo[i].edegrees| > 0 {
      r.RecomputeGains(i);
      ShapeInfo(r.g, r.where[..], i, ri[i], r.rinfo[i]);
    }
    var gv := r.MaxGain(r.rinfo[i], r.g.vsize[i]);
    r.rinfo[i] := r.rinfo[i].(gv := gv);
    assert forall u :: 0 <= u < Size(r.g) && u != i ==> r.rinfo[u] == ri[u];
    r.SettleOne(i);
  }

  /** The state after the vertices below `i`, with their volume. */
  ghost predicate GainedBelow(r: Refiner, i: nat, minvol: int)
    requires r.Shape() && i <= Size(r.g)
    reads r`nbnd, r.where, r.rinfo, r.phtable, r.bndptr, r.bndind
  {
    r.Clear() && r.AllInfo() && Gained(r, i) && minvol == VolumeUpTo(r.g, r.where[..], r.nparts, i)
  }

  method GainNext(r: Refiner, i: nat, minvol: int) returns (minvol': int)
    requires r.Shape() && i < Size(r.g) && GainedBelow(r, i, minvol)
    modifies r.rinfo, r.phtable, r`nbnd, r.bndptr, r.bndind
    ensures GainedBelow(r, i + 1, minvol')
  {
    ghost var wh := r.where[..];
    var vol := GainOne(r, i);
    assert r.where[..] == wh;
    minvol' := minvol + vol;
  }

  /** idxset(nvtxs, -1, bndptr), and an empty list. */
  method EmptyBoundary(r: Refiner)
    requires r.Shape()
    modifies r`nbnd, r.bndptr
    ensures Gained(r, 0)
  {
    for i := 0 to Size(r.g)
      modifies r.bndptr
      invariant forall u :: 0 <= u < i ==> r.bndptr[u] == -1
    {
      r.bndptr[i] := -1;
    }
    r.nbnd := 0;
  }

  /** ComputeKWayVolGains: every gain, the volume, and the boundary. */
  method ComputeKWayVolGains(r: Refiner)
    requires r.Shape() && r.Clear() && r.AllInfo()
    modifies r.rinfo, r.phtable, r`minvol, r`nbnd, r.bndptr, r.bndind
    ensures r.Clear() && r.AllInfo() && Gained(r, Size(r.g)) && r.minvol == TotalVolume(r.g, r.where[..], r.nparts)
  {
    EmptyBoundary(r);
    var minvol := 0;
    for i := 0 to Size(r.g)
      invariant GainedBelow(r, i, minvol)
    {
      minvol := GainNext(r, i, minvol);
    }
    r.minvol := minvol;
  }

  /**
   ComputeVolKWayPartitionParams: from scratch, every record, gain, weight, the cut, the volume and the boundary
   are those of the partition, so the refiner can start.
   */
  method ComputeVolKWayPartitionParams(r: Refiner, adjwgtsum: seq<int>)
    requires r.Shape() && r.Clear() && (forall u :: 0 <= u < Size(r.g) ==> r.marker[u] == 0) && KWayProject.Sums(r.g, adjwgtsum)
    modifies r.rinfo, r.phtable, r.pwgts, r`mincut, r`minvol, r`nbnd, r.bndptr, r.bndind
    ensures r.Consistent() && forall u: nat :: u < Size(r.g) ==> MaxOk(r.rinfo[u], r.g.vsize[u]) && r.Settled(u)
  {
    ComputeRecords(r, adjwgtsum);
    ComputeKWayVolGains(r);
  }
}
