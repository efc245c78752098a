/**
 How the k-way refiner gets its records: ComputeKWayPartitionParams computes them from scratch, and
 ProjectKWayPartition takes a partition of the coarse graph to the fine one and computes only the records of
 vertices whose coarse image touches another part. Both are proved against one definition of the records,
 FreshRecord, down to the order of the tables and the places in the arena.
 */
module KWayProject {
  import opened Graphs
  import opened Contraction
  import opened Coarsen
  import opened KWayTables
  import opened KWayRefine
  import Boundary

  // ----- Sums over slots

  /** The weights of the slots of `u` before `j` that lead to other parts. */
  ghost function ExtSlots(g: Valid, where: seq<int>, u: nat, j: int): int
    requires Partition(g, where) && u < Size(g) && g.xadj[u] <= j <= g.xadj[u + 1]
    decreases j
  {
    if j == g.xadj[u] then 0
    else ExtSlots(g, where, u, j - 1) + if where[g.adjncy[j - 1]] != where[u] then g.adjwgt[j - 1] else 0
  }

  ghost function ExtTerm(g: Valid, where: seq<int>, u: nat): nat -> int
    requires Partition(g, where) && u < Size(g)
  {
    (y: nat) => if y < |where| && where[y] != where[u] then W(g, u, y) else 0
  }

  lemma {:induction false} ExtSlotsSeen(g: Valid, where: seq<int>, u: nat, j: int)
    requires Partition(g, where) && u < Size(g) && g.xadj[u] <= j <= g.xadj[u + 1]
    ensures ExtSlots(g, where, u, j) == SeenSum(g, u, j, ExtTerm(g, where, u), Size(g))
    decreases j
  {
    if j == g.xadj[u] {
      SeenSumStart(g, u, ExtTerm(g, where, u), Size(g));
    } else {
      ExtSlotsSeen(g, where, u, j - 1);
      SeenSumStep(g, u, j - 1, ExtTerm(g, where, u), Size(g));
      SlotWeight(g, u, j - 1);
    }
  }

  lemma {:induction false} ExtSeenEnd(g: Valid, where: seq<int>, u: nat, m: nat)
    requires Partition(g, where) && u < Size(g) && m <= Size(g)
    ensures SeenSum(g, u, g.xadj[u + 1], ExtTerm(g, where, u), m) == Ext(g, where, u, m)
  {
    if m > 0 {
      ExtSeenEnd(g, where, u, m - 1);
      SeenEnds(g, u, m - 1);
      WSymmetric(g, u, m - 1);
    }
  }

  lemma ExtSlotsEnd(g: Valid, where: seq<int>, u: nat)
    requires Partition(g, where) && u < Size(g)
    ensures ExtSlots(g, where, u, g.xadj[u + 1]) == ExtTo(g, where, u)
  {
    ExtSlotsSeen(g, where, u, g.xadj[u + 1]);
    ExtSeenEnd(g, where, u, Size(g));
  }

  /** Every slot leads to the own part or to another one. */
  lemma {:induction false} SlotsSplit(g: Valid, where: seq<int>, u: nat, j: int)
    requires Partition(g, where) && u < Size(g) && g.xadj[u] <= j <= g.xadj[u + 1]
    ensures PrefixSum(g, u, j) == SlotDeg(g, where, u, where[u], j) + ExtSlots(g, where, u, j)
    decreases j
  {
    if j == g.xadj[u] {
      SeenSumStart(g, u, DegTerm(g, where, u, where[u]), Size(g));
    } else {
      SlotsSplit(g, where, u, j - 1);
      SlotDegStep(g, where, u, where[u], j - 1);
    }
  }

  /** adjwgtsum[u] is the internal and the external weight together. */
  lemma SumIsDegrees(g: Valid, where: seq<int>, u: nat)
    requires Partition(g, where) && u < Size(g)
    ensures SlotSum(g, u) == DegTo(g, where, u, where[u]) + ExtTo(g, where, u)
  {
    SlotsSplit(g, where, u, g.xadj[u + 1]);
    PrefixSumIs(g, u, g.xadj[u + 1]);
    SlotDegEnd(g, where, u, where[u], Size(g));
    ExtSlotsEnd(g, where, u);
  }

  // ----- The table of one vertex

  /** The first entry for part `q`, or the length of the table. */
  ghost function Find(tbl: seq<EDegree>, q: int): (k: nat)
    ensures k <= |tbl| && (k < |tbl| ==> tbl[k].pid == q) && forall l :: 0 <= l < k ==> tbl[l].pid != q
  {
    if tbl == [] then 0
    else
      var k := Find(tbl[..|tbl| - 1], q);
      if k < |tbl| - 1 || tbl[k].pid == q then k else |tbl|
  }

  /** The table after the slots of `u` before `j`: entries appear in the order in which the slots meet parts. */
  ghost function FreshTable(g: Valid, where: seq<int>, u: nat, j: int): seq<EDegree>
    requires Partition(g, where) && u < Size(g) && g.xadj[u] <= j <= g.xadj[u + 1]
    decreases j
  {
    if j == g.xadj[u] then []
    else
      var tbl, other := FreshTable(g, where, u, j - 1), where[g.adjncy[j - 1]];
      if other == where[u] then tbl else AddEdge(tbl, Find(tbl, other), other, g.adjwgt[j - 1])
  }

  ghost function SlotDegs(g: Valid, where: seq<int>, u: nat, j: int): int -> int
    requires Partition(g, where) && u < Size(g)
  {
    q => SlotDeg(g, where, u, q, j)
  }

  lemma FreshTableStep(g: Valid, where: seq<int>, u: nat, j: int, tbl: seq<EDegree>)
    requires Partition(g, where) && u < Size(g) && Slot(g, u, j) && Matches(tbl, where[u], SlotDegs(g, where, u, j))
    ensures var other := where[g.adjncy[j]];
      Matches(if other == where[u] then tbl else AddEdge(tbl, Find(tbl, other), other, g.adjwgt[j]), where[u], SlotDegs(g, where, u, j + 1))
  {
    var wt, wt', other, w := SlotDegs(g, where, u, j), SlotDegs(g, where, u, j + 1), where[g.adjncy[j]], g.adjwgt[j];
    forall q ensures wt'(q) == Less(wt, other, -w)(q) {
      SlotDegStep(g, where, u, q, j);
    }
    if other == where[u] {
      MatchesSame(tbl, where[u], wt, wt');
    } else {
      AddMatches(tbl, where[u], wt, Find(tbl, other), other, w);
      MatchesSame(AddEdge(tbl, Find(tbl, other), other, w), where[u], Less(wt, other, -w), wt');
    }
  }

  lemma {:induction false} FreshTableMatches(g: Valid, where: seq<int>, u: nat, j: int)
    requires Partition(g, where) && u < Size(g) && g.xadj[u] <= j <= g.xadj[u + 1]
    ensures Matches(FreshTable(g, where, u, j), where[u], SlotDegs(g, where, u, j))
    decreases j
  {
    if j == g.xadj[u] {
      forall q ensures SlotDegs(g, where, u, j)(q) == 0 {
        SeenSumStart(g, u, DegTerm(g, where, u, q), Size(g));
      }
    } else {
      FreshTableMatches(g, where, u, j - 1);
      FreshTableStep(g, where, u, j - 1, FreshTable(g, where, u, j - 1));
    }
  }

  ghost function TableOf(g: Valid, where: seq<int>, u: nat): seq<EDegree>
    requires Partition(g, where) && u < Size(g)
  {
    FreshTable(g, where, u, g.xadj[u + 1])
  }

  lemma TableOfOk(g: Valid, where: seq<int>, u: nat)
    requires Partition(g, where) && u < Size(g)
    ensures TableOk(g, where, u, TableOf(g, where, u)) && (ExtTo(g, where, u) == 0 ==> TableOf(g, where, u) == [])
  {
    FreshTableMatches(g, where, u, g.xadj[u + 1]);
    forall q ensures SlotDegs(g, where, u, g.xadj[u + 1])(q) == Degs(g, where, u)(q) {
      SlotDegEnd(g, where, u, q, Size(g));
    }
    MatchesSame(TableOf(g, where, u), where[u], SlotDegs(g, where, u, g.xadj[u + 1]), Degs(g, where, u));
    var tbl := TableOf(g, where, u);
    if |tbl| > 0 {
      assert Degs(g, where, u)(tbl[0].pid) > 0 && tbl[0].pid != where[u];
      PartOfExt(g, where, u, tbl[0].pid, Size(g));
    }
  }

  lemma {:induction false} PartOfExt(g: Valid, where: seq<int>, u: nat, q: int, k: nat)
    requires Partition(g, where) && u < Size(g) && k <= Size(g) && q != where[u]
    ensures Deg(g, where, u, q, k) <= Ext(g, where, u, k)
  {
    if k > 0 {
      PartOfExt(g, where, u, q, k - 1);
      WSymmetric(g, u, k - 1);
    }
  }

  // ----- The record of one vertex

  /** The slabs of the vertices below `u`. */
  ghost function SlabStart(g: Valid, where: seq<int>, u: nat): nat
    requires Partition(g, where) && u <= Size(g)
  {
    if u == 0 then 0 else SlabStart(g, where, u - 1) + if ExtTo(g, where, u - 1) > 0 then Degree(g, u - 1) else 0
  }

  /** What the record of `u` is right after a computation from scratch. */
  ghost function FreshRecord(g: Valid, where: seq<int>, u: nat): RInfo
    requires Partition(g, where) && u < Size(g)
  {
    RInfo(DegTo(g, where, u, where[u]), ExtTo(g, where, u), TableOf(g, where, u),
          if ExtTo(g, where, u) > 0 then SlabStart(g, where, u) else -1)
  }

  ghost predicate Fresh(g: Valid, where: seq<int>, ri: seq<RInfo>, i: nat)
    requires Partition(g, where) && i <= Size(g) == |ri|
  {
    forall u: nat :: u < i ==> ri[u] == FreshRecord(g, where, u)
  }

  lemma {:induction false} SlabStartMonotone(g: Valid, where: seq<int>, u: nat, w: nat)
    requires Partition(g, where) && u < w <= Size(g)
    ensures SlabStart(g, where, u) + (if ExtTo(g, where, u) > 0 then Degree(g, u) else 0) <= SlabStart(g, where, w)
  {
    if u < w - 1 {
      SlabStartMonotone(g, where, u, w - 1);
    }
  }

  lemma {:induction false} SlabStartIs(g: Valid, where: seq<int>, ri: seq<RInfo>, k: nat)
    requires Partition(g, where) && |ri| == Size(g) && k <= Size(g) && Fresh(g, where, ri, Size(g))
    ensures SlabSum(g, ri, k) == SlabStart(g, where, k)
  {
    if k > 0 {
      SlabStartIs(g, where, ri, k - 1);
      assert ri[k - 1] == FreshRecord(g, where, k - 1);
    }
  }

  lemma FreshSlab(g: Valid, where: seq<int>, ri: seq<RInfo>, u: nat)
    requires Partition(g, where) && |ri| == Size(g) && Fresh(g, where, ri, Size(g)) && u < Size(g)
    ensures SlabOk(g, ri, SlabStart(g, where, Size(g)), u)
  {
    assert ri[u] == FreshRecord(g, where, u);
    SlabStartMonotone(g, where, u, Size(g));
    TableOfOk(g, where, u);
    ExtSign(g, where, u, Size(g));
  }

  /** Fresh records agree with the partition, and their slabs are disjoint. */
  lemma FreshIsConsistent(g: Valid, where: seq<int>, ri: seq<RInfo>)
    requires Partition(g, where) && |ri| == Size(g) && Fresh(g, where, ri, Size(g))
    ensures forall u: nat :: u < Size(g) ==> InfoOk(g, where, u, ri[u])
    ensures ArenaOk(g, ri, SlabStart(g, where, Size(g)))
  {
    forall u: nat | u < Size(g) ensures InfoOk(g, where, u, ri[u]) {
      assert ri[u] == FreshRecord(g, where, u);
      TableOfOk(g, where, u);
    }
    SlabStartIs(g, where, ri, Size(g));
    var cdegree := SlabStart(g, where, Size(g));
    forall u: nat | u < Size(g) ensures SlabOk(g, ri, cdegree, u) {
      FreshSlab(g, where, ri, u);
    }
    forall u: nat, w: nat | u < Size(g) && w < Size(g) ensures Apart(g, ri, u, w) {
      assert ri[u] == FreshRecord(g, where, u) && ri[w] == FreshRecord(g, where, w);
      if u < w { SlabStartMonotone(g, where, u, w); }
      if w < u { SlabStartMonotone(g, where, w, u); }
    }
  }

  // ----- Computing from scratch

  /** The weight of `u` to other parts. */
  method ExternalWeight(k: KWay, u: nat) returns (ed: int)
    requires k.Shape() && u < Size(k.g)
    ensures ed == ExtTo(k.g, k.where[..], u)
  {
    ghost var wh := k.where[..];
    var g, me := k.g, k.where[u];
    ed := 0;
    for j := g.xadj[u] to g.xadj[u + 1]
      invariant ed == ExtSlots(g, wh, u, j)
    {
      if me != k.where[g.adjncy[j]] { ed := ed + g.adjwgt[j]; }
    }
    ExtSlotsEnd(g, wh, u);
  }

  /** ComputeCut: what the refiners assert their running cut to be. */
  method ComputeCut(k: KWay) returns (cut: int)
    requires k.Shape()
    ensures 2 * cut == Cut2(k.g, k.where[..])
  {
    var sum := 0;
    for i := 0 to Size(k.g)
      invariant sum == ExtSum(k.g, k.where[..], i)
    {
      var ed := ExternalWeight(k, i);
      sum := sum + ed;
    }
    CutIsEven(k.g, k.where[..]);
    cut := sum / 2;
  }

  /** The table of `u`, with a search for each slot. */
  method SearchedTable(k: KWay, u: nat) returns (tbl: seq<EDegree>)
    requires k.Shape() && u < Size(k.g)
    ensures tbl == TableOf(k.g, k.where[..], u)
  {
    ghost var wh := k.where[..];
    var g, me := k.g, k.where[u];
    tbl := [];
    for j := g.xadj[u] to g.xadj[u + 1]
      invariant tbl == FreshTable(g, wh, u, j)
    {
      var other := k.where[g.adjncy[j]];
      if me != other {
        var l := FindPid(tbl, other);
        tbl := AddEdge(tbl, l, other, g.adjwgt[j]);
      }
    }
  }

  ghost predicate Sums(g: Valid, adjwgtsum: seq<int>)
  {
    |adjwgtsum| == Size(g) && forall u: nat :: u < Size(g) ==> adjwgtsum[u] == SlotSum(g, u)
  }

  /** The first `i` records are computed; the boundary list holds those among them that would not lose by
      moving, with or without the vertices that have no external weight. */
  ghost predicate Recorded(k: KWay, i: nat, islands: bool)
    requires k.Shape() && i <= Size(k.g)
    reads k`nbnd, k`cdegree, k.where, k.rinfo, k.bndptr, k.bndind
  {
    && Fresh(k.g, k.where[..], k.rinfo[..], i) && k.cdegree == SlabStart(k.g, k.where[..], i)
    && Boundary.Listed(k.nbnd, k.bndind, k.bndptr)
    && forall u: nat :: u < Size(k.g) ==>
      (k.bndptr[u] != -1 <==> u < i && OnBoundary(NoLoss, k.rinfo[u]) && (islands || k.rinfo[u].ed > 0))
  }

  /** Store the record of vertex `i`, and list it. */
  method Record(k: KWay, i: nat, id: int, ed: int, tbl: seq<EDegree>, islands: bool)
    requires k.Shape() && i < Size(k.g) && Recorded(k, i, islands)
    requires id == DegTo(k.g, k.where[..], i, k.where[i]) && ed == ExtTo(k.g, k.where[..], i) && tbl == TableOf(k.g, k.where[..], i)
    modifies k`nbnd, k`cdegree, k.rinfo, k.bndptr, k.bndind
    ensures Recorded(k, i + 1, islands)
  {
    k.rinfo[i] := RInfo(id, ed, tbl, if ed > 0 then k.cdegree else -1);
    if ed > 0 { k.cdegree := k.cdegree + k.g.xadj[i + 1] - k.g.xadj[i]; }
    if ed - id >= 0 && (islands || ed > 0) {
      k.nbnd := Boundary.BndInsert(k.nbnd, k.bndind, k.bndptr, i);
    }
    assert k.rinfo[i] == FreshRecord(k.g, k.where[..], i);
  }

  /** One vertex of ComputeKWayPartitionParams. */
  method ComputeOne(k: KWay, i: nat, adjwgtsum: seq<int>) returns (ed: int)
    requires k.Shape() && i < Size(k.g) && Recorded(k, i, true) && Sums(k.g, adjwgtsum)
    modifies k`nbnd, k`cdegree, k.rinfo, k.bndptr, k.bndind
    ensures Recorded(k, i + 1, true) && ed == ExtTo(k.g, k.where[..], i)
  {
    ed := ExternalWeight(k, i);
    SumIsDegrees(k.g, k.where[..], i);
    TableOfOk(k.g, k.where[..], i);
    ExtSign(k.g, k.where[..], i, Size(k.g));
    var tbl := [];
    if ed > 0 { tbl := SearchedTable(k, i); }
    Record(k, i, adjwgtsum[i] - ed, ed, tbl, true);
  }

  /** No vertex is listed yet. */
  method Unlist(k: KWay, islands: bool)
    requires k.Shape()
    modifies k`nbnd, k`cdegree, k.bndptr
    ensures Recorded(k, 0, islands)
  {
    for i := 0 to k.bndptr.Length
      invariant forall u :: 0 <= u < i ==> k.bndptr[u] == -1
    {
      k.bndptr[i] := -1;
    }
    k.nbnd, k.cdegree := 0, 0;
  }

  /** All records are in place, with the weights and the cut of the partition. */
  lemma RecordedIsConsistent(k: KWay, islands: bool)
    requires k.Shape() && k.Parts() && Recorded(k, Size(k.g), islands) && k.Weighed()
    ensures k.Consistent(NoLoss)
  {
    var g, wh := k.g, k.where[..];
    FreshIsConsistent(g, wh, k.rinfo[..]);
    forall u: nat | u < Size(g) && !Isolated(g, u) ensures k.bndptr[u] != -1 <==> OnBoundary(NoLoss, k.rinfo[u]) {
      assert k.rinfo[..][u] == FreshRecord(g, wh, u);
      HasWeight(g, wh, u);
    }
    forall u: nat | u < Size(g) ensures InfoOk(g, wh, u, k.rinfo[u]) {
      assert k.rinfo[..][u] == k.rinfo[u];
    }
  }

  /** A vertex with neighbours has weight, so it is external if it does not lose by moving. */
  lemma HasWeight(g: Valid, where: seq<int>, u: nat)
    requires Partition(g, where) && u < Size(g) && !Isolated(g, u)
    ensures DegTo(g, where, u, where[u]) > 0 || ExtTo(g, where, u) > 0
  {
    var j := g.xadj[u];
    SlotWeight(g, u, j);
    DegSign(g, where, u, where[u], Size(g));
    ExtSign(g, where, u, Size(g));
  }

  /** Cut and weights of the vertices below `i`. */
  ghost predicate Summed(k: KWay, i: nat, cut: int)
    requires k.Shape() && i <= Size(k.g)
    reads k.where, k.pwgts
  {
    cut == ExtSum(k.g, k.where[..], i) && forall p :: 0 <= p < k.nparts ==> k.pwgts[p] == PartWeight(k.g, k.where[..], p, i)
  }

  method ClearWeights(k: KWay)
    requires k.Shape()
    modifies k.pwgts
    ensures Summed(k, 0, 0)
  {
    for p := 0 to k.nparts
      invariant forall q :: 0 <= q < p ==> k.pwgts[q] == 0
    {
      k.pwgts[p] := 0;
    }
  }

  /**
   ComputeKWayPartitionParams: every record is the fresh one, and the refiner can start.
   */
  method ComputeKWayPartitionParams(k: KWay, adjwgtsum: seq<int>)
    requires k.Shape() && k.Parts() && Sums(k.g, adjwgtsum)
    modifies k`nbnd, k`cdegree, k`mincut, k.rinfo, k.pwgts, k.bndptr, k.bndind
    ensures k.Consistent(NoLoss) && Recorded(k, Size(k.g), true)
  {
    ClearWeights(k);
    Unlist(k, true);
    var cut := 0;
    for i := 0 to Size(k.g)
      invariant Recorded(k, i, true) && Summed(k, i, cut)
    {
      k.pwgts[k.where[i]] := k.pwgts[k.where[i]] + k.g.vwgt[i];
      var ed := ComputeOne(k, i, adjwgtsum);
      cut := cut + ed;
    }
    k.mincut := cut / 2;
    CutIsEven(k.g, k.where[..]);
    RecordedIsConsistent(k, true);
  }

  // ----- Projecting

  /** The scratch table sends every part to its entry. */
  ghost predicate Indexed(htable: seq<int>, tbl: seq<EDegree>)
  {
    forall q :: 0 <= q < |htable| ==> htable[q] == if Find(tbl, q) < |tbl| then Find(tbl, q) else -1
  }

  /** Where entries are found after an edge was added. */
  lemma FindAdded(tbl: seq<EDegree>, other: int, w: int, q: int)
    ensures var tbl' := AddEdge(tbl, Find(tbl, other), other, w);
      (if Find(tbl', q) < |tbl'| then Find(tbl', q) else -1) ==
      if q == other then Find(tbl, other) else if Find(tbl, q) < |tbl| then Find(tbl, q) else -1
  {
    var k, k' := Find(tbl, q), Find(AddEdge(tbl, Find(tbl, other), other, w), q);
    var tbl' := AddEdge(tbl, Find(tbl, other), other, w);
    assert k < |tbl| ==> tbl'[k].pid == q;
    assert q == other ==> tbl'[Find(tbl, other)].pid == q;
  }

  lemma IndexedStep(htable: seq<int>, tbl: seq<EDegree>, other: int, w: int)
    requires Indexed(htable, tbl) && 0 <= other < |htable|
    ensures Indexed(htable[other := Find(tbl, other)], AddEdge(tbl, Find(tbl, other), other, w))
  {
    forall q | 0 <= q < |htable|
      ensures htable[other := Find(tbl, other)][q] ==
        var tbl' := AddEdge(tbl, Find(tbl, other), other, w); if Find(tbl', q) < |tbl'| then Find(tbl', q) else -1
    {
      FindAdded(tbl, other, w, q);
    }
  }

  /** External weight and table of `u` in one loop, with the scratch table instead of a search. */
  method IndexedTable(k: KWay, u: nat, htable: array<int>) returns (ed: int, tbl: seq<EDegree>)
    requires k.Shape() && k.Parts() && u < Size(k.g) && htable.Length == k.nparts && htable != k.where && Indexed(htable[..], [])
    modifies htable
    ensures ed == ExtTo(k.g, k.where[..], u) && tbl == TableOf(k.g, k.where[..], u) && Indexed(htable[..], tbl)
  {
    ghost var wh := k.where[..];
    var g, me := k.g, k.where[u];
    ed, tbl := 0, [];
    for j := g.xadj[u] to g.xadj[u + 1]
      modifies htable
      invariant ed == ExtSlots(g, wh, u, j) && tbl == FreshTable(g, wh, u, j) && Indexed(htable[..], tbl)
    {
      SlotStep(g, wh, u, j);
      var other, w := k.where[g.adjncy[j]], g.adjwgt[j];
      if me != other {
        ed, tbl := AddIndexed(htable, ed, tbl, other, w);
      }
    }
    ExtSlotsEnd(g, wh, u);
  }

  lemma SlotStep(g: Valid, where: seq<int>, u: nat, j: int)
    requires Partition(g, where) && u < Size(g) && g.xadj[u] <= j < g.xadj[u + 1]
    ensures var other, w, tbl := where[g.adjncy[j]], g.adjwgt[j], FreshTable(g, where, u, j);
      && ExtSlots(g, where, u, j + 1) == ExtSlots(g, where, u, j) + (if other == where[u] then 0 else w)
      && FreshTable(g, where, u, j + 1) == if other == where[u] then tbl else AddEdge(tbl, Find(tbl, other), other, w)
  {
  }

  method AddIndexed(htable: array<int>, ed: int, tbl: seq<EDegree>, other: int, w: int) returns (ed': int, tbl': seq<EDegree>)
    requires Indexed(htable[..], tbl) && 0 <= other < htable.Length
    modifies htable
    ensures ed' == ed + w && tbl' == AddEdge(tbl, Find(tbl, other), other, w) && Indexed(htable[..], tbl')
  {
    IndexedStep(htable[..], tbl, other, w);
    assert htable[..][other] == if Find(tbl, other) < |tbl| then Find(tbl, other) else -1;
    ed' := ed + w;
    var l := htable[other];
    if l == -1 {
      htable[other] := |tbl|;
      tbl' := tbl + [EDegree(other, w)];
    } else {
      tbl' := tbl[l := tbl[l].(ed := tbl[l].ed + w)];
    }
    assert htable[..] == old(htable[..])[other := Find(tbl, other)];
  }

  /** Empty the scratch table again. */
  method Unindex(htable: array<int>, tbl: seq<EDegree>)
    requires Indexed(htable[..], tbl) && forall l :: 0 <= l < |tbl| ==> 0 <= tbl[l].pid < htable.Length
    modifies htable
    ensures Indexed(htable[..], [])
  {
    assert forall q :: 0 <= q < htable.Length ==> htable[q] == htable[..][q];
    for j := 0 to |tbl|
      invariant forall q :: 0 <= q < htable.Length ==> htable[q] == -1 || (j <= htable[q] < |tbl| && tbl[htable[q]].pid == q)
    {
      htable[tbl[j].pid] := -1;
    }
  }

  /** The partition and the records of the coarse graph are exact, and the fine graph contracts to it. */
  ghost predicate Coarse(g: Valid, nparts: nat, cmap: seq<int>, cg: Valid, cwhere: seq<int>, ced: seq<int>, cpwgts: seq<int>, cmincut: int)
  {
    && IsContraction(g, cmap, cg) && Partition(cg, cwhere) && (forall c :: 0 <= c < |cwhere| ==> 0 <= cwhere[c] < nparts)
    && |ced| == Size(cg) && (forall c: nat :: c < Size(cg) ==> ced[c] == ExtTo(cg, cwhere, c))
    && |cpwgts| == nparts && (forall p :: 0 <= p < nparts ==> cpwgts[p] == WeightOf(cg, cwhere, p))
    && 2 * cmincut == Cut2(cg, cwhere)
  }

  /** Take the partition to the fine graph, and overwrite `cmap` with the external weights of the images. */
  method PullWhere(k: KWay, cmap: array<int>, cwhere: seq<int>, ced: seq<int>)
    requires k.Shape() && cmap != k.where && cmap.Length == Size(k.g) && |ced| == |cwhere| && Onto(Size(k.g), cmap[..], |cwhere|)
    requires forall c :: 0 <= c < |cwhere| ==> 0 <= cwhere[c] < k.nparts
    modifies k.where, cmap
    ensures k.where[..] == Pull(cwhere, old(cmap[..])) && k.Parts()
    ensures forall i :: 0 <= i < Size(k.g) ==> cmap[i] == ced[old(cmap[i])]
  {
    ghost var before := cmap[..];
    for i := 0 to Size(k.g)
      invariant forall u :: 0 <= u < i ==> k.where[u] == cwhere[before[u]] && cmap[u] == ced[before[u]]
      invariant forall u :: i <= u < Size(k.g) ==> cmap[u] == before[u]
    {
      var c := cmap[i];
      assert c == before[i];
      k.where[i] := cwhere[c];
      cmap[i] := ced[c];
    }
  }

  /** One vertex of the projection; `image` is the external weight of its coarse image. */
  method ProjectOne(k: KWay, i: nat, image: int, adjwgtsum: seq<int>, htable: array<int>)
    requires k.Shape() && k.Parts() && i < Size(k.g) && Recorded(k, i, false) && Sums(k.g, adjwgtsum)
    requires htable.Length == k.nparts && htable != k.where && htable != k.bndptr && htable != k.bndind && Indexed(htable[..], [])
    requires 0 <= ExtTo(k.g, k.where[..], i) <= image
    modifies k`nbnd, k`cdegree, k.rinfo, k.bndptr, k.bndind, htable
    ensures Recorded(k, i + 1, false) && Indexed(htable[..], [])
  {
    SumIsDegrees(k.g, k.where[..], i);
    TableOfOk(k.g, k.where[..], i);
    var id, ed, tbl := adjwgtsum[i], 0, [];
    if image > 0 {
      ed, tbl := IndexedTable(k, i, htable);
      id := id - ed;
      TableParts(k, i);
      Unindex(htable, tbl);
    }
    Record(k, i, id, ed, tbl, false);
  }

  lemma TableParts(k: KWay, i: nat)
    requires k.Shape() && k.Parts() && i < Size(k.g)
    ensures forall l :: 0 <= l < |TableOf(k.g, k.where[..], i)| ==> 0 <= TableOf(k.g, k.where[..], i)[l].pid < k.nparts
  {
    var g, wh, tbl := k.g, k.where[..], TableOf(k.g, k.where[..], i);
    TableOfOk(g, wh, i);
    forall l | 0 <= l < |tbl| ensures 0 <= tbl[l].pid < k.nparts {
      assert Degs(g, wh, i)(tbl[l].pid) > 0;
      DegSign(g, wh, i, tbl[l].pid, Size(g));
    }
  }

  /** The records of all vertices. */
  method ProjectAll(k: KWay, images: array<int>, adjwgtsum: seq<int>, htable: array<int>)
    requires k.Shape() && k.Parts() && Sums(k.g, adjwgtsum) && images.Length == Size(k.g)
    requires htable.Length == k.nparts && htable != k.where && htable != k.bndptr && htable != k.bndind && htable != images
    requires images != k.bndptr && images != k.bndind && images != k.where && Indexed(htable[..], [])
    requires forall i: nat :: i < Size(k.g) ==> 0 <= ExtTo(k.g, k.where[..], i) <= images[i]
    modifies k`nbnd, k`cdegree, k.rinfo, k.bndptr, k.bndind, htable
    ensures Recorded(k, Size(k.g), false)
  {
    Unlist(k, false);
    for i := 0 to Size(k.g)
      invariant Recorded(k, i, false) && Indexed(htable[..], [])
    {
      ProjectOne(k, i, images[i], adjwgtsum, htable);
    }
  }

  /**
   ProjectKWayPartition: skipping the vertices with an internal image, and copying weights and cut from the
   coarse graph, gives the records, weights and cut of a computation from scratch.
   */
  method ProjectKWayPartition(k: KWay, cmap: array<int>, cg: Valid, cwhere: seq<int>, ced: seq<int>, cpwgts: seq<int>,
                              cmincut: int, adjwgtsum: seq<int>)
    requires k.Shape() && Sums(k.g, adjwgtsum) && cmap.Length == Size(k.g)
    requires cmap != k.where && cmap != k.bndptr && cmap != k.bndind && cmap != k.pwgts
    requires Coarse(k.g, k.nparts, cmap[..], cg, cwhere, ced, cpwgts, cmincut)
    modifies k`nbnd, k`cdegree, k`mincut, k.where, k.rinfo, k.pwgts, k.bndptr, k.bndind, cmap
    ensures k.where[..] == Pull(cwhere, old(cmap[..]))
    ensures k.Consistent(NoLoss) && Recorded(k, Size(k.g), false)
  {
    ghost var cm := cmap[..];
    PullWhere(k, cmap, cwhere, ced);
    forall i: nat | i < Size(k.g) ensures 0 <= ExtTo(k.g, k.where[..], i) <= cmap[i] {
      InteriorProjects(k.g, cm, cg, cwhere, i);
    }
    var htable := new int[k.nparts](_ => -1);
    ProjectAll(k, cmap, adjwgtsum, htable);
    CopyTotals(k, cm, cg, cwhere, cpwgts, cmincut);
    RecordedIsConsistent(k, false);
  }

  method CopyTotals(k: KWay, ghost cm: seq<int>, ghost cg: Valid, ghost cwhere: seq<int>, cpwgts: seq<int>, cmincut: int)
    requires k.Shape() && IsContraction(k.g, cm, cg) && Partition(cg, cwhere) && k.where[..] == Pull(cwhere, cm)
    requires |cpwgts| == k.nparts && (forall p :: 0 <= p < k.nparts ==> cpwgts[p] == WeightOf(cg, cwhere, p))
    requires 2 * cmincut == Cut2(cg, cwhere)
    modifies k`mincut, k.pwgts
    ensures k.Weighed()
  {
    CutPreserved(k.g, cm, cg, cwhere);
    forall p ensures WeightOf(cg, cwhere, p) == WeightOf(k.g, Pull(cwhere, cm), p) {
      WeightPreserved(k.g, cm, cg, cwhere, p);
    }
    for p := 0 to k.nparts
      invariant forall q :: 0 <= q < p ==> k.pwgts[q] == cpwgts[q]
    {
      k.pwgts[p] := cpwgts[p];
    }
    k.mincut := cmincut;
  }

  /** Two refiners with one partition and fresh records have the same records, weights and cut; their boundaries
      agree except for vertices without neighbours. So projecting is computing from scratch. */
  lemma ProjectionIsFresh(a: KWay, b: KWay)
    requires a.g == b.g && a.nparts == b.nparts && a.where[..] == b.where[..]
    requires a.Consistent(NoLoss) && Recorded(a, Size(a.g), true) && b.Consistent(NoLoss) && Recorded(b, Size(b.g), false)
    ensures a.rinfo[..] == b.rinfo[..] && a.cdegree == b.cdegree && a.mincut == b.mincut && a.pwgts[..] == b.pwgts[..]
    ensures forall u: nat :: u < Size(a.g) && !Isolated(a.g, u) ==> (a.bndptr[u] == -1 <==> b.bndptr[u] == -1)
  {
    forall u: nat | u < Size(a.g) ensures a.rinfo[u] == b.rinfo[u] {
      assert a.rinfo[..][u] == FreshRecord(a.g, a.where[..], u) && b.rinfo[..][u] == FreshRecord(b.g, b.where[..], u);
    }
  }
}
