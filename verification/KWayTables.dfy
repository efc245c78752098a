/**
 The per-vertex records of the k-way edge refiner (RInfoType and EDegreeType): what it means for a record to
 agree with a partition, what a move does to the record of the moved vertex and of its neighbours, and the
 arena that the degree tables are handed out from.
 */
module KWayTables {
  import opened Graphs
  import opened Finite

  /** One adjacent part and the weight of the edges to it. */
  datatype EDegree = EDegree(pid: int, ed: int)

  /** `slab` is where the table starts in the arena, or -1 when the vertex has none. */
  datatype RInfo = RInfo(id: int, ed: int, edegrees: seq<EDegree>, slab: int)

  ghost predicate HasPid(tbl: seq<EDegree>, q: int)
  {
    exists k :: 0 <= k < |tbl| && tbl[k].pid == q
  }

  ghost predicate Distinct(tbl: seq<EDegree>)
  {
    forall k, l :: 0 <= k < l < |tbl| ==> tbl[k].pid != tbl[l].pid
  }

  /** The table lists exactly the parts other than `own` with a positive weight, with their weights. */
  ghost predicate Matches(tbl: seq<EDegree>, own: int, wt: int -> int)
  {
    && Distinct(tbl)
    && (forall k :: 0 <= k < |tbl| ==> tbl[k].pid != own && tbl[k].ed == wt(tbl[k].pid) > 0)
    && (forall q :: q != own ==> wt(q) >= 0 && (wt(q) > 0 ==> HasPid(tbl, q)))
  }

  ghost predicate TableOk(g: Valid, where: seq<int>, u: nat, tbl: seq<EDegree>)
    requires Partition(g, where) && u < Size(g)
  {
    Matches(tbl, where[u], Degs(g, where, u))
  }

  /** The record agrees with the partition. */
  ghost predicate InfoOk(g: Valid, where: seq<int>, u: nat, r: RInfo)
    requires Partition(g, where) && u < Size(g)
  {
    r.id == DegTo(g, where, u, where[u]) && r.ed == ExtTo(g, where, u) && TableOk(g, where, u, r.edegrees)
  }

  lemma MatchesSame(tbl: seq<EDegree>, own: int, wt: int -> int, wt': int -> int)
    requires Matches(tbl, own, wt) && forall q :: q != own ==> wt'(q) == wt(q)
    ensures Matches(tbl, own, wt')
  {
  }

  // ----- The edits of a table

  /** Take an edge of weight `w` off entry `k`. */
  function DropEdge(tbl: seq<EDegree>, k: nat, w: int): seq<EDegree>
    requires k < |tbl|
  {
    if tbl[k].ed == w then SwapOut(tbl, k) else tbl[k := tbl[k].(ed := tbl[k].ed - w)]
  }

  /** Put an edge of weight `w` on the entry for part `q`, at `k` or, when there is none, at the end. */
  function AddEdge(tbl: seq<EDegree>, k: nat, q: int, w: int): seq<EDegree>
    requires k <= |tbl|
  {
    if k == |tbl| then tbl + [EDegree(q, w)] else tbl[k := tbl[k].(ed := tbl[k].ed + w)]
  }

  lemma SwapOutHas(tbl: seq<EDegree>, k: nat, q: int)
    requires k < |tbl| && Distinct(tbl)
    ensures HasPid(SwapOut(tbl, k), q) <==> HasPid(tbl, q) && q != tbl[k].pid
  {
    var last := |tbl| - 1;
    if l :| 0 <= l < |tbl| && tbl[l].pid == q && l != k {
      assert SwapOut(tbl, k)[if l == last then k else l].pid == q;
    }
    if l :| 0 <= l < last && SwapOut(tbl, k)[l].pid == q {
      assert tbl[if l == k then last else l].pid == q;
    }
  }

  lemma DropMatches(tbl: seq<EDegree>, own: int, wt: int -> int, k: nat, w: int)
    requires Matches(tbl, own, wt) && k < |tbl| && w <= tbl[k].ed
    ensures Matches(DropEdge(tbl, k, w), own, Less(wt, tbl[k].pid, w))
  {
    var tbl', q0 := DropEdge(tbl, k, w), tbl[k].pid;
    forall q | q != own ensures Less(wt, q0, w)(q) >= 0 && (Less(wt, q0, w)(q) > 0 ==> HasPid(tbl', q)) {
      if tbl[k].ed == w {
        SwapOutHas(tbl, k, q);
      } else if l :| 0 <= l < |tbl| && tbl[l].pid == q {
        assert tbl'[l].pid == q;
      }
    }
  }

  lemma AddMatches(tbl: seq<EDegree>, own: int, wt: int -> int, k: nat, q: int, w: int)
    requires Matches(tbl, own, wt) && k <= |tbl| && q != own && w > 0
    requires if k < |tbl| then tbl[k].pid == q else !HasPid(tbl, q)
    ensures Matches(AddEdge(tbl, k, q, w), own, Less(wt, q, -w))
  {
    var tbl' := AddEdge(tbl, k, q, w);
    forall p | p != own ensures Less(wt, q, -w)(p) >= 0 && (Less(wt, q, -w)(p) > 0 ==> HasPid(tbl', p)) {
      if p == q {
        assert tbl'[k].pid == p;
      } else if l :| 0 <= l < |tbl| && tbl[l].pid == p {
        assert tbl'[l].pid == p;
      }
    }
  }

  /** The table of the moved vertex: the entry of its new part becomes that of its old part, or goes. */
  function Moved(tbl: seq<EDegree>, k: nat, from: int, id: int): seq<EDegree>
    requires k < |tbl|
  {
    if id == 0 then SwapOut(tbl, k) else tbl[k := EDegree(from, id)]
  }

  lemma MovedMatches(tbl: seq<EDegree>, from: int, wt: int -> int, k: nat)
    requires Matches(tbl, from, wt) && k < |tbl| && wt(from) >= 0
    ensures Matches(Moved(tbl, k, from, wt(from)), tbl[k].pid, wt)
  {
    var tbl', to := Moved(tbl, k, from, wt(from)), tbl[k].pid;
    forall q | q != to ensures wt(q) >= 0 && (wt(q) > 0 ==> HasPid(tbl', q)) {
      if wt(from) == 0 {
        SwapOutHas(tbl, k, q);
      } else if q == from {
        assert tbl'[k].pid == q;
      } else if l :| 0 <= l < |tbl| && tbl[l].pid == q {
        assert tbl'[l].pid == q;
      }
    }
  }

  // ----- What a move does to the records

  /** The record of the moved vertex itself. */
  lemma MovedInfo(g: Valid, where: seq<int>, v: nat, r: RInfo, k: nat)
    requires Partition(g, where) && v < Size(g) && InfoOk(g, where, v, r) && k < |r.edegrees|
    ensures var e := r.edegrees[k];
      InfoOk(g, where[v := e.pid], v, r.(id := e.ed, ed := r.ed + r.id - e.ed, edegrees := Moved(r.edegrees, k, where[v], r.id)))
  {
    var to := r.edegrees[k].pid;
    WSymmetric(g, v, v);
    MoveOwn(g, where, v, to, Size(g));
    MoveDeg(g, where, v, to, v, to, Size(g));
    DegSign(g, where, v, where[v], Size(g));
    MovedMatches(r.edegrees, where[v], Degs(g, where, v), k);
    forall q ensures Degs(g, where[v := to], v)(q) == Degs(g, where, v)(q) {
      MoveDeg(g, where, v, to, v, q, Size(g));
    }
    MatchesSame(Moved(r.edegrees, k, where[v], r.id), to, Degs(g, where, v), Degs(g, where[v := to], v));
  }

  /** The first entry for part `q`, or the length of the table. */
  method FindPid(tbl: seq<EDegree>, q: int) returns (k: nat)
    ensures k <= |tbl| && (k < |tbl| ==> tbl[k].pid == q) && (k == |tbl| ==> !HasPid(tbl, q))
    ensures forall l :: 0 <= l < k ==> tbl[l].pid != q
  {
    k := 0;
    while k < |tbl| && tbl[k].pid != q
      invariant k <= |tbl| && forall l :: 0 <= l < k ==> tbl[l].pid != q
    {
      k := k + 1;
    }
  }

  /** `w` of the weight goes from part `from` to part `to`. */
  ghost function Shifted(wt: int -> int, from: int, to: int, w: int): int -> int
  {
    Less(Less(wt, from, w), to, -w)
  }

  /** Remove the contribution of the moved vertex to `from`, and add it to `to`. */
  method ShiftTable(tbl: seq<EDegree>, me: int, from: int, to: int, w: int, ghost wt: int -> int) returns (tbl': seq<EDegree>)
    requires Matches(tbl, me, wt) && from != to && 0 < w && (me != from ==> w <= wt(from))
    ensures Matches(tbl', me, Shifted(wt, from, to, w))
  {
    tbl' := tbl;
    if me != from {
      var k := FindPid(tbl', from);
      assert k < |tbl| by { assert HasPid(tbl, from); }
      DropMatches(tbl', me, wt, k, w);
      tbl' := DropEdge(tbl', k, w);
    } else {
      MatchesSame(tbl', me, wt, Less(wt, from, w));
    }
    if me != to {
      var k := FindPid(tbl', to);
      AddMatches(tbl', me, Less(wt, from, w), k, to, w);
      tbl' := AddEdge(tbl', k, to, w);
    } else {
      MatchesSame(tbl', me, Less(wt, from, w), Shifted(wt, from, to, w));
    }
  }

  /** The weights of a neighbour of the moved vertex. */
  lemma NeighbourWeights(g: Valid, where: seq<int>, v: nat, to: int, u: nat, q: int)
    requires Partition(g, where) && v < Size(g) && u < Size(g) && u != v && to != where[v]
    ensures Degs(g, where[v := to], u)(q) == Shifted(Degs(g, where, u), where[v], to, W(g, u, v))(q)
    ensures ExtTo(g, where[v := to], u) == ExtTo(g, where, u)
      + (if where[u] == where[v] then W(g, u, v) else if where[u] == to then -W(g, u, v) else 0)
  {
    MoveDeg(g, where, v, to, u, q, Size(g));
    MoveExt(g, where, v, to, u, Size(g));
  }

  lemma {:induction false} DegAtLeast(g: Valid, where: seq<int>, u: nat, v: nat, k: nat)
    requires Partition(g, where) && u < Size(g) && v < Size(g) && k <= Size(g)
    ensures Deg(g, where, u, where[v], k) >= if v < k then W(g, u, v) else 0
  {
    if k > 0 {
      DegAtLeast(g, where, u, v, k - 1);
      WSymmetric(g, u, k - 1);
    }
  }

  /** The record of the neighbour `u` of the vertex `v` that moves to `to`. */
  method ShiftInfo(r: RInfo, me: int, from: int, to: int, w: int, ghost g: Valid, ghost where: seq<int>, ghost v: nat, ghost u: nat)
    returns (r': RInfo)
    requires Partition(g, where) && v < Size(g) && u < Size(g) && u != v && InfoOk(g, where, u, r)
    requires me == where[u] && from == where[v] != to && w == W(g, u, v) > 0
    ensures InfoOk(g, where[v := to], u, r') && r'.slab == r.slab
    ensures var delta := if me == from then w else if me == to then -w else 0; r'.id == r.id - delta && r'.ed == r.ed + delta
  {
    DegAtLeast(g, where, u, v, Size(g));
    ghost var wt, wt' := Degs(g, where, u), Degs(g, where[v := to], u);
    forall q ensures wt'(q) == Shifted(wt, from, to, w)(q) {
      NeighbourWeights(g, where, v, to, u, q);
    }
    var delta := if me == from then w else if me == to then -w else 0;
    var tbl := ShiftTable(r.edegrees, me, from, to, w, wt);
    MatchesSame(tbl, me, Shifted(wt, from, to, w), wt');
    assert wt'(me) == wt(me) - delta;
    NeighbourWeights(g, where, v, to, u, me);
    r' := r.(id := r.id - delta, ed := r.ed + delta, edegrees := tbl);
  }

  // ----- The arena

  function Degree(g: Graph, u: nat): int
    requires Csr(g) && u < Size(g)
  {
    g.xadj[u + 1] - g.xadj[u]
  }

  /** The degrees of the vertices below `k` that have a slab. */
  ghost function SlabSum(g: Valid, ri: seq<RInfo>, k: nat): int
    requires |ri| == Size(g) && k <= Size(g)
  {
    if k == 0 then 0 else SlabSum(g, ri, k - 1) + if ri[k - 1].slab == -1 then 0 else Degree(g, k - 1)
  }

  ghost predicate SlabOk(g: Valid, ri: seq<RInfo>, cdegree: int, u: nat)
    requires |ri| == Size(g) && u < Size(g)
  {
    if ri[u].slab == -1 then ri[u].edegrees == [] else 0 <= ri[u].slab && ri[u].slab + Degree(g, u) <= cdegree
  }

  ghost predicate Apart(g: Valid, ri: seq<RInfo>, u: nat, w: nat)
    requires |ri| == Size(g) && u < Size(g) && w < Size(g)
  {
    ri[u].slab != -1 && ri[w].slab != -1 && u != w ==>
      ri[u].slab + Degree(g, u) <= ri[w].slab || ri[w].slab + Degree(g, w) <= ri[u].slab
  }

  /** The slabs are disjoint, lie below `cdegree`, and take up exactly that much. */
  ghost predicate ArenaOk(g: Valid, ri: seq<RInfo>, cdegree: int)
    requires |ri| == Size(g)
  {
    && cdegree == SlabSum(g, ri, Size(g))
    && (forall u: nat :: u < Size(g) ==> SlabOk(g, ri, cdegree, u))
    && (forall u: nat, w: nat :: u < Size(g) && w < Size(g) ==> Apart(g, ri, u, w))
  }

  lemma {:induction false} SlabSumUpdate(g: Valid, ri: seq<RInfo>, u: nat, r: RInfo, k: nat)
    requires |ri| == Size(g) && u < Size(g) && k <= Size(g)
    ensures SlabSum(g, ri[u := r], k) == SlabSum(g, ri, k)
      + if u < k then (if r.slab == -1 then 0 else Degree(g, u)) - (if ri[u].slab == -1 then 0 else Degree(g, u)) else 0
  {
    if k > 0 {
      SlabSumUpdate(g, ri, u, r, k - 1);
    }
  }

  /** The arena never holds more than one slot for each slot of the graph. */
  lemma {:induction false} SlabSumBound(g: Valid, ri: seq<RInfo>, k: nat)
    requires |ri| == Size(g) && k <= Size(g)
    ensures 0 <= SlabSum(g, ri, k) <= g.xadj[k]
  {
    if k > 0 {
      SlabSumBound(g, ri, k - 1);
    }
  }

  lemma ArenaFits(g: Valid, ri: seq<RInfo>, cdegree: int)
    requires |ri| == Size(g) && ArenaOk(g, ri, cdegree)
    ensures 0 <= cdegree <= |g.adjncy|
  {
    SlabSumBound(g, ri, Size(g));
  }

  /** A new slab at the end of the arena. */
  lemma GrantKeeps(g: Valid, ri: seq<RInfo>, cdegree: int, u: nat)
    requires |ri| == Size(g) && ArenaOk(g, ri, cdegree) && u < Size(g) && ri[u].slab == -1
    ensures ArenaOk(g, ri[u := ri[u].(slab := cdegree)], cdegree + Degree(g, u))
  {
    var ri', cdegree' := ri[u := ri[u].(slab := cdegree)], cdegree + Degree(g, u);
    ArenaFits(g, ri, cdegree);
    SlabSumUpdate(g, ri, u, ri[u].(slab := cdegree), Size(g));
    forall x: nat | x < Size(g) ensures SlabOk(g, ri', cdegree', x) {
      assert SlabOk(g, ri, cdegree, x);
    }
    forall x: nat, w: nat | x < Size(g) && w < Size(g) ensures Apart(g, ri', x, w) {
      assert Apart(g, ri, x, w) && SlabOk(g, ri, cdegree, x) && SlabOk(g, ri, cdegree, w);
    }
  }

  /** A record may change as long as it stays in its slab. */
  lemma EditKeeps(g: Valid, ri: seq<RInfo>, cdegree: int, u: nat, r: RInfo)
    requires |ri| == Size(g) && ArenaOk(g, ri, cdegree) && u < Size(g) && r.slab == ri[u].slab != -1
    ensures ArenaOk(g, ri[u := r], cdegree)
  {
    var ri' := ri[u := r];
    SlabSumUpdate(g, ri, u, r, Size(g));
    forall x: nat | x < Size(g) ensures SlabOk(g, ri', cdegree, x) {
      assert SlabOk(g, ri, cdegree, x);
    }
    forall x: nat, w: nat | x < Size(g) && w < Size(g) ensures Apart(g, ri', x, w) {
      assert Apart(g, ri, x, w);
    }
  }

  // ----- Tables fit their slabs

  /** The parts that the slots of `u` before `j` lead to. */
  ghost function PartsSeen(g: Valid, where: seq<int>, u: nat, j: int): set<int>
    requires Partition(g, where) && u < Size(g) && g.xadj[u] <= j <= g.xadj[u + 1]
    decreases j
  {
    if j == g.xadj[u] then {} else PartsSeen(g, where, u, j - 1) + {where[g.adjncy[j - 1]]}
  }

  lemma {:induction false} PartsSeenFacts(g: Valid, where: seq<int>, u: nat, j: int)
    requires Partition(g, where) && u < Size(g) && g.xadj[u] <= j <= g.xadj[u + 1]
    ensures |PartsSeen(g, where, u, j)| <= j - g.xadj[u]
    ensures forall k :: g.xadj[u] <= k < j ==> where[g.adjncy[k]] in PartsSeen(g, where, u, j)
    decreases j
  {
    if j > g.xadj[u] {
      PartsSeenFacts(g, where, u, j - 1);
    }
  }

  ghost function Pids(tbl: seq<EDegree>): (r: seq<int>)
    ensures |r| == |tbl| && forall k :: 0 <= k < |tbl| ==> r[k] == tbl[k].pid
  {
    seq(|tbl|, k requires 0 <= k < |tbl| => tbl[k].pid)
  }

  /** A table that agrees with the partition has at most as many entries as the vertex has slots. */
  lemma TableFits(g: Valid, where: seq<int>, u: nat, tbl: seq<EDegree>)
    requires Partition(g, where) && u < Size(g) && TableOk(g, where, u, tbl)
    ensures |tbl| <= Degree(g, u)
  {
    PartsSeenFacts(g, where, u, g.xadj[u + 1]);
    forall q | q in Pids(tbl) ensures q in PartsSeen(g, where, u, g.xadj[u + 1]) {
      assert Degs(g, where, u)(q) > 0;
      DegSign(g, where, u, q, Size(g));
      var v: nat :| v < Size(g) && Adjacent(g, u, v) && where[v] == q;
      var j :| Lists(g, u, j, v);
    }
    FitsIn(Pids(tbl), PartsSeen(g, where, u, g.xadj[u + 1]));
  }
}
