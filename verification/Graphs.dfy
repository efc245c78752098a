/**
 CSR graphs as METIS stores them, and the quantities its refinement code maintains, defined from scratch:
 the weight between a vertex and a part, the cut, and the weights of the parts. The definitions sum over all
 vertices with the weight matrix of the graph, so they do not depend on the order of any adjacency list.
 */
module Graphs {

  /** Vertex `u` owns the slots `xadj[u] .. xadj[u + 1]` of `adjncy` and `adjwgt`. */
  datatype Graph = Graph(xadj: seq<nat>, adjncy: seq<nat>, adjwgt: seq<int>, vwgt: seq<int>, vsize: seq<int>)

  function Size(g: Graph): nat
  {
    |g.vwgt|
  }

  predicate Csr(g: Graph)
  {
    && |g.xadj| == |g.vwgt| + 1 && |g.vsize| == |g.vwgt|
    && g.xadj[0] == 0 && g.xadj[|g.vwgt|] == |g.adjncy| == |g.adjwgt|
    && (forall u, v :: 0 <= u <= v < |g.xadj| ==> g.xadj[u] <= g.xadj[v])
    && (forall j :: 0 <= j < |g.adjncy| ==> g.adjncy[j] < |g.vwgt|)
  }

  predicate Slot(g: Graph, u: nat, j: int)
    requires Csr(g) && u < Size(g)
  {
    g.xadj[u] <= j < g.xadj[u + 1]
  }

  /** A vertex without neighbours. */
  predicate Isolated(g: Graph, u: nat)
    requires Csr(g) && u < Size(g)
  {
    g.xadj[u] == g.xadj[u + 1]
  }

  /** The slot of `u` that lists `v`. */
  predicate Lists(g: Graph, u: nat, j: int, v: nat)
    requires Csr(g) && u < Size(g)
  {
    Slot(g, u, j) && g.adjncy[j] == v
  }

  /** No vertex lists itself or lists a neighbour twice. */
  ghost predicate Simple(g: Graph)
    requires Csr(g)
  {
    && (forall u: nat, j :: u < Size(g) && Slot(g, u, j) ==> g.adjncy[j] != u)
    && (forall u: nat, v: nat, j, k :: u < Size(g) && Lists(g, u, j, v) && Lists(g, u, k, v) ==> j == k)
  }

  /** The edge in slot `j` of `u` is listed at its other end, with the same weight. */
  ghost predicate Mirrored(g: Graph, u: nat, j: int)
    requires Csr(g) && u < Size(g) && Slot(g, u, j)
  {
    exists k :: Lists(g, g.adjncy[j], k, u) && g.adjwgt[k] == g.adjwgt[j]
  }

  /** Every edge is listed at both ends, with one weight. */
  ghost predicate Symmetric(g: Graph)
    requires Csr(g)
  {
    forall u: nat, j {:trigger Mirrored(g, u, j)} :: u < Size(g) && Slot(g, u, j) ==> Mirrored(g, u, j)
  }

  ghost predicate ValidGraph(g: Graph)
  {
    && Csr(g) && Simple(g) && Symmetric(g)
    && (forall j :: 0 <= j < |g.adjwgt| ==> g.adjwgt[j] > 0)
    && (forall u :: 0 <= u < Size(g) ==> g.vwgt[u] > 0 && g.vsize[u] > 0)
  }

  type Valid = g: Graph | ValidGraph(g) ghost witness Graph([0], [], [], [], [])

  // ----- The weight matrix

  ghost predicate Adjacent(g: Graph, u: nat, v: nat)
    requires Csr(g) && u < Size(g)
  {
    exists j :: Lists(g, u, j, v)
  }

  ghost function W(g: Valid, u: nat, v: nat): int
    requires u < Size(g)
  {
    if Adjacent(g, u, v) then var j :| Lists(g, u, j, v); g.adjwgt[j] else 0
  }

  lemma SlotWeight(g: Valid, u: nat, j: int)
    requires u < Size(g) && Slot(g, u, j)
    ensures Adjacent(g, u, g.adjncy[j]) && W(g, u, g.adjncy[j]) == g.adjwgt[j] && g.adjncy[j] != u
  {
    assert Lists(g, u, j, g.adjncy[j]);
  }

  lemma WSymmetric(g: Valid, u: nat, v: nat)
    requires u < Size(g) && v < Size(g)
    ensures W(g, u, v) == W(g, v, u) >= 0 && (Adjacent(g, u, v) <==> Adjacent(g, v, u))
    ensures Adjacent(g, u, v) <==> W(g, u, v) > 0
    ensures W(g, u, u) == 0
  {
    WOneWay(g, u, v);
    WOneWay(g, v, u);
    assert !Adjacent(g, u, u);
  }

  lemma WOneWay(g: Valid, u: nat, v: nat)
    requires u < Size(g) && v < Size(g)
    ensures Adjacent(g, u, v) ==> Adjacent(g, v, u) && W(g, u, v) == W(g, v, u) > 0
  {
    if Adjacent(g, u, v) {
      var j :| Lists(g, u, j, v);
      assert Mirrored(g, u, j);
      var k :| Lists(g, v, k, u) && g.adjwgt[k] == g.adjwgt[j];
      SlotWeight(g, u, j);
      SlotWeight(g, v, k);
    }
  }

  /** `v` is listed in a slot of `u` before `j`: what a loop over the slots has seen. */
  ghost predicate Seen(g: Graph, u: nat, j: int, v: nat)
    requires Csr(g) && u < Size(g)
  {
    exists k :: k < j && Lists(g, u, k, v)
  }

  lemma SeenStep(g: Valid, u: nat, j: int, v: nat)
    requires u < Size(g) && Slot(g, u, j)
    ensures Seen(g, u, j + 1, v) <==> Seen(g, u, j, v) || v == g.adjncy[j]
    ensures !Seen(g, u, j, g.adjncy[j])
  {
    assert Lists(g, u, j, g.adjncy[j]);
    if Seen(g, u, j, v) {
      var k :| k < j && Lists(g, u, k, v);
      assert k < j + 1 && Lists(g, u, k, v);
    }
  }

  lemma SeenEnds(g: Valid, u: nat, v: nat)
    requires u < Size(g)
    ensures !Seen(g, u, g.xadj[u] as int, v)
    ensures Seen(g, u, g.xadj[u + 1] as int, v) <==> Adjacent(g, u, v)
  {
    if Adjacent(g, u, v) {
      var k :| Lists(g, u, k, v);
      assert k < g.xadj[u + 1] && Lists(g, u, k, v);
    }
  }

  // ----- Partitions: sums over the vertices below `k`

  predicate Partition(g: Graph, where: seq<int>)
  {
    |where| == Size(g)
  }

  /** The weight from `u` to part `p`. */
  ghost function Deg(g: Valid, where: seq<int>, u: nat, p: int, k: nat): int
    requires Partition(g, where) && u < Size(g) && k <= Size(g)
  {
    if k == 0 then 0 else Deg(g, where, u, p, k - 1) + if where[k - 1] == p then W(g, u, k - 1) else 0
  }

  ghost function DegTo(g: Valid, where: seq<int>, u: nat, p: int): int
    requires Partition(g, where) && u < Size(g)
  {
    Deg(g, where, u, p, Size(g))
  }

  /** The weights from `u` to all parts. */
  ghost function Degs(g: Valid, where: seq<int>, u: nat): int -> int
    requires Partition(g, where) && u < Size(g)
  {
    q => DegTo(g, where, u, q)
  }

  /** `f` with `w` less at `q`. */
  ghost function Less(f: int -> int, q: int, w: int): int -> int
  {
    p => if p == q then f(p) - w else f(p)
  }

  /** The weight from `u` to other parts than its own. */
  ghost function Ext(g: Valid, where: seq<int>, u: nat, k: nat): int
    requires Partition(g, where) && u < Size(g) && k <= Size(g)
  {
    if k == 0 then 0 else Ext(g, where, u, k - 1) + if where[k - 1] != where[u] then W(g, u, k - 1) else 0
  }

  ghost function ExtTo(g: Valid, where: seq<int>, u: nat): int
    requires Partition(g, where) && u < Size(g)
  {
    Ext(g, where, u, Size(g))
  }

  /** The external weights of the vertices below `k`. */
  ghost function ExtSum(g: Valid, where: seq<int>, k: nat): int
    requires Partition(g, where) && k <= Size(g)
  {
    if k == 0 then 0 else ExtSum(g, where, k - 1) + ExtTo(g, where, k - 1)
  }

  /** Every cut edge, counted at both ends. */
  ghost function Cut2(g: Valid, where: seq<int>): int
    requires Partition(g, where)
  {
    ExtSum(g, where, Size(g))
  }

  ghost function PartWeight(g: Valid, where: seq<int>, p: int, k: nat): int
    requires Partition(g, where) && k <= Size(g)
  {
    if k == 0 then 0 else PartWeight(g, where, p, k - 1) + if where[k - 1] == p then g.vwgt[k - 1] else 0
  }

  ghost function WeightOf(g: Valid, where: seq<int>, p: int): int
    requires Partition(g, where)
  {
    PartWeight(g, where, p, Size(g))
  }

  // ----- Moving one vertex

  /** Only the edge to the moved vertex changes a degree. */
  lemma {:induction false} MoveDeg(g: Valid, where: seq<int>, x: nat, q: int, u: nat, p: int, k: nat)
    requires Partition(g, where) && x < Size(g) && u < Size(g) && k <= Size(g)
    ensures Deg(g, where[x := q], u, p, k) == Deg(g, where, u, p, k)
      + if x < k then (if p == q then W(g, u, x) else 0) - (if p == where[x] then W(g, u, x) else 0) else 0
  {
    if k > 0 {
      MoveDeg(g, where, x, q, u, p, k - 1);
    }
  }

  lemma {:induction false} MoveExt(g: Valid, where: seq<int>, x: nat, q: int, u: nat, k: nat)
    requires Partition(g, where) && x < Size(g) && u < Size(g) && k <= Size(g) && u != x
    ensures Ext(g, where[x := q], u, k) == Ext(g, where, u, k)
      + if x < k then (if where[u] != q then W(g, u, x) else 0) - (if where[u] != where[x] then W(g, u, x) else 0) else 0
  {
    if k > 0 {
      MoveExt(g, where, x, q, u, k - 1);
    }
  }

  /** A vertex has its weight to its own part and to the others; the moved one trades the two parts. */
  lemma {:induction false} MoveOwn(g: Valid, where: seq<int>, x: nat, q: int, k: nat)
    requires Partition(g, where) && x < Size(g) && k <= Size(g)
    ensures Ext(g, where[x := q], x, k) == Ext(g, where, x, k) + Deg(g, where, x, where[x], k) - Deg(g, where, x, q, k)
  {
    WSymmetric(g, x, x);
    if k > 0 {
      MoveOwn(g, where, x, q, k - 1);
    }
  }

  lemma {:induction false} MoveExtSum(g: Valid, where: seq<int>, x: nat, q: int, k: nat)
    requires Partition(g, where) && x < Size(g) && k <= Size(g)
    ensures ExtSum(g, where[x := q], k) == ExtSum(g, where, k)
      + Deg(g, where, x, where[x], k) - Deg(g, where, x, q, k)
      + if x < k then DegTo(g, where, x, where[x]) - DegTo(g, where, x, q) else 0
  {
    if k > 0 {
      MoveExtSum(g, where, x, q, k - 1);
      WSymmetric(g, x, k - 1);
      if k - 1 == x {
        MoveOwn(g, where, x, q, Size(g));
      } else {
        MoveExt(g, where, x, q, k - 1, Size(g));
      }
    }
  }

  /** Moving `x` to part `q` changes the cut by its internal weight minus its weight to `q`. */
  lemma MoveCut(g: Valid, where: seq<int>, x: nat, q: int)
    requires Partition(g, where) && x < Size(g)
    ensures Cut2(g, where[x := q]) == Cut2(g, where) - 2 * (DegTo(g, where, x, q) - DegTo(g, where, x, where[x]))
  {
    MoveExtSum(g, where, x, q, Size(g));
  }

  lemma {:induction false} MovePartWeight(g: Valid, where: seq<int>, x: nat, q: int, p: int, k: nat)
    requires Partition(g, where) && x < Size(g) && k <= Size(g)
    ensures PartWeight(g, where[x := q], p, k) == PartWeight(g, where, p, k)
      + if x < k then (if p == q then g.vwgt[x] else 0) - (if p == where[x] then g.vwgt[x] else 0) else 0
  {
    if k > 0 {
      MovePartWeight(g, where, x, q, p, k - 1);
    }
  }

  // ----- Signs and parity

  lemma {:induction false} DegSign(g: Valid, where: seq<int>, u: nat, p: int, k: nat)
    requires Partition(g, where) && u < Size(g) && k <= Size(g)
    ensures Deg(g, where, u, p, k) >= 0
    ensures Deg(g, where, u, p, k) > 0 <==> exists v :: 0 <= v < k && Adjacent(g, u, v) && where[v] == p
  {
    if k > 0 {
      DegSign(g, where, u, p, k - 1);
      WSymmetric(g, u, k - 1);
      if v :| 0 <= v < k - 1 && Adjacent(g, u, v) && where[v] == p {
        assert 0 <= v < k && Adjacent(g, u, v) && where[v] == p;
      }
    }
  }

  lemma {:induction false} ExtSign(g: Valid, where: seq<int>, u: nat, k: nat)
    requires Partition(g, where) && u < Size(g) && k <= Size(g)
    ensures Ext(g, where, u, k) >= 0
    ensures Ext(g, where, u, k) > 0 <==> exists v :: 0 <= v < k && Adjacent(g, u, v) && where[v] != where[u]
  {
    if k > 0 {
      ExtSign(g, where, u, k - 1);
      WSymmetric(g, u, k - 1);
      if v :| 0 <= v < k - 1 && Adjacent(g, u, v) && where[v] != where[u] {
        assert 0 <= v < k && Adjacent(g, u, v) && where[v] != where[u];
      }
    }
  }

  /** External weights among the vertices below `k`. */
  ghost function Square(g: Valid, where: seq<int>, rows: nat, k: nat): int
    requires Partition(g, where) && rows <= Size(g) && k <= Size(g)
  {
    if rows == 0 then 0 else Square(g, where, rows - 1, k) + Ext(g, where, rows - 1, k)
  }

  lemma {:induction false} SquareColumn(g: Valid, where: seq<int>, rows: nat, k: nat)
    requires Partition(g, where) && rows <= Size(g) && k < Size(g)
    ensures Square(g, where, rows, k + 1) == Square(g, where, rows, k) + Ext(g, where, k, rows)
  {
    if rows > 0 {
      SquareColumn(g, where, rows - 1, k);
      WSymmetric(g, rows - 1, k);
    }
  }

  lemma {:induction false} SquareEven(g: Valid, where: seq<int>, k: nat)
    requires Partition(g, where) && k <= Size(g)
    ensures Square(g, where, k, k) % 2 == 0
  {
    if k > 0 {
      SquareEven(g, where, k - 1);
      SquareColumn(g, where, k - 1, k - 1);
      WSymmetric(g, k - 1, k - 1);
    }
  }

  lemma {:induction false} SquareIsSum(g: Valid, where: seq<int>, k: nat)
    requires Partition(g, where) && k <= Size(g)
    ensures Square(g, where, k, Size(g)) == ExtSum(g, where, k)
  {
    if k > 0 {
      SquareIsSum(g, where, k - 1);
    }
  }

  /** Each cut edge is counted twice, so the halving in the code is exact. */
  lemma CutIsEven(g: Valid, where: seq<int>)
    requires Partition(g, where)
    ensures Cut2(g, where) % 2 == 0
  {
    SquareEven(g, where, Size(g));
    SquareIsSum(g, where, Size(g));
  }

  // ----- Loops over the slots of a vertex compute sums over its neighbours

  /** The sum of `f` over the vertices below `k` that the slots of `u` before `j` list. */
  ghost function SeenSum(g: Valid, u: nat, j: int, f: nat -> int, k: nat): int
    requires u < Size(g) && k <= Size(g)
  {
    if k == 0 then 0 else SeenSum(g, u, j, f, k - 1) + if Seen(g, u, j, k - 1) then f(k - 1) else 0
  }

  lemma {:induction false} SeenSumStart(g: Valid, u: nat, f: nat -> int, k: nat)
    requires u < Size(g) && k <= Size(g)
    ensures SeenSum(g, u, g.xadj[u] as int, f, k) == 0
  {
    if k > 0 {
      SeenSumStart(g, u, f, k - 1);
      SeenEnds(g, u, k - 1);
    }
  }

  lemma {:induction false} SeenSumStep(g: Valid, u: nat, j: int, f: nat -> int, k: nat)
    requires u < Size(g) && k <= Size(g) && Slot(g, u, j)
    ensures SeenSum(g, u, j + 1, f, k) == SeenSum(g, u, j, f, k) + if g.adjncy[j] < k then f(g.adjncy[j]) else 0
  {
    if k > 0 {
      SeenSumStep(g, u, j, f, k - 1);
      SeenStep(g, u, j, k - 1);
    }
  }

  ghost function DegTerm(g: Valid, where: seq<int>, x: nat, k: int): nat -> int
    requires Partition(g, where) && x < Size(g)
  {
    (y: nat) => if y < |where| && where[y] == k then W(g, x, y) else 0
  }

  /** The weight that the slots of `x` before `j` give to `k`. */
  ghost function SlotDeg(g: Valid, where: seq<int>, x: nat, k: int, j: int): int
    requires Partition(g, where) && x < Size(g)
  {
    SeenSum(g, x, j, DegTerm(g, where, x, k), Size(g))
  }

  lemma SlotDegStep(g: Valid, where: seq<int>, x: nat, k: int, j: int)
    requires Partition(g, where) && x < Size(g) && Slot(g, x, j)
    ensures SlotDeg(g, where, x, k, j + 1) == SlotDeg(g, where, x, k, j) + if where[g.adjncy[j]] == k then g.adjwgt[j] else 0
  {
    SeenSumStep(g, x, j, DegTerm(g, where, x, k), Size(g));
    SlotWeight(g, x, j);
  }

  lemma {:induction false} SlotDegEnd(g: Valid, where: seq<int>, x: nat, k: int, m: nat)
    requires Partition(g, where) && x < Size(g) && m <= Size(g)
    ensures SeenSum(g, x, g.xadj[x + 1], DegTerm(g, where, x, k), m) == Deg(g, where, x, k, m)
  {
    if m > 0 {
      SlotDegEnd(g, where, x, k, m - 1);
      SeenEnds(g, x, m - 1);
      WSymmetric(g, x, m - 1);
    }
  }
}
