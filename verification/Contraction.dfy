/**
 What contraction promises. `cmap` sends the vertices of a graph onto those of a coarse graph; the weight
 between two coarse vertices is the weight between their fibres. Then every partition of the coarse graph has
 the cut and the part weights of the partition it induces on the fine graph.
 */
module Contraction {
  import opened Graphs

  ghost predicate Onto(n: nat, cmap: seq<int>, cn: nat)
  {
    |cmap| == n && forall v :: 0 <= v < n ==> 0 <= cmap[v] < cn
  }

  /** The sum of `vals` over the vertices below `r` that are sent to `c`. */
  ghost function FibreSum(cmap: seq<int>, c: int, vals: seq<int>, r: nat): int
    requires |cmap| == |vals| && r <= |vals|
  {
    if r == 0 then 0 else FibreSum(cmap, c, vals, r - 1) + if cmap[r - 1] == c then vals[r - 1] else 0
  }

  ghost function Fibre(cmap: seq<int>, c: int, vals: seq<int>): int
    requires |cmap| == |vals|
  {
    FibreSum(cmap, c, vals, |vals|)
  }

  /** The weights from each vertex to those vertices below `m` that are sent to `k`. */
  ghost function DegVec(g: Valid, cmap: seq<int>, k: int, m: nat): (r: seq<int>)
    requires |cmap| == Size(g) && m <= Size(g)
    ensures |r| == Size(g) && forall x :: 0 <= x < Size(g) ==> r[x] == Deg(g, cmap, x, k, m)
  {
    seq(Size(g), x requires 0 <= x < Size(g) => Deg(g, cmap, x, k, m))
  }

  /** The weight between the fibres of `c` and `k`. */
  ghost function Between(g: Valid, cmap: seq<int>, c: int, k: int): int
    requires |cmap| == Size(g)
  {
    Fibre(cmap, c, DegVec(g, cmap, k, Size(g)))
  }

  /** `cg` is the contraction of `g` along `cmap`. */
  ghost predicate IsContraction(g: Valid, cmap: seq<int>, cg: Valid)
  {
    && Onto(Size(g), cmap, Size(cg))
    && (forall c: nat :: c < Size(cg) ==> cg.vwgt[c] == Fibre(cmap, c, g.vwgt) && cg.vsize[c] == Fibre(cmap, c, g.vsize))
    && (forall c: nat, k: nat :: c < Size(cg) && k < Size(cg) && c != k ==> W(cg, c, k) == Between(g, cmap, c, k))
  }

  /** The partition of the fine graph that a partition of the coarse graph induces. */
  function Pull(cwhere: seq<int>, cmap: seq<int>): (r: seq<int>)
    requires Onto(|cmap|, cmap, |cwhere|)
    ensures |r| == |cmap| && forall v :: 0 <= v < |cmap| ==> r[v] == cwhere[cmap[v]]
  {
    seq(|cmap|, v requires 0 <= v < |cmap| => cwhere[cmap[v]])
  }

  // ----- The weight between fibres is symmetric

  lemma {:induction false} BlockColumn(g: Valid, cmap: seq<int>, c: int, k: int, r: nat, m: nat)
    requires |cmap| == Size(g) && r <= Size(g) && m < Size(g)
    ensures FibreSum(cmap, c, DegVec(g, cmap, k, m + 1), r) ==
      FibreSum(cmap, c, DegVec(g, cmap, k, m), r) + if cmap[m] == k then Deg(g, cmap, m, c, r) else 0
  {
    if r > 0 {
      BlockColumn(g, cmap, c, k, r - 1, m);
      WSymmetric(g, r - 1, m);
    }
  }

  lemma {:induction false} BlockZero(g: Valid, cmap: seq<int>, c: int, k: int, r: nat)
    requires |cmap| == Size(g) && r <= Size(g)
    ensures FibreSum(cmap, c, DegVec(g, cmap, k, 0), r) == 0
  {
    if r > 0 {
      BlockZero(g, cmap, c, k, r - 1);
    }
  }

  lemma {:induction false} BlockSymmetric(g: Valid, cmap: seq<int>, c: int, k: int, r: nat, m: nat)
    requires |cmap| == Size(g) && r <= Size(g) && m <= Size(g)
    ensures FibreSum(cmap, c, DegVec(g, cmap, k, m), r) == FibreSum(cmap, k, DegVec(g, cmap, c, r), m)
  {
    if m == 0 {
      BlockZero(g, cmap, c, k, r);
    } else {
      BlockSymmetric(g, cmap, c, k, r, m - 1);
      BlockColumn(g, cmap, c, k, r, m - 1);
    }
  }

  lemma BetweenSymmetric(g: Valid, cmap: seq<int>, c: int, k: int)
    requires |cmap| == Size(g)
    ensures Between(g, cmap, c, k) == Between(g, cmap, k, c) >= 0
  {
    BlockSymmetric(g, cmap, c, k, Size(g), Size(g));
    BlockSign(g, cmap, c, k, Size(g));
  }

  lemma {:induction false} BlockSign(g: Valid, cmap: seq<int>, c: int, k: int, r: nat)
    requires |cmap| == Size(g) && r <= Size(g)
    ensures FibreSum(cmap, c, DegVec(g, cmap, k, Size(g)), r) >= 0
  {
    if r > 0 {
      BlockSign(g, cmap, c, k, r - 1);
      DegSign(g, cmap, r - 1, k, Size(g));
    }
  }

  // ----- The cut is preserved

  /** The external weight of `x` in the induced partition, grouped by coarse vertex: those below `cn`, over the
      neighbours below `m`. */
  ghost function RowExt(g: Valid, cmap: seq<int>, cw: seq<int>, x: nat, m: nat, cn: nat): int
    requires Onto(Size(g), cmap, |cw|) && x < Size(g) && m <= Size(g) && cn <= |cw|
  {
    if cn == 0 then 0
    else RowExt(g, cmap, cw, x, m, cn - 1) + if cw[cn - 1] != cw[cmap[x]] then Deg(g, cmap, x, cn - 1, m) else 0
  }

  lemma {:induction false} RowExtStep(g: Valid, cmap: seq<int>, cw: seq<int>, x: nat, m: nat, cn: nat)
    requires Onto(Size(g), cmap, |cw|) && x < Size(g) && m < Size(g) && cn <= |cw|
    ensures RowExt(g, cmap, cw, x, m + 1, cn) == RowExt(g, cmap, cw, x, m, cn)
      + if cmap[m] < cn && cw[cmap[m]] != cw[cmap[x]] then W(g, x, m) else 0
  {
    if cn > 0 {
      RowExtStep(g, cmap, cw, x, m, cn - 1);
    }
  }

  lemma {:induction false} RowExtZero(g: Valid, cmap: seq<int>, cw: seq<int>, x: nat, cn: nat)
    requires Onto(Size(g), cmap, |cw|) && x < Size(g) && cn <= |cw|
    ensures RowExt(g, cmap, cw, x, 0, cn) == 0
  {
    if cn > 0 {
      RowExtZero(g, cmap, cw, x, cn - 1);
    }
  }

  /** Grouping by coarse vertex does not change the external weight. */
  lemma {:induction false} ExtGrouped(g: Valid, cmap: seq<int>, cw: seq<int>, x: nat, m: nat)
    requires Onto(Size(g), cmap, |cw|) && x < Size(g) && m <= Size(g)
    ensures Ext(g, Pull(cw, cmap), x, m) == RowExt(g, cmap, cw, x, m, |cw|)
  {
    if m == 0 {
      RowExtZero(g, cmap, cw, x, |cw|);
    } else {
      ExtGrouped(g, cmap, cw, x, m - 1);
      RowExtStep(g, cmap, cw, x, m - 1, |cw|);
    }
  }

  /** The external weight of coarse vertex `c`, over coarse vertices below `cn` and the members of its fibre
      below `r`. */
  ghost function CoarseExt(g: Valid, cmap: seq<int>, cw: seq<int>, c: nat, r: nat, cn: nat): int
    requires Onto(Size(g), cmap, |cw|) && c < |cw| && r <= Size(g) && cn <= |cw|
  {
    if cn == 0 then 0 else
      var block := if cw[cn - 1] != cw[c] then FibreSum(cmap, c, DegVec(g, cmap, cn - 1, Size(g)), r) else 0;
      CoarseExt(g, cmap, cw, c, r, cn - 1) + block
  }

  lemma {:induction false} CoarseExtStep(g: Valid, cmap: seq<int>, cw: seq<int>, c: nat, r: nat, cn: nat)
    requires Onto(Size(g), cmap, |cw|) && c < |cw| && r < Size(g) && cn <= |cw|
    ensures CoarseExt(g, cmap, cw, c, r + 1, cn) == CoarseExt(g, cmap, cw, c, r, cn)
      + if cmap[r] == c then RowExt(g, cmap, cw, r, Size(g), cn) else 0
  {
    if cn > 0 {
      CoarseExtStep(g, cmap, cw, c, r, cn - 1);
    }
  }

  lemma {:induction false} CoarseExtZero(g: Valid, cmap: seq<int>, cw: seq<int>, c: nat, cn: nat)
    requires Onto(Size(g), cmap, |cw|) && c < |cw| && cn <= |cw|
    ensures CoarseExt(g, cmap, cw, c, 0, cn) == 0
  {
    if cn > 0 {
      CoarseExtZero(g, cmap, cw, c, cn - 1);
    }
  }

  lemma {:induction false} CoarseExtIs(g: Valid, cmap: seq<int>, cg: Valid, cw: seq<int>, c: nat, cn: nat)
    requires IsContraction(g, cmap, cg) && Partition(cg, cw) && c < Size(cg) && cn <= Size(cg)
    ensures Ext(cg, cw, c, cn) == CoarseExt(g, cmap, cw, c, Size(g), cn)
  {
    if cn > 0 {
      CoarseExtIs(g, cmap, cg, cw, c, cn - 1);
      if cw[cn - 1] != cw[c] {
        assert W(cg, c, cn - 1) == Between(g, cmap, c, cn - 1);
      }
    }
  }

  /** The external weights of the coarse vertices below `cn`, over fibre members below `r`. */
  ghost function TotalExt(g: Valid, cmap: seq<int>, cw: seq<int>, r: nat, cn: nat): int
    requires Onto(Size(g), cmap, |cw|) && r <= Size(g) && cn <= |cw|
  {
    if cn == 0 then 0 else TotalExt(g, cmap, cw, r, cn - 1) + CoarseExt(g, cmap, cw, cn - 1, r, |cw|)
  }

  lemma {:induction false} TotalExtStep(g: Valid, cmap: seq<int>, cw: seq<int>, r: nat, cn: nat)
    requires Onto(Size(g), cmap, |cw|) && r < Size(g) && cn <= |cw|
    ensures TotalExt(g, cmap, cw, r + 1, cn) == TotalExt(g, cmap, cw, r, cn)
      + if cmap[r] < cn then RowExt(g, cmap, cw, r, Size(g), |cw|) else 0
  {
    if cn > 0 {
      TotalExtStep(g, cmap, cw, r, cn - 1);
      CoarseExtStep(g, cmap, cw, cn - 1, r, |cw|);
    }
  }

  lemma {:induction false} TotalExtZero(g: Valid, cmap: seq<int>, cw: seq<int>, cn: nat)
    requires Onto(Size(g), cmap, |cw|) && cn <= |cw|
    ensures TotalExt(g, cmap, cw, 0, cn) == 0
  {
    if cn > 0 {
      TotalExtZero(g, cmap, cw, cn - 1);
      CoarseExtZero(g, cmap, cw, cn - 1, |cw|);
    }
  }

  lemma {:induction false} TotalExtIsFine(g: Valid, cmap: seq<int>, cw: seq<int>, r: nat)
    requires Onto(Size(g), cmap, |cw|) && r <= Size(g)
    ensures TotalExt(g, cmap, cw, r, |cw|) == ExtSum(g, Pull(cw, cmap), r)
  {
    if r == 0 {
      TotalExtZero(g, cmap, cw, |cw|);
    } else {
      TotalExtIsFine(g, cmap, cw, r - 1);
      TotalExtStep(g, cmap, cw, r - 1, |cw|);
      ExtGrouped(g, cmap, cw, r - 1, Size(g));
    }
  }

  lemma {:induction false} TotalExtIsCoarse(g: Valid, cmap: seq<int>, cg: Valid, cw: seq<int>, cn: nat)
    requires IsContraction(g, cmap, cg) && Partition(cg, cw) && cn <= Size(cg)
    ensures TotalExt(g, cmap, cw, Size(g), cn) == ExtSum(cg, cw, cn)
  {
    if cn > 0 {
      TotalExtIsCoarse(g, cmap, cg, cw, cn - 1);
      CoarseExtIs(g, cmap, cg, cw, cn - 1, Size(cg));
    }
  }

  /** A partition of the coarse graph cuts exactly what the induced partition cuts. */
  lemma CutPreserved(g: Valid, cmap: seq<int>, cg: Valid, cw: seq<int>)
    requires IsContraction(g, cmap, cg) && Partition(cg, cw)
    ensures Cut2(cg, cw) == Cut2(g, Pull(cw, cmap))
  {
    TotalExtIsFine(g, cmap, cw, Size(g));
    TotalExtIsCoarse(g, cmap, cg, cw, Size(cg));
  }

  // ----- The weights are preserved

  /** The coarse weight of part `p`, over coarse vertices below `cn` and fine ones below `r`. */
  ghost function CoarseWeight(vals: seq<int>, cmap: seq<int>, cw: seq<int>, p: int, r: nat, cn: nat): int
    requires Onto(|vals|, cmap, |cw|) && r <= |vals| && cn <= |cw|
  {
    if cn == 0 then 0
    else CoarseWeight(vals, cmap, cw, p, r, cn - 1) + if cw[cn - 1] == p then FibreSum(cmap, cn - 1, vals, r) else 0
  }

  lemma {:induction false} CoarseWeightStep(vals: seq<int>, cmap: seq<int>, cw: seq<int>, p: int, r: nat, cn: nat)
    requires Onto(|vals|, cmap, |cw|) && r < |vals| && cn <= |cw|
    ensures CoarseWeight(vals, cmap, cw, p, r + 1, cn) == CoarseWeight(vals, cmap, cw, p, r, cn)
      + if cmap[r] < cn && cw[cmap[r]] == p then vals[r] else 0
  {
    if cn > 0 {
      CoarseWeightStep(vals, cmap, cw, p, r, cn - 1);
    }
  }

  lemma {:induction false} CoarseWeightZero(vals: seq<int>, cmap: seq<int>, cw: seq<int>, p: int, cn: nat)
    requires Onto(|vals|, cmap, |cw|) && cn <= |cw|
    ensures CoarseWeight(vals, cmap, cw, p, 0, cn) == 0
  {
    if cn > 0 {
      CoarseWeightZero(vals, cmap, cw, p, cn - 1);
    }
  }

  lemma {:induction false} CoarseWeightIsFine(g: Valid, cmap: seq<int>, cw: seq<int>, p: int, r: nat)
    requires Onto(Size(g), cmap, |cw|) && r <= Size(g)
    ensures CoarseWeight(g.vwgt, cmap, cw, p, r, |cw|) == PartWeight(g, Pull(cw, cmap), p, r)
  {
    if r == 0 {
      CoarseWeightZero(g.vwgt, cmap, cw, p, |cw|);
    } else {
      CoarseWeightIsFine(g, cmap, cw, p, r - 1);
      CoarseWeightStep(g.vwgt, cmap, cw, p, r - 1, |cw|);
    }
  }

  lemma {:induction false} CoarseWeightIsCoarse(g: Valid, cmap: seq<int>, cg: Valid, cw: seq<int>, p: int, cn: nat)
    requires IsContraction(g, cmap, cg) && Partition(cg, cw) && cn <= Size(cg)
    ensures CoarseWeight(g.vwgt, cmap, cw, p, Size(g), cn) == PartWeight(cg, cw, p, cn)
  {
    if cn > 0 {
      CoarseWeightIsCoarse(g, cmap, cg, cw, p, cn - 1);
    }
  }

  /** Every part of the coarse graph weighs what the induced part weighs. */
  lemma WeightPreserved(g: Valid, cmap: seq<int>, cg: Valid, cw: seq<int>, p: int)
    requires IsContraction(g, cmap, cg) && Partition(cg, cw)
    ensures WeightOf(cg, cw, p) == WeightOf(g, Pull(cw, cmap), p)
  {
    CoarseWeightIsFine(g, cmap, cw, p, Size(g));
    CoarseWeightIsCoarse(g, cmap, cg, cw, p, Size(cg));
  }

  function OnePart(n: nat): seq<int>
  {
    seq(n, _ => 0)
  }

  /** The whole weight is conserved. */
  lemma TotalPreserved(g: Valid, cmap: seq<int>, cg: Valid)
    requires IsContraction(g, cmap, cg)
    ensures WeightOf(cg, OnePart(Size(cg)), 0) == WeightOf(g, OnePart(Size(g)), 0)
  {
    assert Pull(OnePart(Size(cg)), cmap) == OnePart(Size(g));
    WeightPreserved(g, cmap, cg, OnePart(Size(cg)), 0);
  }

  // ----- What projection relies on

  /** Part of a fibre's external weight is none of it, when there is none. */
  lemma {:induction false} InteriorBelow(g: Valid, cmap: seq<int>, cw: seq<int>, x: nat, r: nat)
    requires Onto(Size(g), cmap, |cw|) && r <= Size(g) && x < Size(g)
    ensures CoarseExt(g, cmap, cw, cmap[x], r, |cw|) >= if x < r then ExtTo(g, Pull(cw, cmap), x) else 0
  {
    if r == 0 {
      CoarseExtZero(g, cmap, cw, cmap[x], |cw|);
    } else {
      InteriorBelow(g, cmap, cw, x, r - 1);
      CoarseExtStep(g, cmap, cw, cmap[x], r - 1, |cw|);
      ExtGrouped(g, cmap, cw, r - 1, Size(g));
      ExtSign(g, Pull(cw, cmap), r - 1, Size(g));
    }
  }

  /** A vertex whose coarse image has no external weight has none itself: the shortcut of the projection. */
  lemma InteriorProjects(g: Valid, cmap: seq<int>, cg: Valid, cw: seq<int>, x: nat)
    requires IsContraction(g, cmap, cg) && Partition(cg, cw) && x < Size(g)
    ensures 0 <= ExtTo(g, Pull(cw, cmap), x) <= ExtTo(cg, cw, cmap[x])
  {
    InteriorBelow(g, cmap, cw, x, Size(g));
    CoarseExtIs(g, cmap, cg, cw, cmap[x], Size(cg));
    ExtSign(g, Pull(cw, cmap), x, Size(g));
  }
}
