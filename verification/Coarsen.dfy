/**
 CreateCoarseGraphNoMask: builds the contraction of a graph along a matching. The coarse vertices are visited
 in the order in which the matcher numbered them; the adjacency list of each is collected with the help of a
 table from coarse vertex to list position, which is empty again after each list.
 */
module Coarsen {
  import opened Graphs
  import opened Matching
  import opened Contraction
  import opened Finite
  import BucketSort

  // ----- Sums of lists

  ghost function Sum(s: seq<int>): int
  {
    if s == [] then 0 else Sum(s[..|s| - 1]) + s[|s| - 1]
  }

  lemma SumAppend(s: seq<int>, x: int)
    ensures Sum(s + [x]) == Sum(s) + x
  {
    assert (s + [x])[..|s|] == s;
  }

  lemma {:induction false} SumUpdate(s: seq<int>, i: nat, x: int)
    requires i < |s|
    ensures Sum(s[i := x]) == Sum(s) - s[i] + x
  {
    var last := |s| - 1;
    if i < last {
      SumUpdate(s[..last], i, x);
      assert s[i := x][..last] == s[..last][i := x];
    } else {
      assert s[i := x][..last] == s[..last];
    }
  }

  /** Replacing an entry by the last one and dropping the last one removes the entry. */
  lemma SumSwapOut(s: seq<int>, i: nat)
    requires i < |s|
    ensures Sum(SwapOut(s, i)) == Sum(s) - s[i]
  {
    SwapOutThenLast(s, i);
    SumUpdate(s, i, s[|s| - 1]);
    SumAppend(SwapOut(s, i), s[|s| - 1]);
  }

  lemma SumSlice(s: seq<int>, i: nat, j: nat)
    requires i <= j < |s|
    ensures Sum(s[i..j + 1]) == Sum(s[i..j]) + s[j]
  {
    assert s[i..j + 1] == s[i..j] + [s[j]];
    SumAppend(s[i..j], s[j]);
  }

  /** The weights of the slots of `u`, which `adjwgtsum[u]` has to be. */
  ghost function SlotSum(g: Graph, u: nat): int
    requires Csr(g) && u < Size(g)
  {
    Sum(g.adjwgt[g.xadj[u]..g.xadj[u + 1]])
  }

  /** The weights of the slots of `u` before `j`. */
  ghost function PrefixSum(g: Valid, u: nat, j: int): int
    requires u < Size(g) && g.xadj[u] <= j <= g.xadj[u + 1]
    decreases j
  {
    if j == g.xadj[u] then 0 else PrefixSum(g, u, j - 1) + g.adjwgt[j - 1]
  }

  lemma {:induction false} PrefixSumIs(g: Valid, u: nat, j: int)
    requires u < Size(g) && g.xadj[u] <= j <= g.xadj[u + 1]
    ensures PrefixSum(g, u, j) == Sum(g.adjwgt[g.xadj[u]..j])
    decreases j
  {
    if j > g.xadj[u] {
      PrefixSumIs(g, u, j - 1);
      SumSlice(g.adjwgt, g.xadj[u], j - 1);
    }
  }

  // ----- What the slots of one vertex contribute

  /** `base` plus what the slots of `x` before `j` contribute. */
  ghost function Acc(g: Valid, cmap: seq<int>, base: seq<int>, x: nat, j: int): (r: seq<int>)
    requires Onto(Size(g), cmap, |base|) && x < Size(g) && g.xadj[x] <= j <= g.xadj[x + 1]
    ensures |r| == |base|
    decreases j
  {
    if j == g.xadj[x] then base
    else
      var acc, k := Acc(g, cmap, base, x, j - 1), cmap[g.adjncy[j - 1]];
      acc[k := acc[k] + g.adjwgt[j - 1]]
  }

  lemma {:induction false} AccIs(g: Valid, cmap: seq<int>, base: seq<int>, x: nat, j: int, k: nat)
    requires Onto(Size(g), cmap, |base|) && x < Size(g) && g.xadj[x] <= j <= g.xadj[x + 1] && k < |base|
    ensures Acc(g, cmap, base, x, j)[k] == base[k] + SlotDeg(g, cmap, x, k, j)
    decreases j
  {
    if j == g.xadj[x] {
      SeenSumStart(g, x, DegTerm(g, cmap, x, k), Size(g));
    } else {
      AccIs(g, cmap, base, x, j - 1, k);
      SlotDegStep(g, cmap, x, k, j - 1);
    }
  }

  lemma AccEnd(g: Valid, cmap: seq<int>, base: seq<int>, x: nat)
    requires Onto(Size(g), cmap, |base|) && x < Size(g)
    ensures var acc := Acc(g, cmap, base, x, g.xadj[x + 1]);
      forall k :: 0 <= k < |base| ==> acc[k] == base[k] + DegTo(g, cmap, x, k)
  {
    var acc := Acc(g, cmap, base, x, g.xadj[x + 1]);
    forall k | 0 <= k < |base| ensures acc[k] == base[k] + DegTo(g, cmap, x, k) {
      AccIs(g, cmap, base, x, g.xadj[x + 1], k);
      SlotDegEnd(g, cmap, x, k, Size(g));
    }
  }

  // ----- Fibres of a matching

  /** A fibre has the members `v` and `u`. */
  ghost predicate FibreIs(cmap: seq<int>, c: int, v: nat, u: nat)
  {
    v < |cmap| && u < |cmap| && forall x :: 0 <= x < |cmap| ==> (cmap[x] == c <==> x == v || x == u)
  }

  lemma {:induction false} FibreSumIs(cmap: seq<int>, c: int, v: nat, u: nat, vals: seq<int>, r: nat)
    requires FibreIs(cmap, c, v, u) && |vals| == |cmap| && r <= |vals|
    ensures FibreSum(cmap, c, vals, r) == (if v < r then vals[v] else 0) + if u != v && u < r then vals[u] else 0
  {
    if r > 0 {
      FibreSumIs(cmap, c, v, u, vals, r - 1);
    }
  }

  /** A vertex that is alone in its fibre has no weight to it. */
  lemma {:induction false} AloneDeg(g: Valid, cmap: seq<int>, c: int, v: nat, r: nat)
    requires |cmap| == Size(g) && FibreIs(cmap, c, v, v) && r <= Size(g)
    ensures Deg(g, cmap, v, c, r) == 0
  {
    WSymmetric(g, v, v);
    if r > 0 {
      AloneDeg(g, cmap, c, v, r - 1);
    }
  }

  /** The adjacency list that coarse vertex `c` should have: its weight to every other. */
  ghost function Target(g: Valid, cmap: seq<int>, cn: nat, c: int): (r: seq<int>)
    requires |cmap| == Size(g)
    ensures |r| == cn && forall k :: 0 <= k < cn ==> r[k] == if k == c then 0 else Between(g, cmap, c, k)
  {
    seq(cn, k requires 0 <= k < cn => if k == c then 0 else Between(g, cmap, c, k))
  }

  function Zeros(cn: nat): (r: seq<int>)
    ensures |r| == cn && forall k :: 0 <= k < cn ==> r[k] == 0
  {
    seq(cn, _ => 0)
  }

  /** What the lists of both members, with the entry of `c` itself removed, add up to. */
  lemma BothLists(g: Valid, cmap: seq<int>, cn: nat, c: nat, v: nat, u: nat)
    requires Onto(Size(g), cmap, cn) && c < cn && FibreIs(cmap, c, v, u)
    ensures var first := Acc(g, cmap, Zeros(cn), v, g.xadj[v + 1]);
      if v == u then first == Target(g, cmap, cn, c)
      else Acc(g, cmap, first, u, g.xadj[u + 1])[c := 0] == Target(g, cmap, cn, c)
  {
    var first := Acc(g, cmap, Zeros(cn), v, g.xadj[v + 1]);
    AccEnd(g, cmap, Zeros(cn), v);
    AccEnd(g, cmap, first, u);
    if v == u {
      AloneDeg(g, cmap, c, v, Size(g));
    }
    forall k | 0 <= k < cn ensures Between(g, cmap, c, k) == DegTo(g, cmap, v, k) + if u != v then DegTo(g, cmap, u, k) else 0 {
      FibreSumIs(cmap, c, v, u, DegVec(g, cmap, k, Size(g)), Size(g));
    }
  }

  // ----- One adjacency list

  /** Entry `i` of the list has its weight. */
  ghost predicate Weighs(row: seq<nat>, wgt: seq<int>, acc: seq<int>, i: nat)
    requires i < |row| == |wgt|
  {
    row[i] < |acc| && wgt[i] == acc[row[i]] > 0
  }

  /** A positive weight is listed. */
  ghost predicate Included(row: seq<nat>, acc: seq<int>, k: nat)
    requires k < |acc|
  {
    acc[k] >= 0 && (acc[k] > 0 ==> k in row)
  }

  /** The list `row` with weights `wgt` has one entry for every positive weight in `acc`, and no other. */
  ghost predicate Collected(row: seq<nat>, wgt: seq<int>, acc: seq<int>)
  {
    && |row| == |wgt|
    && (forall i: nat :: i < |row| ==> Weighs(row, wgt, acc, i))
    && (forall i, j :: 0 <= i < j < |row| ==> row[i] != row[j])
    && (forall k: nat :: k < |acc| ==> Included(row, acc, k))
  }

  ghost predicate PointsBack(htable: seq<int>, row: seq<nat>, k: nat)
    requires k < |htable|
  {
    htable[k] == -1 || (0 <= htable[k] < |row| && row[htable[k]] == k)
  }

  ghost predicate PointedAt(htable: seq<int>, row: seq<nat>, i: nat)
    requires i < |row|
  {
    row[i] < |htable| && htable[row[i]] == i
  }

  /** The table sends exactly the entries of the list to their positions. */
  ghost predicate Indexed(htable: seq<int>, row: seq<nat>, acc: seq<int>)
  {
    && |htable| == |acc|
    && (forall k: nat :: k < |htable| ==> PointsBack(htable, row, k))
    && (forall i: nat :: i < |row| ==> PointedAt(htable, row, i))
  }

  lemma IndexFacts(htable: seq<int>, row: seq<nat>, acc: seq<int>)
    requires Indexed(htable, row, acc)
    ensures forall k: nat :: k < |htable| ==> htable[k] == -1 || (0 <= htable[k] < |row| && row[htable[k]] == k)
    ensures forall i :: 0 <= i < |row| ==> row[i] < |htable| && htable[row[i]] == i
  {
    forall k: nat | k < |htable| ensures htable[k] == -1 || (0 <= htable[k] < |row| && row[htable[k]] == k) {
      assert PointsBack(htable, row, k);
    }
    forall i: nat | i < |row| ensures row[i] < |htable| && htable[row[i]] == i {
      assert PointedAt(htable, row, i);
    }
  }

  /** The entries of the list are marked in the table, wherever the marks point. */
  ghost predicate Marked(htable: seq<int>, row: seq<nat>, i: nat)
    requires i <= |row|
  {
    forall k: nat :: k < |htable| && htable[k] != -1 ==> k in row[i..]
  }

  /** How many weights are positive. */
  ghost function Positives(acc: seq<int>): nat
  {
    if acc == [] then 0 else Positives(acc[..|acc| - 1]) + if acc[|acc| - 1] > 0 then 1 else 0
  }

  lemma {:induction false} PositivesUpdate(acc: seq<int>, k: nat, x: int)
    requires k < |acc|
    ensures Positives(acc[k := x]) == Positives(acc) - (if acc[k] > 0 then 1 else 0) + if x > 0 then 1 else 0
  {
    var last := |acc| - 1;
    if k < last {
      PositivesUpdate(acc[..last], k, x);
      assert acc[k := x][..last] == acc[..last][k := x];
    } else {
      assert acc[k := x][..last] == acc[..last];
    }
  }

  lemma {:induction false} PositivesZeros(cn: nat)
    ensures Positives(Zeros(cn)) == 0
  {
    if cn > 0 {
      PositivesZeros(cn - 1);
      assert Zeros(cn)[..cn - 1] == Zeros(cn - 1);
    }
  }

  /** The list, its table and the number of its entries are as `acc` says. */
  ghost predicate RowOf(row: seq<nat>, wgt: seq<int>, htable: seq<int>, acc: seq<int>)
  {
    Collected(row, wgt, acc) && Indexed(htable, row, acc) && |row| == Positives(acc)
  }

  lemma RowNew(row: seq<nat>, wgt: seq<int>, htable: seq<int>, acc: seq<int>, k: nat, w: int)
    requires RowOf(row, wgt, htable, acc) && k < |acc| && w > 0 && htable[k] == -1
    ensures RowOf(row + [k], wgt + [w], htable[k := |row|], acc[k := acc[k] + w]) && Sum(wgt + [w]) == Sum(wgt) + w
  {
    CollectNew(row, wgt, htable, acc, k, w);
    PositivesUpdate(acc, k, acc[k] + w);
    SumAppend(wgt, w);
  }

  lemma RowMore(row: seq<nat>, wgt: seq<int>, htable: seq<int>, acc: seq<int>, k: nat, w: int)
    requires RowOf(row, wgt, htable, acc) && k < |acc| && w > 0 && htable[k] != -1
    ensures 0 <= htable[k] < |wgt|
    ensures var wgt' := wgt[htable[k] := wgt[htable[k]] + w];
      RowOf(row, wgt', htable, acc[k := acc[k] + w]) && Sum(wgt') == Sum(wgt) + w
  {
    CollectMore(row, wgt, htable, acc, k, w);
    PositivesUpdate(acc, k, acc[k] + w);
    SumUpdate(wgt, htable[k], wgt[htable[k]] + w);
  }

  /** A finished list: its entries are marked, wherever the marks point. */
  ghost predicate DoneOf(row: seq<nat>, wgt: seq<int>, htable: seq<int>, acc: seq<int>)
  {
    Collected(row, wgt, acc) && |htable| == |acc| && Marked(htable, row, 0) && |row| == Positives(acc)
  }

  lemma RowDrop(row: seq<nat>, wgt: seq<int>, htable: seq<int>, acc: seq<int>, c: nat)
    requires RowOf(row, wgt, htable, acc) && c < |acc| && htable[c] != -1
    ensures 0 <= htable[c] < |row| == |wgt|
    ensures var j := htable[c];
      && DoneOf(SwapOut(row, j), SwapOut(wgt, j), htable[c := -1], acc[c := 0])
      && Sum(SwapOut(wgt, j)) == Sum(wgt) - wgt[j]
  {
    assert PointsBack(htable, row, c);
    CollectDrop(row, wgt, htable, acc, c);
    DropMarked(row, htable, acc, c);
    RowCount(row, acc, c);
    SumSwapOut(wgt, htable[c]);
  }

  /** One entry less in the list, one positive weight less. */
  lemma RowCount(row: seq<nat>, acc: seq<int>, c: nat)
    requires |row| == Positives(acc) && c < |acc| && acc[c] > 0
    ensures |row| - 1 == Positives(acc[c := 0])
  {
    PositivesUpdate(acc, c, 0);
  }

  lemma RowDone(row: seq<nat>, wgt: seq<int>, htable: seq<int>, acc: seq<int>)
    requires RowOf(row, wgt, htable, acc)
    ensures DoneOf(row, wgt, htable, acc)
  {
    IndexFacts(htable, row, acc);
    forall k: nat | k < |htable| && htable[k] != -1 ensures k in row[0..] {
      assert row[htable[k]] == k;
    }
  }

  lemma NotListed(row: seq<nat>, wgt: seq<int>, htable: seq<int>, acc: seq<int>, c: nat)
    requires Collected(row, wgt, acc) && Indexed(htable, row, acc) && c < |acc| && htable[c] == -1
    ensures acc[c] == 0
  {
    assert Included(row, acc, c);
    forall i: nat | i < |row| ensures row[i] != c {
      assert PointedAt(htable, row, i);
    }
  }

  /** Without an entry for `c` there is nothing to remove. */
  lemma RowNoSelf(row: seq<nat>, wgt: seq<int>, htable: seq<int>, acc: seq<int>, c: nat)
    requires RowOf(row, wgt, htable, acc) && c < |acc| && htable[c] == -1
    ensures DoneOf(row, wgt, htable, acc[c := 0])
  {
    RowDone(row, wgt, htable, acc);
    NotListed(row, wgt, htable, acc, c);
    assert acc[c := 0] == acc;
  }

  /** A new entry at the end of the list. */
  lemma CollectNew(row: seq<nat>, wgt: seq<int>, htable: seq<int>, acc: seq<int>, k: nat, w: int)
    requires Collected(row, wgt, acc) && Indexed(htable, row, acc) && k < |acc| && w > 0 && htable[k] == -1
    ensures acc[k] == 0
    ensures Collected(row + [k], wgt + [w], acc[k := acc[k] + w]) && Indexed(htable[k := |row|], row + [k], acc[k := acc[k] + w])
  {
    IndexFacts(htable, row, acc);
    assert Included(row, acc, k);
    var row', wgt', acc' := row + [k], wgt + [w], acc[k := acc[k] + w];
    forall i: nat | i < |row'| ensures Weighs(row', wgt', acc', i) {
      assert i < |row| ==> Weighs(row, wgt, acc, i);
    }
    forall l: nat | l < |acc'| ensures Included(row', acc', l) {
      assert Included(row, acc, l);
    }
  }

  /** More weight on an entry of the list. */
  lemma CollectMore(row: seq<nat>, wgt: seq<int>, htable: seq<int>, acc: seq<int>, k: nat, w: int)
    requires Collected(row, wgt, acc) && Indexed(htable, row, acc) && k < |acc| && w > 0 && htable[k] != -1
    ensures 0 <= htable[k] < |wgt| && wgt[htable[k]] == acc[k] > 0
    ensures Collected(row, wgt[htable[k] := wgt[htable[k]] + w], acc[k := acc[k] + w]) && Indexed(htable, row, acc[k := acc[k] + w])
  {
    assert PointsBack(htable, row, k) && Weighs(row, wgt, acc, htable[k]);
    var wgt', acc' := wgt[htable[k] := wgt[htable[k]] + w], acc[k := acc[k] + w];
    forall i: nat | i < |row| ensures Weighs(row, wgt', acc', i) {
      assert Weighs(row, wgt, acc, i);
    }
    forall l: nat | l < |acc'| ensures Included(row, acc', l) {
      assert Included(row, acc, l);
    }
  }

  /** Removing the entry of `c` by moving the last one into its place. */
  lemma CollectDrop(row: seq<nat>, wgt: seq<int>, htable: seq<int>, acc: seq<int>, c: nat)
    requires Collected(row, wgt, acc) && Indexed(htable, row, acc) && c < |acc| && htable[c] != -1
    ensures 0 <= htable[c] < |row| == |wgt| && wgt[htable[c]] == acc[c] > 0
    ensures Collected(SwapOut(row, htable[c]), SwapOut(wgt, htable[c]), acc[c := 0])
  {
    assert PointsBack(htable, row, c) && Weighs(row, wgt, acc, htable[c]);
    var j, last := htable[c], |row| - 1;
    var row', wgt', acc' := SwapOut(row, j), SwapOut(wgt, j), acc[c := 0];
    forall i: nat | i < |row'| ensures Weighs(row', wgt', acc', i) {
      assert Weighs(row, wgt, acc, if i == j then last else i);
    }
    forall k: nat | k < |acc'| ensures Included(row', acc', k) {
      assert Included(row, acc, k);
      if k != c && acc[k] > 0 {
        KeptIn(row, j, k);
      }
    }
  }

  lemma KeptIn(row: seq<nat>, j: nat, k: nat)
    requires j < |row| && k in row && k != row[j]
    ensures k in SwapOut(row, j)
  {
    var i :| 0 <= i < |row| && row[i] == k;
    assert SwapOut(row, j)[if i == |row| - 1 then j else i] == k;
  }

  /** The marks of the remaining entries are still there. */
  lemma DropMarked(row: seq<nat>, htable: seq<int>, acc: seq<int>, c: nat)
    requires Indexed(htable, row, acc) && c < |acc| && 0 <= htable[c] < |row| && row[htable[c]] == c
    ensures Marked(htable[c := -1], SwapOut(row, htable[c]), 0)
  {
    var row' := SwapOut(row, htable[c]);
    forall k: nat | k < |htable| && htable[c := -1][k] != -1 ensures k in row'[0..] {
      assert PointsBack(htable, row, k);
      KeptIn(row, htable[c], k);
      assert row'[0..] == row';
    }
  }

  // ----- The graph built so far

  /** The output arrays, filled up to the current coarse vertex. */
  datatype Output = Output(xadj: seq<nat>, adjncy: seq<nat>, adjwgt: seq<int>, vwgt: seq<int>, vsize: seq<int>, adjwgtsum: seq<int>)

  ghost predicate Filled(o: Output, c: nat)
  {
    && |o.xadj| == c + 1 && o.xadj[0] == 0 && o.xadj[c] == |o.adjncy| == |o.adjwgt|
    && |o.vwgt| == |o.vsize| == |o.adjwgtsum| == c
    && (forall d, e :: 0 <= d <= e <= c ==> o.xadj[d] <= o.xadj[e])
  }

  /** Coarse vertex `d` is what it should be. */
  ghost predicate Built(g: Valid, cmap: seq<int>, cn: nat, o: Output, c: nat, d: nat)
    requires |cmap| == Size(g) && Filled(o, c) && d < c
  {
    && o.xadj[d] <= o.xadj[d + 1] <= |o.adjncy|
    && Collected(o.adjncy[o.xadj[d]..o.xadj[d + 1]], o.adjwgt[o.xadj[d]..o.xadj[d + 1]], Target(g, cmap, cn, d))
    && o.vwgt[d] == Fibre(cmap, d, g.vwgt) && o.vsize[d] == Fibre(cmap, d, g.vsize)
    && o.adjwgtsum[d] == Sum(o.adjwgt[o.xadj[d]..o.xadj[d + 1]])
  }

  function Emit(o: Output, row: seq<nat>, wgt: seq<int>, vwgt: int, vsize: int, adjwgtsum: int): Output
  {
    Output(o.xadj + [|o.adjncy| + |row|], o.adjncy + row, o.adjwgt + wgt, o.vwgt + [vwgt], o.vsize + [vsize], o.adjwgtsum + [adjwgtsum])
  }

  lemma EmitFilled(o: Output, c: nat, row: seq<nat>, wgt: seq<int>, vwgt: int, vsize: int, adjwgtsum: int)
    requires Filled(o, c) && |row| == |wgt|
    ensures Filled(Emit(o, row, wgt, vwgt, vsize, adjwgtsum), c + 1)
  {
  }

  lemma EmitKeeps(g: Valid, cmap: seq<int>, cn: nat, o: Output, c: nat, d: nat, row: seq<nat>, wgt: seq<int>, vwgt: int, vsize: int, adjwgtsum: int)
    requires |cmap| == Size(g) && Filled(o, c) && |row| == |wgt| && d < c && Built(g, cmap, cn, o, c, d)
    requires Filled(Emit(o, row, wgt, vwgt, vsize, adjwgtsum), c + 1)
    ensures Built(g, cmap, cn, Emit(o, row, wgt, vwgt, vsize, adjwgtsum), c + 1, d)
  {
    var o' := Emit(o, row, wgt, vwgt, vsize, adjwgtsum);
    assert o'.xadj[d] == o.xadj[d] && o'.xadj[d + 1] == o.xadj[d + 1];
    assert o'.adjncy[o.xadj[d]..o.xadj[d + 1]] == o.adjncy[o.xadj[d]..o.xadj[d + 1]];
    assert o'.adjwgt[o.xadj[d]..o.xadj[d + 1]] == o.adjwgt[o.xadj[d]..o.xadj[d + 1]];
  }

  lemma EmitBuilds(g: Valid, cmap: seq<int>, cn: nat, o: Output, c: nat, row: seq<nat>, wgt: seq<int>)
    requires |cmap| == Size(g) && Filled(o, c) && Collected(row, wgt, Target(g, cmap, cn, c))
    ensures var o' := Emit(o, row, wgt, Fibre(cmap, c, g.vwgt), Fibre(cmap, c, g.vsize), Sum(wgt));
      Filled(o', c + 1) && Built(g, cmap, cn, o', c + 1, c)
  {
    var o' := Emit(o, row, wgt, Fibre(cmap, c, g.vwgt), Fibre(cmap, c, g.vsize), Sum(wgt));
    assert o'.adjncy[o'.xadj[c]..o'.xadj[c + 1]] == row && o'.adjwgt[o'.xadj[c]..o'.xadj[c + 1]] == wgt;
  }

  /** All coarse vertices below `c` are. */
  ghost predicate AllBuilt(g: Valid, cmap: seq<int>, cn: nat, o: Output, c: nat)
    requires |cmap| == Size(g)
  {
    Filled(o, c) && forall d: nat :: d < c ==> Built(g, cmap, cn, o, c, d)
  }

  lemma EmitKeepsAll(g: Valid, cmap: seq<int>, cn: nat, o: Output, c: nat, row: seq<nat>, wgt: seq<int>, vwgt: int, vsize: int, adjwgtsum: int)
    requires |cmap| == Size(g) && AllBuilt(g, cmap, cn, o, c) && |row| == |wgt|
    ensures var o', next := Emit(o, row, wgt, vwgt, vsize, adjwgtsum), c + 1;
      Filled(o', next) && forall d: nat :: d < c ==> Built(g, cmap, cn, o', next, d)
  {
    EmitFilled(o, c, row, wgt, vwgt, vsize, adjwgtsum);
    var o', next := Emit(o, row, wgt, vwgt, vsize, adjwgtsum), c + 1;
    forall d: nat | d < c ensures Built(g, cmap, cn, o', next, d) {
      EmitKeeps(g, cmap, cn, o, c, d, row, wgt, vwgt, vsize, adjwgtsum);
    }
  }

  lemma EmitAll(g: Valid, cmap: seq<int>, cn: nat, o: Output, c: nat, row: seq<nat>, wgt: seq<int>)
    requires |cmap| == Size(g) && AllBuilt(g, cmap, cn, o, c) && Collected(row, wgt, Target(g, cmap, cn, c))
    ensures AllBuilt(g, cmap, cn, Emit(o, row, wgt, Fibre(cmap, c, g.vwgt), Fibre(cmap, c, g.vsize), Sum(wgt)), c + 1)
  {
    var vw, vs := Fibre(cmap, c, g.vwgt), Fibre(cmap, c, g.vsize);
    EmitBuilds(g, cmap, cn, o, c, row, wgt);
    EmitKeepsAll(g, cmap, cn, o, c, row, wgt, vw, vs, Sum(wgt));
  }

  // ----- The finished graph

  function GraphOf(o: Output): Graph
  {
    Graph(o.xadj, o.adjncy, o.adjwgt, o.vwgt, o.vsize)
  }

  /** A slot of `d` lists another coarse vertex, with the weight between the two. */
  lemma BuiltSlot(g: Valid, cmap: seq<int>, cn: nat, o: Output, d: nat, j: int)
    requires Onto(Size(g), cmap, cn) && AllBuilt(g, cmap, cn, o, cn) && d < cn && o.xadj[d] <= j < o.xadj[d + 1]
    ensures o.xadj[d + 1] <= |o.adjncy| == |o.adjwgt|
    ensures o.adjncy[j] < cn && o.adjncy[j] != d && o.adjwgt[j] == Between(g, cmap, d, o.adjncy[j]) > 0
  {
    assert Built(g, cmap, cn, o, cn, d);
    var row := o.adjncy[o.xadj[d]..o.xadj[d + 1]];
    var wgt := o.adjwgt[o.xadj[d]..o.xadj[d + 1]];
    assert row[j - o.xadj[d]] == o.adjncy[j] && wgt[j - o.xadj[d]] == o.adjwgt[j];
    assert Weighs(row, wgt, Target(g, cmap, cn, d), j - o.xadj[d]);
  }

  lemma BuiltDistinct(g: Valid, cmap: seq<int>, cn: nat, o: Output, d: nat, j: int, k: int)
    requires Onto(Size(g), cmap, cn) && AllBuilt(g, cmap, cn, o, cn) && d < cn && o.xadj[d] <= j < k < o.xadj[d + 1]
    ensures o.xadj[d + 1] <= |o.adjncy| && o.adjncy[j] != o.adjncy[k]
  {
    assert Built(g, cmap, cn, o, cn, d);
    var row := o.adjncy[o.xadj[d]..o.xadj[d + 1]];
    assert row[j - o.xadj[d]] == o.adjncy[j] && row[k - o.xadj[d]] == o.adjncy[k];
  }

  /** A positive weight between two coarse vertices is listed. */
  lemma BuiltLists(g: Valid, cmap: seq<int>, cn: nat, o: Output, d: nat, k: nat) returns (j: int)
    requires Onto(Size(g), cmap, cn) && AllBuilt(g, cmap, cn, o, cn) && d < cn && k < cn && d != k && Between(g, cmap, d, k) > 0
    ensures o.xadj[d] <= j < o.xadj[d + 1] <= |o.adjncy| && o.adjncy[j] == k
  {
    assert Built(g, cmap, cn, o, cn, d);
    var row := o.adjncy[o.xadj[d]..o.xadj[d + 1]];
    assert Included(row, Target(g, cmap, cn, d), k);
    var i :| 0 <= i < |row| && row[i] == k;
    j := o.xadj[d] + i;
  }

  /** Every slot belongs to a vertex. */
  lemma {:induction false} SlotOwner(xadj: seq<nat>, c: nat, j: int) returns (d: nat)
    requires |xadj| > c && xadj[0] == 0 && 0 <= j < xadj[c]
    ensures d < c && xadj[d] <= j < xadj[d + 1]
  {
    if c > 0 && j < xadj[c - 1] {
      d := SlotOwner(xadj, c - 1, j);
    } else {
      d := c - 1;
    }
  }

  lemma BuiltCsr(g: Valid, cmap: seq<int>, cn: nat, o: Output)
    requires Onto(Size(g), cmap, cn) && AllBuilt(g, cmap, cn, o, cn)
    ensures Csr(GraphOf(o)) && forall j :: 0 <= j < |o.adjwgt| ==> o.adjwgt[j] > 0
  {
    forall j | 0 <= j < |o.adjncy| ensures o.adjncy[j] < cn && o.adjwgt[j] > 0 {
      var d := SlotOwner(o.xadj, cn, j);
      BuiltSlot(g, cmap, cn, o, d, j);
    }
  }

  lemma BuiltSimple(g: Valid, cmap: seq<int>, cn: nat, o: Output)
    requires Onto(Size(g), cmap, cn) && AllBuilt(g, cmap, cn, o, cn) && Csr(GraphOf(o))
    ensures Simple(GraphOf(o))
  {
    var cg := GraphOf(o);
    forall d: nat, j | d < Size(cg) && Slot(cg, d, j) ensures cg.adjncy[j] != d {
      BuiltSlot(g, cmap, cn, o, d, j);
    }
    forall d: nat, j, k | d < Size(cg) && Slot(cg, d, j) && Slot(cg, d, k) && cg.adjncy[j] == cg.adjncy[k] ensures j == k {
      if j < k { BuiltDistinct(g, cmap, cn, o, d, j, k); }
      if k < j { BuiltDistinct(g, cmap, cn, o, d, k, j); }
    }
  }

  lemma BuiltSymmetric(g: Valid, cmap: seq<int>, cn: nat, o: Output)
    requires Onto(Size(g), cmap, cn) && AllBuilt(g, cmap, cn, o, cn) && Csr(GraphOf(o))
    ensures Symmetric(GraphOf(o))
  {
    var cg := GraphOf(o);
    forall d: nat, j | d < Size(cg) && Slot(cg, d, j)
      ensures exists i :: Lists(cg, cg.adjncy[j], i, d) && cg.adjwgt[i] == cg.adjwgt[j]
    {
      BuiltSlot(g, cmap, cn, o, d, j);
      var k := cg.adjncy[j];
      BetweenSymmetric(g, cmap, d, k);
      var i := BuiltLists(g, cmap, cn, o, k, d);
      BuiltSlot(g, cmap, cn, o, k, i);
      assert Lists(cg, k, i, d);
    }
  }

  lemma {:induction false} FibrePositive(cmap: seq<int>, c: int, vals: seq<int>, r: nat)
    requires |cmap| == |vals| && r <= |vals| && forall i :: 0 <= i < |vals| ==> vals[i] > 0
    ensures FibreSum(cmap, c, vals, r) >= 0 && (FibreSum(cmap, c, vals, r) == 0 ==> forall i :: 0 <= i < r ==> cmap[i] != c)
  {
    if r > 0 {
      FibrePositive(cmap, c, vals, r - 1);
    }
  }

  lemma BuiltValid(g: Valid, cmap: seq<int>, cn: nat, o: Output)
    requires Onto(Size(g), cmap, cn) && AllBuilt(g, cmap, cn, o, cn) && forall c :: 0 <= c < cn ==> c in cmap
    ensures ValidGraph(GraphOf(o))
  {
    BuiltCsr(g, cmap, cn, o);
    BuiltSimple(g, cmap, cn, o);
    BuiltSymmetric(g, cmap, cn, o);
    forall c: nat | c < cn ensures o.vwgt[c] > 0 && o.vsize[c] > 0 {
      assert Built(g, cmap, cn, o, cn, c) && c in cmap;
      FibrePositive(cmap, c, g.vwgt, Size(g));
      FibrePositive(cmap, c, g.vsize, Size(g));
    }
  }

  /** The finished graph is the contraction, again symmetric, simple and positively weighted. */
  lemma BuiltIsContraction(g: Valid, cmap: seq<int>, cn: nat, o: Output)
    requires Onto(Size(g), cmap, cn) && AllBuilt(g, cmap, cn, o, cn) && forall c :: 0 <= c < cn ==> c in cmap
    ensures ValidGraph(GraphOf(o)) && IsContraction(g, cmap, GraphOf(o))
  {
    BuiltValid(g, cmap, cn, o);
    var cg: Valid := GraphOf(o);
    forall c: nat | c < cn ensures cg.vwgt[c] == Fibre(cmap, c, g.vwgt) && cg.vsize[c] == Fibre(cmap, c, g.vsize) {
      assert Built(g, cmap, cn, o, cn, c);
    }
    forall c: nat, k: nat | c < cn && k < cn && c != k ensures W(cg, c, k) == Between(g, cmap, c, k) {
      if Adjacent(cg, c, k) {
        var j :| Lists(cg, c, j, k);
        SlotWeight(cg, c, j);
        BuiltSlot(g, cmap, cn, o, c, j);
      } else {
        BetweenSymmetric(g, cmap, c, k);
        if Between(g, cmap, c, k) > 0 {
          var j := BuiltLists(g, cmap, cn, o, c, k);
          assert Lists(cg, c, j, k);
        }
      }
    }
  }

  // ----- How many slots the coarse graph has

  /** The slots of the coarse vertices below `c`. */
  ghost function EdgeCount(g: Valid, cmap: seq<int>, cn: nat, c: nat): nat
    requires |cmap| == Size(g)
  {
    if c == 0 then 0 else EdgeCount(g, cmap, cn, c - 1) + Positives(Target(g, cmap, cn, c - 1))
  }

  ghost function Degrees(g: Valid): (r: seq<int>)
    ensures |r| == Size(g) && forall x :: 0 <= x < Size(g) ==> r[x] == g.xadj[x + 1] - g.xadj[x]
  {
    seq(Size(g), x requires 0 <= x < Size(g) => g.xadj[x + 1] - g.xadj[x])
  }

  lemma {:induction false} PositivesAcc(g: Valid, cmap: seq<int>, base: seq<int>, x: nat, j: int)
    requires Onto(Size(g), cmap, |base|) && x < Size(g) && g.xadj[x] <= j <= g.xadj[x + 1]
    ensures Positives(Acc(g, cmap, base, x, j)) <= Positives(base) + j - g.xadj[x]
    decreases j
  {
    if j > g.xadj[x] {
      PositivesAcc(g, cmap, base, x, j - 1);
      var acc, k := Acc(g, cmap, base, x, j - 1), cmap[g.adjncy[j - 1]];
      PositivesUpdate(acc, k, acc[k] + g.adjwgt[j - 1]);
    }
  }

  lemma TargetBound(g: Valid, cmap: seq<int>, cn: nat, c: nat, v: nat, u: nat)
    requires Onto(Size(g), cmap, cn) && c < cn && FibreIs(cmap, c, v, u)
    ensures Positives(Target(g, cmap, cn, c)) <= Fibre(cmap, c, Degrees(g))
  {
    BothLists(g, cmap, cn, c, v, u);
    PositivesZeros(cn);
    PositivesAcc(g, cmap, Zeros(cn), v, g.xadj[v + 1]);
    var first := Acc(g, cmap, Zeros(cn), v, g.xadj[v + 1]);
    if v != u {
      PositivesAcc(g, cmap, first, u, g.xadj[u + 1]);
      PositivesUpdate(Acc(g, cmap, first, u, g.xadj[u + 1]), c, 0);
    }
    FibreSumIs(cmap, c, v, u, Degrees(g), Size(g));
  }

  /** The degrees of the vertices below `r` that are sent below `c`. */
  ghost function DegreesBelow(g: Valid, cmap: seq<int>, c: int, r: nat): int
    requires |cmap| == Size(g) && r <= Size(g)
  {
    if r == 0 then 0 else DegreesBelow(g, cmap, c, r - 1) + if cmap[r - 1] < c then Degrees(g)[r - 1] else 0
  }

  lemma {:induction false} DegreesBelowNext(g: Valid, cmap: seq<int>, c: int, r: nat)
    requires |cmap| == Size(g) && r <= Size(g)
    ensures DegreesBelow(g, cmap, c + 1, r) == DegreesBelow(g, cmap, c, r) + FibreSum(cmap, c, Degrees(g), r)
  {
    if r > 0 {
      DegreesBelowNext(g, cmap, c, r - 1);
    }
  }

  lemma {:induction false} DegreesBelowAll(g: Valid, cmap: seq<int>, c: int, r: nat)
    requires |cmap| == Size(g) && r <= Size(g)
    ensures 0 <= DegreesBelow(g, cmap, c, r) <= g.xadj[r]
  {
    if r > 0 {
      DegreesBelowAll(g, cmap, c, r - 1);
    }
  }

  lemma FibreExists(n: nat, mate: seq<int>, cmap: seq<int>, cn: nat, c: nat) returns (v: nat)
    requires Contracts(n, mate, cmap, cn) && c < cn
    ensures v < n && 0 <= mate[v] < n && FibreIs(cmap, c, v, mate[v])
  {
    assert c in cmap;
    v :| v < n && cmap[v] == c;
  }

  lemma {:induction false} EdgeCountBelow(g: Valid, mate: seq<int>, cmap: seq<int>, cn: nat, c: nat)
    requires Contracts(Size(g), mate, cmap, cn) && c <= cn
    ensures EdgeCount(g, cmap, cn, c) <= DegreesBelow(g, cmap, c, Size(g))
  {
    if c == 0 {
      DegreesBelowAll(g, cmap, 0, Size(g));
    } else {
      EdgeCountBelow(g, mate, cmap, cn, c - 1);
      DegreesBelowNext(g, cmap, c - 1, Size(g));
      var v := FibreExists(Size(g), mate, cmap, cn, c - 1);
      TargetBound(g, cmap, cn, c - 1, v, mate[v]);
    }
  }

  /** The coarse graph fits where the fine one did. */
  lemma EdgeCountFits(g: Valid, mate: seq<int>, cmap: seq<int>, cn: nat)
    requires Contracts(Size(g), mate, cmap, cn)
    ensures EdgeCount(g, cmap, cn, cn) <= |g.adjncy|
  {
    EdgeCountBelow(g, mate, cmap, cn, cn);
    DegreesBelowAll(g, cmap, cn, Size(g));
  }

  // ----- Scanning the permutation

  /** Before position `i` exactly the numbers below `c` have come up. */
  ghost predicate Scanned(perm: seq<nat>, cmap: seq<int>, i: nat, c: nat)
  {
    && AllOccur(perm, cmap, i, c)
    && (forall j :: 0 <= j < i && j < |perm| && perm[j] < |cmap| ==> cmap[perm[j]] < c)
  }

  /** The test `cmap[v] == cnvtxs` finds every pair once, at its first member. */
  lemma ScanStep(n: nat, mate: seq<int>, cmap: seq<int>, cn: nat, perm: seq<nat>, i: nat, c: nat)
    requires Contracts(n, mate, cmap, cn) && Permutation(n, perm) && InOrder(perm, cmap, n) && i < n
    requires Scanned(perm, cmap, i, c) && c <= cn
    ensures var c' := if cmap[perm[i]] == c then c + 1 else c; Scanned(perm, cmap, i + 1, c') && c' <= cn
  {
    var v := perm[i];
    assert cmap[v] <= c || Occurs(perm, cmap, i, c);
    AllOccurStep(perm, cmap, cmap, i, if cmap[v] == c then c + 1 else c);
  }

  lemma ScanEnd(n: nat, mate: seq<int>, cmap: seq<int>, cn: nat, perm: seq<nat>, c: nat)
    requires Contracts(n, mate, cmap, cn) && Permutation(n, perm) && Scanned(perm, cmap, n, c) && c <= cn
    ensures c == cn
  {
    forall v: nat | v < n ensures cmap[v] < c {
      assert v in perm;
    }
    assert c < cn ==> c in cmap;
  }

  class Coarsener {
    const g: Valid
    const mate: seq<int>
    const cmap: seq<int>
    const cn: nat
    const perm: seq<nat>
    const adjwgtsum: seq<int>
    const htable: array<int>
    /** The list being collected. */
    var row: seq<nat>
    var wgt: seq<int>
    var out: Output

    constructor (g: Valid, mate: seq<int>, cmap: seq<int>, cn: nat, perm: seq<nat>, adjwgtsum: seq<int>)
      ensures this.g == g && this.mate == mate && this.cmap == cmap && this.cn == cn && this.perm == perm
      ensures this.adjwgtsum == adjwgtsum && fresh(htable) && htable.Length == cn
    {
      this.g, this.mate, this.cmap, this.cn, this.perm, this.adjwgtsum := g, mate, cmap, cn, perm, adjwgtsum;
      htable := new int[cn];
      row, wgt, out := [], [], Output([0], [], [], [], [], []);
    }

    /** A matching numbered in the order of the permutation, and the weight sums of the adjacency lists. */
    ghost predicate Input()
    {
      && Contracts(Size(g), mate, cmap, cn) && Permutation(Size(g), perm) && InOrder(perm, cmap, Size(g))
      && |adjwgtsum| == Size(g) && (forall u :: 0 <= u < Size(g) ==> adjwgtsum[u] == SlotSum(g, u))
      && htable.Length == cn
    }

    ghost predicate Clear()
      reads htable
    {
      forall k :: 0 <= k < htable.Length ==> htable[k] == -1
    }

    /** The list holds what `acc` says. */
    ghost predicate Row(acc: seq<int>)
      reads this`row, this`wgt, htable
    {
      RowOf(row, wgt, htable[..], acc)
    }

    ghost predicate Done(acc: seq<int>)
      reads this`row, this`wgt, htable
    {
      DoneOf(row, wgt, htable[..], acc)
    }

    /** One edge to coarse vertex `k`. */
    method AddSlot(k: nat, w: int, ghost acc: seq<int>)
      requires Row(acc) && k < |acc| == htable.Length && w > 0
      modifies this`row, this`wgt, htable
      ensures Row(acc[k := acc[k] + w]) && Sum(wgt) == old(Sum(wgt)) + w
    {
      var m := htable[k];
      if m == -1 {
        RowNew(row, wgt, htable[..], acc, k, w);
        htable[k] := |row|;
        row, wgt := row + [k], wgt + [w];
        assert htable[..] == old(htable[..])[k := |old(row)|];
      } else {
        RowMore(row, wgt, htable[..], acc, k, w);
        wgt := wgt[m := wgt[m] + w];
      }
    }

    /** Slot `j` of vertex `x`. */
    method AddAt(x: nat, j: nat, ghost base: seq<int>)
      requires Onto(Size(g), cmap, cn) && x < Size(g) && Slot(g, x, j) && |base| == cn == htable.Length && Row(Acc(g, cmap, base, x, j))
      modifies this`row, this`wgt, htable
      ensures Row(Acc(g, cmap, base, x, j + 1)) && Sum(wgt) == old(Sum(wgt)) + g.adjwgt[j]
    {
      AddSlot(cmap[g.adjncy[j]], g.adjwgt[j], Acc(g, cmap, base, x, j));
    }

    /** The list holds `base` and the slots of `x` before `j`, whose weights make the difference to `start`. */
    ghost predicate Halfway(base: seq<int>, x: nat, j: int, start: int)
      requires Onto(Size(g), cmap, |base|) && x < Size(g) && g.xadj[x] <= j <= g.xadj[x + 1]
      reads this`row, this`wgt, htable
    {
      Row(Acc(g, cmap, base, x, j)) && Sum(wgt) == start + PrefixSum(g, x, j)
    }

    method AddNext(x: nat, j: nat, ghost base: seq<int>, ghost start: int)
      requires Onto(Size(g), cmap, cn) && x < Size(g) && Slot(g, x, j) && |base| == cn == htable.Length
      requires Halfway(base, x, j, start)
      modifies this`row, this`wgt, htable
      ensures Halfway(base, x, j + 1, start)
    {
      AddAt(x, j, base);
    }

    /** The adjacency list of `x`. */
    method AddList(x: nat, ghost base: seq<int>)
      requires Onto(Size(g), cmap, cn) && x < Size(g) && |base| == cn == htable.Length && Row(base)
      modifies this`row, this`wgt, htable
      ensures Halfway(base, x, g.xadj[x + 1], old(Sum(wgt)))
    {
      for j := g.xadj[x] to g.xadj[x + 1]
        invariant Halfway(base, x, j, old(Sum(wgt)))
      {
        AddNext(x, j, base, old(Sum(wgt)));
      }
    }

    /** Remove the contracted edge; the table no longer knows where the entry that took its place is. */
    method RemoveSelf(c: nat, ghost acc: seq<int>) returns (removed: int)
      requires Row(acc) && c < |acc| == htable.Length
      modifies this`row, this`wgt, htable
      ensures Done(acc[c := 0]) && Sum(wgt) == old(Sum(wgt)) - removed
    {
      removed := 0;
      var j := htable[c];
      if j != -1 {
        RowDrop(row, wgt, htable[..], acc, c);
        removed := wgt[j];
        row, wgt := SwapOut(row, j), SwapOut(wgt, j);
        htable[c] := -1;
        assert htable[..] == old(htable[..])[c := -1];
      } else {
        RowNoSelf(row, wgt, htable[..], acc, c);
      }
    }

    method ClearTable(ghost acc: seq<int>)
      requires Done(acc)
      modifies htable
      ensures Clear()
    {
      forall i: nat | i < |row| ensures row[i] < htable.Length {
        assert Weighs(row, wgt, acc, i);
      }
      for j := 0 to |row|
        invariant Marked(htable[..], row, j)
      {
        assert row[j..] == [row[j]] + row[j + 1..];
        htable[row[j]] := -1;
      }
      assert row[|row|..] == [];
    }

    /** The lists of a pair, and the contracted edge taken out again. */
    method CollectPair(c: nat, u: nat, ghost first: seq<int>, total: int) returns (total': int)
      requires Input() && c < cn == |first| && u < Size(g) && Row(first) && total == Sum(wgt)
      modifies this`row, this`wgt, htable
      ensures Done(Acc(g, cmap, first, u, g.xadj[u + 1])[c := 0]) && total' == Sum(wgt)
    {
      PrefixSumIs(g, u, g.xadj[u + 1]);
      AddList(u, first);
      var removed := RemoveSelf(c, Acc(g, cmap, first, u, g.xadj[u + 1]));
      total' := total + adjwgtsum[u] - removed;
    }

    /** The list of a single vertex. */
    method CollectFirst(v: nat) returns (total: int)
      requires Input() && Clear() && v < Size(g)
      modifies this`row, this`wgt, htable
      ensures Row(Acc(g, cmap, Zeros(cn), v, g.xadj[v + 1])) && total == Sum(wgt)
    {
      PrefixSumIs(g, v, g.xadj[v + 1]);
      PositivesZeros(cn);
      row, wgt := [], [];
      total := adjwgtsum[v];
      AddList(v, Zeros(cn));
    }

    /** The list of the coarse vertex `c` with members `v` and `u`; returns the sum of its weights, computed from
        the sums of the two lists. */
    method CollectRow(c: nat, v: nat, u: nat) returns (total: int)
      requires Input() && Clear() && c < cn && FibreIs(cmap, c, v, u)
      modifies this`row, this`wgt, htable
      ensures Done(Target(g, cmap, cn, c)) && total == Sum(wgt)
    {
      BothLists(g, cmap, cn, c, v, u);
      total := CollectFirst(v);
      ghost var first := Acc(g, cmap, Zeros(cn), v, g.xadj[v + 1]);
      if v != u {
        total := CollectPair(c, u, first, total);
      } else {
        RowDone(row, wgt, htable[..], first);
      }
    }

    /** The coarse vertex whose first member in the permutation is `v`. */
    method BuildVertex(v: nat, c: nat)
      requires Input() && Clear() && AllBuilt(g, cmap, cn, out, c) && v < Size(g) && cmap[v] == c
      modifies this`row, this`wgt, this`out, htable
      ensures Clear() && AllBuilt(g, cmap, cn, out, c + 1)
      ensures |out.adjncy| == old(|out.adjncy|) + Positives(Target(g, cmap, cn, c))
    {
      var u := mate[v];
      var total := CollectRow(c, v, u);
      var vw := VertexSum(g.vwgt, c, v, u);
      var vs := VertexSum(g.vsize, c, v, u);
      EmitAll(g, cmap, cn, out, c, row, wgt);
      out := Emit(out, row, wgt, vw, vs, total);
      ClearTable(Target(g, cmap, cn, c));
    }

    /** The weight or size of a coarse vertex. */
    method VertexSum(vals: seq<int>, ghost c: nat, v: nat, u: nat) returns (r: int)
      requires |vals| == |cmap| && FibreIs(cmap, c, v, u)
      ensures r == Fibre(cmap, c, vals)
    {
      FibreSumIs(cmap, c, v, u, vals, |vals|);
      r := vals[v];
      if v != u { r := r + vals[u]; }
    }

    /**
     CreateCoarseGraphNoMask. The result is the contraction of the graph along the matching, a valid graph again;
     its adjwgtsum is the sum of each adjacency list, and it has exactly the predicted number of slots.
     */
    method CreateCoarseGraphNoMask() returns (cgraph: Graph, cadjwgtsum: seq<int>)
      requires Input()
      modifies this`row, this`wgt, this`out, htable
      ensures ValidGraph(cgraph) && Size(cgraph) == cn && IsContraction(g, cmap, cgraph)
      ensures |cadjwgtsum| == cn && forall c: nat :: c < cn ==> cadjwgtsum[c] == SlotSum(cgraph, c)
      ensures |cgraph.adjncy| == EdgeCount(g, cmap, cn, cn) <= |g.adjncy|
    {
      for k := 0 to cn
        invariant forall l :: 0 <= l < k ==> htable[l] == -1
      {
        htable[k] := -1;
      }
      BuildAll();
      cgraph, cadjwgtsum := Result();
    }

    /** All coarse vertices, in the order of the permutation. */
    method BuildAll()
      requires Input() && Clear()
      modifies this`row, this`wgt, this`out, htable
      ensures AllBuilt(g, cmap, cn, out, cn) && |out.adjncy| == EdgeCount(g, cmap, cn, cn)
    {
      out := Output([0], [], [], [], [], []);
      var cnvtxs: nat := 0;
      for i := 0 to Size(g)
        invariant cnvtxs <= cn && Scanned(perm, cmap, i, cnvtxs) && Clear() && AllBuilt(g, cmap, cn, out, cnvtxs)
        invariant |out.adjncy| == EdgeCount(g, cmap, cn, cnvtxs)
      {
        cnvtxs := BuildNext(i, cnvtxs);
      }
      ScanEnd(Size(g), mate, cmap, cn, perm, cnvtxs);
    }

    /** One place of the permutation. */
    method BuildNext(i: nat, c: nat) returns (c': nat)
      requires Input() && Clear() && i < Size(g) && c <= cn && Scanned(perm, cmap, i, c)
      requires AllBuilt(g, cmap, cn, out, c) && |out.adjncy| == EdgeCount(g, cmap, cn, c)
      modifies this`row, this`wgt, this`out, htable
      ensures Clear() && c' <= cn && Scanned(perm, cmap, i + 1, c')
      ensures AllBuilt(g, cmap, cn, out, c') && |out.adjncy| == EdgeCount(g, cmap, cn, c')
    {
      ScanStep(Size(g), mate, cmap, cn, perm, i, c);
      var v := perm[i];
      c' := c;
      if cmap[v] == c {
        BuildVertex(v, c);
        c' := c + 1;
      }
    }

    /** The finished graph. */
    method Result() returns (cgraph: Graph, cadjwgtsum: seq<int>)
      requires Input() && AllBuilt(g, cmap, cn, out, cn) && |out.adjncy| == EdgeCount(g, cmap, cn, cn)
      ensures ValidGraph(cgraph) && Size(cgraph) == cn && IsContraction(g, cmap, cgraph)
      ensures |cadjwgtsum| == cn && forall c: nat :: c < cn ==> cadjwgtsum[c] == SlotSum(cgraph, c)
      ensures |cgraph.adjncy| == EdgeCount(g, cmap, cn, cn) <= |g.adjncy|
    {
      BuiltIsContraction(g, cmap, cn, out);
      EdgeCountFits(g, mate, cmap, cn);
      cgraph, cadjwgtsum := GraphOf(out), out.adjwgtsum;
      forall c: nat | c < cn ensures cadjwgtsum[c] == SlotSum(cgraph, c) {
        assert Built(g, cmap, cn, out, cn, c);
      }
    }
  }

  // ----- The size estimate

  /** `htable[k] == c` for `c` itself and for every coarse vertex that `c` has weight to so far. */
  ghost predicate Stamped(htable: seq<int>, c: nat, acc: seq<int>)
  {
    && |htable| == |acc|
    && (forall k: nat :: k < |acc| ==> (htable[k] == c <==> k == c || acc[k] > 0) && htable[k] <= c && acc[k] >= 0)
  }

  lemma StampStep(htable: seq<int>, c: nat, acc: seq<int>, k: nat, w: int)
    requires Stamped(htable, c, acc) && k < |acc| && c < |acc| && w > 0
    ensures Stamped(htable[k := c], c, acc[k := acc[k] + w])
    ensures Positives(acc[k := acc[k] + w][c := 0]) == Positives(acc[c := 0]) + if htable[k] != c then 1 else 0
  {
    if k != c {
      assert acc[k := acc[k] + w][c := 0] == acc[c := 0][k := acc[k] + w];
      PositivesUpdate(acc[c := 0], k, acc[k] + w);
    } else {
      assert acc[k := acc[k] + w][c := 0] == acc[c := 0];
    }
  }

  /** Stamp the coarse vertex that slot `j` of `x` leads to. */
  method StampAt(g: Valid, cmap: seq<int>, htable: array<int>, c: nat, x: nat, j: nat, ghost base: seq<int>) returns (fresh': nat)
    requires Onto(Size(g), cmap, htable.Length) && x < Size(g) && Slot(g, x, j) && c < htable.Length == |base|
    requires Stamped(htable[..], c, Acc(g, cmap, base, x, j))
    modifies htable
    ensures Stamped(htable[..], c, Acc(g, cmap, base, x, j + 1))
    ensures Positives(Acc(g, cmap, base, x, j + 1)[c := 0]) == Positives(Acc(g, cmap, base, x, j)[c := 0]) + fresh'
  {
    var k := cmap[g.adjncy[j]];
    StampStep(htable[..], c, Acc(g, cmap, base, x, j), k, g.adjwgt[j]);
    fresh' := if htable[k] != c then 1 else 0;
    htable[k] := c;
    assert htable[..] == old(htable[..])[k := c];
  }

  /** Stamp the neighbours of `x`, counting the new ones. */
  method StampList(g: Valid, cmap: seq<int>, htable: array<int>, c: nat, x: nat, ghost base: seq<int>) returns (count: nat)
    requires Onto(Size(g), cmap, htable.Length) && x < Size(g) && c < htable.Length == |base| && Stamped(htable[..], c, base)
    modifies htable
    ensures Stamped(htable[..], c, Acc(g, cmap, base, x, g.xadj[x + 1]))
    ensures Positives(Acc(g, cmap, base, x, g.xadj[x + 1])[c := 0]) == Positives(base[c := 0]) + count
  {
    count := 0;
    for j := g.xadj[x] to g.xadj[x + 1]
      invariant Stamped(htable[..], c, Acc(g, cmap, base, x, j))
      invariant Positives(Acc(g, cmap, base, x, j)[c := 0]) == Positives(base[c := 0]) + count
    {
      var one := StampAt(g, cmap, htable, c, x, j, base);
      count := count + one;
    }
  }

  /** One coarse vertex of the estimate. */
  method StampVertex(g: Valid, mate: seq<int>, cmap: seq<int>, htable: array<int>, c: nat, v: nat) returns (count: nat)
    requires Contracts(Size(g), mate, cmap, htable.Length) && v < Size(g) && cmap[v] == c
    requires forall k :: 0 <= k < htable.Length ==> htable[k] < c
    modifies htable
    ensures count == Positives(Target(g, cmap, htable.Length, c))
    ensures forall k :: 0 <= k < htable.Length ==> htable[k] <= c
  {
    var u := mate[v];
    ghost var cn := htable.Length;
    BothLists(g, cmap, cn, c, v, u);
    PositivesZeros(cn);
    assert Zeros(cn)[c := 0] == Zeros(cn);
    htable[c] := c;
    count := StampList(g, cmap, htable, c, v, Zeros(cn));
    if v != u {
      var more := StampList(g, cmap, htable, c, u, Acc(g, cmap, Zeros(cn), v, g.xadj[v + 1]));
      count := count + more;
    } else {
      assert Target(g, cmap, cn, c)[c := 0] == Target(g, cmap, cn, c);
    }
  }

  /** ComputeCoarseGraphSize predicts the number of slots that the coarsener fills. */
  method ComputeCoarseGraphSize(g: Valid, mate: seq<int>, cmap: seq<int>, cn: nat, perm: seq<nat>) returns (cnedges: nat)
    requires Contracts(Size(g), mate, cmap, cn) && Permutation(Size(g), perm) && InOrder(perm, cmap, Size(g))
    ensures cnedges == EdgeCount(g, cmap, cn, cn)
  {
    var htable := new int[cn](_ => -1);
    var cnvtxs := 0;
    cnedges := 0;
    for i := 0 to Size(g)
      invariant cnvtxs <= cn && Scanned(perm, cmap, i, cnvtxs) && cnedges == EdgeCount(g, cmap, cn, cnvtxs)
      invariant forall k :: 0 <= k < cn ==> htable[k] < cnvtxs
    {
      ScanStep(Size(g), mate, cmap, cn, perm, i, cnvtxs);
      var v := perm[i];
      if cmap[v] == cnvtxs {
        var count := StampVertex(g, mate, cmap, htable, cnvtxs, v);
        cnedges := cnedges + count;
        cnvtxs := cnvtxs + 1;
      }
    }
    ScanEnd(Size(g), mate, cmap, cn, perm, cnvtxs);
  }

  // ----- One level of coarsening

  /** Every partition of the coarse graph has the cut and the part weights of the partition it induces. */
  ghost predicate SameMeaning(g: Valid, cmap: seq<int>, cg: Valid)
    requires Onto(Size(g), cmap, Size(cg))
  {
    forall cw: seq<int> :: |cw| == Size(cg) ==> Agrees(g, cmap, cg, cw)
  }

  ghost predicate Agrees(g: Valid, cmap: seq<int>, cg: Valid, cw: seq<int>)
    requires Onto(Size(g), cmap, Size(cg)) && |cw| == Size(cg)
  {
    Cut2(cg, cw) == Cut2(g, Pull(cw, cmap)) && forall p :: WeightOf(cg, cw, p) == WeightOf(g, Pull(cw, cmap), p)
  }

  lemma ContractionAgrees(g: Valid, cmap: seq<int>, cg: Valid)
    requires IsContraction(g, cmap, cg)
    ensures SameMeaning(g, cmap, cg)
  {
    forall cw: seq<int> | |cw| == Size(cg) ensures Agrees(g, cmap, cg, cw) {
      CutPreserved(g, cmap, cg, cw);
      forall p ensures WeightOf(cg, cw, p) == WeightOf(g, Pull(cw, cmap), p) {
        WeightPreserved(g, cmap, cg, cw, p);
      }
    }
  }

  /** The degrees, cut at `avgdegree`. */
  function CappedDegrees(g: Valid, avgdegree: nat): (r: seq<nat>)
    ensures |r| == Size(g) && forall u :: 0 <= u < |r| ==> r[u] <= avgdegree && r[u] <= g.xadj[u + 1] - g.xadj[u]
    ensures forall u :: 0 <= u < |r| ==> r[u] == avgdegree || r[u] == g.xadj[u + 1] - g.xadj[u]
  {
    seq(Size(g), u requires 0 <= u < Size(g) =>
      var degree := g.xadj[u + 1] - g.xadj[u]; if degree > avgdegree then avgdegree else degree)
  }

  /** The order of Match_SHEM: the random one, sorted by capped degree. Vertices without neighbours come first,
      unless the cap is 0. */
  method SortByDegree(g: Valid, tperm: seq<nat>, avgdegree: nat) returns (perm: seq<nat>)
    requires Permutation(Size(g), tperm)
    ensures Permutation(Size(g), perm) && BucketSort.StablySorted(CappedDegrees(g, avgdegree), tperm, perm)
    ensures avgdegree > 0 ==> forall a, b :: 0 <= a < b < |perm| && Isolated(g, perm[b]) ==> Isolated(g, perm[a])
  {
    var degrees := CappedDegrees(g, avgdegree);
    var sorted := new nat[|degrees|];
    BucketSort.BucketSortKeysInc(avgdegree, degrees, tperm, sorted);
    perm := sorted[..];
    forall a, b | 0 <= a < b < |perm| && Isolated(g, perm[b]) && avgdegree > 0 ensures Isolated(g, perm[a]) {
      assert BucketSort.Precedes(degrees, tperm, perm[a], perm[b]);
    }
  }

  /** Match_SHEM (`sorted`), Match_HEM (`heavy`) or Match_RM, followed by the coarsener on the same permutation. */
  method CoarsenOnce(g: Valid, adjwgtsum: seq<int>, tperm: seq<nat>, avgdegree: nat, maxvwgt: int, heavy: bool, sorted: bool)
    returns (cgraph: Graph, cmap: seq<int>, cadjwgtsum: seq<int>)
    requires Permutation(Size(g), tperm) && |adjwgtsum| == Size(g) && forall u :: 0 <= u < Size(g) ==> adjwgtsum[u] == SlotSum(g, u)
    ensures ValidGraph(cgraph) && Onto(Size(g), cmap, Size(cgraph)) && SameMeaning(g, cmap, cgraph)
    ensures |cadjwgtsum| == Size(cgraph) && forall c: nat :: c < Size(cgraph) ==> cadjwgtsum[c] == SlotSum(cgraph, c)
    ensures |cgraph.adjncy| <= |g.adjncy|
  {
    var cmapArray := new int[|g.vwgt|];
    var matcher := new Matcher(g, cmapArray);
    var perm := tperm;
    if sorted {
      perm := SortByDegree(g, tperm, avgdegree);
      ghost var start := matcher.MatchSHEM(perm, Limit.AtMost(maxvwgt));
    } else {
      matcher.Match(perm, Limit.AtMost(maxvwgt), heavy);
    }
    cmap := cmapArray[..];
    var coarsener := new Coarsener(g, matcher.mate[..], cmap, matcher.cnvtxs, perm, adjwgtsum);
    cgraph, cadjwgtsum := coarsener.CreateCoarseGraphNoMask();
    ContractionAgrees(g, cmap, cgraph);
  }
}
