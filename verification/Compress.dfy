/**
 CompressGraph: merges vertices with identical closed neighbourhoods. Candidates are compared through a sum
 over their neighbours, their degree and a one-way inclusion, and that is enough to make them identical.
 */
module Compress {
  import opened Graphs
  import opened Matching
  import opened KWayTables
  import opened Finite

  // ----- Identical vertices

  ghost predicate Closed(g: Graph, u: nat, y: nat)
    requires Csr(g) && u < Size(g)
  {
    y == u || Adjacent(g, u, y)
  }

  /** The two vertices have the same closed neighbourhood. */
  ghost predicate Twins(g: Graph, u: nat, v: nat)
    requires Csr(g) && u < Size(g) && v < Size(g)
  {
    forall y: nat :: y < Size(g) ==> (Closed(g, u, y) <==> Closed(g, v, y))
  }

  /** The sum of `f` over the closed neighbourhood of `u`, below `k`. */
  ghost function ClosedSum(g: Valid, u: nat, f: nat -> int, k: nat): int
    requires u < Size(g) && k <= Size(g)
  {
    if k == 0 then 0 else ClosedSum(g, u, f, k - 1) + if Closed(g, u, k - 1) then f(k - 1) else 0
  }

  /** A loop over the slots sums over the closed neighbourhood without the vertex itself. */
  lemma {:induction false} SlotsSum(g: Valid, u: nat, f: nat -> int, k: nat)
    requires u < Size(g) && k <= Size(g)
    ensures SeenSum(g, u, g.xadj[u + 1], f, k) == ClosedSum(g, u, f, k) - if u < k then f(u) else 0
  {
    if k > 0 {
      SlotsSum(g, u, f, k - 1);
      SeenEnds(g, u, k - 1);
      WSymmetric(g, u, u);
    }
  }

  /** The slots of `u` before `j`, summed by `f` of the vertex they list. */
  ghost function SlotTotal(g: Valid, u: nat, f: nat -> int, j: int): int
    requires u < Size(g) && g.xadj[u] <= j <= g.xadj[u + 1]
    decreases j
  {
    if j == g.xadj[u] then 0 else SlotTotal(g, u, f, j - 1) + f(g.adjncy[j - 1])
  }

  lemma {:induction false} SlotTotalSeen(g: Valid, u: nat, f: nat -> int, j: int)
    requires u < Size(g) && g.xadj[u] <= j <= g.xadj[u + 1]
    ensures SlotTotal(g, u, f, j) == SeenSum(g, u, j, f, Size(g))
    decreases j
  {
    if j == g.xadj[u] {
      SeenSumStart(g, u, f, Size(g));
    } else {
      SlotTotalSeen(g, u, f, j - 1);
      SeenSumStep(g, u, j - 1, f, Size(g));
    }
  }

  ghost function Id(): nat -> int { (y: nat) => y }

  ghost function One(): nat -> int { (y: nat) => 1 }

  /** The key of a vertex: the sum of its closed neighbourhood. */
  ghost function Key(g: Valid, u: nat): int
    requires u < Size(g)
  {
    ClosedSum(g, u, Id(), Size(g))
  }

  lemma KeyIs(g: Valid, u: nat)
    requires u < Size(g)
    ensures Key(g, u) == SlotTotal(g, u, Id(), g.xadj[u + 1]) + u
    ensures ClosedSum(g, u, One(), Size(g)) == Degree(g, u) + 1
  {
    SlotTotalSeen(g, u, Id(), g.xadj[u + 1]);
    SlotsSum(g, u, Id(), Size(g));
    SlotTotalSeen(g, u, One(), g.xadj[u + 1]);
    SlotsSum(g, u, One(), Size(g));
    SlotTotalOne(g, u, g.xadj[u + 1]);
  }

  lemma {:induction false} SlotTotalOne(g: Valid, u: nat, j: int)
    requires u < Size(g) && g.xadj[u] <= j <= g.xadj[u + 1]
    ensures SlotTotal(g, u, One(), j) == j - g.xadj[u]
    decreases j
  {
    if j > g.xadj[u] {
      SlotTotalOne(g, u, j - 1);
    }
  }

  /** Neighbours of `v`, other than `v`, all lie in the closed neighbourhood of `u`. */
  ghost predicate Included(g: Graph, v: nat, u: nat)
    requires Csr(g) && u < Size(g) && v < Size(g)
  {
    forall y: nat :: y < Size(g) && Adjacent(g, v, y) ==> Closed(g, u, y)
  }

  /** A vertex of the closed neighbourhood of `u` that is no neighbour of `v`. */
  ghost predicate Extra(g: Graph, v: nat, u: nat, y: nat)
    requires Csr(g) && u < Size(g) && v < Size(g)
  {
    Closed(g, u, y) && !Adjacent(g, v, y)
  }

  ghost function ExtraSum(g: Valid, v: nat, u: nat, f: nat -> int, k: nat): int
    requires u < Size(g) && v < Size(g) && k <= Size(g)
  {
    if k == 0 then 0 else ExtraSum(g, v, u, f, k - 1) + if Extra(g, v, u, k - 1) then f(k - 1) else 0
  }

  /** What the closed neighbourhood of `u` has more than the neighbours of `v`. */
  lemma {:induction false} ExtraSumIs(g: Valid, v: nat, u: nat, f: nat -> int, k: nat)
    requires u < Size(g) && v < Size(g) && k <= Size(g) && Included(g, v, u)
    ensures ExtraSum(g, v, u, f, k) == ClosedSum(g, u, f, k) - ClosedSum(g, v, f, k) + if v < k then f(v) else 0
  {
    WSymmetric(g, v, v);
    if k > 0 {
      ExtraSumIs(g, v, u, f, k - 1);
    }
  }

  lemma {:induction false} ExtraNone(g: Valid, v: nat, u: nat, k: nat)
    requires u < Size(g) && v < Size(g) && k <= Size(g)
    ensures ExtraSum(g, v, u, One(), k) >= 0
    ensures ExtraSum(g, v, u, One(), k) == 0 ==> ExtraSum(g, v, u, Id(), k) == 0 && forall y: nat :: y < k ==> !Extra(g, v, u, y)
  {
    if k > 0 {
      ExtraNone(g, v, u, k - 1);
    }
  }

  /** If there is exactly one more, the sum says which. */
  lemma {:induction false} ExtraSingle(g: Valid, v: nat, u: nat, k: nat)
    requires u < Size(g) && v < Size(g) && k <= Size(g) && ExtraSum(g, v, u, One(), k) == 1
    ensures 0 <= ExtraSum(g, v, u, Id(), k) < k
    ensures forall y: nat :: y < k ==> (Extra(g, v, u, y) <==> y == ExtraSum(g, v, u, Id(), k))
  {
    if Extra(g, v, u, k - 1) {
      ExtraNone(g, v, u, k - 1);
    } else {
      ExtraSingle(g, v, u, k - 1);
    }
  }

  /** Equal keys, equal degrees and inclusion one way make two vertices identical. */
  lemma SameKeyIsTwin(g: Valid, u: nat, v: nat)
    requires u < Size(g) && v < Size(g)
    requires Key(g, u) == Key(g, v) && Degree(g, u) == Degree(g, v) && Included(g, v, u)
    ensures Twins(g, v, u)
  {
    KeyIs(g, u);
    KeyIs(g, v);
    ExtraSumIs(g, v, u, One(), Size(g));
    ExtraSumIs(g, v, u, Id(), Size(g));
    ExtraSingle(g, v, u, Size(g));
    WSymmetric(g, v, v);
    assert Extra(g, v, u, v);
    forall y: nat | y < Size(g) ensures Closed(g, v, y) <==> Closed(g, u, y) {
      assert Extra(g, v, u, y) <==> y == v;
    }
  }

  /** Whether a neighbour of one group lies in another does not depend on the members looked at. */
  lemma TwinsPair(g: Valid, u: nat, u': nat, y: nat, y': nat)
    requires u < Size(g) && u' < Size(g) && y < Size(g) && y' < Size(g) && Twins(g, u, u') && Twins(g, y, y')
    requires Adjacent(g, u, y) && u' != y && u' != y'
    ensures Adjacent(g, u', y')
  {
    assert Closed(g, u', y);
    WSymmetric(g, u', y);
    assert Closed(g, y', u');
    WSymmetric(g, u', y');
  }

  // ----- Groups

  /** Place `j` of `cind` lies in the group that `map` gives to its vertex. */
  ghost predicate PlacedAt(vmap: seq<int>, cind: seq<nat>, cptr: seq<nat>, j: nat)
    requires j < |cind|
  {
    && cind[j] < |vmap| && 0 <= vmap[cind[j]] < |cptr|
    && cptr[vmap[cind[j]]] <= j && (vmap[cind[j]] + 1 < |cptr| ==> j < cptr[vmap[cind[j]] + 1])
  }

  /** Place `j` holds a twin of the first vertex of its group. */
  ghost predicate TwinAt(g: Valid, vmap: seq<int>, cind: seq<nat>, cptr: seq<nat>, j: nat)
    requires |vmap| == Size(g) && j < |cind| && PlacedAt(vmap, cind, cptr, j)
  {
    var first := cptr[vmap[cind[j]]];
    cind[first] < Size(g) && Twins(g, cind[j], cind[first])
  }

  ghost predicate Starts(cptr: seq<nat>, l: nat)
  {
    |cptr| > 0 && cptr[0] == 0 && (forall c, d :: 0 <= c < d < |cptr| ==> cptr[c] < cptr[d]) && cptr[|cptr| - 1] <= l
  }

  /** `cind` lists the vertices that `map` has put into groups, group by group from the places in `cptr`; every
      group but the last is finished, and all members of a group are twins. */
  ghost predicate Grouped(g: Valid, vmap: seq<int>, cind: seq<nat>, cptr: seq<nat>)
  {
    && |vmap| == Size(g) && Starts(cptr, |cind|) && NoRepeats(cind)
    && (forall j: nat :: j < |cind| ==> PlacedAt(vmap, cind, cptr, j) && TwinAt(g, vmap, cind, cptr, j))
    && (forall v: nat :: v < Size(g) ==> vmap[v] == -1 || v in cind)
  }

  /** Put `v` into the last group. */
  lemma PushKeeps(g: Valid, vmap: seq<int>, cind: seq<nat>, cptr: seq<nat>, v: nat)
    requires Grouped(g, vmap, cind, cptr) && v < Size(g) && vmap[v] == -1
    requires cptr[|cptr| - 1] < |cind| ==> cind[cptr[|cptr| - 1]] < Size(g) && Twins(g, v, cind[cptr[|cptr| - 1]])
    ensures Grouped(g, vmap[v := |cptr| - 1], cind + [v], cptr)
  {
    var vmap', cind' := vmap[v := |cptr| - 1], cind + [v];
    forall j: nat | j < |cind| ensures cind[j] != v {
      assert PlacedAt(vmap, cind, cptr, j);
    }
    forall j: nat | j < |cind'| ensures PlacedAt(vmap', cind', cptr, j) && TwinAt(g, vmap', cind', cptr, j) {
      if j < |cind| {
        assert PlacedAt(vmap, cind, cptr, j) && TwinAt(g, vmap, cind, cptr, j);
      }
    }
  }

  /** Close the last group. */
  lemma CloseKeeps(g: Valid, vmap: seq<int>, cind: seq<nat>, cptr: seq<nat>)
    requires Grouped(g, vmap, cind, cptr) && cptr[|cptr| - 1] < |cind|
    ensures Grouped(g, vmap, cind, cptr + [|cind|])
  {
    var cptr' := cptr + [|cind|];
    forall j: nat | j < |cind| ensures PlacedAt(vmap, cind, cptr', j) && TwinAt(g, vmap, cind, cptr', j) {
      assert PlacedAt(vmap, cind, cptr, j) && TwinAt(g, vmap, cind, cptr, j);
    }
  }

  // ----- Who gets together

  /** From place `a` of the order up to place `b`, all vertices have the key and the degree of the first. */
  ghost predicate Alike(g: Valid, order: seq<nat>, a: nat, b: nat)
    requires Permutation(Size(g), order) && a <= b < Size(g)
  {
    forall k :: a <= k <= b ==> Key(g, order[k]) == Key(g, order[a]) && Degree(g, order[k]) == Degree(g, order[a])
  }

  /** The vertices at the two places are identical, and the scan from the first comes as far as the second. */
  ghost predicate Together(g: Valid, order: seq<nat>, a: nat, b: nat)
    requires Permutation(Size(g), order) && a <= b < Size(g)
  {
    Alike(g, order, a, b) && Twins(g, order[a], order[b])
  }

  /** A vertex with a group shares it with exactly those it gets together with. */
  ghost predicate GroupedExactly(g: Valid, order: seq<nat>, vmap: seq<int>)
    requires Permutation(Size(g), order) && |vmap| == Size(g)
  {
    forall a: nat, b: nat :: a <= b < Size(g) && (vmap[order[a]] != -1 || vmap[order[b]] != -1) ==>
      (vmap[order[a]] == vmap[order[b]] <==> Together(g, order, a, b))
  }

  /** Group `c` has been given to all vertices without a group that get together with the one at place `i`, as far
      as place `upto`. */
  ghost predicate Joined(g: Valid, order: seq<nat>, i: nat, upto: int, c: int, before: seq<int>, after: seq<int>)
    requires Permutation(Size(g), order) && |before| == |after| == Size(g) && i < Size(g)
  {
    forall p: nat :: p < Size(g) ==>
      after[order[p]] == if i <= p < upto && before[order[p]] == -1 && Together(g, order, i, p) then c else before[order[p]]
  }

  lemma AlikeStep(g: Valid, order: seq<nat>, a: nat, b: nat)
    requires Permutation(Size(g), order) && a < b < Size(g) && Alike(g, order, a, b - 1)
    requires Key(g, order[b]) == Key(g, order[a]) && Degree(g, order[b]) == Degree(g, order[a])
    ensures Alike(g, order, a, b)
  {
  }

  /** Looked at from a place before both, being together is being together with that place. */
  lemma TogetherFrom(g: Valid, order: seq<nat>, i: nat, a: nat, b: nat)
    requires Permutation(Size(g), order) && i <= a <= b < Size(g)
    ensures Together(g, order, i, b) && Twins(g, order[a], order[b]) ==> Together(g, order, i, a) && Together(g, order, a, b)
    ensures Together(g, order, a, b) && Together(g, order, i, a) ==> Together(g, order, i, b)
    ensures Together(g, order, i, a) && Together(g, order, i, b) ==> Together(g, order, a, b)
  {
    if Alike(g, order, i, b) {
      assert Alike(g, order, a, b);
    }
  }

  lemma JoinedIsExact(g: Valid, order: seq<nat>, i: nat, c: int, before: seq<int>, after: seq<int>)
    requires Permutation(Size(g), order) && |before| == |after| == Size(g) && i < Size(g) && before[order[i]] == -1
    requires Joined(g, order, i, Size(g), c, before, after) && GroupedExactly(g, order, before)
    requires forall p :: 0 <= p < i ==> before[order[p]] != -1
    requires c != -1 && forall v :: 0 <= v < Size(g) ==> before[v] != c
    ensures GroupedExactly(g, order, after)
  {
    forall a: nat, b: nat | a <= b < Size(g) && (after[order[a]] != -1 || after[order[b]] != -1)
      ensures after[order[a]] == after[order[b]] <==> Together(g, order, a, b)
    {
      if i <= a {
        TogetherFrom(g, order, i, a, b);
      }
    }
  }

  /** One more place of the scan. */
  lemma JoinedStep(g: Valid, order: seq<nat>, i: nat, j: nat, next: int, c: int, before: seq<int>, mid: seq<int>, after: seq<int>)
    requires Permutation(Size(g), order) && |before| == |mid| == |after| == Size(g) && i < j < Size(g) && Alike(g, order, i, j)
    requires Joined(g, order, i, j, c, before, mid) && next == j + 1
    requires after == if mid[order[j]] == -1 && Twins(g, order[i], order[j]) then mid[order[j] := c] else mid
    ensures Joined(g, order, i, next, c, before, after)
  {
    assert mid[order[j]] == before[order[j]];
  }

  /** When the scan breaks off, nobody further on gets together with the vertex at place `i`. */
  lemma JoinedEnds(g: Valid, order: seq<nat>, i: nat, j: nat, c: int, before: seq<int>, after: seq<int>)
    requires Permutation(Size(g), order) && |before| == |after| == Size(g) && i < j <= Size(g)
    requires Joined(g, order, i, j, c, before, after)
    requires j < Size(g) ==> Key(g, order[j]) != Key(g, order[i]) || Degree(g, order[j]) != Degree(g, order[i])
    ensures Joined(g, order, i, Size(g), c, before, after)
  {
    forall p: nat | j <= p < Size(g) ensures !Alike(g, order, i, p) {
    }
  }

  lemma {:induction false} SameClosedSum(g: Valid, u: nat, v: nat, f: nat -> int, k: nat)
    requires u < Size(g) && v < Size(g) && k <= Size(g) && Twins(g, u, v)
    ensures ClosedSum(g, u, f, k) == ClosedSum(g, v, f, k)
  {
    if k > 0 {
      SameClosedSum(g, u, v, f, k - 1);
    }
  }

  /** Identical vertices have one key and one degree. */
  lemma TwinsAlike(g: Valid, u: nat, v: nat)
    requires u < Size(g) && v < Size(g) && Twins(g, u, v)
    ensures Key(g, u) == Key(g, v) && Degree(g, u) == Degree(g, v)
  {
    SameClosedSum(g, u, v, Id(), Size(g));
    SameClosedSum(g, u, v, One(), Size(g));
    KeyIs(g, u);
    KeyIs(g, v);
  }

  ghost predicate SortedByKey(g: Valid, order: seq<nat>)
    requires Permutation(Size(g), order)
  {
    forall a, b :: 0 <= a < b < Size(g) ==> Key(g, order[a]) <= Key(g, order[b])
  }

  /**
   In an order sorted by key, two identical vertices end up in different groups exactly when a vertex with
   their key but another degree stands between them.
   */
  lemma TwinsGetTogether(g: Valid, order: seq<nat>, a: nat, b: nat)
    requires Permutation(Size(g), order) && a <= b < Size(g) && SortedByKey(g, order) && Twins(g, order[a], order[b])
    ensures Together(g, order, a, b) <==>
      !exists k :: a < k < b && Key(g, order[k]) == Key(g, order[a]) && Degree(g, order[k]) != Degree(g, order[a])
  {
    TwinsAlike(g, order[a], order[b]);
    forall k | a <= k <= b ensures Key(g, order[k]) == Key(g, order[a]) {
      assert k == a || k == b || (Key(g, order[a]) <= Key(g, order[k]) <= Key(g, order[b]));
    }
  }

  /** Edges 0-2, 2-4 and 1-5, and an isolated vertex 3. */
  const APART := Graph([0, 1, 2, 4, 4, 5, 6], [2, 5, 0, 4, 2, 1], [1, 1, 1, 1, 1, 1], [1, 1, 1, 1, 1, 1], [1, 1, 1, 1, 1, 1])

  /** Who owns a slot of this graph. */
  lemma ApartSlots(u: nat, j: int)
    requires u < 6
    ensures Csr(APART) && Size(APART) == 6
    ensures Slot(APART, u, j) <==> 0 <= j < 6 && u == [0, 1, 2, 2, 4, 5][j]
  {
  }

  /** Slot `j` of this graph lists the owner of slot `[2, 5, 0, 4, 3, 1][j]`. */
  lemma ApartMirrored(u: nat, j: int)
    requires u < 6 && Csr(APART) && Slot(APART, u, j)
    ensures Mirrored(APART, u, j)
  {
    ApartSlots(u, j);
    var k := [2, 5, 0, 4, 3, 1][j];
    ApartSlots(APART.adjncy[j], k);
    assert Lists(APART, APART.adjncy[j], k, u);
  }

  lemma ApartSimple()
    ensures Csr(APART) && Simple(APART)
  {
    ApartSlots(0, 0);
    forall u: nat, j | u < 6 && Slot(APART, u, j) ensures APART.adjncy[j] != u {
      ApartSlots(u, j);
    }
    forall u: nat, v: nat, j, k | u < 6 && Lists(APART, u, j, v) && Lists(APART, u, k, v) ensures j == k {
      ApartSlots(u, j);
      ApartSlots(u, k);
    }
  }

  lemma ApartIsValid()
    ensures ValidGraph(APART)
  {
    ApartSimple();
    assert Symmetric(APART) by {
      forall u: nat, j | u < 6 && Slot(APART, u, j) ensures Mirrored(APART, u, j) {
        ApartMirrored(u, j);
      }
    }
  }

  /** The keys of this graph. */
  lemma ApartKeys()
    ensures ValidGraph(APART)
    ensures forall u: nat :: u < 6 ==> Key(APART, u) == [2, 6, 6, 3, 6, 6][u]
  {
    ApartIsValid();
    forall u: nat | u < 6 ensures Key(APART, u) == SlotTotal(APART, u, Id(), APART.xadj[u + 1]) + u {
      KeyIs(APART, u);
    }
  }

  lemma ApartTwins()
    ensures ValidGraph(APART) && Twins(APART, 1, 5)
  {
    ApartIsValid();
    ApartSlots(1, 1);
    ApartSlots(5, 5);
    assert Lists(APART, 1, 1, 5) && Lists(APART, 5, 5, 1);
  }

  /** The vertices of this graph by key. */
  const BY_KEY: seq<nat> := [0, 3, 1, 2, 4, 5]

  lemma ApartOrder()
    ensures Permutation(6, BY_KEY)
  {
    forall v: nat | v < 6 ensures v in BY_KEY {
      var at := [0, 2, 3, 1, 4, 5][v];
      assert BY_KEY[at] == v;
    }
  }

  lemma ApartSorted()
    ensures ValidGraph(APART) && Permutation(Size(APART), BY_KEY) && SortedByKey(APART, BY_KEY)
  {
    ApartKeys();
    ApartOrder();
    forall a, b | 0 <= a < b < 6 ensures Key(APART, BY_KEY[a]) <= Key(APART, BY_KEY[b]) {
      var keys := [2, 3, 6, 6, 6, 6];
      assert Key(APART, BY_KEY[a]) == keys[a] && Key(APART, BY_KEY[b]) == keys[b];
    }
  }

  /** Identical vertices 1 and 5 are kept apart, because vertex 2 has their key and stands between them. */
  lemma TwinsKeptApart()
    ensures ValidGraph(APART) && Permutation(Size(APART), BY_KEY) && SortedByKey(APART, BY_KEY)
    ensures Twins(APART, BY_KEY[2], BY_KEY[5]) && !Together(APART, BY_KEY, 2, 5)
  {
    ApartSorted();
    ApartTwins();
    assert Degree(APART, BY_KEY[3]) != Degree(APART, BY_KEY[2]);
  }

  /** The marks of the closed neighbourhood of `u`. */
  ghost predicate MarksOf(g: Valid, mark: seq<int>, i: int, u: nat)
    requires |mark| == Size(g) && u < Size(g)
  {
    forall y: nat :: y < Size(g) ==> (mark[y] == i <==> Closed(g, u, y))
  }

  /** Either the graph is kept, with unit weights, or it is replaced by the graph of the groups. */
  datatype Result =
    | Kept(vwgt: seq<int>, adjwgt: seq<int>, adjwgtsum: seq<int>)
    | Compressed(xadj: seq<nat>, adjncy: seq<nat>, vwgt: seq<int>, adjwgt: seq<int>, adjwgtsum: seq<int>, cnedges: nat)

  function Ones(n: nat): seq<int>
  {
    seq(n, _ => 1)
  }

  /** The lengths of the adjacency lists. */
  function Lengths(xadj: seq<nat>): (r: seq<int>)
    requires |xadj| > 0
    ensures |r| == |xadj| - 1 && forall u :: 0 <= u < |r| ==> r[u] == xadj[u + 1] as int - xadj[u]
  {
    seq(|xadj| - 1, u requires 0 <= u < |xadj| - 1 => xadj[u + 1] as int - xadj[u])
  }

  class Compressor {
    const g: Valid
    const mark: array<int>
    const vmap: array<int>
    var cptr: seq<nat>
    var cind: seq<nat>

    constructor (g: Valid)
      ensures this.g == g && fresh(mark) && fresh(vmap) && mark != vmap && mark.Length == vmap.Length == Size(g)
    {
      this.g := g;
      mark := new int[|g.vwgt|];
      vmap := new int[|g.vwgt|];
      cptr, cind := [0], [];
    }

    ghost predicate Shape()
    {
      mark.Length == vmap.Length == Size(g) && mark != vmap
    }

    ghost predicate Groups()
      requires Shape()
      reads this`cptr, this`cind, vmap
    {
      Grouped(g, vmap[..], cind, cptr)
    }

    /** The key of one vertex. */
    method ComputeKey(u: nat) returns (key: int)
      requires u < Size(g)
      ensures key == Key(g, u)
    {
      KeyIs(g, u);
      var k := 0;
      for j := g.xadj[u] to g.xadj[u + 1]
        invariant k == SlotTotal(g, u, Id(), j)
      {
        k := k + g.adjncy[j];
      }
      key := k + u;
    }

    /** The keys of all vertices, in the order the sort has put them in. */
    method ComputeKeys(order: seq<nat>) returns (keys: seq<int>)
      requires Permutation(Size(g), order)
      ensures |keys| == Size(g) && forall i :: 0 <= i < Size(g) ==> keys[i] == Key(g, order[i])
    {
      keys := [];
      for i := 0 to Size(g)
        invariant |keys| == i && forall j :: 0 <= j < i ==> keys[j] == Key(g, order[j])
      {
        var key := ComputeKey(order[i]);
        keys := keys + [key];
      }
    }

    /** Mark the closed neighbourhood of `u` with `i`. */
    method MarkNeighbours(u: nat, i: int)
      requires Shape() && u < Size(g) && forall y :: 0 <= y < Size(g) ==> mark[y] < i
      modifies mark
      ensures MarksOf(g, mark[..], i, u) && forall y :: 0 <= y < Size(g) ==> mark[y] <= i
    {
      mark[u] := i;
      forall y: nat | y < Size(g) ensures MarkedTo(mark[..], u, i, g.xadj[u], y) {
        SeenEnds(g, u, y);
      }
      for j := g.xadj[u] to g.xadj[u + 1]
        invariant forall y: nat :: y < Size(g) ==> MarkedTo(mark[..], u, i, j, y)
      {
        ghost var marks := mark[..];
        mark[g.adjncy[j]] := i;
        MarkStep(marks, mark[..], u, i, j, j + 1);
      }
      forall y: nat | y < Size(g) ensures mark[y] <= i && (mark[y] == i <==> Closed(g, u, y)) {
        assert MarkedTo(mark[..], u, i, g.xadj[u + 1], y);
        SeenEnds(g, u, y);
      }
    }

    /** Of `u` and the neighbours before slot `j`, exactly those have the mark. */
    ghost predicate MarkedTo(marks: seq<int>, u: nat, i: int, j: int, y: nat)
      requires |marks| == Size(g) && u < Size(g) && y < Size(g)
    {
      marks[y] <= i && (marks[y] == i <==> y == u || Seen(g, u, j, y))
    }

    lemma MarkStep(marks: seq<int>, marks': seq<int>, u: nat, i: int, j: nat, next: int)
      requires |marks| == Size(g) && u < Size(g) && Slot(g, u, j) && forall y: nat :: y < Size(g) ==> MarkedTo(marks, u, i, j, y)
      requires marks' == marks[g.adjncy[j] := i] && next == j + 1
      ensures forall y: nat :: y < Size(g) ==> MarkedTo(marks', u, i, next, y)
    {
      forall y: nat | y < Size(g) ensures MarkedTo(marks', u, i, next, y) {
        assert MarkedTo(marks, u, i, j, y);
        SeenStep(g, u, j, y);
      }
    }

    /** Whether all neighbours of `v` are marked. */
    method AllMarked(v: nat, u: nat, i: int) returns (all: bool)
      requires Shape() && v < Size(g) && u < Size(g) && MarksOf(g, mark[..], i, u)
      ensures all <==> Included(g, v, u)
    {
      for jj := g.xadj[v] to g.xadj[v + 1]
        invariant forall k :: g.xadj[v] <= k < jj ==> mark[g.adjncy[k]] == i
      {
        if mark[g.adjncy[jj]] != i {
          SlotWeight(g, v, jj);
          return false;
        }
      }
      forall y: nat | y < Size(g) && Adjacent(g, v, y) ensures Closed(g, u, y) {
        var k :| Lists(g, v, k, y);
        assert mark[..][y] == i;
      }
      return true;
    }

    method Push(v: nat)
      requires Shape() && Groups() && v < Size(g) && vmap[v] == -1
      requires cptr[|cptr| - 1] < |cind| ==> cind[cptr[|cptr| - 1]] < Size(g) && Twins(g, v, cind[cptr[|cptr| - 1]])
      modifies this`cind, vmap
      ensures Groups() && cind == old(cind) + [v] && vmap[..] == old(vmap[..])[v := |cptr| - 1]
    {
      PushKeeps(g, vmap[..], cind, cptr, v);
      vmap[v] := |cptr| - 1;
      cind := cind + [v];
      assert vmap[..] == old(vmap[..])[v := |cptr| - 1];
    }

    /** Compare one later vertex with the first of the open group. */
    method TryPush(v: nat, u: nat, i: int)
      requires Shape() && Groups() && v < Size(g) && u < Size(g) && MarksOf(g, mark[..], i, u)
      requires Key(g, u) == Key(g, v) && Degree(g, u) == Degree(g, v) && cptr[|cptr| - 1] < |cind| && cind[cptr[|cptr| - 1]] == u
      modifies this`cind, vmap
      ensures Groups() && old(cind) <= cind
      ensures vmap[..] == if old(vmap[v]) == -1 && Twins(g, u, v) then old(vmap[..])[v := |cptr| - 1] else old(vmap[..])
    {
      if vmap[v] == -1 {
        var all := AllMarked(v, u, i);
        if all {
          SameKeyIsTwin(g, u, v);
          Push(v);
        }
      }
    }

    /** The group of the vertex at place `i` of the order. */
    method BuildGroup(order: seq<nat>, keys: seq<int>, i: nat)
      requires Shape() && Permutation(Size(g), order) && i < Size(g) && Groups() && cptr[|cptr| - 1] == |cind|
      requires |keys| == Size(g) && forall j :: 0 <= j < Size(g) ==> keys[j] == Key(g, order[j])
      requires vmap[order[i]] == -1 && forall y :: 0 <= y < Size(g) ==> mark[y] < i
      modifies this`cind, this`cptr, vmap, mark
      ensures Groups() && cptr[|cptr| - 1] == |cind| && vmap[order[i]] != -1
      ensures forall y :: 0 <= y < Size(g) ==> mark[y] <= i
      ensures Joined(g, order, i, Size(g), old(|cptr|) - 1, old(vmap[..]), vmap[..])
    {
      MarkNeighbours(order[i], i);
      Push(order[i]);
      Scan(order, keys, i, old(vmap[..]));
      CloseKeeps(g, vmap[..], cind, cptr);
      cptr := cptr + [|cind|];
    }

    /** The scan from place `i` has come to place `j`: the last group is open, and all that had to join it have. */
    ghost predicate Scanned(order: seq<nat>, i: nat, j: nat, before: seq<int>)
      requires Shape() && Permutation(Size(g), order) && |before| == Size(g) && i < j <= Size(g)
      reads this`cptr, this`cind, vmap, mark
    {
      && Groups() && cptr[|cptr| - 1] < |cind| && cind[cptr[|cptr| - 1]] == order[i]
      && MarksOf(g, mark[..], i, order[i]) && Joined(g, order, i, j, |cptr| - 1, before, vmap[..])
    }

    /** Compare the vertex at place `j` with the first of the open group. */
    method ScanOne(order: seq<nat>, i: nat, j: nat, ghost before: seq<int>)
      requires Shape() && Permutation(Size(g), order) && i < j < Size(g) && |before| == Size(g)
      requires Scanned(order, i, j, before) && Alike(g, order, i, j)
      modifies this`cind, vmap
      ensures Scanned(order, i, j + 1, before)
    {
      ghost var c, mid := |cptr| - 1, vmap[..];
      JoinedStep(g, order, i, j, j + 1, c, before, mid,
                 if mid[order[j]] == -1 && Twins(g, order[i], order[j]) then mid[order[j] := c] else mid);
      TryPush(order[j], order[i], i);
    }

    /** Compare the later vertices with the first of the open group, as long as key and degree are the same. */
    method Scan(order: seq<nat>, keys: seq<int>, i: nat, ghost before: seq<int>)
      requires Shape() && Permutation(Size(g), order) && i < Size(g) && |before| == Size(g) && Scanned(order, i, i + 1, before)
      requires |keys| == Size(g) && forall j :: 0 <= j < Size(g) ==> keys[j] == Key(g, order[j])
      modifies this`cind, vmap
      ensures Scanned(order, i, Size(g), before)
    {
      var u := order[i];
      var j := i + 1;
      while j < Size(g) && keys[i] == keys[j] && g.xadj[u + 1] - g.xadj[u] == g.xadj[order[j] + 1] - g.xadj[order[j]]
        invariant i < j <= Size(g) && Scanned(order, i, j, before) && Alike(g, order, i, j - 1)
      {
        AlikeStep(g, order, i, j);
        ScanOne(order, i, j, before);
        j := j + 1;
      }
      JoinedEnds(g, order, i, j, |cptr| - 1, before, vmap[..]);
    }

    /** Nobody has a mark or a group. */
    method Reset()
      requires Shape()
      modifies this`cind, this`cptr, vmap, mark
      ensures cptr == [0] && cind == [] && forall y :: 0 <= y < Size(g) ==> mark[y] == -1 && vmap[y] == -1
    {
      for i := 0 to Size(g)
        invariant forall y :: 0 <= y < i ==> mark[y] == -1 && vmap[y] == -1
      {
        mark[i], vmap[i] := -1, -1;
      }
      cptr, cind := [0], [];
    }

    /** The number of the group to come is not taken. */
    lemma NewNumber()
      requires Shape() && Groups() && cptr[|cptr| - 1] == |cind|
      ensures forall v :: 0 <= v < Size(g) ==> vmap[v] != |cptr| - 1
    {
      forall v: nat | v < Size(g) ensures vmap[v] != |cptr| - 1 {
        if v in cind {
          var j: nat :| j < |cind| && cind[j] == v;
          assert PlacedAt(vmap[..], cind, cptr, j);
        }
      }
    }

    /**
     The grouping phase of CompressGraph: the groups partition the vertices, and two vertices share a group
     exactly when they have the same closed neighbourhood and all vertices between them in the order have their
     key and degree.
     */
    method Group(order: seq<nat>)
      requires Shape() && Permutation(Size(g), order)
      modifies this`cind, this`cptr, vmap, mark
      ensures Finished() && GroupedExactly(g, order, vmap[..])
    {
      var keys := ComputeKeys(order);
      Reset();
      for i := 0 to Size(g)
        invariant GroupedTo(order, i)
      {
        GroupOne(order, keys, i);
      }
      forall v: nat | v < Size(g) ensures v in cind {
        assert v in order;
      }
    }

    /** The vertices at the first `i` places have their groups. */
    ghost predicate GroupedTo(order: seq<nat>, i: nat)
      requires Shape() && Permutation(Size(g), order) && i <= Size(g)
      reads this`cptr, this`cind, vmap, mark
    {
      && Groups() && cptr[|cptr| - 1] == |cind| && GroupedExactly(g, order, vmap[..])
      && (forall y :: 0 <= y < Size(g) ==> mark[y] < i)
      && (forall j :: 0 <= j < i ==> vmap[order[j]] != -1)
    }

    /** A vertex that has no group yet starts one. */
    method GroupOne(order: seq<nat>, keys: seq<int>, i: nat)
      requires Shape() && Permutation(Size(g), order) && i < Size(g) && GroupedTo(order, i)
      requires |keys| == Size(g) && forall j :: 0 <= j < Size(g) ==> keys[j] == Key(g, order[j])
      modifies this`cind, this`cptr, vmap, mark
      ensures GroupedTo(order, i + 1)
    {
      if vmap[order[i]] == -1 {
        ghost var before, c := vmap[..], |cptr| - 1;
        NewNumber();
        BuildGroup(order, keys, i);
        JoinedIsExact(g, order, i, c, before, vmap[..]);
      }
    }

    // ----- The compressed graph

    /** Every vertex is in a group, and all groups are finished. */
    ghost predicate Finished()
      requires Shape()
      reads this`cptr, this`cind, vmap
    {
      Groups() && cptr[|cptr| - 1] == |cind| && forall v: nat :: v < Size(g) ==> v in cind
    }

    /** Members of one group are twins, and every vertex has a group. */
    lemma MemberFacts(v: nat) returns (j: nat)
      requires Shape() && Finished() && v < Size(g)
      ensures j < |cind| && cind[j] == v && PlacedAt(vmap[..], cind, cptr, j) && TwinAt(g, vmap[..], cind, cptr, j)
      ensures 0 <= vmap[v] < |cptr| - 1
    {
      assert v in cind;
      j :| j < |cind| && cind[j] == v;
      assert PlacedAt(vmap[..], cind, cptr, j);
    }

    lemma GroupTwins(u: nat, v: nat)
      requires Shape() && Finished() && u < Size(g) && v < Size(g) && vmap[u] == vmap[v]
      ensures Twins(g, u, v)
    {
      var i := MemberFacts(u);
      var j := MemberFacts(v);
      var first := cind[cptr[vmap[u]]];
      assert Twins(g, u, first) && Twins(g, v, first);
    }

    /** The vertex at a place inside group `c` belongs to group `c`. */
    lemma PlaceGroup(c: nat, j: nat)
      requires Shape() && Finished() && c < |cptr| - 1 && cptr[c] <= j < cptr[c + 1]
      ensures cptr[c + 1] <= |cind| && cind[j] < Size(g) && vmap[cind[j]] == c
    {
      assert PlacedAt(vmap[..], cind, cptr, j);
    }

    /** There are no more groups than vertices. */
    lemma {:induction false} FewGroups(c: nat)
      requires Shape() && Finished() && c < |cptr|
      ensures c <= cptr[c] <= |cind| <= Size(g)
    {
      if c > 0 {
        FewGroups(c - 1);
      } else {
        forall x | x in cind ensures x < Size(g) {
          var j: nat :| j < |cind| && cind[j] == x;
          assert PlacedAt(vmap[..], cind, cptr, j);
        }
        ShortList(Size(g), cind);
      }
    }

    /** Some member of `c` is a neighbour of some member of `k`. */
    ghost predicate GroupsTouch(c: int, k: int)
      requires Shape()
      reads vmap
    {
      c != k && exists u: nat, y: nat :: u < Size(g) && y < Size(g) && Touching(c, k, u, y)
    }

    ghost predicate Touching(c: int, k: int, u: nat, y: nat)
      requires Shape() && u < Size(g) && y < Size(g)
      reads vmap
    {
      vmap[u] == c && vmap[y] == k && Adjacent(g, u, y)
    }

    /** Two groups touch only if all their members are neighbours. */
    lemma TouchAll(c: int, k: int, u': nat, y': nat)
      requires Shape() && Finished() && GroupsTouch(c, k) && u' < Size(g) && y' < Size(g) && vmap[u'] == c && vmap[y'] == k
      ensures Adjacent(g, u', y')
    {
      var u: nat, y: nat :| u < Size(g) && y < Size(g) && Touching(c, k, u, y);
      GroupTwins(u, u');
      GroupTwins(y, y');
      TwinsPair(g, u, u', y, y');
    }

    lemma TouchSymmetric(c: int, k: int)
      requires Shape() && GroupsTouch(c, k)
      ensures GroupsTouch(k, c)
    {
      var u: nat, y: nat :| u < Size(g) && y < Size(g) && Touching(c, k, u, y);
      WSymmetric(g, u, y);
      assert Touching(k, c, y, u);
    }

    /** The list of group `c` so far: marked groups, each touching `c`, without repetition. */
    ghost predicate RowSoFar(c: nat, row: seq<nat>)
      requires Shape()
      reads this`cptr, mark, vmap
    {
      && NoRepeats(row)
      && (forall k <- row :: k < |cptr| - 1 && GroupsTouch(c, k))
      && (forall k: nat :: k < Size(g) ==> mark[k] <= c && (mark[k] == c <==> k == c || k in row))
    }

    /** All neighbours of `u` are in marked groups. */
    ghost predicate Covered(c: nat, u: nat)
      requires Shape() && u < Size(g)
      reads mark, vmap
    {
      forall y: nat :: y < Size(g) && Adjacent(g, u, y) ==> 0 <= vmap[y] < Size(g) && mark[vmap[y]] == c
    }

    /** One slot. */
    method AddGroup(c: nat, u: nat, y: nat, row: seq<nat>) returns (row': seq<nat>)
      requires Shape() && Finished() && c < Size(g) && u < Size(g) && y < Size(g) && vmap[u] == c && Adjacent(g, u, y) && RowSoFar(c, row)
      modifies mark
      ensures RowSoFar(c, row') && 0 <= vmap[y] < Size(g) && mark[vmap[y]] == c
      ensures forall k: nat :: k < Size(g) && old(mark[k]) == c ==> mark[k] == c
    {
      var j := MemberFacts(y);
      FewGroups(|cptr| - 1);
      var k := vmap[y];
      row' := row;
      if mark[k] != c {
        assert Touching(c, k, u, y);
        row' := row + [k];
      }
      mark[k] := c;
    }

    /** All slots of one member. */
    method AddMember(c: nat, u: nat, row: seq<nat>) returns (row': seq<nat>)
      requires Shape() && Finished() && c < Size(g) && u < Size(g) && vmap[u] == c && RowSoFar(c, row)
      modifies mark
      ensures RowSoFar(c, row') && Covered(c, u)
      ensures forall k: nat :: k < Size(g) && old(mark[k]) == c ==> mark[k] == c
    {
      row' := row;
      var jj := g.xadj[u];
      while jj < g.xadj[u + 1]
        invariant g.xadj[u] <= jj <= g.xadj[u + 1] && RowSoFar(c, row')
        invariant forall k: nat :: k < Size(g) && old(mark[k]) == c ==> mark[k] == c
        invariant forall s :: g.xadj[u] <= s < jj ==> 0 <= vmap[g.adjncy[s]] < Size(g) && mark[vmap[g.adjncy[s]]] == c
      {
        SlotWeight(g, u, jj);
        row' := AddGroup(c, u, g.adjncy[jj], row');
        jj := jj + 1;
      }
      forall y: nat | y < Size(g) && Adjacent(g, u, y) ensures 0 <= vmap[y] < Size(g) && mark[vmap[y]] == c {
        var s :| Lists(g, u, s, y);
      }
    }

    /** The finished list of group `c` holds exactly the groups that touch it. */
    ghost predicate RowIs(c: nat, row: seq<nat>)
      requires Shape()
      reads this`cptr, vmap
    {
      NoRepeats(row) && forall k: nat :: k in row <==> k < |cptr| - 1 && GroupsTouch(c, k)
    }

    lemma CoveredRow(c: nat, row: seq<nat>)
      requires Shape() && Finished() && RowSoFar(c, row)
      requires forall u: nat :: u < Size(g) && vmap[u] == c ==> Covered(c, u)
      ensures RowIs(c, row)
    {
      forall k: nat | k < |cptr| - 1 && GroupsTouch(c, k) ensures k in row {
        var u: nat, y: nat :| u < Size(g) && y < Size(g) && Touching(c, k, u, y);
        assert Covered(c, u);
      }
    }

    /** The list of group `c`. */
    method BuildRow(c: nat) returns (row: seq<nat>)
      requires Shape() && Finished() && c < |cptr| - 1 && forall k :: 0 <= k < Size(g) ==> mark[k] < c
      modifies mark
      ensures RowIs(c, row) && forall k :: 0 <= k < Size(g) ==> mark[k] <= c
    {
      FewGroups(|cptr| - 1);
      FewGroups(c + 1);
      row := [];
      mark[c] := c;
      for j := cptr[c] to cptr[c + 1]
        invariant RowSoFar(c, row)
        invariant forall i: nat :: cptr[c] <= i < j ==> cind[i] < Size(g) && Covered(c, cind[i])
      {
        PlaceGroup(c, j);
        row := AddMember(c, cind[j], row);
      }
      forall u: nat | u < Size(g) && vmap[u] == c ensures Covered(c, u) {
        var i := MemberFacts(u);
      }
      CoveredRow(c, row);
    }

    /** The degree of the first member of group `c`. */
    ghost function FirstDegree(c: nat): nat
      requires Shape() && Finished() && c < |cptr| - 1
      reads this`cptr, this`cind, vmap
    {
      PlaceGroup(c, cptr[c]);
      Degree(g, cind[cptr[c]])
    }

    /** The list of a group is no longer than the list of its first member. */
    lemma RowFits(c: nat, row: seq<nat>)
      requires Shape() && Finished() && c < |cptr| - 1 && RowIs(c, row)
      ensures |row| <= FirstDegree(c)
    {
      PlaceGroup(c, cptr[c]);
      var first, wh := cind[cptr[c]], vmap[..];
      var parts := PartsSeen(g, wh, first, g.xadj[first + 1]);
      PartsSeenFacts(g, wh, first, g.xadj[first + 1]);
      forall k | k in Ints(row) ensures k in parts {
        var i :| 0 <= i < |row| && Ints(row)[i] == k;
        assert row[i] in row;
        var u: nat, y: nat :| u < Size(g) && y < Size(g) && Touching(c, k, u, y);
        TouchAll(c, k, first, y);
        var s :| Lists(g, first, s, y);
      }
      FitsIn(Ints(row), parts);
    }

    static ghost function Ints(row: seq<nat>): (r: seq<int>)
      ensures |r| == |row| && forall i :: 0 <= i < |row| ==> r[i] == row[i]
    {
      seq(|row|, i requires 0 <= i < |row| => row[i] as int)
    }

    /** What the source reserves for the adjacency lists of the groups below `c`. */
    ghost function FirstDegrees(c: nat): nat
      requires Shape() && Finished() && c < |cptr|
      reads this`cptr, this`cind, vmap
    {
      if c == 0 then 0 else FirstDegrees(c - 1) + FirstDegree(c - 1)
    }

    method CountEdges() returns (cnedges: nat)
      requires Shape() && Finished()
      ensures cnedges == FirstDegrees(|cptr| - 1)
    {
      cnedges := 0;
      for i := 0 to |cptr| - 1
        invariant cnedges == FirstDegrees(i)
      {
        PlaceGroup(i, cptr[i]);
        var ii := cind[cptr[i]];
        cnedges := cnedges + g.xadj[ii + 1] - g.xadj[ii];
      }
    }

    ghost predicate RowAt(xadj: seq<nat>, adjncy: seq<nat>, d: nat)
      requires Shape() && d + 1 < |xadj|
      reads this`cptr, vmap
    {
      xadj[d] <= xadj[d + 1] <= |adjncy| && RowIs(d, adjncy[xadj[d]..xadj[d + 1]])
    }

    /** The lists of the groups below `c`, one after the other. */
    ghost predicate Rows(xadj: seq<nat>, adjncy: seq<nat>, c: nat)
      requires Shape()
      reads this`cptr, vmap
    {
      && |xadj| == c + 1 && xadj[0] == 0 && xadj[c] == |adjncy|
      && forall d: nat :: d < c ==> RowAt(xadj, adjncy, d)
    }

    lemma RowsPush(xadj: seq<nat>, adjncy: seq<nat>, c: nat, row: seq<nat>)
      requires Shape() && Rows(xadj, adjncy, c) && RowIs(c, row)
      ensures Rows(xadj + [|adjncy| + |row|], adjncy + row, c + 1)
    {
      var xadj', adjncy' := xadj + [|adjncy| + |row|], adjncy + row;
      forall d: nat | d < c + 1 ensures RowAt(xadj', adjncy', d) {
        if d < c {
          assert RowAt(xadj, adjncy, d);
          assert adjncy'[xadj[d]..xadj[d + 1]] == adjncy[xadj[d]..xadj[d + 1]];
        } else {
          assert adjncy'[xadj'[d]..xadj'[d + 1]] == row;
        }
      }
    }

    method BuildRows() returns (xadj: seq<nat>, adjncy: seq<nat>)
      requires Shape() && Finished()
      modifies mark
      ensures Rows(xadj, adjncy, |cptr| - 1) && |adjncy| <= FirstDegrees(|cptr| - 1)
    {
      for i := 0 to Size(g)
        invariant forall k :: 0 <= k < i ==> mark[k] == -1
      {
        mark[i] := -1;
      }
      xadj, adjncy := [0], [];
      for c := 0 to |cptr| - 1
        invariant Rows(xadj, adjncy, c) && |adjncy| <= FirstDegrees(c)
        invariant forall k :: 0 <= k < Size(g) ==> mark[k] < c
      {
        var row := BuildRow(c);
        RowFits(c, row);
        RowsPush(xadj, adjncy, c, row);
        xadj, adjncy := xadj + [|adjncy| + |row|], adjncy + row;
      }
    }

    method GroupSizes() returns (vwgt: seq<int>)
      requires Shape() && Finished()
      ensures |vwgt| == |cptr| - 1 && forall c :: 0 <= c < |vwgt| ==> vwgt[c] == cptr[c + 1] - cptr[c] > 0
    {
      vwgt := [];
      for c := 0 to |cptr| - 1
        invariant |vwgt| == c && forall d :: 0 <= d < c ==> vwgt[d] == cptr[d + 1] - cptr[d] > 0
      {
        vwgt := vwgt + [cptr[c + 1] - cptr[c]];
      }
    }

    /**
     CompressGraph, given the order in which the sort has put the vertices. The groups partition the vertices and
     have identical members; the graph is compressed only if that saves enough, and then two groups are listed
     as neighbours exactly when they touch, within the space reserved for the lists.
     */
    method CompressGraph(order: seq<nat>) returns (r: Result)
      requires Shape() && Permutation(Size(g), order)
      modifies this`cind, this`cptr, vmap, mark
      ensures Finished() && GroupedExactly(g, order, vmap[..])
      ensures r.Kept? <==> (|cptr| - 1) as real >= 0.85 * Size(g) as real
      ensures r.Compressed? ==> |r.vwgt| == |cptr| - 1 && forall c :: 0 <= c < |r.vwgt| ==> r.vwgt[c] == cptr[c + 1] - cptr[c] > 0
      ensures r.Compressed? ==> Rows(r.xadj, r.adjncy, |cptr| - 1) && |r.adjncy| <= r.cnedges == FirstDegrees(|cptr| - 1)
      ensures r.Compressed? ==> r.adjwgt == Ones(|r.adjncy|) && r.adjwgtsum == Lengths(r.xadj)
      ensures r.Kept? ==> r.vwgt == Ones(Size(g)) && r.adjwgt == Ones(|g.adjncy|) && r.adjwgtsum == Lengths(g.xadj)
    {
      Group(order);
      if (|cptr| - 1) as real >= 0.85 * Size(g) as real {
        return Kept(Ones(Size(g)), Ones(|g.adjncy|), Lengths(g.xadj));
      }
      r := BuildGraph();
    }

    /** The arrays of the compressed graph. */
    method BuildGraph() returns (r: Result)
      requires Shape() && Finished()
      modifies mark
      ensures r.Compressed? && |r.vwgt| == |cptr| - 1 && forall c :: 0 <= c < |r.vwgt| ==> r.vwgt[c] == cptr[c + 1] - cptr[c] > 0
      ensures Rows(r.xadj, r.adjncy, |cptr| - 1) && |r.adjncy| <= r.cnedges == FirstDegrees(|cptr| - 1)
      ensures r.adjwgt == Ones(|r.adjncy|) && r.adjwgtsum == Lengths(r.xadj)
    {
      var cnedges := CountEdges();
      var vwgt := GroupSizes();
      var xadj, adjncy := BuildRows();
      r := Compressed(xadj, adjncy, vwgt, Ones(|adjncy|), Lengths(xadj), cnedges);
    }

    /** The result is a simple undirected graph on the groups: neighbours are listed at both ends, no group lists
        itself, and being listed means that all members are pairwise neighbours. */
    lemma CompressedAdjacency(xadj: seq<nat>, adjncy: seq<nat>, c: nat, k: nat)
      requires Shape() && Finished() && Rows(xadj, adjncy, |cptr| - 1) && c < |cptr| - 1 && k < |cptr| - 1
      ensures RowAt(xadj, adjncy, c) && RowAt(xadj, adjncy, k)
      ensures var listed := k in adjncy[xadj[c]..xadj[c + 1]];
        && (listed <==> c in adjncy[xadj[k]..xadj[k + 1]])
        && (listed <==> c != k && forall u: nat, y: nat :: u < Size(g) && y < Size(g) && vmap[u] == c && vmap[y] == k ==> Adjacent(g, u, y))
    {
      assert RowAt(xadj, adjncy, c) && RowAt(xadj, adjncy, k);
      if GroupsTouch(c, k) {
        TouchSymmetric(c, k);
        forall u: nat, y: nat | u < Size(g) && y < Size(g) && vmap[u] == c && vmap[y] == k ensures Adjacent(g, u, y) {
          TouchAll(c, k, u, y);
        }
      } else {
        if GroupsTouch(k, c) {
          TouchSymmetric(k, c);
        }
        PlaceGroup(c, cptr[c]);
        PlaceGroup(k, cptr[k]);
        assert c != k ==> !Touching(c, k, cind[cptr[c]], cind[cptr[k]]);
      }
    }
  }
}
