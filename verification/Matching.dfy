/**
 The matchers of the coarsening phase. Each visits the vertices in the order of a permutation and pairs every
 vertex that is still unmatched with an unmatched neighbour, or with itself, giving the pair the next number.
 */
module Matching {
  import opened Graphs

  ghost predicate Permutation(n: nat, perm: seq<nat>)
  {
    && |perm| == n
    && (forall i :: 0 <= i < n ==> perm[i] < n)
    && (forall i, j :: 0 <= i < j < n ==> perm[i] != perm[j])
    && (forall v: nat :: v < n ==> v in perm)
  }

  /** `mate` pairs the vertices, and `cmap` numbers the pairs from 0 to `cnvtxs`: two vertices get one number
      exactly when they are matched, and every number is used. */
  ghost predicate Contracts(n: nat, mate: seq<int>, cmap: seq<int>, cnvtxs: nat)
  {
    && |mate| == |cmap| == n
    && (forall v :: 0 <= v < n ==> 0 <= mate[v] < n && mate[mate[v]] == v)
    && (forall v :: 0 <= v < n ==> 0 <= cmap[v] < cnvtxs)
    && (forall u, v :: 0 <= u < n && 0 <= v < n ==> (cmap[u] == cmap[v] <==> u == v || u == mate[v]))
    && (forall c :: 0 <= c < cnvtxs ==> c in cmap)
  }

  /** The number `c` occurs among the first `i` vertices of the permutation. */
  ghost predicate Occurs(perm: seq<nat>, cmap: seq<int>, i: int, c: int)
  {
    exists j :: 0 <= j < i && j < |perm| && perm[j] < |cmap| && cmap[perm[j]] == c
  }

  /** All numbers below `cn` do. */
  ghost predicate AllOccur(perm: seq<nat>, cmap: seq<int>, i: int, cn: nat)
  {
    forall c :: 0 <= c < cn ==> Occurs(perm, cmap, i, c)
  }

  /** Going through the permutation, the numbers turn up in increasing order: every vertex is preceded by all
      smaller numbers. This is what lets the coarsener find the pairs again by counting. */
  ghost predicate InOrder(perm: seq<nat>, cmap: seq<int>, upto: int)
  {
    forall i, c :: 0 <= i < upto && i < |perm| && perm[i] < |cmap| && 0 <= c < cmap[perm[i]] ==> Occurs(perm, cmap, i, c)
  }

  /** `ctrl->maxvwgt`, which the unweighted matcher does not look at. */
  datatype Limit = Unlimited | AtMost(maxvwgt: int)

  predicate Fits(g: Graph, u: nat, v: nat, limit: Limit)
    requires u < Size(g) && v < Size(g)
  {
    limit.AtMost? ==> g.vwgt[u] + g.vwgt[v] <= limit.maxvwgt
  }

  /** No two neighbours that fit together are both left alone. */
  ghost predicate Maximal(g: Graph, mate: seq<int>, limit: Limit)
    requires Csr(g) && |mate| == Size(g)
  {
    forall u: nat, v: nat :: u < Size(g) && v < Size(g) && Adjacent(g, u, v) && mate[u] == u && mate[v] == v ==>
      !Fits(g, u, v, limit)
  }

  /** Matched vertices are neighbours that fit together; with `islands`, a vertex without neighbours may be
      matched with any other. */
  ghost predicate PairsFit(g: Graph, mate: seq<int>, limit: Limit, islands: bool)
    requires Csr(g) && |mate| == Size(g)
  {
    forall u: nat :: u < Size(g) && 0 <= mate[u] < Size(g) && mate[u] != u ==>
      || (Adjacent(g, u, mate[u]) && Fits(g, u, mate[u], limit))
      || (islands && (Isolated(g, u) || Isolated(g, mate[u])))
  }

  const UNMATCHED := -1

  /** The matched vertices are paired and numbered. */
  ghost predicate Paired(n: nat, mate: seq<int>, cmap: seq<int>, cn: nat)
  {
    && |mate| == |cmap| == n
    && (forall v :: 0 <= v < n && mate[v] != UNMATCHED ==> 0 <= mate[v] < n && mate[mate[v]] == v)
    && (forall v :: 0 <= v < n && mate[v] != UNMATCHED ==> 0 <= cmap[v] < cn)
    && (forall u, v :: 0 <= u < n && 0 <= v < n && mate[u] != UNMATCHED && mate[v] != UNMATCHED ==>
         (cmap[u] == cmap[v] <==> u == v || u == mate[v]))
  }

  lemma PairedStep(n: nat, mate: seq<int>, cmap: seq<int>, cn: nat, i: nat, m: nat)
    requires Paired(n, mate, cmap, cn) && i < n && m < n && mate[i] == UNMATCHED && mate[m] == UNMATCHED
    ensures Paired(n, mate[i := m][m := i], cmap[i := cn][m := cn], cn + 1)
  {
  }

  /** The first `ii` vertices of the permutation have been matched, and their numbers came up in order. */
  ghost predicate VisitedUpTo(n: nat, perm: seq<nat>, mate: seq<int>, cmap: seq<int>, cn: nat, ii: nat)
    requires Permutation(n, perm) && ii <= n
  {
    && Paired(n, mate, cmap, cn)
    && (forall i :: 0 <= i < ii ==> mate[perm[i]] != UNMATCHED)
    && AllOccur(perm, cmap, ii, cn)
    && InOrder(perm, cmap, ii)
  }

  lemma VisitedStep(n: nat, perm: seq<nat>, mate: seq<int>, cmap: seq<int>, cn: nat, ii: nat, m: nat)
    requires Permutation(n, perm) && ii < n && VisitedUpTo(n, perm, mate, cmap, cn, ii)
    requires m < n && mate[perm[ii]] == UNMATCHED && mate[m] == UNMATCHED
    ensures VisitedUpTo(n, perm, mate[perm[ii] := m][m := perm[ii]], cmap[perm[ii] := cn][m := cn], cn + 1, ii + 1)
  {
    var after := cmap[perm[ii] := cn][m := cn];
    PairedStep(n, mate, cmap, cn, perm[ii], m);
    AllOccurStep(perm, cmap, after, ii, cn + 1);
    InOrderStep(perm, cmap, after, ii, cn);
  }

  // ----- Who is paired with whom, read off the finished matching

  /** `v` is still unmatched when the vertex at place `p` has its turn: it neither had its turn before nor was
      taken by a vertex that had. */
  ghost predicate FreeAt(n: nat, perm: seq<nat>, mate: seq<int>, p: int, v: nat)
    requires Permutation(n, perm) && |mate| == n && p <= n
  {
    forall q :: 0 <= q < p ==> perm[q] != v && mate[perm[q]] != v
  }

  /** The matched vertices are those that the first `ii` turns account for. */
  ghost predicate Accounted(n: nat, perm: seq<nat>, mate: seq<int>, ii: nat)
    requires Permutation(n, perm) && |mate| == n && ii <= n
  {
    forall v: nat :: v < n ==> (mate[v] == UNMATCHED <==> FreeAt(n, perm, mate, ii, v))
  }

  /** A neighbour that the vertex at place `p` can be paired with when it has its turn. */
  ghost predicate Available(g: Graph, perm: seq<nat>, mate: seq<int>, limit: Limit, p: nat, v: nat)
    requires Csr(g) && Permutation(Size(g), perm) && |mate| == Size(g) && p < Size(g) && v < Size(g)
  {
    Adjacent(g, perm[p], v) && Fits(g, perm[p], v, limit) && FreeAt(Size(g), perm, mate, p, v)
  }

  /** The neighbour `m` of `u` is taken rather than `v`: it is listed first or, with `heavy`, its edge is heavier,
      or as heavy and listed first. */
  ghost predicate Preferred(g: Graph, u: nat, m: nat, v: nat, heavy: bool)
    requires Csr(g) && u < Size(g) && |g.adjwgt| == |g.adjncy|
  {
    forall j, k :: Lists(g, u, j, m) && Lists(g, u, k, v) ==>
      (heavy && g.adjwgt[k] < g.adjwgt[j]) || ((heavy ==> g.adjwgt[k] == g.adjwgt[j]) && j <= k)
  }

  /** A vertex that is unmatched at its turn is paired with the preferred one of the available neighbours, and with
      itself only if there is none. */
  ghost predicate PicksAt(g: Graph, perm: seq<nat>, mate: seq<int>, limit: Limit, heavy: bool, p: nat)
    requires Csr(g) && Permutation(Size(g), perm) && |mate| == Size(g) && p < Size(g)
  {
    var u := perm[p];
    FreeAt(Size(g), perm, mate, p, u) ==>
      && 0 <= mate[u] < Size(g) && (mate[u] != u ==> Available(g, perm, mate, limit, p, mate[u]))
      && forall v: nat :: v < Size(g) && Available(g, perm, mate, limit, p, v) ==> mate[u] != u && Preferred(g, u, mate[u], v, heavy)
  }

  ghost predicate Picks(g: Graph, perm: seq<nat>, mate: seq<int>, limit: Limit, heavy: bool, start: nat, upto: nat)
    requires Csr(g) && Permutation(Size(g), perm) && |mate| == Size(g) && upto <= Size(g)
  {
    forall p: nat :: start <= p < upto ==> PicksAt(g, perm, mate, limit, heavy, p)
  }

  /** The vertices after place `k` that are free at turn `p` have no neighbours. */
  ghost predicate OnlyIslandsAfter(g: Graph, perm: seq<nat>, mate: seq<int>, p: nat, k: nat)
    requires Csr(g) && Permutation(Size(g), perm) && |mate| == Size(g) && p < Size(g)
  {
    forall q :: k < q < Size(g) && FreeAt(Size(g), perm, mate, p, perm[q]) ==> Isolated(g, perm[q])
  }

  /** A vertex that is unmatched at its turn has no neighbours, and is paired with the last free vertex of the
      permutation that has some, or with itself if there is none. */
  ghost predicate IslandAt(g: Graph, perm: seq<nat>, mate: seq<int>, p: nat)
    requires Csr(g) && Permutation(Size(g), perm) && |mate| == Size(g) && p < Size(g)
  {
    FreeAt(Size(g), perm, mate, p, perm[p]) ==>
      && Isolated(g, perm[p])
      && exists k: nat :: p <= k < Size(g) && IslandTakes(g, perm, mate, p, k)
  }

  ghost predicate IslandTakes(g: Graph, perm: seq<nat>, mate: seq<int>, p: nat, k: nat)
    requires Csr(g) && Permutation(Size(g), perm) && |mate| == Size(g) && p <= k < Size(g)
  {
    && mate[perm[p]] == perm[k] && OnlyIslandsAfter(g, perm, mate, p, k)
    && (k != p ==> FreeAt(Size(g), perm, mate, p, perm[k]) && !Isolated(g, perm[k]))
  }

  ghost predicate Islands(g: Graph, perm: seq<nat>, mate: seq<int>, upto: nat)
    requires Csr(g) && Permutation(Size(g), perm) && |mate| == Size(g) && upto <= Size(g)
  {
    forall p: nat :: p < upto ==> IslandAt(g, perm, mate, p)
  }

  /** Match_SHEM: islands up to the first free vertex with neighbours, heavy edges from there. */
  ghost predicate PicksSorted(g: Graph, perm: seq<nat>, mate: seq<int>, limit: Limit, start: nat)
    requires Csr(g) && Permutation(Size(g), perm) && |mate| == Size(g)
  {
    && start <= Size(g) && Islands(g, perm, mate, start) && Picks(g, perm, mate, limit, true, start, Size(g))
    && (start < Size(g) ==> FreeAt(Size(g), perm, mate, start, perm[start]) && !Isolated(g, perm[start]))
  }

  /** Later pairs do not change who was free at an earlier turn. */
  lemma FreeKept(n: nat, perm: seq<nat>, before: seq<int>, ii: nat, m: nat)
    requires Permutation(n, perm) && |before| == n && ii < n && m < n && Accounted(n, perm, before, ii)
    requires before[perm[ii]] == UNMATCHED && before[m] == UNMATCHED
    ensures var after := before[perm[ii] := m][m := perm[ii]];
      && (forall q :: 0 <= q < ii ==> after[perm[q]] == before[perm[q]])
      && (forall p, v: nat :: p <= ii ==> (FreeAt(n, perm, after, p, v) <==> FreeAt(n, perm, before, p, v)))
  {
    var after := before[perm[ii] := m][m := perm[ii]];
    assert FreeAt(n, perm, before, ii, m);
    forall p, v: nat | p <= ii ensures FreeAt(n, perm, after, p, v) <==> FreeAt(n, perm, before, p, v) {
    }
  }

  lemma AccountedStep(n: nat, perm: seq<nat>, before: seq<int>, cmap: seq<int>, cn: nat, ii: nat, next: int, m: nat)
    requires Permutation(n, perm) && ii < n && m < n && Paired(n, before, cmap, cn) && Accounted(n, perm, before, ii)
    requires before[perm[ii]] == UNMATCHED && before[m] == UNMATCHED && next == ii + 1
    ensures Accounted(n, perm, before[perm[ii] := m][m := perm[ii]], next)
  {
    var after := before[perm[ii] := m][m := perm[ii]];
    FreeKept(n, perm, before, ii, m);
    forall v: nat | v < n ensures after[v] == UNMATCHED <==> FreeAt(n, perm, after, next, v) {
      assert FreeAt(n, perm, after, ii, v) <==> FreeAt(n, perm, before, ii, v);
      assert FreeAt(n, perm, after, next, v) <==> FreeAt(n, perm, after, ii, v) && perm[ii] != v && after[perm[ii]] != v;
    }
  }

  lemma AccountedSkip(n: nat, perm: seq<nat>, mate: seq<int>, cmap: seq<int>, cn: nat, ii: nat, next: int)
    requires Permutation(n, perm) && ii < n && Paired(n, mate, cmap, cn) && Accounted(n, perm, mate, ii)
    requires mate[perm[ii]] != UNMATCHED && next == ii + 1
    ensures Accounted(n, perm, mate, next)
  {
    forall v: nat | v < n ensures mate[v] == UNMATCHED <==> FreeAt(n, perm, mate, next, v) {
      assert FreeAt(n, perm, mate, next, v) <==> FreeAt(n, perm, mate, ii, v) && perm[ii] != v && mate[perm[ii]] != v;
    }
  }

  lemma PicksKept(g: Valid, perm: seq<nat>, before: seq<int>, limit: Limit, heavy: bool, start: nat, ii: nat, m: nat)
    requires Permutation(Size(g), perm) && |before| == Size(g) && ii < Size(g) && m < Size(g) && Accounted(Size(g), perm, before, ii)
    requires before[perm[ii]] == UNMATCHED && before[m] == UNMATCHED && Picks(g, perm, before, limit, heavy, start, ii)
    ensures Picks(g, perm, before[perm[ii] := m][m := perm[ii]], limit, heavy, start, ii)
  {
    var after := before[perm[ii] := m][m := perm[ii]];
    FreeKept(Size(g), perm, before, ii, m);
    forall p: nat | start <= p < ii ensures PicksAt(g, perm, after, limit, heavy, p) {
      assert PicksAt(g, perm, before, limit, heavy, p);
      assert forall v: nat :: v < Size(g) ==> (Available(g, perm, after, limit, p, v) <==> Available(g, perm, before, limit, p, v));
    }
  }

  /** The vertices of the first `upto` places have the same mates. */
  ghost predicate SameMates(n: nat, perm: seq<nat>, before: seq<int>, after: seq<int>, upto: nat)
    requires Permutation(n, perm) && |before| == |after| == n && upto <= n
  {
    forall q :: 0 <= q < upto ==> after[perm[q]] == before[perm[q]]
  }

  /** What the first turns were does not depend on the later ones. */
  lemma IslandsStay(g: Valid, perm: seq<nat>, before: seq<int>, after: seq<int>, upto: nat)
    requires Permutation(Size(g), perm) && |before| == |after| == Size(g) && upto <= Size(g)
    requires SameMates(Size(g), perm, before, after, upto)
    ensures forall p, v: nat :: p <= upto ==> (FreeAt(Size(g), perm, after, p, v) <==> FreeAt(Size(g), perm, before, p, v))
    ensures Islands(g, perm, before, upto) ==> Islands(g, perm, after, upto)
  {
    forall p: nat | p < upto && IslandAt(g, perm, before, p) ensures IslandAt(g, perm, after, p) {
      if FreeAt(Size(g), perm, after, p, perm[p]) {
        var k: nat :| p <= k < Size(g) && IslandTakes(g, perm, before, p, k);
        assert IslandTakes(g, perm, after, p, k);
      }
    }
  }

  /** The turns fix every pair. */
  lemma {:induction false} PicksDetermine(g: Valid, perm: seq<nat>, mate: seq<int>, mate': seq<int>, limit: Limit, heavy: bool, p: nat)
    requires Permutation(Size(g), perm) && |mate| == |mate'| == Size(g) && p <= Size(g)
    requires Picks(g, perm, mate, limit, heavy, 0, Size(g)) && Picks(g, perm, mate', limit, heavy, 0, Size(g))
    requires forall v :: 0 <= v < Size(g) ==> 0 <= mate[v] < Size(g) && mate[mate[v]] == v
    requires forall v :: 0 <= v < Size(g) ==> 0 <= mate'[v] < Size(g) && mate'[mate'[v]] == v
    ensures forall q :: 0 <= q < p ==> mate[perm[q]] == mate'[perm[q]]
  {
    if p > 0 {
      var t := p - 1;
      PicksDetermine(g, perm, mate, mate', limit, heavy, t);
      assert forall v: nat :: FreeAt(Size(g), perm, mate, t, v) <==> FreeAt(Size(g), perm, mate', t, v);
      if FreeAt(Size(g), perm, mate, t, perm[t]) {
        PickIsUnique(g, perm, mate, mate', limit, heavy, t);
      }
    }
  }

  /** The way of picking determines the matching: two that come about in this way are the same. */
  lemma MatchingIsDetermined(g: Valid, perm: seq<nat>, mate: seq<int>, mate': seq<int>, limit: Limit, heavy: bool)
    requires Permutation(Size(g), perm) && |mate| == |mate'| == Size(g)
    requires Picks(g, perm, mate, limit, heavy, 0, Size(g)) && Picks(g, perm, mate', limit, heavy, 0, Size(g))
    requires forall v :: 0 <= v < Size(g) ==> 0 <= mate[v] < Size(g) && mate[mate[v]] == v
    requires forall v :: 0 <= v < Size(g) ==> 0 <= mate'[v] < Size(g) && mate'[mate'[v]] == v
    ensures mate == mate'
  {
    PicksDetermine(g, perm, mate, mate', limit, heavy, Size(g));
    forall v | 0 <= v < Size(g) ensures mate[v] == mate'[v] {
      assert v in perm;
    }
  }

  lemma PickIsUnique(g: Valid, perm: seq<nat>, mate: seq<int>, mate': seq<int>, limit: Limit, heavy: bool, p: nat)
    requires Permutation(Size(g), perm) && |mate| == |mate'| == Size(g) && p < Size(g)
    requires PicksAt(g, perm, mate, limit, heavy, p) && PicksAt(g, perm, mate', limit, heavy, p)
    requires forall v: nat :: FreeAt(Size(g), perm, mate, p, v) <==> FreeAt(Size(g), perm, mate', p, v)
    requires FreeAt(Size(g), perm, mate, p, perm[p])
    ensures mate[perm[p]] == mate'[perm[p]]
  {
    var u := perm[p];
    var m: nat, m': nat := mate[u], mate'[u];
    assert forall v: nat :: v < Size(g) ==> (Available(g, perm, mate, limit, p, v) <==> Available(g, perm, mate', limit, p, v));
    if m != u || m' != u {
      assert m != u && m' != u && Preferred(g, u, m, m', heavy) && Preferred(g, u, m', m, heavy);
      var j :| Lists(g, u, j, m);
      var k :| Lists(g, u, k, m');
    }
  }

  // ----- What a turn keeps

  /** A vertex left alone has no neighbour that fits and is not matched to a third vertex. */
  ghost predicate Lonely(g: Graph, mate: seq<int>, limit: Limit)
    requires Csr(g) && |mate| == Size(g)
  {
    forall u: nat, v: nat :: u < Size(g) && v < Size(g) && mate[u] == u && Adjacent(g, u, v) && Fits(g, u, v, limit) ==>
      mate[v] != UNMATCHED && mate[v] != v
  }

  /** The state of the matching after `ii` turns, whatever the way of picking. */
  ghost predicate Going(g: Graph, perm: seq<nat>, mate: seq<int>, limit: Limit, islands: bool, ii: nat)
    requires Csr(g) && Permutation(Size(g), perm) && |mate| == Size(g) && ii <= Size(g)
  {
    Accounted(Size(g), perm, mate, ii) && Lonely(g, mate, limit) && PairsFit(g, mate, limit, islands)
  }

  /** Pairing with a free neighbour, or with nobody when there is none, leaves nobody alone needlessly. */
  lemma LonelyStep(g: Valid, before: seq<int>, i: nat, m: nat, limit: Limit)
    requires |before| == Size(g) && i < Size(g) && m < Size(g) && Lonely(g, before, limit)
    requires before[i] == UNMATCHED && before[m] == UNMATCHED
    requires m == i ==> forall v: nat :: v < Size(g) && Adjacent(g, i, v) && Fits(g, i, v, limit) ==> before[v] != UNMATCHED
    ensures Lonely(g, before[i := m][m := i], limit)
  {
    var mate := before[i := m][m := i];
    forall u: nat, v: nat | u < Size(g) && v < Size(g) && mate[u] == u && Adjacent(g, u, v) && Fits(g, u, v, limit)
      ensures mate[v] != UNMATCHED && mate[v] != v
    {
      WSymmetric(g, u, v);
      WSymmetric(g, u, u);
    }
  }

  lemma PairsFitStep(g: Valid, before: seq<int>, i: nat, m: nat, limit: Limit, islands: bool)
    requires |before| == Size(g) && i < Size(g) && m < Size(g) && PairsFit(g, before, limit, islands)
    requires m != i ==> (Adjacent(g, i, m) && Fits(g, i, m, limit)) || (islands && Isolated(g, i))
    ensures PairsFit(g, before[i := m][m := i], limit, islands)
  {
    WSymmetric(g, i, m);
  }

  /** What the vertex at place `ii` may be paired with: the preferred one of the unmatched neighbours that fit. */
  ghost predicate Choice(g: Graph, perm: seq<nat>, before: seq<int>, limit: Limit, heavy: bool, ii: nat, m: nat)
    requires Csr(g) && Permutation(Size(g), perm) && |before| == Size(g) && ii < Size(g)
  {
    var u := perm[ii];
    && m < Size(g) && before[m] == UNMATCHED && (m != u ==> Adjacent(g, u, m) && Fits(g, u, m, limit))
    && forall v: nat :: v < Size(g) && Adjacent(g, u, v) && before[v] == UNMATCHED && Fits(g, u, v, limit) ==>
         m != u && Preferred(g, u, m, v, heavy)
  }

  lemma ChoiceIsPick(g: Valid, perm: seq<nat>, before: seq<int>, limit: Limit, heavy: bool, ii: nat, m: nat)
    requires Permutation(Size(g), perm) && |before| == Size(g) && ii < Size(g) && Accounted(Size(g), perm, before, ii)
    requires before[perm[ii]] == UNMATCHED && Choice(g, perm, before, limit, heavy, ii, m)
    ensures PicksAt(g, perm, before[perm[ii] := m][m := perm[ii]], limit, heavy, ii)
  {
    FreeKept(Size(g), perm, before, ii, m);
  }

  lemma PicksOn(g: Valid, perm: seq<nat>, before: seq<int>, limit: Limit, heavy: bool, start: nat, ii: nat, next: nat, m: nat)
    requires Permutation(Size(g), perm) && |before| == Size(g) && start <= ii < Size(g) && next == ii + 1
    requires Accounted(Size(g), perm, before, ii) && before[perm[ii]] == UNMATCHED && Choice(g, perm, before, limit, heavy, ii, m)
    requires Picks(g, perm, before, limit, heavy, start, ii)
    ensures Picks(g, perm, before[perm[ii] := m][m := perm[ii]], limit, heavy, start, next)
  {
    PicksKept(g, perm, before, limit, heavy, start, ii, m);
    ChoiceIsPick(g, perm, before, limit, heavy, ii, m);
  }

  lemma GoingOn(g: Valid, perm: seq<nat>, before: seq<int>, cmap: seq<int>, cn: nat, limit: Limit, islands: bool, ii: nat, next: nat, m: nat)
    requires Permutation(Size(g), perm) && ii < Size(g) && next == ii + 1 && Paired(Size(g), before, cmap, cn)
    requires Going(g, perm, before, limit, islands, ii) && m < Size(g) && before[perm[ii]] == UNMATCHED && before[m] == UNMATCHED
    requires m == perm[ii] ==> forall v: nat :: v < Size(g) && Adjacent(g, m, v) && Fits(g, m, v, limit) ==> before[v] != UNMATCHED
    requires m != perm[ii] ==> (Adjacent(g, perm[ii], m) && Fits(g, perm[ii], m, limit)) || (islands && Isolated(g, perm[ii]))
    ensures Going(g, perm, before[perm[ii] := m][m := perm[ii]], limit, islands, next)
  {
    AccountedStep(Size(g), perm, before, cmap, cn, ii, next, m);
    LonelyStep(g, before, perm[ii], m, limit);
    PairsFitStep(g, before, perm[ii], m, limit, islands);
  }

  /** An island has been paired with the last free vertex that has neighbours, or with itself. */
  lemma IslandsOn(g: Valid, perm: seq<nat>, before: seq<int>, ii: nat, next: nat, at: nat)
    requires Permutation(Size(g), perm) && |before| == Size(g) && ii <= at < Size(g) && next == ii + 1 && Isolated(g, perm[ii])
    requires Accounted(Size(g), perm, before, ii) && before[perm[ii]] == UNMATCHED && before[perm[at]] == UNMATCHED
    requires (at != ii ==> !Isolated(g, perm[at])) && Islands(g, perm, before, ii)
    requires forall q :: at < q < Size(g) && before[perm[q]] == UNMATCHED ==> Isolated(g, perm[q])
    ensures Islands(g, perm, before[perm[ii] := perm[at]][perm[at] := perm[ii]], next)
  {
    var after := before[perm[ii] := perm[at]][perm[at] := perm[ii]];
    FreeKept(Size(g), perm, before, ii, perm[at]);
    IslandsStay(g, perm, before, after, ii);
    assert IslandTakes(g, perm, after, ii, at);
  }

  class Matcher {
    const g: Valid
    const mate: array<int>
    const cmap: array<int>
    var cnvtxs: nat

    constructor (g: Valid, cmap: array<int>)
      requires cmap.Length == Size(g)
      ensures this.g == g && this.cmap == cmap && fresh(mate) && mate.Length == Size(g) && cnvtxs == 0
      ensures forall v :: 0 <= v < Size(g) ==> mate[v] == UNMATCHED
    {
      this.g, this.cmap, cnvtxs := g, cmap, 0;
      mate := new int[|g.vwgt|](_ => UNMATCHED);
    }

    ghost predicate Shape()
    {
      mate.Length == cmap.Length == Size(g) && mate != cmap
    }

    ghost predicate Visited(perm: seq<nat>, ii: nat)
      requires Shape() && Permutation(Size(g), perm) && ii <= Size(g)
      reads mate, cmap, this`cnvtxs
    {
      VisitedUpTo(Size(g), perm, mate[..], cmap[..], cnvtxs, ii)
    }

    /** Match the vertex at position `ii` of the permutation with `maxidx`. */
    method Pair(ghost perm: seq<nat>, ghost ii: nat, i: nat, maxidx: nat)
      requires Shape() && Permutation(Size(g), perm) && ii < Size(g) && Visited(perm, ii) && i == perm[ii]
      requires maxidx < Size(g) && mate[i] == UNMATCHED && mate[maxidx] == UNMATCHED
      modifies mate, cmap, this`cnvtxs
      ensures Visited(perm, ii + 1)
      ensures mate[..] == old(mate[..])[i := maxidx][maxidx := i]
    {
      VisitedStep(Size(g), perm, mate[..], cmap[..], cnvtxs, ii, maxidx);
      cmap[i], cmap[maxidx] := cnvtxs, cnvtxs;
      cnvtxs := cnvtxs + 1;
      mate[i] := maxidx;
      mate[maxidx] := i;
      assert mate[..] == old(mate[..])[i := maxidx][maxidx := i];
      assert cmap[..] == old(cmap[..])[i := old(cnvtxs)][maxidx := old(cnvtxs)];
    }

    /** A vertex that was matched before its turn is passed over. */
    lemma Skip(perm: seq<nat>, ii: nat)
      requires Shape() && Permutation(Size(g), perm) && ii < Size(g) && Visited(perm, ii) && mate[perm[ii]] != UNMATCHED
      requires Accounted(Size(g), perm, mate[..], ii)
      ensures Visited(perm, ii + 1) && Accounted(Size(g), perm, mate[..], ii + 1)
      ensures !FreeAt(Size(g), perm, mate[..], ii, perm[ii])
    {
      AccountedSkip(Size(g), perm, mate[..], cmap[..], cnvtxs, ii, ii + 1);
      AllOccurStep(perm, cmap[..], cmap[..], ii, cnvtxs);
      InOrderStep(perm, cmap[..], cmap[..], ii, cnvtxs);
    }

    lemma Finish(perm: seq<nat>, limit: Limit)
      requires Shape() && Permutation(Size(g), perm) && Visited(perm, Size(g)) && Lonely(g, mate[..], limit)
      ensures Contracts(Size(g), mate[..], cmap[..], cnvtxs) && InOrder(perm, cmap[..], Size(g))
      ensures Maximal(g, mate[..], limit)
    {
      forall v | 0 <= v < Size(g) ensures mate[..][v] != UNMATCHED {
        assert v in perm;
      }
      forall c | 0 <= c < cnvtxs ensures c in cmap[..] {
        assert Occurs(perm, cmap[..], Size(g), c);
      }
    }

    ghost predicate Free(i: nat, v: nat, limit: Limit)
      requires Shape() && i < Size(g) && v < Size(g)
      reads mate
    {
      mate[v] == UNMATCHED && Fits(g, i, v, limit)
    }

    lemma FirstIsPreferred(i: nat, j: int, limit: Limit)
      requires Shape() && i < Size(g) && Slot(g, i, j) && forall k :: g.xadj[i] <= k < j ==> !Free(i, g.adjncy[k], limit)
      ensures forall v: nat :: v < Size(g) && Free(i, v, limit) ==> Preferred(g, i, g.adjncy[j], v, false)
    {
      forall v: nat, a, b | v < Size(g) && Free(i, v, limit) && Lists(g, i, a, g.adjncy[j]) && Lists(g, i, b, v) ensures a <= b {
        assert Lists(g, i, j, g.adjncy[j]);
      }
    }

    /** The first neighbour that is free and fits, or the vertex itself. */
    method FirstFree(i: nat, limit: Limit) returns (maxidx: nat)
      requires Shape() && i < Size(g)
      ensures maxidx < Size(g)
      ensures maxidx != i ==> Adjacent(g, i, maxidx) && Free(i, maxidx, limit)
      ensures forall v: nat :: v < Size(g) && Adjacent(g, i, v) && Free(i, v, limit) ==> maxidx != i && Preferred(g, i, maxidx, v, false)
    {
      for j := g.xadj[i] to g.xadj[i + 1]
        invariant forall k :: g.xadj[i] <= k < j ==> !Free(i, g.adjncy[k], limit)
      {
        if mate[g.adjncy[j]] == UNMATCHED && Fits(g, i, g.adjncy[j], limit) {
          SlotWeight(g, i, j);
          FirstIsPreferred(i, j, limit);
          return g.adjncy[j];
        }
      }
      return i;
    }

    /** The free neighbour that fits with the heaviest edge, or the vertex itself. */
    method HeaviestFree(i: nat, limit: Limit) returns (maxidx: nat)
      requires Shape() && i < Size(g)
      ensures maxidx < Size(g)
      ensures maxidx != i ==> Adjacent(g, i, maxidx) && Free(i, maxidx, limit)
      ensures forall v: nat :: v < Size(g) && Adjacent(g, i, v) && Free(i, v, limit) ==>
        maxidx != i && W(g, i, v) <= W(g, i, maxidx) && Preferred(g, i, maxidx, v, true)
    {
      maxidx := i;
      var maxwgt := 0;
      ghost var at: int := g.xadj[i];
      for j := g.xadj[i] to g.xadj[i + 1]
        invariant maxidx < Size(g) && maxwgt >= 0 && (maxidx == i <==> maxwgt == 0)
        invariant maxidx != i ==> at < j && Lists(g, i, at, maxidx) && Free(i, maxidx, limit) && g.adjwgt[at] == maxwgt
        invariant forall k :: g.xadj[i] <= k < j && Free(i, g.adjncy[k], limit) ==>
          g.adjwgt[k] < maxwgt || (g.adjwgt[k] == maxwgt && at <= k)
      {
        SlotWeight(g, i, j);
        var k := g.adjncy[j];
        if mate[k] == UNMATCHED && maxwgt < g.adjwgt[j] && Fits(g, i, k, limit) {
          maxwgt, maxidx, at := g.adjwgt[j], k, j;
        }
      }
      forall v: nat | v < Size(g) && Adjacent(g, i, v) && Free(i, v, limit)
        ensures maxidx != i && W(g, i, v) <= W(g, i, maxidx) && Preferred(g, i, maxidx, v, true)
      {
        var k :| Lists(g, i, k, v);
        SlotWeight(g, i, k);
        SlotWeight(g, i, at);
      }
    }

    /** The vertex to pair `i` with: the first free neighbour, or the heaviest with `heavy`. */
    method Choose(ghost perm: seq<nat>, ghost ii: nat, i: nat, limit: Limit, heavy: bool) returns (maxidx: nat)
      requires Shape() && Permutation(Size(g), perm) && ii < Size(g) && i == perm[ii] && mate[i] == UNMATCHED
      ensures Choice(g, perm, mate[..], limit, heavy, ii, maxidx)
    {
      if heavy { maxidx := HeaviestFree(i, limit); } else { maxidx := FirstFree(i, limit); }
    }

    /** The turns before `ii` have been taken: the numbering, the matching and the way it came about. */
    ghost predicate Turns(perm: seq<nat>, ii: nat, limit: Limit, heavy: bool, islands: bool, start: nat)
      requires Shape() && Permutation(Size(g), perm) && ii <= Size(g)
      reads mate, cmap, this`cnvtxs
    {
      Visited(perm, ii) && Going(g, perm, mate[..], limit, islands, ii) && Picks(g, perm, mate[..], limit, heavy, start, ii)
    }

    lemma SkipTurn(perm: seq<nat>, ii: nat, limit: Limit, heavy: bool, islands: bool, start: nat)
      requires Shape() && Permutation(Size(g), perm) && start <= ii < Size(g) && Turns(perm, ii, limit, heavy, islands, start)
      requires mate[perm[ii]] != UNMATCHED
      ensures Turns(perm, ii + 1, limit, heavy, islands, start)
    {
      Skip(perm, ii);
      assert PicksAt(g, perm, mate[..], limit, heavy, ii);
    }

    /** One vertex of Match_RM and Match_RM_NVW, or of Match_HEM with `heavy`. */
    method MatchOne(perm: seq<nat>, ii: nat, limit: Limit, heavy: bool, ghost islands: bool, ghost start: nat)
      requires Shape() && Permutation(Size(g), perm) && start <= ii < Size(g) && Turns(perm, ii, limit, heavy, islands, start)
      modifies mate, cmap, this`cnvtxs
      ensures Turns(perm, ii + 1, limit, heavy, islands, start)
      ensures SameMates(Size(g), perm, old(mate[..]), mate[..], ii)
    {
      var i := perm[ii];
      if mate[i] != UNMATCHED {
        SkipTurn(perm, ii, limit, heavy, islands, start);
        return;
      }
      var maxidx := Choose(perm, ii, i, limit, heavy);
      GoingOn(g, perm, mate[..], cmap[..], cnvtxs, limit, islands, ii, ii + 1, maxidx);
      PicksOn(g, perm, mate[..], limit, heavy, start, ii, ii + 1, maxidx);
      Pair(perm, ii, i, maxidx);
    }

    ghost predicate Untouched()
      requires Shape()
      reads mate, this`cnvtxs
    {
      cnvtxs == 0 && forall v :: 0 <= v < Size(g) ==> mate[v] == UNMATCHED
    }

    /** Match_RM and, with no limit, Match_RM_NVW; Match_HEM with `heavy`. */
    method Match(perm: seq<nat>, limit: Limit, heavy: bool)
      requires Shape() && Permutation(Size(g), perm) && Untouched()
      modifies mate, cmap, this`cnvtxs
      ensures Contracts(Size(g), mate[..], cmap[..], cnvtxs) && InOrder(perm, cmap[..], Size(g))
      ensures Maximal(g, mate[..], limit) && PairsFit(g, mate[..], limit, false)
      ensures Picks(g, perm, mate[..], limit, heavy, 0, Size(g))
    {
      for ii := 0 to Size(g)
        invariant Turns(perm, ii, limit, heavy, false, 0)
      {
        MatchOne(perm, ii, limit, heavy, false, 0);
      }
      Finish(perm, limit);
    }

    /** The last free vertex of the permutation that has neighbours, or the vertex at `ii` itself. */
    method LastFree(perm: seq<nat>, ii: nat) returns (maxidx: nat, ghost at: nat)
      requires Shape() && Permutation(Size(g), perm) && ii < Size(g)
      ensures ii <= at < Size(g) && maxidx == perm[at] && (at != ii ==> mate[maxidx] == UNMATCHED && !Isolated(g, maxidx))
      ensures forall q :: at < q < Size(g) && mate[perm[q]] == UNMATCHED ==> Isolated(g, perm[q])
    {
      var j := Size(g) - 1;
      while j > ii
        invariant ii <= j < Size(g)
        invariant forall q :: j < q < Size(g) && mate[perm[q]] == UNMATCHED ==> Isolated(g, perm[q])
      {
        var k := perm[j];
        if mate[k] == UNMATCHED && g.xadj[k] < g.xadj[k + 1] { return k, j; }
        j := j - 1;
      }
      return perm[ii], ii;
    }

    /** The turns before `ii` have been taken by islands. */
    ghost predicate IslandTurns(perm: seq<nat>, ii: nat, limit: Limit)
      requires Shape() && Permutation(Size(g), perm) && ii <= Size(g)
      reads mate, cmap, this`cnvtxs
    {
      Visited(perm, ii) && Going(g, perm, mate[..], limit, true, ii) && Islands(g, perm, mate[..], ii)
    }

    lemma SkipIsland(perm: seq<nat>, ii: nat, limit: Limit)
      requires Shape() && Permutation(Size(g), perm) && ii < Size(g) && IslandTurns(perm, ii, limit) && mate[perm[ii]] != UNMATCHED
      ensures IslandTurns(perm, ii + 1, limit)
    {
      Skip(perm, ii);
      assert IslandAt(g, perm, mate[..], ii);
    }

    lemma IslandTurn(perm: seq<nat>, ii: nat, next: nat, limit: Limit, at: nat)
      requires Shape() && Permutation(Size(g), perm) && ii <= at < Size(g) && next == ii + 1 && IslandTurns(perm, ii, limit)
      requires mate[perm[ii]] == UNMATCHED && mate[perm[at]] == UNMATCHED && Isolated(g, perm[ii])
      requires at != ii ==> !Isolated(g, perm[at])
      requires forall q :: at < q < Size(g) && mate[perm[q]] == UNMATCHED ==> Isolated(g, perm[q])
      ensures var after := mate[..][perm[ii] := perm[at]][perm[at] := perm[ii]];
        Going(g, perm, after, limit, true, next) && Islands(g, perm, after, next)
    {
      GoingOn(g, perm, mate[..], cmap[..], cnvtxs, limit, true, ii, next, perm[at]);
      IslandsOn(g, perm, mate[..], ii, next, at);
    }

    /** One vertex of the first phase of Match_SHEM; stops at the first free vertex with neighbours. */
    method MatchIsland(perm: seq<nat>, ii: nat, limit: Limit) returns (stop: bool)
      requires Shape() && Permutation(Size(g), perm) && ii < Size(g)
      requires IslandTurns(perm, ii, limit)
      modifies mate, cmap, this`cnvtxs
      ensures IslandTurns(perm, if stop then ii else ii + 1, limit)
      ensures stop ==> FreeAt(Size(g), perm, mate[..], ii, perm[ii]) && !Isolated(g, perm[ii])
    {
      var i := perm[ii];
      if mate[i] != UNMATCHED {
        SkipIsland(perm, ii, limit);
        return false;
      }
      if g.xadj[i] < g.xadj[i + 1] { return true; }
      var maxidx, at := LastFree(perm, ii);
      IslandTurn(perm, ii, ii + 1, limit, at);
      Pair(perm, ii, i, maxidx);
      stop := false;
    }

    /** The first phase of Match_SHEM. */
    method MatchIslands(perm: seq<nat>, limit: Limit) returns (ii: nat)
      requires Shape() && Permutation(Size(g), perm) && IslandTurns(perm, 0, limit)
      modifies mate, cmap, this`cnvtxs
      ensures ii <= Size(g) && IslandTurns(perm, ii, limit)
      ensures ii < Size(g) ==> FreeAt(Size(g), perm, mate[..], ii, perm[ii]) && !Isolated(g, perm[ii])
    {
      ii := 0;
      while ii < Size(g)
        invariant ii <= Size(g) && IslandTurns(perm, ii, limit)
      {
        var stop := MatchIsland(perm, ii, limit);
        if stop { return; }
        ii := ii + 1;
      }
    }

    /** The second phase of Match_SHEM. */
    method MatchRest(perm: seq<nat>, start: nat, limit: Limit)
      requires Shape() && Permutation(Size(g), perm) && start <= Size(g) && Turns(perm, start, limit, true, true, start)
      modifies mate, cmap, this`cnvtxs
      ensures Turns(perm, Size(g), limit, true, true, start)
      ensures SameMates(Size(g), perm, old(mate[..]), mate[..], start)
    {
      ghost var before := mate[..];
      var ii := start;
      while ii < Size(g)
        invariant start <= ii <= Size(g) && Turns(perm, ii, limit, true, true, start)
        invariant SameMates(Size(g), perm, before, mate[..], start)
      {
        MatchOne(perm, ii, limit, true, true, start);
        ii := ii + 1;
      }
    }

    /** Match_SHEM, on the permutation that the bucket sort gave. */
    method MatchSHEM(perm: seq<nat>, limit: Limit) returns (ghost start: nat)
      requires Shape() && Permutation(Size(g), perm) && Untouched()
      modifies mate, cmap, this`cnvtxs
      ensures Contracts(Size(g), mate[..], cmap[..], cnvtxs) && InOrder(perm, cmap[..], Size(g))
      ensures Maximal(g, mate[..], limit) && PairsFit(g, mate[..], limit, true)
      ensures PicksSorted(g, perm, mate[..], limit, start)
    {
      var ii := MatchIslands(perm, limit);
      ghost var before := mate[..];
      MatchRest(perm, ii, limit);
      IslandsStay(g, perm, before, mate[..], ii);
      start := ii;
      Finish(perm, limit);
    }
  }

  lemma OccursStep(perm: seq<nat>, before: seq<int>, after: seq<int>, ii: nat, c: int)
    requires ii < |perm| && |before| == |after| && forall j :: 0 <= j < |perm| ==> perm[j] < |after|
    requires forall j :: 0 <= j < ii ==> before[perm[j]] == after[perm[j]]
    requires Occurs(perm, before, ii, c) || after[perm[ii]] == c
    ensures Occurs(perm, after, ii + 1, c)
  {
    if Occurs(perm, before, ii, c) {
      var j :| 0 <= j < ii && perm[j] < |before| && before[perm[j]] == c;
      assert after[perm[j]] == c;
    }
  }

  lemma AllOccurStep(perm: seq<nat>, before: seq<int>, after: seq<int>, ii: nat, cn: nat)
    requires ii < |perm| && |before| == |after| && forall j :: 0 <= j < |perm| ==> perm[j] < |after|
    requires forall j :: 0 <= j < ii ==> before[perm[j]] == after[perm[j]]
    requires forall c :: 0 <= c < cn ==> Occurs(perm, before, ii, c) || after[perm[ii]] == c
    ensures AllOccur(perm, after, ii + 1, cn)
  {
    var next := ii + 1;
    forall c | 0 <= c < cn ensures Occurs(perm, after, next, c) {
      OccursStep(perm, before, after, ii, c);
    }
  }

  lemma InOrderStep(perm: seq<nat>, before: seq<int>, after: seq<int>, ii: nat, cn: nat)
    requires ii < |perm| && |before| == |after| && forall j :: 0 <= j < |perm| ==> perm[j] < |after|
    requires forall j :: 0 <= j < ii ==> before[perm[j]] == after[perm[j]]
    requires InOrder(perm, before, ii) && after[perm[ii]] <= cn && AllOccur(perm, before, ii, cn)
    ensures InOrder(perm, after, ii + 1)
  {
    forall i, c | 0 <= i < ii + 1 && 0 <= c < after[perm[i]] ensures Occurs(perm, after, i, c) {
      assert Occurs(perm, before, i, c);
      var j :| 0 <= j < i && perm[j] < |before| && before[perm[j]] == c;
      assert after[perm[j]] == c;
    }
  }
}
