/**
 Communication volume: every vertex is sent once to each part, other than its own, that holds one of its
 neighbours. The module defines the volume from scratch, defines the gain of a move exactly as
 ComputeKWayVolGains accumulates it, and proves that the gain is the change of the volume.
 */
module Volume {
  import opened Graphs

  /** The number of neighbours of `u` below `k` in part `p`. */
  ghost function Count(g: Valid, where: seq<int>, u: nat, p: int, k: nat): nat
    requires Partition(g, where) && u < Size(g) && k <= Size(g)
  {
    if k == 0 then 0 else Count(g, where, u, p, k - 1) + if Adjacent(g, u, k - 1) && where[k - 1] == p then 1 else 0
  }

  ghost function Ned(g: Valid, where: seq<int>, u: nat, p: int): nat
    requires Partition(g, where) && u < Size(g)
  {
    Count(g, where, u, p, Size(g))
  }

  /** What `u` costs towards the parts below `m`. */
  ghost function VolOf(g: Valid, where: seq<int>, u: nat, m: nat): int
    requires Partition(g, where) && u < Size(g)
  {
    if m == 0 then 0
    else VolOf(g, where, u, m - 1) + if m - 1 != where[u] && Ned(g, where, u, m - 1) > 0 then g.vsize[u] else 0
  }

  /** The volume of the vertices below `k`, over `nparts` parts. */
  ghost function VolumeUpTo(g: Valid, where: seq<int>, nparts: nat, k: nat): int
    requires Partition(g, where) && k <= Size(g)
  {
    if k == 0 then 0 else VolumeUpTo(g, where, nparts, k - 1) + VolOf(g, where, k - 1, nparts)
  }

  ghost function TotalVolume(g: Valid, where: seq<int>, nparts: nat): int
    requires Partition(g, where)
  {
    VolumeUpTo(g, where, nparts, Size(g))
  }

  /** What the move of a vertex out of part `me` to part `p` gains on a neighbour that sits in part `own`,
      has size `vs`, and has `n(q)` neighbours in part `q`. */
  ghost function Contribution(vs: int, me: int, own: int, n: int -> int, p: int): int
  {
    if me == own || n(me) != 1 then (if p == own || n(p) > 0 then 0 else -vs)
    else (if p == own || n(p) > 0 then vs else 0)
  }

  /** The gain of moving `u` to part `p`, from its neighbours below `k`. */
  ghost function GainUpTo(g: Valid, where: seq<int>, u: nat, p: int, k: nat): int
    requires Partition(g, where) && u < Size(g) && k <= Size(g)
  {
    if k == 0 then 0
    else
      GainUpTo(g, where, u, p, k - 1)
      + if Adjacent(g, u, k - 1) then Contribution(g.vsize[k - 1], where[u], where[k - 1], Neds(g, where, k - 1), p) else 0
  }

  ghost function Neds(g: Valid, where: seq<int>, u: nat): int -> int
    requires Partition(g, where) && u < Size(g)
  {
    q => Ned(g, where, u, q)
  }

  ghost function Gain(g: Valid, where: seq<int>, u: nat, p: int): int
    requires Partition(g, where) && u < Size(g)
  {
    GainUpTo(g, where, u, p, Size(g))
  }

  /** A vertex none of whose neighbours shares its part saves its own size by joining one of them. */
  ghost function OwnGain(g: Valid, where: seq<int>, u: nat): int
    requires Partition(g, where) && u < Size(g)
  {
    if DegTo(g, where, u, where[u]) == 0 then g.vsize[u] else 0
  }

  // ----- Counts

  lemma {:induction false} CountSign(g: Valid, where: seq<int>, u: nat, p: int, k: nat)
    requires Partition(g, where) && u < Size(g) && k <= Size(g)
    ensures Count(g, where, u, p, k) > 0 <==> Deg(g, where, u, p, k) > 0
    ensures Deg(g, where, u, p, k) >= 0
  {
    if k > 0 {
      CountSign(g, where, u, p, k - 1);
      WSymmetric(g, u, k - 1);
    }
  }

  lemma {:induction false} CountMember(g: Valid, where: seq<int>, u: nat, p: int, k: nat, v: nat)
    requires Partition(g, where) && u < Size(g) && v < k <= Size(g) && Adjacent(g, u, v) && where[v] == p
    ensures Count(g, where, u, p, k) >= 1
  {
    if v < k - 1 {
      CountMember(g, where, u, p, k - 1, v);
    }
  }

  lemma {:induction false} CountTwo(g: Valid, where: seq<int>, u: nat, p: int, k: nat, v: nat, w: nat)
    requires Partition(g, where) && u < Size(g) && v < w < k <= Size(g)
    requires Adjacent(g, u, v) && Adjacent(g, u, w) && where[v] == where[w] == p
    ensures Count(g, where, u, p, k) >= 2
  {
    if w < k - 1 {
      CountTwo(g, where, u, p, k - 1, v, w);
    } else {
      CountMember(g, where, u, p, k - 1, v);
    }
  }

  lemma {:induction false} CountWitness(g: Valid, where: seq<int>, u: nat, p: int, k: nat) returns (v: nat)
    requires Partition(g, where) && u < Size(g) && k <= Size(g) && Count(g, where, u, p, k) > 0
    ensures v < k && Adjacent(g, u, v) && where[v] == p
  {
    if Adjacent(g, u, k - 1) && where[k - 1] == p {
      v := k - 1;
    } else {
      v := CountWitness(g, where, u, p, k - 1);
    }
  }

  lemma {:induction false} MoveCount(g: Valid, where: seq<int>, x: nat, q: int, u: nat, p: int, k: nat)
    requires Partition(g, where) && x < Size(g) && u < Size(g) && k <= Size(g) && where[x] != q
    ensures Count(g, where[x := q], u, p, k) == Count(g, where, u, p, k)
      + if x < k && Adjacent(g, u, x) then (if p == q then 1 else 0) - (if p == where[x] then 1 else 0) else 0
  {
    if k > 0 {
      MoveCount(g, where, x, q, u, p, k - 1);
    }
  }

  // ----- The gain is the change of the volume

  /** A vertex that is not adjacent to the moved one keeps its cost. */
  lemma {:induction false} MoveVolOfStranger(g: Valid, where: seq<int>, x: nat, q: int, u: nat, m: nat)
    requires Partition(g, where) && x < Size(g) && u < Size(g) && where[x] != q && u != x && !Adjacent(g, u, x)
    ensures VolOf(g, where[x := q], u, m) == VolOf(g, where, u, m)
  {
    if m > 0 {
      MoveVolOfStranger(g, where, x, q, u, m - 1);
      MoveCount(g, where, x, q, u, m - 1, Size(g));
    }
  }

  ghost function Bit(b: bool, value: int): int
  {
    if b then value else 0
  }

  lemma {:induction false} MoveVolOfNeighbour(g: Valid, where: seq<int>, x: nat, q: int, u: nat, m: nat)
    requires Partition(g, where) && x < Size(g) && u < Size(g) && where[x] != q && Adjacent(g, u, x)
    requires 0 <= where[x] && 0 <= q
    ensures u != x
    ensures VolOf(g, where, u, m) - VolOf(g, where[x := q], u, m) ==
      Bit(where[x] < m && where[x] != where[u] && Ned(g, where, u, where[x]) == 1, g.vsize[u])
      - Bit(q < m && q != where[u] && Ned(g, where, u, q) == 0, g.vsize[u])
  {
    WSymmetric(g, u, x);
    if m > 0 {
      MoveVolOfNeighbour(g, where, x, q, u, m - 1);
      MoveCount(g, where, x, q, u, m - 1, Size(g));
      if m - 1 == where[x] {
        CountMember(g, where, u, where[x], Size(g), x);
      }
    }
  }

  lemma {:induction false} MoveVolOfSelf(g: Valid, where: seq<int>, x: nat, q: int, m: nat)
    requires Partition(g, where) && x < Size(g) && where[x] != q && 0 <= where[x] && 0 <= q && Ned(g, where, x, q) > 0
    ensures VolOf(g, where, x, m) - VolOf(g, where[x := q], x, m) ==
      Bit(q < m, g.vsize[x]) - Bit(where[x] < m && Ned(g, where, x, where[x]) > 0, g.vsize[x])
  {
    WSymmetric(g, x, x);
    if m > 0 {
      MoveVolOfSelf(g, where, x, q, m - 1);
      MoveCount(g, where, x, q, x, m - 1, Size(g));
    }
  }

  lemma {:induction false} MoveVolume(g: Valid, where: seq<int>, x: nat, q: int, nparts: nat, k: nat)
    requires Partition(g, where) && x < Size(g) && k <= Size(g)
    requires 0 <= where[x] < nparts && 0 <= q < nparts && where[x] != q && Ned(g, where, x, q) > 0
    ensures VolumeUpTo(g, where, nparts, k) - VolumeUpTo(g, where[x := q], nparts, k) ==
      GainUpTo(g, where, x, q, k) + if x < k then OwnGain(g, where, x) else 0
  {
    if k > 0 {
      var u := k - 1;
      MoveVolume(g, where, x, q, nparts, u);
      WSymmetric(g, u, x);
      if u == x {
        MoveVolOfSelf(g, where, x, q, nparts);
        CountSign(g, where, x, where[x], Size(g));
      } else if Adjacent(g, u, x) {
        MoveVolOfNeighbour(g, where, x, q, u, nparts);
        CountMember(g, where, u, where[x], Size(g), x);
      } else {
        MoveVolOfStranger(g, where, x, q, u, nparts);
      }
    }
  }

  /**
   Main theorem: for a vertex and a part it touches, the gain the code accumulates plus the saving of the
   vertex itself is the volume before the move minus the volume after it.
   */
  lemma GainIsVolumeChange(g: Valid, where: seq<int>, x: nat, q: int, nparts: nat)
    requires Partition(g, where) && x < Size(g)
    requires 0 <= where[x] < nparts && 0 <= q < nparts && where[x] != q && Ned(g, where, x, q) > 0
    ensures OwnGain(g, where, x) + Gain(g, where, x, q) ==
      TotalVolume(g, where, nparts) - TotalVolume(g, where[x := q], nparts)
  {
    MoveVolume(g, where, x, q, nparts, Size(g));
  }

  // ----- ComputeVolume

  /** The part `p` holds a neighbour of `u` listed before slot `j`. */
  ghost predicate PartSeen(g: Valid, where: seq<int>, u: nat, j: int, p: int)
    requires Partition(g, where) && u < Size(g)
  {
    exists v: nat :: v < Size(g) && Seen(g, u, j, v) && where[v] == p
  }

  /** What `u` costs towards the parts below `m` seen before slot `j`. */
  ghost function SeenVolOf(g: Valid, where: seq<int>, u: nat, j: int, m: nat): int
    requires Partition(g, where) && u < Size(g)
  {
    if m == 0 then 0
    else SeenVolOf(g, where, u, j, m - 1) + if m - 1 != where[u] && PartSeen(g, where, u, j, m - 1) then g.vsize[u] else 0
  }

  lemma PartSeenStep(g: Valid, where: seq<int>, u: nat, j: int, p: int)
    requires Partition(g, where) && u < Size(g) && Slot(g, u, j)
    ensures PartSeen(g, where, u, j + 1, p) <==> PartSeen(g, where, u, j, p) || p == where[g.adjncy[j]]
  {
    SeenStep(g, u, j, g.adjncy[j]);
    if PartSeen(g, where, u, j + 1, p) {
      var v: nat :| v < Size(g) && Seen(g, u, j + 1, v) && where[v] == p;
      SeenStep(g, u, j, v);
    }
    if PartSeen(g, where, u, j, p) {
      var v: nat :| v < Size(g) && Seen(g, u, j, v) && where[v] == p;
      SeenStep(g, u, j, v);
    }
  }

  lemma {:induction false} SeenVolOfStep(g: Valid, where: seq<int>, u: nat, j: int, m: nat)
    requires Partition(g, where) && u < Size(g) && Slot(g, u, j)
    ensures var p := where[g.adjncy[j]];
      SeenVolOf(g, where, u, j + 1, m) == SeenVolOf(g, where, u, j, m)
        + if 0 <= p < m && p != where[u] && !PartSeen(g, where, u, j, p) then g.vsize[u] else 0
  {
    if m > 0 {
      SeenVolOfStep(g, where, u, j, m - 1);
      PartSeenStep(g, where, u, j, m - 1);
    }
  }

  lemma {:induction false} SeenVolOfStart(g: Valid, where: seq<int>, u: nat, m: nat)
    requires Partition(g, where) && u < Size(g)
    ensures SeenVolOf(g, where, u, g.xadj[u], m) == 0
  {
    if m > 0 {
      SeenVolOfStart(g, where, u, m - 1);
      assert !PartSeen(g, where, u, g.xadj[u], m - 1);
    }
  }

  lemma {:induction false} SeenVolOfEnd(g: Valid, where: seq<int>, u: nat, m: nat)
    requires Partition(g, where) && u < Size(g)
    ensures SeenVolOf(g, where, u, g.xadj[u + 1], m) == VolOf(g, where, u, m)
  {
    if m > 0 {
      SeenVolOfEnd(g, where, u, m - 1);
      PartSeenEnd(g, where, u, m - 1);
    }
  }

  /** After all slots, exactly the adjacent parts have been seen. */
  lemma PartSeenEnd(g: Valid, where: seq<int>, u: nat, p: int)
    requires Partition(g, where) && u < Size(g)
    ensures PartSeen(g, where, u, g.xadj[u + 1], p) <==> Ned(g, where, u, p) > 0
  {
    if Ned(g, where, u, p) > 0 {
      var v := CountWitness(g, where, u, p, Size(g));
      SeenEnds(g, u, v);
    }
    if v: nat :| v < Size(g) && Seen(g, u, g.xadj[u + 1], v) && where[v] == p {
      SeenEnds(g, u, v);
      CountMember(g, where, u, p, Size(g), v);
    }
  }

  /** The parts seen before slot `j` of `i`, and the part of `i`, are marked. */
  ghost predicate Marked(g: Valid, where: seq<int>, marker: seq<int>, i: nat, j: int)
    requires Partition(g, where) && i < Size(g)
  {
    forall p :: 0 <= p < |marker| ==> marker[p] <= i && (marker[p] == i <==> p == where[i] || PartSeen(g, where, i, j, p))
  }

  lemma MarkedStep(g: Valid, where: seq<int>, marker: seq<int>, i: nat, j: int)
    requires Partition(g, where) && i < Size(g) && Slot(g, i, j) && Marked(g, where, marker, i, j)
    requires 0 <= where[g.adjncy[j]] < |marker|
    ensures Marked(g, where, marker[where[g.adjncy[j]] := i], i, j + 1)
  {
    var marker' := marker[where[g.adjncy[j]] := i];
    forall p | 0 <= p < |marker'|
      ensures marker'[p] <= i && (marker'[p] == i <==> p == where[i] || PartSeen(g, where, i, j + 1, p))
    {
      assert marker[p] <= i && (marker[p] == i <==> p == where[i] || PartSeen(g, where, i, j, p));
      PartSeenStep(g, where, i, j, p);
    }
  }

  /** One vertex of ComputeVolume. */
  method VertexVolume(g: Valid, where: array<int>, marker: array<int>, i: nat) returns (vol: int)
    requires where.Length == Size(g) && marker != where && i < Size(g)
    requires forall u :: 0 <= u < where.Length ==> 0 <= where[u] < marker.Length
    requires forall p :: 0 <= p < marker.Length ==> marker[p] < i
    modifies marker
    ensures vol == VolOf(g, where[..], i, marker.Length) && forall p :: 0 <= p < marker.Length ==> marker[p] <= i
  {
    ghost var wh := where[..];
    vol := 0;
    marker[where[i]] := i;
    SeenVolOfStart(g, wh, i, marker.Length);
    assert Marked(g, wh, marker[..], i, g.xadj[i]) by {
      assert forall p :: !PartSeen(g, wh, i, g.xadj[i], p);
    }
    for j := g.xadj[i] to g.xadj[i + 1]
      invariant Marked(g, wh, marker[..], i, j) && vol == SeenVolOf(g, wh, i, j, marker.Length)
    {
      SeenVolOfStep(g, wh, i, j, marker.Length);
      MarkedStep(g, wh, marker[..], i, j);
      var k := where[g.adjncy[j]];
      assert marker[..][k] == marker[k];
      ghost var before := marker[..];
      if marker[k] != i {
        marker[k] := i;
        vol := vol + g.vsize[i];
      }
      assert marker[..] == before[k := i];
    }
    SeenVolOfEnd(g, wh, i, marker.Length);
    assert forall p :: 0 <= p < marker.Length ==> marker[..][p] == marker[p];
  }

  /** ComputeVolume, with the number of parts that bounds `where`. */
  method ComputeVolume(g: Valid, where: array<int>, nparts: nat) returns (totalv: int)
    requires where.Length == Size(g) && forall u :: 0 <= u < where.Length ==> 0 <= where[u] < nparts
    ensures totalv == TotalVolume(g, where[..], nparts)
  {
    var marker := new int[nparts](_ => -1);
    totalv := 0;
    for i := 0 to Size(g)
      invariant forall p :: 0 <= p < nparts ==> marker[p] < i
      invariant totalv == VolumeUpTo(g, where[..], nparts, i)
    {
      var vol := VertexVolume(g, where, marker, i);
      totalv := totalv + vol;
    }
  }
}
