/**
 The boundary list of a partitioned graph: `bndind` lists vertices, `bndptr` says where each of them is
 listed, or -1. The two macros that keep them inverse to each other.
 */
module Boundary {
  import Finite

  /** Entry `i` of the list names a vertex that points back to it. */
  ghost predicate Entry(bndind: seq<int>, bndptr: seq<int>, i: nat)
    requires i < |bndind|
  {
    0 <= bndind[i] < |bndptr| && bndptr[bndind[i]] == i
  }

  /** Vertex `u` is not listed, or is listed where it says. */
  ghost predicate Pointer(nbnd: nat, bndind: seq<int>, bndptr: seq<int>, u: nat)
    requires u < |bndptr| && nbnd <= |bndind|
  {
    bndptr[u] == -1 || (0 <= bndptr[u] < nbnd && bndind[bndptr[u]] == u)
  }

  /** `bndind` lists distinct vertices, and `bndptr` says where each of them is listed. */
  ghost predicate Listed(nbnd: nat, bndind: array<int>, bndptr: array<int>)
    requires bndind.Length == bndptr.Length
    reads bndind, bndptr
  {
    && nbnd <= bndind.Length
    && (forall i: nat :: i < nbnd ==> Entry(bndind[..], bndptr[..], i))
    && (forall u: nat :: u < bndptr.Length ==> Pointer(nbnd, bndind[..], bndptr[..], u))
  }

  lemma ListedFacts(nbnd: nat, bndind: array<int>, bndptr: array<int>)
    requires bndind.Length == bndptr.Length && Listed(nbnd, bndind, bndptr)
    ensures forall i :: 0 <= i < nbnd ==> 0 <= bndind[i] < bndptr.Length && bndptr[bndind[i]] == i
    ensures forall u :: 0 <= u < bndptr.Length ==> bndptr[u] == -1 || (0 <= bndptr[u] < nbnd && bndind[bndptr[u]] == u)
  {
    forall i: nat | i < nbnd ensures 0 <= bndind[i] < bndptr.Length && bndptr[bndind[i]] == i {
      assert Entry(bndind[..], bndptr[..], i);
    }
    forall u: nat | u < bndptr.Length ensures bndptr[u] == -1 || (0 <= bndptr[u] < nbnd && bndind[bndptr[u]] == u) {
      assert Pointer(nbnd, bndind[..], bndptr[..], u);
    }
  }

  /** The vertex at place `i` is the only one that points there. */
  lemma ListedAt(nbnd: nat, bndind: array<int>, bndptr: array<int>, i: nat)
    requires bndind.Length == bndptr.Length && Listed(nbnd, bndind, bndptr) && i < nbnd
    ensures 0 <= bndind[i] < bndptr.Length && bndptr[bndind[i]] == i
    ensures forall u :: 0 <= u < bndptr.Length && bndptr[u] == i ==> u == bndind[i]
  {
    ListedFacts(nbnd, bndind, bndptr);
  }

  lemma PointerRange(nbnd: nat, bndind: array<int>, bndptr: array<int>)
    requires bndind.Length == bndptr.Length && Listed(nbnd, bndind, bndptr)
    ensures forall u :: 0 <= u < bndptr.Length ==> -1 <= bndptr[u] < nbnd
  {
    ListedFacts(nbnd, bndind, bndptr);
  }

  /** The first `k` vertices of the list. */
  ghost function Members(bndind: array<int>, k: nat): set<nat>
    requires k <= bndind.Length
    reads bndind
  {
    if k == 0 then {} else Members(bndind, k - 1) + if bndind[k - 1] >= 0 then {bndind[k - 1]} else {}
  }

  lemma {:induction false} MembersCard(nbnd: nat, bndind: array<int>, bndptr: array<int>, k: nat)
    requires bndind.Length == bndptr.Length && Listed(nbnd, bndind, bndptr) && k <= nbnd
    ensures |Members(bndind, k)| == k && forall x <- Members(bndind, k) :: x < bndptr.Length && 0 <= bndptr[x] < k
  {
    if k > 0 {
      ListedAt(nbnd, bndind, bndptr, k - 1);
      MembersCard(nbnd, bndind, bndptr, k - 1);
      assert bndind[k - 1] !in Members(bndind, k - 1);
    }
  }

  /** A list of distinct vertices that misses one is shorter than the number of vertices. */
  lemma RoomFor(nbnd: nat, bndind: array<int>, bndptr: array<int>, v: nat)
    requires bndind.Length == bndptr.Length && Listed(nbnd, bndind, bndptr) && v < bndptr.Length && bndptr[v] == -1
    ensures nbnd < bndind.Length
  {
    MembersCard(nbnd, bndind, bndptr, nbnd);
    Finite.AtMost(bndptr.Length, Members(bndind, nbnd) + {v});
  }

  method BndInsert(nbnd: nat, bndind: array<int>, bndptr: array<int>, v: nat) returns (nbnd': nat)
    requires bndind != bndptr && bndind.Length == bndptr.Length && Listed(nbnd, bndind, bndptr)
    requires v < bndptr.Length && bndptr[v] == -1
    modifies bndptr, bndind
    ensures Listed(nbnd', bndind, bndptr) && bndptr[v] != -1
    ensures forall u :: 0 <= u < bndptr.Length && u != v ==> (bndptr[u] == -1 <==> old(bndptr[u]) == -1)
  {
    RoomFor(nbnd, bndind, bndptr, v);
    ListedFacts(nbnd, bndind, bndptr);
    bndind[nbnd] := v;
    bndptr[v] := nbnd;
    nbnd' := nbnd + 1;
  }

  method BndDelete(nbnd: nat, bndind: array<int>, bndptr: array<int>, v: nat) returns (nbnd': nat)
    requires bndind != bndptr && bndind.Length == bndptr.Length && Listed(nbnd, bndind, bndptr)
    requires v < bndptr.Length && bndptr[v] != -1
    modifies bndptr, bndind
    ensures Listed(nbnd', bndind, bndptr) && bndptr[v] == -1
    ensures forall u :: 0 <= u < bndptr.Length && u != v ==> (bndptr[u] == -1 <==> old(bndptr[u]) == -1)
  {
    ListedFacts(nbnd, bndind, bndptr);
    nbnd' := nbnd - 1;
    bndind[bndptr[v]] := bndind[nbnd'];
    bndptr[bndind[nbnd']] := bndptr[v];
    bndptr[v] := -1;
  }
}
