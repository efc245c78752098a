/**
 The counting sort that gives Match_SHEM its visiting order. `keys[v]` is the key of vertex `v`; the vertices
 are taken in the order of `tperm` and sorted by key, so the result is stable with respect to `tperm`.
 */
module BucketSort {
  import opened Matching
  import Finite

  // ----- Counting

  /** How often `k` occurs. */
  ghost function Count(s: seq<nat>, k: nat): nat
  {
    if s == [] then 0 else Count(s[..|s| - 1], k) + if s[|s| - 1] == k then 1 else 0
  }

  /** How many entries are smaller than `k`. */
  ghost function Below(s: seq<nat>, k: nat): nat
  {
    if s == [] then 0 else Below(s[..|s| - 1], k) + if s[|s| - 1] < k then 1 else 0
  }

  lemma CountStep(s: seq<nat>, i: nat, k: nat)
    requires i < |s|
    ensures Count(s[..i + 1], k) == Count(s[..i], k) + if s[i] == k then 1 else 0
  {
    assert s[..i + 1][..i] == s[..i];
  }

  lemma {:induction false} BelowNext(s: seq<nat>, k: nat)
    ensures Below(s, k + 1) == Below(s, k) + Count(s, k)
  {
    if s != [] {
      BelowNext(s[..|s| - 1], k);
    }
  }

  lemma {:induction false} BelowMonotone(s: seq<nat>, k: nat, l: nat)
    requires k <= l
    ensures Below(s, k) <= Below(s, l) <= |s|
  {
    if s != [] {
      BelowMonotone(s[..|s| - 1], k, l);
    }
  }

  lemma {:induction false} BelowZero(s: seq<nat>)
    ensures Below(s, 0) == 0
  {
    if s != [] {
      BelowZero(s[..|s| - 1]);
    }
  }

  lemma {:induction false} CountMonotone(s: seq<nat>, i: nat, j: nat, k: nat)
    requires i <= j <= |s|
    ensures Count(s[..i], k) <= Count(s[..j], k)
  {
    if i < j {
      CountMonotone(s, i, j - 1, k);
      CountStep(s, j - 1, k);
    }
  }

  // ----- Counting does not depend on the order

  ghost predicate Keys(keys: seq<nat>, tperm: seq<nat>)
  {
    Permutation(|keys|, tperm)
  }

  /** The keys in the order of `tperm`. */
  ghost function InTurn(keys: seq<nat>, tperm: seq<nat>): (r: seq<nat>)
    requires Keys(keys, tperm)
    ensures |r| == |keys| && forall i :: 0 <= i < |r| ==> r[i] == keys[tperm[i]]
  {
    seq(|tperm|, i requires 0 <= i < |tperm| => keys[tperm[i]])
  }

  /** How often `k` occurs among the first `n` keys, counting only vertices in `seen`. */
  ghost function CountIn(keys: seq<nat>, k: nat, seen: set<nat>, n: nat): nat
    requires n <= |keys|
  {
    if n == 0 then 0 else CountIn(keys, k, seen, n - 1) + if n - 1 in seen && keys[n - 1] == k then 1 else 0
  }

  lemma {:induction false} CountInAdd(keys: seq<nat>, k: nat, seen: set<nat>, v: nat, n: nat)
    requires n <= |keys| && v !in seen && v < |keys|
    ensures CountIn(keys, k, seen + {v}, n) == CountIn(keys, k, seen, n) + if v < n && keys[v] == k then 1 else 0
  {
    if n > 0 {
      CountInAdd(keys, k, seen, v, n - 1);
    }
  }

  ghost function Firsts(tperm: seq<nat>, m: nat): (r: set<nat>)
    requires m <= |tperm|
    ensures forall v :: v in r <==> v in tperm[..m]
  {
    set v | v in tperm[..m]
  }

  lemma {:induction false} CountPrefix(keys: seq<nat>, tperm: seq<nat>, k: nat, m: nat)
    requires Keys(keys, tperm) && m <= |keys|
    ensures Count(InTurn(keys, tperm)[..m], k) == CountIn(keys, k, Firsts(tperm, m), |keys|)
  {
    if m == 0 {
      CountInNone(keys, k, |keys|);
      assert Firsts(tperm, 0) == {};
    } else {
      CountPrefix(keys, tperm, k, m - 1);
      CountStep(InTurn(keys, tperm), m - 1, k);
      assert tperm[..m] == tperm[..m - 1] + [tperm[m - 1]];
      assert Firsts(tperm, m) == Firsts(tperm, m - 1) + {tperm[m - 1]};
      CountInAdd(keys, k, Firsts(tperm, m - 1), tperm[m - 1], |keys|);
    }
  }

  lemma {:induction false} CountInNone(keys: seq<nat>, k: nat, n: nat)
    requires n <= |keys|
    ensures CountIn(keys, k, {}, n) == 0
  {
    if n > 0 {
      CountInNone(keys, k, n - 1);
    }
  }

  lemma {:induction false} CountInAll(keys: seq<nat>, k: nat, seen: set<nat>, n: nat)
    requires n <= |keys| && forall v: nat :: v < n ==> v in seen
    ensures CountIn(keys, k, seen, n) == Count(keys[..n], k)
  {
    if n > 0 {
      CountInAll(keys, k, seen, n - 1);
      CountStep(keys, n - 1, k);
    }
  }

  lemma CountInTurn(keys: seq<nat>, tperm: seq<nat>, k: nat)
    requires Keys(keys, tperm)
    ensures Count(InTurn(keys, tperm), k) == Count(keys, k)
  {
    CountPrefix(keys, tperm, k, |keys|);
    assert tperm[..|keys|] == tperm && keys[..|keys|] == keys;
    assert InTurn(keys, tperm)[..|keys|] == InTurn(keys, tperm);
    CountInAll(keys, k, Firsts(tperm, |keys|), |keys|);
  }

  lemma {:induction false} BelowInTurn(keys: seq<nat>, tperm: seq<nat>, k: nat)
    requires Keys(keys, tperm)
    ensures Below(InTurn(keys, tperm), k) == Below(keys, k)
  {
    if k == 0 {
      BelowZero(keys);
      BelowZero(InTurn(keys, tperm));
    } else {
      BelowInTurn(keys, tperm, k - 1);
      BelowNext(keys, k - 1);
      BelowNext(InTurn(keys, tperm), k - 1);
      CountInTurn(keys, tperm, k - 1);
    }
  }

  // ----- Where the sort puts each vertex

  /** The place of the vertex whose turn is `i`: after all smaller keys, and after equal keys of earlier turns. */
  ghost function Place(s: seq<nat>, i: nat): nat
    requires i < |s|
  {
    Below(s, s[i]) + Count(s[..i], s[i])
  }

  lemma PlaceBounds(s: seq<nat>, i: nat)
    requires i < |s|
    ensures Below(s, s[i]) <= Place(s, i) < Below(s, s[i] + 1) <= |s|
  {
    CountStep(s, i, s[i]);
    CountMonotone(s, i + 1, |s|, s[i]);
    assert s[..|s|] == s;
    BelowNext(s, s[i]);
    BelowMonotone(s, s[i] + 1, s[i] + 1);
  }

  /** Places follow the order of keys, and of turns among equal keys. */
  lemma PlaceOrder(s: seq<nat>, i: nat, j: nat)
    requires i < |s| && j < |s| && (s[i] < s[j] || (s[i] == s[j] && i < j))
    ensures Place(s, i) < Place(s, j)
  {
    PlaceBounds(s, i);
    PlaceBounds(s, j);
    if s[i] < s[j] {
      BelowMonotone(s, s[i] + 1, s[j]);
    } else {
      CountStep(s, i, s[i]);
      CountMonotone(s, i + 1, j, s[i]);
    }
  }

  ghost function Places(s: seq<nat>, m: nat): set<nat>
    requires m <= |s|
  {
    if m == 0 then {} else Places(s, m - 1) + {Place(s, m - 1)}
  }

  lemma PlaceDistinct(s: seq<nat>, i: nat, j: nat)
    requires i < |s| && j < |s| && i != j
    ensures Place(s, i) != Place(s, j)
  {
    if s[i] < s[j] || (s[i] == s[j] && i < j) { PlaceOrder(s, i, j); } else { PlaceOrder(s, j, i); }
  }

  lemma {:induction false} PlaceOwner(s: seq<nat>, m: nat, p: nat) returns (i: nat)
    requires m <= |s| && p in Places(s, m)
    ensures i < m && Place(s, i) == p
  {
    if p == Place(s, m - 1) {
      i := m - 1;
    } else {
      i := PlaceOwner(s, m - 1, p);
    }
  }

  lemma {:induction false} PlacesCard(s: seq<nat>, m: nat)
    requires m <= |s|
    ensures |Places(s, m)| == m
  {
    if m > 0 {
      PlacesCard(s, m - 1);
      if Place(s, m - 1) in Places(s, m - 1) {
        var i := PlaceOwner(s, m - 1, Place(s, m - 1));
        PlaceDistinct(s, i, m - 1);
      }
    }
  }

  /** Every place is taken. */
  lemma PlaceTaken(s: seq<nat>, p: nat) returns (i: nat)
    requires p < |s|
    ensures i < |s| && Place(s, i) == p
  {
    PlacesCard(s, |s|);
    forall q | q in Places(s, |s|) ensures q < |s| {
      var j := PlaceOwner(s, |s|, q);
      PlaceBounds(s, j);
    }
    Finite.AtMost(|s|, Places(s, |s|) + {p});
    i := PlaceOwner(s, |s|, p);
  }

  // ----- The result

  /** `perm` lists the vertices by increasing key, and by turn in `tperm` among equal keys. */
  ghost predicate Precedes(keys: seq<nat>, tperm: seq<nat>, u: nat, v: nat)
    requires u < |keys| && v < |keys|
  {
    keys[u] < keys[v] || (keys[u] == keys[v] && exists i, j :: 0 <= i < j < |tperm| && tperm[i] == u && tperm[j] == v)
  }

  ghost predicate StablySorted(keys: seq<nat>, tperm: seq<nat>, perm: seq<nat>)
    requires Permutation(|keys|, perm)
  {
    forall a, b :: 0 <= a < b < |perm| ==> Precedes(keys, tperm, perm[a], perm[b])
  }

  /** The first `ii` vertices of `tperm` are in their places. */
  ghost predicate Placed(keys: seq<nat>, tperm: seq<nat>, perm: seq<nat>, ii: nat)
    requires Keys(keys, tperm) && |perm| == |keys| && ii <= |keys|
  {
    forall i: nat :: i < ii ==> Place(InTurn(keys, tperm), i) < |perm| && perm[Place(InTurn(keys, tperm), i)] == tperm[i]
  }

  lemma PlacedAt(keys: seq<nat>, tperm: seq<nat>, perm: seq<nat>, a: nat) returns (i: nat)
    requires Keys(keys, tperm) && |perm| == |keys| && Placed(keys, tperm, perm, |keys|) && a < |keys|
    ensures i < |keys| && Place(InTurn(keys, tperm), i) == a && perm[a] == tperm[i]
  {
    i := PlaceTaken(InTurn(keys, tperm), a);
  }

  lemma PlacedPair(keys: seq<nat>, tperm: seq<nat>, perm: seq<nat>, a: nat, b: nat)
    requires Keys(keys, tperm) && |perm| == |keys| && Placed(keys, tperm, perm, |keys|) && a < b < |keys|
    ensures perm[a] < |keys| && perm[b] < |keys| && perm[a] != perm[b] && Precedes(keys, tperm, perm[a], perm[b])
  {
    var s := InTurn(keys, tperm);
    var i := PlacedAt(keys, tperm, perm, a);
    var j := PlacedAt(keys, tperm, perm, b);
    if s[j] < s[i] || (s[i] == s[j] && j < i) {
      PlaceOrder(s, j, i);
    }
    assert s[i] == keys[tperm[i]] && s[j] == keys[tperm[j]];
  }

  lemma PlacedIsSorted(keys: seq<nat>, tperm: seq<nat>, perm: seq<nat>)
    requires Keys(keys, tperm) && |perm| == |keys| && Placed(keys, tperm, perm, |keys|)
    ensures Permutation(|keys|, perm) && StablySorted(keys, tperm, perm)
  {
    forall a | 0 <= a < |perm| ensures perm[a] < |keys| {
      var i := PlacedAt(keys, tperm, perm, a);
    }
    forall a, b | 0 <= a < b < |perm| ensures perm[a] != perm[b] && Precedes(keys, tperm, perm[a], perm[b]) {
      PlacedPair(keys, tperm, perm, a, b);
    }
    forall v: nat | v < |keys| ensures v in perm {
      assert v in tperm;
      var i: nat :| i < |tperm| && tperm[i] == v;
      assert perm[Place(InTurn(keys, tperm), i)] == v;
    }
  }

  /** counts[k] after the counting loop has seen the first `i` keys. */
  method CountKeys(keys: seq<nat>, counts: array<nat>, max: nat)
    requires counts.Length == max + 2 && forall i :: 0 <= i < |keys| ==> keys[i] <= max
    requires forall k :: 0 <= k < counts.Length ==> counts[k] == 0
    modifies counts
    ensures forall k :: 0 <= k <= max ==> counts[k] == Count(keys, k)
  {
    for i := 0 to |keys|
      invariant forall k :: 0 <= k <= max ==> counts[k] == Count(keys[..i], k)
    {
      forall k: nat | k <= max ensures Count(keys[..i + 1], k) == Count(keys[..i], k) + if keys[i] == k then 1 else 0 {
        CountStep(keys, i, k);
      }
      counts[keys[i]] := counts[keys[i]] + 1;
    }
    assert keys[..|keys|] == keys;
  }

  /** MAKECSR(i, max + 1, counts): counts become the starts of the buckets. */
  method MakeCsr(ghost keys: seq<nat>, counts: array<nat>, max: nat)
    requires counts.Length == max + 2
    requires forall k :: 0 <= k <= max ==> counts[k] == Count(keys, k)
    modifies counts
    ensures forall k :: 0 <= k <= max ==> counts[k] == Below(keys, k)
  {
    BelowZero(keys);
    BelowNext(keys, 0);
    for i := 1 to max + 1
      invariant forall k :: 0 <= k < i ==> counts[k] == Below(keys, k + 1)
      invariant forall k :: i <= k <= max ==> counts[k] == Count(keys, k)
    {
      BelowNext(keys, i);
      counts[i] := counts[i] + counts[i - 1];
    }
    for i := max + 1 downto 0
      invariant forall k :: 0 <= k <= i && k <= max ==> counts[k] == Below(keys, k + 1)
      invariant forall k :: i < k <= max + 1 ==> counts[k] == Below(keys, k)
    {
      counts[i + 1] := counts[i];
    }
    counts[0] := 0;
  }

  /** Bucket starts, advanced past the vertices that are already placed. */
  ghost predicate Cursor(counts: seq<nat>, s: seq<nat>, ii: nat, max: nat)
    requires ii <= |s|
  {
    |counts| == max + 2 && forall k :: 0 <= k <= max ==> counts[k] == Below(s, k) + Count(s[..ii], k)
  }

  lemma CursorStep(counts: seq<nat>, s: seq<nat>, ii: nat, max: nat)
    requires ii < |s| && s[ii] <= max && Cursor(counts, s, ii, max)
    ensures Cursor(counts[s[ii] := counts[s[ii]] + 1], s, ii + 1, max)
    ensures counts[s[ii]] == Place(s, ii) < |s|
  {
    PlaceBounds(s, ii);
    var next := ii + 1;
    forall k: nat | k <= max ensures Count(s[..next], k) == Count(s[..ii], k) + if s[ii] == k then 1 else 0 {
      CountStep(s, ii, k);
    }
  }

  lemma PlacedStep(keys: seq<nat>, tperm: seq<nat>, perm: seq<nat>, ii: nat)
    requires Keys(keys, tperm) && |perm| == |keys| && ii < |keys| && Placed(keys, tperm, perm, ii)
    requires Place(InTurn(keys, tperm), ii) < |perm|
    ensures Placed(keys, tperm, perm[Place(InTurn(keys, tperm), ii) := tperm[ii]], ii + 1)
  {
    var s := InTurn(keys, tperm);
    forall jj: nat | jj < ii ensures Place(s, jj) != Place(s, ii) {
      PlaceDistinct(s, jj, ii);
    }
  }

  /** BucketSortKeysInc. */
  method BucketSortKeysInc(max: nat, keys: seq<nat>, tperm: seq<nat>, perm: array<nat>)
    requires Keys(keys, tperm) && perm.Length == |keys| && forall i :: 0 <= i < |keys| ==> keys[i] <= max
    modifies perm
    ensures Permutation(|keys|, perm[..]) && StablySorted(keys, tperm, perm[..])
  {
    var counts := new nat[max + 2](_ => 0);
    CountKeys(keys, counts, max);
    MakeCsr(keys, counts, max);
    ghost var s := InTurn(keys, tperm);
    forall k: nat | k <= max ensures counts[k] == Below(s, k) {
      BelowInTurn(keys, tperm, k);
    }
    PlaceAll(max, keys, tperm, counts, perm);
    PlacedIsSorted(keys, tperm, perm[..]);
  }

  /** Put every vertex into its place. */
  method PlaceAll(max: nat, keys: seq<nat>, tperm: seq<nat>, counts: array<nat>, perm: array<nat>)
    requires Keys(keys, tperm) && perm.Length == |keys| && counts != perm && forall i :: 0 <= i < |keys| ==> keys[i] <= max
    requires Cursor(counts[..], InTurn(keys, tperm), 0, max)
    modifies counts, perm
    ensures Placed(keys, tperm, perm[..], |keys|)
  {
    ghost var s := InTurn(keys, tperm);
    for ii := 0 to |keys|
      invariant Cursor(counts[..], s, ii, max) && Placed(keys, tperm, perm[..], ii)
    {
      var i := tperm[ii];
      CursorStep(counts[..], s, ii, max);
      PlacedStep(keys, tperm, perm[..], ii);
      perm[counts[keys[i]]] := i;
      counts[keys[i]] := counts[keys[i]] + 1;
    }
  }
}
