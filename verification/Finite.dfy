/** How many elements finite sets and lists without repetition can have. */
module Finite {

  lemma {:induction false} AtMost(n: nat, ids: set<nat>)
    requires forall i <- ids :: i < n
    ensures |ids| <= n
  {
    if n == 0 {
      assert ids == {};
    } else {
      AtMost(n - 1, ids - {n - 1});
    }
  }

  lemma {:induction false} AtLeast(n: nat, ids: set<nat>)
    requires forall i :: 0 <= i < n ==> i in ids
    ensures |ids| >= n
  {
    if n > 0 {
      AtLeast(n - 1, ids - {n - 1});
    }
  }

  lemma {:induction false} SubsetCard<T>(a: set<T>, b: set<T>)
    requires a <= b
    ensures |a| <= |b|
  {
    if a != {} {
      var x :| x in a;
      SubsetCard(a - {x}, b - {x});
    }
  }

  /** Replace an entry by the last one and drop the last one. */
  function SwapOut<T>(s: seq<T>, k: nat): (r: seq<T>)
    requires k < |s|
    ensures |r| == |s| - 1 && forall i :: 0 <= i < |r| ==> r[i] == s[if i == k then |s| - 1 else i]
  {
    s[k := s[|s| - 1]][..|s| - 1]
  }

  lemma SwapOutThenLast<T>(s: seq<T>, k: nat)
    requires k < |s|
    ensures s[k := s[|s| - 1]] == SwapOut(s, k) + [s[|s| - 1]]
  {
  }

  ghost predicate NoRepeats<T>(s: seq<T>)
  {
    forall i, j :: 0 <= i < j < |s| ==> s[i] != s[j]
  }

  ghost function Elements<T>(s: seq<T>): set<T>
  {
    if s == [] then {} else Elements(s[..|s| - 1]) + {s[|s| - 1]}
  }

  lemma {:induction false} ElementOf<T>(s: seq<T>, x: T)
    requires x in Elements(s)
    ensures x in s
  {
    var last := |s| - 1;
    if x != s[last] {
      ElementOf(s[..last], x);
    }
  }

  lemma {:induction false} ElementIn<T>(s: seq<T>, k: nat)
    requires k < |s|
    ensures s[k] in Elements(s)
  {
    if k < |s| - 1 {
      ElementIn(s[..|s| - 1], k);
    }
  }

  lemma {:induction false} ElementsCard<T>(s: seq<T>)
    requires NoRepeats(s)
    ensures |Elements(s)| == |s|
  {
    if s != [] {
      var last := |s| - 1;
      ElementsCard(s[..last]);
      if s[last] in Elements(s[..last]) {
        ElementOf(s[..last], s[last]);
      }
    }
  }

  /** A list without repetition is no longer than a set that holds all its elements. */
  lemma FitsIn<T>(s: seq<T>, b: set<T>)
    requires NoRepeats(s) && forall x <- s :: x in b
    ensures |s| <= |b|
  {
    ElementsCard(s);
    forall x | x in Elements(s) ensures x in b {
      ElementOf(s, x);
    }
    SubsetCard(Elements(s), b);
  }

  /** A list of distinct numbers below `n` has at most `n` of them. */
  lemma ShortList(n: nat, s: seq<nat>)
    requires NoRepeats(s) && forall x <- s :: x < n
    ensures |s| <= n
  {
    ElementsCard(s);
    forall x: nat | x in Elements(s) ensures x < n {
      ElementOf(s, x);
    }
    AtMost(n, Elements(s));
  }
}
