/**
 Where the k-way edge refiners move a vertex, and when: the rules of Random_KWayEdgeRefine and
 Greedy_KWayEdgeRefine, and those of Greedy_KWayEdgeBalance, as relations on the table of the vertex and the weights of
 the parts.
 */
module KWayChoice {
  import opened KWayTables
  import opened Ratios

  /** The weight intervals of the parts, which the source computes in floating point. */
  datatype Bounds = Bounds(minwgt: seq<int>, maxwgt: seq<int>, itpwgts: seq<int>)

  predicate InRange(b: Bounds, pwgts: seq<int>, tbl: seq<EDegree>)
  {
    && |b.minwgt| == |b.maxwgt| == |b.itpwgts| == |pwgts|
    && forall l :: 0 <= l < |tbl| ==> 0 <= tbl[l].pid < |pwgts|
  }

  predicate PositiveTargets(b: Bounds)
  {
    forall q :: 0 <= q < |b.itpwgts| ==> b.itpwgts[q] > 0
  }

  /** The part of entry `l` has room. */
  predicate Room(b: Bounds, pwgts: seq<int>, tbl: seq<EDegree>, vwgt: int, l: nat)
    requires InRange(b, pwgts, tbl) && l < |tbl|
  {
    pwgts[tbl[l].pid] + vwgt <= b.maxwgt[tbl[l].pid]
  }

  /** The part of entry `l` is relatively lighter than that of `k`. */
  predicate LighterEntry(b: Bounds, pwgts: seq<int>, tbl: seq<EDegree>, l: nat, k: nat)
    requires InRange(b, pwgts, tbl) && l < |tbl| && k < |tbl|
  {
    var x, y := tbl[l].pid, tbl[k].pid;
    Lighter(pwgts[x], b.itpwgts[x], pwgts[y], b.itpwgts[y])
  }

  lemma LighterEntryTransitive(b: Bounds, pwgts: seq<int>, tbl: seq<EDegree>, l: nat, j: nat, k: nat)
    requires InRange(b, pwgts, tbl) && PositiveTargets(b) && l < |tbl| && j < |tbl| && k < |tbl|
    requires LighterEntry(b, pwgts, tbl, l, j) && LighterEntry(b, pwgts, tbl, j, k)
    ensures LighterEntry(b, pwgts, tbl, l, k)
  {
    var x, y, z := tbl[l].pid, tbl[j].pid, tbl[k].pid;
    LighterTransitive(pwgts[x], b.itpwgts[x], pwgts[y], b.itpwgts[y], pwgts[z], b.itpwgts[z]);
  }

  // ----- Refining

  /** Moving to entry `l` does not lose, and the part has room if the gain counts as extra room. */
  predicate Qualifies(b: Bounds, pwgts: seq<int>, tbl: seq<EDegree>, vwgt: int, id: int, ffactor: int, l: nat)
    requires InRange(b, pwgts, tbl) && l < |tbl|
  {
    var e := tbl[l];
    pwgts[e.pid] + vwgt <= b.maxwgt[e.pid] + ffactor * (e.ed - id) && e.ed - id >= 0
  }

  predicate FirstQualifies(b: Bounds, pwgts: seq<int>, tbl: seq<EDegree>, vwgt: int, id: int, ffactor: int, f: nat)
    requires InRange(b, pwgts, tbl)
  {
    && f < |tbl| && Qualifies(b, pwgts, tbl, vwgt, id, ffactor, f)
    && forall l :: 0 <= l < f ==> !Qualifies(b, pwgts, tbl, vwgt, id, ffactor, l)
  }

  /** Entry `k` is the first that qualifies, `f`, or a later one, before `j`, that gains more or is relatively lighter: no
      entry after `f` with room gains more, and if targets are positive, of those that gain as much, none with room, and none
      after `k`, is relatively lighter. */
  ghost predicate BestTo(b: Bounds, pwgts: seq<int>, tbl: seq<EDegree>, vwgt: int, f: nat, k: nat, j: nat)
    requires InRange(b, pwgts, tbl) && j <= |tbl|
  {
    && f <= k < j && tbl[k].ed >= tbl[f].ed
    && (tbl[k].ed > tbl[f].ed ==> exists l: nat :: f < l <= k && tbl[l].ed == tbl[k].ed && Room(b, pwgts, tbl, vwgt, l))
    && (PositiveTargets(b) && k > f && tbl[k].ed == tbl[f].ed ==> LighterEntry(b, pwgts, tbl, k, f))
    && forall l: nat :: f < l < j ==>
         && (Room(b, pwgts, tbl, vwgt, l) ==> tbl[l].ed <= tbl[k].ed)
         && (PositiveTargets(b) && tbl[l].ed == tbl[k].ed && (Room(b, pwgts, tbl, vwgt, l) || l > k) ==> !LighterEntry(b, pwgts, tbl, l, k))
  }

  ghost predicate Best(b: Bounds, pwgts: seq<int>, tbl: seq<EDegree>, vwgt: int, id: int, ffactor: int, k: nat)
    requires InRange(b, pwgts, tbl)
  {
    exists f: nat :: FirstQualifies(b, pwgts, tbl, vwgt, id, ffactor, f) && BestTo(b, pwgts, tbl, vwgt, f, k, |tbl|)
  }

  predicate Replaces(b: Bounds, pwgts: seq<int>, tbl: seq<EDegree>, vwgt: int, j: nat, k: nat)
    requires InRange(b, pwgts, tbl) && j < |tbl| && k < |tbl|
  {
    || (tbl[j].ed > tbl[k].ed && Room(b, pwgts, tbl, vwgt, j))
    || (tbl[j].ed == tbl[k].ed && LighterEntry(b, pwgts, tbl, j, k))
  }

  lemma BestStep(b: Bounds, pwgts: seq<int>, tbl: seq<EDegree>, vwgt: int, f: nat, k: nat, j: nat)
    requires InRange(b, pwgts, tbl) && f < j < |tbl| && BestTo(b, pwgts, tbl, vwgt, f, k, j)
    ensures BestTo(b, pwgts, tbl, vwgt, f, if Replaces(b, pwgts, tbl, vwgt, j, k) then j else k, j + 1)
  {
    if tbl[j].ed > tbl[k].ed && Room(b, pwgts, tbl, vwgt, j) {
      assert f < j <= j && tbl[j].ed == tbl[j].ed && Room(b, pwgts, tbl, vwgt, j);
    } else if tbl[j].ed == tbl[k].ed && LighterEntry(b, pwgts, tbl, j, k) && PositiveTargets(b) {
      if k > f && tbl[k].ed == tbl[f].ed {
        LighterEntryTransitive(b, pwgts, tbl, j, k, f);
      }
      forall l: nat | f < l < j && tbl[l].ed == tbl[k].ed && Room(b, pwgts, tbl, vwgt, l) ensures !LighterEntry(b, pwgts, tbl, l, j) {
        if LighterEntry(b, pwgts, tbl, l, j) {
          LighterEntryTransitive(b, pwgts, tbl, l, j, k);
        }
      }
    }
  }

  /** The part of the vertex would get too light. */
  predicate Held(b: Bounds, pwgts: seq<int>, r: RInfo, from: int, vwgt: int, lenient: bool)
    requires InRange(b, pwgts, r.edegrees) && 0 <= from < |pwgts|
  {
    (!lenient || r.id > 0) && pwgts[from] - vwgt < b.minwgt[from]
  }

  /** The move gains, or it does not change the cut and is made in every eighth turn, or for the sake of balance. */
  predicate Worth(b: Bounds, pwgts: seq<int>, r: RInfo, from: int, vwgt: int, turn: nat, k: nat)
    requires InRange(b, pwgts, r.edegrees) && 0 <= from < |pwgts| && k < |r.edegrees|
  {
    var to := r.edegrees[k].pid;
    || r.edegrees[k].ed > r.id
    || (r.edegrees[k].ed == r.id && (|| turn % 8 == 0
                                     || pwgts[from] >= b.maxwgt[from]
                                     || b.itpwgts[from] * (pwgts[to] + vwgt) < b.itpwgts[to] * pwgts[from]))
  }

  /** A refiner sends the vertex to entry `k`, or leaves it where it is if that is the length of the table. */
  ghost predicate RefineRule(b: Bounds, pwgts: seq<int>, r: RInfo, from: int, vwgt: int, ffactor: int, lenient: bool, turn: nat, k: nat)
    requires InRange(b, pwgts, r.edegrees) && 0 <= from < |pwgts|
  {
    if || Held(b, pwgts, r, from, vwgt, lenient)
       || (forall l: nat :: l < |r.edegrees| ==> !Qualifies(b, pwgts, r.edegrees, vwgt, r.id, ffactor, l))
    then k == |r.edegrees|
    else exists m: nat :: m < |r.edegrees| && Best(b, pwgts, r.edegrees, vwgt, r.id, ffactor, m) && RefinesTo(b, pwgts, r, from, vwgt, turn, m, k)
  }

  predicate RefinesTo(b: Bounds, pwgts: seq<int>, r: RInfo, from: int, vwgt: int, turn: nat, m: nat, k: nat)
    requires InRange(b, pwgts, r.edegrees) && 0 <= from < |pwgts| && m < |r.edegrees|
  {
    k == if Worth(b, pwgts, r, from, vwgt, turn, m) then m else |r.edegrees|
  }

  // ----- Balancing

  /** The part of entry `l` has room, or would still be relatively no heavier than the own part is. */
  predicate Open(b: Bounds, pwgts: seq<int>, tbl: seq<EDegree>, from: int, vwgt: int, l: nat)
    requires InRange(b, pwgts, tbl) && 0 <= from < |pwgts| && l < |tbl|
  {
    var to := tbl[l].pid;
    Room(b, pwgts, tbl, vwgt, l) || b.itpwgts[from] * (pwgts[to] + vwgt) <= b.itpwgts[to] * pwgts[from]
  }

  predicate FirstOpen(b: Bounds, pwgts: seq<int>, tbl: seq<EDegree>, from: int, vwgt: int, f: nat)
    requires InRange(b, pwgts, tbl) && 0 <= from < |pwgts|
  {
    && f < |tbl| && Open(b, pwgts, tbl, from, vwgt, f)
    && forall l :: 0 <= l < f ==> !Open(b, pwgts, tbl, from, vwgt, l)
  }

  /** Entry `k` is `f` or a later one, before `j`, that is relatively lighter than one before it; if targets are positive, no
      entry from `f` on is relatively lighter. */
  ghost predicate LightestTo(b: Bounds, pwgts: seq<int>, tbl: seq<EDegree>, f: nat, k: nat, j: nat)
    requires InRange(b, pwgts, tbl) && j <= |tbl|
  {
    && f <= k < j && (k > f ==> exists m: nat :: f <= m < k && LighterEntry(b, pwgts, tbl, k, m))
    && (PositiveTargets(b) ==> forall l: nat :: f <= l < j ==> !LighterEntry(b, pwgts, tbl, l, k))
    && (forall l: nat :: k < l < j ==> !LighterEntry(b, pwgts, tbl, l, k))
  }

  ghost predicate Lightest(b: Bounds, pwgts: seq<int>, tbl: seq<EDegree>, from: int, vwgt: int, k: nat)
    requires InRange(b, pwgts, tbl) && 0 <= from < |pwgts|
  {
    exists f: nat :: FirstOpen(b, pwgts, tbl, from, vwgt, f) && LightestTo(b, pwgts, tbl, f, k, |tbl|)
  }

  lemma LightestStep(b: Bounds, pwgts: seq<int>, tbl: seq<EDegree>, f: nat, k: nat, j: nat)
    requires InRange(b, pwgts, tbl) && f < j < |tbl| && LightestTo(b, pwgts, tbl, f, k, j)
    ensures LightestTo(b, pwgts, tbl, f, if LighterEntry(b, pwgts, tbl, j, k) then j else k, j + 1)
  {
    if LighterEntry(b, pwgts, tbl, j, k) {
      if PositiveTargets(b) {
        forall l: nat | f <= l < j + 1 ensures !LighterEntry(b, pwgts, tbl, l, j) {
          if l < j && LighterEntry(b, pwgts, tbl, l, j) {
            LighterEntryTransitive(b, pwgts, tbl, l, j, k);
          }
        }
      }
    }
  }

  /** The vertex stays: its part is not too heavy, the other one needs nothing, and the move would lose. */
  predicate Pointless(b: Bounds, pwgts: seq<int>, r: RInfo, from: int, k: nat)
    requires InRange(b, pwgts, r.edegrees) && 0 <= from < |pwgts| && k < |r.edegrees|
  {
    var e := r.edegrees[k];
    pwgts[from] < b.maxwgt[from] && pwgts[e.pid] > b.minwgt[e.pid] && e.ed - r.id < 0
  }

  /** The balancer sends the vertex to entry `k`, or leaves it where it is if that is the length of the table. */
  ghost predicate BalanceRule(b: Bounds, pwgts: seq<int>, r: RInfo, from: int, vwgt: int, k: nat)
    requires InRange(b, pwgts, r.edegrees) && 0 <= from < |pwgts|
  {
    if || pwgts[from] - vwgt < b.minwgt[from]
       || (forall l: nat :: l < |r.edegrees| ==> !Open(b, pwgts, r.edegrees, from, vwgt, l))
    then k == |r.edegrees|
    else exists m: nat :: m < |r.edegrees| && Lightest(b, pwgts, r.edegrees, from, vwgt, m) && BalancesTo(b, pwgts, r, from, m, k)
  }

  predicate BalancesTo(b: Bounds, pwgts: seq<int>, r: RInfo, from: int, m: nat, k: nat)
    requires InRange(b, pwgts, r.edegrees) && 0 <= from < |pwgts| && m < |r.edegrees|
  {
    k == if Pointless(b, pwgts, r, from, m) then |r.edegrees| else m
  }

  // ----- What the source computes

  /** The first entry that qualifies, then the best after it. */
  method BestEntry(b: Bounds, pwgts: seq<int>, tbl: seq<EDegree>, vwgt: int, id: int, ffactor: int) returns (k: nat)
    requires InRange(b, pwgts, tbl)
    ensures k == |tbl| <==> forall l: nat :: l < |tbl| ==> !Qualifies(b, pwgts, tbl, vwgt, id, ffactor, l)
    ensures k <= |tbl| && (k < |tbl| ==> Best(b, pwgts, tbl, vwgt, id, ffactor, k) && tbl[k].ed >= id)
  {
    k := 0;
    while k < |tbl| && !(pwgts[tbl[k].pid] + vwgt <= b.maxwgt[tbl[k].pid] + ffactor * (tbl[k].ed - id) && tbl[k].ed - id >= 0)
      invariant k <= |tbl| && forall l: nat :: l < k ==> !Qualifies(b, pwgts, tbl, vwgt, id, ffactor, l)
    {
      k := k + 1;
    }
    if k == |tbl| { return; }
    ghost var f := k;
    for j := k + 1 to |tbl|
      invariant f < j && FirstQualifies(b, pwgts, tbl, vwgt, id, ffactor, f) && BestTo(b, pwgts, tbl, vwgt, f, k, j)
    {
      BestStep(b, pwgts, tbl, vwgt, f, k, j);
      var to, best := tbl[j].pid, tbl[k].pid;
      if (tbl[j].ed > tbl[k].ed && pwgts[to] + vwgt <= b.maxwgt[to])
        || (tbl[j].ed == tbl[k].ed && b.itpwgts[best] * pwgts[to] < b.itpwgts[to] * pwgts[best]) {
        k := j;
      }
    }
  }

  /** The entry to move a vertex to in a refinement, or the length of the table when it stays. A vertex without
      internal weight may leave its part below the minimum if `lenient`. */
  method RefineTarget(b: Bounds, pwgts: seq<int>, r: RInfo, from: int, vwgt: int, ffactor: int, lenient: bool, turn: nat) returns (k: nat)
    requires InRange(b, pwgts, r.edegrees) && 0 <= from < |pwgts|
    ensures RefineRule(b, pwgts, r, from, vwgt, ffactor, lenient, turn, k)
    ensures k <= |r.edegrees| && (k < |r.edegrees| ==> r.edegrees[k].ed >= r.id)
  {
    if (!lenient || r.id > 0) && pwgts[from] - vwgt < b.minwgt[from] { return |r.edegrees|; }
    k := BestEntry(b, pwgts, r.edegrees, vwgt, r.id, ffactor);
    if k == |r.edegrees| { return; }
    var to := r.edegrees[k].pid;
    var move := r.edegrees[k].ed - r.id > 0;
    if !move && r.edegrees[k].ed - r.id == 0 {
      move := turn % 8 == 0 || pwgts[from] >= b.maxwgt[from] || b.itpwgts[from] * (pwgts[to] + vwgt) < b.itpwgts[to] * pwgts[from];
    }
    if !move { return |r.edegrees|; }
  }

  /** The entry to move a vertex to when balancing, or the length of the table when it stays. */
  method BalanceTarget(b: Bounds, pwgts: seq<int>, r: RInfo, from: int, vwgt: int) returns (k: nat)
    requires InRange(b, pwgts, r.edegrees) && 0 <= from < |pwgts|
    ensures BalanceRule(b, pwgts, r, from, vwgt, k) && k <= |r.edegrees|
  {
    var tbl := r.edegrees;
    if pwgts[from] - vwgt < b.minwgt[from] { return |tbl|; }
    k := 0;
    while k < |tbl| && !(pwgts[tbl[k].pid] + vwgt <= b.maxwgt[tbl[k].pid]
        || b.itpwgts[from] * (pwgts[tbl[k].pid] + vwgt) <= b.itpwgts[tbl[k].pid] * pwgts[from])
      invariant k <= |tbl| && forall l: nat :: l < k ==> !Open(b, pwgts, tbl, from, vwgt, l)
    {
      k := k + 1;
    }
    if k == |tbl| { return; }
    ghost var f := k;
    for j := k + 1 to |tbl|
      invariant f < j && FirstOpen(b, pwgts, tbl, from, vwgt, f) && LightestTo(b, pwgts, tbl, f, k, j)
    {
      LightestStep(b, pwgts, tbl, f, k, j);
      if b.itpwgts[tbl[k].pid] * pwgts[tbl[j].pid] < b.itpwgts[tbl[j].pid] * pwgts[tbl[k].pid] { k := j; }
    }
    assert Lightest(b, pwgts, tbl, from, vwgt, k);
    var to := tbl[k].pid;
    if pwgts[from] < b.maxwgt[from] && pwgts[to] > b.minwgt[to] && tbl[k].ed - r.id < 0 { return |tbl|; }
  }
}
