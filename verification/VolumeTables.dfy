/**
 The per-vertex records of the volume refiner (VRInfoType and VEDegreeType), what it means for a record to
 agree with a partition, and what each edit of a record does to the gains stored in the others.
 */
module VolumeTables {
  import opened Graphs
  import opened Volume
  import Finite

  /** One adjacent part: weight and number of the edges to it, and the volume gain of moving there. */
  datatype EDegree = EDegree(pid: int, ed: int, ned: int, gv: int)

  datatype VRInfo = VRInfo(id: int, ed: int, nid: int, gv: int, edegrees: seq<EDegree>)

  ghost predicate HasPid(tbl: seq<EDegree>, q: int)
  {
    exists k :: 0 <= k < |tbl| && tbl[k].pid == q
  }

  predicate Distinct(tbl: seq<EDegree>)
  {
    forall k, l :: 0 <= k < |tbl| && 0 <= l < |tbl| && tbl[k].pid == tbl[l].pid ==> k == l
  }

  /** The number of edges to part `q` that the table records. */
  ghost function Nd(tbl: seq<EDegree>, q: int): int
  {
    if HasPid(tbl, q) then var k :| 0 <= k < |tbl| && tbl[k].pid == q; tbl[k].ned else 0
  }

  ghost function TNeds(tbl: seq<EDegree>): int -> int
  {
    q => Nd(tbl, q)
  }

  lemma NdAt(tbl: seq<EDegree>, k: nat)
    requires Distinct(tbl) && k < |tbl|
    ensures Nd(tbl, tbl[k].pid) == tbl[k].ned
  {
  }

  /** The table lists exactly the parts other than `own` with a positive count, with the given counts and weights. */
  ghost predicate Matches(tbl: seq<EDegree>, own: int, cnt: int -> int, wt: int -> int)
  {
    && Distinct(tbl)
    && (forall k :: 0 <= k < |tbl| ==>
         tbl[k].pid != own && tbl[k].ned == cnt(tbl[k].pid) > 0 && tbl[k].ed == wt(tbl[k].pid))
    && (forall q :: q != own && cnt(q) > 0 ==> HasPid(tbl, q))
  }

  ghost predicate TableOk(g: Valid, where: seq<int>, u: nat, tbl: seq<EDegree>)
    requires Partition(g, where) && u < Size(g)
  {
    Matches(tbl, where[u], Neds(g, where, u), Degs(g, where, u))
  }

  /** Everything in the record except the gains agrees with the partition. */
  ghost predicate InfoOk(g: Valid, where: seq<int>, u: nat, r: VRInfo)
    requires Partition(g, where) && u < Size(g)
  {
    && r.id == DegTo(g, where, u, where[u])
    && r.ed == ExtTo(g, where, u)
    && r.nid == Ned(g, where, u, where[u])
    && TableOk(g, where, u, r.edegrees)
  }

  /** The gains in the record are the gains of the partition. */
  ghost predicate GainsOk(g: Valid, where: seq<int>, u: nat, r: VRInfo)
    requires Partition(g, where) && u < Size(g)
  {
    forall k :: 0 <= k < |r.edegrees| ==> r.edegrees[k].gv == Gain(g, where, u, r.edegrees[k].pid)
  }

  lemma MatchesNd(tbl: seq<EDegree>, own: int, cnt: int -> int, wt: int -> int, q: int)
    requires Matches(tbl, own, cnt, wt) && q != own && cnt(q) >= 0
    ensures Nd(tbl, q) == cnt(q) && (HasPid(tbl, q) <==> cnt(q) > 0)
  {
    if HasPid(tbl, q) {
      var k :| 0 <= k < |tbl| && tbl[k].pid == q;
      NdAt(tbl, k);
    }
  }

  lemma MatchesSame(tbl: seq<EDegree>, own: int, cnt: int -> int, wt: int -> int, cnt': int -> int, wt': int -> int)
    requires Matches(tbl, own, cnt, wt)
    requires forall q :: q != own ==> cnt'(q) == cnt(q) && wt'(q) == wt(q)
    ensures Matches(tbl, own, cnt', wt')
  {
  }

  // ----- The two edits of a table

  /** Take one edge of weight `w` off entry `k`; an entry without edges is overwritten by the last one. */
  function DropEdge(tbl: seq<EDegree>, k: nat, w: int): seq<EDegree>
    requires k < |tbl|
  {
    var e := tbl[k];
    if e.ned == 1 then Finite.SwapOut(tbl, k)
    else tbl[k := e.(ed := e.ed - w, ned := e.ned - 1)]
  }

  /** Put one edge of weight `w` on the entry for part `q`, at `k` or, when there is none, at the end. */
  function AddEdge(tbl: seq<EDegree>, k: nat, q: int, w: int, gv: int): seq<EDegree>
    requires k <= |tbl|
  {
    if k == |tbl| then tbl + [EDegree(q, w, 1, gv)]
    else tbl[k := tbl[k].(ed := tbl[k].ed + w, ned := tbl[k].ned + 1)]
  }

  /** Every entry of `tbl'` has the part and the gain of an entry of `tbl`. */
  ghost predicate KeepsEntries(tbl: seq<EDegree>, tbl': seq<EDegree>)
  {
    forall l' :: 0 <= l' < |tbl'| ==> exists l :: 0 <= l < |tbl| && tbl'[l'].pid == tbl[l].pid && tbl'[l'].gv == tbl[l].gv
  }

  /** Away from two parts, one of which was the own part, nothing changes. */
  ghost predicate Elsewhere(own: int, q0: int, cnt: int -> int, wt: int -> int, own': int, cnt': int -> int, wt': int -> int)
  {
    forall q :: q != own && q != q0 ==> q != own' && cnt'(q) == cnt(q) && wt'(q) == wt(q)
  }

  lemma LessElsewhere(own: int, q: int, cnt: int -> int, d: int, wt: int -> int, w: int)
    ensures Elsewhere(own, q, cnt, wt, own, Less(cnt, q, d), Less(wt, q, w))
    ensures Less(cnt, q, d)(q) == cnt(q) - d && Less(wt, q, w)(q) == wt(q) - w
  {
  }

  lemma SwapOutDistinct(tbl: seq<EDegree>, k: nat)
    requires Distinct(tbl) && k < |tbl|
    ensures Distinct(Finite.SwapOut(tbl, k)) && forall l :: 0 <= l < |tbl| - 1 ==> Finite.SwapOut(tbl, k)[l].pid != tbl[k].pid
  {
  }

  /** Entry `k` goes, because its part becomes the own one or has no edges left. */
  lemma SwapOutMatches(tbl: seq<EDegree>, own: int, cnt: int -> int, wt: int -> int, k: nat, own': int, cnt': int -> int, wt': int -> int)
    requires Matches(tbl, own, cnt, wt) && k < |tbl| && Elsewhere(own, tbl[k].pid, cnt, wt, own', cnt', wt')
    requires own' == tbl[k].pid || cnt'(tbl[k].pid) <= 0
    requires own' == own || cnt'(own) <= 0
    ensures Matches(Finite.SwapOut(tbl, k), own', cnt', wt')
  {
    var tbl' := Finite.SwapOut(tbl, k);
    SwapOutDistinct(tbl, k);
    forall l' | 0 <= l' < |tbl'|
      ensures var e := tbl'[l']; e.pid != own' && e.ned == cnt'(e.pid) > 0 && e.ed == wt'(e.pid)
    {
      assert tbl'[l'] == tbl[if l' == k then |tbl| - 1 else l'];
    }
    forall q | q != own' && cnt'(q) > 0 ensures HasPid(tbl', q) {
      assert q != own && q != tbl[k].pid && cnt(q) > 0;
      assert HasPid(tbl, q);
      var l :| 0 <= l < |tbl| && tbl[l].pid == q;
      assert tbl'[if l == |tbl| - 1 then k else l].pid == q;
    }
  }

  /** Entry `k` is replaced, for the same part or for the old own part. */
  lemma ReplaceMatches(tbl: seq<EDegree>, own: int, cnt: int -> int, wt: int -> int, k: nat, e: EDegree,
                       own': int, cnt': int -> int, wt': int -> int)
    requires Matches(tbl, own, cnt, wt) && k < |tbl| && Elsewhere(own, tbl[k].pid, cnt, wt, own', cnt', wt')
    requires e.pid != own' && e.ned == cnt'(e.pid) > 0 && e.ed == wt'(e.pid)
    requires (e.pid == tbl[k].pid && own' == own) || (e.pid == own && own' == tbl[k].pid)
    ensures Matches(tbl[k := e], own', cnt', wt')
  {
    var tbl' := tbl[k := e];
    forall q | q != own' && cnt'(q) > 0 ensures HasPid(tbl', q) {
      if q == e.pid {
        assert tbl'[k].pid == q;
      } else {
        assert HasPid(tbl, q);
        var l :| 0 <= l < |tbl| && tbl[l].pid == q;
        assert tbl'[l].pid == q;
      }
    }
  }

  lemma DropMatches(tbl: seq<EDegree>, own: int, cnt: int -> int, wt: int -> int, k: nat, w: int)
    requires Matches(tbl, own, cnt, wt) && k < |tbl| && forall q :: cnt(q) >= 0
    ensures Matches(DropEdge(tbl, k, w), own, Less(cnt, tbl[k].pid, 1), Less(wt, tbl[k].pid, w))
    ensures KeepsEntries(tbl, DropEdge(tbl, k, w))
  {
    var e := tbl[k];
    DropKeepsEntries(tbl, k, w);
    LessElsewhere(own, e.pid, cnt, 1, wt, w);
    if e.ned == 1 {
      SwapOutMatches(tbl, own, cnt, wt, k, own, Less(cnt, e.pid, 1), Less(wt, e.pid, w));
    } else {
      ReplaceMatches(tbl, own, cnt, wt, k, e.(ed := e.ed - w, ned := e.ned - 1), own, Less(cnt, e.pid, 1), Less(wt, e.pid, w));
    }
  }

  lemma DropKeepsEntries(tbl: seq<EDegree>, k: nat, w: int)
    requires k < |tbl|
    ensures KeepsEntries(tbl, DropEdge(tbl, k, w))
  {
    var tbl' := DropEdge(tbl, k, w);
    forall l' | 0 <= l' < |tbl'| ensures exists l :: 0 <= l < |tbl| && tbl'[l'].pid == tbl[l].pid && tbl'[l'].gv == tbl[l].gv {
      var l := if tbl[k].ned == 1 && l' == k then |tbl| - 1 else l';
      assert tbl'[l'].pid == tbl[l].pid && tbl'[l'].gv == tbl[l].gv;
    }
  }

  /** A new entry at the end, for a part that had no edges. */
  lemma AppendMatches(tbl: seq<EDegree>, own: int, cnt: int -> int, wt: int -> int, e: EDegree, cnt': int -> int, wt': int -> int)
    requires Matches(tbl, own, cnt, wt) && !HasPid(tbl, e.pid) && Elsewhere(own, e.pid, cnt, wt, own, cnt', wt')
    requires e.pid != own && e.ned == cnt'(e.pid) > 0 && e.ed == wt'(e.pid)
    ensures Matches(tbl + [e], own, cnt', wt')
  {
    var tbl' := tbl + [e];
    forall q | q != own && cnt'(q) > 0 ensures HasPid(tbl', q) {
      if q == e.pid {
        assert tbl'[|tbl|].pid == q;
      } else {
        assert HasPid(tbl, q);
        var l :| 0 <= l < |tbl| && tbl[l].pid == q;
        assert tbl'[l].pid == q;
      }
    }
  }

  lemma AddMatches(tbl: seq<EDegree>, own: int, cnt: int -> int, wt: int -> int, k: nat, q: int, w: int, gv: int)
    requires Matches(tbl, own, cnt, wt) && k <= |tbl| && q != own && forall p :: cnt(p) >= 0
    requires if k < |tbl| then tbl[k].pid == q else !HasPid(tbl, q) && wt(q) == 0
    ensures Matches(AddEdge(tbl, k, q, w, gv), own, Less(cnt, q, -1), Less(wt, q, -w))
  {
    LessElsewhere(own, q, cnt, -1, wt, -w);
    if k == |tbl| {
      MatchesNd(tbl, own, cnt, wt, q);
      AppendMatches(tbl, own, cnt, wt, EDegree(q, w, 1, gv), Less(cnt, q, -1), Less(wt, q, -w));
    } else {
      var e := tbl[k];
      ReplaceMatches(tbl, own, cnt, wt, k, e.(ed := e.ed + w, ned := e.ned + 1), own, Less(cnt, q, -1), Less(wt, q, -w));
    }
  }

  // ----- Gains in terms of the tables

  ghost predicate Records(g: Valid, where: seq<int>, ri: seq<VRInfo>)
  {
    Partition(g, where) && |ri| == Size(g)
  }

  /** What vertex `ii` contributes to the gain of moving `u` to `p`, according to the table of `ii`. */
  ghost function Term(g: Valid, where: seq<int>, ri: seq<VRInfo>, ii: nat, u: nat, p: int): int
    requires Records(g, where, ri) && ii < Size(g) && u < Size(g)
  {
    Contribution(g.vsize[ii], where[u], where[ii], TNeds(ri[ii].edegrees), p)
  }

  /** The gain of moving `u` to `p` according to the tables, without the contribution of `skip`. */
  ghost function TableGain(g: Valid, where: seq<int>, ri: seq<VRInfo>, u: nat, p: int, skip: int, k: nat): int
    requires Records(g, where, ri) && u < Size(g) && k <= Size(g)
  {
    if k == 0 then 0
    else
      TableGain(g, where, ri, u, p, skip, k - 1)
      + if Adjacent(g, u, k - 1) && k - 1 != skip then Term(g, where, ri, k - 1, u, p) else 0
  }

  ghost predicate SameView(tbl: seq<EDegree>, tbl': seq<EDegree>)
  {
    forall q :: Nd(tbl', q) == Nd(tbl, q)
  }

  /** Editing one table changes one term. */
  lemma {:induction false} TableGainChange(g: Valid, where: seq<int>, ri: seq<VRInfo>, ri': seq<VRInfo>,
                                           u: nat, p: int, skip: int, x: nat, k: nat)
    requires Records(g, where, ri) && Records(g, where, ri') && u < Size(g) && x < Size(g) && k <= Size(g)
    requires forall ii :: 0 <= ii < Size(g) && ii != x ==> SameView(ri[ii].edegrees, ri'[ii].edegrees)
    ensures TableGain(g, where, ri', u, p, skip, k) == TableGain(g, where, ri, u, p, skip, k)
      + if x < k && Adjacent(g, u, x) && x != skip then Term(g, where, ri', x, u, p) - Term(g, where, ri, x, u, p) else 0
  {
    if k > 0 {
      TableGainChange(g, where, ri, ri', u, p, skip, x, k - 1);
      if k - 1 != x {
        assert SameView(ri[k - 1].edegrees, ri'[k - 1].edegrees);
      }
    }
  }

  /** The contribution only looks at two counts. */
  lemma TermIs(g: Valid, where: seq<int>, ri: seq<VRInfo>, ii: nat, u: nat, p: int)
    requires Records(g, where, ri) && ii < Size(g) && u < Size(g) && TableOk(g, where, ii, ri[ii].edegrees)
    ensures Term(g, where, ri, ii, u, p) == Contribution(g.vsize[ii], where[u], where[ii], Neds(g, where, ii), p)
  {
    if where[u] != where[ii] {
      MatchesNd(ri[ii].edegrees, where[ii], Neds(g, where, ii), Degs(g, where, ii), where[u]);
    }
    if p != where[ii] {
      MatchesNd(ri[ii].edegrees, where[ii], Neds(g, where, ii), Degs(g, where, ii), p);
    }
  }

  lemma TableGainStep(g: Valid, where: seq<int>, ri: seq<VRInfo>, u: nat, p: int, k: nat)
    requires Records(g, where, ri) && u < Size(g) && k < Size(g) && TableOk(g, where, k, ri[k].edegrees)
    ensures TableGain(g, where, ri, u, p, -1, k + 1) - TableGain(g, where, ri, u, p, -1, k) ==
      GainUpTo(g, where, u, p, k + 1) - GainUpTo(g, where, u, p, k)
  {
    TermIs(g, where, ri, k, u, p);
  }

  /** When every table agrees with the partition, so do the gains computed from the tables. */
  lemma {:induction false} TableGainIsGain(g: Valid, where: seq<int>, ri: seq<VRInfo>, u: nat, p: int, k: nat)
    requires Records(g, where, ri) && u < Size(g) && k <= Size(g)
    requires forall ii: nat :: ii < Size(g) ==> TableOk(g, where, ii, ri[ii].edegrees)
    ensures TableGain(g, where, ri, u, p, -1, k) == GainUpTo(g, where, u, p, k)
  {
    if k > 0 {
      TableGainIsGain(g, where, ri, u, p, k - 1);
      TableGainStep(g, where, ri, u, p, k - 1);
    }
  }

  lemma {:induction false} SkipOne(g: Valid, where: seq<int>, ri: seq<VRInfo>, u: nat, p: int, v: nat, k: nat)
    requires Records(g, where, ri) && u < Size(g) && v < Size(g) && k <= Size(g)
    ensures TableGain(g, where, ri, u, p, -1, k) == TableGain(g, where, ri, u, p, v, k)
      + if v < k && Adjacent(g, u, v) then Term(g, where, ri, v, u, p) else 0
  {
    if k > 0 {
      SkipOne(g, where, ri, u, p, v, k - 1);
    }
  }

  /** Without the term of `v`, the part of `v` does not matter to the gains of the others. */
  lemma {:induction false} SkipMoved(g: Valid, where: seq<int>, q: int, ri: seq<VRInfo>, u: nat, p: int, v: nat, k: nat)
    requires Records(g, where, ri) && u < Size(g) && v < Size(g) && k <= Size(g) && u != v
    ensures TableGain(g, where[v := q], ri, u, p, v, k) == TableGain(g, where, ri, u, p, v, k)
  {
    if k > 0 {
      SkipMoved(g, where, q, ri, u, p, v, k - 1);
    }
  }

  // ----- Edits that keep the stored gains in step with the tables

  /** The ways the code shifts the gains stored around a vertex: at the neighbours of `ii`, the entries for
      part `q`; all entries of one vertex; or, at the neighbours of `v`, what `v` contributes to them when it
      sits in part `own` and has table `tbl`. */
  datatype Shift =
    | OfPart(ii: nat, q: int, delta: int)
    | OfOwner(owner: int, delta: int)
    | OfVertex(v: nat, tbl: seq<EDegree>, own: int, sign: int)

  ghost predicate ShiftIn(g: Valid, sh: Shift)
  {
    (sh.OfPart? ==> sh.ii < Size(g)) && (sh.OfVertex? ==> sh.v < Size(g))
  }

  /** How much the gain of the entry for part `p` in the record of `u` is shifted. */
  ghost function Amount(g: Valid, where: seq<int>, sh: Shift, u: nat, p: int): int
    requires Partition(g, where) && ShiftIn(g, sh) && u < Size(g)
  {
    match sh
    case OfPart(ii, q, delta) => if Adjacent(g, ii, u) && p == q then delta else 0
    case OfOwner(owner, delta) => if u == owner then delta else 0
    case OfVertex(v, tbl, own, sign) =>
      if Adjacent(g, v, u) then sign * Contribution(g.vsize[v], where[u], own, TNeds(tbl), p) else 0
  }

  /** Only the gains differ. */
  ghost predicate SameShape(r: VRInfo, r': VRInfo)
  {
    && r' == r.(edegrees := r'.edegrees) && |r'.edegrees| == |r.edegrees|
    && forall k :: 0 <= k < |r.edegrees| ==> r'.edegrees[k] == r.edegrees[k].(gv := r'.edegrees[k].gv)
  }

  /** Only the gains differ, and they differ by the shift. */
  ghost predicate Shifted(g: Valid, where: seq<int>, sh: Shift, u: nat, r: VRInfo, r': VRInfo)
    requires Partition(g, where) && ShiftIn(g, sh) && u < Size(g)
  {
    && SameShape(r, r')
    && forall k :: 0 <= k < |r.edegrees| ==> r'.edegrees[k].gv == r.edegrees[k].gv + Amount(g, where, sh, u, r.edegrees[k].pid)
  }

  lemma ShapeView(r: VRInfo, r': VRInfo)
    requires SameShape(r, r') && Distinct(r.edegrees)
    ensures SameView(r.edegrees, r'.edegrees) && Distinct(r'.edegrees)
  {
    forall q ensures Nd(r'.edegrees, q) == Nd(r.edegrees, q) {
      if k :| 0 <= k < |r.edegrees| && r.edegrees[k].pid == q {
        assert r'.edegrees[k].pid == q;
        NdAt(r.edegrees, k);
        NdAt(r'.edegrees, k);
      }
    }
  }

  /** The stored gains of `u` are what the tables say, leaving out `v`. */
  ghost predicate InStep(g: Valid, where: seq<int>, ri: seq<VRInfo>, u: nat, v: nat)
    requires Records(g, where, ri) && u < Size(g)
  {
    forall k :: 0 <= k < |ri[u].edegrees| ==>
      ri[u].edegrees[k].gv == TableGain(g, where, ri, u, ri[u].edegrees[k].pid, v, Size(g))
  }

  /** How the term of `ii` in the gain of moving `u` to `p` changes between two states of the table of `ii`. */
  ghost function TermChange(g: Valid, where: seq<int>, ri: seq<VRInfo>, ri': seq<VRInfo>, ii: nat, u: nat, p: int): int
    requires Records(g, where, ri) && Records(g, where, ri') && ii < Size(g) && u < Size(g)
  {
    if Adjacent(g, u, ii) then Term(g, where, ri', ii, u, p) - Term(g, where, ri, ii, u, p) else 0
  }

  ghost predicate AllDistinct(ri: seq<VRInfo>)
  {
    forall u :: 0 <= u < |ri| ==> Distinct(ri[u].edegrees)
  }

  /** The table of `ii` was edited, and every other record was shifted. */
  ghost predicate Edited(g: Valid, where: seq<int>, ri: seq<VRInfo>, ri': seq<VRInfo>, ii: nat, sh: Shift)
  {
    && |ri'| == |ri| == Size(g) && ii < Size(g) && Partition(g, where) && ShiftIn(g, sh) && AllDistinct(ri)
    && forall u: nat :: u < Size(g) && u != ii ==> Shifted(g, where, sh, u, ri[u], ri'[u])
  }

  lemma EditedViews(g: Valid, where: seq<int>, ri: seq<VRInfo>, ri': seq<VRInfo>, ii: nat, sh: Shift)
    requires Edited(g, where, ri, ri', ii, sh)
    ensures forall u :: 0 <= u < Size(g) && u != ii ==> SameView(ri[u].edegrees, ri'[u].edegrees)
  {
    forall u: nat | u < Size(g) && u != ii ensures SameView(ri[u].edegrees, ri'[u].edegrees) {
      ShapeView(ri[u], ri'[u]);
    }
  }

  /** A record shifted by exactly the change of the term stays in step. */
  lemma EditKeepsOther(g: Valid, where: seq<int>, ri: seq<VRInfo>, ri': seq<VRInfo>, ii: nat, sh: Shift, u: nat, v: nat)
    requires Edited(g, where, ri, ri', ii, sh) && u < Size(g) && u != ii && u != v && ii != v
    requires InStep(g, where, ri, u, v)
    requires forall p :: Amount(g, where, sh, u, p) == TermChange(g, where, ri, ri', ii, u, p)
    ensures InStep(g, where, ri', u, v)
  {
    EditedViews(g, where, ri, ri', ii, sh);
    assert Shifted(g, where, sh, u, ri[u], ri'[u]);
    forall k | 0 <= k < |ri'[u].edegrees|
      ensures ri'[u].edegrees[k].gv == TableGain(g, where, ri', u, ri'[u].edegrees[k].pid, v, Size(g))
    {
      TableGainChange(g, where, ri, ri', u, ri[u].edegrees[k].pid, v, ii, Size(g));
    }
  }

  /** The edited record stays in step when its entries keep their gains: its own table is no part of them. */
  lemma EditKeepsSelf(g: Valid, where: seq<int>, ri: seq<VRInfo>, ri': seq<VRInfo>, ii: nat, sh: Shift, v: nat)
    requires Edited(g, where, ri, ri', ii, sh)
    requires InStep(g, where, ri, ii, v)
    requires KeepsEntries(ri[ii].edegrees, ri'[ii].edegrees)
    ensures InStep(g, where, ri', ii, v)
  {
    EditedViews(g, where, ri, ri', ii, sh);
    WSymmetric(g, ii, ii);
    forall k | 0 <= k < |ri'[ii].edegrees|
      ensures ri'[ii].edegrees[k].gv == TableGain(g, where, ri', ii, ri'[ii].edegrees[k].pid, v, Size(g))
    {
      TableGainChange(g, where, ri, ri', ii, ri'[ii].edegrees[k].pid, v, ii, Size(g));
    }
  }

  // ----- What the two edits do to the term

  /** Losing the last edge to `q` disconnects the part; dropping to one edge makes its owner the only link. */
  lemma DropChange(vs: int, m: int, own: int, tbl: seq<EDegree>, cnt: int -> int, wt: int -> int, k: nat, w: int, p: int)
    requires Matches(tbl, own, cnt, wt) && k < |tbl| && forall q :: cnt(q) >= 0
    requires tbl[k].ned == 1 ==> m != tbl[k].pid
    ensures Contribution(vs, m, own, TNeds(DropEdge(tbl, k, w)), p) - Contribution(vs, m, own, TNeds(tbl), p) ==
      if tbl[k].ned == 1 then (if p == tbl[k].pid then -vs else 0)
      else if tbl[k].ned == 2 && m == tbl[k].pid then vs else 0
  {
    DropMatches(tbl, own, cnt, wt, k, w);
    var q := tbl[k].pid;
    forall x | x != own ensures Nd(tbl, x) == cnt(x) && Nd(DropEdge(tbl, k, w), x) == Less(cnt, q, 1)(x) {
      MatchesNd(tbl, own, cnt, wt, x);
      MatchesNd(DropEdge(tbl, k, w), own, Less(cnt, q, 1), Less(wt, q, w), x);
    }
  }

  /** A first edge to `q` connects the part; a second one means its owner is not the only link any more. */
  lemma AddChange(vs: int, m: int, own: int, tbl: seq<EDegree>, cnt: int -> int, wt: int -> int, k: nat, q: int, w: int, gv: int, p: int)
    requires Matches(tbl, own, cnt, wt) && k <= |tbl| && q != own && forall x :: cnt(x) >= 0
    requires if k < |tbl| then tbl[k].pid == q else !HasPid(tbl, q) && wt(q) == 0
    requires k == |tbl| ==> m != q
    ensures Contribution(vs, m, own, TNeds(AddEdge(tbl, k, q, w, gv)), p) - Contribution(vs, m, own, TNeds(tbl), p) ==
      if k == |tbl| then (if p == q then vs else 0)
      else if tbl[k].ned == 1 && m == q then -vs else 0
  {
    AddMatches(tbl, own, cnt, wt, k, q, w, gv);
    forall x | x != own ensures Nd(tbl, x) == cnt(x) && Nd(AddEdge(tbl, k, q, w, gv), x) == Less(cnt, q, -1)(x) {
      MatchesNd(tbl, own, cnt, wt, x);
      MatchesNd(AddEdge(tbl, k, q, w, gv), own, Less(cnt, q, -1), Less(wt, q, -w), x);
    }
    if k == |tbl| {
      MatchesNd(tbl, own, cnt, wt, q);
    }
  }

  // ----- One neighbour `ii` of the moved vertex `v`, whose table still describes the old partition

  /** `where` is the partition after `v` moved from part `from`; the table of `ii` is the one before. */
  ghost predicate Stale(g: Valid, where: seq<int>, v: nat, from: int, ii: nat, tbl: seq<EDegree>)
    requires Partition(g, where) && v < Size(g) && ii < Size(g)
  {
    ii != v && Adjacent(g, ii, v) && where[v] != from && TableOk(g, where[v := from], ii, tbl)
  }

  /** The table of `ii` after the edge to `v` was taken off part `from`. */
  ghost predicate Dropped(g: Valid, where: seq<int>, v: nat, from: int, ii: nat, tbl: seq<EDegree>)
    requires Partition(g, where) && v < Size(g) && ii < Size(g)
  {
    var before := where[v := from];
    && ii != v && Adjacent(g, ii, v) && where[v] != from
    && Matches(tbl, where[ii], Less(Neds(g, before, ii), from, 1), Less(Degs(g, before, ii), from, W(g, ii, v)))
  }

  lemma DropTable(g: Valid, where: seq<int>, v: nat, from: int, ii: nat, tbl: seq<EDegree>, k: nat)
    requires Partition(g, where) && v < Size(g) && ii < Size(g) && Stale(g, where, v, from, ii, tbl)
    requires k < |tbl| && tbl[k].pid == from
    ensures Dropped(g, where, v, from, ii, DropEdge(tbl, k, W(g, ii, v))) && KeepsEntries(tbl, DropEdge(tbl, k, W(g, ii, v)))
    ensures tbl[k].ned == Ned(g, where, ii, from) + 1
  {
    var before := where[v := from];
    DropMatches(tbl, where[ii], Neds(g, before, ii), Degs(g, before, ii), k, W(g, ii, v));
    MoveCount(g, before, v, where[v], ii, from, Size(g));
    assert before[v := where[v]] == where;
  }

  lemma StaleHasFrom(g: Valid, where: seq<int>, v: nat, from: int, ii: nat, tbl: seq<EDegree>)
    requires Partition(g, where) && v < Size(g) && ii < Size(g) && Stale(g, where, v, from, ii, tbl) && where[ii] != from
    ensures HasPid(tbl, from)
  {
    CountMember(g, where[v := from], ii, from, Size(g), v);
    assert Neds(g, where[v := from], ii)(from) > 0;
  }

  /** A vertex without edges to part `from` loses the entry only if it had no edge there but the one to `v`. */
  lemma DropTerms(g: Valid, where: seq<int>, ri: seq<VRInfo>, ri': seq<VRInfo>, v: nat, from: int, ii: nat, k: nat, u: nat, p: int)
    requires Records(g, where, ri) && Records(g, where, ri') && v < Size(g) && ii < Size(g) && u < Size(g) && u != v
    requires Stale(g, where, v, from, ii, ri[ii].edegrees) && k < |ri[ii].edegrees| && ri[ii].edegrees[k].pid == from
    requires ri'[ii].edegrees == DropEdge(ri[ii].edegrees, k, W(g, ii, v))
    ensures TermChange(g, where, ri, ri', ii, u, p) ==
      if !Adjacent(g, u, ii) then 0
      else if ri[ii].edegrees[k].ned == 1 then (if p == from then -g.vsize[ii] else 0)
      else if ri[ii].edegrees[k].ned == 2 && where[u] == from then g.vsize[ii] else 0
  {
    var before := where[v := from];
    DropTable(g, where, v, from, ii, ri[ii].edegrees, k);
    if Adjacent(g, u, ii) {
      WSymmetric(g, u, ii);
      if where[u] == from {
        CountMember(g, where, ii, from, Size(g), u);
      }
      DropChange(g.vsize[ii], where[u], where[ii], ri[ii].edegrees, Neds(g, before, ii), Degs(g, before, ii), k, W(g, ii, v), p);
    }
  }

  /** What the table of `ii` counts before the edge to `v` is put on part `where[v]`. */
  lemma DroppedCounts(g: Valid, where: seq<int>, v: nat, from: int, ii: nat, q: int)
    requires Partition(g, where) && v < Size(g) && ii < Size(g) && ii != v && Adjacent(g, ii, v) && where[v] != from
    ensures Less(Neds(g, where[v := from], ii), from, 1)(q) == Ned(g, where, ii, q) - (if q == where[v] then 1 else 0) >= 0
    ensures Less(Degs(g, where[v := from], ii), from, W(g, ii, v))(q) ==
      DegTo(g, where, ii, q) - if q == where[v] then W(g, ii, v) else 0
  {
    var before := where[v := from];
    assert before[v := where[v]] == where;
    MoveCount(g, before, v, where[v], ii, q, Size(g));
    MoveDeg(g, before, v, where[v], ii, q, Size(g));
    if q == where[v] {
      CountMember(g, where, ii, q, Size(g), v);
    }
  }

  lemma AddTable(g: Valid, where: seq<int>, v: nat, from: int, ii: nat, tbl: seq<EDegree>, k: nat, gv: int)
    requires Partition(g, where) && v < Size(g) && ii < Size(g) && Dropped(g, where, v, from, ii, tbl) && where[ii] != where[v]
    requires k <= |tbl| && (if k < |tbl| then tbl[k].pid == where[v] else !HasPid(tbl, where[v]))
    ensures TableOk(g, where, ii, AddEdge(tbl, k, where[v], W(g, ii, v), gv))
    ensures k == |tbl| ==> Ned(g, where, ii, where[v]) == 1
    ensures k < |tbl| ==> tbl[k].ned == Ned(g, where, ii, where[v]) - 1
  {
    var before, to, w := where[v := from], where[v], W(g, ii, v);
    var cnt, wt := Less(Neds(g, before, ii), from, 1), Less(Degs(g, before, ii), from, w);
    forall q ensures cnt(q) == Ned(g, where, ii, q) - (if q == to then 1 else 0) >= 0 && wt(q) == DegTo(g, where, ii, q) - if q == to then w else 0 {
      DroppedCounts(g, where, v, from, ii, q);
    }
    if k == |tbl| {
      assert cnt(to) == 0;
      DroppedWeightZero(g, where, v, ii);
    }
    AddMatches(tbl, where[ii], cnt, wt, k, to, w, gv);
    MatchesSame(AddEdge(tbl, k, to, w, gv), where[ii], Less(cnt, to, -1), Less(wt, to, -w), Neds(g, where, ii), Degs(g, where, ii));
  }

  /** With `v` as the only neighbour in its part, its edge is the whole weight there. */
  lemma DroppedWeightZero(g: Valid, where: seq<int>, v: nat, ii: nat)
    requires Partition(g, where) && v < Size(g) && ii < Size(g) && ii != v && Adjacent(g, ii, v)
    requires Ned(g, where, ii, where[v]) == 1
    ensures DegTo(g, where, ii, where[v]) == W(g, ii, v)
  {
    var away := where[v] + 1;
    MoveCount(g, where, v, away, ii, where[v], Size(g));
    MoveDeg(g, where, v, away, ii, where[v], Size(g));
    CountSign(g, where[v := away], ii, where[v], Size(g));
  }

  lemma AddTerms(g: Valid, where: seq<int>, ri: seq<VRInfo>, ri': seq<VRInfo>, v: nat, from: int, ii: nat, k: nat, gv: int, u: nat, p: int)
    requires Records(g, where, ri) && Records(g, where, ri') && v < Size(g) && ii < Size(g) && u < Size(g) && u != v
    requires Dropped(g, where, v, from, ii, ri[ii].edegrees) && where[ii] != where[v] && k <= |ri[ii].edegrees|
    requires if k < |ri[ii].edegrees| then ri[ii].edegrees[k].pid == where[v] else !HasPid(ri[ii].edegrees, where[v])
    requires ri'[ii].edegrees == AddEdge(ri[ii].edegrees, k, where[v], W(g, ii, v), gv)
    ensures TermChange(g, where, ri, ri', ii, u, p) ==
      if !Adjacent(g, u, ii) then 0
      else if k == |ri[ii].edegrees| then (if p == where[v] then g.vsize[ii] else 0)
      else if ri[ii].edegrees[k].ned == 1 && where[u] == where[v] then -g.vsize[ii] else 0
  {
    var before, to, w := where[v := from], where[v], W(g, ii, v);
    var cnt, wt := Less(Neds(g, before, ii), from, 1), Less(Degs(g, before, ii), from, w);
    AddTable(g, where, v, from, ii, ri[ii].edegrees, k, gv);
    if Adjacent(g, u, ii) {
      WSymmetric(g, u, ii);
      forall q ensures cnt(q) >= 0 {
        DroppedCounts(g, where, v, from, ii, q);
      }
      DroppedCounts(g, where, v, from, ii, to);
      if k == |ri[ii].edegrees| {
        DroppedWeightZero(g, where, v, ii);
        if where[u] == to {
          TwoInPart(g, where, ii, u, v);
        }
      }
      AddChange(g.vsize[ii], where[u], where[ii], ri[ii].edegrees, cnt, wt, k, to, w, gv, p);
    }
  }

  lemma TwoInPart(g: Valid, where: seq<int>, ii: nat, u: nat, v: nat)
    requires Partition(g, where) && ii < Size(g) && u < Size(g) && v < Size(g) && u != v
    requires Adjacent(g, ii, u) && Adjacent(g, ii, v) && where[u] == where[v]
    ensures Ned(g, where, ii, where[v]) >= 2
  {
    if u < v {
      CountTwo(g, where, ii, where[v], Size(g), u, v);
    } else {
      CountTwo(g, where, ii, where[v], Size(g), v, u);
    }
  }

  lemma ShapeTable(r: VRInfo, r': VRInfo, own: int, cnt: int -> int, wt: int -> int)
    requires SameShape(r, r') && Matches(r.edegrees, own, cnt, wt)
    ensures Matches(r'.edegrees, own, cnt, wt)
  {
    forall q | HasPid(r.edegrees, q) ensures HasPid(r'.edegrees, q) {
      var k :| 0 <= k < |r.edegrees| && r.edegrees[k].pid == q;
      assert r'.edegrees[k].pid == q;
    }
  }

  lemma ShapeInfo(g: Valid, where: seq<int>, u: nat, r: VRInfo, r': VRInfo)
    requires Partition(g, where) && u < Size(g) && SameShape(r, r') && InfoOk(g, where, u, r)
    ensures InfoOk(g, where, u, r')
  {
    ShapeTable(r, r', where[u], Neds(g, where, u), Degs(g, where, u));
  }

  /** What an edit of the table of `ii` must leave behind. */
  ghost predicate KeptInStep(g: Valid, where: seq<int>, ri: seq<VRInfo>, ri': seq<VRInfo>, ii: nat, v: nat)
    requires Records(g, where, ri) && Records(g, where, ri') && ii < Size(g)
  {
    && (forall u: nat :: u < Size(g) && u != ii ==> SameShape(ri[u], ri'[u]))
    && (forall u: nat :: u < Size(g) && u != ii && u != v && InStep(g, where, ri, u, v) ==> InStep(g, where, ri', u, v))
  }

  /** The edit keeps every record but that of `v` in step, when all shifts are the changes of the term of `ii`. */
  lemma EditKeeps(g: Valid, where: seq<int>, ri: seq<VRInfo>, ri': seq<VRInfo>, ii: nat, sh: Shift, v: nat)
    requires Edited(g, where, ri, ri', ii, sh) && ii != v
    requires forall u: nat, p :: u < Size(g) && u != ii && u != v ==>
      Amount(g, where, sh, u, p) == TermChange(g, where, ri, ri', ii, u, p)
    ensures KeptInStep(g, where, ri, ri', ii, v)
  {
    forall u: nat | u < Size(g) && u != ii && u != v && InStep(g, where, ri, u, v) ensures InStep(g, where, ri', u, v) {
      EditKeepsOther(g, where, ri, ri', ii, sh, u, v);
    }
    forall u: nat | u < Size(g) && u != ii ensures SameShape(ri[u], ri'[u]) {
      assert Shifted(g, where, sh, u, ri[u], ri'[u]);
    }
  }

  /** The shift that DropFrom performs, in terms of the number of edges the entry had. */
  ghost predicate DropShift(g: Valid, where: seq<int>, v: nat, from: int, ii: nat, ned: int, sh: Shift)
    requires Partition(g, where) && ii < Size(g)
  {
    if ned == 1 then sh == OfPart(ii, from, -g.vsize[ii])
    else if ned == 2 then && sh.OfOwner? && sh.delta == g.vsize[ii] && 0 <= sh.owner < Size(g) && sh.owner != v
                          && Adjacent(g, ii, sh.owner) && where[sh.owner] == from
    else sh == OfOwner(-1, 0)
  }

  lemma DropShiftIsChange(g: Valid, where: seq<int>, ri: seq<VRInfo>, ri': seq<VRInfo>, v: nat, from: int, ii: nat, k: nat,
                          sh: Shift, u: nat, p: int)
    requires Records(g, where, ri) && Records(g, where, ri') && v < Size(g) && ii < Size(g) && u < Size(g) && u != v && u != ii
    requires Stale(g, where, v, from, ii, ri[ii].edegrees) && k < |ri[ii].edegrees| && ri[ii].edegrees[k].pid == from
    requires ri'[ii].edegrees == DropEdge(ri[ii].edegrees, k, W(g, ii, v))
    requires DropShift(g, where, v, from, ii, ri[ii].edegrees[k].ned, sh)
    ensures Amount(g, where, sh, u, p) == TermChange(g, where, ri, ri', ii, u, p)
  {
    DropTable(g, where, v, from, ii, ri[ii].edegrees, k);
    DropTerms(g, where, ri, ri', v, from, ii, k, u, p);
    WSymmetric(g, u, ii);
    if ri[ii].edegrees[k].ned == 2 && u != sh.owner && Adjacent(g, ii, u) && where[u] == from {
      TwoInPart(g, where, ii, u, sh.owner);
    }
  }

  lemma DropKeeps(g: Valid, where: seq<int>, ri: seq<VRInfo>, ri': seq<VRInfo>, v: nat, from: int, ii: nat, k: nat, sh: Shift)
    requires Edited(g, where, ri, ri', ii, sh) && v < Size(g)
    requires Stale(g, where, v, from, ii, ri[ii].edegrees) && k < |ri[ii].edegrees| && ri[ii].edegrees[k].pid == from
    requires ri'[ii].edegrees == DropEdge(ri[ii].edegrees, k, W(g, ii, v))
    requires DropShift(g, where, v, from, ii, ri[ii].edegrees[k].ned, sh)
    ensures KeptInStep(g, where, ri, ri', ii, v)
    ensures InStep(g, where, ri, ii, v) ==> InStep(g, where, ri', ii, v)
  {
    DropTable(g, where, v, from, ii, ri[ii].edegrees, k);
    forall u: nat, p | u < Size(g) && u != ii && u != v
      ensures Amount(g, where, sh, u, p) == TermChange(g, where, ri, ri', ii, u, p)
    {
      DropShiftIsChange(g, where, ri, ri', v, from, ii, k, sh, u, p);
    }
    EditKeeps(g, where, ri, ri', ii, sh, v);
    if InStep(g, where, ri, ii, v) {
      EditKeepsSelf(g, where, ri, ri', ii, sh, v);
    }
  }

  /** The shift that AddTo performs; `ned` is 0 when a new entry was made. */
  ghost predicate AddShift(g: Valid, where: seq<int>, v: nat, ii: nat, ned: int, sh: Shift)
    requires Partition(g, where) && ii < Size(g) && v < Size(g)
  {
    if ned == 0 then sh == OfPart(ii, where[v], g.vsize[ii])
    else if ned == 1 then && sh.OfOwner? && sh.delta == -g.vsize[ii] && 0 <= sh.owner < Size(g) && sh.owner != v
                          && Adjacent(g, ii, sh.owner) && where[sh.owner] == where[v]
    else sh == OfOwner(-1, 0)
  }

  lemma AddShiftIsChange(g: Valid, where: seq<int>, ri: seq<VRInfo>, ri': seq<VRInfo>, v: nat, from: int, ii: nat, k: nat, gv: int,
                         sh: Shift, u: nat, p: int)
    requires Records(g, where, ri) && Records(g, where, ri') && v < Size(g) && ii < Size(g) && u < Size(g) && u != v && u != ii
    requires Dropped(g, where, v, from, ii, ri[ii].edegrees) && where[ii] != where[v] && k <= |ri[ii].edegrees|
    requires if k < |ri[ii].edegrees| then ri[ii].edegrees[k].pid == where[v] else !HasPid(ri[ii].edegrees, where[v])
    requires ri'[ii].edegrees == AddEdge(ri[ii].edegrees, k, where[v], W(g, ii, v), gv)
    requires AddShift(g, where, v, ii, if k < |ri[ii].edegrees| then ri[ii].edegrees[k].ned else 0, sh)
    ensures Amount(g, where, sh, u, p) == TermChange(g, where, ri, ri', ii, u, p)
  {
    AddTable(g, where, v, from, ii, ri[ii].edegrees, k, gv);
    AddTerms(g, where, ri, ri', v, from, ii, k, gv, u, p);
    WSymmetric(g, u, ii);
    var tbl := ri[ii].edegrees;
    if k < |tbl| {
      assert tbl[k].ned > 0;
      if tbl[k].ned == 1 && u != sh.owner && Adjacent(g, ii, u) && where[u] == where[v] {
        ThreeInPart(g, where, ii, u, sh.owner, v);
      }
    }
  }

  lemma AddKeeps(g: Valid, where: seq<int>, ri: seq<VRInfo>, ri': seq<VRInfo>, v: nat, from: int, ii: nat, k: nat, gv: int, sh: Shift)
    requires Edited(g, where, ri, ri', ii, sh) && v < Size(g)
    requires Dropped(g, where, v, from, ii, ri[ii].edegrees) && where[ii] != where[v] && k <= |ri[ii].edegrees|
    requires if k < |ri[ii].edegrees| then ri[ii].edegrees[k].pid == where[v] else !HasPid(ri[ii].edegrees, where[v])
    requires ri'[ii].edegrees == AddEdge(ri[ii].edegrees, k, where[v], W(g, ii, v), gv)
    requires AddShift(g, where, v, ii, if k < |ri[ii].edegrees| then ri[ii].edegrees[k].ned else 0, sh)
    ensures KeptInStep(g, where, ri, ri', ii, v)
    ensures k < |ri[ii].edegrees| && InStep(g, where, ri, ii, v) ==> InStep(g, where, ri', ii, v)
  {
    forall u: nat, p | u < Size(g) && u != ii && u != v
      ensures Amount(g, where, sh, u, p) == TermChange(g, where, ri, ri', ii, u, p)
    {
      AddShiftIsChange(g, where, ri, ri', v, from, ii, k, gv, sh, u, p);
    }
    EditKeeps(g, where, ri, ri', ii, sh, v);
    var tbl := ri[ii].edegrees;
    if k < |tbl| && InStep(g, where, ri, ii, v) {
      assert forall l :: 0 <= l < |tbl| ==> ri'[ii].edegrees[l].pid == tbl[l].pid && ri'[ii].edegrees[l].gv == tbl[l].gv;
      EditKeepsSelf(g, where, ri, ri', ii, sh, v);
    }
  }

  lemma ThreeInPart(g: Valid, where: seq<int>, ii: nat, u: nat, w: nat, v: nat)
    requires Partition(g, where) && ii < Size(g) && u < Size(g) && v < Size(g) && w < Size(g) && u != v && u != w && v != w
    requires Adjacent(g, ii, u) && Adjacent(g, ii, v) && Adjacent(g, ii, w) && where[u] == where[v] == where[w]
    ensures Ned(g, where, ii, where[v]) >= 3
  {
    var away := where[v := where[v] + 1];
    MoveCount(g, where, v, where[v] + 1, ii, where[v], Size(g));
    TwoInPart(g, away, ii, u, w);
  }

  // ----- The whole record of a neighbour, and of the moved vertex itself

  /** A vertex that sits in the part `v` left has nothing to drop. */
  lemma NothingToDrop(g: Valid, where: seq<int>, v: nat, from: int, ii: nat, tbl: seq<EDegree>)
    requires Partition(g, where) && v < Size(g) && ii < Size(g) && Stale(g, where, v, from, ii, tbl) && where[ii] == from
    ensures Dropped(g, where, v, from, ii, tbl)
  {
    var before := where[v := from];
    MatchesSame(tbl, from, Neds(g, before, ii), Degs(g, before, ii),
                Less(Neds(g, before, ii), from, 1), Less(Degs(g, before, ii), from, W(g, ii, v)));
  }

  /** A vertex that sits in the part `v` joined has nothing to add. */
  lemma NothingToAdd(g: Valid, where: seq<int>, v: nat, from: int, ii: nat, tbl: seq<EDegree>)
    requires Partition(g, where) && v < Size(g) && ii < Size(g) && Dropped(g, where, v, from, ii, tbl) && where[ii] == where[v]
    ensures TableOk(g, where, ii, tbl)
  {
    var before := where[v := from];
    var cnt, wt := Less(Neds(g, before, ii), from, 1), Less(Degs(g, before, ii), from, W(g, ii, v));
    forall q | q != where[ii] ensures Neds(g, where, ii)(q) == cnt(q) && Degs(g, where, ii)(q) == wt(q) {
      DroppedCounts(g, where, v, from, ii, q);
    }
    MatchesSame(tbl, where[ii], cnt, wt, Neds(g, where, ii), Degs(g, where, ii));
  }

  /** The three scalars of a neighbour that sits in part `own`, after `v` moved from `from` to `to`. */
  function ScalarsAfter(r: VRInfo, own: int, from: int, to: int, w: int): VRInfo
  {
    if own == from then r.(ed := r.ed + w, id := r.id - w, nid := r.nid - 1)
    else if own == to then r.(id := r.id + w, ed := r.ed - w, nid := r.nid + 1)
    else r
  }

  lemma ScalarsOk(g: Valid, where: seq<int>, v: nat, from: int, ii: nat, r: VRInfo)
    requires Partition(g, where) && v < Size(g) && ii < Size(g) && ii != v && Adjacent(g, ii, v) && where[v] != from
    requires InfoOk(g, where[v := from], ii, r)
    ensures var r' := ScalarsAfter(r, where[ii], from, where[v], W(g, ii, v));
      && r'.id == DegTo(g, where, ii, where[ii]) && r'.ed == ExtTo(g, where, ii) && r'.nid == Ned(g, where, ii, where[ii])
  {
    var before := where[v := from];
    assert before[v := where[v]] == where;
    MoveDeg(g, before, v, where[v], ii, where[ii], Size(g));
    MoveExt(g, before, v, where[v], ii, Size(g));
    MoveCount(g, before, v, where[v], ii, where[ii], Size(g));
  }

  /** A vertex that is not adjacent to `v` does not notice the move. */
  lemma StrangerInfo(g: Valid, where: seq<int>, v: nat, from: int, u: nat, r: VRInfo)
    requires Partition(g, where) && v < Size(g) && u < Size(g) && u != v && !Adjacent(g, u, v) && where[v] != from
    requires InfoOk(g, where[v := from], u, r)
    ensures InfoOk(g, where, u, r)
  {
    var before := where[v := from];
    assert before[v := where[v]] == where;
    forall q ensures Ned(g, where, u, q) == Ned(g, before, u, q) && DegTo(g, where, u, q) == DegTo(g, before, u, q) {
      MoveCount(g, before, v, where[v], u, q, Size(g));
      MoveDeg(g, before, v, where[v], u, q, Size(g));
    }
    MoveExt(g, before, v, where[v], u, Size(g));
    MatchesSame(r.edegrees, where[u], Neds(g, before, u), Degs(g, before, u), Neds(g, where, u), Degs(g, where, u));
  }

  /** The record of the moved vertex: entry `k` of its new part trades places with its old part. */
  function OwnRecord(r: VRInfo, k: nat, from: int): VRInfo
    requires k < |r.edegrees|
  {
    var e := r.edegrees[k];
    var tbl := if r.id == 0 then Finite.SwapOut(r.edegrees, k)
               else r.edegrees[k := EDegree(from, r.id, r.nid, e.gv)];
    VRInfo(e.ed, r.ed + r.id - e.ed, e.ned, r.gv, tbl)
  }

  /** The vertex has the same neighbours in every part, wherever it is itself. */
  lemma OwnCounts(g: Valid, where: seq<int>, v: nat, from: int)
    requires Partition(g, where) && v < Size(g) && where[v] != from
    ensures var before := where[v := from];
      forall q :: Neds(g, where, v)(q) == Neds(g, before, v)(q) && Degs(g, where, v)(q) == Degs(g, before, v)(q)
  {
    var before, to := where[v := from], where[v];
    assert before[v := to] == where;
    WSymmetric(g, v, v);
    forall q ensures Neds(g, where, v)(q) == Neds(g, before, v)(q) && Degs(g, where, v)(q) == Degs(g, before, v)(q) {
      MoveCount(g, before, v, to, v, q, Size(g));
      MoveDeg(g, before, v, to, v, q, Size(g));
    }
  }

  lemma OwnTableOk(g: Valid, where: seq<int>, v: nat, from: int, r: VRInfo, k: nat)
    requires Partition(g, where) && v < Size(g) && where[v] != from && InfoOk(g, where[v := from], v, r)
    requires k < |r.edegrees| && r.edegrees[k].pid == where[v]
    ensures TableOk(g, where, v, OwnRecord(r, k, from).edegrees)
  {
    var before := where[v := from];
    var cnt, wt, cnt', wt' := Neds(g, before, v), Degs(g, before, v), Neds(g, where, v), Degs(g, where, v);
    OwnCounts(g, where, v, from);
    CountSign(g, before, v, from, Size(g));
    assert cnt(from) == r.nid && wt(from) == r.id;
    if r.id == 0 {
      SwapOutMatches(r.edegrees, from, cnt, wt, k, where[v], cnt', wt');
    } else {
      ReplaceMatches(r.edegrees, from, cnt, wt, k, EDegree(from, r.id, r.nid, r.edegrees[k].gv), where[v], cnt', wt');
    }
  }

  lemma OwnRecordOk(g: Valid, where: seq<int>, v: nat, from: int, r: VRInfo, k: nat)
    requires Partition(g, where) && v < Size(g) && where[v] != from && InfoOk(g, where[v := from], v, r)
    requires k < |r.edegrees| && r.edegrees[k].pid == where[v]
    ensures InfoOk(g, where, v, OwnRecord(r, k, from))
  {
    var before, to := where[v := from], where[v];
    assert before[v := to] == where;
    OwnTableOk(g, where, v, from, r, k);
    OwnCounts(g, where, v, from);
    assert Neds(g, where, v)(to) == Neds(g, before, v)(to) && Degs(g, where, v)(to) == Degs(g, before, v)(to);
    MoveOwn(g, before, v, to, Size(g));
  }

  // ----- The gains before and after

  lemma AllTablesDistinct(g: Valid, where: seq<int>, ri: seq<VRInfo>)
    requires Records(g, where, ri) && forall u :: 0 <= u < Size(g) ==> InfoOk(g, where, u, ri[u])
    ensures AllDistinct(ri)
  {
    forall u | 0 <= u < |ri| ensures Distinct(ri[u].edegrees) {
      assert InfoOk(g, where, u, ri[u]);
    }
  }

  /** Removing what `v` contributes puts the records in step without it. */
  lemma RemovedGains(g: Valid, where: seq<int>, v: nat, from: int, ri: seq<VRInfo>, ri': seq<VRInfo>, u: nat)
    requires Records(g, where, ri) && Records(g, where, ri') && v < Size(g) && u < Size(g) && u != v && where[v] != from
    requires forall x :: 0 <= x < Size(g) ==> InfoOk(g, where[v := from], x, ri[x])
    requires GainsOk(g, where[v := from], u, ri[u])
    requires forall x: nat :: x < Size(g) ==> Shifted(g, where, OfVertex(v, ri[v].edegrees, from, -1), x, ri[x], ri'[x])
    ensures InStep(g, where, ri', u, v)
  {
    var before := where[v := from];
    AllTablesDistinct(g, before, ri);
    forall x: nat | x < Size(g) ensures SameView(ri[x].edegrees, ri'[x].edegrees) { ShapeView(ri[x], ri'[x]); }
    assert Shifted(g, where, OfVertex(v, ri[v].edegrees, from, -1), u, ri[u], ri'[u]);
    WSymmetric(g, u, v);
    assert before[v := where[v]] == where;
    forall k | 0 <= k < |ri'[u].edegrees|
      ensures ri'[u].edegrees[k].gv == TableGain(g, where, ri', u, ri'[u].edegrees[k].pid, v, Size(g))
    {
      var p := ri[u].edegrees[k].pid;
      TableGainIsGain(g, before, ri, u, p, Size(g));
      SkipOne(g, before, ri, u, p, v, Size(g));
      SkipMoved(g, before, where[v], ri, u, p, v, Size(g));
      TableGainChange(g, where, ri, ri', u, p, v, v, Size(g));
    }
  }

  /** Editing the record of `v` itself leaves the others in step without it. */
  lemma OwnEditKeeps(g: Valid, where: seq<int>, ri: seq<VRInfo>, r: VRInfo, v: nat, u: nat)
    requires Records(g, where, ri) && v < Size(g) && u < Size(g) && u != v && InStep(g, where, ri, u, v)
    ensures InStep(g, where, ri[v := r], u, v)
  {
    var ri' := ri[v := r];
    forall k | 0 <= k < |ri'[u].edegrees|
      ensures ri'[u].edegrees[k].gv == TableGain(g, where, ri', u, ri'[u].edegrees[k].pid, v, Size(g))
    {
      TableGainChange(g, where, ri, ri', u, ri[u].edegrees[k].pid, v, v, Size(g));
    }
  }

  /** Adding what `v` contributes in its new part makes the gains those of the new partition. */
  lemma RestoredGains(g: Valid, where: seq<int>, v: nat, ri: seq<VRInfo>, ri': seq<VRInfo>, u: nat)
    requires Records(g, where, ri) && Records(g, where, ri') && v < Size(g) && u < Size(g) && u != v
    requires forall x :: 0 <= x < Size(g) ==> InfoOk(g, where, x, ri[x])
    requires InStep(g, where, ri, u, v)
    requires forall x: nat :: x < Size(g) ==> Shifted(g, where, OfVertex(v, ri[v].edegrees, where[v], 1), x, ri[x], ri'[x])
    ensures GainsOk(g, where, u, ri'[u])
  {
    WSymmetric(g, u, v);
    assert Shifted(g, where, OfVertex(v, ri[v].edegrees, where[v], 1), u, ri[u], ri'[u]);
    forall k | 0 <= k < |ri'[u].edegrees| ensures ri'[u].edegrees[k].gv == Gain(g, where, u, ri'[u].edegrees[k].pid) {
      var p := ri[u].edegrees[k].pid;
      TableGainIsGain(g, where, ri, u, p, Size(g));
      SkipOne(g, where, ri, u, p, v, Size(g));
    }
  }

  lemma KeptTwice(g: Valid, where: seq<int>, ri: seq<VRInfo>, ri1: seq<VRInfo>, ri2: seq<VRInfo>, ii: nat, v: nat)
    requires Records(g, where, ri) && Records(g, where, ri1) && Records(g, where, ri2) && ii < Size(g)
    requires KeptInStep(g, where, ri, ri1, ii, v) && KeptInStep(g, where, ri1, ri2, ii, v)
    ensures KeptInStep(g, where, ri, ri2, ii, v)
  {
    forall u: nat | u < Size(g) && u != ii ensures SameShape(ri[u], ri2[u]) {
      assert SameShape(ri[u], ri1[u]) && SameShape(ri1[u], ri2[u]);
    }
  }

  lemma KeptDistinct(g: Valid, where: seq<int>, ri: seq<VRInfo>, ri': seq<VRInfo>, ii: nat, v: nat)
    requires Records(g, where, ri) && Records(g, where, ri') && ii < Size(g)
    requires KeptInStep(g, where, ri, ri', ii, v) && AllDistinct(ri) && Distinct(ri'[ii].edegrees)
    ensures AllDistinct(ri')
  {
    forall u: nat | u < Size(g) ensures Distinct(ri'[u].edegrees) {
      if u != ii {
        ShapeView(ri[u], ri'[u]);
      }
    }
  }

  /** Changing the scalars of a record changes no table. */
  lemma ScalarsInStep(g: Valid, where: seq<int>, ri: seq<VRInfo>, ri': seq<VRInfo>, ii: nat, v: nat)
    requires Records(g, where, ri) && Records(g, where, ri') && ii < Size(g)
    requires ri' == ri[ii := ri'[ii]] && ri'[ii].edegrees == ri[ii].edegrees
    ensures KeptInStep(g, where, ri, ri', ii, v)
    ensures InStep(g, where, ri, ii, v) <==> InStep(g, where, ri', ii, v)
  {
    forall u: nat, p | u < Size(g) ensures TableGain(g, where, ri', u, p, v, Size(g)) == TableGain(g, where, ri, u, p, v, Size(g)) {
      TableGainChange(g, where, ri, ri', u, p, v, ii, Size(g));
    }
  }

  // ----- Gains summed over the slots of a vertex

  ghost function Terms(g: Valid, where: seq<int>, u: nat, p: int): nat -> int
    requires Partition(g, where) && u < Size(g)
  {
    (x: nat) => if x < Size(g) then Contribution(g.vsize[x], where[u], where[x], Neds(g, where, x), p) else 0
  }

  lemma {:induction false} SlotsGiveGain(g: Valid, where: seq<int>, u: nat, p: int, k: nat)
    requires Partition(g, where) && u < Size(g) && k <= Size(g)
    ensures SeenSum(g, u, g.xadj[u + 1] as int, Terms(g, where, u, p), k) == GainUpTo(g, where, u, p, k)
  {
    if k > 0 {
      SlotsGiveGain(g, where, u, p, k - 1);
      SeenEnds(g, u, k - 1);
    }
  }

  /** The contribution computed from a correct table is the term of the gain. */
  lemma TableTerm(g: Valid, where: seq<int>, x: nat, u: nat, tbl: seq<EDegree>, p: int)
    requires Partition(g, where) && u < Size(g) && x < Size(g) && TableOk(g, where, x, tbl)
    ensures Contribution(g.vsize[x], where[u], where[x], TNeds(tbl), p) == Terms(g, where, u, p)(x)
  {
    if where[u] != where[x] {
      MatchesNd(tbl, where[x], Neds(g, where, x), Degs(g, where, x), where[u]);
    }
    if p != where[x] {
      MatchesNd(tbl, where[x], Neds(g, where, x), Degs(g, where, x), p);
    }
  }

  /** The stored gains of the entries are the sums over the slots of `u` before `j`. */
  ghost predicate PartialGains(g: Valid, where: seq<int>, u: nat, j: int, tbl: seq<EDegree>)
    requires Partition(g, where) && u < Size(g)
  {
    forall k :: 0 <= k < |tbl| ==> tbl[k].gv == SeenSum(g, u, j, Terms(g, where, u, tbl[k].pid), Size(g))
  }

  lemma PartialGainsStart(g: Valid, where: seq<int>, u: nat, tbl: seq<EDegree>)
    requires Partition(g, where) && u < Size(g) && forall k :: 0 <= k < |tbl| ==> tbl[k].gv == 0
    ensures PartialGains(g, where, u, g.xadj[u], tbl)
  {
    forall k | 0 <= k < |tbl| ensures tbl[k].gv == SeenSum(g, u, g.xadj[u], Terms(g, where, u, tbl[k].pid), Size(g)) {
      SeenSumStart(g, u, Terms(g, where, u, tbl[k].pid), Size(g));
    }
  }

  lemma PartialGainsStep(g: Valid, where: seq<int>, u: nat, j: int, tbl: seq<EDegree>, tbl': seq<EDegree>)
    requires Partition(g, where) && u < Size(g) && Slot(g, u, j) && PartialGains(g, where, u, j, tbl) && |tbl'| == |tbl|
    requires forall k :: 0 <= k < |tbl| ==>
      tbl'[k] == tbl[k].(gv := tbl[k].gv + Terms(g, where, u, tbl[k].pid)(g.adjncy[j]))
    ensures PartialGains(g, where, u, j + 1, tbl')
  {
    forall k | 0 <= k < |tbl'| ensures tbl'[k].gv == SeenSum(g, u, j + 1, Terms(g, where, u, tbl'[k].pid), Size(g)) {
      SeenSumStep(g, u, j, Terms(g, where, u, tbl[k].pid), Size(g));
    }
  }

  lemma PartialGainsEnd(g: Valid, where: seq<int>, u: nat, r: VRInfo)
    requires Partition(g, where) && u < Size(g) && PartialGains(g, where, u, g.xadj[u + 1], r.edegrees)
    ensures GainsOk(g, where, u, r)
  {
    forall k | 0 <= k < |r.edegrees| ensures r.edegrees[k].gv == Gain(g, where, u, r.edegrees[k].pid) {
      SlotsGiveGain(g, where, u, r.edegrees[k].pid, Size(g));
    }
  }

  // ----- Midway through the neighbours of the moved vertex

  /** The records of `v` and of the neighbours listed before slot `j` describe the new partition, the others the old one. */
  ghost predicate Midway(g: Valid, where: seq<int>, v: nat, from: int, j: int, ri: seq<VRInfo>)
  {
    && Records(g, where, ri) && v < Size(g) && where[v] != from && InfoOk(g, where, v, ri[v])
    && forall u: nat :: u < Size(g) && u != v ==> InfoOk(g, if Seen(g, v, j, u) then where else where[v := from], u, ri[u])
  }

  lemma MidwayStart(g: Valid, where: seq<int>, v: nat, from: int, ri: seq<VRInfo>)
    requires Records(g, where, ri) && v < Size(g) && where[v] != from && InfoOk(g, where, v, ri[v])
    requires forall u: nat :: u < Size(g) && u != v ==> InfoOk(g, where[v := from], u, ri[u])
    ensures Midway(g, where, v, from, g.xadj[v], ri)
  {
    forall u: nat | u < Size(g) && u != v
      ensures InfoOk(g, if Seen(g, v, g.xadj[v], u) then where else where[v := from], u, ri[u])
    {
      SeenEnds(g, v, u);
    }
  }

  lemma MidwayDistinct(g: Valid, where: seq<int>, v: nat, from: int, j: int, ri: seq<VRInfo>)
    requires Midway(g, where, v, from, j, ri)
    ensures AllDistinct(ri)
  {
    forall u | 0 <= u < |ri| ensures Distinct(ri[u].edegrees) {
      if u != v {
        assert InfoOk(g, if Seen(g, v, j, u) then where else where[v := from], u, ri[u]);
      }
    }
  }

  lemma MidwayStep(g: Valid, where: seq<int>, v: nat, from: int, j: int, ri: seq<VRInfo>, ri': seq<VRInfo>, ii: nat)
    requires Midway(g, where, v, from, j, ri) && Slot(g, v, j) && ii == g.adjncy[j] && Records(g, where, ri')
    requires KeptInStep(g, where, ri, ri', ii, v) && InfoOk(g, where, ii, ri'[ii])
    ensures Midway(g, where, v, from, j + 1, ri')
  {
    SlotWeight(g, v, j);
    ShapeInfo(g, where, v, ri[v], ri'[v]);
    forall u: nat | u < Size(g) && u != v
      ensures InfoOk(g, if Seen(g, v, j + 1, u) then where else where[v := from], u, ri'[u])
    {
      SeenStep(g, v, j, u);
      if u != ii {
        ShapeInfo(g, if Seen(g, v, j, u) then where else where[v := from], u, ri[u], ri'[u]);
      }
    }
  }

  lemma MidwayEnd(g: Valid, where: seq<int>, v: nat, from: int, ri: seq<VRInfo>)
    requires v < Size(g) && Midway(g, where, v, from, g.xadj[v + 1], ri)
    ensures forall u: nat :: u < Size(g) ==> InfoOk(g, where, u, ri[u])
  {
    forall u: nat | u < Size(g) ensures InfoOk(g, where, u, ri[u]) {
      SeenEnds(g, v, u);
      WSymmetric(g, v, u);
      if u != v && !Adjacent(g, v, u) {
        StrangerInfo(g, where, v, from, u, ri[u]);
      }
    }
  }

  /** Every record that is not marked for recomputation is in step without `v`. */
  ghost predicate InStepUnlessMarked(g: Valid, where: seq<int>, ri: seq<VRInfo>, marks: seq<int>, v: nat)
  {
    && Records(g, where, ri) && |marks| == Size(g)
    && forall u: nat :: u < Size(g) && u != v && marks[u] != 1 ==> InStep(g, where, ri, u, v)
  }

  lemma RemovedAll(g: Valid, where: seq<int>, v: nat, from: int, ri: seq<VRInfo>, ri': seq<VRInfo>)
    requires Records(g, where, ri) && Records(g, where, ri') && v < Size(g) && where[v] != from
    requires forall u: nat :: u < Size(g) ==> InfoOk(g, where[v := from], u, ri[u]) && GainsOk(g, where[v := from], u, ri[u])
    requires forall u: nat :: u < Size(g) ==> Shifted(g, where, OfVertex(v, ri[v].edegrees, from, -1), u, ri[u], ri'[u])
    ensures forall u: nat :: u < Size(g) ==> InfoOk(g, where[v := from], u, ri'[u])
    ensures forall u: nat :: u < Size(g) && u != v ==> InStep(g, where, ri', u, v)
  {
    forall u: nat | u < Size(g) ensures InfoOk(g, where[v := from], u, ri'[u]) {
      ShapeInfo(g, where[v := from], u, ri[u], ri'[u]);
    }
    forall u: nat | u < Size(g) && u != v ensures InStep(g, where, ri', u, v) {
      RemovedGains(g, where, v, from, ri, ri', u);
    }
  }

  lemma RestoredAll(g: Valid, where: seq<int>, v: nat, ri: seq<VRInfo>, ri': seq<VRInfo>, marks: seq<int>)
    requires Records(g, where, ri) && Records(g, where, ri') && v < Size(g)
    requires forall u: nat :: u < Size(g) ==> InfoOk(g, where, u, ri[u])
    requires InStepUnlessMarked(g, where, ri, marks, v)
    requires forall u: nat :: u < Size(g) ==> Shifted(g, where, OfVertex(v, ri[v].edegrees, where[v], 1), u, ri[u], ri'[u])
    ensures forall u: nat :: u < Size(g) ==> InfoOk(g, where, u, ri'[u])
    ensures forall u: nat :: u < Size(g) && u != v && marks[u] != 1 ==> GainsOk(g, where, u, ri'[u])
  {
    forall u: nat | u < Size(g) ensures InfoOk(g, where, u, ri'[u]) {
      ShapeInfo(g, where, u, ri[u], ri'[u]);
    }
    forall u: nat | u < Size(g) && u != v && marks[u] != 1 ensures GainsOk(g, where, u, ri'[u]) {
      RestoredGains(g, where, v, ri, ri', u);
    }
  }

  // ----- The volume from the tables

  /** The parts below `m` that `u` is sent to. */
  ghost function SentTo(g: Valid, where: seq<int>, u: nat, m: nat): set<int>
    requires Partition(g, where) && u < Size(g)
  {
    if m == 0 then {} else SentTo(g, where, u, m - 1) + if m - 1 != where[u] && Ned(g, where, u, m - 1) > 0 then {m - 1} else {}
  }

  lemma {:induction false} SentToMember(g: Valid, where: seq<int>, u: nat, m: nat, p: int)
    requires Partition(g, where) && u < Size(g)
    ensures p in SentTo(g, where, u, m) <==> 0 <= p < m && p != where[u] && Ned(g, where, u, p) > 0
  {
    if m > 0 {
      SentToMember(g, where, u, m - 1, p);
    }
  }

  ghost function SentCount(g: Valid, where: seq<int>, u: nat, m: nat): nat
    requires Partition(g, where) && u < Size(g)
  {
    if m == 0 then 0 else SentCount(g, where, u, m - 1) + if m - 1 != where[u] && Ned(g, where, u, m - 1) > 0 then 1 else 0
  }

  lemma {:induction false} SentToCard(g: Valid, where: seq<int>, u: nat, m: nat)
    requires Partition(g, where) && u < Size(g)
    ensures |SentTo(g, where, u, m)| == SentCount(g, where, u, m)
  {
    if m > 0 {
      SentToCard(g, where, u, m - 1);
      SentToMember(g, where, u, m - 1, m - 1);
    }
  }

  lemma {:induction false} SentToVolume(g: Valid, where: seq<int>, u: nat, m: nat)
    requires Partition(g, where) && u < Size(g)
    ensures VolOf(g, where, u, m) == SentCount(g, where, u, m) * g.vsize[u]
  {
    if m > 0 {
      SentToVolume(g, where, u, m - 1);
      var n, vs := SentCount(g, where, u, m - 1), g.vsize[u];
      assert (n + 1) * vs == n * vs + vs;
    }
  }

  ghost function Pids(tbl: seq<EDegree>): (r: seq<int>)
    ensures |r| == |tbl| && forall k :: 0 <= k < |tbl| ==> r[k] == tbl[k].pid
  {
    seq(|tbl|, k requires 0 <= k < |tbl| => tbl[k].pid)
  }

  /** What ComputeKWayVolGains adds for `u`: its size for every entry of its table is its share of the volume. */
  lemma TableVolume(g: Valid, where: seq<int>, u: nat, tbl: seq<EDegree>, nparts: nat)
    requires Partition(g, where) && u < Size(g) && TableOk(g, where, u, tbl) && forall x :: 0 <= x < |where| ==> 0 <= where[x] < nparts
    ensures |tbl| * g.vsize[u] == VolOf(g, where, u, nparts)
  {
    SentToVolume(g, where, u, nparts);
    SentToCard(g, where, u, nparts);
    Finite.ElementsCard(Pids(tbl));
    var sent := SentTo(g, where, u, nparts);
    forall p | p in Finite.Elements(Pids(tbl)) ensures p in sent {
      Finite.ElementOf(Pids(tbl), p);
      assert Neds(g, where, u)(p) > 0;
      var x := CountWitness(g, where, u, p, Size(g));
      SentToMember(g, where, u, nparts, p);
    }
    forall p | p in sent ensures p in Finite.Elements(Pids(tbl)) {
      SentToMember(g, where, u, nparts, p);
      assert Neds(g, where, u)(p) > 0;
      var k :| 0 <= k < |tbl| && tbl[k].pid == p;
      Finite.ElementIn(Pids(tbl), k);
    }
    assert Finite.Elements(Pids(tbl)) == sent;
  }
}
