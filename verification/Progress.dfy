/**
 Progress of the window protocol. The edge of a window exceeds the edge of the one before exactly when no
 timeline without an outgoing crossing has its next event at the old edge. If that never happens, the edges of
 an epoch strictly increase, so the epoch has no more windows than ticks. If it happens once, the protocol
 stalls: such a timeline offers the time of its next event itself, the window ends just before that event, and
 every later window does the same.
 */
module Progress {
  import opened Topology
  import opened Simulator
  import opened Windows
  import MutexBarrier

  // ----- What the barrier reduces

  /** The barrier's running minimum is one of the offers made since the last release. */
  ghost predicate MinIsOffer(c: Context, s: System)
  {
    s.minValue == -1 || exists i :: && 0 <= i < |s.lines| == |c.mins|
                                    && s.lines[i].phase == AtBottom && Offer(s.lines[i], c.mins[i]) == s.minValue
  }

  lemma {:induction false} MinIsOfferAlways(c: Context, run: seq<System>)
    requires ValidContext(c) && IsRun(c, run)
    ensures MinIsOffer(c, Last(run))
    decreases |run|
  {
    var n := |run| - 1;
    if n > 0 {
      StepsPrefix(c, run, n);
      MinIsOfferAlways(c, run[..n]);
      RunInv(c, run[..n]);
      MinIsOfferNext(c, run[n - 1], Last(run));
    }
  }

  lemma MinIsOfferNext(c: Context, s: System, s': System)
    requires Inv(c, s) && MinIsOffer(c, s) && Next(c, s, s')
    ensures MinIsOffer(c, s')
  {
    var i: nat :| StepOf(c, s, i, s');
    if Drain(c, s, i, s') {
      MinIsOfferAfterDrain(c, s, i, s');
    } else {
      StillInWindow(c, s, i);
    }
  }

  lemma MinIsOfferAfterDrain(c: Context, s: System, i: nat, s': System)
    requires Drain(c, s, i, s') && MinIsOffer(c, s)
    ensures MinIsOffer(c, s')
  {
    if s.minValue != -1 && s'.minValue == s.minValue {
      var k :| 0 <= k < |s.lines| && s.lines[k].phase == AtBottom && Offer(s.lines[k], c.mins[k]) == s.minValue;
      assert s'.lines[k] == s.lines[k];
    } else if s'.minValue != -1 {
      assert s'.lines[i] == Drained(s.lines[i]);
    }
  }

  /** The last arrival at the bottom barrier, which opens a window. */
  ghost predicate Releases(c: Context, s: System, i: nat, s': System)
  {
    Drain(c, s, i, s') && OthersAre(s, i, AtBottom)
  }

  lemma ReductionIsOffer(c: Context, s: System, i: nat, s': System) returns (k: nat)
    requires Releases(c, s, i, s') && MinIsOffer(c, s) && s'.reduction != -1
    ensures k < |s'.lines| && s'.reduction == Offer(s'.lines[k], c.mins[k])
  {
    if s'.reduction == s.minValue {
      k :| 0 <= k < |s.lines| && s.lines[k].phase == AtBottom && Offer(s.lines[k], c.mins[k]) == s.minValue;
      OfferIgnoresPhase(s.lines[k], Released, c.mins[k]);
    } else {
      k := i;
      OfferIgnoresPhase(Drained(s.lines[i]), Released, c.mins[k]);
    }
  }

  /** What every timeline offered in the round that ended in `s`. */
  ghost function Offers(c: Context, s: System): (r: map<nat, int>)
    requires |s.lines| == |c.mins|
    ensures forall i: nat :: i in r <==> i < |s.lines|
    ensures forall i <- r :: r[i] == Offer(s.lines[i], c.mins[i])
  {
    map i: nat | i < |s.lines| :: Offer(s.lines[i], c.mins[i])
  }

  lemma BoundIsRoundMin(c: Context, s: System)
    requires |s.lines| == |c.mins| && (s.reduction == -1 || s.reduction > 0)
    requires forall k: nat :: k < |s.lines| ==> Bounds(s.reduction, Offer(s.lines[k], c.mins[k]))
    requires s.reduction == -1 || exists k: nat :: k < |s.lines| && Offer(s.lines[k], c.mins[k]) == s.reduction
    ensures MutexBarrier.IsRoundMin(Offers(c, s), s.reduction)
  {
    if s.reduction != -1 {
      var k: nat :| k < |s.lines| && Offer(s.lines[k], c.mins[k]) == s.reduction;
      assert k in Offers(c, s) && Offers(c, s)[k] == s.reduction;
    }
  }

  /** The value a window starts from is the reduction of a complete round of the barrier. */
  lemma ReductionIsRoundMin(c: Context, run: seq<System>, i: nat, s': System)
    requires ValidContext(c) && IsRun(c, run) && Releases(c, Last(run), i, s')
    ensures |s'.lines| == |c.mins| && MutexBarrier.OnePerThread(Offers(c, s'), |s'.lines|)
    ensures MutexBarrier.IsRoundMin(Offers(c, s'), s'.reduction)
  {
    RunInv(c, run);
    MinIsOfferAlways(c, run);
    var s := Last(run);
    StillGathering(c, s, i);
    forall k: nat | k < |s.lines| ensures Bounds(s'.reduction, Offer(s'.lines[k], c.mins[k])) {
      ReleasedLine(c, s, i, s', k);
    }
    ReleasedLine(c, s, i, s', i);
    if s'.reduction != -1 {
      var k := ReductionIsOffer(c, s, i, s');
    }
    BoundIsRoundMin(c, s');
  }

  // ----- When the edge advances

  /** Timeline `k` has no outgoing crossing and its next event is exactly at `edge`. */
  ghost predicate Blocks(c: Context, s: System, k: nat, edge: int)
  {
    k < |s.lines| == |c.mins| && c.mins[k] < 0 && NextTime(s.lines[k]) == edge
  }

  ghost predicate NobodyBlocks(c: Context, s: System, edge: int)
  {
    forall k: nat :: !Blocks(c, s, k, edge)
  }

  lemma OfferFrom(c: Context, l: Timeline, i: nat, edge: int)
    requires ValidContext(c) && i < |c.mins| && LineAfter(l, edge) && edge > 0
    ensures Offer(l, c.mins[i]) == -1 || Offer(l, c.mins[i]) >= edge
    ensures Offer(l, c.mins[i]) == edge <==> c.mins[i] < 0 && NextTime(l) == edge
  {
    assert forall d <- CrossDelays(i, c.m.topology[i]) :: d > 0 by {
      CrossingsPositive(c.m.topology);
      assert CrossDelays(i, c.m.topology[i]) <= AllDelays(c.m.topology);
    }
    if |l.events| > 0 || |l.sinkEvents| > 0 {
      NextIsLeast(l);
      assert NextEvent(l) in All(l);
    }
  }

  /** The timelines at the release: nothing from before the old edge, and the reduction bounds their offers. */
  lemma ReleasedAfter(c: Context, s: System, i: nat, s': System, k: nat)
    requires ValidContext(c) && Inv(c, s) && Releases(c, s, i, s') && s.edges != [] && k < |s.lines|
    ensures |s'.lines| == |s.lines| > 1 && 0 < LastEdge(s) < c.epochEnd
    ensures LineAfter(s'.lines[k], LastEdge(s)) && Bounds(s'.reduction, Offer(s'.lines[k], c.mins[k]))
    ensures s'.reduction == -1 || s'.reduction > 0
  {
    StillGathering(c, s, i);
    assert GatheringLine(c, s, k);
    ReleasedLine(c, s, i, s', k);
    DrainedLine(s.lines[i]);
  }

  /** No offer is below the old edge, and one is at it exactly when its timeline blocks. */
  lemma ReleasedOffer(c: Context, s: System, i: nat, s': System, k: nat)
    requires ValidContext(c) && Inv(c, s) && Releases(c, s, i, s') && s.edges != [] && k < |s.lines|
    ensures |s'.lines| == |s.lines| && (Offer(s'.lines[k], c.mins[k]) == -1 || Offer(s'.lines[k], c.mins[k]) >= LastEdge(s))
    ensures Offer(s'.lines[k], c.mins[k]) == LastEdge(s) <==> Blocks(c, s', k, LastEdge(s))
  {
    ReleasedAfter(c, s, i, s', k);
    OfferFrom(c, s'.lines[k], k, LastEdge(s));
  }

  lemma EdgeAdvances(c: Context, s: System, i: nat, s': System)
    requires ValidContext(c) && Inv(c, s) && MinIsOffer(c, s) && Releases(c, s, i, s') && s.edges != []
    ensures s'.edges == s.edges + [LastEdge(s')] && LastEdge(s) <= LastEdge(s') <= c.epochEnd
    ensures LastEdge(s') > LastEdge(s) <==> NobodyBlocks(c, s', LastEdge(s))
  {
    ReleasedAfter(c, s, i, s', i);
    if s'.reduction != -1 {
      var k := ReductionIsOffer(c, s, i, s');
      ReleasedOffer(c, s, i, s', k);
    }
    if k: nat :| Blocks(c, s', k, LastEdge(s)) {
      ReleasedAfter(c, s, i, s', k);
      ReleasedOffer(c, s, i, s', k);
    }
  }

  /**
   In every run, the edge of the next window is never below the edge of the last one, and it is larger if and
   only if no timeline blocks.
   */
  lemma WindowProgress(c: Context, run: seq<System>, i: nat, s': System)
    requires ValidContext(c) && IsRun(c, run) && Releases(c, Last(run), i, s') && Last(run).edges != []
    ensures s'.edges == Last(run).edges + [LastEdge(s')] && LastEdge(Last(run)) <= LastEdge(s') <= c.epochEnd
    ensures LastEdge(s') > LastEdge(Last(run)) <==> NobodyBlocks(c, s', LastEdge(Last(run)))
  {
    RunInv(c, run);
    MinIsOfferAlways(c, run);
    EdgeAdvances(c, Last(run), i, s');
  }

  // ----- The epoch ends

  /** If a window has just been opened, no timeline blocked it. */
  ghost predicate Unblocked(c: Context, s: System)
  {
    |s.edges| >= 2 && (forall i :: 0 <= i < |s.lines| ==> s.lines[i].phase == Released) ==>
      NobodyBlocks(c, s, s.edges[|s.edges| - 2])
  }

  ghost predicate NeverBlocked(c: Context, run: seq<System>)
  {
    forall t :: 0 <= t < |run| ==> Unblocked(c, run[t])
  }

  ghost predicate Increasing(edges: seq<int>)
  {
    forall a, b :: 0 <= a < b < |edges| ==> edges[a] < edges[b]
  }

  ghost predicate InEpoch(c: Context, edges: seq<int>)
  {
    forall a :: 0 <= a < |edges| ==> 0 < edges[a] <= c.epochEnd
  }

  lemma IncreasingPush(edges: seq<int>, edge: int)
    requires Increasing(edges) && (edges == [] || edge > edges[|edges| - 1])
    ensures Increasing(edges + [edge])
  {
  }

  /** A release appends one edge of the epoch; every other step leaves the edges alone. */
  lemma EdgesChange(c: Context, s: System, i: nat, s': System)
    requires ValidContext(c) && Inv(c, s)
    requires StepOf(c, s, i, s')
    ensures if Releases(c, s, i, s') then s'.edges != [] && s'.edges == s.edges + [LastEdge(s')] && 0 < LastEdge(s') <= c.epochEnd
            else s'.edges == s.edges
    ensures Releases(c, s, i, s') ==> forall k :: 0 <= k < |s'.lines| ==> s'.lines[k].phase == Released
  {
    if Drain(c, s, i, s') {
      DrainKeeps(c, s, i, s');
    }
  }

  lemma ReleaseIncreases(c: Context, s: System, i: nat, s': System)
    requires ValidContext(c) && Inv(c, s) && MinIsOffer(c, s) && Releases(c, s, i, s') && Unblocked(c, s')
    requires s'.edges != [] && s'.edges == s.edges + [LastEdge(s')] && forall k :: 0 <= k < |s'.lines| ==> s'.lines[k].phase == Released
    ensures s.edges != [] ==> LastEdge(s') > LastEdge(s)
  {
    if s.edges != [] {
      EdgeAdvances(c, s, i, s');
      assert s'.edges[|s'.edges| - 2] == LastEdge(s);
    }
  }

  /** `edges'` is `edges`, perhaps with a larger edge of the epoch at the end. */
  ghost predicate Grown(c: Context, edges: seq<int>, edges': seq<int>)
  {
    edges' == edges || (&& edges' != []
                        && var edge := edges'[|edges'| - 1];
                        && edges' == edges + [edge] && 0 < edge <= c.epochEnd
                        && (edges != [] ==> edge > edges[|edges| - 1]))
  }

  lemma GrownKeeps(c: Context, edges: seq<int>, edges': seq<int>)
    requires Grown(c, edges, edges') && Increasing(edges) && InEpoch(c, edges)
    ensures Increasing(edges') && InEpoch(c, edges')
  {
    if edges' != edges {
      IncreasingPush(edges, edges'[|edges'| - 1]);
    }
  }

  lemma EdgesStep(c: Context, s: System, s': System)
    requires ValidContext(c) && Inv(c, s) && MinIsOffer(c, s) && Next(c, s, s') && Unblocked(c, s')
    ensures Grown(c, s.edges, s'.edges)
  {
    var i: nat :| StepOf(c, s, i, s');
    EdgesStepOf(c, s, i, s');
  }

  lemma EdgesStepOf(c: Context, s: System, i: nat, s': System)
    requires ValidContext(c) && Inv(c, s) && MinIsOffer(c, s) && StepOf(c, s, i, s') && Unblocked(c, s')
    ensures Grown(c, s.edges, s'.edges)
  {
    EdgesChange(c, s, i, s');
    if Releases(c, s, i, s') {
      ReleaseIncreases(c, s, i, s');
      assert Grown(c, s.edges, s'.edges);
    } else {
      assert s'.edges == s.edges;
    }
  }

  lemma {:induction false} EdgesIncrease(c: Context, run: seq<System>)
    requires ValidContext(c) && IsRun(c, run) && NeverBlocked(c, run)
    ensures Increasing(Last(run).edges) && InEpoch(c, Last(run).edges)
    decreases |run|
  {
    var n := |run| - 1;
    if n > 0 {
      StepsPrefix(c, run, n);
      EdgesIncrease(c, run[..n]);
      RunInv(c, run[..n]);
      MinIsOfferAlways(c, run[..n]);
      EdgesStep(c, run[n - 1], Last(run));
      GrownKeeps(c, run[n - 1].edges, Last(run).edges);
    }
  }

  lemma {:induction false} FewEdges(edges: seq<int>, bound: int)
    requires Increasing(edges) && forall a :: 0 <= a < |edges| ==> 0 < edges[a] <= bound
    ensures |edges| == 0 || |edges| <= edges[|edges| - 1] <= bound
  {
    if |edges| > 1 {
      var rest := edges[..|edges| - 1];
      FewEdges(rest, bound);
      assert rest[|rest| - 1] == edges[|edges| - 2];
    }
  }

  /** The distance from the edge to the end of the epoch is a measure of the epoch loop: if no timeline ever
      blocks, the edges of the windows strictly increase, so there are at most as many windows as ticks. */
  lemma EpochTerminates(c: Context, run: seq<System>)
    requires ValidContext(c) && IsRun(c, run) && NeverBlocked(c, run)
    ensures Increasing(Last(run).edges) && |Last(run).edges| <= c.epochEnd
  {
    EdgesIncrease(c, run);
    FewEdges(Last(run).edges, c.epochEnd);
  }

  /** A caller can tell before the run: if every timeline has a crossing, every epoch ends. */
  lemma CrossingsTerminate(c: Context, run: seq<System>)
    requires ValidContext(c) && IsRun(c, run) && forall k :: 0 <= k < |c.mins| ==> c.mins[k] >= 0
    ensures Increasing(Last(run).edges) && |Last(run).edges| <= c.epochEnd
  {
    forall t | 0 <= t < |run| ensures Unblocked(c, run[t]) {
    }
    EpochTerminates(c, run);
  }

  // ----- The stall

  /** The lines of a stalled system between windows. */
  ghost predicate StalledOutside(l: Timeline, edge: int)
  {
    LineAfter(l, edge) && (l.phase == Start || l.phase == AtBottom)
  }

  /** The lines of a stalled system inside a window. */
  ghost predicate StalledInside(l: Timeline, edge: int)
  {
    && LineAfter(l, edge)
    && (l.phase == Released || ((l.phase == Running || l.phase == AtTop) && l.stopBefore == edge))
  }

  /** Timeline `k` has no crossing and holds `e` at the edge of the last window. */
  ghost predicate Blocked(c: Context, s: System, k: nat, e: Event)
  {
    && 1 < |s.lines| == |c.mins| && k < |s.lines| && c.mins[k] < 0 && 0 < e.time < c.epochEnd
    && e in All(s.lines[k])
  }

  /** The barrier is bound to reduce to the old edge again. */
  ghost predicate StalledBetween(c: Context, s: System, k: nat, e: Event)
  {
    && Blocked(c, s, k, e)
    && (s.minValue == -1 || s.minValue >= e.time) && (s.lines[k].phase == AtBottom ==> s.minValue == e.time)
    && forall i :: 0 <= i < |s.lines| ==> StalledOutside(s.lines[i], e.time)
  }

  /** The barrier has reduced to the old edge. */
  ghost predicate StalledWithin(c: Context, s: System, k: nat, e: Event)
  {
    && Blocked(c, s, k, e)
    && s.minValue == -1 && s.reduction == e.time
    && forall i :: 0 <= i < |s.lines| ==> StalledInside(s.lines[i], e.time)
  }

  ghost predicate Stalled(c: Context, s: System, k: nat, e: Event)
  {
    StalledBetween(c, s, k, e) || StalledWithin(c, s, k, e)
  }

  ghost predicate SameLine(l: Timeline, l': Timeline)
  {
    l'.trace == l.trace && l'.state == l.state && All(l') == All(l)
  }

  ghost predicate SameHistory(s: System, s': System)
  {
    |s'.lines| == |s.lines| && forall i :: 0 <= i < |s.lines| ==> SameLine(s.lines[i], s'.lines[i])
  }

  lemma DrainedSame(c: Context, l: Timeline, i: nat, edge: int)
    requires ValidContext(c) && i < |c.mins| && LineAfter(l, edge) && edge > 0
    ensures SameLine(l, Drained(l)) && LineAfter(Drained(l), edge)
    ensures Offer(Drained(l), c.mins[i]) == -1 || Offer(Drained(l), c.mins[i]) >= edge
    ensures c.mins[i] < 0 && (exists e <- All(l) :: e.time == edge) ==> Offer(Drained(l), c.mins[i]) == edge
  {
    var l' := Drained(l);
    KeepSplits(l.windowList);
    assert All(l') == All(l);
    OfferFrom(c, l', i, edge);
    if e :| e in All(l) && e.time == edge {
      assert e in l'.events + l'.sinkEvents;
      NextIsLeast(l');
      assert NextEvent(l') in All(l');
    }
  }

  lemma StalledDrainLine(c: Context, s: System, i: nat, s': System, k: nat, e: Event, j: nat)
    requires ValidContext(c) && StalledBetween(c, s, k, e) && Drain(c, s, i, s') && j < |s.lines|
    ensures SameLine(s.lines[j], s'.lines[j]) && LineAfter(s'.lines[j], e.time)
    ensures s'.lines[j].phase == if OthersAre(s, i, AtBottom) then Released else if j == i then AtBottom else s.lines[j].phase
  {
    if j == i {
      DrainedSame(c, s.lines[i], i, e.time);
    }
  }

  lemma StalledDrain(c: Context, s: System, i: nat, s': System, k: nat, e: Event)
    requires ValidContext(c) && StalledBetween(c, s, k, e) && Drain(c, s, i, s')
    ensures Stalled(c, s', k, e) && SameHistory(s, s')
  {
    forall j | 0 <= j < |s.lines|
      ensures SameLine(s.lines[j], s'.lines[j]) && LineAfter(s'.lines[j], e.time)
      ensures if OthersAre(s, i, AtBottom) then StalledInside(s'.lines[j], e.time) else StalledOutside(s'.lines[j], e.time)
    {
      StalledDrainLine(c, s, i, s', k, e, j);
    }
    StalledOffer(c, s, i, k, e);
    assert Blocked(c, s', k, e);
  }

  lemma StalledOffer(c: Context, s: System, i: nat, k: nat, e: Event)
    requires ValidContext(c) && StalledBetween(c, s, k, e) && i < |s.lines|
    ensures var r := MutexBarrier.Absorb(s.minValue, Offer(Drained(s.lines[i]), c.mins[i]));
      && (r == -1 || r >= e.time) && (i == k || s.lines[k].phase == AtBottom ==> r == e.time)
  {
    DrainedSame(c, s.lines[i], i, e.time);
  }

  lemma StalledEnterLine(c: Context, s: System, i: nat, s': System, k: nat, e: Event, j: nat)
    requires StalledWithin(c, s, k, e) && Enter(c, s, i, s') && j < |s.lines|
    ensures |s'.lines| == |s.lines| && SameLine(s.lines[j], s'.lines[j]) && StalledInside(s'.lines[j], e.time)
  {
    assert StalledInside(s.lines[j], e.time);
  }

  lemma StalledFinishLine(c: Context, s: System, i: nat, s': System, k: nat, e: Event, j: nat)
    requires StalledWithin(c, s, k, e) && Finish(c, s, i, s') && j < |s.lines|
    ensures |s'.lines| == |s.lines| && SameLine(s.lines[j], s'.lines[j])
    ensures if OthersAre(s, i, AtTop) then StalledOutside(s'.lines[j], e.time) && s'.lines[j].phase == Start
            else StalledInside(s'.lines[j], e.time)
  {
    assert StalledInside(s.lines[i], e.time) && StalledInside(s.lines[j], e.time);
  }

  lemma StalledStays(c: Context, s: System, i: nat, s': System, k: nat, e: Event)
    requires StalledWithin(c, s, k, e) && (Enter(c, s, i, s') || (Finish(c, s, i, s') && !OthersAre(s, i, AtTop)))
    ensures StalledWithin(c, s', k, e) && SameHistory(s, s')
  {
    forall j | 0 <= j < |s.lines| ensures SameLine(s.lines[j], s'.lines[j]) && StalledInside(s'.lines[j], e.time) {
      if Enter(c, s, i, s') {
        StalledEnterLine(c, s, i, s', k, e, j);
      } else {
        StalledFinishLine(c, s, i, s', k, e, j);
      }
    }
    assert Blocked(c, s', k, e);
  }

  lemma StalledLeaves(c: Context, s: System, i: nat, s': System, k: nat, e: Event)
    requires StalledWithin(c, s, k, e) && Finish(c, s, i, s') && OthersAre(s, i, AtTop)
    ensures StalledBetween(c, s', k, e) && SameHistory(s, s')
  {
    forall j | 0 <= j < |s.lines|
      ensures SameLine(s.lines[j], s'.lines[j]) && StalledOutside(s'.lines[j], e.time) && s'.lines[j].phase == Start
    {
      StalledFinishLine(c, s, i, s', k, e, j);
    }
    assert Blocked(c, s', k, e);
  }

  lemma NoWorkBelow(l: Timeline, edge: int)
    requires LineAfter(l, edge) && l.stopBefore == edge
    ensures !HasWork(l)
  {
    if |l.events| > 0 || |l.sinkEvents| > 0 {
      NextIsLeast(l);
      assert NextEvent(l) in All(l);
    }
  }

  lemma StalledStep(c: Context, s: System, s': System, k: nat, e: Event)
    requires ValidContext(c) && Stalled(c, s, k, e) && Next(c, s, s')
    ensures Stalled(c, s', k, e) && SameHistory(s, s')
  {
    var i: nat :| StepOf(c, s, i, s');
    if StalledBetween(c, s, k, e) {
      assert StalledOutside(s.lines[i], e.time);
      StalledDrain(c, s, i, s', k, e);
    } else {
      assert StalledInside(s.lines[i], e.time);
      if s.lines[i].phase == Running {
        NoWorkBelow(s.lines[i], e.time);
      }
      if Finish(c, s, i, s') && OthersAre(s, i, AtTop) {
        StalledLeaves(c, s, i, s', k, e);
      } else {
        StalledStays(c, s, i, s', k, e);
      }
    }
  }

  /** Once stalled, no interleaving executes another event: the epoch never ends. */
  lemma {:induction false} StallIsForever(c: Context, run: seq<System>, k: nat, e: Event)
    requires ValidContext(c) && Steps(c, run) && Stalled(c, run[0], k, e)
    ensures Stalled(c, Last(run), k, e) && SameHistory(run[0], Last(run))
    decreases |run|
  {
    var n := |run| - 1;
    if n > 0 {
      StepsPrefix(c, run, n);
      StallIsForever(c, run[..n], k, e);
      StalledStep(c, run[n - 1], Last(run), k, e);
      SameHistoryTransitive(run[0], run[n - 1], Last(run));
    }
  }

  /** A timeline that blocks makes the barrier reduce to the old edge. */
  lemma BlockedReduction(c: Context, s: System, i: nat, s': System, k: nat)
    requires ValidContext(c) && Inv(c, s) && MinIsOffer(c, s) && Releases(c, s, i, s') && s.edges != []
    requires Blocks(c, s', k, LastEdge(s))
    ensures s'.reduction == LastEdge(s)
  {
    ReleasedAfter(c, s, i, s', k);
    ReleasedOffer(c, s, i, s', k);
    var r := ReductionIsOffer(c, s, i, s');
    ReleasedOffer(c, s, i, s', r);
  }

  lemma ReleasedInside(c: Context, s: System, i: nat, s': System, j: nat)
    requires ValidContext(c) && Inv(c, s) && Releases(c, s, i, s') && s.edges != [] && j < |s.lines|
    ensures |s'.lines| == |s.lines| && StalledInside(s'.lines[j], LastEdge(s))
  {
    ReleasedAfter(c, s, i, s', j);
  }

  lemma NextIsPending(l: Timeline)
    requires NextTime(l) > 0
    ensures (|l.events| > 0 || |l.sinkEvents| > 0) && NextEvent(l) in All(l) && NextEvent(l).time == NextTime(l)
  {
    NextIsLeast(l);
  }

  /** A timeline that blocks a window stalls the system. */
  lemma BlockedStalls(c: Context, s: System, i: nat, s': System, k: nat)
    requires ValidContext(c) && Inv(c, s) && MinIsOffer(c, s) && Releases(c, s, i, s') && s.edges != []
    requires Blocks(c, s', k, LastEdge(s))
    ensures |s'.lines[k].events| > 0 || |s'.lines[k].sinkEvents| > 0
    ensures Stalled(c, s', k, NextEvent(s'.lines[k]))
  {
    ReleasedAfter(c, s, i, s', k);
    NextIsPending(s'.lines[k]);
    BlockedReduction(c, s, i, s', k);
    forall j: nat | j < |s'.lines| ensures StalledInside(s'.lines[j], LastEdge(s)) {
      ReleasedInside(c, s, i, s', j);
    }
    assert StalledWithin(c, s', k, NextEvent(s'.lines[k]));
  }

  /** So when the edge of a window of a run fails to advance, no continuation of the run ever executes another
      event. */
  lemma NoProgressIsForever(c: Context, run: seq<System>, i: nat, more: seq<System>)
    requires ValidContext(c) && IsRun(c, run) && Steps(c, more) && Releases(c, Last(run), i, more[0])
    requires Last(run).edges != [] && more[0].edges != [] && LastEdge(more[0]) == LastEdge(Last(run))
    ensures SameHistory(more[0], Last(more))
  {
    var s, s' := Last(run), more[0];
    WindowProgress(c, run, i, s');
    RunInv(c, run);
    MinIsOfferAlways(c, run);
    var k: nat :| Blocks(c, s', k, LastEdge(s));
    BlockedStalls(c, s, i, s', k);
    StallIsForever(c, more, k, NextEvent(s'.lines[k]));
  }

  lemma SameHistoryTransitive(r: System, s: System, t: System)
    requires SameHistory(r, s) && SameHistory(s, t)
    ensures SameHistory(r, t)
  {
    forall i | 0 <= i < |r.lines| ensures SameLine(r.lines[i], t.lines[i]) {
      assert SameLine(r.lines[i], s.lines[i]) && SameLine(s.lines[i], t.lines[i]);
    }
  }

  /** A model that stalls at once: two timelines, no channels, and one event one tick after the start. */
  lemma StallExample() returns (c: Context, s: System, e: Event)
    ensures ValidContext(c) && Initial(c, s) && Stalled(c, s, 0, e)
  {
    var m: RawModel := Model([[], []], (t, d, e) => Outcome([], []));
    c := Context(m, [-1, -1], 10);
    e := Event(1, 0, false, []);
    s := System([Timeline([], multiset{e}, multiset{}, [], 0, 0, Start, []),
                 Timeline([], multiset{}, multiset{}, [], 0, 0, Start, [])], -1, -1, []);
    assert e in All(s.lines[0]);
  }
}
