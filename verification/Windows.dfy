/**
 The conservative window protocol: every timeline drains the events other timelines left for it,
 offers a bound to a min-reduction barrier, runs all its events strictly below the reduced edge while
 the others run theirs, and meets the others at a second barrier. One transition is one action of one
 timeline, so every interleaving of the timeline threads is a run. Among pending events that tie, any one may
 be executed next. The composite mode is not enabled: the window size is 0 and every channel is synchronous.
 */
module Windows {
  import opened Topology
  import opened Simulator
  import MutexBarrier

  datatype Phase = Start | AtBottom | Released | Running | AtTop | Done

  /** A timeline: two event queues, the window list the others append to, clock, horizon and history. */
  datatype Timeline = Timeline(
    state: Data,
    events: multiset<Event>,
    sinkEvents: multiset<Event>,
    windowList: seq<Event>,
    time: int,
    stopBefore: int,
    phase: Phase,
    trace: seq<Event>)

  /** All timelines, the two values of the min-reduction barrier, and (history) the edges of the windows of the
      epoch, the current one included. */
  datatype System = System(lines: seq<Timeline>, minValue: int, reduction: int, edges: seq<int>)

  /** The model, the least crossing delay InitModel computed for every timeline, and the end of the epoch. */
  datatype Context = Context(m: Model, mins: seq<int>, epochEnd: int)

  ghost predicate ValidContext(c: Context)
  {
    && |c.mins| == |c.m.topology|
    && c.epochEnd > 0
    && forall i :: 0 <= i < |c.mins| ==> LeastFrom(CrossDelays(i, c.m.topology[i]), 0, c.mins[i])
  }

  // ----- What one timeline does

  ghost function NextTime(l: Timeline): int
  {
    if |l.events| == 0 && |l.sinkEvents| == 0 then -1
    else if |l.events| == 0 then MinEvent(l.sinkEvents).time
    else if |l.sinkEvents| == 0 then MinEvent(l.events).time
    else if MinEvent(l.sinkEvents).time < MinEvent(l.events).time then MinEvent(l.sinkEvents).time
    else MinEvent(l.events).time
  }

  function Max(a: int, b: int): int
  {
    if a > b then a else b
  }

  /** What a timeline with the given clock, next event time and least synchronous crossing delay offers to the
      min-reduction; -1 is ignored by the barrier. */
  function OfferAt(clock: int, next: int, minDelay: int, windowSize: int): int
  {
    if next < 0 || minDelay < 0 then
      (if Max(clock, next) + windowSize > clock then Max(clock, next) + windowSize else -1)
    else
      Max(clock, next) + Max(0, minDelay)
  }

  ghost function Offer(l: Timeline, minDelay: int): int
  {
    OfferAt(l.time, NextTime(l), minDelay, 0)
  }

  /** The upper edge of the window, from the reduced minimum. */
  function Edge(numTimelines: nat, reduction: int, epochEnd: int): int
  {
    if numTimelines > 1 && 0 < reduction < epochEnd then reduction else epochEnd
  }

  /** Timeline::select_next_event: compares the tops of the two queues; false selects `sinkEvents`. */
  ghost function SelectEvents(l: Timeline): bool
    requires |l.events| > 0 || |l.sinkEvents| > 0
  {
    if |l.events| == 0 then false
    else if |l.sinkEvents| == 0 then true
    else
      var lhs, rhs := MinEvent(l.events), MinEvent(l.sinkEvents);
      if lhs.time > rhs.time then false
      else if lhs.time < rhs.time then true
      else !(lhs.key2 > rhs.key2)
  }

  ghost function NextEvent(l: Timeline): Event
    requires |l.events| > 0 || |l.sinkEvents| > 0
  {
    if SelectEvents(l) then MinEvent(l.events) else MinEvent(l.sinkEvents)
  }

  /** `e` may be the event that the loop takes next: the top of the selected queue. */
  ghost predicate Selected(l: Timeline, e: Event)
    requires |l.events| > 0 || |l.sinkEvents| > 0
  {
    IsLeast(if SelectEvents(l) then l.events else l.sinkEvents, e)
  }

  /** Whether the event loop of the window goes on. */
  ghost predicate HasWork(l: Timeline)
  {
    (|l.events| > 0 || |l.sinkEvents| > 0) && NextEvent(l).time < l.stopBefore
  }

  /** The events of a list that go to the VE sink queue, or the ones that do not. */
  function Keep(evs: seq<Event>, sink: bool): multiset<Event>
  {
    if evs == [] then multiset{}
    else (if evs[0].sink == sink then multiset{evs[0]} else multiset{}) + Keep(evs[1..], sink)
  }

  /** The posted events that reach timeline `k`: local ones, and crossing ones at or above the horizon.
      A crossing write below the horizon is refused. */
  function Accepted(posts: seq<Post>, self: nat, k: nat, horizon: int): seq<Event>
  {
    if posts == [] then []
    else
      var p := posts[0];
      (if p.target == k && (k == self || horizon <= p.event.time) then [p.event] else [])
      + Accepted(posts[1..], self, k, horizon)
  }

  // ----- Transitions

  ghost predicate OthersAre(s: System, i: nat, p: Phase)
  {
    forall k :: 0 <= k < |s.lines| && k != i ==> s.lines[k].phase == p
  }

  function SetPhase(lines: seq<Timeline>, p: Phase): (r: seq<Timeline>)
    ensures |r| == |lines| && forall k :: 0 <= k < |lines| ==> r[k] == lines[k].(phase := p)
  {
    seq(|lines|, k requires 0 <= k < |lines| => lines[k].(phase := p))
  }

  function Drained(l: Timeline): Timeline
  {
    l.(events := l.events + Keep(l.windowList, false),
       sinkEvents := l.sinkEvents + Keep(l.windowList, true),
       windowList := [],
       phase := AtBottom)
  }

  /** get_cross_timeline_events, then arrival at the bottom barrier; the last arrival releases everyone. */
  ghost predicate Drain(c: Context, s: System, i: nat, s': System)
  {
    && i < |s.lines| == |c.mins| && s.lines[i].phase == Start
    && var lines := s.lines[i := Drained(s.lines[i])];
    && var minValue := MutexBarrier.Absorb(s.minValue, Offer(lines[i], c.mins[i]));
    && s' == if OthersAre(s, i, AtBottom)
             then System(SetPhase(lines, Released), -1, minValue, s.edges + [Edge(|lines|, minValue, c.epochEnd)])
             else s.(lines := lines, minValue := minValue)
  }

  /** A released timeline reads the reduced value and enters the window. */
  ghost predicate Enter(c: Context, s: System, i: nat, s': System)
  {
    && i < |s.lines| && s.lines[i].phase == Released
    && s' == s.(lines := s.lines[i := s.lines[i].(stopBefore := Edge(|s.lines|, s.reduction, c.epochEnd), phase := Running)])
  }

  /** One iteration of the event loop of sync_window on timeline `i`, executing `e`, seen on line `k`. */
  ghost function WorkLine(c: Context, s: System, i: nat, e: Event, k: nat): Timeline
    requires |s.lines| == |c.m.topology| && i < |s.lines| && k < |s.lines| && HasWork(s.lines[i])
  {
    var l := s.lines[i];
    var outcome := c.m.handler(i, l.state, e);
    var got := Accepted(Posts(c.m.topology[i], i, e.time, outcome.actions), i, k, l.stopBefore);
    if k == i then
      l.(state := outcome.state,
         events := (if SelectEvents(l) then l.events - multiset{e} else l.events) + Keep(got, false),
         sinkEvents := (if SelectEvents(l) then l.sinkEvents else l.sinkEvents - multiset{e}) + Keep(got, true),
         time := e.time,
         trace := l.trace + [e])
    else
      s.lines[k].(windowList := s.lines[k].windowList + got)
  }

  ghost predicate Work(c: Context, s: System, i: nat, e: Event, s': System)
  {
    && |s.lines| == |c.m.topology| && i < |s.lines| && s.lines[i].phase == Running
    && HasWork(s.lines[i]) && Selected(s.lines[i], e)
    && |s'.lines| == |s.lines| && s'.minValue == s.minValue && s'.reduction == s.reduction && s'.edges == s.edges
    && forall k :: 0 <= k < |s.lines| ==> s'.lines[k] == WorkLine(c, s, i, e, k)
  }

  ghost predicate Works(c: Context, s: System, i: nat, s': System)
  {
    exists e :: Work(c, s, i, e, s')
  }

  /** The window is exhausted: the clock moves to its end and the timeline waits for the others. */
  ghost predicate Finish(c: Context, s: System, i: nat, s': System)
  {
    && i < |s.lines| && s.lines[i].phase == Running && !HasWork(s.lines[i])
    && var lines := s.lines[i := s.lines[i].(time := s.lines[i].stopBefore - 1, phase := AtTop)];
    && s' == s.(lines := if OthersAre(s, i, AtTop) then
                            SetPhase(lines, if s.lines[i].stopBefore < c.epochEnd then Start else Done)
                          else lines)
  }

  /** A step of timeline `i`. */
  ghost predicate StepOf(c: Context, s: System, i: nat, s': System)
  {
    Drain(c, s, i, s') || Enter(c, s, i, s') || Works(c, s, i, s') || Finish(c, s, i, s')
  }

  ghost predicate Next(c: Context, s: System, s': System)
  {
    exists i: nat :: StepOf(c, s, i, s')
  }

  ghost predicate Initial(c: Context, s: System)
  {
    && |s.lines| == |c.m.topology| && s.minValue == -1 && s.edges == []
    && forall i :: 0 <= i < |s.lines| ==> var l := s.lines[i];
         && l.phase == Start && 0 <= l.time == s.lines[0].time < c.epochEnd && l.trace == []
         && forall e <- All(l) :: e.time >= l.time
  }

  ghost function Last(run: seq<System>): System
    requires |run| > 0
  {
    run[|run| - 1]
  }

  ghost predicate Steps(c: Context, run: seq<System>)
  {
    |run| > 0 && forall t :: 0 <= t < |run| - 1 ==> Next(c, run[t], run[t + 1])
  }

  ghost predicate IsRun(c: Context, run: seq<System>)
  {
    Steps(c, run) && Initial(c, run[0])
  }

  lemma StepsPrefix(c: Context, run: seq<System>, n: nat)
    requires Steps(c, run) && n == |run| - 1 > 0
    ensures Steps(c, run[..n]) && run[..n][0] == run[0] && Last(run[..n]) == run[n - 1] && Next(c, run[n - 1], Last(run))
  {
    assert run[n - 1 + 1] == Last(run);
  }

  // ----- Abstraction: the split over two queues and a window list is invisible

  ghost function All(l: Timeline): multiset<Event>
  {
    l.events + l.sinkEvents + multiset(l.windowList)
  }

  ghost function Abs(s: System): (g: Config)
    ensures |g| == |s.lines|
    ensures forall i :: 0 <= i < |g| ==> g[i] == Line(s.lines[i].state, All(s.lines[i]), s.lines[i].trace)
  {
    seq(|s.lines|, i requires 0 <= i < |s.lines| => Line(s.lines[i].state, All(s.lines[i]), s.lines[i].trace))
  }

  lemma KeepSplits(evs: seq<Event>)
    ensures Keep(evs, false) + Keep(evs, true) == multiset(evs)
  {
    if evs != [] {
      KeepSplits(evs[1..]);
      assert evs == [evs[0]] + evs[1..];
    }
  }

  lemma {:induction false} AcceptedIsTo(posts: seq<Post>, self: nat, k: nat, horizon: int)
    requires forall p <- posts :: p.target != self ==> p.event.time >= horizon
    ensures multiset(Accepted(posts, self, k, horizon)) == To(posts, k)
  {
    if posts != [] {
      AcceptedIsTo(posts[1..], self, k, horizon);
      var p := posts[0];
      var head := if p.target == k then [p.event] else [];
      assert Accepted(posts, self, k, horizon) == head + Accepted(posts[1..], self, k, horizon);
    }
  }

  /** The selected event is a least one of both queues together. */
  lemma NextIsLeast(l: Timeline)
    requires |l.events| > 0 || |l.sinkEvents| > 0
    ensures NextEvent(l) in l.events + l.sinkEvents
    ensures SelectEvents(l) <==> |l.events| > 0 && NextEvent(l) == MinEvent(l.events) && (|l.sinkEvents| > 0 ==> Leq(MinEvent(l.events), MinEvent(l.sinkEvents)))
    ensures forall f <- l.events + l.sinkEvents :: Leq(NextEvent(l), f)
    ensures NextTime(l) == NextEvent(l).time
  {
  }

  /** The event the loop takes is a least one of both queues together, whichever of several that tie it is. */
  lemma SelectedIsLeast(l: Timeline, e: Event)
    requires HasWork(l) && Selected(l, e)
    ensures IsLeast(l.events + l.sinkEvents, e) && e in All(l) && e.time == NextTime(l) < l.stopBefore
    ensures if SelectEvents(l) then e in l.events else e in l.sinkEvents
  {
    NextIsLeast(l);
    assert Leq(e, NextEvent(l)) && Leq(NextEvent(l), e);
  }

  // ----- The invariant

  ghost predicate Ordered(trace: seq<Event>, bound: int)
  {
    && (forall a, b :: 0 <= a < b < |trace| ==> trace[a].time <= trace[b].time)
    && (forall e <- trace :: e.time <= bound)
  }

  ghost predicate LineOk(l: Timeline)
  {
    l.time >= 0 && (forall e <- All(l) :: e.time >= l.time) && Ordered(l.trace, l.time)
  }

  /** The edge of the latest window. */
  function LastEdge(s: System): int
    requires s.edges != []
  {
    s.edges[|s.edges| - 1]
  }

  /** What a timeline looks like when its window is over. */
  ghost predicate LineAfter(l: Timeline, edge: int)
  {
    l.time == edge - 1 && forall e <- All(l) :: e.time >= edge
  }

  /** A timeline between windows: the barrier's minimum is above its clock and has absorbed its offer, and it
      has nothing left from before the last edge. */
  ghost predicate GatheringLine(c: Context, s: System, i: nat)
    requires i < |s.lines| == |c.mins|
  {
    var l := s.lines[i];
    && l.time == s.lines[0].time < c.epochEnd
    && (s.minValue == -1 || s.minValue > l.time)
    && (l.phase == Start || l.phase == AtBottom)
    && (l.phase == AtBottom ==> l.windowList == [] && Bounds(s.minValue, Offer(l, c.mins[i])))
    && (s.edges != [] ==> LineAfter(l, LastEdge(s)))
  }

  ghost predicate Gathering(c: Context, s: System)
  {
    && (s.minValue == -1 || s.minValue > 0) && |s.lines| == |c.mins|
    && (s.edges != [] ==> |s.lines| > 1 && 0 < LastEdge(s) < c.epochEnd)
    && forall i: nat :: i < |s.lines| ==> GatheringLine(c, s, i)
  }

  /** A barrier value that has absorbed an offer. */
  predicate Bounds(value: int, offer: int)
  {
    offer >= 0 ==> 0 <= value <= offer
  }

  /** Inside a window: everybody shares the edge, and nothing posted to another timeline lies below it. */
  ghost predicate InWindow(c: Context, s: System)
  {
    var edge := Edge(|s.lines|, s.reduction, c.epochEnd);
    && s.minValue == -1 && edge > 0 && s.edges != [] && LastEdge(s) == edge
    && Safe(c.m, Abs(s), edge)
    && forall i :: 0 <= i < |s.lines| ==> LineInWindow(s.lines[i], edge)
  }

  ghost predicate LineInWindow(l: Timeline, edge: int)
  {
    && (l.phase == Released || l.phase == Running || l.phase == AtTop)
    && (l.phase != Released ==> l.stopBefore == edge)
    && l.time < edge
    && (forall e <- l.windowList :: e.time >= edge)
    && (l.phase == AtTop ==> l.time == edge - 1 && forall e <- All(l) :: e.time >= edge)
  }

  ghost predicate Finished(c: Context, s: System)
  {
    forall i :: 0 <= i < |s.lines| ==> s.lines[i].phase == Done && forall e <- All(s.lines[i]) :: e.time >= c.epochEnd
  }

  ghost predicate AllOk(c: Context, s: System)
  {
    |s.lines| == |c.m.topology| && forall i :: 0 <= i < |s.lines| ==> LineOk(s.lines[i])
  }

  /** What holds in every reachable state, whatever ties. */
  ghost predicate Inv(c: Context, s: System)
  {
    AllOk(c, s) && (Gathering(c, s) || InWindow(c, s) || Finished(c, s))
  }

  lemma StillGathering(c: Context, s: System, i: nat)
    requires Inv(c, s) && i < |s.lines| && (s.lines[i].phase == Start || s.lines[i].phase == AtBottom)
    ensures Gathering(c, s)
  {
  }

  lemma StillInWindow(c: Context, s: System, i: nat)
    requires Inv(c, s) && i < |s.lines| && (s.lines[i].phase == Released || s.lines[i].phase == Running)
    ensures InWindow(c, s) && LineInWindow(s.lines[i], Edge(|s.lines|, s.reduction, c.epochEnd))
  {
    if Gathering(c, s) {
      GatheringPhase(c, s, i);
    }
  }

  lemma GatheringPhase(c: Context, s: System, i: nat)
    requires Gathering(c, s) && i < |s.lines|
    ensures s.lines[i].phase == Start || s.lines[i].phase == AtBottom
  {
    assert GatheringLine(c, s, i);
  }

  // ----- Draining keeps the invariant

  lemma DrainKeepsLines(c: Context, s: System, i: nat, s': System)
    requires Drain(c, s, i, s') && forall k :: 0 <= k < |s.lines| ==> LineOk(s.lines[k])
    ensures |s'.lines| == |s.lines| && Abs(s') == Abs(s)
    ensures forall k :: 0 <= k < |s'.lines| ==> LineOk(s'.lines[k])
  {
    KeepSplits(s.lines[i].windowList);
    assert All(Drained(s.lines[i])) == All(s.lines[i]);
    forall k | 0 <= k < |s.lines| ensures Abs(s')[k] == Abs(s)[k] && LineOk(s'.lines[k]) {
      assert All(s'.lines[k]) == All(s.lines[k]);
    }
  }

  lemma DrainedOffer(c: Context, l: Timeline, i: nat)
    requires ValidContext(c) && i < |c.mins| && LineOk(l)
    ensures Offer(Drained(l), c.mins[i]) == -1 || Offer(Drained(l), c.mins[i]) > l.time
  {
    KeepSplits(l.windowList);
    assert All(Drained(l)) == All(l);
    OfferBound(c, Drained(l), i);
  }

  /** Offers only lower the minimum, and stay above the common clock. */
  lemma AbsorbBounds(v: int, t: int, offer: int, clock: int)
    requires clock >= 0 && (v == -1 || v > clock) && (t == -1 || t > clock)
    ensures var v' := MutexBarrier.Absorb(v, t);
      && (v' == -1 || v' > clock) && Bounds(v', t) && (Bounds(v, offer) ==> Bounds(v', offer))
  {
  }

  lemma DrainedLine(l: Timeline)
    ensures All(Drained(l)) == All(l) && Drained(l).time == l.time && Drained(l).windowList == []
    ensures forall edge :: LineAfter(l, edge) ==> LineAfter(Drained(l), edge)
  {
    KeepSplits(l.windowList);
  }

  lemma GathersOther(c: Context, s: System, i: nat, d: Timeline, offer: int, s': System, k: nat)
    requires i < |s.lines| == |c.mins| && k < |s.lines| && k != i && s.lines[0].time >= 0 && d.time == s.lines[i].time
    requires s' == s.(lines := s.lines[i := d], minValue := MutexBarrier.Absorb(s.minValue, offer))
    requires GatheringLine(c, s, i) && GatheringLine(c, s, k) && (offer == -1 || offer > d.time)
    ensures GatheringLine(c, s', k)
  {
    var l := s.lines[k];
    AbsorbBounds(s.minValue, offer, Offer(l, c.mins[k]), l.time);
    assert s'.lines[k] == l && s'.lines[0].time == s.lines[0].time;
  }

  lemma DrainGathersOwn(c: Context, s: System, i: nat, s': System)
    requires Drain(c, s, i, s') && !OthersAre(s, i, AtBottom) && s.lines[0].time >= 0 && GatheringLine(c, s, i)
    requires var offer := Offer(Drained(s.lines[i]), c.mins[i]); offer == -1 || offer > s.lines[i].time
    ensures |s'.lines| == |s.lines| && GatheringLine(c, s', i)
  {
    var l := s.lines[i];
    DrainedLine(l);
    AbsorbBounds(s.minValue, Offer(Drained(l), c.mins[i]), -1, l.time);
    assert s'.lines[i] == Drained(l) && s'.lines[0].time == s.lines[0].time;
  }

  lemma DrainGathers(c: Context, s: System, i: nat, s': System)
    requires ValidContext(c) && |s.lines| == |c.m.topology| && Drain(c, s, i, s') && Gathering(c, s)
    requires LineOk(s.lines[i]) && !OthersAre(s, i, AtBottom)
    ensures Gathering(c, s')
  {
    DrainedOffer(c, s.lines[i], i);
    assert GatheringLine(c, s, i);
    AbsorbBounds(s.minValue, Offer(Drained(s.lines[i]), c.mins[i]), -1, s.lines[i].time);
    forall k: nat | k < |s.lines| ensures |s'.lines| == |s.lines| && GatheringLine(c, s', k) {
      assert GatheringLine(c, s, k);
      if k == i {
        DrainGathersOwn(c, s, i, s');
      } else {
        var d := Drained(s.lines[i]);
        GathersOther(c, s, i, d, Offer(d, c.mins[i]), s', k);
      }
    }
  }

  lemma ReleasedLine(c: Context, s: System, i: nat, s': System, k: nat)
    requires ValidContext(c) && |s.lines| == |c.mins| && Drain(c, s, i, s') && Gathering(c, s)
    requires LineOk(s.lines[i]) && OthersAre(s, i, AtBottom) && k < |s.lines|
    ensures s'.lines[k].windowList == [] && Bounds(s'.reduction, Offer(s'.lines[k], c.mins[k]))
    ensures LineInWindow(s'.lines[k], Edge(|s.lines|, s'.reduction, c.epochEnd))
    ensures s'.reduction == -1 || s'.reduction > 0
  {
    assert GatheringLine(c, s, i) && GatheringLine(c, s, k);
    DrainedOffer(c, s.lines[i], i);
    OfferIgnoresPhase(if k == i then Drained(s.lines[i]) else s.lines[k], Released, c.mins[k]);
  }

  lemma DrainReleases(c: Context, s: System, i: nat, s': System)
    requires ValidContext(c) && |s.lines| == |c.m.topology| && Drain(c, s, i, s') && Gathering(c, s)
    requires LineOk(s.lines[i]) && forall k :: 0 <= k < |s'.lines| ==> LineOk(s'.lines[k])
    requires OthersAre(s, i, AtBottom)
    ensures InWindow(c, s')
  {
    forall k | 0 <= k < |s'.lines|
      ensures s'.lines[k].windowList == [] && Bounds(s'.reduction, Offer(s'.lines[k], c.mins[k]))
      ensures LineInWindow(s'.lines[k], Edge(|s.lines|, s'.reduction, c.epochEnd))
    {
      ReleasedLine(c, s, i, s', k);
    }
    ReleasedLine(c, s, i, s', i);
    EdgeIsSafe(c, s');
  }

  lemma OfferIgnoresPhase(l: Timeline, p: Phase, minDelay: int)
    ensures Offer(l.(phase := p), minDelay) == Offer(l, minDelay)
  {
  }

  lemma DrainKeeps(c: Context, s: System, i: nat, s': System)
    requires ValidContext(c) && Inv(c, s) && Drain(c, s, i, s')
    ensures Inv(c, s') && Abs(s') == Abs(s)
    ensures if OthersAre(s, i, AtBottom) then InWindow(c, s') else Gathering(c, s')
  {
    StillGathering(c, s, i);
    DrainKeepsLines(c, s, i, s');
    if OthersAre(s, i, AtBottom) {
      DrainReleases(c, s, i, s');
    } else {
      DrainGathers(c, s, i, s');
    }
  }

  /** Offers are above the clock; a timeline with events and a crossing offers its next time plus the least delay. */
  lemma OfferBound(c: Context, l: Timeline, i: nat)
    requires ValidContext(c) && i < |c.mins| && LineOk(l)
    ensures Offer(l, c.mins[i]) == -1 || Offer(l, c.mins[i]) > l.time
    ensures forall e, d :: e in l.events + l.sinkEvents && d in CrossDelays(i, c.m.topology[i]) ==>
      l.time < Offer(l, c.mins[i]) <= e.time + d
  {
    assert forall d <- CrossDelays(i, c.m.topology[i]) :: d > 0 by {
      CrossingsPositive(c.m.topology);
      assert CrossDelays(i, c.m.topology[i]) <= AllDelays(c.m.topology);
    }
    if |l.events| > 0 || |l.sinkEvents| > 0 {
      NextIsLeast(l);
      assert NextEvent(l) in All(l);
    }
    forall e, d | e in l.events + l.sinkEvents && d in CrossDelays(i, c.m.topology[i])
      ensures l.time < Offer(l, c.mins[i]) <= e.time + d
    {
      assert Leq(NextEvent(l), e);
    }
  }

  /** The earliest time at which a timeline with these events and these crossing delays can reach another one. */
  ghost predicate EarliestReach(events: multiset<Event>, delays: set<int>, t: int)
  {
    && (exists e, d :: e in events && d in delays && t == e.time + d)
    && (forall e, d :: e in events && d in delays ==> t <= e.time + d)
  }

  ghost predicate EarliestEvent(events: multiset<Event>, t: int)
  {
    (exists e :: e in events && t == e.time) && (forall e <- events :: t <= e.time)
  }

  /** What a timeline offers: nothing without events; with a crossing, the earliest time at which it can reach
      another timeline; without, the time of its next event, unless that is its clock. */
  lemma OfferExact(c: Context, l: Timeline, i: nat)
    requires ValidContext(c) && i < |c.mins| && LineOk(l)
    ensures var pend, delays, offer := l.events + l.sinkEvents, CrossDelays(i, c.m.topology[i]), Offer(l, c.mins[i]);
      && (|pend| == 0 ==> offer == -1)
      && (|pend| > 0 && delays != {} ==> EarliestReach(pend, delays, offer))
      && (|pend| > 0 && delays == {} ==> EarliestEvent(pend, NextTime(l)) && offer == if NextTime(l) > l.time then NextTime(l) else -1)
  {
    var pend, delays := l.events + l.sinkEvents, CrossDelays(i, c.m.topology[i]);
    OfferBound(c, l, i);
    if |pend| > 0 {
      NextIsLeast(l);
      assert NextEvent(l) in All(l);
      if delays != {} {
        LeastCrossing(c, i);
        assert Offer(l, c.mins[i]) == NextEvent(l).time + c.mins[i];
      }
    }
  }

  /** With a crossing, the delay computed for the timeline is that of one of them. */
  lemma LeastCrossing(c: Context, i: nat)
    requires ValidContext(c) && i < |c.mins| && CrossDelays(i, c.m.topology[i]) != {}
    ensures c.mins[i] in CrossDelays(i, c.m.topology[i]) && c.mins[i] > 0
  {
    CrossingsPositive(c.m.topology);
    assert CrossDelays(i, c.m.topology[i]) <= AllDelays(c.m.topology);
    var d :| d in CrossDelays(i, c.m.topology[i]);
    assert d >= 0;
  }

  /** The reduced minimum of all offers is a safe edge. */
  lemma EdgeIsSafe(c: Context, s: System)
    requires ValidContext(c) && |s.lines| == |c.m.topology|
    requires s.reduction == -1 || s.reduction > 0
    requires forall i :: 0 <= i < |s.lines| ==> LineOk(s.lines[i]) && s.lines[i].windowList == []
    requires forall i :: 0 <= i < |s.lines| ==> Bounds(s.reduction, Offer(s.lines[i], c.mins[i]))
    ensures Safe(c.m, Abs(s), Edge(|s.lines|, s.reduction, c.epochEnd))
  {
    var edge := Edge(|s.lines|, s.reduction, c.epochEnd);
    forall i, e, d | 0 <= i < |s.lines| && e in Abs(s)[i].pend && e.time < edge && d in CrossDelays(i, c.m.topology[i])
      ensures e.time + d >= edge
    {
      assert e in s.lines[i].events + s.lines[i].sinkEvents;
      OfferBound(c, s.lines[i], i);
      if |s.lines| == 1 {
        SoleTimelineHasNoCrossing(c.m);
      }
    }
  }

  lemma SoleTimelineHasNoCrossing(m: Model)
    requires |m.topology| == 1
    ensures CrossDelays(0, m.topology[0]) == {}
  {
  }

  // ----- So does entering the window

  lemma EnterKeepsLine(c: Context, s: System, i: nat, s': System, edge: int, k: nat)
    requires Enter(c, s, i, s') && k < |s.lines| && edge == Edge(|s.lines|, s.reduction, c.epochEnd)
    requires LineOk(s.lines[k]) && LineInWindow(s.lines[k], edge)
    ensures |s'.lines| == |s.lines| && All(s'.lines[k]) == All(s.lines[k]) && LineOk(s'.lines[k]) && LineInWindow(s'.lines[k], edge)
    ensures Abs(s')[k] == Abs(s)[k]
  {
  }

  lemma EnterKeeps(c: Context, s: System, i: nat, s': System)
    requires ValidContext(c) && Inv(c, s) && Enter(c, s, i, s')
    ensures Inv(c, s') && InWindow(c, s) && InWindow(c, s') && Abs(s') == Abs(s)
  {
    StillInWindow(c, s, i);
    var edge := Edge(|s.lines|, s.reduction, c.epochEnd);
    forall k | 0 <= k < |s.lines| ensures LineOk(s'.lines[k]) && LineInWindow(s'.lines[k], edge) && Abs(s')[k] == Abs(s)[k] {
      EnterKeepsLine(c, s, i, s', edge, k);
    }
    assert Abs(s') == Abs(s);
  }

  // ----- So does executing an event

  /** No write is refused in a window, so what the targets get is everything that was posted. */
  lemma NoWriteRefused(c: Context, s: System, i: nat, e: Event, k: nat, edge: int)
    requires Safe(c.m, Abs(s), edge) && CanExecute(c.m, Abs(s), i, e) && e.time < edge
    ensures forall p <- EventPosts(c.m, Abs(s), i, e) :: p.target == i || edge <= p.event.time
    ensures multiset(Accepted(EventPosts(c.m, Abs(s), i, e), i, k, edge)) == To(EventPosts(c.m, Abs(s), i, e), k)
  {
    var g := Abs(s);
    forall p <- EventPosts(c.m, g, i, e) ensures p.target == i || edge <= p.event.time {
      PostBound(c.m.topology[i], i, e.time, c.m.handler(i, g[i].state, e).actions, p);
    }
    AcceptedIsTo(EventPosts(c.m, g, i, e), i, k, edge);
  }

  /** One iteration of the event loop is one step of the reference semantics. */
  lemma WorkIsStep(c: Context, s: System, i: nat, e: Event, s': System, edge: int)
    requires Safe(c.m, Abs(s), edge) && Work(c, s, i, e, s') && LineInWindow(s.lines[i], edge)
    ensures CanExecute(c.m, Abs(s), i, e) && e.time < edge
    ensures Abs(s') == Step(c.m, Abs(s), i, e)
  {
    SelectedIsLeast(s.lines[i], e);
    var g := Abs(s);
    forall k | 0 <= k < |g| ensures Abs(s')[k] == StepLine(c.m, g, i, e, k) {
      NoWriteRefused(c, s, i, e, k, edge);
      WorkLineIsStepLine(c, s, i, e, k, edge);
      assert s'.lines[k] == WorkLine(c, s, i, e, k);
    }
  }

  lemma WorkLineIsStepLine(c: Context, s: System, i: nat, e: Event, k: nat, edge: int)
    requires k < |s.lines| && CanExecute(c.m, Abs(s), i, e)
    requires HasWork(s.lines[i]) && Selected(s.lines[i], e) && s.lines[i].stopBefore == edge
    requires multiset(Accepted(EventPosts(c.m, Abs(s), i, e), i, k, edge)) == To(EventPosts(c.m, Abs(s), i, e), k)
    ensures var l' := WorkLine(c, s, i, e, k); Line(l'.state, All(l'), l'.trace) == StepLine(c.m, Abs(s), i, e, k)
  {
    var l := s.lines[i];
    var got := Accepted(EventPosts(c.m, Abs(s), i, e), i, k, edge);
    if k == i {
      KeepSplits(got);
      SelectedIsLeast(l, e);
      Reassemble(l.events, l.sinkEvents, multiset(l.windowList), e, SelectEvents(l), Keep(got, false), Keep(got, true));
    } else {
      assert multiset(s.lines[k].windowList + got) == multiset(s.lines[k].windowList) + multiset(got);
    }
  }

  lemma Reassemble(p: multiset<Event>, q: multiset<Event>, w: multiset<Event>, e: Event, first: bool,
                   x: multiset<Event>, y: multiset<Event>)
    requires if first then e in p else e in q
    ensures ((if first then p - multiset{e} else p) + x) + ((if first then q else q - multiset{e}) + y) + w
         == (p + q + w) - multiset{e} + (x + y)
  {
  }

  lemma OwnPending(c: Context, s: System, i: nat, e: Event, s': System)
    requires i < |s.lines| && HasWork(s.lines[i]) && Selected(s.lines[i], e)
    requires forall f <- s.lines[i].windowList :: f.time >= s.lines[i].stopBefore
    requires CanExecute(c.m, Abs(s), i, e) && |s'.lines| == |s.lines| && Abs(s')[i] == StepLine(c.m, Abs(s), i, e, i)
    ensures forall f <- All(s'.lines[i]) :: f.time >= e.time
  {
    var g := Abs(s);
    PostsToSelf(c.m, g, i, e);
    SelectedIsLeast(s.lines[i], e);
    forall f <- All(s'.lines[i]) ensures f.time >= e.time {
      assert f in StepLine(c.m, g, i, e, i).pend;
      assert f in g[i].pend || f in To(EventPosts(c.m, g, i, e), i);
    }
  }

  lemma WorkKeepsOwnLine(c: Context, s: System, i: nat, e: Event, s': System, edge: int)
    requires Work(c, s, i, e, s') && LineInWindow(s.lines[i], edge) && LineOk(s.lines[i])
    requires forall f <- All(s'.lines[i]) :: f.time >= e.time
    ensures LineOk(s'.lines[i]) && LineInWindow(s'.lines[i], edge)
  {
    var l, l' := s.lines[i], s'.lines[i];
    assert l' == WorkLine(c, s, i, e, i);
    SelectedIsLeast(l, e);
    OrderedPush(l.trace, l.time, e);
  }

  lemma OrderedPush(trace: seq<Event>, bound: int, e: Event)
    requires Ordered(trace, bound) && bound <= e.time
    ensures Ordered(trace + [e], e.time)
  {
    var trace' := trace + [e];
    forall a, b | 0 <= a < b < |trace'| ensures trace'[a].time <= trace'[b].time {
      assert trace[a] in trace;
    }
  }

  lemma WorkKeepsOtherLine(c: Context, s: System, i: nat, e: Event, s': System, k: nat, edge: int)
    requires Safe(c.m, Abs(s), edge) && Work(c, s, i, e, s') && k < |s.lines| && k != i && s.lines[i].stopBefore == edge
    requires LineInWindow(s.lines[k], edge) && LineOk(s.lines[k]) && CanExecute(c.m, Abs(s), i, e) && e.time < edge
    ensures LineOk(s'.lines[k]) && LineInWindow(s'.lines[k], edge)
  {
    PostsToOthers(c.m, Abs(s), i, e, edge, k);
    NoWriteRefused(c, s, i, e, k, edge);
    var got := Accepted(EventPosts(c.m, Abs(s), i, e), i, k, edge);
    assert s'.lines[k] == WorkLine(c, s, i, e, k) == s.lines[k].(windowList := s.lines[k].windowList + got);
    assert forall f <- got :: f in multiset(got);
    LaterArrivals(s.lines[k], got, edge);
  }

  lemma LaterArrivals(l: Timeline, got: seq<Event>, edge: int)
    requires LineOk(l) && LineInWindow(l, edge) && forall e <- got :: e.time >= edge
    ensures LineOk(l.(windowList := l.windowList + got)) && LineInWindow(l.(windowList := l.windowList + got), edge)
  {
    var l' := l.(windowList := l.windowList + got);
    forall e <- All(l') ensures e in All(l) || e.time >= edge {
    }
  }

  lemma WorkKeepsLine(c: Context, s: System, i: nat, e: Event, s': System, k: nat, edge: int)
    requires Safe(c.m, Abs(s), edge) && Work(c, s, i, e, s') && k < |s.lines|
    requires LineInWindow(s.lines[i], edge) && LineOk(s.lines[i]) && LineInWindow(s.lines[k], edge) && LineOk(s.lines[k])
    requires CanExecute(c.m, Abs(s), i, e) && e.time < edge && Abs(s') == Step(c.m, Abs(s), i, e)
    ensures LineOk(s'.lines[k]) && LineInWindow(s'.lines[k], edge)
  {
    if k == i {
      OwnPending(c, s, i, e, s');
      WorkKeepsOwnLine(c, s, i, e, s', edge);
    } else {
      WorkKeepsOtherLine(c, s, i, e, s', k, edge);
    }
  }

  /** Lines in a window and a safe edge make the invariant. */
  lemma WindowInv(c: Context, s: System, s': System, edge: int)
    requires InWindow(c, s) && edge == Edge(|s.lines|, s.reduction, c.epochEnd) && |s'.lines| == |s.lines| == |c.m.topology|
    requires s'.minValue == s.minValue && s'.reduction == s.reduction && s'.edges == s.edges && Safe(c.m, Abs(s'), edge)
    requires forall k :: 0 <= k < |s'.lines| ==> LineOk(s'.lines[k]) && LineInWindow(s'.lines[k], edge)
    ensures InWindow(c, s') && Inv(c, s')
  {
  }

  lemma WorkStaysSafe(c: Context, s: System, i: nat, e: Event, s': System, edge: int)
    requires Safe(c.m, Abs(s), edge) && Work(c, s, i, e, s') && LineInWindow(s.lines[i], edge)
    ensures CanExecute(c.m, Abs(s), i, e) && e.time < edge && Abs(s') == Step(c.m, Abs(s), i, e) && Safe(c.m, Abs(s'), edge)
  {
    WorkIsStep(c, s, i, e, s', edge);
    StepSafe(c.m, Abs(s), i, e, edge);
  }

  lemma WorkKeeps(c: Context, s: System, i: nat, e: Event, s': System)
    requires ValidContext(c) && Inv(c, s) && Work(c, s, i, e, s')
    ensures Inv(c, s') && InWindow(c, s) && InWindow(c, s')
  {
    StillInWindow(c, s, i);
    var edge := Edge(|s.lines|, s.reduction, c.epochEnd);
    WorkStaysSafe(c, s, i, e, s', edge);
    forall k | 0 <= k < |s.lines| ensures LineOk(s'.lines[k]) && LineInWindow(s'.lines[k], edge) {
      WorkKeepsLine(c, s, i, e, s', k, edge);
    }
    WindowInv(c, s, s', edge);
  }

  // ----- So does finishing the window

  /** A timeline that leaves the event loop has nothing left below the edge. */
  lemma NothingBelow(l: Timeline, edge: int)
    requires !HasWork(l) && l.stopBefore == edge && forall e <- l.windowList :: e.time >= edge
    ensures forall e <- All(l) :: e.time >= edge
  {
    forall e <- All(l) ensures e.time >= edge {
      if e in l.events + l.sinkEvents {
        NextIsLeast(l);
      }
    }
  }

  lemma FinishKeepsLine(c: Context, s: System, i: nat, s': System, k: nat)
    requires Finish(c, s, i, s') && k < |s.lines|
    requires LineInWindow(s.lines[k], Edge(|s.lines|, s.reduction, c.epochEnd))
    requires LineOk(s.lines[k]) && Edge(|s.lines|, s.reduction, c.epochEnd) > 0
    ensures |s'.lines| == |s.lines| && All(s'.lines[k]) == All(s.lines[k]) && LineOk(s'.lines[k])
    ensures s'.lines[k].state == s.lines[k].state && s'.lines[k].trace == s.lines[k].trace
    ensures OthersAre(s, i, AtTop) ==> LineAfter(s'.lines[k], Edge(|s.lines|, s.reduction, c.epochEnd))
    ensures !OthersAre(s, i, AtTop) ==> LineInWindow(s'.lines[k], Edge(|s.lines|, s.reduction, c.epochEnd))
  {
    if k == i {
      NothingBelow(s.lines[i], Edge(|s.lines|, s.reduction, c.epochEnd));
    }
  }

  lemma FinishKeepsLines(c: Context, s: System, i: nat, s': System)
    requires Finish(c, s, i, s') && InWindow(c, s) && forall k :: 0 <= k < |s.lines| ==> LineOk(s.lines[k])
    ensures |s'.lines| == |s.lines| && Abs(s') == Abs(s) && forall k :: 0 <= k < |s.lines| ==> LineOk(s'.lines[k])
    ensures var edge := Edge(|s.lines|, s.reduction, c.epochEnd);
      && (OthersAre(s, i, AtTop) ==> forall k :: 0 <= k < |s.lines| ==> LineAfter(s'.lines[k], edge))
      && (!OthersAre(s, i, AtTop) ==> forall k :: 0 <= k < |s.lines| ==> LineInWindow(s'.lines[k], edge))
  {
    var edge := Edge(|s.lines|, s.reduction, c.epochEnd);
    forall k | 0 <= k < |s.lines|
      ensures All(s'.lines[k]) == All(s.lines[k]) && LineOk(s'.lines[k])
      ensures s'.lines[k].state == s.lines[k].state && s'.lines[k].trace == s.lines[k].trace
      ensures OthersAre(s, i, AtTop) ==> LineAfter(s'.lines[k], edge)
      ensures !OthersAre(s, i, AtTop) ==> LineInWindow(s'.lines[k], edge)
    {
      FinishKeepsLine(c, s, i, s', k);
    }
  }

  /** When the last timeline finishes, nothing is left below the edge, and the next window can be prepared. */
  lemma LastFinish(c: Context, s: System, i: nat, s': System)
    requires ValidContext(c) && Inv(c, s) && Finish(c, s, i, s') && OthersAre(s, i, AtTop)
    ensures Inv(c, s') && InWindow(c, s) && (Gathering(c, s') || Finished(c, s')) && Abs(s') == Abs(s)
    ensures Exhausted(Abs(s'), Edge(|s.lines|, s.reduction, c.epochEnd))
  {
    StillInWindow(c, s, i);
    FinishKeepsLines(c, s, i, s');
    NewWindow(c, s', Edge(|s.lines|, s.reduction, c.epochEnd));
  }

  lemma FinishKeeps(c: Context, s: System, i: nat, s': System)
    requires ValidContext(c) && Inv(c, s) && Finish(c, s, i, s') && !OthersAre(s, i, AtTop)
    ensures Inv(c, s') && InWindow(c, s) && InWindow(c, s') && Abs(s') == Abs(s)
  {
    StillInWindow(c, s, i);
    FinishKeepsLines(c, s, i, s');
  }

  lemma NewWindow(c: Context, s: System, edge: int)
    requires ValidContext(c) && |s.lines| == |c.m.topology| && s.minValue == -1 && 0 < edge <= c.epochEnd
    requires s.edges != [] && LastEdge(s) == edge == Edge(|s.lines|, s.reduction, c.epochEnd)
    requires forall k :: 0 <= k < |s.lines| ==> LineAfter(s.lines[k], edge)
    requires forall k :: 0 <= k < |s.lines| ==> s.lines[k].phase == if edge < c.epochEnd then Start else Done
    ensures Exhausted(Abs(s), edge) && (Gathering(c, s) || Finished(c, s))
  {
    forall k | 0 <= k < |s.lines| ensures !Enabled(Abs(s), k, edge) {
      assert LineAfter(s.lines[k], edge);
    }
    if edge < c.epochEnd {
      forall k: nat | k < |s.lines| ensures GatheringLine(c, s, k) {
        assert LineAfter(s.lines[k], edge) && LineAfter(s.lines[0], edge);
      }
    }
  }

  // ----- Runs

  lemma NextKeeps(c: Context, s: System, s': System)
    requires ValidContext(c) && Inv(c, s) && Next(c, s, s')
    ensures Inv(c, s')
  {
    var i: nat :| StepOf(c, s, i, s');
    if Drain(c, s, i, s') {
      DrainKeeps(c, s, i, s');
    } else if Enter(c, s, i, s') {
      EnterKeeps(c, s, i, s');
    } else if Works(c, s, i, s') {
      var e :| Work(c, s, i, e, s');
      WorkKeeps(c, s, i, e, s');
    } else if OthersAre(s, i, AtTop) {
      LastFinish(c, s, i, s');
    } else {
      FinishKeeps(c, s, i, s');
    }
  }

  /** The invariant holds in every state of every interleaving. */
  lemma {:induction false} RunInv(c: Context, run: seq<System>)
    requires ValidContext(c) && IsRun(c, run)
    ensures Inv(c, Last(run))
    decreases |run|
  {
    var n := |run| - 1;
    if n > 0 {
      StepsPrefix(c, run, n);
      RunInv(c, run[..n]);
      NextKeeps(c, run[n - 1], Last(run));
    } else {
      InitialInv(c, run[0]);
    }
  }

  lemma InitialInv(c: Context, s: System)
    requires ValidContext(c) && Initial(c, s)
    ensures Inv(c, s) && Gathering(c, s)
  {
    forall k: nat | k < |s.lines| ensures GatheringLine(c, s, k) {
      assert s.lines[0].phase == Start;
    }
  }

  /** A timeline about to execute an event, whichever of several that tie, has none of its writes refused. */
  lemma RunningWrites(c: Context, s: System, i: nat, e: Event)
    requires Inv(c, s) && i < |s.lines| && i < |c.m.topology| && s.lines[i].phase == Running
    requires HasWork(s.lines[i]) && Selected(s.lines[i], e)
    ensures var l := s.lines[i];
      forall p <- Posts(c.m.topology[i], i, e.time, c.m.handler(i, l.state, e).actions) :: p.target == i || l.stopBefore <= p.event.time
  {
    StillInWindow(c, s, i);
    SelectedIsLeast(s.lines[i], e);
    NoWriteRefused(c, s, i, e, i, s.lines[i].stopBefore);
  }

  /** In every reachable state: what is waiting for a timeline is not in its past, executed timestamps never
      decrease, and a timeline that is about to execute an event has none of its writes refused. */
  lemma WindowSafety(c: Context, run: seq<System>, i: nat)
    requires ValidContext(c) && IsRun(c, run) && i < |Last(run).lines| && i < |c.m.topology|
    ensures var l := Last(run).lines[i];
      && (forall e <- All(l) :: e.time >= l.time)
      && (forall a, b :: 0 <= a < b < |l.trace| ==> l.trace[a].time <= l.trace[b].time)
      && (l.phase == Running && HasWork(l) ==>
            forall e :: Selected(l, e) ==>
              forall p <- Posts(c.m.topology[i], i, e.time, c.m.handler(i, l.state, e).actions) ::
                p.target == i || l.stopBefore <= p.event.time)
  {
    RunInv(c, run);
    var s := Last(run);
    var l := s.lines[i];
    assert LineOk(l);
    if l.phase == Running && HasWork(l) {
      forall e | Selected(l, e)
        ensures forall p <- Posts(c.m.topology[i], i, e.time, c.m.handler(i, l.state, e).actions) ::
          p.target == i || l.stopBefore <= p.event.time
      {
        RunningWrites(c, s, i, e);
      }
    }
  }

  /** When the epoch is over, everything before its end has been executed. */
  lemma EpochIsComplete(c: Context, run: seq<System>, i: nat)
    requires ValidContext(c) && IsRun(c, run)
    requires i < |Last(run).lines| && Last(run).lines[i].phase == Done
    ensures Exhausted(Abs(Last(run)), c.epochEnd)
  {
    RunInv(c, run);
    var s := Last(run);
    if Gathering(c, s) {
      GatheringPhase(c, s, i);
    }
    assert Finished(c, s);
    forall j | 0 <= j < |s.lines| ensures !Enabled(Abs(s), j, c.epochEnd) {
      assert All(s.lines[j]) == Abs(s)[j].pend;
    }
  }

  // ----- No deadlock

  /** Some timeline is not waiting at a barrier. */
  ghost predicate NotAllWait(s: System)
  {
    exists k :: 0 <= k < |s.lines| && s.lines[k].phase != AtBottom && s.lines[k].phase != AtTop
  }

  lemma DrainWakes(c: Context, s: System, i: nat, s': System)
    requires Inv(c, s) && Drain(c, s, i, s')
    ensures NotAllWait(s')
  {
    StillGathering(c, s, i);
    if OthersAre(s, i, AtBottom) {
      assert s'.lines[i].phase == Released;
    } else {
      var k :| 0 <= k < |s.lines| && k != i && s.lines[k].phase != AtBottom;
      assert GatheringLine(c, s, k) && s'.lines[k].phase == Start;
    }
  }

  lemma FinishWakes(c: Context, s: System, i: nat, s': System)
    requires Inv(c, s) && Finish(c, s, i, s')
    ensures NotAllWait(s')
  {
    StillInWindow(c, s, i);
    if OthersAre(s, i, AtTop) {
      assert s'.lines[i].phase == Start || s'.lines[i].phase == Done;
    } else {
      var k :| 0 <= k < |s.lines| && k != i && s.lines[k].phase != AtTop;
      assert LineInWindow(s.lines[k], Edge(|s.lines|, s.reduction, c.epochEnd)) && s'.lines[k] == s.lines[k];
    }
  }

  lemma NextWakes(c: Context, s: System, s': System)
    requires Inv(c, s) && Next(c, s, s')
    ensures NotAllWait(s')
  {
    var i: nat :| StepOf(c, s, i, s');
    if Drain(c, s, i, s') {
      DrainWakes(c, s, i, s');
    } else if Finish(c, s, i, s') {
      FinishWakes(c, s, i, s');
    } else {
      assert s'.lines[i].phase == Running by {
        if e :| Work(c, s, i, e, s') {
          assert s'.lines[i] == WorkLine(c, s, i, e, i);
        }
      }
    }
  }

  lemma SomeoneAwake(c: Context, run: seq<System>)
    requires ValidContext(c) && IsRun(c, run) && |Last(run).lines| > 0
    ensures NotAllWait(Last(run))
  {
    var n := |run| - 1;
    if n > 0 {
      StepsPrefix(c, run, n);
      RunInv(c, run[..n]);
      NextWakes(c, run[n - 1], Last(run));
    } else {
      assert run[0].lines[0].phase == Start;
    }
  }

  /** The state after the timeline has executed its next event. */
  lemma WorkPossible(c: Context, s: System, i: nat) returns (s': System)
    requires |s.lines| == |c.m.topology| && i < |s.lines| && s.lines[i].phase == Running && HasWork(s.lines[i])
    ensures Works(c, s, i, s')
  {
    var e := NextEvent(s.lines[i]);
    NextIsLeast(s.lines[i]);
    s' := s.(lines := seq(|s.lines|, k requires 0 <= k < |s.lines| => WorkLine(c, s, i, e, k)));
    assert Work(c, s, i, e, s');
  }

  /** There is no deadlock: until the epoch is over, some timeline can step in every reachable state. */
  lemma SomeTimelineCanStep(c: Context, run: seq<System>, i: nat) returns (s': System)
    requires ValidContext(c) && IsRun(c, run) && i < |Last(run).lines| && Last(run).lines[i].phase != Done
    ensures Next(c, Last(run), s')
  {
    var s := Last(run);
    RunInv(c, run);
    SomeoneAwake(c, run);
    var k :| 0 <= k < |s.lines| && s.lines[k].phase != AtBottom && s.lines[k].phase != AtTop;
    if Gathering(c, s) {
      GatheringPhase(c, s, k);
    }
    s' := AwakeCanStep(c, s, k);
  }

  lemma AwakeCanStep(c: Context, s: System, k: nat) returns (s': System)
    requires ValidContext(c) && AllOk(c, s) && k < |s.lines|
    requires s.lines[k].phase == Start || s.lines[k].phase == Released || s.lines[k].phase == Running
    ensures Next(c, s, s')
  {
    if s.lines[k].phase == Start {
      var lines := s.lines[k := Drained(s.lines[k])];
      var minValue := MutexBarrier.Absorb(s.minValue, Offer(lines[k], c.mins[k]));
      s' := if OthersAre(s, k, AtBottom)
            then System(SetPhase(lines, Released), -1, minValue, s.edges + [Edge(|lines|, minValue, c.epochEnd)])
            else s.(lines := lines, minValue := minValue);
      assert Drain(c, s, k, s');
    } else if s.lines[k].phase == Released {
      s' := s.(lines := s.lines[k := s.lines[k].(stopBefore := Edge(|s.lines|, s.reduction, c.epochEnd), phase := Running)]);
      assert Enter(c, s, k, s');
    } else if HasWork(s.lines[k]) {
      s' := WorkPossible(c, s, k);
    } else {
      var lines := s.lines[k := s.lines[k].(time := s.lines[k].stopBefore - 1, phase := AtTop)];
      s' := s.(lines := if OthersAre(s, k, AtTop) then
                           SetPhase(lines, if s.lines[k].stopBefore < c.epochEnd then Start else Done)
                         else lines);
      assert Finish(c, s, k, s');
    }
    assert StepOf(c, s, k, s');
  }
}
