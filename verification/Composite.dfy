/**
 Composite synchronisation is the same as simulating sequentially: in runs where arrivals do not tie with, or
 precede, events executed at the same instant, every interleaving of windows and appointments is, between
 windows, in the configuration that a simulator with one global event list reaches.
 */
module Composite {
  import opened Topology
  import opened Simulator
  import opened Appointments

  // ----- Abstraction: it is invisible whether an event is on the list, in the window list or in a box

  /** What the boxes of the sources below `n` hold for timeline `k`. */
  ghost function Boxes(links: map<Pair, Link>, k: nat, n: nat): multiset<Event>
  {
    if n == 0 then multiset{}
    else Boxes(links, k, n - 1) + if Pair(n - 1, k) in links then links[Pair(n - 1, k)].box else multiset{}
  }

  ghost function Waiting(s: System, k: nat): multiset<Event>
    requires k < |s.lines|
  {
    s.lines[k].pend + s.lines[k].windowList + Boxes(s.links, k, |s.lines|)
  }

  ghost function Abs(s: System): (g: Config)
    ensures |g| == |s.lines|
    ensures forall k :: 0 <= k < |g| ==> g[k] == Line(s.lines[k].state, Waiting(s, k), s.lines[k].trace)
  {
    seq(|s.lines|, k requires 0 <= k < |s.lines| => Line(s.lines[k].state, Waiting(s, k), s.lines[k].trace))
  }

  lemma {:induction false} BoxMember(links: map<Pair, Link>, k: nat, n: nat, f: Event) returns (i: nat)
    requires f in Boxes(links, k, n)
    ensures i < n && Pair(i, k) in links && f in links[Pair(i, k)].box
  {
    i := n - 1;
    if !(Pair(i, k) in links && f in links[Pair(i, k)].box) {
      i := BoxMember(links, k, n - 1, f);
    }
  }

  lemma {:induction false} BoxContains(links: map<Pair, Link>, i: nat, k: nat, n: nat, f: Event)
    requires i < n && Pair(i, k) in links && f in links[Pair(i, k)].box
    ensures f in Boxes(links, k, n)
  {
    if i < n - 1 {
      BoxContains(links, i, k, n - 1, f);
    }
  }

  /** The boxes for `k` when the one of source `i` has got `more`. */
  lemma {:induction false} BoxesGrow(links: map<Pair, Link>, links': map<Pair, Link>, k: nat, n: nat, i: nat, more: multiset<Event>)
    requires links'.Keys == links.Keys
    requires forall j: nat :: j != i && Pair(j, k) in links ==> links'[Pair(j, k)].box == links[Pair(j, k)].box
    requires Pair(i, k) in links ==> links'[Pair(i, k)].box == links[Pair(i, k)].box + more
    ensures Boxes(links', k, n) == Boxes(links, k, n) + if i < n && Pair(i, k) in links then more else multiset{}
  {
    if n > 0 {
      BoxesGrow(links, links', k, n - 1, i, more);
      assert Pair(n - 1, k) in links' <==> Pair(n - 1, k) in links'.Keys;
    }
  }

  /** A step that moves no event. */
  lemma Quiet(s: System, s': System)
    requires |s'.lines| == |s.lines| && s'.links.Keys == s.links.Keys
    requires forall k :: 0 <= k < |s.lines| ==> var l, l' := s.lines[k], s'.lines[k];
      l'.state == l.state && l'.trace == l.trace && l'.pend + l'.windowList == l.pend + l.windowList
    requires forall p <- s.links :: s'.links[p].box == s.links[p].box
    ensures Abs(s') == Abs(s)
  {
    forall k: nat | k < |s.lines| ensures Abs(s')[k] == Abs(s)[k] {
      BoxesGrow(s.links, s'.links, k, |s.lines|, 0, multiset{});
    }
  }

  lemma DrainIsSilent(s: System, p: Pair, s': System)
    requires Drain(s, p, s') && LinkOk(s, p)
    ensures Abs(s') == Abs(s)
  {
    forall k: nat | k < |s.lines| ensures Abs(s')[k] == Abs(s)[k] {
      BoxesGrow(s'.links, s.links, k, |s.lines|, p.src, if k == p.dst then s.links[p].box else multiset{});
      Regroup(s.lines[k].pend, s.links[p].box, s.lines[k].windowList, Boxes(s'.links, k, |s.lines|));
    }
  }

  lemma Regroup(a: multiset<Event>, x: multiset<Event>, b: multiset<Event>, c: multiset<Event>)
    ensures (a + x) + b + c == a + b + (c + x)
  {
  }

  lemma FinishIsSilent(s: System, i: nat, s': System)
    requires Finish(s, i, s')
    ensures Abs(s') == Abs(s) && s'.horizon == s.horizon
  {
    Quiet(s, s');
  }

  lemma LinkStepIsSilent(s: System, p: Pair, s': System)
    requires LinkStep(s, p, s') && p in s.links && LinkOk(s, p)
    ensures Abs(s') == Abs(s) && s'.horizon == s.horizon
  {
    if Drain(s, p, s') {
      DrainIsSilent(s, p, s');
    } else {
      AppointmentMovesNothing(s, p, s');
      Quiet(s, s');
    }
  }

  lemma AppointmentMovesNothing(s: System, p: Pair, s': System)
    requires Make(s, p, s') || Wait(s, p, s') || Wake(s, p, s') || Schedule(s, p, s')
    ensures |s'.lines| == |s.lines| && s'.links.Keys == s.links.Keys && s'.horizon == s.horizon
    ensures forall k :: 0 <= k < |s.lines| ==> s'.lines[k] == s.lines[k].(clock := s'.lines[k].clock, mode := s'.lines[k].mode)
    ensures forall q <- s.links :: s'.links[q].box == s.links[q].box
  {
  }

  lemma WindowIsSilent(c: Context, s: System, s': System)
    requires WindowStep(c, s, s')
    ensures Abs(s') == Abs(s) && forall k :: 0 <= k < |s.lines| ==> s.lines[k].mode == AtBarrier
  {
    var next, reduction, epochEnd :| Window(c, s, next, reduction, epochEnd, s');
    forall k | 0 <= k < |s.lines| ensures s'.lines[k] == Entered(s.lines[k], next[k], s'.horizon) {
    }
    Quiet(s, s');
  }

  // ----- Executing an event is a step of the abstract simulator

  /** If nothing is refused, everything that is sent arrives, in the window list or in the box. */
  lemma {:induction false} LateAndSoon(posts: seq<Post>, self: nat, k: nat, horizon: int, thrs: int)
    requires k != self && forall p <- posts :: !Refused(p, self, horizon, thrs)
    ensures Late(posts, k, horizon) + Soon(posts, k, horizon, thrs) == To(posts, k)
  {
    if posts != [] {
      LateAndSoon(posts[1..], self, k, horizon, thrs);
      assert !Refused(posts[0], self, horizon, thrs);
      var x := multiset{posts[0].event};
      var late, soon := Late(posts[1..], k, horizon), Soon(posts[1..], k, horizon, thrs);
      assert (x + late) + soon == x + (late + soon) == late + (x + soon);
      assert Late(posts, k, horizon) == (if posts[0].target == k && horizon <= posts[0].event.time then x + late else late);
      assert To(posts, k) == (if posts[0].target == k then x + (late + soon) else late + soon);
    }
  }

  /** Only a pair with a link exchanges events inside a window. */
  lemma SoonNeedsLink(c: Context, s: System, i: nat, e: Event, k: nat)
    requires ValidContext(c) && Wired(c, s.links) && |s.lines| == |c.m.topology| && i < |s.lines| && k < |s.lines| && k != i
    requires Pair(i, k) !in s.links
    ensures Soon(Sent(c, s, i, e), k, s.horizon, c.thrs) == multiset{}
  {
    if f :| f in Soon(Sent(c, s, i, e), k, s.horizon, c.thrs) {
      var p := SoonMember(Sent(c, s, i, e), k, s.horizon, c.thrs, f);
      SentBound(c, s, i, e, p);
      FastMeansLinked(c, s.links, Pair(i, k), p.delay);
    }
  }

  lemma OwnLine(c: Context, s: System, i: nat, e: Event, s': System)
    requires Work(c, s, i, e, s') && CanExecute(c.m, Abs(s), i, e) && Pair(i, i) !in s.links
    ensures Abs(s')[i] == StepLine(c.m, Abs(s), i, e, i)
  {
    assert s'.lines[i] == WorkLine(c, s, i, e, i);
    forall j: nat | Pair(j, i) in s.links ensures s'.links[Pair(j, i)].box == s.links[Pair(j, i)].box {
      assert s'.links[Pair(j, i)] == WorkLink(c, s, i, e, Pair(j, i));
    }
    BoxesGrow(s.links, s'.links, i, |s.lines|, i, multiset{});
    Replace(s.lines[i].pend, e, To(Sent(c, s, i, e), i), s.lines[i].windowList, Boxes(s.links, i, |s.lines|));
  }

  lemma Replace(a: multiset<Event>, e: Event, x: multiset<Event>, b: multiset<Event>, c: multiset<Event>)
    requires e in a
    ensures (a - multiset{e} + x) + b + c == (a + b + c) - multiset{e} + x
  {
  }

  lemma OtherLine(c: Context, s: System, i: nat, e: Event, s': System, k: nat)
    requires ValidContext(c) && Inv(c, s) && Work(c, s, i, e, s') && CanExecute(c.m, Abs(s), i, e) && k < |s.lines| && k != i
    ensures Abs(s')[k] == StepLine(c.m, Abs(s), i, e, k)
  {
    assert s'.lines[k] == WorkLine(c, s, i, e, k);
    var posts := Sent(c, s, i, e);
    var late, soon := Late(posts, k, s.horizon), Soon(posts, k, s.horizon, c.thrs);
    forall j: nat | j != i && Pair(j, k) in s.links ensures s'.links[Pair(j, k)].box == s.links[Pair(j, k)].box {
      assert s'.links[Pair(j, k)] == WorkLink(c, s, i, e, Pair(j, k));
    }
    if Pair(i, k) in s.links {
      assert s'.links[Pair(i, k)] == WorkLink(c, s, i, e, Pair(i, k));
    } else {
      SoonNeedsLink(c, s, i, e, k);
    }
    BoxesGrow(s.links, s'.links, k, |s.lines|, i, soon);
    forall p <- posts ensures !Refused(p, i, s.horizon, c.thrs) {
      NoneRefused(c, s, i, e, p);
    }
    LateAndSoon(posts, i, k, s.horizon, c.thrs);
    Spread(s.lines[k].pend, s.lines[k].windowList, late, Boxes(s.links, k, |s.lines|), soon);
  }

  lemma Spread(a: multiset<Event>, b: multiset<Event>, late: multiset<Event>, c: multiset<Event>, soon: multiset<Event>)
    ensures a + (b + late) + (c + soon) == a + b + c + (late + soon)
  {
  }

  /** One iteration of the event loop executes a pending event, and every post arrives. */
  lemma WorkIsStep(c: Context, s: System, i: nat, e: Event, s': System)
    requires ValidContext(c) && Inv(c, s) && Work(c, s, i, e, s')
    ensures CanExecute(c.m, Abs(s), i, e) && Abs(s') == Step(c.m, Abs(s), i, e)
  {
    assert e in Waiting(s, i);
    assert !Linked(c, Pair(i, i));
    forall k | 0 <= k < |s.lines| ensures Abs(s')[k] == StepLine(c.m, Abs(s), i, e, k) {
      if k == i {
        OwnLine(c, s, i, e, s');
      } else {
        OtherLine(c, s, i, e, s', k);
      }
    }
  }

  // ----- Ties

  /** No event of the list ties with `e`, and at the instant of `e` only events that come after it arrive; and what
      `e` sends comes after what its destination has executed at the same instant. */
  ghost predicate TieFree(c: Context, s: System, i: nat, e: Event)
    requires |s.lines| == |c.m.topology| && i < |s.lines|
  {
    && Unique(s.lines[i].pend)
    && (forall p, f :: p in s.links && p.dst == i && f in s.links[p].box && f.time == e.time ==> e.key2 < f.key2)
    && (forall p <- Sent(c, s, i, e) :: p.target != i && p.target < |s.lines| ==>
         forall x <- s.lines[p.target].trace :: x.time == p.event.time ==> x.key2 < p.event.key2)
  }

  ghost predicate StepTieFree(c: Context, s: System, s': System)
  {
    forall i: nat, e :: Work(c, s, i, e, s') ==> TieFree(c, s, i, e)
  }

  ghost predicate TieFreeRun(c: Context, run: seq<System>)
  {
    forall t :: 0 <= t < |run| - 1 ==> StepTieFree(c, run[t], run[t + 1])
  }

  lemma TieFreePrefix(c: Context, run: seq<System>, n: nat)
    requires TieFreeRun(c, run) && n == |run| - 1 > 0
    ensures TieFreeRun(c, run[..n]) && StepTieFree(c, run[n - 1], Last(run))
  {
    assert run[n - 1 + 1] == Last(run);
  }

  /** An arrival by appointment is not before the event that its destination executes. */
  lemma BoxIsAhead(s: System, i: nat, e: Event, p: Pair, f: Event)
    requires p in s.links && LinkOk(s, p) && p.dst == i && s.lines[i].mode == Free && NoWaitBefore(s, i, e.time)
    requires f in s.links[p].box
    ensures f.time >= e.time
  {
  }

  lemma BoxComesAfter(c: Context, s: System, i: nat, e: Event, f: Event)
    requires Sound(c.mins, s) && CanWork(c, s, i, e) && TieFree(c, s, i, e) && f in Boxes(s.links, i, |s.lines|)
    ensures Before(e, f)
  {
    var j := BoxMember(s.links, i, |s.lines|, f);
    assert LinkOk(s, Pair(j, i));
    BoxIsAhead(s, i, e, Pair(j, i), f);
  }

  /** So an event taken without a tie is the least one pending for its timeline, wherever it is stored. */
  lemma TakenIsMin(c: Context, s: System, i: nat, e: Event)
    requires Inv(c, s) && CanWork(c, s, i, e) && TieFree(c, s, i, e)
    ensures |Waiting(s, i)| > 0 && Unique(Waiting(s, i)) && MinEvent(Waiting(s, i)) == e
  {
    var l := s.lines[i];
    var rest := l.windowList + Boxes(s.links, i, |s.lines|);
    assert LineOk(c.mins, s, i);
    assert SameKey(e, MinEvent(l.pend));
    forall f <- rest ensures Before(e, f) {
      if f !in l.windowList {
        BoxComesAfter(c, s, i, e, f);
      }
    }
    MinKept(l.pend, rest);
    assert Waiting(s, i) == l.pend + rest;
  }

  /** What is sent arrives at or after the clock of its destination. */
  lemma SendIsAhead(c: Context, s: System, i: nat, e: Event, p: Post)
    requires ValidContext(c) && Inv(c, s) && CanWork(c, s, i, e) && p in Sent(c, s, i, e) && p.target != i && p.target < |s.lines|
    ensures p.event.time >= s.lines[p.target].clock
  {
    NoneRefused(c, s, i, e, p);
    SentBound(c, s, i, e, p);
    assert LineOk(c.mins, s, p.target) && LineOk(c.mins, s, i);
    if p.event.time < s.horizon {
      FastMeansLinked(c, s.links, Pair(i, p.target), p.delay);
      SoonIsAhead(c.mins, s, i, e, p);
    }
  }

  lemma SoonIsAhead(mins: seq<int>, s: System, i: nat, e: Event, p: Post)
    requires Sound(mins, s) && i < |s.lines| && s.lines[i].clock <= e.time && Pair(i, p.target) in s.links
    requires p.event.time >= e.time + p.delay && p.delay >= s.links[Pair(i, p.target)].look
    ensures p.target < |s.lines| && p.event.time >= s.lines[p.target].clock
  {
    assert LineOk(mins, s, i) && LinkOk(s, Pair(i, p.target));
    LookKeeps(s, i, e, p);
  }

  lemma FastMeansLinked(c: Context, links: map<Pair, Link>, p: Pair, delay: int)
    requires Wired(c, links) && p.src < |c.m.topology| && p.dst < |c.m.topology| && p.src != p.dst
    requires delay in DelaysTo(c.m.topology[p.src], p.dst) && delay < c.thrs
    ensures p in links && links[p].look <= delay
  {
    assert Linked(c, p);
    assert IsLook(c, p, links[p].look);
  }

  lemma TieFreeSendsLater(c: Context, s: System, i: nat, e: Event)
    requires ValidContext(c) && Inv(c, s) && CanWork(c, s, i, e) && TieFree(c, s, i, e)
    requires CanStep(c.m, Abs(s), i) && MinEvent(Abs(s)[i].pend) == e
    ensures SendsLater(c.m, Abs(s), i)
  {
    var g := Abs(s);
    forall k, f, x | 0 <= k < |g| && k != i && f in To(StepPosts(c.m, g, i), k) && x in g[k].trace ensures Before(x, f) {
      var p := ToMember(Sent(c, s, i, e), k, f);
      SendIsAhead(c, s, i, e, p);
      assert LineOk(c.mins, s, k);
    }
  }

  // ----- The executed order

  /** The timelines have executed `path`, an orderly path from `g` below the horizon. */
  ghost predicate Executed(c: Context, s: System, g: Config, path: seq<nat>)
  {
    Orderly(c.m, g, path, s.horizon) && ValidPath(c.m, g, path) && Run(c.m, g, path) == Abs(s)
  }

  lemma WorkExecutes(c: Context, s: System, i: nat, e: Event, s': System, g: Config, path: seq<nat>)
    requires ValidContext(c) && Inv(c, s) && Work(c, s, i, e, s') && TieFree(c, s, i, e) && Executed(c, s, g, path)
    ensures Executed(c, s', g, path + [i])
  {
    WorkIsStep(c, s, i, e, s');
    TakenIsMin(c, s, i, e);
    TieFreeSendsLater(c, s, i, e);
    OrderlyAppend(c.m, g, path, i, s.horizon);
  }

  /** Between windows, nothing below the horizon is left, on any list or in any box. */
  lemma WindowExhausts(mins: seq<int>, s: System)
    requires Sound(mins, s) && forall k :: 0 <= k < |s.lines| ==> s.lines[k].mode == AtBarrier
    ensures Exhausted(Abs(s), s.horizon)
  {
    forall k | 0 <= k < |s.lines| ensures !Enabled(Abs(s), k, s.horizon) {
      assert LineOk(mins, s, k);
      forall f <- Waiting(s, k) ensures f.time >= s.horizon {
        if f !in s.lines[k].pend && f !in s.lines[k].windowList {
          var j := BoxMember(s.links, k, |s.lines|, f);
          assert LinkOk(s, Pair(j, k));
        }
      }
    }
  }

  /** What one step does to the sequentially reached configuration and the executed order. */
  lemma StepReaches(c: Context, g0: Config, s: System, s': System, k: nat, g: Config, path: seq<nat>)
    returns (k': nat, g': Config, path': seq<nat>)
    requires ValidContext(c) && Inv(c, s) && Executed(c, s, g, path) && SequentiallyReached(c.m, g0, k, g)
    requires Next(c, s, s') && StepTieFree(c, s, s')
    ensures SequentiallyReached(c.m, g0, k', g') && Executed(c, s', g', path')
  {
    k', g', path' := k, g, path;
    if i: nat :| LineStep(c, s, i, s') {
      if Finish(s, i, s') {
        FinishIsSilent(s, i, s');
      } else {
        var e :| Work(c, s, i, e, s');
        assert TieFree(c, s, i, e);
        WorkExecutes(c, s, i, e, s', g, path);
        path' := path + [i];
      }
    } else if p :| LinkStep(s, p, s') {
      LinkStepIsSilent(s, p, s');
    } else {
      k' := WindowReaches(c, g0, s, s', k, g, path);
      g', path' := Abs(s), [];
    }
  }

  lemma WindowReaches(c: Context, g0: Config, s: System, s': System, k: nat, g: Config, path: seq<nat>) returns (k': nat)
    requires Sound(c.mins, s) && Executed(c, s, g, path) && SequentiallyReached(c.m, g0, k, g) && WindowStep(c, s, s')
    ensures SequentiallyReached(c.m, g0, k', Abs(s)) && Executed(c, s', Abs(s), [])
  {
    WindowIsSilent(c, s, s');
    WindowExhausts(c.mins, s);
    OrderlyIsSequential(c.m, g0, k, g, path, s.horizon);
    k' := k + |path|;
  }

  lemma {:induction false} RunReaches(c: Context, run: seq<System>) returns (k: nat, g: Config, path: seq<nat>)
    requires ValidContext(c) && IsRun(c, run) && TieFreeRun(c, run)
    ensures SequentiallyReached(c.m, Abs(run[0]), k, g) && Executed(c, Last(run), g, path)
    decreases |run|
  {
    var n := |run| - 1;
    if n == 0 {
      k, g, path := 0, Abs(run[0]), [];
      assert Sequential(c.m, g, []);
    } else {
      RunPrefix(c, run, n);
      TieFreePrefix(c, run, n);
      k, g, path := RunReaches(c, run[..n]);
      Reachable(c, run[..n]);
      k, g, path := StepReaches(c, Abs(run[0]), run[n - 1], Last(run), k, g, path);
    }
  }

  /**
   At every state of every tie-free run where all timelines are between windows, there is a number of steps after
   which every run of the sequential simulator is in exactly this configuration: the same application states, the
   same executed events in the same order on every timeline, and the same pending events.
   */
  lemma CompositeEqualsSequential(c: Context, run: seq<System>)
    requires ValidContext(c) && IsRun(c, run) && TieFreeRun(c, run)
    requires forall k :: 0 <= k < |Last(run).lines| ==> Last(run).lines[k].mode == AtBarrier
    ensures exists k: nat :: SequentiallyReached(c.m, Abs(run[0]), k, Abs(Last(run)))
    ensures Exhausted(Abs(Last(run)), Last(run).horizon)
  {
    Reachable(c, run);
    var k, g, path := RunReaches(c, run);
    WindowExhausts(c.mins, Last(run));
    OrderlyIsSequential(c.m, Abs(run[0]), k, g, path, Last(run).horizon);
  }
}
