/**
 Composite synchronisation: channels with at least the threshold delay are synchronous and only cross the edge
 of the global window; the others are asynchronous, and an event sent through one may land inside the window. For
 every pair of timelines with an asynchronous channel, the source's MAKE_APPT events publish a time before which it
 will send nothing more, and the destination's WAIT_APPT events do not pass that time before it is published. A
 transition is one event or one lock-protected action of one timeline; among pending events that tie, any one may
 be executed next. The edge of a window is the reduced minimum of what the timelines offer.
 */
module Appointments {
  import opened Topology
  import opened Simulator
  import Windows
  import MutexBarrier

  /** The model, the threshold, and the least synchronous crossing delay of every timeline, as InitModel computes them. */
  datatype Context = Context(m: Model, thrs: int, mins: seq<int>)

  ghost predicate ValidContext(c: Context)
  {
    && |c.mins| == |c.m.topology| > 0
    && forall i :: 0 <= i < |c.mins| ==> LeastFrom(CrossDelays(i, c.m.topology[i]), c.thrs, c.mins[i])
  }

  /** `Passing` has seen that an appointment is later than the clock, and has yet to schedule its next wait. */
  datatype Mode = Free | Blocked(on: nat, signalled: bool) | Passing(src: nat) | Draining(src: nat) | AtBarrier

  /** `base` is history: the time of the next event when the window began. */
  datatype Timeline = Timeline(
    state: Data,
    clock: int,
    pend: multiset<Event>,
    windowList: multiset<Event>,
    mode: Mode,
    trace: seq<Event>,
    base: int)

  /** An ordered pair of timelines with an asynchronous channel from `src` to `dst`. */
  datatype Pair = Pair(src: nat, dst: nat)

  /** The appointment of a pair: the lookahead, the times of the
      pending MAKE_APPT and WAIT_APPT events, the published appointment, and the events left for pick-up. */
  datatype Link = Link(look: int, makeAt: int, waitAt: int, appt: int, box: multiset<Event>)

  datatype System = System(lines: seq<Timeline>, links: map<Pair, Link>, horizon: int)

  /** Some channel of `src` to `dst` is faster than the threshold. */
  ghost predicate Linked(c: Context, p: Pair)
  {
    && p.src < |c.m.topology| && p.dst < |c.m.topology| && p.src != p.dst
    && exists d <- DelaysTo(c.m.topology[p.src], p.dst) :: d < c.thrs
  }

  /** `look` is the least delay of all channels of the pair. */
  ghost predicate IsLook(c: Context, p: Pair, look: int)
    requires p.src < |c.m.topology|
  {
    look in DelaysTo(c.m.topology[p.src], p.dst) && forall d <- DelaysTo(c.m.topology[p.src], p.dst) :: look <= d
  }

  ghost predicate Init(c: Context, s: System)
  {
    && s.horizon == 0 && |s.lines| == |c.m.topology|
    && (forall i :: 0 <= i < |s.lines| ==> var l := s.lines[i];
         && l == Timeline(l.state, 0, l.pend, multiset{}, AtBarrier, [], 0)
         && forall e <- l.pend :: e.time >= 0)
    && (forall p :: p in s.links <==> Linked(c, p))
    && (forall p <- s.links :: var k := s.links[p]; IsLook(c, p, k.look) && k == Link(k.look, k.look, k.look, -1, multiset{}))
  }

  // ----- Which event is next on a timeline: work before MAKE_APPT before WAIT_APPT at equal times

  ghost predicate NoWorkBefore(s: System, i: nat, t: int, strict: bool)
    requires i < |s.lines|
  {
    forall e <- s.lines[i].pend :: if strict then e.time > t else e.time >= t
  }

  ghost predicate NoMakeBefore(s: System, i: nat, t: int, strict: bool)
  {
    forall p <- s.links :: p.src == i ==> if strict then s.links[p].makeAt > t else s.links[p].makeAt >= t
  }

  ghost predicate NoWaitBefore(s: System, i: nat, t: int)
  {
    forall p <- s.links :: p.dst == i ==> s.links[p].waitAt >= t
  }

  ghost predicate Ready(s: System, i: nat, t: int)
  {
    i < |s.lines| && s.lines[i].mode == Free && t < s.horizon
  }

  // ----- Sending

  /** What goes to the window list of timeline `k`: events at or above the horizon. */
  function Late(posts: seq<Post>, k: nat, horizon: int): multiset<Event>
  {
    if posts == [] then multiset{}
    else
      var p := posts[0];
      (if p.target == k && horizon <= p.event.time then multiset{p.event} else multiset{}) + Late(posts[1..], k, horizon)
  }

  /** What goes to the appointment box for timeline `k`: events below the horizon on asynchronous channels. */
  function Soon(posts: seq<Post>, k: nat, horizon: int, thrs: int): multiset<Event>
  {
    if posts == [] then multiset{}
    else
      var p := posts[0];
      (if p.target == k && p.event.time < horizon && p.delay < thrs then multiset{p.event} else multiset{})
      + Soon(posts[1..], k, horizon, thrs)
  }

  /** A write on a synchronous channel to another timeline that would land inside the window. */
  predicate Refused(p: Post, self: nat, horizon: int, thrs: int)
  {
    p.target != self && p.event.time < horizon && p.delay >= thrs
  }

  lemma {:induction false} LateMember(posts: seq<Post>, k: nat, horizon: int, f: Event) returns (p: Post)
    requires f in Late(posts, k, horizon)
    ensures p in posts && p.target == k && p.event == f && horizon <= f.time
  {
    p := posts[0];
    if !(p.target == k && horizon <= p.event.time && p.event == f) {
      p := LateMember(posts[1..], k, horizon, f);
    }
  }

  lemma {:induction false} SoonMember(posts: seq<Post>, k: nat, horizon: int, thrs: int, f: Event) returns (p: Post)
    requires f in Soon(posts, k, horizon, thrs)
    ensures p in posts && p.target == k && p.event == f && f.time < horizon && p.delay < thrs
  {
    p := posts[0];
    if !(p.target == k && p.event.time < horizon && p.delay < thrs && p.event == f) {
      p := SoonMember(posts[1..], k, horizon, thrs, f);
    }
  }

  // ----- Transitions

  /** What timeline `i` posts when it executes `e`. */
  ghost function Sent(c: Context, s: System, i: nat, e: Event): seq<Post>
    requires |s.lines| == |c.m.topology| && i < |s.lines|
  {
    Posts(c.m.topology[i], i, e.time, c.m.handler(i, s.lines[i].state, e).actions)
  }

  ghost function WorkLine(c: Context, s: System, i: nat, e: Event, k: nat): Timeline
    requires |s.lines| == |c.m.topology| && i < |s.lines| && k < |s.lines|
  {
    var l := s.lines[k];
    if k == i then
      l.(state := c.m.handler(i, l.state, e).state, clock := e.time, pend := l.pend - multiset{e} + To(Sent(c, s, i, e), i),
         trace := l.trace + [e])
    else
      l.(windowList := l.windowList + Late(Sent(c, s, i, e), k, s.horizon))
  }

  ghost function WorkLink(c: Context, s: System, i: nat, e: Event, p: Pair): Link
    requires |s.lines| == |c.m.topology| && i < |s.lines| && p in s.links
  {
    var k := s.links[p];
    if p.src == i then k.(box := k.box + Soon(Sent(c, s, i, e), p.dst, s.horizon, c.thrs)) else k
  }

  ghost predicate CanWork(c: Context, s: System, i: nat, e: Event)
  {
    && |s.lines| == |c.m.topology| && Ready(s, i, e.time) && IsLeast(s.lines[i].pend, e)
    && NoMakeBefore(s, i, e.time, false) && NoWaitBefore(s, i, e.time)
  }

  /** One iteration of the event loop of sync_window that executes an event of the model. */
  ghost predicate Work(c: Context, s: System, i: nat, e: Event, s': System)
  {
    && CanWork(c, s, i, e)
    && s'.horizon == s.horizon && |s'.lines| == |s.lines| && s'.links.Keys == s.links.Keys
    && (forall k :: 0 <= k < |s.lines| ==> s'.lines[k] == WorkLine(c, s, i, e, k))
    && (forall p <- s.links :: s'.links[p] == WorkLink(c, s, i, e, p))
  }

  /** MAKE_APPT: publish the next appointment, and signal the destination if it waits. */
  ghost predicate Make(s: System, p: Pair, s': System)
  {
    && p in s.links && p.dst < |s.lines|
    && var i, j, k := p.src, p.dst, s.links[p];
    && Ready(s, i, k.makeAt)
    && NoWorkBefore(s, i, k.makeAt, true) && NoMakeBefore(s, i, k.makeAt, false) && NoWaitBefore(s, i, k.makeAt)
    && var appt := k.makeAt + k.look;
    && var moved := s.lines[i := s.lines[i].(clock := k.makeAt)];
    && s' == s.(links := s.links[p := k.(appt := appt, makeAt := appt)],
                lines := if moved[j].mode.Blocked? && moved[j].mode.on == i
                         then moved[j := moved[j].(mode := Blocked(i, true))] else moved)
  }

  /** WAIT_APPT: go on if the appointment is later than the clock, and block otherwise. */
  ghost predicate Wait(s: System, p: Pair, s': System)
  {
    && p in s.links
    && var i, j, k := p.src, p.dst, s.links[p];
    && Ready(s, j, k.waitAt)
    && NoWorkBefore(s, j, k.waitAt, true) && NoMakeBefore(s, j, k.waitAt, true) && NoWaitBefore(s, j, k.waitAt)
    && s' == s.(lines := s.lines[j := s.lines[j].(clock := k.waitAt, mode := if k.waitAt < k.appt then Passing(i) else Blocked(i, false))])
  }

  /** A signalled timeline wakes up. */
  ghost predicate Wake(s: System, p: Pair, s': System)
  {
    && p in s.links && p.dst < |s.lines| && s.lines[p.dst].mode == Blocked(p.src, true)
    && s' == s.(lines := s.lines[p.dst := s.lines[p.dst].(mode := Passing(p.src))])
  }

  /** A timeline that need not wait schedules its next wait at the appointment, which it reads without the lock:
      the source may have published a later one in the meantime. */
  ghost predicate Schedule(s: System, p: Pair, s': System)
  {
    && p in s.links && p.dst < |s.lines| && s.lines[p.dst].mode == Passing(p.src)
    && s' == s.(lines := s.lines[p.dst := s.lines[p.dst].(mode := Draining(p.src))],
                links := s.links[p := s.links[p].(waitAt := s.links[p].appt)])
  }

  /** The destination moves the events its source left in the box into its own event list. */
  ghost predicate Drain(s: System, p: Pair, s': System)
  {
    && p in s.links && p.dst < |s.lines| && s.lines[p.dst].mode == Draining(p.src)
    && s' == s.(lines := s.lines[p.dst := s.lines[p.dst].(pend := s.lines[p.dst].pend + s.links[p].box, mode := Free)],
                links := s.links[p := s.links[p].(box := multiset{})])
  }

  /** Nothing is left below the horizon. */
  ghost predicate Finish(s: System, i: nat, s': System)
  {
    && i < |s.lines| && s.lines[i].mode == Free
    && NoWorkBefore(s, i, s.horizon, false) && NoMakeBefore(s, i, s.horizon, false) && NoWaitBefore(s, i, s.horizon)
    && s' == s.(lines := s.lines[i := s.lines[i].(clock := s.horizon - 1, mode := AtBarrier)])
  }

  // ----- The edge of the next window

  /** The times of everything on the event list of timeline `i`, once it has drained its window list. */
  ghost function Times(s: System, i: nat): set<int>
    requires i < |s.lines|
  {
    (set e | e in s.lines[i].pend + s.lines[i].windowList :: e.time)
    + (set p | p in s.links && p.src == i :: s.links[p].makeAt)
    + (set p | p in s.links && p.dst == i :: s.links[p].waitAt)
  }

  ghost predicate IsNextTime(s: System, i: nat, t: int)
    requires i < |s.lines|
  {
    if t == -1 then Times(s, i) == {} else t in Times(s, i) && forall x <- Times(s, i) :: t <= x
  }

  ghost function OfferOf(c: Context, s: System, i: nat, next: int): int
    requires i < |s.lines| == |c.mins|
  {
    Windows.OfferAt(s.lines[i].clock, next, c.mins[i], c.thrs)
  }

  ghost function Offers(c: Context, s: System, next: seq<int>): map<nat, int>
    requires |s.lines| == |c.mins| == |next|
  {
    map i: nat | 0 <= i < |s.lines| :: OfferOf(c, s, i, next[i])
  }

  /** All timelines are at the barrier: they drain their window lists, offer, and enter the next window. */
  ghost predicate Window(c: Context, s: System, next: seq<int>, reduction: int, epochEnd: int, s': System)
  {
    && |s.lines| == |c.mins| == |next| && epochEnd > s.horizon
    && (forall i :: 0 <= i < |s.lines| ==> s.lines[i].mode == AtBarrier && IsNextTime(s, i, next[i]))
    && MutexBarrier.IsRoundMin(Offers(c, s, next), reduction)
    && var edge := Windows.Edge(|s.lines|, reduction, epochEnd);
    && s'.horizon == edge && s'.links == s.links && |s'.lines| == |s.lines|
    && forall i :: 0 <= i < |s.lines| ==> s'.lines[i] == Entered(s.lines[i], next[i], edge)
  }

  function Entered(l: Timeline, next: int, edge: int): Timeline
  {
    l.(pend := l.pend + l.windowList, windowList := multiset{}, mode := Free, base := if next == -1 then edge else next)
  }

  ghost predicate Works(c: Context, s: System, i: nat, s': System)
  {
    exists e :: Work(c, s, i, e, s')
  }

  ghost predicate LinkStep(s: System, p: Pair, s': System)
  {
    p in s.links && (Make(s, p, s') || Wait(s, p, s') || Wake(s, p, s') || Schedule(s, p, s') || Drain(s, p, s'))
  }

  ghost predicate LineStep(c: Context, s: System, i: nat, s': System)
  {
    Works(c, s, i, s') || Finish(s, i, s')
  }

  ghost predicate WindowStep(c: Context, s: System, s': System)
  {
    exists next, reduction, epochEnd :: Window(c, s, next, reduction, epochEnd, s')
  }

  ghost predicate Next(c: Context, s: System, s': System)
  {
    (exists i: nat :: LineStep(c, s, i, s')) || (exists p :: LinkStep(s, p, s')) || WindowStep(c, s, s')
  }

  ghost function Last(run: seq<System>): System
    requires |run| > 0
  {
    run[|run| - 1]
  }

  ghost predicate IsRun(c: Context, run: seq<System>)
  {
    |run| > 0 && Init(c, run[0]) && forall k :: 0 <= k < |run| - 1 ==> Next(c, run[k], run[k + 1])
  }

  lemma RunPrefix(c: Context, run: seq<System>, n: nat)
    requires IsRun(c, run) && n == |run| - 1 > 0
    ensures IsRun(c, run[..n]) && Last(run[..n]) == run[n - 1] && Next(c, run[n - 1], Last(run))
  {
    assert run[n - 1 + 1] == Last(run);
  }

  lemma RunPush(c: Context, run: seq<System>, s: System)
    requires IsRun(c, run) && Next(c, Last(run), s)
    ensures IsRun(c, run + [s]) && Last(run + [s]) == s
  {
    var longer := run + [s];
    forall k | 0 <= k < |longer| - 1 ensures Next(c, longer[k], longer[k + 1]) {
      if k < |run| - 1 {
        assert Next(c, run[k], run[k + 1]);
      }
    }
  }

  // ----- The invariant

  /** Where the clock is, and what is pending. */
  ghost predicate ClockOk(l: Timeline, horizon: int)
  {
    && l.clock >= 0
    && (if l.mode == AtBarrier then l.clock == (if horizon == 0 then 0 else horizon - 1) && forall e <- l.pend :: e.time >= horizon
        else l.clock < horizon)
    && (forall e <- l.pend :: e.time >= l.clock)
    && (forall e <- l.windowList :: e.time >= horizon)
    && Windows.Ordered(l.trace, l.clock)
  }

  /** Nothing on the list is before the time the timeline had in mind when it offered, and the offer bounds the horizon. */
  ghost predicate BaseOk(min: int, l: Timeline, horizon: int)
  {
    (forall e <- l.pend :: e.time >= l.base) && (min >= 0 ==> horizon <= l.base + min)
  }

  ghost predicate ModeOk(s: System, i: nat)
    requires i < |s.lines|
  {
    var l := s.lines[i];
    && (l.mode.Blocked? || l.mode.Passing? || l.mode.Draining? ==> NoMakeBefore(s, i, l.clock, true))
    && (l.mode.Blocked? ==> Pair(l.mode.on, i) in s.links && s.links[Pair(l.mode.on, i)].waitAt == l.clock)
    && (l.mode.Passing? ==> Pair(l.mode.src, i) in s.links && s.links[Pair(l.mode.src, i)].waitAt == l.clock)
    && (l.mode.Draining? ==> Pair(l.mode.src, i) in s.links)
  }

  ghost predicate LineOk(mins: seq<int>, s: System, i: nat)
    requires i < |s.lines| == |mins|
  {
    ClockOk(s.lines[i], s.horizon) && BaseOk(mins[i], s.lines[i], s.horizon) && ModeOk(s, i)
  }

  /** What the two ends of a link know of each other. */
  ghost predicate EndsOk(i: Timeline, j: Timeline, src: nat, k: Link, horizon: int)
  {
    && k.look > 0
    && i.clock <= k.makeAt && j.clock <= k.waitAt <= k.makeAt <= i.clock + k.look
    && (if k.appt == -1 then k.waitAt == k.makeAt else k.appt == k.makeAt)
    && (i.mode == AtBarrier ==> k.makeAt >= horizon)
    && (j.mode == AtBarrier ==> k.waitAt >= horizon)
    && (j.mode == Passing(src) ==> k.appt > j.clock)
    && (j.mode.Blocked? && j.mode.on == src ==> if j.mode.signalled then k.appt > j.clock else k.makeAt == j.clock)
    && k.waitAt >= j.base
  }

  /** What is in the box of a link. */
  ghost predicate BoxOk(j: Timeline, src: nat, k: Link)
  {
    forall f <- k.box :: f.time >= j.base && f.time >= if j.mode == Draining(src) then j.clock else k.waitAt
  }

  ghost predicate LinkOk(s: System, p: Pair)
    requires p in s.links
  {
    && p.src < |s.lines| && p.dst < |s.lines| && p.src != p.dst
    && EndsOk(s.lines[p.src], s.lines[p.dst], p.src, s.links[p], s.horizon)
    && BoxOk(s.lines[p.dst], p.src, s.links[p])
  }

  ghost predicate Sound(mins: seq<int>, s: System)
  {
    && |s.lines| == |mins| && s.horizon >= 0
    && (forall i :: 0 <= i < |s.lines| ==> LineOk(mins, s, i))
    && (forall p <- s.links :: LinkOk(s, p))
  }

  /** The links are those of the model, with their lookaheads. */
  ghost predicate Wired(c: Context, links: map<Pair, Link>)
  {
    (forall p :: p in links <==> Linked(c, p)) && forall p <- links :: IsLook(c, p, links[p].look)
  }

  ghost predicate Inv(c: Context, s: System)
  {
    Wired(c, s.links) && Sound(c.mins, s)
  }

  lemma StaysWired(c: Context, links: map<Pair, Link>, links': map<Pair, Link>)
    requires Wired(c, links) && links'.Keys == links.Keys && forall p <- links :: links'[p].look == links[p].look
    ensures Wired(c, links')
  {
    forall p ensures p in links' <==> Linked(c, p) {
      assert p in links' <==> p in links'.Keys;
    }
  }

  // ----- What one event may send

  /** Whatever is sent to another timeline takes at least the lookahead of the pair, if the pair has a link. */
  lemma SentBound(c: Context, s: System, i: nat, e: Event, p: Post)
    requires ValidContext(c) && |s.lines| == |c.m.topology| && i < |s.lines| && p in Sent(c, s, i, e)
    ensures p.target == i ==> p.event.time >= e.time
    ensures p.target != i ==> p.delay in DelaysTo(c.m.topology[i], p.target) && p.event.time >= e.time + p.delay > e.time
    ensures p.target != i ==> p.delay in CrossDelays(i, c.m.topology[i])
  {
    PostBound(c.m.topology[i], i, e.time, c.m.handler(i, s.lines[i].state, e).actions, p);
  }

  /** No synchronous write is refused: the horizon is at most what the timeline offered, and nothing it has
      got since then is earlier than the event it had in mind. */
  lemma NoneRefused(c: Context, s: System, i: nat, e: Event, p: Post)
    requires ValidContext(c) && Inv(c, s) && CanWork(c, s, i, e) && p in Sent(c, s, i, e)
    ensures !Refused(p, i, s.horizon, c.thrs)
  {
    SentBound(c, s, i, e, p);
    assert LineOk(c.mins, s, i);
    assert LeastFrom(CrossDelays(i, c.m.topology[i]), c.thrs, c.mins[i]);
  }

  /** What takes at least the lookahead arrives at or after the next MAKE_APPT, and so after the appointment. */
  lemma LookKeeps(s: System, i: nat, e: Event, p: Post)
    requires i < |s.lines| && 0 <= s.lines[i].clock <= e.time && Pair(i, p.target) in s.links && LinkOk(s, Pair(i, p.target))
    requires p.event.time >= e.time + p.delay && p.delay >= s.links[Pair(i, p.target)].look
    ensures var k := s.links[Pair(i, p.target)]; p.event.time >= k.makeAt >= k.waitAt && p.event.time >= k.appt
  {
  }

  /** What goes into a box is at or after the time of the next MAKE_APPT. */
  lemma SoonBound(c: Context, s: System, i: nat, e: Event, p: Pair, f: Event)
    requires ValidContext(c) && Inv(c, s) && CanWork(c, s, i, e) && p in s.links && p.src == i
    requires f in Soon(Sent(c, s, i, e), p.dst, s.horizon, c.thrs)
    ensures f.time >= s.links[p].makeAt
  {
    var q := SoonMember(Sent(c, s, i, e), p.dst, s.horizon, c.thrs, f);
    SentBound(c, s, i, e, q);
    assert LinkOk(s, p) && LineOk(c.mins, s, i) && p == Pair(i, q.target);
    assert IsLook(c, p, s.links[p].look);
    LookKeeps(s, i, e, q);
  }

  lemma LateBound(c: Context, s: System, i: nat, e: Event, k: nat)
    requires |s.lines| == |c.m.topology| && i < |s.lines|
    ensures forall f <- Late(Sent(c, s, i, e), k, s.horizon) :: f.time >= s.horizon
  {
    forall f <- Late(Sent(c, s, i, e), k, s.horizon) ensures f.time >= s.horizon {
      var p := LateMember(Sent(c, s, i, e), k, s.horizon, f);
    }
  }

  lemma LocalBound(c: Context, s: System, i: nat, e: Event)
    requires ValidContext(c) && |s.lines| == |c.m.topology| && i < |s.lines|
    ensures forall f <- To(Sent(c, s, i, e), i) :: f.time >= e.time
  {
    forall f <- To(Sent(c, s, i, e), i) ensures f.time >= e.time {
      var p := ToMember(Sent(c, s, i, e), i, f);
      SentBound(c, s, i, e, p);
    }
  }

  // ----- Every transition keeps the invariant

  lemma WorkKeepsOwn(c: Context, s: System, i: nat, e: Event, s': System)
    requires ValidContext(c) && Inv(c, s) && Work(c, s, i, e, s')
    ensures LineOk(c.mins, s', i)
  {
    assert LineOk(c.mins, s, i) && s'.lines[i] == WorkLine(c, s, i, e, i);
    LocalBound(c, s, i, e);
    Windows.OrderedPush(s.lines[i].trace, s.lines[i].clock, e);
  }

  /** A timeline that only gets entries of its window list. */
  lemma LineFrame(mins: seq<int>, s: System, s': System, k: nat, late: multiset<Event>)
    requires k < |s.lines| == |s'.lines| == |mins| && LineOk(mins, s, k) && s'.horizon == s.horizon && s'.links.Keys == s.links.Keys
    requires forall p <- s.links :: s'.links[p].makeAt == s.links[p].makeAt && s'.links[p].waitAt == s.links[p].waitAt
    requires s'.lines[k] == s.lines[k].(windowList := s.lines[k].windowList + late) && forall f <- late :: f.time >= s.horizon
    ensures LineOk(mins, s', k)
  {
  }

  /** Executing an event moves no appointment. */
  lemma WorkFrame(c: Context, s: System, i: nat, e: Event, s': System)
    requires Work(c, s, i, e, s')
    ensures forall p <- s.links :: s'.links[p] == s.links[p].(box := s'.links[p].box)
  {
    forall p <- s.links ensures s'.links[p] == s.links[p].(box := s'.links[p].box) {
      assert s'.links[p] == WorkLink(c, s, i, e, p);
    }
  }

  lemma WorkKeepsOther(c: Context, s: System, i: nat, e: Event, s': System, k: nat)
    requires Work(c, s, i, e, s') && k < |s.lines| == |c.mins| && k != i && LineOk(c.mins, s, k)
    ensures LineOk(c.mins, s', k)
  {
    assert s'.lines[k] == WorkLine(c, s, i, e, k);
    LateBound(c, s, i, e, k);
    WorkFrame(c, s, i, e, s');
    LineFrame(c.mins, s, s', k, Late(Sent(c, s, i, e), k, s.horizon));
  }

  /** The source or the destination of a link has executed an event. */
  lemma EndsKept(i: Timeline, i': Timeline, j: Timeline, j': Timeline, src: nat, k: Link, k': Link, horizon: int)
    requires EndsOk(i, j, src, k, horizon) && k' == k.(box := k'.box)
    requires i.clock <= i'.clock <= k.makeAt && i'.mode == i.mode
    requires j'.clock <= k.waitAt && j'.mode == j.mode && j'.base == j.base && (j'.clock == j.clock || j.mode == Free)
    ensures EndsOk(i', j', src, k', horizon)
  {
  }

  lemma WorkKeepsBox(c: Context, s: System, i: nat, e: Event, s': System, p: Pair)
    requires ValidContext(c) && Inv(c, s) && Work(c, s, i, e, s') && p in s.links
    ensures LinkOk(s, p) && forall f <- s'.links[p].box :: f in s.links[p].box || f.time >= s.links[p].makeAt
  {
    assert LinkOk(s, p);
    assert s'.links[p] == WorkLink(c, s, i, e, p);
    if p.src == i {
      forall f <- Soon(Sent(c, s, i, e), p.dst, s.horizon, c.thrs) ensures f.time >= s.links[p].makeAt {
        SoonBound(c, s, i, e, p, f);
      }
    }
  }

  lemma WorkKeepsLink(c: Context, s: System, i: nat, e: Event, s': System, p: Pair)
    requires Work(c, s, i, e, s') && p in s.links && LinkOk(s, p) && i < |s.lines| == |c.mins| && LineOk(c.mins, s, i)
    requires s'.links[p] == s.links[p].(box := s'.links[p].box)
    requires forall f <- s'.links[p].box :: f in s.links[p].box || f.time >= s.links[p].makeAt
    ensures LinkOk(s', p)
  {
    assert s'.lines[p.src] == WorkLine(c, s, i, e, p.src) && s'.lines[p.dst] == WorkLine(c, s, i, e, p.dst);
    assert e in s.lines[i].pend;
    EndsKept(s.lines[p.src], s'.lines[p.src], s.lines[p.dst], s'.lines[p.dst], p.src, s.links[p], s'.links[p], s.horizon);
  }

  lemma WorkKeepsLines(c: Context, s: System, i: nat, e: Event, s': System)
    requires ValidContext(c) && Inv(c, s) && Work(c, s, i, e, s')
    ensures forall k :: 0 <= k < |s.lines| ==> LineOk(c.mins, s', k)
  {
    forall k | 0 <= k < |s.lines| ensures LineOk(c.mins, s', k) {
      if k == i {
        WorkKeepsOwn(c, s, i, e, s');
      } else {
        assert LineOk(c.mins, s, k);
        WorkKeepsOther(c, s, i, e, s', k);
      }
    }
  }

  lemma WorkKeepsLinks(c: Context, s: System, i: nat, e: Event, s': System)
    requires ValidContext(c) && Inv(c, s) && Work(c, s, i, e, s')
    ensures forall p <- s.links :: LinkOk(s', p)
  {
    WorkFrame(c, s, i, e, s');
    forall p <- s.links ensures LinkOk(s', p) {
      WorkKeepsBox(c, s, i, e, s', p);
      assert LineOk(c.mins, s, i);
      WorkKeepsLink(c, s, i, e, s', p);
    }
  }

  lemma WorkKeeps(c: Context, s: System, i: nat, e: Event, s': System)
    requires ValidContext(c) && Inv(c, s) && Work(c, s, i, e, s')
    ensures Inv(c, s')
  {
    WorkKeepsLines(c, s, i, e, s');
    WorkKeepsLinks(c, s, i, e, s');
    WorkFrame(c, s, i, e, s');
    StaysWired(c, s.links, s'.links);
  }

  lemma MakeKeepsMode(s: System, p: Pair, s': System, k: nat)
    requires Make(s, p, s') && k < |s.lines| && LinkOk(s, p) && ModeOk(s, k)
    ensures ModeOk(s', k)
  {
  }

  lemma MakeKeepsLine(mins: seq<int>, s: System, p: Pair, s': System, k: nat)
    requires Make(s, p, s') && k < |s.lines| == |mins| && LinkOk(s, p) && LineOk(mins, s, k) && LineOk(mins, s, p.src)
    ensures LineOk(mins, s', k)
  {
    MakeKeepsMode(s, p, s', k);
  }

  lemma MakeKeepsOwnLink(mins: seq<int>, s: System, p: Pair, s': System)
    requires |s.lines| == |mins| && Make(s, p, s') && LinkOk(s, p) && LineOk(mins, s, p.src) && LineOk(mins, s, p.dst)
    ensures LinkOk(s', p)
  {
  }

  lemma MakeKeepsOtherLink(mins: seq<int>, s: System, p: Pair, s': System, q: Pair)
    requires |s.lines| == |mins| && Make(s, p, s') && q in s.links && q != p && LinkOk(s, p) && LinkOk(s, q)
    requires LineOk(mins, s, p.src) && LineOk(mins, s, q.src) && LineOk(mins, s, q.dst)
    ensures LinkOk(s', q)
  {
  }

  lemma MakeKeeps(mins: seq<int>, s: System, p: Pair, s': System)
    requires Sound(mins, s) && Make(s, p, s')
    ensures Sound(mins, s')
  {
    forall k | 0 <= k < |s.lines| ensures LineOk(mins, s', k) {
      assert LinkOk(s, p);
      MakeKeepsLine(mins, s, p, s', k);
    }
    forall q <- s'.links ensures LinkOk(s', q) {
      assert LinkOk(s, p) && LinkOk(s, q);
      if q == p {
        MakeKeepsOwnLink(mins, s, p, s');
      } else {
        MakeKeepsOtherLink(mins, s, p, s', q);
      }
    }
  }

  lemma WaitKeepsLine(mins: seq<int>, s: System, p: Pair, s': System, k: nat)
    requires Wait(s, p, s') && k < |s.lines| == |mins| && LinkOk(s, p) && LineOk(mins, s, k) && LineOk(mins, s, p.dst)
    ensures LineOk(mins, s', k)
  {
  }

  lemma WaitKeepsLink(mins: seq<int>, s: System, p: Pair, s': System, q: Pair)
    requires |s.lines| == |mins| && Wait(s, p, s') && q in s.links && LinkOk(s, p) && LinkOk(s, q)
    requires LineOk(mins, s, p.dst) && LineOk(mins, s, q.src) && LineOk(mins, s, q.dst)
    ensures LinkOk(s', q)
  {
  }

  lemma WaitKeeps(mins: seq<int>, s: System, p: Pair, s': System)
    requires Sound(mins, s) && Wait(s, p, s')
    ensures Sound(mins, s')
  {
    forall k | 0 <= k < |s.lines| ensures LineOk(mins, s', k) {
      assert LinkOk(s, p);
      WaitKeepsLine(mins, s, p, s', k);
    }
    forall q <- s'.links ensures LinkOk(s', q) {
      assert LinkOk(s, p) && LinkOk(s, q);
      WaitKeepsLink(mins, s, p, s', q);
    }
  }

  lemma WakeKeepsLine(mins: seq<int>, s: System, p: Pair, s': System, k: nat)
    requires Wake(s, p, s') && k < |s.lines| == |mins| && LinkOk(s, p) && LineOk(mins, s, k) && LineOk(mins, s, p.dst)
    ensures LineOk(mins, s', k)
  {
  }

  lemma WakeKeepsLink(mins: seq<int>, s: System, p: Pair, s': System, q: Pair)
    requires |s.lines| == |mins| && Wake(s, p, s') && q in s.links && LinkOk(s, p) && LinkOk(s, q)
    requires LineOk(mins, s, p.dst) && LineOk(mins, s, q.src) && LineOk(mins, s, q.dst)
    ensures LinkOk(s', q)
  {
  }

  lemma WakeKeeps(mins: seq<int>, s: System, p: Pair, s': System)
    requires Sound(mins, s) && Wake(s, p, s')
    ensures Sound(mins, s')
  {
    forall k | 0 <= k < |s.lines| ensures LineOk(mins, s', k) {
      assert LinkOk(s, p);
      WakeKeepsLine(mins, s, p, s', k);
    }
    forall q <- s'.links ensures LinkOk(s', q) {
      assert LinkOk(s, p) && LinkOk(s, q);
      WakeKeepsLink(mins, s, p, s', q);
    }
  }

  lemma ScheduleKeepsLine(mins: seq<int>, s: System, p: Pair, s': System, k: nat)
    requires Schedule(s, p, s') && k < |s.lines| == |mins| && LinkOk(s, p) && LineOk(mins, s, k) && LineOk(mins, s, p.dst)
    ensures LineOk(mins, s', k)
  {
  }

  lemma ScheduleKeepsLink(mins: seq<int>, s: System, p: Pair, s': System, q: Pair)
    requires |s.lines| == |mins| && Schedule(s, p, s') && q in s.links && LinkOk(s, p) && LinkOk(s, q)
    requires LineOk(mins, s, p.dst) && LineOk(mins, s, q.src) && LineOk(mins, s, q.dst)
    ensures LinkOk(s', q)
  {
  }

  lemma ScheduleKeeps(mins: seq<int>, s: System, p: Pair, s': System)
    requires Sound(mins, s) && Schedule(s, p, s')
    ensures Sound(mins, s')
  {
    forall k | 0 <= k < |s.lines| ensures LineOk(mins, s', k) {
      assert LinkOk(s, p);
      ScheduleKeepsLine(mins, s, p, s', k);
    }
    forall q <- s'.links ensures LinkOk(s', q) {
      assert LinkOk(s, p) && LinkOk(s, q);
      ScheduleKeepsLink(mins, s, p, s', q);
    }
  }

  lemma DrainKeepsLine(mins: seq<int>, s: System, p: Pair, s': System, k: nat)
    requires Drain(s, p, s') && k < |s.lines| == |mins| && LinkOk(s, p) && LineOk(mins, s, k) && LineOk(mins, s, p.dst)
    ensures LineOk(mins, s', k)
  {
  }

  lemma DrainKeepsLink(mins: seq<int>, s: System, p: Pair, s': System, q: Pair)
    requires |s.lines| == |mins| && Drain(s, p, s') && q in s.links && LinkOk(s, p) && LinkOk(s, q)
    requires LineOk(mins, s, q.src) && LineOk(mins, s, q.dst)
    ensures LinkOk(s', q)
  {
  }

  lemma DrainKeeps(mins: seq<int>, s: System, p: Pair, s': System)
    requires Sound(mins, s) && Drain(s, p, s')
    ensures Sound(mins, s')
  {
    forall k | 0 <= k < |s.lines| ensures LineOk(mins, s', k) {
      assert LinkOk(s, p);
      DrainKeepsLine(mins, s, p, s', k);
    }
    forall q <- s'.links ensures LinkOk(s', q) {
      assert LinkOk(s, p) && LinkOk(s, q);
      DrainKeepsLink(mins, s, p, s', q);
    }
  }

  lemma FinishKeepsLine(mins: seq<int>, s: System, i: nat, s': System, k: nat)
    requires Finish(s, i, s') && k < |s.lines| == |mins| && LineOk(mins, s, k)
    ensures LineOk(mins, s', k)
  {
  }

  lemma FinishKeepsLink(mins: seq<int>, s: System, i: nat, s': System, q: Pair)
    requires |s.lines| == |mins| && Finish(s, i, s') && q in s.links && LinkOk(s, q) && LineOk(mins, s, q.src) && LineOk(mins, s, q.dst)
    ensures LinkOk(s', q)
  {
  }

  lemma FinishKeeps(mins: seq<int>, s: System, i: nat, s': System)
    requires Sound(mins, s) && Finish(s, i, s')
    ensures Sound(mins, s')
  {
    forall k | 0 <= k < |s.lines| ensures LineOk(mins, s', k) {
      FinishKeepsLine(mins, s, i, s', k);
    }
    forall q <- s'.links ensures LinkOk(s', q) {
      assert LinkOk(s, q);
      FinishKeepsLink(mins, s, i, s', q);
    }
  }

  // ----- The next window

  /** What a timeline at the barrier has in mind is not before the horizon. */
  lemma NextIsAhead(mins: seq<int>, s: System, i: nat, next: int)
    requires Sound(mins, s) && i < |s.lines| && s.lines[i].mode == AtBarrier && IsNextTime(s, i, next)
    ensures next == -1 || next >= s.horizon
  {
    forall t <- Times(s, i) ensures t >= s.horizon {
      TimeIsAhead(mins, s, i, t);
    }
  }

  lemma TimeIsAhead(mins: seq<int>, s: System, i: nat, t: int)
    requires Sound(mins, s) && i < |s.lines| && s.lines[i].mode == AtBarrier && t in Times(s, i)
    ensures t >= s.horizon
  {
    assert LineOk(mins, s, i);
    if e :| e in s.lines[i].pend + s.lines[i].windowList && e.time == t {
      assert e in s.lines[i].pend || e in s.lines[i].windowList;
    } else if p :| p in s.links && p.src == i && s.links[p].makeAt == t {
      assert LinkOk(s, p);
    } else {
      var p :| p in s.links && p.dst == i && s.links[p].waitAt == t;
      assert LinkOk(s, p);
    }
  }

  lemma MinsPositive(c: Context, i: nat)
    requires ValidContext(c) && i < |c.mins|
    ensures c.mins[i] == -1 || (c.mins[i] > 0 && c.mins[i] in CrossDelays(i, c.m.topology[i]))
  {
    assert LeastFrom(CrossDelays(i, c.m.topology[i]), c.thrs, c.mins[i]);
    CrossingsPositive(c.m.topology);
    assert CrossDelays(i, c.m.topology[i]) <= AllDelays(c.m.topology);
  }

  /** Offers are above the clock, and the offer of a timeline with a synchronous crossing is its next time plus
      its least delay. */
  lemma OfferOfBound(c: Context, s: System, i: nat, next: int)
    requires ValidContext(c) && Sound(c.mins, s) && i < |s.lines| && s.lines[i].mode == AtBarrier && IsNextTime(s, i, next)
    ensures OfferOf(c, s, i, next) == -1 || OfferOf(c, s, i, next) >= if s.horizon == 0 then 1 else s.horizon
    ensures next != -1 && c.mins[i] >= 0 ==> OfferOf(c, s, i, next) == next + c.mins[i]
  {
    NextIsAhead(c.mins, s, i, next);
    MinsPositive(c, i);
    assert LineOk(c.mins, s, i);
  }

  /** The edge of the next window is not before the old one, and at most what any timeline offered. */
  lemma EdgeBounds(c: Context, s: System, next: seq<int>, reduction: int, epochEnd: int, s': System, i: nat)
    requires ValidContext(c) && Sound(c.mins, s) && Window(c, s, next, reduction, epochEnd, s') && i < |s.lines|
    ensures s'.horizon > 0 && s'.horizon >= s.horizon
    ensures next[i] != -1 && c.mins[i] >= 0 ==> s'.horizon <= next[i] + c.mins[i]
  {
    var offers := Offers(c, s, next);
    forall k: nat | k < |s.lines| ensures offers[k] == -1 || offers[k] >= if s.horizon == 0 then 1 else s.horizon {
      OfferOfBound(c, s, k, next[k]);
    }
    OfferOfBound(c, s, i, next[i]);
    NextIsAhead(c.mins, s, i, next[i]);
    MinsPositive(c, i);
    assert offers[i] == OfferOf(c, s, i, next[i]);
    if |s.lines| == 1 {
      Windows.SoleTimelineHasNoCrossing(c.m);
    }
  }

  /** The crossing delays of timeline `i` that the windows, and not appointments, have to respect. */
  ghost function SyncDelays(c: Context, i: nat): set<int>
    requires i < |c.m.topology|
  {
    set d | d in CrossDelays(i, c.m.topology[i]) && d >= c.thrs
  }

  /** How far timeline `i` lets the window reach: the earliest time at which one of its synchronous channels can
      deliver; without such a channel or without events, the length of a window past its next event or its clock. */
  ghost predicate Allows(c: Context, s: System, i: nat, t: int)
    requires i < |s.lines| && i < |c.m.topology|
  {
    if Times(s, i) == {} then t == s.lines[i].clock + c.thrs > s.lines[i].clock
    else if SyncDelays(c, i) == {} then t > s.lines[i].clock && IsNextTime(s, i, t - c.thrs)
    else
      && (exists x, d :: x in Times(s, i) && d in SyncDelays(c, i) && t == x + d)
      && (forall x, d :: x in Times(s, i) && d in SyncDelays(c, i) ==> t <= x + d)
  }

  lemma OfferExact(c: Context, s: System, i: nat, next: int)
    requires ValidContext(c) && Sound(c.mins, s) && i < |s.lines| && s.lines[i].mode == AtBarrier && IsNextTime(s, i, next)
    ensures OfferOf(c, s, i, next) != -1 ==> Allows(c, s, i, OfferOf(c, s, i, next))
    ensures forall t :: Allows(c, s, i, t) ==> t == OfferOf(c, s, i, next) >= 0
  {
    NextIsAhead(c.mins, s, i, next);
    MinsPositive(c, i);
    assert LineOk(c.mins, s, i);
    if next == -1 {
    } else if c.mins[i] == -1 {
      assert SyncDelays(c, i) == {};
      forall t | Allows(c, s, i, t) ensures t - c.thrs == next {
      }
    } else {
      assert c.mins[i] in SyncDelays(c, i) && forall d <- SyncDelays(c, i) :: c.mins[i] <= d;
      assert next in Times(s, i);
    }
  }

  /** The edge of the next window is exactly the least of the end of the epoch and of what the timelines allow. */
  lemma EdgeExact(c: Context, s: System, next: seq<int>, reduction: int, epochEnd: int, s': System)
    requires ValidContext(c) && Sound(c.mins, s) && Window(c, s, next, reduction, epochEnd, s') && |s.lines| > 1
    ensures s'.horizon == epochEnd || exists i: nat :: i < |s.lines| && Allows(c, s, i, s'.horizon)
    ensures s'.horizon <= epochEnd && forall i: nat, t :: i < |s.lines| && Allows(c, s, i, t) ==> s'.horizon <= t
  {
    var offers := Offers(c, s, next);
    forall k: nat | k < |s.lines|
      ensures offers[k] == -1 || (offers[k] > 0 && Allows(c, s, k, offers[k]))
      ensures forall t :: Allows(c, s, k, t) ==> t == offers[k] > 0
    {
      OfferOfBound(c, s, k, next[k]);
      OfferExact(c, s, k, next[k]);
    }
    if reduction >= 0 {
      var i: nat :| i in offers && offers[i] == reduction;
      assert Allows(c, s, i, reduction);
    }
    forall i: nat, t | i < |s.lines| && Allows(c, s, i, t) ensures s'.horizon <= t {
      assert t == offers[i] && i in offers;
    }
  }

  lemma WindowKeepsLine(c: Context, s: System, next: seq<int>, reduction: int, epochEnd: int, s': System, k: nat)
    requires ValidContext(c) && Sound(c.mins, s) && Window(c, s, next, reduction, epochEnd, s') && k < |s.lines|
    ensures LineOk(c.mins, s', k)
  {
    assert LineOk(c.mins, s, k) && s'.lines[k] == Entered(s.lines[k], next[k], s'.horizon);
    EdgeBounds(c, s, next, reduction, epochEnd, s', k);
    NextIsAhead(c.mins, s, k, next[k]);
    forall e <- s'.lines[k].pend ensures e.time >= s'.lines[k].base && e.time >= s'.lines[k].clock {
      assert e in s.lines[k].pend || e in s.lines[k].windowList;
      assert e.time in Times(s, k);
    }
  }

  lemma WindowKeepsLink(s: System, s': System, p: Pair, next: seq<int>)
    requires p in s.links && LinkOk(s, p) && |s'.lines| == |s.lines| == |next| && s'.links == s.links
    requires s.lines[p.src].mode == s.lines[p.dst].mode == AtBarrier && s'.horizon >= s.horizon
    requires s'.lines[p.src] == Entered(s.lines[p.src], next[p.src], s'.horizon)
    requires s'.lines[p.dst] == Entered(s.lines[p.dst], next[p.dst], s'.horizon) && next[p.dst] != -1 && next[p.dst] <= s.links[p].waitAt
    ensures LinkOk(s', p)
  {
  }

  lemma WindowKeeps(c: Context, s: System, next: seq<int>, reduction: int, epochEnd: int, s': System)
    requires ValidContext(c) && Sound(c.mins, s) && Window(c, s, next, reduction, epochEnd, s')
    ensures Sound(c.mins, s')
  {
    EdgeBounds(c, s, next, reduction, epochEnd, s', 0);
    forall k | 0 <= k < |s.lines| ensures LineOk(c.mins, s', k) {
      WindowKeepsLine(c, s, next, reduction, epochEnd, s', k);
    }
    forall q <- s'.links ensures LinkOk(s', q) {
      assert LinkOk(s, q) && s.links[q].waitAt in Times(s, q.dst);
      WindowKeepsLink(s, s', q, next);
    }
  }

  // ----- Runs

  lemma InitInv(c: Context, s: System)
    requires ValidContext(c) && Init(c, s)
    ensures Inv(c, s)
  {
    forall i | 0 <= i < |s.lines| ensures LineOk(c.mins, s, i) {
      assert s.lines[i] == Timeline(s.lines[i].state, 0, s.lines[i].pend, multiset{}, AtBarrier, [], 0);
    }
    forall p <- s.links ensures LinkOk(s, p) {
      assert Linked(c, p) && IsLook(c, p, s.links[p].look);
      LookPositive(c, p, s.links[p].look);
    }
  }

  /** initialize_appt schedules appointments for exactly the pairs whose lookahead is below the threshold. */
  lemma LookDecides(c: Context, p: Pair, look: int)
    requires p.src < |c.m.topology| && p.dst < |c.m.topology| && p.src != p.dst
    requires LeastFrom(DelaysTo(c.m.topology[p.src], p.dst), 0, look)
    ensures Linked(c, p) <==> look != -1 && look < c.thrs
    ensures look != -1 ==> IsLook(c, p, look)
  {
    forall d <- DelaysTo(c.m.topology[p.src], p.dst) ensures d > 0 {
      DelayPositive(c.m, p, d);
    }
  }

  lemma LookPositive(c: Context, p: Pair, look: int)
    requires p.src < |c.m.topology| && p.src != p.dst && IsLook(c, p, look)
    ensures look > 0
  {
    DelayPositive(c.m, p, look);
  }

  lemma DelayPositive(model: Model, p: Pair, d: int)
    requires p.src < |model.topology| && p.src != p.dst && d in DelaysTo(model.topology[p.src], p.dst)
    ensures d > 0
  {
    var e :| e in model.topology[p.src] && d in EntityDelaysTo(e, p.dst);
    var oc :| oc in e.channels && d in ChannelDelaysTo(oc, p.dst);
    var m :| m in oc.mappedTo && m.target == p.dst && d == m.transferDelay + oc.minWriteDelay;
    assert ValidTimeline(p.src, model.topology[p.src]);
    assert ValidChannel(p.src, oc);
  }

  lemma NextKeeps(c: Context, s: System, s': System)
    requires ValidContext(c) && Inv(c, s) && Next(c, s, s')
    ensures Inv(c, s')
  {
    if i: nat :| LineStep(c, s, i, s') {
      LineStepKeeps(c, s, i, s');
    } else if p :| LinkStep(s, p, s') {
      LinkStepInv(c, s, p, s');
    } else {
      WindowStepKeeps(c, s, s');
    }
  }

  lemma LineStepKeeps(c: Context, s: System, i: nat, s': System)
    requires ValidContext(c) && Inv(c, s) && LineStep(c, s, i, s')
    ensures Inv(c, s')
  {
    if Finish(s, i, s') {
      FinishKeeps(c.mins, s, i, s');
    } else {
      var e :| Work(c, s, i, e, s');
      WorkKeeps(c, s, i, e, s');
    }
  }

  lemma WindowStepKeeps(c: Context, s: System, s': System)
    requires ValidContext(c) && Inv(c, s) && WindowStep(c, s, s')
    ensures Inv(c, s')
  {
    var next, reduction, epochEnd :| Window(c, s, next, reduction, epochEnd, s');
    WindowKeeps(c, s, next, reduction, epochEnd, s');
  }

  lemma LinkStepInv(c: Context, s: System, p: Pair, s': System)
    requires Inv(c, s) && LinkStep(s, p, s')
    ensures Inv(c, s')
  {
    LinkStepKeeps(c.mins, s, p, s');
    LinkStepLooks(s, p, s');
    StaysWired(c, s.links, s'.links);
  }

  lemma LinkStepLooks(s: System, p: Pair, s': System)
    requires LinkStep(s, p, s')
    ensures s'.links.Keys == s.links.Keys && forall q <- s.links :: s'.links[q].look == s.links[q].look
  {
  }

  lemma LinkStepKeeps(mins: seq<int>, s: System, p: Pair, s': System)
    requires Sound(mins, s) && LinkStep(s, p, s')
    ensures Sound(mins, s')
  {
    if Make(s, p, s') {
      MakeKeeps(mins, s, p, s');
    } else if Wait(s, p, s') {
      WaitKeeps(mins, s, p, s');
    } else if Wake(s, p, s') {
      WakeKeeps(mins, s, p, s');
    } else if Schedule(s, p, s') {
      ScheduleKeeps(mins, s, p, s');
    } else {
      DrainKeeps(mins, s, p, s');
    }
  }

  lemma {:induction false} Reachable(c: Context, run: seq<System>)
    requires ValidContext(c) && IsRun(c, run)
    ensures Inv(c, Last(run))
    decreases |run|
  {
    var n := |run| - 1;
    if n > 0 {
      RunPrefix(c, run, n);
      Reachable(c, run[..n]);
      NextKeeps(c, run[n - 1], Last(run));
    } else {
      InitInv(c, run[0]);
    }
  }

  // ----- The theorems

  /** In every reachable state, nothing on the event list of a timeline, in its window list, or in a box it
      is draining, is earlier than its clock, and executed timestamps never decrease: no event is ever delivered
      into the past. */
  lemma NothingInThePast(c: Context, run: seq<System>, i: nat)
    requires ValidContext(c) && IsRun(c, run) && i < |Last(run).lines|
    ensures var s := Last(run); var l := s.lines[i];
      && (forall e <- l.pend :: e.time >= l.clock)
      && (forall e <- l.windowList :: e.time >= l.clock)
      && (forall p <- s.links :: p.dst == i ==> forall f <- s.links[p].box :: f.time >= l.clock)
      && (forall a, b :: 0 <= a < b < |l.trace| ==> l.trace[a].time <= l.trace[b].time)
  {
    Reachable(c, run);
    BoxesAhead(c.mins, Last(run), i);
    assert LineOk(c.mins, Last(run), i);
  }

  lemma BoxesAhead(mins: seq<int>, s: System, i: nat)
    requires Sound(mins, s) && i < |s.lines|
    ensures forall p <- s.links :: p.dst == i ==> forall f <- s.links[p].box :: f.time >= s.lines[i].clock
  {
    forall p <- s.links | p.dst == i ensures forall f <- s.links[p].box :: f.time >= s.lines[i].clock {
      assert LinkOk(s, p);
    }
  }

  /** No write to another timeline is ever refused, in composite mode either: whatever event a timeline executes
      next, a write on a synchronous channel lands at or above the horizon, and one on an asynchronous channel
      goes to the box of a link. */
  lemma NoWriteRefused(c: Context, run: seq<System>, i: nat, e: Event, p: Post)
    requires ValidContext(c) && IsRun(c, run) && CanWork(c, Last(run), i, e) && p in Sent(c, Last(run), i, e)
    ensures !Refused(p, i, Last(run).horizon, c.thrs)
    ensures p.target != i && p.event.time < Last(run).horizon ==> Pair(i, p.target) in Last(run).links
  {
    Reachable(c, run);
    NoneRefused(c, Last(run), i, e, p);
    SentBound(c, Last(run), i, e, p);
    if p.target != i && p.event.time < Last(run).horizon {
      TargetExists(c, Last(run), i, e, p);
      assert Linked(c, Pair(i, p.target));
    }
  }

  lemma TargetExists(c: Context, s: System, i: nat, e: Event, p: Post)
    requires ValidContext(c) && |s.lines| == |c.m.topology| && i < |s.lines| && p in Sent(c, s, i, e) && p.target != i
    ensures p.target < |c.m.topology|
  {
    SentBound(c, s, i, e, p);
    var ent :| ent in c.m.topology[i] && p.delay in EntityDelaysTo(ent, p.target);
    var oc :| oc in ent.channels && p.delay in ChannelDelaysTo(oc, p.target);
    var m :| m in oc.mappedTo && m.target == p.target && p.delay == m.transferDelay + oc.minWriteDelay;
  }

  /** Whatever a timeline still sends, now or later, arrives at or after the appointment it has published:
      every arrival before the appointment was posted before the appointment. */
  lemma AppointmentsAreKept(c: Context, run: seq<System>, i: nat, e: Event, p: Post)
    requires ValidContext(c) && IsRun(c, run) && CanWork(c, Last(run), i, e) && p in Sent(c, Last(run), i, e)
    requires Pair(i, p.target) in Last(run).links
    ensures var k := Last(run).links[Pair(i, p.target)]; p.event.time >= k.appt && p.event.time >= k.waitAt
  {
    Reachable(c, run);
    SentBound(c, Last(run), i, e, p);
    assert LinkOk(Last(run), Pair(i, p.target)) && LineOk(c.mins, Last(run), i);
    assert IsLook(c, Pair(i, p.target), Last(run).links[Pair(i, p.target)].look);
    LookKeeps(Last(run), i, e, p);
  }

  /** `j` is blocked on a source that has not published. */
  ghost predicate BlockedOn(s: System, j: nat, i: nat)
  {
    j < |s.lines| && s.lines[j].mode == Blocked(i, false)
  }

  /** The blocked-on relation follows strictly decreasing clocks, so it has no cycle; and the timeline that
      is waited for has work left in the window. */
  lemma BlockedIsAhead(mins: seq<int>, s: System, j: nat, i: nat)
    requires |s.lines| == |mins| && BlockedOn(s, j, i) && LineOk(mins, s, j)
    requires Pair(i, j) in s.links && LinkOk(s, Pair(i, j)) && LineOk(mins, s, i)
    ensures s.lines[i].mode != AtBarrier
    ensures s.lines[i].mode.Blocked? ==> s.lines[i].clock < s.lines[j].clock
  {
  }

  lemma BlockedOnDecreases(c: Context, run: seq<System>, j: nat, i: nat)
    requires ValidContext(c) && IsRun(c, run) && BlockedOn(Last(run), j, i)
    ensures var s := Last(run);
      && i < |s.lines| && s.lines[i].mode != AtBarrier
      && (forall k :: BlockedOn(s, i, k) ==> s.lines[i].clock < s.lines[j].clock)
  {
    Reachable(c, run);
    var s := Last(run);
    assert LineOk(c.mins, s, j);
    assert LinkOk(s, Pair(i, j));
    BlockedIsAhead(c.mins, s, j, i);
  }

  // ----- Some timeline can always step

  lemma {:induction false} LeastOf(times: set<int>) returns (t: int)
    requires exists w :: w in times
    ensures t in times && forall w <- times :: t <= w
    decreases |times|
  {
    var x :| x in times;
    t := x;
    var rest := times - {x};
    if w :| w in rest {
      var r := LeastOf(rest);
      if r < t { t := r; }
    }
    forall w <- times ensures t <= w {
      assert w == x || w in rest;
    }
  }

  /** `t` is the next time at which timeline `i` has something to do, or the horizon. */
  ghost predicate NextAt(s: System, i: nat, t: int)
    requires i < |s.lines|
  {
    && t <= s.horizon && NoWorkBefore(s, i, t, false) && NoMakeBefore(s, i, t, false) && NoWaitBefore(s, i, t)
    && (|| t == s.horizon
        || (exists e <- s.lines[i].pend :: e.time == t)
        || (exists p <- s.links :: p.src == i && s.links[p].makeAt == t)
        || (exists p <- s.links :: p.dst == i && s.links[p].waitAt == t))
  }

  lemma NextAtExists(s: System, i: nat) returns (t: int)
    requires i < |s.lines|
    ensures NextAt(s, i, t)
  {
    var works := set e | e in s.lines[i].pend :: e.time;
    var makes := set p | p in s.links && p.src == i :: s.links[p].makeAt;
    var waits := set p | p in s.links && p.dst == i :: s.links[p].waitAt;
    var times := works + makes + waits + {s.horizon};
    assert s.horizon in times;
    t := LeastOf(times);
    forall e <- s.lines[i].pend ensures e.time >= t { assert e.time in works; }
    forall p <- s.links | p.src == i ensures s.links[p].makeAt >= t { assert s.links[p].makeAt in makes; }
    forall p <- s.links | p.dst == i ensures s.links[p].waitAt >= t { assert s.links[p].waitAt in waits; }
  }

  /** A timeline that is not stuck in a wait and not at the barrier has a next step. */
  lemma FreeCanStep(c: Context, s: System, i: nat) returns (s': System)
    requires |s.lines| == |c.m.topology| && i < |s.lines| && s.lines[i].mode == Free && forall p <- s.links :: p.dst < |s.lines|
    ensures Next(c, s, s')
  {
    var t := NextAtExists(s, i);
    if t == s.horizon {
      s' := FinishStep(s, i);
      assert LineStep(c, s, i, s');
    } else if e :| e in s.lines[i].pend && e.time == t {
      s' := WorkStep(c, s, i, t);
      assert LineStep(c, s, i, s');
    } else {
      var p: Pair;
      p, s' := AppointmentEvent(s, i, t);
    }
  }

  lemma AppointmentEvent(s: System, i: nat, t: int) returns (p: Pair, s': System)
    requires i < |s.lines| && s.lines[i].mode == Free && forall p <- s.links :: p.dst < |s.lines|
    requires NextAt(s, i, t) && t != s.horizon && forall e <- s.lines[i].pend :: e.time != t
    ensures LinkStep(s, p, s')
  {
    if q :| q in s.links && q.src == i && s.links[q].makeAt == t {
      p := q;
      s' := MakeStep(s, p);
    } else {
      p :| p in s.links && p.dst == i && s.links[p].waitAt == t;
      s' := WaitStep(s, p);
    }
  }

  lemma FinishStep(s: System, i: nat) returns (s': System)
    requires i < |s.lines| && s.lines[i].mode == Free && NextAt(s, i, s.horizon)
    ensures Finish(s, i, s')
  {
    s' := s.(lines := s.lines[i := s.lines[i].(clock := s.horizon - 1, mode := AtBarrier)]);
  }

  lemma WorkStep(c: Context, s: System, i: nat, t: int) returns (s': System)
    requires |s.lines| == |c.m.topology| && Ready(s, i, t) && exists e <- s.lines[i].pend :: e.time == t
    requires NoWorkBefore(s, i, t, false) && NoMakeBefore(s, i, t, false) && NoWaitBefore(s, i, t)
    ensures Works(c, s, i, s')
  {
    var e := MinEvent(s.lines[i].pend);
    assert e.time == t;
    s' := System(seq(|s.lines|, k requires 0 <= k < |s.lines| => WorkLine(c, s, i, e, k)),
                 map p | p in s.links :: WorkLink(c, s, i, e, p), s.horizon);
    assert Work(c, s, i, e, s');
  }

  lemma MakeStep(s: System, p: Pair) returns (s': System)
    requires p in s.links && p.dst < |s.lines| && Ready(s, p.src, s.links[p].makeAt)
    requires NoWorkBefore(s, p.src, s.links[p].makeAt, true) && NoMakeBefore(s, p.src, s.links[p].makeAt, false)
    requires NoWaitBefore(s, p.src, s.links[p].makeAt)
    ensures Make(s, p, s')
  {
    var i, j, k := p.src, p.dst, s.links[p];
    var moved := s.lines[i := s.lines[i].(clock := k.makeAt)];
    s' := s.(links := s.links[p := k.(appt := k.makeAt + k.look, makeAt := k.makeAt + k.look)],
             lines := if moved[j].mode.Blocked? && moved[j].mode.on == i
                      then moved[j := moved[j].(mode := Blocked(i, true))] else moved);
  }

  lemma WaitStep(s: System, p: Pair) returns (s': System)
    requires p in s.links && Ready(s, p.dst, s.links[p].waitAt)
    requires NoWorkBefore(s, p.dst, s.links[p].waitAt, true) && NoMakeBefore(s, p.dst, s.links[p].waitAt, true)
    requires NoWaitBefore(s, p.dst, s.links[p].waitAt)
    ensures Wait(s, p, s')
  {
    var i, j, k := p.src, p.dst, s.links[p];
    s' := s.(lines := s.lines[j := s.lines[j].(clock := k.waitAt, mode := if k.waitAt < k.appt then Passing(i) else Blocked(i, false))]);
  }

  /** Following the blocked-on relation ends at a timeline that is inside the window and not blocked. */
  lemma {:induction false} SomeoneFree(c: Context, run: seq<System>, s: System, j: nat, i: nat) returns (k: nat)
    requires ValidContext(c) && IsRun(c, run) && s == Last(run) && BlockedOn(s, j, i)
    ensures k < |s.lines| && s.lines[k].mode != AtBarrier && forall m :: !BlockedOn(s, k, m)
    decreases s.lines[j].clock
  {
    Reachable(c, run);
    BlockedOnDecreases(c, run, j, i);
    assert LineOk(c.mins, s, j) && LineOk(c.mins, s, i);
    if m :| BlockedOn(s, i, m) {
      k := SomeoneFree(c, run, s, i, m);
    } else {
      k := i;
    }
  }

  /** There is no deadlock: in every reachable state some transition is possible. */
  lemma SomeTimelineCanStep(c: Context, run: seq<System>, s: System) returns (s': System)
    requires ValidContext(c) && IsRun(c, run) && s == Last(run)
    ensures Next(c, s, s')
  {
    Reachable(c, run);
    if forall k :: 0 <= k < |s.lines| ==> s.lines[k].mode == AtBarrier {
      s' := NextWindow(c, s);
    } else {
      var k :| 0 <= k < |s.lines| && s.lines[k].mode != AtBarrier;
      if m :| BlockedOn(s, k, m) {
        k := SomeoneFree(c, run, s, k, m);
      }
      s' := UnblockedCanStep(c, s, k);
    }
  }

  lemma {:induction false} NextTimes(s: System, n: nat) returns (next: seq<int>)
    requires n <= |s.lines| && forall i, t :: 0 <= i < |s.lines| && t in Times(s, i) ==> t >= 0
    ensures |next| == n && forall i :: 0 <= i < n ==> IsNextTime(s, i, next[i])
  {
    if n == 0 {
      next := [];
    } else {
      var rest := NextTimes(s, n - 1);
      var times, t := Times(s, n - 1), -1;
      if x :| x in times {
        t := LeastOf(times);
      }
      next := rest + [t];
    }
  }

  /** Any offers have a minimum. */
  lemma {:induction false} MinOfOffers(offers: map<nat, int>) returns (v: int)
    ensures MutexBarrier.IsRoundMin(offers, v)
    decreases |offers|
  {
    if i :| i in offers {
      var rest := offers - {i};
      assert |rest| < |offers| by { assert offers.Keys == rest.Keys + {i}; }
      var w := MinOfOffers(rest);
      if offers[i] >= 0 && (w < 0 || offers[i] < w) {
        v := offers[i];
      } else {
        v := w;
        if v >= 0 {
          var k :| k in rest && rest[k] == v;
          assert offers[k] == v;
        }
      }
      forall k <- offers ensures offers[k] >= 0 ==> 0 <= v <= offers[k] {
        assert k == i || (k in rest && rest[k] == offers[k]);
      }
    } else {
      v := -1;
    }
  }

  lemma NextWindow(c: Context, s: System) returns (s': System)
    requires Inv(c, s) && forall k :: 0 <= k < |s.lines| ==> s.lines[k].mode == AtBarrier
    ensures WindowStep(c, s, s')
  {
    forall i, t | 0 <= i < |s.lines| && t in Times(s, i) ensures t >= 0 {
      TimeIsAhead(c.mins, s, i, t);
    }
    var next := NextTimes(s, |s.lines|);
    var reduction := MinOfOffers(Offers(c, s, next));
    var edge := Windows.Edge(|s.lines|, reduction, s.horizon + 1);
    s' := System(seq(|s.lines|, k requires 0 <= k < |s.lines| => Entered(s.lines[k], next[k], edge)), s.links, edge);
    assert Window(c, s, next, reduction, s.horizon + 1, s');
  }

  lemma UnblockedCanStep(c: Context, s: System, k: nat) returns (s': System)
    requires ValidContext(c) && Inv(c, s) && k < |s.lines| && s.lines[k].mode != AtBarrier && forall m :: !BlockedOn(s, k, m)
    ensures Next(c, s, s')
  {
    assert LineOk(c.mins, s, k);
    if s.lines[k].mode == Free {
      forall p <- s.links ensures p.dst < |s.lines| {
        assert LinkOk(s, p);
      }
      s' := FreeCanStep(c, s, k);
    } else {
      var p: Pair;
      p, s' := AppointmentStep(s, k);
    }
  }

  lemma AppointmentStep(s: System, k: nat) returns (p: Pair, s': System)
    requires k < |s.lines| && ModeOk(s, k) && !s.lines[k].mode.Free? && !s.lines[k].mode.AtBarrier? && forall m :: !BlockedOn(s, k, m)
    ensures LinkStep(s, p, s')
  {
    var l := s.lines[k];
    match l.mode
    case Draining(src) =>
      p := Pair(src, k);
      s' := s.(lines := s.lines[k := l.(pend := l.pend + s.links[p].box, mode := Free)],
               links := s.links[p := s.links[p].(box := multiset{})]);
      assert Drain(s, p, s');
    case Blocked(on, signalled) =>
      assert !BlockedOn(s, k, on);
      p := Pair(on, k);
      s' := s.(lines := s.lines[k := l.(mode := Passing(on))]);
      assert Wake(s, p, s');
    case Passing(src) =>
      p := Pair(src, k);
      s' := s.(lines := s.lines[k := l.(mode := Draining(src))], links := s.links[p := s.links[p].(waitAt := s.links[p].appt)]);
      assert Schedule(s, p, s');
  }
}
