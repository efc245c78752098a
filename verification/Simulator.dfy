/**
 Discrete events, handlers and the sequential reference simulator. A configuration holds, for every
 timeline, its application state, its pending events and the events it has executed so far. One step
 executes the least pending event of one timeline. The module proves that every order of execution which
 exhausts a time bound, and in which no timeline gets anything that comes before what it has executed, ends in
 the configuration the sequential simulator reaches.
 */
module Simulator {
  import opened Topology

  /** Application data: opaque to the simulator. */
  type Data = seq<int>

  datatype Event = Event(time: int, key2: int, sink: bool, data: Data)

  /** The event-list order: earlier time first, then lower `key2`. */
  predicate Leq(a: Event, b: Event)
  {
    a.time < b.time || (a.time == b.time && a.key2 <= b.key2)
  }

  predicate SameKey(a: Event, b: Event)
  {
    a.time == b.time && a.key2 == b.key2
  }

  predicate Before(a: Event, b: Event)
  {
    Leq(a, b) && !SameKey(a, b)
  }

  /** What a process body asks for: a timeout or activation on its own timeline, or a channel write. */
  datatype Action =
    | Local(delay: int, key2: int, sink: bool, data: Data)
    | Write(entity: nat, channel: nat, writeDelay: int, data: Data)

  datatype Outcome = Outcome(state: Data, actions: seq<Action>)

  /** An event for a timeline; `delay` is what the connection it goes through takes at least, 0 for a local one. */
  datatype Post = Post(target: nat, event: Event, delay: int)

  datatype RawModel = Model(topology: seq<seq<Entity>>, handler: (nat, Data, Event) -> Outcome)

  predicate ValidAction(entities: seq<Entity>, a: Action)
  {
    match a
    case Local(delay, _, _, _) => delay >= 0
    case Write(e, c, writeDelay, _) => e < |entities| && c < |entities[e].channels| && writeDelay >= 0
  }

  ghost predicate ValidModel(m: RawModel)
  {
    && (forall t :: 0 <= t < |m.topology| ==> ValidTimeline(t, m.topology[t]))
    && (forall t, e, oc, map' :: 0 <= t < |m.topology| && e in m.topology[t] && oc in e.channels && map' in oc.mappedTo
         ==> map'.target < |m.topology|)
    && (forall t: nat, s: Data, e: Event :: t < |m.topology| ==>
         forall a <- m.handler(t, s, e).actions :: ValidAction(m.topology[t], a))
  }

  /** A model whose delays are non-negative and whose handlers write only to channels of their own timeline. */
  type Model = m: RawModel | ValidModel(m) ghost witness Model([], (t, s, e) => Outcome([], []))

  /** The events one action puts on event lists, in the order the code schedules them. */
  function ActionPosts(entities: seq<Entity>, self: nat, now: int, a: Action): seq<Post>
    requires ValidAction(entities, a)
  {
    match a
    case Local(delay, key2, sink, data) => [Post(self, Event(now + delay, key2, sink, data), 0)]
    case Write(e, c, writeDelay, data) =>
      var oc := entities[e].channels[c];
      seq(|oc.mappedTo|, i requires 0 <= i < |oc.mappedTo| =>
        Post(oc.mappedTo[i].target,
             Event(now + writeDelay + oc.mappedTo[i].transferDelay + oc.minWriteDelay, 0, oc.mappedTo[i].ve, data),
             oc.mappedTo[i].transferDelay + oc.minWriteDelay))
  }

  function Posts(entities: seq<Entity>, self: nat, now: int, actions: seq<Action>): seq<Post>
    requires forall a <- actions :: ValidAction(entities, a)
  {
    if actions == [] then [] else ActionPosts(entities, self, now, actions[0]) + Posts(entities, self, now, actions[1..])
  }

  /** The posted events addressed to timeline `k`. */
  function To(posts: seq<Post>, k: nat): multiset<Event>
  {
    if posts == [] then multiset{}
    else (if posts[0].target == k then multiset{posts[0].event} else multiset{}) + To(posts[1..], k)
  }

  lemma {:induction false} ToMember(posts: seq<Post>, k: nat, e: Event) returns (p: Post)
    requires e in To(posts, k)
    ensures p in posts && p.target == k && p.event == e
  {
    if posts[0].target == k && posts[0].event == e {
      p := posts[0];
    } else {
      p := ToMember(posts[1..], k, e);
    }
  }

  /** Local posts are not in the past, and a crossing post takes at least the positive delay of its crossing. */
  lemma {:induction false} PostBound(entities: seq<Entity>, self: nat, now: int, actions: seq<Action>, p: Post)
    requires ValidTimeline(self, entities)
    requires forall a <- actions :: ValidAction(entities, a)
    requires p in Posts(entities, self, now, actions)
    ensures p.target == self ==> p.event.time >= now
    ensures p.target != self ==>
      p.event.time >= now + p.delay > now && p.delay in CrossDelays(self, entities) && p.delay in DelaysTo(entities, p.target)
  {
    var a := actions[0];
    if p in ActionPosts(entities, self, now, a) {
      if a.Write? {
        var e := entities[a.entity];
        var oc := e.channels[a.channel];
        assert ValidChannel(self, oc);
        var i :| 0 <= i < |oc.mappedTo| && p == ActionPosts(entities, self, now, a)[i];
        var d := oc.mappedTo[i].transferDelay + oc.minWriteDelay;
        if p.target != self {
          assert d in ChannelDelays(self, oc);
          assert d in EntityDelays(self, e);
          assert d in CrossDelays(self, entities);
          assert oc.mappedTo[i] in oc.mappedTo && d in ChannelDelaysTo(oc, p.target);
          assert d in EntityDelaysTo(e, p.target);
          assert d in DelaysTo(entities, p.target);
        }
      }
    } else {
      PostBound(entities, self, now, actions[1..], p);
    }
  }

  // ----- Least events

  lemma {:induction false} MinExists(p: multiset<Event>) returns (e: Event)
    requires |p| > 0
    ensures e in p && forall f <- p :: Leq(e, f)
    decreases |p|
  {
    e :| e in p;
    var q := p - multiset{e};
    assert forall f <- p :: f == e || f in q;
    if |q| > 0 {
      var e' := MinExists(q);
      if Leq(e', e) { e := e'; }
    }
  }

  /** `e` may be the top of a priority queue that holds `p`: among events that tie, any one may. */
  ghost predicate IsLeast(p: multiset<Event>, e: Event)
  {
    e in p && forall f <- p :: Leq(e, f)
  }

  /** A least pending event. */
  ghost function MinEvent(p: multiset<Event>): (e: Event)
    requires |p| > 0
    ensures e in p && forall f <- p :: Leq(e, f)
  {
    assert exists e :: e in p && forall f <- p :: Leq(e, f) by { var e := MinExists(p); }
    var e :| e in p && forall f <- p :: Leq(e, f);
    e
  }

  /** No other event ties with the least one. */
  ghost predicate Unique(p: multiset<Event>)
  {
    |p| > 0 && forall f <- p :: SameKey(f, MinEvent(p)) ==> f == MinEvent(p)
  }

  ghost predicate Pending(p: multiset<Event>, edge: int)
  {
    |p| > 0 && MinEvent(p).time < edge
  }

  /** Events at or above the bound neither hide nor tie with a least event below it. */
  lemma MinStable(p: multiset<Event>, q: multiset<Event>, edge: int)
    requires forall f <- q :: f.time >= edge
    requires Pending(p, edge) || Pending(p + q, edge)
    ensures Pending(p, edge) && Pending(p + q, edge)
    ensures Unique(p) <==> Unique(p + q)
    ensures Unique(p) ==> MinEvent(p) == MinEvent(p + q)
  {
    if Pending(p + q, edge) {
      assert MinEvent(p + q) in p;
    }
    assert forall f :: f in p + q <==> f in p || f in q;
    assert MinEvent(p) in p + q;
    assert MinEvent(p + q) in p;
    assert SameKey(MinEvent(p), MinEvent(p + q));
  }

  // ----- Configurations and steps

  datatype Line = Line(state: Data, pend: multiset<Event>, trace: seq<Event>)

  type Config = seq<Line>

  ghost predicate CanStep(m: Model, g: Config, i: nat)
  {
    |g| == |m.topology| && i < |g| && |g[i].pend| > 0
  }

  ghost predicate CanExecute(m: Model, g: Config, i: nat, e: Event)
  {
    |g| == |m.topology| && i < |g| && e in g[i].pend
  }

  /** What timeline `i` posts when it executes `e`. */
  ghost function EventPosts(m: Model, g: Config, i: nat, e: Event): seq<Post>
    requires CanExecute(m, g, i, e)
  {
    Posts(m.topology[i], i, e.time, m.handler(i, g[i].state, e).actions)
  }

  /** Line `k` after timeline `i` executed `e`. */
  ghost function StepLine(m: Model, g: Config, i: nat, e: Event, k: nat): Line
    requires CanExecute(m, g, i, e) && k < |g|
  {
    var arrivals := To(EventPosts(m, g, i, e), k);
    if k == i then
      Line(m.handler(i, g[i].state, e).state, g[i].pend - multiset{e} + arrivals, g[i].trace + [e])
    else
      g[k].(pend := g[k].pend + arrivals)
  }

  /** Timeline `i` executes `e`; what it posts becomes pending at the targets. */
  ghost function Step(m: Model, g: Config, i: nat, e: Event): (g': Config)
    requires CanExecute(m, g, i, e)
    ensures |g'| == |g| && forall k :: 0 <= k < |g| ==> g'[k] == StepLine(m, g, i, e, k)
  {
    seq(|g|, k requires 0 <= k < |g| => StepLine(m, g, i, e, k))
  }

  // ----- Executing the least event

  ghost function StepPosts(m: Model, g: Config, i: nat): seq<Post>
    requires CanStep(m, g, i)
  {
    EventPosts(m, g, i, MinEvent(g[i].pend))
  }

  ghost function ExecLine(m: Model, g: Config, i: nat, k: nat): Line
    requires CanStep(m, g, i) && k < |g|
  {
    StepLine(m, g, i, MinEvent(g[i].pend), k)
  }

  ghost function Exec(m: Model, g: Config, i: nat): (g': Config)
    requires CanStep(m, g, i)
    ensures |g'| == |g| && forall k :: 0 <= k < |g| ==> g'[k] == ExecLine(m, g, i, k)
  {
    Step(m, g, i, MinEvent(g[i].pend))
  }

  ghost predicate Enabled(g: Config, i: nat, edge: int)
  {
    i < |g| && Pending(g[i].pend, edge)
  }

  /** No event below the bound can cause an arrival on another timeline below the bound. */
  ghost predicate Safe(m: Model, g: Config, edge: int)
  {
    && |g| == |m.topology|
    && forall i, e, d :: 0 <= i < |g| && e in g[i].pend && e.time < edge && d in CrossDelays(i, m.topology[i]) ==>
         e.time + d >= edge
  }

  lemma PostsToOthers(m: Model, g: Config, i: nat, e: Event, edge: int, k: nat)
    requires Safe(m, g, edge) && CanExecute(m, g, i, e) && e.time < edge && k != i
    ensures forall f <- To(EventPosts(m, g, i, e), k) :: f.time >= edge
  {
    forall f <- To(EventPosts(m, g, i, e), k) ensures f.time >= edge {
      var p := ToMember(EventPosts(m, g, i, e), k, f);
      PostBound(m.topology[i], i, e.time, m.handler(i, g[i].state, e).actions, p);
    }
  }

  lemma PostsToSelf(m: Model, g: Config, i: nat, e: Event)
    requires CanExecute(m, g, i, e)
    ensures forall f <- To(EventPosts(m, g, i, e), i) :: f.time >= e.time
  {
    forall f <- To(EventPosts(m, g, i, e), i) ensures f.time >= e.time {
      var p := ToMember(EventPosts(m, g, i, e), i, f);
      PostBound(m.topology[i], i, e.time, m.handler(i, g[i].state, e).actions, p);
    }
  }

  /** Executing any event below a safe bound keeps the bound safe. */
  lemma StepSafe(m: Model, g: Config, i: nat, e: Event, edge: int)
    requires Safe(m, g, edge) && CanExecute(m, g, i, e) && e.time < edge
    ensures Safe(m, Step(m, g, i, e), edge)
  {
    var g' := Step(m, g, i, e);
    forall k, f, d | 0 <= k < |g'| && f in g'[k].pend && f.time < edge && d in CrossDelays(k, m.topology[k])
      ensures f.time + d >= edge
    {
      assert g'[k] == StepLine(m, g, i, e, k);
      if k == i {
        PostsToSelf(m, g, i, e);
      } else {
        PostsToOthers(m, g, i, e, edge, k);
      }
    }
  }

  lemma CommuteLine(m: Model, g: Config, i: nat, j: nat, k: nat)
    requires CanStep(m, g, i) && CanStep(m, g, j) && i != j && k < |g|
    requires CanStep(m, Exec(m, g, i), j) && MinEvent(Exec(m, g, i)[j].pend) == MinEvent(g[j].pend)
    requires CanStep(m, Exec(m, g, j), i) && MinEvent(Exec(m, g, j)[i].pend) == MinEvent(g[i].pend)
    ensures ExecLine(m, Exec(m, g, i), j, k) == ExecLine(m, Exec(m, g, j), i, k)
  {
    var gi, gj := Exec(m, g, i), Exec(m, g, j);
    var ei, ej := MinEvent(g[i].pend), MinEvent(g[j].pend);
    var x, y := To(StepPosts(m, g, i), k), To(StepPosts(m, g, j), k);
    assert StepPosts(m, gi, j) == StepPosts(m, g, j);
    assert StepPosts(m, gj, i) == StepPosts(m, g, i);
    assert gi[k] == ExecLine(m, g, i, k) && gj[k] == ExecLine(m, g, j, k);
    if k == i {
      Shuffle(g[k].pend, ei, x, y);
    } else if k == j {
      Shuffle(g[k].pend, ej, y, x);
    } else {
      assert g[k].pend + x + y == g[k].pend + y + x;
    }
  }

  lemma Shuffle(p: multiset<Event>, e: Event, x: multiset<Event>, y: multiset<Event>)
    requires e in p
    ensures (p - multiset{e} + x) + y == (p + y) - multiset{e} + x
  {
  }

  /** What one timeline sends to another arrives strictly later than it was sent. */
  lemma CrossingTakesTime(m: Model, g: Config, i: nat, e: Event, k: nat)
    requires CanExecute(m, g, i, e) && k != i
    ensures forall f <- To(EventPosts(m, g, i, e), k) :: f.time > e.time
  {
    forall f <- To(EventPosts(m, g, i, e), k) ensures f.time > e.time {
      var p := ToMember(EventPosts(m, g, i, e), k, f);
      PostBound(m.topology[i], i, e.time, m.handler(i, g[i].state, e).actions, p);
    }
  }

  /** Later events leave the least one where it is. */
  lemma MinKept(p: multiset<Event>, q: multiset<Event>)
    requires Unique(p) && forall f <- q :: Before(MinEvent(p), f)
    ensures Unique(p + q) && MinEvent(p + q) == MinEvent(p)
  {
    assert forall f :: f in p + q <==> f in p || f in q;
    assert MinEvent(p) in p + q && Leq(MinEvent(p + q), MinEvent(p));
  }

  /** Steps of two timelines, neither of which sends the other anything that comes before its event, commute. */
  lemma Commute(m: Model, g: Config, i: nat, j: nat)
    requires CanStep(m, g, i) && CanStep(m, g, j) && i != j && Unique(g[i].pend) && Unique(g[j].pend)
    requires forall f <- To(StepPosts(m, g, i), j) :: Before(MinEvent(g[j].pend), f)
    requires forall f <- To(StepPosts(m, g, j), i) :: Before(MinEvent(g[i].pend), f)
    ensures var gi := Exec(m, g, i); CanStep(m, gi, j) && Unique(gi[j].pend) && MinEvent(gi[j].pend) == MinEvent(g[j].pend)
    ensures var gj := Exec(m, g, j); CanStep(m, gj, i) && Unique(gj[i].pend) && MinEvent(gj[i].pend) == MinEvent(g[i].pend)
    ensures Exec(m, Exec(m, g, i), j) == Exec(m, Exec(m, g, j), i)
  {
    MinKept(g[j].pend, To(StepPosts(m, g, i), j));
    MinKept(g[i].pend, To(StepPosts(m, g, j), i));
    forall k | 0 <= k < |g| ensures ExecLine(m, Exec(m, g, i), j, k) == ExecLine(m, Exec(m, g, j), i, k) {
      CommuteLine(m, g, i, j, k);
    }
  }

  // ----- Paths

  ghost predicate ValidPath(m: Model, g: Config, path: seq<nat>)
    decreases |path|
  {
    path == [] || (CanStep(m, g, path[0]) && ValidPath(m, Exec(m, g, path[0]), path[1..]))
  }

  ghost function Run(m: Model, g: Config, path: seq<nat>): (g': Config)
    requires ValidPath(m, g, path)
    ensures |g'| == |g|
    decreases |path|
  {
    if path == [] then g else Run(m, Exec(m, g, path[0]), path[1..])
  }

  /** Whatever timeline `i` sends to another one comes after everything that one has executed. */
  ghost predicate SendsLater(m: Model, g: Config, i: nat)
    requires CanStep(m, g, i)
  {
    forall k, f, x :: 0 <= k < |g| && k != i && f in To(StepPosts(m, g, i), k) && x in g[k].trace ==> Before(x, f)
  }

  /** An order of execution in which every step executes an event below the bound, no event ties with it, and
      nothing it sends comes too late. */
  ghost predicate Orderly(m: Model, g: Config, path: seq<nat>, edge: int)
    decreases |path|
  {
    path == [] || (&& CanStep(m, g, path[0])
                   && Enabled(g, path[0], edge)
                   && Unique(g[path[0]].pend)
                   && SendsLater(m, g, path[0])
                   && Orderly(m, Exec(m, g, path[0]), path[1..], edge))
  }

  ghost predicate Exhausted(g: Config, edge: int)
  {
    forall i :: 0 <= i < |g| ==> !Enabled(g, i, edge)
  }

  /** An orderly path that exhausts the bound. */
  ghost predicate Complete(m: Model, g: Config, path: seq<nat>, edge: int)
  {
    Orderly(m, g, path, edge) && ValidPath(m, g, path) && Exhausted(Run(m, g, path), edge)
  }

  /** No pending event is earlier than the next one of timeline `i`. */
  ghost predicate Earliest(g: Config, i: nat)
  {
    i < |g| && |g[i].pend| > 0 && forall k, f :: 0 <= k < |g| && f in g[k].pend ==> MinEvent(g[i].pend).time <= f.time
  }

  /** It stays so when another timeline goes first, and the timeline would still execute the same event. */
  lemma EarliestStays(m: Model, g: Config, i: nat, j: nat)
    requires Earliest(g, i) && CanStep(m, g, j) && i != j
    ensures var gj := Exec(m, g, j); Earliest(gj, i) && MinEvent(gj[i].pend).time == MinEvent(g[i].pend).time
    ensures Unique(Exec(m, g, j)[i].pend) ==> Unique(g[i].pend) && MinEvent(Exec(m, g, j)[i].pend) == MinEvent(g[i].pend)
  {
    var gj, e, ej := Exec(m, g, j), MinEvent(g[i].pend), MinEvent(g[j].pend);
    CrossingTakesTime(m, g, j, ej, i);
    MinStable(g[i].pend, To(StepPosts(m, g, j), i), e.time + 1);
    forall k, f | 0 <= k < |gj| && f in gj[k].pend ensures e.time <= f.time {
      assert gj[k] == ExecLine(m, g, j, k);
      if k == j {
        PostsToSelf(m, g, j, ej);
      } else {
        CrossingTakesTime(m, g, j, ej, k);
      }
    }
  }

  /** If what `i` sends after a step of `j` comes late enough, so does it before that step. */
  lemma SendsEarlier(m: Model, g: Config, i: nat, j: nat)
    requires CanStep(m, g, i) && CanStep(m, g, j) && i != j
    requires CanStep(m, Exec(m, g, j), i) && MinEvent(Exec(m, g, j)[i].pend) == MinEvent(g[i].pend)
    requires SendsLater(m, Exec(m, g, j), i)
    ensures StepPosts(m, Exec(m, g, j), i) == StepPosts(m, g, i)
    ensures SendsLater(m, g, i) && forall f <- To(StepPosts(m, g, i), j) :: Before(MinEvent(g[j].pend), f)
  {
    var gj := Exec(m, g, j);
    assert gj[i] == ExecLine(m, g, j, i) && gj[j] == ExecLine(m, g, j, j);
    assert MinEvent(g[j].pend) in gj[j].trace;
    forall k, f, x | 0 <= k < |g| && k != i && f in To(StepPosts(m, g, i), k) && x in g[k].trace ensures Before(x, f) {
      assert gj[k] == ExecLine(m, g, j, k);
      assert x in gj[k].trace;
    }
  }

  /** What `j` sends comes late enough also after a step of `i` at an earlier time. */
  lemma SendsAfter(m: Model, g: Config, i: nat, j: nat)
    requires CanStep(m, g, i) && CanStep(m, g, j) && i != j && SendsLater(m, g, j)
    requires MinEvent(g[i].pend).time <= MinEvent(g[j].pend).time
    requires CanStep(m, Exec(m, g, i), j) && MinEvent(Exec(m, g, i)[j].pend) == MinEvent(g[j].pend)
    ensures SendsLater(m, Exec(m, g, i), j)
  {
    var gi := Exec(m, g, i);
    CrossingTakesTime(m, g, j, MinEvent(g[j].pend), i);
    assert gi[j] == ExecLine(m, g, i, j);
    assert StepPosts(m, gi, j) == StepPosts(m, g, j);
    forall k, f, x | 0 <= k < |gi| && k != j && f in To(StepPosts(m, gi, j), k) && x in gi[k].trace ensures Before(x, f) {
      assert gi[k] == ExecLine(m, g, i, k);
      assert x in g[k].trace || (k == i && x == MinEvent(g[i].pend));
    }
  }

  /** A timeline with an earliest event may go first: the rest of the path can be rearranged to end in the same place. */
  lemma {:induction false} Extract(m: Model, g: Config, path: seq<nat>, i: nat, edge: int) returns (rest: seq<nat>)
    requires Complete(m, g, path, edge) && Earliest(g, i) && Enabled(g, i, edge)
    ensures |path| > 0 && |rest| == |path| - 1 && CanStep(m, g, i) && Unique(g[i].pend) && SendsLater(m, g, i)
    ensures Complete(m, Exec(m, g, i), rest, edge)
    ensures Run(m, Exec(m, g, i), rest) == Run(m, g, path)
    decreases |path|
  {
    assert path != [];
    var j := path[0];
    if j == i {
      rest := path[1..];
    } else {
      EarliestStays(m, g, i, j);
      var rest' := Extract(m, Exec(m, g, j), path[1..], i, edge);
      SendsEarlier(m, g, i, j);
      CrossingTakesTime(m, g, j, MinEvent(g[j].pend), i);
      Commute(m, g, i, j);
      SendsAfter(m, g, i, j);
      rest := [j] + rest';
      assert rest[1..] == rest';
    }
  }

  // ----- The sequential simulator

  /** Timeline `i` holds a least event of the whole configuration: the head of one global event list. */
  ghost predicate HoldsLeast(g: Config, i: nat)
  {
    && i < |g| && |g[i].pend| > 0
    && forall k, f :: 0 <= k < |g| && f in g[k].pend ==> Leq(MinEvent(g[i].pend), f)
  }

  /** A run of the sequential simulator: each step executes a least event of the global event list. */
  ghost predicate Sequential(m: Model, g: Config, path: seq<nat>)
    decreases |path|
  {
    path == [] || (&& CanStep(m, g, path[0])
                   && HoldsLeast(g, path[0])
                   && Sequential(m, Exec(m, g, path[0]), path[1..]))
  }

  lemma SequentialIsValid(m: Model, g: Config, path: seq<nat>)
    requires Sequential(m, g, path)
    ensures ValidPath(m, g, path)
    decreases |path|
  {
  }

  lemma LeastIsEnabled(g: Config, i: nat, j: nat, edge: int)
    requires HoldsLeast(g, i) && Enabled(g, j, edge)
    ensures Enabled(g, i, edge) && Earliest(g, i)
  {
    assert Leq(MinEvent(g[i].pend), MinEvent(g[j].pend));
    forall k, f | 0 <= k < |g| && f in g[k].pend ensures MinEvent(g[i].pend).time <= f.time {
      assert Leq(MinEvent(g[i].pend), f);
    }
  }

  /** Every sequential run as long as a complete path ends where the complete path ends. */
  lemma {:induction false} SequentialReaches(m: Model, g: Config, path: seq<nat>, edge: int, sigma: seq<nat>)
    requires Complete(m, g, path, edge)
    requires Sequential(m, g, sigma) && |sigma| == |path|
    ensures ValidPath(m, g, sigma) && Run(m, g, sigma) == Run(m, g, path)
    decreases |path|
  {
    SequentialIsValid(m, g, sigma);
    if path != [] {
      var i := sigma[0];
      LeastIsEnabled(g, i, path[0], edge);
      var rest := Extract(m, g, path, i, edge);
      SequentialReaches(m, Exec(m, g, i), rest, edge, sigma[1..]);
    }
  }

  lemma {:induction false} LeastExists(g: Config, n: nat) returns (i: nat)
    requires n <= |g| && exists k :: 0 <= k < n && |g[k].pend| > 0
    ensures i < n && |g[i].pend| > 0
    ensures forall k, f :: 0 <= k < n && f in g[k].pend ==> Leq(MinEvent(g[i].pend), f)
  {
    i := n - 1;
    if k :| 0 <= k < n - 1 && |g[k].pend| > 0 {
      var l := LeastExists(g, n - 1);
      if |g[i].pend| == 0 || Leq(MinEvent(g[l].pend), MinEvent(g[i].pend)) {
        i := l;
      }
      forall k, f | 0 <= k < n && f in g[k].pend ensures Leq(MinEvent(g[i].pend), f) {
        if k < n - 1 {
          assert Leq(MinEvent(g[l].pend), f);
        }
      }
    } else {
      forall k, f | 0 <= k < n && f in g[k].pend ensures Leq(MinEvent(g[i].pend), f) {
        assert |g[k].pend| > 0;
      }
    }
  }

  /** There is such a sequential run. */
  lemma {:induction false} SequentialExists(m: Model, g: Config, path: seq<nat>, edge: int) returns (sigma: seq<nat>)
    requires Complete(m, g, path, edge)
    ensures Sequential(m, g, sigma) && |sigma| == |path|
    decreases |path|
  {
    if path == [] {
      sigma := [];
    } else {
      assert |g[path[0]].pend| > 0;
      var i := LeastExists(g, |g|);
      LeastIsEnabled(g, i, path[0], edge);
      var rest := Extract(m, g, path, i, edge);
      var tail := SequentialExists(m, Exec(m, g, i), rest, edge);
      sigma := [i] + tail;
      assert sigma[1..] == tail;
    }
  }

  /** A sequential run goes on from where a prefix of it ends. */
  lemma {:induction false} SequentialSplit(m: Model, g: Config, p: seq<nat>, q: seq<nat>)
    requires Sequential(m, g, p + q)
    ensures Sequential(m, g, p) && ValidPath(m, g, p) && ValidPath(m, g, p + q)
    ensures Sequential(m, Run(m, g, p), q) && ValidPath(m, Run(m, g, p), q)
    ensures Run(m, g, p + q) == Run(m, Run(m, g, p), q)
    decreases |p|
  {
    SequentialIsValid(m, g, p + q);
    if p == [] {
      assert p + q == q;
    } else {
      TailOfSum(p, q);
      SequentialHead(m, g, p + q);
      SequentialSplit(m, Exec(m, g, p[0]), p[1..], q);
      SequentialCons(m, g, p, p[1..]);
      SequentialIsValid(m, g, p);
      SequentialHead(m, g, p);
    }
  }

  /** A step in front of a sequential run. */
  lemma SequentialCons(m: Model, g: Config, whole: seq<nat>, tail: seq<nat>)
    requires whole != [] && whole[1..] == tail
    requires CanStep(m, g, whole[0]) && HoldsLeast(g, whole[0]) && Sequential(m, Exec(m, g, whole[0]), tail)
    ensures Sequential(m, g, whole)
  {
  }

  lemma TailOfSum(p: seq<nat>, q: seq<nat>)
    requires p != []
    ensures (p + q)[0] == p[0] && (p + q)[1..] == p[1..] + q
  {
  }

  lemma SequentialHead(m: Model, g: Config, p: seq<nat>)
    requires p != [] && Sequential(m, g, p) && ValidPath(m, g, p)
    ensures CanStep(m, g, p[0]) && HoldsLeast(g, p[0]) && Sequential(m, Exec(m, g, p[0]), p[1..])
    ensures ValidPath(m, Exec(m, g, p[0]), p[1..]) && Run(m, g, p) == Run(m, Exec(m, g, p[0]), p[1..])
  {
  }

  lemma {:induction false} SequentialAppend(m: Model, g: Config, p: seq<nat>, q: seq<nat>)
    requires Sequential(m, g, p) && ValidPath(m, g, p) && Sequential(m, Run(m, g, p), q)
    ensures Sequential(m, g, p + q)
    decreases |p|
  {
    if p == [] {
      assert p + q == q;
    } else {
      SequentialHead(m, g, p);
      SequentialAppend(m, Exec(m, g, p[0]), p[1..], q);
      TailOfSum(p, q);
      SequentialCons(m, g, p + q, p[1..] + q);
    }
  }

  lemma {:induction false} OrderlyAppend(m: Model, g: Config, p: seq<nat>, i: nat, edge: int)
    requires Orderly(m, g, p, edge) && ValidPath(m, g, p)
    requires CanStep(m, Run(m, g, p), i) && Enabled(Run(m, g, p), i, edge)
    requires Unique(Run(m, g, p)[i].pend) && SendsLater(m, Run(m, g, p), i)
    ensures Orderly(m, g, p + [i], edge) && ValidPath(m, g, p + [i])
    ensures Run(m, g, p + [i]) == Exec(m, Run(m, g, p), i)
    decreases |p|
  {
    if p == [] {
      assert p + [i] == [i];
      assert [i][1..] == [];
    } else {
      OrderlyAppend(m, Exec(m, g, p[0]), p[1..], i, edge);
      assert (p + [i])[1..] == p[1..] + [i];
    }
  }

  // ----- What all sequential runs of one length reach

  /** Every sequential run of `k` steps from `g0` ends in `g`, and there is one. */
  ghost predicate SequentiallyReached(m: Model, g0: Config, k: nat, g: Config)
  {
    && (exists sigma :: Sequential(m, g0, sigma) && |sigma| == k)
    && forall sigma :: Sequential(m, g0, sigma) && |sigma| == k ==> ValidPath(m, g0, sigma) && Run(m, g0, sigma) == g
  }

  lemma ExtendedRunExists(m: Model, g0: Config, k: nat, g: Config, path: seq<nat>, edge: int) returns (tau: seq<nat>)
    requires SequentiallyReached(m, g0, k, g) && Complete(m, g, path, edge)
    ensures Sequential(m, g0, tau) && |tau| == k + |path|
  {
    var sigma :| Sequential(m, g0, sigma) && |sigma| == k;
    var tail := SequentialExists(m, g, path, edge);
    SequentialAppend(m, g0, sigma, tail);
    tau := sigma + tail;
  }

  lemma ExtendedPartReaches(m: Model, g0: Config, k: nat, g: Config, path: seq<nat>, edge: int, p: seq<nat>, q: seq<nat>)
    requires SequentiallyReached(m, g0, k, g) && Complete(m, g, path, edge)
    requires Sequential(m, g0, p + q) && |p| == k && |q| == |path|
    ensures ValidPath(m, g0, p + q) && Run(m, g0, p + q) == Run(m, g, path)
  {
    SequentialSplit(m, g0, p, q);
    SequentialReaches(m, g, path, edge, q);
  }

  lemma ExtendedRunReaches(m: Model, g0: Config, k: nat, g: Config, path: seq<nat>, edge: int, tau: seq<nat>)
    requires SequentiallyReached(m, g0, k, g) && Complete(m, g, path, edge)
    requires Sequential(m, g0, tau) && |tau| == k + |path|
    ensures ValidPath(m, g0, tau) && Run(m, g0, tau) == Run(m, g, path)
  {
    assert tau == tau[..k] + tau[k..];
    ExtendedPartReaches(m, g0, k, g, path, edge, tau[..k], tau[k..]);
  }

  lemma OrderlyIsSequential(m: Model, g0: Config, k: nat, g: Config, path: seq<nat>, edge: int)
    requires SequentiallyReached(m, g0, k, g) && Complete(m, g, path, edge)
    ensures SequentiallyReached(m, g0, k + |path|, Run(m, g, path))
  {
    var one := ExtendedRunExists(m, g0, k, g, path, edge);
    forall tau | Sequential(m, g0, tau) && |tau| == k + |path| ensures ValidPath(m, g0, tau) && Run(m, g0, tau) == Run(m, g, path) {
      ExtendedRunReaches(m, g0, k, g, path, edge, tau);
    }
  }
}
