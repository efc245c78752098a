/**
 What a channel write delivers, by indices: executing an event gives every timeline one copy of an event for each
 pair of a write action of the handler and a mapping of its channel that leads there, and the own timeline one for
 each local action; nothing else. The same for the window protocol and for the composite one.
 */
module Deliveries {
  import opened Topology
  import opened Simulator
  import Windows
  import Appointments
  import Composite

  /** The mappings a write goes through. */
  function Mappings(entities: seq<Entity>, a: Action): seq<Mapping>
    requires ValidAction(entities, a)
  {
    if a.Write? then entities[a.entity].channels[a.channel].mappedTo else []
  }

  /** Mapping `j` of the channel that action `a` writes to takes it to timeline `k` as event `f`. */
  ghost predicate Delivers(entities: seq<Entity>, now: int, a: Action, j: nat, k: nat, f: Event)
    requires ValidAction(entities, a) && j < |Mappings(entities, a)|
  {
    var oc := entities[a.entity].channels[a.channel];
    var m := oc.mappedTo[j];
    m.target == k && f == Event(now + a.writeDelay + m.transferDelay + oc.minWriteDelay, 0, m.ve, a.data)
  }

  /** Action `a` is local and schedules `f`. */
  predicate Schedules(now: int, a: Action, f: Event)
  {
    a.Local? && f == Event(now + a.delay, a.key2, a.sink, a.data)
  }

  ghost predicate AllValid(entities: seq<Entity>, actions: seq<Action>)
  {
    forall a <- actions :: ValidAction(entities, a)
  }

  /** The writes that take `f` to timeline `k`: index of the action, index of the mapping. */
  ghost function Writes(entities: seq<Entity>, now: int, actions: seq<Action>, k: nat, f: Event): set<(nat, nat)>
    requires AllValid(entities, actions)
  {
    set n: nat, j: nat | n < |actions| && j < |Mappings(entities, actions[n])| && Delivers(entities, now, actions[n], j, k, f) :: (n, j)
  }

  /** The local actions that schedule `f`. */
  ghost function Locals(now: int, actions: seq<Action>, f: Event): set<nat>
  {
    set n: nat | n < |actions| && Schedules(now, actions[n], f) :: n
  }

  /** How many copies of `f` timeline `k` gets. */
  ghost function Gained(entities: seq<Entity>, self: nat, now: int, actions: seq<Action>, k: nat, f: Event): nat
    requires AllValid(entities, actions)
  {
    |Writes(entities, now, actions, k, f)| + if k == self then |Locals(now, actions, f)| else 0
  }

  // ----- Counting

  lemma {:induction false} ToSum(p: seq<Post>, q: seq<Post>, k: nat)
    ensures To(p + q, k) == To(p, k) + To(q, k)
  {
    if p == [] {
      assert p + q == q;
    } else {
      assert (p + q)[1..] == p[1..] + q;
      ToSum(p[1..], q, k);
    }
  }

  lemma ToOne(p: Post, k: nat)
    ensures To([p], k) == if p.target == k then multiset{p.event} else multiset{}
  {
    assert [p][1..] == [];
  }

  /** The writes of the actions below `n`, and the first `m` mappings of action `n`. */
  ghost function WritesTo(entities: seq<Entity>, now: int, actions: seq<Action>, n: nat, m: nat, k: nat, f: Event): set<(nat, nat)>
    requires AllValid(entities, actions)
  {
    Cut(Writes(entities, now, actions, k, f), n, m)
  }

  /** The pairs that come before (n, m). */
  ghost function Cut(pairs: set<(nat, nat)>, n: nat, m: nat): set<(nat, nat)>
  {
    set p <- pairs | p.0 < n || (p.0 == n && p.1 < m)
  }

  lemma CutStep(pairs: set<(nat, nat)>, n: nat, m: nat)
    ensures |Cut(pairs, n, m + 1)| == |Cut(pairs, n, m)| + if (n, m) in pairs then 1 else 0
  {
    if (n, m) in pairs {
      assert Cut(pairs, n, m + 1) == Cut(pairs, n, m) + {(n, m)};
    } else {
      assert Cut(pairs, n, m + 1) == Cut(pairs, n, m);
    }
  }

  lemma OneMapping(entities: seq<Entity>, now: int, actions: seq<Action>, n: nat, m: nat, k: nat, f: Event)
    requires AllValid(entities, actions) && n < |actions| && m < |Mappings(entities, actions[n])|
    ensures |WritesTo(entities, now, actions, n, m + 1, k, f)| == |WritesTo(entities, now, actions, n, m, k, f)|
      + if Delivers(entities, now, actions[n], m, k, f) then 1 else 0
  {
    CutStep(Writes(entities, now, actions, k, f), n, m);
  }

  /** What is posted through mapping `j` of a write is what it delivers. */
  lemma MappingPost(entities: seq<Entity>, self: nat, now: int, a: Action, j: nat, k: nat, f: Event)
    requires ValidAction(entities, a) && j < |Mappings(entities, a)|
    ensures var posts := ActionPosts(entities, self, now, a);
      |posts| == |Mappings(entities, a)| && (Delivers(entities, now, a, j, k, f) <==> posts[j].target == k && posts[j].event == f)
  {
  }

  lemma ToNext(posts: seq<Post>, m: nat, k: nat, f: Event)
    requires m < |posts|
    ensures To(posts[..m + 1], k)[f] == To(posts[..m], k)[f] + if posts[m].target == k && posts[m].event == f then 1 else 0
  {
    assert posts[..m + 1] == posts[..m] + [posts[m]];
    ToSum(posts[..m], [posts[m]], k);
    ToOne(posts[m], k);
  }

  /** The first `m` mappings of a write. */
  lemma {:induction false} WriteCounts(entities: seq<Entity>, now: int, actions: seq<Action>, n: nat, posts: seq<Post>, m: nat, k: nat, f: Event)
    requires AllValid(entities, actions) && n < |actions| && |posts| == |Mappings(entities, actions[n])| && m <= |posts|
    requires forall j: nat :: j < |posts| ==>
      (Delivers(entities, now, actions[n], j, k, f) <==> posts[j].target == k && posts[j].event == f)
    ensures |WritesTo(entities, now, actions, n, m, k, f)| == |WritesTo(entities, now, actions, n, 0, k, f)| + To(posts[..m], k)[f]
  {
    if m == 0 {
      assert posts[..0] == [];
    } else {
      WriteCounts(entities, now, actions, n, posts, m - 1, k, f);
      OneMapping(entities, now, actions, n, m - 1, k, f);
      ToNext(posts, m - 1, k, f);
    }
  }

  /** The local actions below `n`. */
  ghost function LocalsTo(now: int, actions: seq<Action>, n: nat, f: Event): set<nat>
  {
    set p <- Locals(now, actions, f) | p < n
  }

  lemma OneLocal(now: int, actions: seq<Action>, n: nat, f: Event)
    requires n < |actions|
    ensures |LocalsTo(now, actions, n + 1, f)| == |LocalsTo(now, actions, n, f)| + if Schedules(now, actions[n], f) then 1 else 0
  {
    var before, after := LocalsTo(now, actions, n, f), LocalsTo(now, actions, n + 1, f);
    if Schedules(now, actions[n], f) {
      assert n in Locals(now, actions, f);
      assert after == before + {n};
    } else {
      assert after == before;
    }
  }

  /** One action, with all its mappings. */
  lemma ActionCounts(entities: seq<Entity>, self: nat, now: int, actions: seq<Action>, n: nat, k: nat, f: Event)
    requires AllValid(entities, actions) && n < |actions|
    ensures |WritesTo(entities, now, actions, n + 1, 0, k, f)| + (if k == self then |LocalsTo(now, actions, n + 1, f)| else 0) ==
      |WritesTo(entities, now, actions, n, 0, k, f)| + (if k == self then |LocalsTo(now, actions, n, f)| else 0)
      + To(ActionPosts(entities, self, now, actions[n]), k)[f]
  {
    var a, posts := actions[n], ActionPosts(entities, self, now, actions[n]);
    var m := |Mappings(entities, a)|;
    OneLocal(now, actions, n, f);
    assert WritesTo(entities, now, actions, n + 1, 0, k, f) == WritesTo(entities, now, actions, n, m, k, f);
    if a.Write? {
      forall j: nat | j < m ensures |posts| == m && (Delivers(entities, now, a, j, k, f) <==> posts[j].target == k && posts[j].event == f) {
        MappingPost(entities, self, now, a, j, k, f);
      }
      WriteCounts(entities, now, actions, n, posts, m, k, f);
      assert posts[..m] == posts;
    } else {
      ToOne(posts[0], k);
      assert posts == [posts[0]];
    }
  }

  lemma SuffixPosts(entities: seq<Entity>, self: nat, now: int, actions: seq<Action>, n: nat, k: nat)
    requires AllValid(entities, actions) && n < |actions|
    ensures AllValid(entities, actions[n..]) && AllValid(entities, actions[n + 1..])
    ensures To(Posts(entities, self, now, actions[n..]), k) ==
      To(ActionPosts(entities, self, now, actions[n]), k) + To(Posts(entities, self, now, actions[n + 1..]), k)
  {
    assert actions[n..][0] == actions[n] && actions[n..][1..] == actions[n + 1..];
    ToSum(ActionPosts(entities, self, now, actions[n]), Posts(entities, self, now, actions[n + 1..]), k);
  }

  /** The actions from `n` on post what the ones before have not delivered. */
  lemma {:induction false} SuffixCounts(entities: seq<Entity>, self: nat, now: int, actions: seq<Action>, n: nat, k: nat, f: Event)
    requires AllValid(entities, actions) && n <= |actions|
    ensures AllValid(entities, actions[n..])
    ensures To(Posts(entities, self, now, actions[n..]), k)[f] + |WritesTo(entities, now, actions, n, 0, k, f)|
      + (if k == self then |LocalsTo(now, actions, n, f)| else 0) == Gained(entities, self, now, actions, k, f)
    decreases |actions| - n
  {
    if n == |actions| {
      assert actions[n..] == [];
      assert WritesTo(entities, now, actions, n, 0, k, f) == Writes(entities, now, actions, k, f);
      assert LocalsTo(now, actions, n, f) == Locals(now, actions, f);
    } else {
      SuffixCounts(entities, self, now, actions, n + 1, k, f);
      ActionCounts(entities, self, now, actions, n, k, f);
      SuffixPosts(entities, self, now, actions, n, k);
    }
  }

  /** What is posted for a timeline is one copy for each delivery. */
  lemma PostedIsGained(entities: seq<Entity>, self: nat, now: int, actions: seq<Action>, k: nat, f: Event)
    requires AllValid(entities, actions)
    ensures To(Posts(entities, self, now, actions), k)[f] == Gained(entities, self, now, actions, k, f)
  {
    SuffixCounts(entities, self, now, actions, 0, k, f);
    assert actions[0..] == actions;
    assert WritesTo(entities, now, actions, 0, 0, k, f) == {} && LocalsTo(now, actions, 0, f) == {};
  }

  /** A step of the abstract simulator delivers exactly that. */
  lemma StepDelivers(m: Model, g: Config, i: nat, e: Event, k: nat, f: Event)
    requires CanExecute(m, g, i, e) && k < |g|
    ensures AllValid(m.topology[i], m.handler(i, g[i].state, e).actions)
    ensures Step(m, g, i, e)[k].pend[f] + (if k == i && f == e then 1 else 0) ==
      g[k].pend[f] + Gained(m.topology[i], i, e.time, m.handler(i, g[i].state, e).actions, k, f)
  {
    assert Step(m, g, i, e)[k] == StepLine(m, g, i, e, k);
    PostedIsGained(m.topology[i], i, e.time, m.handler(i, g[i].state, e).actions, k, f);
  }

  // ----- The two protocols

  /** In a window: how many copies of any event any timeline holds after one iteration of the event loop. */
  lemma WindowDelivers(c: Windows.Context, run: seq<Windows.System>, i: nat, e: Event, s': Windows.System, k: nat, f: Event)
    requires Windows.ValidContext(c) && Windows.IsRun(c, run) && Windows.Work(c, Windows.Last(run), i, e, s')
    requires k < |s'.lines| == |Windows.Last(run).lines|
    ensures var s := Windows.Last(run); var actions := c.m.handler(i, s.lines[i].state, e).actions;
      && AllValid(c.m.topology[i], actions)
      && Windows.All(s'.lines[k])[f] + (if k == i && f == e then 1 else 0) ==
           Windows.All(s.lines[k])[f] + Gained(c.m.topology[i], i, e.time, actions, k, f)
      && (if k == i then s'.lines[i].state == c.m.handler(i, s.lines[i].state, e).state && s'.lines[i].time == e.time
                         && s'.lines[i].trace == s.lines[i].trace + [e]
          else s'.lines[k] == s.lines[k].(windowList := s'.lines[k].windowList))
  {
    var s := Windows.Last(run);
    Windows.RunInv(c, run);
    Windows.StillInWindow(c, s, i);
    Windows.WorkIsStep(c, s, i, e, s', s.lines[i].stopBefore);
    StepDelivers(c.m, Windows.Abs(s), i, e, k, f);
    assert s'.lines[k] == Windows.WorkLine(c, s, i, e, k);
  }

  /** In composite mode: on the list, in the window list and in the boxes together. */
  lemma CompositeDelivers(c: Appointments.Context, run: seq<Appointments.System>, i: nat, e: Event, s': Appointments.System, k: nat, f: Event)
    requires Appointments.ValidContext(c) && Appointments.IsRun(c, run) && Appointments.Work(c, Appointments.Last(run), i, e, s')
    requires k < |s'.lines| == |Appointments.Last(run).lines|
    ensures var s := Appointments.Last(run); var actions := c.m.handler(i, s.lines[i].state, e).actions;
      && AllValid(c.m.topology[i], actions)
      && Composite.Waiting(s', k)[f] + (if k == i && f == e then 1 else 0) ==
           Composite.Waiting(s, k)[f] + Gained(c.m.topology[i], i, e.time, actions, k, f)
  {
    var s := Appointments.Last(run);
    Appointments.Reachable(c, run);
    Composite.WorkIsStep(c, s, i, e, s');
    StepDelivers(c.m, Composite.Abs(s), i, e, k, f);
  }
}
