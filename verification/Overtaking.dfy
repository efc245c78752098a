/**
 Why composite runs need more than the absence of ties to be sequential: arrivals by appointment are picked up
 after the events of the same instant have been executed, even if they come before them in the order of the event
 list. The smallest run in which that happens.
 */
module Overtaking {
  import opened Topology
  import opened Simulator
  import opened Appointments
  import MutexBarrier
  import Composite

  const Faster := Mapping(0, 1, false, 0)
  const Channel := OutChannel(1, [Faster])
  const Sender := Entity([Channel])
  const AB := Pair(0, 1)
  const Opening := Event(0, 0, false, [])
  const Timeout := Event(1, 5, false, [])
  const Arrival := Event(1, 0, false, [])

  /** One channel from timeline 0 to timeline 1 that takes one tick, which every event of timeline 0 writes to. */
  ghost function RawExample(): RawModel
  {
    Model([[Sender], []], (t, s, e) => if t == 0 then Outcome([], [Write(0, 0, 0, [])]) else Outcome([], []))
  }

  lemma ExampleHandler(t: nat, s: Data, e: Event)
    requires t < 2
    ensures var m := RawExample(); forall a <- m.handler(t, s, e).actions :: ValidAction(m.topology[t], a)
  {
  }

  lemma ExampleTopology()
    ensures ValidTimeline(0, [Sender]) && ValidTimeline(1, [])
    ensures forall e, oc, m :: e in [Sender] && oc in e.channels && m in oc.mappedTo ==> m.target < 2
  {
  }

  lemma ExampleIsValid()
    ensures ValidModel(RawExample())
  {
    var m := RawExample();
    ExampleTopology();
    assert m.topology[0] == [Sender] && m.topology[1] == [];
    forall t: nat, s: Data, e: Event | t < |m.topology|
      ensures forall a <- m.handler(t, s, e).actions :: ValidAction(m.topology[t], a)
    {
      ExampleHandler(t, s, e);
    }
    forall t | 0 <= t < |m.topology| ensures ValidTimeline(t, m.topology[t]) {
      assert t == 0 || t == 1;
    }
    forall t, e, oc, map' | 0 <= t < |m.topology| && e in m.topology[t] && oc in e.channels && map' in oc.mappedTo
      ensures map'.target < |m.topology|
    {
      assert t == 0 || t == 1;
    }
  }

  /** A context with this channel, the threshold of composite mode, and no synchronous crossing. */
  ghost predicate Example(c: Context)
  {
    && c.m.topology == [[Sender], []] && c.thrs == 2 && c.mins == [-1, -1]
    && (forall s, e :: c.m.handler(0, s, e) == Outcome([], [Write(0, 0, 0, [])]))
    && (forall s, e :: c.m.handler(1, s, e) == Outcome([], []))
  }

  lemma ExampleExists() returns (c: Context)
    ensures Example(c)
  {
    ExampleIsValid();
    c := Context(RawExample(), 2, [-1, -1]);
  }

  lemma ExampleDelays()
    ensures CrossDelays(0, [Sender]) == {1} && DelaysTo([Sender], 1) == {1}
    ensures CrossDelays(1, []) == {} && forall j: nat :: DelaysTo([], j) == {}
  {
    assert Faster in Channel.mappedTo;
    assert ChannelDelays(0, Channel) == {1} && ChannelDelaysTo(Channel, 1) == {1};
    assert Channel in Sender.channels;
    assert EntityDelays(0, Sender) == {1} && EntityDelaysTo(Sender, 1) == {1};
    assert Sender in [Sender];
  }

  lemma ExampleIsWired(c: Context, p: Pair)
    requires Example(c)
    ensures ValidContext(c) && IsLook(c, AB, 1) && (Linked(c, p) <==> p == AB)
  {
    ExampleDelays();
    assert c.m.topology[0] == [Sender] && c.m.topology[1] == [];
    assert 1 in DelaysTo([Sender], 1);
  }

  lemma ExamplePosts()
    ensures forall a <- [Write(0, 0, 0, [])] :: ValidAction([Sender], a)
    ensures Posts([Sender], 0, 0, [Write(0, 0, 0, [])]) == [Post(1, Arrival, 1)]
  {
    var actions: seq<Action> := [Write(0, 0, 0, [])];
    assert actions[1..] == [];
    assert ActionPosts([Sender], 0, 0, actions[0]) == [Post(1, Arrival, 1)];
    assert Posts([Sender], 0, 0, actions[1..]) == [];
  }

  ghost function Waiting(): System
  {
    System([Timeline([], 0, multiset{Opening}, multiset{}, AtBarrier, [], 0),
            Timeline([], 0, multiset{Timeout}, multiset{}, AtBarrier, [], 0)],
           map[AB := Link(1, 1, 1, -1, multiset{})], 0)
  }

  ghost function Started(): System
  {
    System([Timeline([], 0, multiset{Opening}, multiset{}, Free, [], 0),
            Timeline([], 0, multiset{Timeout}, multiset{}, Free, [], 1)],
           map[AB := Link(1, 1, 1, -1, multiset{})], 2)
  }

  ghost function TimedOut(): System
  {
    System([Timeline([], 0, multiset{Opening}, multiset{}, Free, [], 0),
            Timeline([], 1, multiset{}, multiset{}, Free, [Timeout], 1)],
           map[AB := Link(1, 1, 1, -1, multiset{})], 2)
  }

  ghost function Overtaken(): System
  {
    System([Timeline([], 0, multiset{}, multiset{}, Free, [Opening], 0),
            Timeline([], 1, multiset{}, multiset{}, Free, [Timeout], 1)],
           map[AB := Link(1, 1, 1, -1, multiset{Arrival})], 2)
  }

  lemma ExampleInit(c: Context)
    requires Example(c)
    ensures Init(c, Waiting())
  {
    var s := Waiting();
    ExampleIsWired(c, AB);
    forall p ensures p in s.links <==> Linked(c, p) {
      ExampleIsWired(c, p);
    }
    forall i | 0 <= i < 2 ensures s.lines[i].clock == 0 {
      assert i == 0 || i == 1;
    }
  }

  lemma ExampleNext()
    ensures IsNextTime(Waiting(), 0, 0) && IsNextTime(Waiting(), 1, 1)
  {
    var s := Waiting();
    assert Opening in s.lines[0].pend + s.lines[0].windowList && Timeout in s.lines[1].pend + s.lines[1].windowList;
  }

  lemma ExampleMin(c: Context)
    requires Example(c)
    ensures |Waiting().lines| == |c.mins| == 2 && MutexBarrier.IsRoundMin(Offers(c, Waiting(), [0, 1]), 2)
  {
    var offers := Offers(c, Waiting(), [0, 1]);
    assert 0 in offers && offers[0] == 2 && offers[1] == 3;
  }

  lemma ExampleWindow(c: Context)
    requires Example(c)
    ensures WindowStep(c, Waiting(), Started())
  {
    var s, s' := Waiting(), Started();
    ExampleNext();
    ExampleMin(c);
    forall i | 0 <= i < 2 ensures s.lines[i].mode == AtBarrier && IsNextTime(s, i, [0, 1][i]) && s'.lines[i] == Entered(s.lines[i], [0, 1][i], 2) {
      assert i == 0 || i == 1;
      assert multiset{Opening} + multiset{} == multiset{Opening} && multiset{Timeout} + multiset{} == multiset{Timeout};
    }
    assert Window(c, s, [0, 1], 2, 10, s');
  }

  lemma ExampleTimeout(c: Context)
    requires Example(c)
    ensures Work(c, Started(), 1, Timeout, TimedOut())
  {
    var s, s' := Started(), TimedOut();
    assert Sent(c, s, 1, Timeout) == [];
    assert s'.lines[0] == WorkLine(c, s, 1, Timeout, 0) && s'.lines[1] == WorkLine(c, s, 1, Timeout, 1);
  }

  lemma OnePost(p: Post, k: nat, horizon: int, thrs: int)
    ensures To([p], k) == if p.target == k then multiset{p.event} else multiset{}
    ensures Late([p], k, horizon) == if p.target == k && horizon <= p.event.time then multiset{p.event} else multiset{}
    ensures Soon([p], k, horizon, thrs) == if p.target == k && p.event.time < horizon && p.delay < thrs then multiset{p.event} else multiset{}
  {
    assert [p][1..] == [];
  }

  lemma ExampleSends(c: Context)
    requires Example(c)
    ensures |TimedOut().lines| == |c.m.topology| == 2 && Sent(c, TimedOut(), 0, Opening) == [Post(1, Arrival, 1)]
  {
    ExamplePosts();
  }

  lemma ExampleOpening(c: Context)
    requires Example(c)
    ensures Work(c, TimedOut(), 0, Opening, Overtaken())
  {
    var s, s' := TimedOut(), Overtaken();
    ExampleSends(c);
    OnePost(Post(1, Arrival, 1), 0, 2, 2);
    OnePost(Post(1, Arrival, 1), 1, 2, 2);
    assert s'.lines[0] == WorkLine(c, s, 0, Opening, 0) && s'.lines[1] == WorkLine(c, s, 0, Opening, 1);
    assert s'.links[AB] == WorkLink(c, s, 0, Opening, AB);
  }

  lemma ExampleSteps(c: Context)
    requires Example(c)
    ensures Next(c, Waiting(), Started()) && Next(c, Started(), TimedOut()) && Next(c, TimedOut(), Overtaken())
  {
    ExampleWindow(c);
    ExampleTimeout(c);
    ExampleOpening(c);
    assert Works(c, Started(), 1, TimedOut()) && Works(c, TimedOut(), 0, Overtaken());
    assert LineStep(c, Started(), 1, TimedOut()) && LineStep(c, TimedOut(), 0, Overtaken());
  }

  lemma StartAbs()
    ensures Composite.Abs(Waiting()) == Pristine()
  {
    var s := Waiting();
    forall k: nat | k < 2 ensures Composite.Boxes(s.links, k, 2) == multiset{} {
      assert Composite.Boxes(s.links, k, 1) == Composite.Boxes(s.links, k, 0) == multiset{};
    }
    assert Composite.Waiting(s, 0) == multiset{Opening} && Composite.Waiting(s, 1) == multiset{Timeout};
  }

  // ----- What the sequential simulator does

  lemma {:induction false} TraceGrows(m: Model, g: Config, path: seq<nat>, k: nat)
    requires ValidPath(m, g, path) && k < |g|
    ensures g[k].trace <= Run(m, g, path)[k].trace
    decreases |path|
  {
    if path != [] {
      TraceGrows(m, Exec(m, g, path[0]), path[1..], k);
      assert Exec(m, g, path[0])[k] == ExecLine(m, g, path[0], k);
    }
  }

  ghost function Pristine(): Config
  {
    [Line([], multiset{Opening}, []), Line([], multiset{Timeout}, [])]
  }

  ghost function Posted(): Config
  {
    [Line([], multiset{}, [Opening]), Line([], multiset{Timeout, Arrival}, [])]
  }

  lemma OpeningIsLeast(i: nat)
    requires HoldsLeast(Pristine(), i)
    ensures i == 0 && MinEvent(Pristine()[0].pend) == Opening
  {
    var g := Pristine();
    assert Opening in g[0].pend;
    assert Leq(MinEvent(g[i].pend), Opening);
    assert MinEvent(g[i].pend) in g[i].pend;
  }

  lemma FirstStep(c: Context, i: nat)
    requires Example(c) && HoldsLeast(Pristine(), i) && CanStep(c.m, Pristine(), i)
    ensures i == 0 && Exec(c.m, Pristine(), i) == Posted()
  {
    var g := Pristine();
    OpeningIsLeast(i);
    ExamplePosts();
    OnePost(Post(1, Arrival, 1), 0, 2, 2);
    OnePost(Post(1, Arrival, 1), 1, 2, 2);
    assert StepPosts(c.m, g, 0) == [Post(1, Arrival, 1)];
    assert ExecLine(c.m, g, 0, 0) == Posted()[0];
    assert ExecLine(c.m, g, 0, 1) == Posted()[1];
  }

  lemma SecondStep(c: Context, i: nat)
    requires Example(c) && CanStep(c.m, Posted(), i)
    ensures i == 1 && Exec(c.m, Posted(), i)[1].trace == [Arrival]
  {
    var g := Posted();
    assert Arrival in g[1].pend && MinEvent(g[1].pend) == Arrival;
    assert Exec(c.m, g, 1)[1] == ExecLine(c.m, g, 1, 1);
  }

  /** Whatever a sequential run has executed on timeline 1, the arrival was first. */
  lemma ArrivalIsFirst(c: Context, sigma: seq<nat>)
    requires Example(c) && Sequential(c.m, Pristine(), sigma)
    ensures ValidPath(c.m, Pristine(), sigma)
    ensures var trace := Run(c.m, Pristine(), sigma)[1].trace; trace == [] || trace[0] == Arrival
  {
    SequentialIsValid(c.m, Pristine(), sigma);
    if sigma != [] {
      FirstStep(c, sigma[0]);
      var rest := sigma[1..];
      if rest != [] {
        SecondStep(c, rest[0]);
        TraceGrows(c.m, Exec(c.m, Posted(), rest[0]), rest[1..], 1);
      }
    }
  }

  /**
   A run without ties in which timeline 1 executes an event, and only then an event arrives from timeline 0, at the
   same instant, that comes before it: no sequential run gets to where timeline 1 has executed what it has.
   */
  lemma OvertakenExample() returns (c: Context, run: seq<System>)
    ensures ValidContext(c) && IsRun(c, run) && |Last(run).lines| == |run[0].lines| == 2
    ensures var s := Last(run); AB in s.links && s.links[AB].box == multiset{Arrival} && Before(Arrival, Timeout)
    ensures forall sigma :: Sequential(c.m, Composite.Abs(run[0]), sigma) ==>
      && ValidPath(c.m, Composite.Abs(run[0]), sigma)
      && Run(c.m, Composite.Abs(run[0]), sigma)[1].trace != Last(run).lines[1].trace
  {
    c := ExampleExists();
    var g := Composite.Abs(Waiting());
    StartAbs();
    forall sigma | Sequential(c.m, g, sigma) ensures ValidPath(c.m, g, sigma) && Run(c.m, g, sigma)[1].trace != [Timeout] {
      ArrivalIsFirst(c, sigma);
    }
    ExampleIsWired(c, AB);
    ExampleInit(c);
    ExampleSteps(c);
    run := [Waiting()];
    RunPush(c, run, Started());
    run := run + [Started()];
    RunPush(c, run, TimedOut());
    run := run + [TimedOut()];
    RunPush(c, run, Overtaken());
    run := run + [Overtaken()];
  }
}
