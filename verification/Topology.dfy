/**
 The static channel map of an S3F model after initialisation: timelines own entities,
 entities own out-channels, and every out-channel is mapped to in-channels. The minimum
 cross-timeline delay is computed by three nested accumulator loops (out-channel, entity,
 timeline); the contracts below say that the nesting equals one flat minimum over all
 mappings that cross timelines.
 */
module Topology {

  /** One `mapto` connection: the in-channel, its timeline, whether a VE proxy is attached to it, and the
      transfer delay of the connection. */
  datatype Mapping = Mapping(inChannel: nat, target: nat, ve: bool, transferDelay: int)

  datatype OutChannel = OutChannel(minWriteDelay: int, mappedTo: seq<Mapping>)

  datatype Entity = Entity(channels: seq<OutChannel>)

  /** Delays are non-negative, and those of a crossing are not both zero. */
  predicate ValidChannel(self: nat, oc: OutChannel)
  {
    && oc.minWriteDelay >= 0
    && forall m <- oc.mappedTo ::
         m.transferDelay >= 0 && (m.target != self ==> m.transferDelay + oc.minWriteDelay > 0)
  }

  predicate ValidTimeline(self: nat, entities: seq<Entity>)
  {
    forall e <- entities :: forall oc <- e.channels :: ValidChannel(self, oc)
  }

  /** The place of the mapping to an in-channel, or the number of mappings. */
  method FindMapping(mappings: seq<Mapping>, inChannel: nat) returns (i: nat)
    ensures i <= |mappings| && (i < |mappings| ==> mappings[i].inChannel == inChannel)
    ensures forall j :: 0 <= j < i ==> mappings[j].inChannel != inChannel
  {
    i := 0;
    while i < |mappings| && mappings[i].inChannel != inChannel
      invariant i <= |mappings| && forall j :: 0 <= j < i ==> mappings[j].inChannel != inChannel
    {
      i := i + 1;
    }
  }

  /** No in-channel is mapped twice. */
  ghost predicate OncePerChannel(oc: OutChannel)
  {
    forall i, j :: 0 <= i < j < |oc.mappedTo| ==> oc.mappedTo[i].inChannel != oc.mappedTo[j].inChannel
  }

  /** The channel at the end of the window, when the mappings that wait for it have been made. */
  function Flushed(oc: OutChannel, waiting: seq<Mapping>): OutChannel
  {
    oc.(mappedTo := oc.mappedTo + waiting)
  }

  /** The in-channel is mapped already, or will be. */
  ghost predicate Mapped(oc: OutChannel, inChannel: nat)
  {
    exists o <- oc.mappedTo :: o.inChannel == inChannel
  }

  /** OutChannel::mapto; `waiting` are the mappings of this channel that wait for the end of the window. It refuses a
      crossing without delay and a second mapping with another delay, so the channels it builds up are valid. While the
      timeline runs, a new mapping has to wait, and the horizon is the time it is made. */
  method MapTo(self: nat, oc: OutChannel, waiting: seq<Mapping>, m: Mapping, running: bool, now: nat, horizon: nat)
    returns (code: int, oc': OutChannel, waiting': seq<Mapping>)
    requires ValidChannel(self, Flushed(oc, waiting)) && OncePerChannel(Flushed(oc, waiting)) && m.transferDelay >= 0
    ensures ValidChannel(self, Flushed(oc', waiting')) && OncePerChannel(Flushed(oc', waiting'))
    ensures code == -1 <==>
      || (m.target != self && m.transferDelay == 0 && oc.minWriteDelay == 0)
      || (exists o <- Flushed(oc, waiting).mappedTo :: o.inChannel == m.inChannel && o.transferDelay != m.transferDelay)
    ensures code == -1 || Mapped(Flushed(oc, waiting), m.inChannel) ==> oc' == oc && waiting' == waiting && (code == -1 || code == now)
    ensures code != -1 && !Mapped(Flushed(oc, waiting), m.inChannel) ==>
      if running then code == horizon && oc' == oc && waiting' == waiting + [m]
      else code == now && oc' == oc.(mappedTo := oc.mappedTo + [m]) && waiting' == waiting
  {
    ghost var all := Flushed(oc, waiting).mappedTo;
    oc', waiting' := oc, waiting;
    if m.transferDelay == 0 && oc.minWriteDelay == 0 && m.target != self { return -1, oc, waiting; }
    var i := FindMapping(oc.mappedTo, m.inChannel);
    if i < |oc.mappedTo| {
      assert all[i] == oc.mappedTo[i] && all[i] in all;
      return if oc.mappedTo[i].transferDelay != m.transferDelay then -1 else now, oc, waiting;
    }
    i := FindMapping(waiting, m.inChannel);
    if i < |waiting| {
      assert all[|oc.mappedTo| + i] == waiting[i] && waiting[i] in all;
      return if waiting[i].transferDelay != m.transferDelay then -1 else now, oc, waiting;
    }
    assert forall o <- all :: o.inChannel != m.inChannel;
    if running {
      code, waiting' := horizon, waiting + [m];
      OneMore(oc.mappedTo + waiting, [], m);
      assert Flushed(oc', waiting').mappedTo == (oc.mappedTo + waiting) + [m] + [];
    } else {
      code, oc' := now, oc.(mappedTo := oc.mappedTo + [m]);
      OneMore(oc.mappedTo, waiting, m);
    }
  }

  lemma OneMore(a: seq<Mapping>, b: seq<Mapping>, m: Mapping)
    requires forall o <- a + b :: o.inChannel != m.inChannel
    requires forall i, j :: 0 <= i < j < |a + b| ==> (a + b)[i].inChannel != (a + b)[j].inChannel
    ensures forall o <- a + [m] + b :: o in a + b || o == m
    ensures var c := a + [m] + b; forall i, j :: 0 <= i < j < |c| ==> c[i].inChannel != c[j].inChannel
  {
    var c := a + [m] + b;
    forall i, j | 0 <= i < j < |c| ensures c[i].inChannel != c[j].inChannel {
      if i != |a| { assert c[i] == (a + b)[if i < |a| then i else i - 1]; }
      if j != |a| { assert c[j] == (a + b)[if j < |a| then j else j - 1]; }
    }
  }

  /** The total minimum delays of the cross-timeline mappings of an out-channel. */
  function ChannelDelays(self: nat, oc: OutChannel): set<int>
  {
    set m | m in oc.mappedTo && m.target != self :: m.transferDelay + oc.minWriteDelay
  }

  function EntityDelays(self: nat, e: Entity): set<int>
  {
    set oc, d | oc in e.channels && d in ChannelDelays(self, oc) :: d
  }

  /** The delays of every cross-timeline mapping that leaves this timeline, in one flat set. */
  function CrossDelays(self: nat, entities: seq<Entity>): set<int>
  {
    set e, d | e in entities && d in EntityDelays(self, e) :: d
  }

  function ChannelDelaysTo(oc: OutChannel, target: nat): set<int>
  {
    set m | m in oc.mappedTo && m.target == target :: m.transferDelay + oc.minWriteDelay
  }

  function EntityDelaysTo(e: Entity, target: nat): set<int>
  {
    set oc, d | oc in e.channels && d in ChannelDelaysTo(oc, target) :: d
  }

  /** The delays of the mappings that lead to timeline `target`. */
  function DelaysTo(entities: seq<Entity>, target: nat): set<int>
  {
    set e, d | e in entities && d in EntityDelaysTo(e, target) :: d
  }

  /** `r` is the least delay that is at least `thrs`, or -1 when there is none. */
  predicate LeastFrom(delays: set<int>, thrs: int, r: int)
  {
    if r < 0 then r == -1 && forall d <- delays :: d < thrs
    else r in delays && thrs <= r && forall d <- delays :: thrs <= d ==> r <= d
  }

  /** OutChannel::min_sync_cross_timeline_delay. */
  method ChannelMinDelay(self: nat, oc: OutChannel, thrs: int) returns (r: int)
    requires ValidChannel(self, oc)
    ensures LeastFrom(ChannelDelays(self, oc), thrs, r)
  {
    var end := |oc.mappedTo|;
    if end == 0 { return -1; }
    var ans := -1;
    var shifted := thrs - oc.minWriteDelay;
    for i := 0 to end
      invariant ans == -1 || (exists m <- oc.mappedTo[..i] :: m.target != self && m.transferDelay == ans >= 0 && shifted <= ans)
      invariant forall m <- oc.mappedTo[..i] :: m.target != self && shifted <= m.transferDelay ==> 0 <= ans <= m.transferDelay
    {
      var m := oc.mappedTo[i];
      assert oc.mappedTo[..i + 1] == oc.mappedTo[..i] + [m];
      var delay := m.transferDelay;
      if m.target != self && shifted <= delay && (delay < ans || ans < 0) {
        ans := delay;
      }
    }
    assert oc.mappedTo[..end] == oc.mappedTo;
    if ans == -1 { return -1; }
    r := ans + oc.minWriteDelay;
  }

  /** Entity::min_sync_cross_timeline_delay. */
  method EntityMinDelay(self: nat, e: Entity, thrs: int) returns (r: int)
    requires forall oc <- e.channels :: ValidChannel(self, oc)
    ensures LeastFrom(EntityDelays(self, e), thrs, r)
  {
    r := -1;
    for i := 0 to |e.channels|
      invariant r == -1 || (r >= 0 && thrs <= r && exists oc <- e.channels[..i] :: r in ChannelDelays(self, oc))
      invariant forall oc <- e.channels[..i] :: forall d <- ChannelDelays(self, oc) :: thrs <= d ==> 0 <= r <= d
    {
      var oc := e.channels[i];
      assert e.channels[..i + 1] == e.channels[..i] + [oc];
      var least := ChannelMinDelay(self, oc, thrs);
      if -1 < least && thrs <= least && (r < 0 || least < r) {
        r := least;
      }
    }
    assert e.channels[..|e.channels|] == e.channels;
  }

  /** Timeline::min_sync_cross_timeline_delay. */
  method TimelineMinDelay(self: nat, entities: seq<Entity>, thrs: int) returns (r: int)
    requires ValidTimeline(self, entities)
    ensures LeastFrom(CrossDelays(self, entities), thrs, r)
  {
    r := -1;
    for i := 0 to |entities|
      invariant r == -1 || (r >= 0 && thrs <= r && exists e <- entities[..i] :: r in EntityDelays(self, e))
      invariant forall e <- entities[..i] :: forall d <- EntityDelays(self, e) :: thrs <= d ==> 0 <= r <= d
    {
      var e := entities[i];
      assert entities[..i + 1] == entities[..i] + [e];
      var least := EntityMinDelay(self, e, thrs);
      if least != -1 {
        if thrs <= least && (r < 0 || least < r) {
          r := least;
        }
      }
    }
    assert entities[..|entities|] == entities;
  }

  /** The delays of every cross-timeline mapping of the model. */
  function AllDelays(topology: seq<seq<Entity>>): set<int>
  {
    set t, d | 0 <= t < |topology| && d in CrossDelays(t, topology[t]) :: d
  }

  /** The delay part of Interface::InitModel: the window threshold (0, or in composite mode the number of
      timelines times the least crossing delay of the model), and for every timeline its least crossing
      delay from that threshold up. */
  method InitModel(topology: seq<seq<Entity>>, composite: bool) returns (thrs: int, mins: seq<int>)
    requires forall t :: 0 <= t < |topology| ==> ValidTimeline(t, topology[t])
    ensures composite ==> exists least :: LeastFrom(AllDelays(topology), -1, least) && thrs == |topology| * least
    ensures !composite ==> thrs == 0
    ensures |mins| == |topology|
    ensures forall t :: 0 <= t < |topology| ==> LeastFrom(CrossDelays(t, topology[t]), thrs, mins[t])
  {
    var mxtd := -1;
    for t := 0 to |topology|
      invariant mxtd == -1 || (mxtd >= 0 && exists u :: 0 <= u < t && mxtd in CrossDelays(u, topology[u]))
      invariant forall u :: 0 <= u < t ==> forall d <- CrossDelays(u, topology[u]) :: -1 <= d ==> 0 <= mxtd <= d
    {
      var least := TimelineMinDelay(t, topology[t], -1);
      if least != -1 && (mxtd < 0 || least < mxtd) {
        mxtd := least;
      }
    }
    CrossingsPositive(topology);
    assert LeastFrom(AllDelays(topology), -1, mxtd);
    thrs := if composite then |topology| * mxtd else 0;
    mins := [];
    for t := 0 to |topology|
      invariant |mins| == t
      invariant forall u :: 0 <= u < t ==> LeastFrom(CrossDelays(u, topology[u]), thrs, mins[u])
    {
      var least := TimelineMinDelay(t, topology[t], thrs);
      mins := mins + [least];
    }
  }

  /** So every crossing delay is positive. */
  lemma CrossingsPositive(topology: seq<seq<Entity>>)
    requires forall t :: 0 <= t < |topology| ==> ValidTimeline(t, topology[t])
    ensures forall d <- AllDelays(topology) :: d > 0
  {
  }

  // ----- The lookahead between timelines

  /** `r'` is the least of `delays` and `r`, where -1 stands for none. */
  predicate Lowered(delays: set<int>, r: int, r': int)
  {
    && (r' == r || r' in delays)
    && (forall d <- delays :: 0 <= r' <= d)
    && (0 <= r ==> 0 <= r' <= r)
  }

  ghost predicate TargetsBelow(oc: OutChannel, n: nat)
  {
    forall m <- oc.mappedTo :: m.target < n
  }

  /** The mappings of one out-channel. */
  method LookChannel(self: nat, oc: OutChannel, look: seq<int>) returns (look': seq<int>)
    requires ValidChannel(self, oc) && TargetsBelow(oc, |look|) && self < |look|
    ensures |look'| == |look| && look'[self] == look[self]
    ensures forall j: nat :: j < |look| && j != self ==> Lowered(ChannelDelaysTo(oc, j), look[j], look'[j])
  {
    look' := look;
    for k := 0 to |oc.mappedTo|
      invariant |look'| == |look| && look'[self] == look[self]
      invariant forall j: nat :: j < |look| && j != self ==>
        Lowered(ChannelDelaysTo(oc.(mappedTo := oc.mappedTo[..k]), j), look[j], look'[j])
    {
      var m := oc.mappedTo[k];
      ghost var before := look';
      if m.target != self {
        var lookahead := oc.minWriteDelay + m.transferDelay;
        if look'[m.target] < 0 || lookahead < look'[m.target] {
          look' := look'[m.target := lookahead];
        }
      }
      forall j: nat | j < |look| && j != self
        ensures Lowered(ChannelDelaysTo(oc.(mappedTo := oc.mappedTo[..k + 1]), j), look[j], look'[j])
      {
        var d := if m.target == j then {m.transferDelay + oc.minWriteDelay} else {};
        LoweredTwice(ChannelDelaysTo(oc.(mappedTo := oc.mappedTo[..k]), j), d, look[j], before[j], look'[j]);
        ChannelDelaysPush(oc, k, j);
      }
    }
    assert oc.mappedTo[..|oc.mappedTo|] == oc.mappedTo;
  }

  lemma LoweredTwice(a: set<int>, b: set<int>, r: int, r': int, r'': int)
    requires Lowered(a, r, r') && Lowered(b, r', r'')
    ensures Lowered(a + b, r, r'')
  {
  }

  /** The out-channels of one entity. */
  method LookEntity(self: nat, e: Entity, look: seq<int>) returns (look': seq<int>)
    requires forall oc <- e.channels :: ValidChannel(self, oc) && TargetsBelow(oc, |look|)
    requires self < |look|
    ensures |look'| == |look| && look'[self] == look[self]
    ensures forall j: nat :: j < |look| && j != self ==> Lowered(EntityDelaysTo(e, j), look[j], look'[j])
  {
    look' := look;
    for k := 0 to |e.channels|
      invariant |look'| == |look| && look'[self] == look[self]
      invariant forall j: nat :: j < |look| && j != self ==> Lowered(EntityDelaysTo(Entity(e.channels[..k]), j), look[j], look'[j])
    {
      ghost var before := look';
      look' := LookChannel(self, e.channels[k], look');
      forall j: nat | j < |look| && j != self
        ensures Lowered(EntityDelaysTo(Entity(e.channels[..k + 1]), j), look[j], look'[j])
      {
        LoweredTwice(EntityDelaysTo(Entity(e.channels[..k]), j), ChannelDelaysTo(e.channels[k], j), look[j], before[j], look'[j]);
        EntityDelaysPush(e, k, j);
      }
    }
    assert e.channels[..|e.channels|] == e.channels;
  }

  lemma ChannelDelaysPush(oc: OutChannel, k: nat, j: nat)
    requires k < |oc.mappedTo|
    ensures var m := oc.mappedTo[k];
      ChannelDelaysTo(oc.(mappedTo := oc.mappedTo[..k + 1]), j) ==
      ChannelDelaysTo(oc.(mappedTo := oc.mappedTo[..k]), j) + (if m.target == j then {m.transferDelay + oc.minWriteDelay} else {})
  {
    assert oc.mappedTo[..k + 1] == oc.mappedTo[..k] + [oc.mappedTo[k]];
  }

  lemma EntityDelaysPush(e: Entity, k: nat, j: nat)
    requires k < |e.channels|
    ensures EntityDelaysTo(Entity(e.channels[..k + 1]), j) == EntityDelaysTo(Entity(e.channels[..k]), j) + ChannelDelaysTo(e.channels[k], j)
  {
    assert e.channels[..k + 1] == e.channels[..k] + [e.channels[k]];
  }

  lemma DelaysPush(entities: seq<Entity>, k: nat, j: nat)
    requires k < |entities|
    ensures DelaysTo(entities[..k + 1], j) == DelaysTo(entities[..k], j) + EntityDelaysTo(entities[k], j)
  {
    assert entities[..k + 1] == entities[..k] + [entities[k]];
  }

  /** The first loop of Timeline::initialize_appt: the least delay towards every other timeline, or -1. */
  method Lookaheads(self: nat, entities: seq<Entity>, n: nat) returns (look: seq<int>)
    requires ValidTimeline(self, entities) && self < n
    requires forall e <- entities :: forall oc <- e.channels :: TargetsBelow(oc, n)
    ensures |look| == n && look[self] == -1
    ensures forall j: nat :: j < n && j != self ==> LeastFrom(DelaysTo(entities, j), 0, look[j])
  {
    look := seq(n, j => -1);
    for k := 0 to |entities|
      invariant |look| == n && look[self] == -1
      invariant forall j: nat :: j < n && j != self ==> Lowered(DelaysTo(entities[..k], j), -1, look[j])
    {
      ghost var before := look;
      look := LookEntity(self, entities[k], look);
      forall j: nat | j < n && j != self ensures Lowered(DelaysTo(entities[..k + 1], j), -1, look[j]) {
        LoweredTwice(DelaysTo(entities[..k], j), EntityDelaysTo(entities[k], j), -1, before[j], look[j]);
        DelaysPush(entities, k, j);
      }
    }
    assert entities[..|entities|] == entities;
  }
}
