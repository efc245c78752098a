/**
 The combining-tree barrier in its sched_yield form: arrivals climb a tree of arity four by atomic
 increments, releases descend a binary tree by writing a one-bit sense. Every shared access is a transition
 of its own, so a run is any interleaving of any number of threads over any number of rounds. The reductions
 that ride on the barrier are not modelled.
 */
module TreeBarrier {

  const ARRIVAL_CHILDREN := 4
  const RELEASE_CHILDREN := 2

  /** Where a thread stands in `wait`; `Release(k)` has written the sense of its first `k` release children. */
  datatype Pc = Outside | Collect | Reset | Signal | Await | Release(done: nat)

  /** The thread's own sense, and (history) how many calls of `wait` it has completed. */
  datatype Thread = Thread(pc: Pc, sense: int, round: nat)

  datatype Node = Node(sense: int, arrivalCount: int)

  datatype System = System(nodes: seq<Node>, threads: seq<Thread>)

  function ArrivalParent(i: nat): nat
    requires i > 0
  {
    (i - 1) / ARRIVAL_CHILDREN
  }

  function ReleaseParent(i: nat): nat
    requires i > 0
  {
    (i - 1) / RELEASE_CHILDREN
  }

  /** How many of the first `k` arrival children of node `i` exist. */
  function Expected(n: nat, i: nat, k: nat): nat
  {
    if k == 0 then 0
    else Expected(n, i, k - 1) + if ARRIVAL_CHILDREN * i + k < n then 1 else 0
  }

  ghost predicate Init(s: System)
  {
    && |s.nodes| == |s.threads| > 0
    && (forall i :: 0 <= i < |s.nodes| ==> s.nodes[i] == Node(0, 0))
    && (forall i :: 0 <= i < |s.threads| ==> s.threads[i] == Thread(Outside, 1, 0))
  }

  // ----- Transitions of thread `i`

  function SetPc(s: System, i: nat, pc: Pc): System
    requires i < |s.threads|
  {
    s.(threads := s.threads[i := s.threads[i].(pc := pc)])
  }

  predicate Enabled(s: System, i: nat)
    requires i < |s.threads| == |s.nodes|
  {
    match s.threads[i].pc
    case Collect => s.nodes[i].arrivalCount >= Expected(|s.threads|, i, ARRIVAL_CHILDREN)
    case Await => s.nodes[i].sense == s.threads[i].sense
    case _ => true
  }

  function Step(s: System, i: nat): System
    requires i < |s.threads| == |s.nodes| && Enabled(s, i)
  {
    var th := s.threads[i];
    match th.pc
    case Outside => SetPc(s, i, Collect)
    case Collect => SetPc(s, i, Reset)
    case Reset =>
      SetPc(s, i, if i != 0 then Signal else Release(0)).(nodes := s.nodes[i := s.nodes[i].(arrivalCount := 0)])
    case Signal =>
      if i == 0 then SetPc(s, i, Await)
      else
        var p := ArrivalParent(i);
        SetPc(s, i, Await).(nodes := s.nodes[p := s.nodes[p].(arrivalCount := s.nodes[p].arrivalCount + 1)])
    case Await => SetPc(s, i, Release(0))
    case Release(k) =>
      if k < RELEASE_CHILDREN then
        var c := RELEASE_CHILDREN * i + k + 1;
        SetPc(s, i, Release(k + 1)).(nodes := if c < |s.nodes| then s.nodes[c := s.nodes[c].(sense := th.sense)] else s.nodes)
      else
        s.(threads := s.threads[i := Thread(Outside, 1 - th.sense, th.round + 1)])
  }

  ghost predicate Next(s: System, s': System)
  {
    exists i: nat :: i < |s.threads| == |s.nodes| && Enabled(s, i) && s' == Step(s, i)
  }

  ghost predicate IsRun(run: seq<System>)
  {
    |run| > 0 && Init(run[0]) && forall k :: 0 <= k < |run| - 1 ==> Next(run[k], run[k + 1])
  }

  ghost function Last(run: seq<System>): System
    requires |run| > 0
  {
    run[|run| - 1]
  }

  // ----- Counters over whole runs, as functions of the program counters

  /** Calls of `wait` the thread has begun. */
  function Entered(th: Thread): nat
  {
    if th.pc.Outside? then th.round else th.round + 1
  }

  /** Times the thread has cleared its arrival count. */
  function Resets(th: Thread): nat
  {
    if th.pc.Signal? || th.pc.Await? || th.pc.Release? then th.round + 1 else th.round
  }

  /** Times the thread has told its arrival parent (or, for the root, found everybody arrived). */
  function Arrivals(th: Thread): nat
  {
    if th.pc.Await? || th.pc.Release? then th.round + 1 else th.round
  }

  /** Times the thread has got past the barrier. */
  function Passed(th: Thread): nat
  {
    if th.pc.Release? then th.round + 1 else th.round
  }

  /** Times the sense of node `c` has been written by its release parent. */
  function Releases(s: System, c: nat): nat
    requires 0 < c < |s.threads|
  {
    var p := s.threads[ReleaseParent(c)];
    if p.pc.Release? && p.pc.done > (c - 1) % RELEASE_CHILDREN then p.round + 1 else p.round
  }

  /** Arrivals of the first `k` children of node `i` that node `i` has not cleared yet. */
  function Uncleared(s: System, i: nat, k: nat): int
    requires i < |s.threads|
  {
    if k == 0 then 0
    else
      var c := ARRIVAL_CHILDREN * i + k;
      Uncleared(s, i, k - 1) + if c < |s.threads| then Arrivals(s.threads[c]) - Resets(s.threads[i]) else 0
  }

  // ----- The invariant

  ghost predicate ThreadOk(s: System, i: nat)
    requires i < |s.threads| == |s.nodes|
  {
    var th := s.threads[i];
    && th.sense == (th.round + 1) % 2
    && (th.pc.Signal? || th.pc.Await? ==> i != 0)
    && (th.pc.Release? ==> th.pc.done <= RELEASE_CHILDREN)
    && s.nodes[i].arrivalCount == Uncleared(s, i, ARRIVAL_CHILDREN)
    && (i > 0 ==> && s.nodes[i].sense == Releases(s, i) % 2
                  && Passed(th) <= Releases(s, i)
                  && ChildAhead(th, s.threads[ArrivalParent(i)]))
  }

  /** A child has arrived as often as its parent has cleared its count, and once more while the parent,
      having seen everybody, is about to clear it. */
  predicate ChildAhead(child: Thread, parent: Thread)
  {
    Arrivals(child) >= if parent.pc.Reset? then parent.round + 1 else Resets(parent)
  }

  ghost predicate Inv(s: System)
  {
    |s.nodes| == |s.threads| > 0 && forall i :: 0 <= i < |s.threads| ==> ThreadOk(s, i)
  }

  /** The release tree orders the threads below the root, and the arrival tree above it. */
  lemma {:induction false} RootBetween(s: System, i: nat)
    requires Inv(s) && i < |s.threads|
    ensures Passed(s.threads[i]) <= Passed(s.threads[0]) <= Arrivals(s.threads[0]) <= Arrivals(s.threads[i])
    ensures Arrivals(s.threads[i]) <= Arrivals(s.threads[0]) + 1
  {
    assert ThreadOk(s, i) && ThreadOk(s, 0);
    if i > 0 {
      RootBetween(s, ReleaseParent(i));
      RootBetween(s, ArrivalParent(i));
    }
  }

  /** Every uncleared arrival is worth zero or one, so the count never exceeds what is expected. */
  lemma {:induction false} UnclearedBounds(s: System, i: nat, k: nat)
    requires Inv(s) && i < |s.threads| && k <= ARRIVAL_CHILDREN
    ensures 0 <= Uncleared(s, i, k) <= Expected(|s.threads|, i, k)
    ensures Uncleared(s, i, k) == Expected(|s.threads|, i, k) ==>
      forall c :: 0 < c <= ARRIVAL_CHILDREN * i + k && c < |s.threads| && ArrivalParent(c) == i ==>
        Arrivals(s.threads[c]) == Resets(s.threads[i]) + 1
  {
    if k > 0 {
      UnclearedBounds(s, i, k - 1);
      var c := ARRIVAL_CHILDREN * i + k;
      if c < |s.threads| {
        assert ArrivalParent(c) == i;
        assert ThreadOk(s, c);
        RootBetween(s, c);
        RootBetween(s, i);
      }
    }
  }

  /** What the senses say: an awaiting thread is let go exactly when it was released in its own round. */
  lemma SenseMeansRound(s: System, i: nat)
    requires Inv(s) && i < |s.threads| && s.threads[i].pc.Await?
    ensures i > 0
    ensures Enabled(s, i) <==> Releases(s, i) == s.threads[i].round + 1
  {
    assert ThreadOk(s, i);
    RootBetween(s, i);
    RootBetween(s, ReleaseParent(i));
  }

  // ----- Every transition keeps the invariant

  lemma {:induction false} UnclearedFrame(s: System, s': System, i: nat, k: nat)
    requires i < |s.threads| == |s'.threads|
    requires forall c :: 0 <= c < |s.threads| ==>
      Arrivals(s'.threads[c]) == Arrivals(s.threads[c]) && Resets(s'.threads[c]) == Resets(s.threads[c])
    ensures Uncleared(s', i, k) == Uncleared(s, i, k)
  {
    if k > 0 {
      UnclearedFrame(s, s', i, k - 1);
    }
  }

  lemma LeaveKeepsThread(s: System, i: nat, k: nat)
    requires Inv(s) && i < |s.threads| && s.threads[i].pc.Release? && s.threads[i].pc.done == RELEASE_CHILDREN && k < |s.threads|
    ensures ThreadOk(Step(s, i), k)
  {
    var s' := Step(s, i);
    assert ThreadOk(s, i) && ThreadOk(s, k);
    UnclearedFrame(s, s', k, ARRIVAL_CHILDREN);
    assert k > 0 ==> Releases(s', k) == Releases(s, k);
  }

  lemma LeaveKeeps(s: System, i: nat)
    requires Inv(s) && i < |s.threads| && s.threads[i].pc.Release? && s.threads[i].pc.done == RELEASE_CHILDREN
    ensures Inv(Step(s, i))
  {
    var s' := Step(s, i);
    forall k | 0 <= k < |s.threads| ensures ThreadOk(s', k) {
      LeaveKeepsThread(s, i, k);
    }
  }

  lemma ReleaseKeepsThread(s: System, i: nat, k: nat)
    requires Inv(s) && i < |s.threads| && s.threads[i].pc.Release? && s.threads[i].pc.done < RELEASE_CHILDREN && k < |s.threads|
    ensures ThreadOk(Step(s, i), k)
  {
    var s' := Step(s, i);
    assert ThreadOk(s, i) && ThreadOk(s, k);
    var c := RELEASE_CHILDREN * i + s.threads[i].pc.done + 1;
    UnclearedFrame(s, s', k, ARRIVAL_CHILDREN);
    assert k > 0 ==> Releases(s', k) == if k == c then s.threads[i].round + 1 else Releases(s, k);
  }

  /** Releasing a child and leaving move no counter of the arrival tree. */
  lemma ReleaseKeeps(s: System, i: nat)
    requires Inv(s) && i < |s.threads| && s.threads[i].pc.Release? && s.threads[i].pc.done < RELEASE_CHILDREN
    ensures Inv(Step(s, i))
  {
    var s' := Step(s, i);
    forall k | 0 <= k < |s.threads| ensures ThreadOk(s', k) {
      ReleaseKeepsThread(s, i, k);
    }
  }

  /** Neither do entering, seeing the full count, and being let go. */
  lemma EnterKeepsThread(s: System, i: nat, k: nat)
    requires Inv(s) && i < |s.threads| && s.threads[i].pc.Outside? && k < |s.threads|
    ensures ThreadOk(Step(s, i), k)
  {
    var s' := Step(s, i);
    assert ThreadOk(s, i) && ThreadOk(s, k);
    UnclearedFrame(s, s', k, ARRIVAL_CHILDREN);
    assert k > 0 ==> Releases(s', k) == Releases(s, k);
  }

  lemma LetGoKeepsThread(s: System, i: nat, k: nat)
    requires Inv(s) && i < |s.threads| && s.threads[i].pc.Await? && Enabled(s, i) && k < |s.threads|
    ensures ThreadOk(Step(s, i), k)
  {
    var s' := Step(s, i);
    assert ThreadOk(s, i) && ThreadOk(s, k);
    SenseMeansRound(s, i);
    UnclearedFrame(s, s', k, ARRIVAL_CHILDREN);
    assert k > 0 ==> Releases(s', k) == Releases(s, k);
  }

  /** A thread that sees the full count has seen every child arrive once more. */
  lemma SeenChild(s: System, i: nat, k: nat)
    requires Inv(s) && i < |s.threads| && s.threads[i].pc.Collect? && Enabled(s, i)
    requires 0 < k < |s.threads| && ArrivalParent(k) == i
    ensures Arrivals(s.threads[k]) == s.threads[i].round + 1
  {
    assert ThreadOk(s, i);
    UnclearedBounds(s, i, ARRIVAL_CHILDREN);
    assert k <= ARRIVAL_CHILDREN * i + ARRIVAL_CHILDREN;
  }

  lemma CollectKeepsThread(s: System, i: nat, k: nat)
    requires Inv(s) && i < |s.threads| && s.threads[i].pc.Collect? && Enabled(s, i) && k < |s.threads|
    ensures ThreadOk(Step(s, i), k)
  {
    var s' := Step(s, i);
    assert ThreadOk(s, i) && ThreadOk(s, k);
    UnclearedFrame(s, s', k, ARRIVAL_CHILDREN);
    if k > 0 {
      assert Releases(s', k) == Releases(s, k);
      if ArrivalParent(k) == i {
        SeenChild(s, i, k);
      }
    }
  }

  lemma QuietStepKeeps(s: System, i: nat)
    requires Inv(s) && i < |s.threads| && Enabled(s, i)
    requires s.threads[i].pc.Outside? || s.threads[i].pc.Collect? || s.threads[i].pc.Await?
    ensures Inv(Step(s, i))
  {
    var s' := Step(s, i);
    forall k | 0 <= k < |s.threads| ensures ThreadOk(s', k) {
      if s.threads[i].pc.Outside? {
        EnterKeepsThread(s, i, k);
      } else if s.threads[i].pc.Collect? {
        CollectKeepsThread(s, i, k);
      } else {
        LetGoKeepsThread(s, i, k);
      }
    }
  }

  lemma {:induction false} UnclearedSignal(s: System, i: nat, p: nat, k: nat)
    requires Inv(s) && 0 < i < |s.threads| && s.threads[i].pc.Signal? && p < |s.threads| && k <= ARRIVAL_CHILDREN
    ensures Uncleared(Step(s, i), p, k) == Uncleared(s, p, k) + if p == ArrivalParent(i) && i <= ARRIVAL_CHILDREN * p + k then 1 else 0
  {
    if k > 0 {
      UnclearedSignal(s, i, p, k - 1);
    }
  }

  lemma SignalKeepsThread(s: System, i: nat, k: nat)
    requires Inv(s) && i < |s.threads| && s.threads[i].pc.Signal? && k < |s.threads|
    ensures ThreadOk(Step(s, i), k)
  {
    var s' := Step(s, i);
    assert ThreadOk(s, i) && ThreadOk(s, k);
    UnclearedSignal(s, i, k, ARRIVAL_CHILDREN);
    assert k == ArrivalParent(i) ==> i <= ARRIVAL_CHILDREN * k + ARRIVAL_CHILDREN;
    assert k > 0 ==> Releases(s', k) == Releases(s, k);
  }

  lemma SignalKeeps(s: System, i: nat)
    requires Inv(s) && i < |s.threads| && s.threads[i].pc.Signal?
    ensures Inv(Step(s, i))
  {
    var s' := Step(s, i);
    assert ThreadOk(s, i);
    forall k | 0 <= k < |s.threads| ensures ThreadOk(s', k) {
      SignalKeepsThread(s, i, k);
    }
  }

  lemma {:induction false} UnclearedReset(s: System, i: nat, p: nat, k: nat)
    requires Inv(s) && i < |s.threads| && s.threads[i].pc.Reset? && p < |s.threads| && k <= ARRIVAL_CHILDREN
    ensures Uncleared(Step(s, i), p, k) == if p == i then 0 else Uncleared(s, p, k)
  {
    if k > 0 {
      UnclearedReset(s, i, p, k - 1);
      var c := ARRIVAL_CHILDREN * p + k;
      if p == i && c < |s.threads| {
        assert ArrivalParent(c) == i;
        assert ThreadOk(s, c);
        RootBetween(s, c);
        RootBetween(s, i);
      }
    }
  }

  lemma ResetKeeps(s: System, i: nat)
    requires Inv(s) && i < |s.threads| && s.threads[i].pc.Reset?
    ensures Inv(Step(s, i))
  {
    var s' := Step(s, i);
    assert ThreadOk(s, i);
    forall k | 0 <= k < |s.threads| ensures ThreadOk(s', k) {
      assert ThreadOk(s, k);
      UnclearedReset(s, i, k, ARRIVAL_CHILDREN);
    }
  }

  lemma {:induction false} Reachable(run: seq<System>)
    requires IsRun(run)
    ensures Inv(Last(run))
    decreases |run|
  {
    var n := |run| - 1;
    if n == 0 {
      forall i | 0 <= i < |run[0].threads| ensures ThreadOk(run[0], i) {
        InitUncleared(run[0], i, ARRIVAL_CHILDREN);
      }
    } else {
      Reachable(run[..n]);
      var s := run[n - 1];
      assert Next(s, run[n - 1 + 1]);
      var i: nat :| i < |s.threads| && Enabled(s, i) && run[n] == Step(s, i);
      if s.threads[i].pc.Reset? {
        ResetKeeps(s, i);
      } else if s.threads[i].pc.Signal? {
        SignalKeeps(s, i);
      } else if s.threads[i].pc.Release? {
        assert ThreadOk(s, i);
        if s.threads[i].pc.done == RELEASE_CHILDREN {
          LeaveKeeps(s, i);
        } else {
          ReleaseKeeps(s, i);
        }
      } else {
        QuietStepKeeps(s, i);
      }
    }
  }

  lemma {:induction false} InitUncleared(s: System, i: nat, k: nat)
    requires Init(s) && i < |s.threads|
    ensures Uncleared(s, i, k) == 0
  {
    if k > 0 {
      InitUncleared(s, i, k - 1);
    }
  }

  // ----- The theorems

  /** No thread gets past the barrier in a round that some thread has not entered. */
  lemma NobodyLeavesEarly(run: seq<System>, i: nat, j: nat)
    requires IsRun(run) && i < |Last(run).threads| && j < |Last(run).threads|
    ensures Passed(Last(run).threads[i]) <= Entered(Last(run).threads[j])
  {
    Reachable(run);
    RootBetween(Last(run), i);
    RootBetween(Last(run), j);
  }

  /** The arrival count never exceeds what is expected, and the reset erases exactly one full round. */
  lemma NoArrivalLost(run: seq<System>, i: nat)
    requires IsRun(run) && i < |Last(run).threads| == |Last(run).nodes|
    ensures var s := Last(run); var expected := Expected(|s.threads|, i, ARRIVAL_CHILDREN);
      && 0 <= s.nodes[i].arrivalCount <= expected
      && (s.threads[i].pc.Reset? ==> s.nodes[i].arrivalCount == expected)
  {
    Reachable(run);
    var s := Last(run);
    assert ThreadOk(s, i);
    UnclearedBounds(s, i, ARRIVAL_CHILDREN);
    if s.threads[i].pc.Reset? {
      assert forall c :: 0 < c < |s.threads| && ArrivalParent(c) == i ==> ThreadOk(s, c);
      FullCount(s, i, ARRIVAL_CHILDREN);
    }
  }

  lemma {:induction false} FullCount(s: System, i: nat, k: nat)
    requires Inv(s) && i < |s.threads| && k <= ARRIVAL_CHILDREN
    requires forall c :: 0 < c < |s.threads| && ArrivalParent(c) == i ==> Arrivals(s.threads[c]) >= Resets(s.threads[i]) + 1
    ensures Uncleared(s, i, k) == Expected(|s.threads|, i, k)
  {
    if k > 0 {
      FullCount(s, i, k - 1);
      var c := ARRIVAL_CHILDREN * i + k;
      if c < |s.threads| {
        assert ArrivalParent(c) == i;
        assert ThreadOk(s, c);
        RootBetween(s, c);
        RootBetween(s, i);
      }
    }
  }

  /** When nobody can move, everybody is in the same round. */
  lemma {:induction false} StuckRounds(s: System, i: nat)
    requires Inv(s) && i < |s.threads| && forall k :: 0 <= k < |s.threads| ==> !Enabled(s, k)
    ensures s.threads[i].round == s.threads[0].round
  {
    assert !Enabled(s, i) && !Enabled(s, 0) && ThreadOk(s, 0) && ThreadOk(s, i);
    RootBetween(s, i);
    if i > 0 {
      var p := ReleaseParent(i);
      StuckRounds(s, p);
      assert !Enabled(s, p);
      if s.threads[i].pc.Await? {
        SenseMeansRound(s, i);
      }
    }
  }

  /** The deepest collecting node has heard from all its children. */
  lemma {:induction false} SomeCollectorReady(s: System, i: nat) returns (j: nat)
    requires Inv(s) && i < |s.threads| && s.threads[i].pc.Collect?
    requires forall k :: 0 <= k < |s.threads| ==> s.threads[k].round == s.threads[0].round
    requires forall k :: 0 <= k < |s.threads| ==> s.threads[k].pc.Collect? || s.threads[k].pc.Await?
    ensures j < |s.threads| && Enabled(s, j)
    decreases |s.threads| - i
  {
    if c :| 0 < c < |s.threads| && ArrivalParent(c) == i && s.threads[c].pc.Collect? {
      j := SomeCollectorReady(s, c);
    } else {
      j := i;
      assert ThreadOk(s, i);
      FullCount(s, i, ARRIVAL_CHILDREN);
    }
  }

  /** There is no deadlock: in every reachable state some thread can take a step. */
  lemma NoDeadlock(run: seq<System>, s: System)
    requires IsRun(run) && s == Last(run) && |s.threads| == |s.nodes|
    ensures exists i: nat :: i < |s.threads| && Enabled(s, i)
  {
    Reachable(run);
    if forall k :: 0 <= k < |s.threads| ==> !Enabled(s, k) {
      forall k | 0 <= k < |s.threads|
        ensures s.threads[k].round == s.threads[0].round && (s.threads[k].pc.Collect? || s.threads[k].pc.Await?)
      {
        StuckRounds(s, k);
        assert !Enabled(s, k);
      }
      assert ThreadOk(s, 0);
      var j := SomeCollectorReady(s, 0);
      assert false;
    }
  }

  /** `a` is `i` or above it in the release tree. */
  predicate Above(a: nat, i: nat)
  {
    a == i || (i > 0 && Above(a, ReleaseParent(i)))
  }

  /** The release tree reaches every thread: when the root has passed a round and thread `i` has not, some
      thread on the path from the root to `i` can take a step. */
  lemma {:induction false} ReleaseReaches(run: seq<System>, i: nat, s: System) returns (j: nat)
    requires IsRun(run) && s == Last(run) && i < |s.threads| == |s.nodes|
    requires Passed(s.threads[i]) < Passed(s.threads[0])
    ensures j < |s.threads| && Above(j, i) && Enabled(s, j)
    decreases i
  {
    Reachable(run);
    RootBetween(s, i);
    assert ThreadOk(s, i);
    var p := ReleaseParent(i);
    RootBetween(s, p);
    if Enabled(s, i) {
      j := i;
    } else if Passed(s.threads[p]) < Passed(s.threads[0]) {
      j := ReleaseReaches(run, p, s);
    } else {
      SenseMeansRound(s, i);
      j := p;
    }
  }
}
