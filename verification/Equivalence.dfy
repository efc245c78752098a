/**
 Running windows in parallel is the same as simulating sequentially: in runs where no executed event ties with
 another pending event of its timeline, every interleaving of the window protocol is, between windows, in the
 configuration that a simulator with one global event list reaches.
 */
module Equivalence {
  import opened Topology
  import opened Simulator
  import opened Windows

  /** No other event of the queues has the key of the one that is taken next. */
  ghost predicate TieFree(l: Timeline)
  {
    Unique(l.events + l.sinkEvents)
  }

  ghost predicate StepTieFree(c: Context, s: System, s': System)
  {
    forall i: nat, e :: Work(c, s, i, e, s') ==> TieFree(s.lines[i])
  }

  /** No event that the run executes ties with another one of its timeline. */
  ghost predicate TieFreeRun(c: Context, run: seq<System>)
  {
    forall t :: 0 <= t < |run| - 1 ==> StepTieFree(c, run[t], run[t + 1])
  }

  lemma TieFreePrefix(c: Context, run: seq<System>, n: nat)
    requires TieFreeRun(c, run) && n == |run| - 1 > 0
    ensures TieFreeRun(c, run[..n]) && StepTieFree(c, run[n - 1], Last(run))
  {
    assert run[n - 1 + 1] == Last(run);
  }

  /** In a window, an event taken without a tie is the least event pending on the timeline, wherever it is stored. */
  lemma TakenIsMin(l: Timeline, e: Event, edge: int)
    requires HasWork(l) && Selected(l, e) && TieFree(l) && l.stopBefore == edge
    requires forall f <- l.windowList :: f.time >= edge
    ensures Pending(All(l), edge) && Unique(All(l)) && MinEvent(All(l)) == e
  {
    SelectedIsLeast(l, e);
    var q := l.events + l.sinkEvents;
    assert SameKey(e, MinEvent(q));
    MinStable(q, multiset(l.windowList), edge);
  }

  /** So one iteration of the event loop executes the least event. */
  lemma WorkIsExec(c: Context, s: System, i: nat, e: Event, s': System, edge: int)
    requires Safe(c.m, Abs(s), edge) && Work(c, s, i, e, s') && LineInWindow(s.lines[i], edge) && TieFree(s.lines[i])
    ensures CanStep(c.m, Abs(s), i) && Enabled(Abs(s), i, edge) && Unique(Abs(s)[i].pend)
    ensures Abs(s') == Exec(c.m, Abs(s), i)
  {
    TakenIsMin(s.lines[i], e, edge);
    WorkIsStep(c, s, i, e, s', edge);
  }

  // ----- The executed order

  /** The timelines have executed `path`, a clean path from `g` below the edge of the current window. */
  ghost predicate Executed(c: Context, s: System, g: Config, path: seq<nat>)
  {
    var edge := Edge(|s.lines|, s.reduction, c.epochEnd);
    && Orderly(c.m, g, path, edge) && ValidPath(c.m, g, path) && Run(c.m, g, path) == Abs(s)
    && (InWindow(c, s) || path == [])
  }

  /** Where a window begins, the executed order starts afresh. */
  lemma Afresh(c: Context, s: System)
    ensures Executed(c, s, Abs(s), [])
  {
  }

  /** Only a window has an executed order. */
  lemma NothingExecuted(c: Context, s: System, g: Config, path: seq<nat>, i: nat)
    requires Executed(c, s, g, path) && i < |s.lines| && s.lines[i].phase in {Start, AtBottom, Done}
    ensures path == [] && g == Abs(s)
  {
  }

  /** A step inside a window that executes nothing. */
  lemma SilentStep(c: Context, s: System, s': System, g: Config, path: seq<nat>)
    requires Executed(c, s, g, path) && InWindow(c, s) && InWindow(c, s') && Abs(s') == Abs(s)
    requires |s'.lines| == |s.lines| && s'.reduction == s.reduction
    ensures Executed(c, s', g, path)
  {
  }

  /** In a window, everything executed is below the edge, and everything sent to other timelines is not. */
  lemma InWindowSendsLater(c: Context, s: System, i: nat, edge: int)
    requires AllOk(c, s) && InWindow(c, s) && edge == Edge(|s.lines|, s.reduction, c.epochEnd)
    requires CanStep(c.m, Abs(s), i) && Enabled(Abs(s), i, edge)
    ensures SendsLater(c.m, Abs(s), i)
  {
    var g := Abs(s);
    forall k, f, x | 0 <= k < |g| && k != i && f in To(StepPosts(c.m, g, i), k) && x in g[k].trace ensures Before(x, f) {
      PostsToOthers(c.m, g, i, MinEvent(g[i].pend), edge, k);
      assert LineOk(s.lines[k]) && LineInWindow(s.lines[k], edge);
    }
  }

  lemma WorkExecutes(c: Context, s: System, i: nat, e: Event, s': System, g: Config, path: seq<nat>)
    requires ValidContext(c) && Inv(c, s) && Executed(c, s, g, path) && Work(c, s, i, e, s') && TieFree(s.lines[i])
    ensures Executed(c, s', g, path + [i])
  {
    WorkKeeps(c, s, i, e, s');
    var edge := Edge(|s.lines|, s.reduction, c.epochEnd);
    WorkIsExec(c, s, i, e, s', edge);
    StillInWindow(c, s, i);
    InWindowSendsLater(c, s, i, edge);
    OrderlyAppend(c.m, g, path, i, edge);
  }

  /** The last timeline to finish completes the path of the window. */
  lemma LastFinishCompletes(c: Context, s: System, i: nat, s': System, g: Config, path: seq<nat>)
    requires ValidContext(c) && Inv(c, s) && Executed(c, s, g, path) && Finish(c, s, i, s') && OthersAre(s, i, AtTop)
    ensures Run(c.m, g, path) == Abs(s')
    ensures Complete(c.m, g, path, Edge(|s.lines|, s.reduction, c.epochEnd))
  {
    LastFinish(c, s, i, s');
  }

  // ----- Runs

  /** What one step of the protocol does to the sequentially reached configuration and the executed order. */
  lemma StepReaches(c: Context, g0: Config, s: System, s': System, k: nat, g: Config, path: seq<nat>)
    returns (k': nat, g': Config, path': seq<nat>)
    requires ValidContext(c) && Inv(c, s) && Executed(c, s, g, path) && SequentiallyReached(c.m, g0, k, g)
    requires Next(c, s, s') && StepTieFree(c, s, s')
    ensures SequentiallyReached(c.m, g0, k', g') && Executed(c, s', g', path')
  {
    k', g', path' := k, g, path;
    var i: nat :| StepOf(c, s, i, s');
    if Drain(c, s, i, s') {
      DrainReaches(c, s, i, s', g, path);
      path' := [];
    } else if Enter(c, s, i, s') {
      EnterKeeps(c, s, i, s');
      SilentStep(c, s, s', g, path);
    } else if Works(c, s, i, s') {
      var e :| Work(c, s, i, e, s');
      WorkExecutes(c, s, i, e, s', g, path);
      path' := path + [i];
    } else if OthersAre(s, i, AtTop) {
      LastFinishCompletes(c, s, i, s', g, path);
      OrderlyIsSequential(c.m, g0, k, g, path, Edge(|s.lines|, s.reduction, c.epochEnd));
      k', g', path' := k + |path|, Abs(s'), [];
      Afresh(c, s');
    } else {
      FinishKeeps(c, s, i, s');
      SilentStep(c, s, s', g, path);
    }
  }

  lemma DrainReaches(c: Context, s: System, i: nat, s': System, g: Config, path: seq<nat>)
    requires ValidContext(c) && Inv(c, s) && Executed(c, s, g, path) && Drain(c, s, i, s')
    ensures Executed(c, s', g, [])
  {
    StillGathering(c, s, i);
    NothingExecuted(c, s, g, path, i);
    DrainKeeps(c, s, i, s');
    Afresh(c, s');
  }

  lemma {:induction false} RunReaches(c: Context, run: seq<System>) returns (k: nat, g: Config, path: seq<nat>)
    requires ValidContext(c) && IsRun(c, run) && TieFreeRun(c, run)
    ensures SequentiallyReached(c.m, Abs(run[0]), k, g) && Executed(c, Last(run), g, path)
    decreases |run|
  {
    var n := |run| - 1;
    if n == 0 {
      k, g, path := 0, Abs(run[0]), [];
      assert Sequential(c.m, g, []);
      Afresh(c, run[0]);
    } else {
      StepsPrefix(c, run, n);
      TieFreePrefix(c, run, n);
      k, g, path := RunReaches(c, run[..n]);
      RunInv(c, run[..n]);
      k, g, path := StepReaches(c, Abs(run[0]), run[n - 1], Last(run), k, g, path);
    }
  }

  /**
   Main theorem. At every state of every tie-free run where a timeline is between windows, or done with the
   epoch, there is a number of steps after which every run of the sequential simulator is in exactly this
   configuration: the same application states, the same executed events in the same order on every
   timeline, and the same pending events.
   */
  lemma ParallelEqualsSequential(c: Context, run: seq<System>, i: nat)
    requires ValidContext(c) && IsRun(c, run) && TieFreeRun(c, run)
    requires i < |Last(run).lines| && Last(run).lines[i].phase in {Start, AtBottom, Done}
    ensures exists k: nat :: SequentiallyReached(c.m, Abs(run[0]), k, Abs(Last(run)))
  {
    var k, g, path := RunReaches(c, run);
    NothingExecuted(c, Last(run), g, path, i);
  }
}
