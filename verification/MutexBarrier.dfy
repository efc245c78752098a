/**
 The mutex barrier with a min-reduction. `wait` holds the mutex except while it sleeps on the condition
 variable, so it is two atomic transitions: arriving, and waking up once the cycle bit has changed. A
 run interleaves the transitions of any number of threads over any number of rounds.
 */
module MutexBarrier {
  import Finite

  datatype Barrier = Barrier(threshold: nat, counter: int, cycle: bool, minValue: int, reductionValue: int)

  /** A thread outside or inside `wait`, with the statuses its calls have returned so far. */
  datatype Thread = Thread(waiting: bool, myCycle: bool, returned: seq<int>)

  /** The barrier and its threads. History: what every thread has offered in every round up to the current
      one, and the last arriver of every completed round. */
  datatype System = System(b: Barrier, threads: seq<Thread>, offers: seq<map<nat, int>>, last: seq<nat>)

  /** barrier_mutex_t::init. */
  ghost predicate Init(s: System)
  {
    && s.b == Barrier(|s.threads|, |s.threads|, false, -1, -1) && |s.threads| > 0
    && (forall i :: 0 <= i < |s.threads| ==> !s.threads[i].waiting && s.threads[i].returned == [])
    && s.offers == [map[]] && s.last == []
  }

  /** The running minimum after an offer; a negative offer is ignored. */
  function Absorb(minValue: int, t: int): int
  {
    if t >= 0 && (minValue < 0 || minValue > t) then t else minValue
  }

  function With(offers: map<nat, int>, i: nat, t: int): map<nat, int>
  {
    offers[i := t]
  }

  /** A thread calls `wait(t)`, up to the point where it returns -1 or sleeps. */
  ghost predicate Arrive(s: System, i: nat, t: int, s': System)
  {
    && i < |s.threads| && !s.threads[i].waiting && |s.offers| > 0
    && var minValue := Absorb(s.b.minValue, t);
    && var round := |s.offers| - 1;
    && var offers := s.offers[round := With(s.offers[round], i, t)];
    && s' == if s.b.counter - 1 == 0 then
               System(Barrier(s.b.threshold, s.b.threshold, !s.b.cycle, -1, minValue),
                      s.threads[i := s.threads[i].(returned := s.threads[i].returned + [-1])],
                      offers + [map[]], s.last + [i])
             else
               System(s.b.(counter := s.b.counter - 1, minValue := minValue),
                      s.threads[i := s.threads[i].(waiting := true, myCycle := s.b.cycle)],
                      offers, s.last)
  }

  /** A sleeping thread finds that the cycle has changed, and returns 0. */
  ghost predicate Wake(s: System, i: nat, s': System)
  {
    && i < |s.threads| && s.threads[i].waiting && s.threads[i].myCycle != s.b.cycle
    && s' == s.(threads := s.threads[i := s.threads[i].(waiting := false, returned := s.threads[i].returned + [0])])
  }

  ghost predicate Arrives(s: System, i: nat, s': System)
  {
    exists t :: Arrive(s, i, t, s')
  }

  ghost predicate Next(s: System, s': System)
  {
    exists i: nat :: Wake(s, i, s') || Arrives(s, i, s')
  }

  ghost function Last(run: seq<System>): System
    requires |run| > 0
  {
    run[|run| - 1]
  }

  ghost predicate IsRun(run: seq<System>)
  {
    |run| > 0 && Init(run[0]) && forall k :: 0 <= k < |run| - 1 ==> Next(run[k], run[k + 1])
  }

  // ----- The invariant

  /** The least non-negative offer of a round, or -1 when there is none. */
  ghost predicate IsRoundMin(offers: map<nat, int>, v: int)
  {
    if v < 0 then v == -1 && forall i <- offers :: offers[i] < 0
    else (exists i <- offers :: offers[i] == v) && forall i <- offers :: offers[i] >= 0 ==> v <= offers[i]
  }

  /** The number of completed rounds. */
  function Rounds(s: System): nat
  {
    |s.last|
  }

  /** The thread waits in the current round. */
  predicate InRound(s: System, i: nat)
    requires i < |s.threads|
  {
    s.threads[i].waiting && s.threads[i].myCycle == s.b.cycle
  }

  /** A thread has returned from every completed round, except that a sleeper of the last one may not have
      woken up yet; each return has the status the last arriver of its round determines. */
  ghost predicate ThreadOk(s: System, i: nat)
    requires i < |s.threads|
  {
    var th := s.threads[i];
    && |th.returned| == (if th.waiting && !InRound(s, i) then Rounds(s) - 1 else Rounds(s))
    && (forall r :: 0 <= r < |th.returned| ==> th.returned[r] == if s.last[r] == i then -1 else 0)
    && (th.waiting && !InRound(s, i) ==> s.last[Rounds(s) - 1] != i)
  }

  /** The offers of the current round, by thread. */
  function Arrived(s: System): map<nat, int>
    requires |s.offers| > 0
  {
    s.offers[|s.offers| - 1]
  }

  /** Every thread has made exactly one offer. */
  ghost predicate OnePerThread(offers: map<nat, int>, n: nat)
  {
    forall i: nat :: i in offers <==> i < n
  }

  ghost predicate Inv(s: System)
  {
    && |s.threads| > 0 && s.b.threshold == |s.threads|
    && |s.offers| == Rounds(s) + 1
    && s.b.counter == |s.threads| - |Arrived(s)| > 0
    && (forall i: nat :: i in Arrived(s) <==> i < |s.threads| && InRound(s, i))
    && IsRoundMin(Arrived(s), s.b.minValue)
    && (Rounds(s) > 0 ==> IsRoundMin(s.offers[Rounds(s) - 1], s.b.reductionValue))
    && (forall i :: 0 <= i < |s.threads| ==> ThreadOk(s, i))
    && (forall r :: 0 <= r < Rounds(s) ==> OnePerThread(s.offers[r], |s.threads|) && s.last[r] < |s.threads|)
  }

  lemma AbsorbMin(offers: map<nat, int>, v: int, i: nat, t: int)
    requires IsRoundMin(offers, v) && i !in offers
    ensures IsRoundMin(With(offers, i, t), Absorb(v, t))
  {
    var offers', v' := With(offers, i, t), Absorb(v, t);
    if v' >= 0 {
      if v' == t {
        assert offers'[i] == v';
      } else {
        var k :| k in offers && offers[k] == v;
        assert offers'[k] == v';
      }
    }
  }

  lemma ArrivalKeeps(s: System, i: nat, t: int, s': System)
    requires Inv(s) && Arrive(s, i, t, s') && s.b.counter != 1
    ensures Inv(s')
  {
    AbsorbMin(Arrived(s), s.b.minValue, i, t);
    assert Arrived(s') == With(Arrived(s), i, t) && Arrived(s').Keys == Arrived(s).Keys + {i};
    forall k: nat | k < |s.threads| ensures ThreadOk(s', k) && (k in Arrived(s') <==> InRound(s', k)) {
      ArrivalThread(s, i, t, s', k);
    }
  }

  lemma ArrivalThread(s: System, i: nat, t: int, s': System, k: nat)
    requires Inv(s) && Arrive(s, i, t, s') && s.b.counter != 1 && k < |s.threads|
    ensures ThreadOk(s', k) && (k in Arrived(s') <==> InRound(s', k))
  {
    assert ThreadOk(s, k);
  }

  /** When the last thread arrives, everybody else sleeps in the round that it completes. */
  lemma LastArrivalThread(s: System, i: nat, t: int, s': System, k: nat)
    requires Inv(s) && Arrive(s, i, t, s') && s.b.counter == 1 && k < |s.threads|
    ensures ThreadOk(s', k) && !InRound(s', k) && k in With(Arrived(s), i, t)
  {
    assert ThreadOk(s, k);
    if k != i && k !in Arrived(s) {
      Finite.AtMost(|s.threads|, Arrived(s).Keys + {i} + {k});
    }
  }

  lemma LastArrivalKeeps(s: System, i: nat, t: int, s': System)
    requires Inv(s) && Arrive(s, i, t, s') && s.b.counter == 1
    ensures Inv(s')
  {
    AbsorbMin(Arrived(s), s.b.minValue, i, t);
    var round := With(Arrived(s), i, t);
    forall k: nat | k < |s.threads| ensures ThreadOk(s', k) && !InRound(s', k) && k in round {
      LastArrivalThread(s, i, t, s', k);
    }
    assert s'.offers[Rounds(s)] == round && OnePerThread(round, |s.threads|);
    forall r | 0 <= r < Rounds(s') ensures OnePerThread(s'.offers[r], |s.threads|) && s'.last[r] < |s.threads| {
      assert r < Rounds(s) ==> s'.offers[r] == s.offers[r];
    }
  }

  lemma WakeKeeps(s: System, i: nat, s': System)
    requires Inv(s) && Wake(s, i, s')
    ensures Inv(s')
  {
    assert ThreadOk(s, i);
    forall k | 0 <= k < |s.threads| ensures ThreadOk(s', k) {
      assert ThreadOk(s, k);
    }
  }

  lemma {:induction false} Reachable(run: seq<System>)
    requires IsRun(run)
    ensures Inv(Last(run))
    decreases |run|
  {
    var n := |run| - 1;
    if n > 0 {
      Reachable(run[..n]);
      var s, s' := run[n - 1], run[n];
      assert Next(s, run[n - 1 + 1]);
      var i: nat :| Wake(s, i, s') || Arrives(s, i, s');
      if Wake(s, i, s') {
        WakeKeeps(s, i, s');
      } else {
        var t :| Arrive(s, i, t, s');
        if s.b.counter == 1 {
          LastArrivalKeeps(s, i, t, s');
        } else {
          ArrivalKeeps(s, i, t, s');
        }
      }
    }
  }

  /**
   In every reachable state of every interleaving: every completed round collected one offer from each
   thread; a thread outside the barrier has returned from every completed round, with -1 from the rounds it
   completed and 0 from the others, so each round hands out -1 exactly once; and until it enters again, the
   reduction it reads is the least non-negative offer of its last round, or -1.
   */
  lemma BarrierCorrect(run: seq<System>, i: nat)
    requires IsRun(run) && i < |Last(run).threads|
    ensures var s := Last(run); var th := s.threads[i];
      && |s.offers| == Rounds(s) + 1
      && (forall r :: 0 <= r < Rounds(s) ==> OnePerThread(s.offers[r], |s.threads|) && s.last[r] < |s.threads|)
      && (!th.waiting ==> && |th.returned| == Rounds(s)
                          && (forall r :: 0 <= r < Rounds(s) ==> th.returned[r] == if s.last[r] == i then -1 else 0)
                          && (Rounds(s) > 0 ==> IsRoundMin(s.offers[Rounds(s) - 1], s.b.reductionValue)))
  {
    Reachable(run);
    assert ThreadOk(Last(run), i);
  }

  ghost predicate CanWake(s: System, i: nat)
  {
    exists s' :: Wake(s, i, s')
  }

  lemma WakeEnabled(s: System, i: nat)
    ensures CanWake(s, i) <==> i < |s.threads| && s.threads[i].waiting && s.threads[i].myCycle != s.b.cycle
  {
    if i < |s.threads| && s.threads[i].waiting && s.threads[i].myCycle != s.b.cycle {
      var th := s.threads[i].(waiting := false, returned := s.threads[i].returned + [0]);
      assert Wake(s, i, s.(threads := s.threads[i := th]));
    }
  }

  /** A sleeping thread can wake exactly when its round is complete, and it never lags more than that one
      round: the one-bit cycle does not confuse rounds. */
  lemma NoConfusedRounds(run: seq<System>, i: nat)
    requires IsRun(run) && i < |Last(run).threads| && Last(run).threads[i].waiting
    ensures var s := Last(run);
      && (CanWake(s, i) <==> |s.threads[i].returned| == Rounds(s) - 1)
      && (!CanWake(s, i) <==> |s.threads[i].returned| == Rounds(s) && |s.offers| > 0 && i in Arrived(s))
  {
    Reachable(run);
    WakeEnabled(Last(run), i);
    assert ThreadOk(Last(run), i);
  }

  /** Nobody is stranded: when all threads are inside the barrier, one of them can wake up. */
  lemma NoDeadlock(run: seq<System>, s: System)
    requires IsRun(run) && s == Last(run) && forall i :: 0 <= i < |s.threads| ==> s.threads[i].waiting
    ensures exists i: nat :: CanWake(s, i)
  {
    Reachable(run);
    if forall i :: 0 <= i < |s.threads| ==> i in Arrived(s) {
      Finite.AtLeast(|s.threads|, Arrived(s).Keys);
    }
    var i :| 0 <= i < |s.threads| && i !in Arrived(s);
    WakeEnabled(s, i);
  }
}
