/** The workers' wake-ups and their batches: why checks in the queue never wait for a
    worker that sleeps, and what a thread takes when it reaches the queue. */
module CheckQueueWake {
  import opened Wrappers
  import opened CheckQueue
  import opened CheckQueueProgress

  // ---------- Wake-ups ----------

  /** A worker that will look at the queue again without being woken. */
  ghost predicate Awake(s: State, t: nat) {
    1 <= t < |s.threads| && !s.threads[t].phase.Asleep? && !s.threads[t].phase.Exited?
  }

  ghost predicate SomeAwake(s: State) { exists t: nat :: Awake(s, t) }

  ghost predicate StopsLast(s: State) {
    forall t :: 0 <= t < |s.threads| && s.threads[t].phase.Exited? ==> s.stop
  }

  /** Checks wait only while a notification is owed or some worker is awake. */
  ghost predicate Attended(s: State) {
    StopsLast(s) && (s.queue != [] && s.notify.NoNotify? && !s.stop && |s.threads| >= 2 ==> SomeAwake(s))
  }

  lemma LoopTopAttended(s: State, t: nat)
    requires t < |s.threads| && s.threads[t].phase.Outside? && StopsLast(s)
    requires s.queue != [] && s.notify.NoNotify? && !s.stop && |s.threads| >= 2 ==> SomeAwake(s)
    ensures Attended(LoopTop(s, t))
  {
    var s' := LoopTop(s, t);
    if s'.queue != [] && s'.notify.NoNotify? && !s'.stop && |s'.threads| >= 2 {
      var u: nat :| Awake(s, u);
      assert Awake(s', u);
    }
  }

  /** The thread that takes the lock is not asleep while it holds it. */
  lemma LockAttended(s: State, s': State, t: nat)
    requires Attended(s) && t < |s.threads| == |s'.threads| && s'.threads[t].phase.Outside?
    requires s'.queue == s.queue && s'.notify == s.notify && s'.stop == s.stop
    requires forall u :: 0 <= u < |s.threads| && u != t ==> s'.threads[u] == s.threads[u] || s'.threads[u] == WakeThread(s.threads[u])
    ensures Attended(LoopTop(s', t))
  {
    if s.queue != [] && s.notify.NoNotify? && !s.stop && |s.threads| >= 2 {
      var u: nat :| Awake(s, u);
      assert Awake(s', u);
    }
    LoopTopAttended(s', t);
  }

  lemma NotifyAttended(s: State, target: nat)
    requires Attended(s) && Enabled(s, NotifyWorkers(target))
    ensures Attended(Apply(s, NotifyWorkers(target)))
  {
    var s' := Apply(s, NotifyWorkers(target));
    if s'.queue != [] && !s'.stop && |s'.threads| >= 2 {
      if s.notify.NotifyOne? && exists i :: 1 <= i < |s.threads| && s.threads[i].phase.Asleep? {
        assert Awake(s', target);
      } else {
        assert Awake(s', 1);
      }
    }
  }

  lemma StepAttended(s: State, step: Step)
    requires Attended(s) && Enabled(s, step)
    ensures Attended(Apply(s, step))
  {
    match step {
      case Add(_) =>
      case NotifyWorkers(target) => NotifyAttended(s, target);
      case Enter(t) => LockAttended(s, s.(nTotal := s.nTotal + 1, threads := s.threads[t := Thread(Outside, None)]), t);
      case CallCheck(t, _) => AwakeStays(s, Apply(s, step), t);
      case Finish(t) => LockAttended(s, CleanUp(s, t), t);
      case Wake(t) =>
        LockAttended(s, s.(nIdle := s.nIdle - 1, threads := s.threads[t := s.threads[t].(phase := Outside)]), t);
      case Spurious(t) => AwakeStays(s, Apply(s, step), t);
      case RequestStop =>
    }
  }

  lemma AwakeStays(s: State, s': State, t: nat)
    requires Attended(s) && t < |s.threads| && s' == s.(threads := s'.threads, log := s'.log) && |s'.threads| == |s.threads|
    requires !s'.threads[t].phase.Asleep? && !s'.threads[t].phase.Exited?
    requires forall u :: 0 <= u < |s.threads| && u != t ==> s'.threads[u] == s.threads[u]
    ensures Attended(s')
  {
    if SomeAwake(s) {
      var u: nat :| Awake(s, u);
      assert Awake(s', u);
    }
  }

  lemma {:induction false} RunAttended(states: seq<State>, steps: seq<Step>, i: nat)
    requires IsRun(states, steps) && i < |states|
    ensures Attended(states[i])
  {
    if i > 0 {
      RunAttended(states, steps, i - 1);
      StepAttended(states[i - 1], steps[i - 1]);
    }
  }

  /** No wake-up is lost: in every reachable state with checks in the queue and no
      notification owed, some worker can go on by itself and will find them. */
  lemma QueueIsAttended(states: seq<State>, steps: seq<Step>, i: nat)
    requires IsRun(states, steps) && i < |states|
    requires states[i].queue != [] && states[i].notify.NoNotify? && !states[i].stop && |states[i].threads| >= 2
    ensures exists t: nat :: 1 <= t < |states[i].threads| && Enabled(states[i], OwnStep(states[i], t))
  {
    var s := states[i];
    RunAttended(states, steps, i);
    var t: nat :| Awake(s, t);
    assert Enabled(s, OwnStep(s, t));
  }

  /** One added check wakes one sleeping worker, more wake them all. */
  lemma AddWakes(s: State, checks: seq<Check>, target: nat)
    requires Enabled(s, Add(checks)) && checks != [] && Enabled(Apply(s, Add(checks)), NotifyWorkers(target))
    ensures var s' := Apply(Apply(s, Add(checks)), NotifyWorkers(target));
      && s'.queue == s.queue + checks && s'.nTodo == s.nTodo + |checks| && s'.notify == NoNotify && |s'.threads| == |s.threads|
      && (forall t :: 1 <= t < |s.threads| ==>
            (s'.threads[t].phase.Asleep? <==> s.threads[t].phase.Asleep? && |checks| == 1 && t != target))
      && forall t :: 0 <= t < |s.threads| && !s.threads[t].phase.Asleep? ==> s'.threads[t] == s.threads[t]
  {
    assert Apply(s, Add(checks)).threads == s.threads;
  }

  // ---------- Batches ----------

  /** How many checks a thread takes: at least one, no more than the batch size, at most its share of
      the queue among all threads with the idle ones counted twice, and no fewer than that. */
  lemma BatchCountIs(s: State)
    requires s.nTotal >= 0 && s.nIdle >= 0
    ensures var n, d := BatchCount(s), s.nTotal + s.nIdle + 1;
      && (n == 1 || (n <= s.batchSize && n * d <= |s.queue|))
      && (n >= s.batchSize || (n + 1) * d > |s.queue|)
  {
    ShareIs(|s.queue|, s.nTotal + s.nIdle + 1);
  }

  lemma ShareIs(q: nat, d: nat)
    requires d >= 1
    ensures (q / d) * d <= q < (q / d + 1) * d
  {
    assert q == d * (q / d) + q % d;
    assert (q / d) * d == d * (q / d) && (q / d + 1) * d == d * (q / d) + d;
  }

  /** A thread that finds checks takes the newest ones, in their order, and calls them only if no
      error has been reported. */
  lemma TakesNewest(s: State, t: nat)
    requires t < |s.threads| && s.queue != [] && !s.stop
    ensures var s' := LoopTop(s, t); var th := s'.threads[t];
      && th.phase.Working? && th.phase.ran == [] && |th.phase.left| == BatchCount(s)
      && s'.queue + th.phase.left == s.queue
      && (BatchOver(th) <==> s.result.Some?)
      && s' == s.(queue := s'.queue, threads := s.threads[t := th]) && th.local == s.threads[t].local
  {
  }
}
