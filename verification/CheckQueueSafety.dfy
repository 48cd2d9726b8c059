/** What every reachable state of the check queue satisfies, and what a return of
    `Complete` therefore means. */
module CheckQueueSafety {
  import opened Wrappers
  import opened CheckQueue

  // ---------- Sums over the threads ----------

  ghost function Sum(f: Thread -> int, ts: seq<Thread>): int {
    if ts == [] then 0 else f(ts[0]) + Sum(f, ts[1..])
  }

  lemma {:induction false} SumUpdate(f: Thread -> int, ts: seq<Thread>, i: nat, th: Thread)
    requires i < |ts|
    ensures Sum(f, ts[i := th]) == Sum(f, ts) - f(ts[i]) + f(th)
    decreases |ts|
  {
    if i == 0 {
      assert ts[i := th][1..] == ts[1..];
    } else {
      assert ts[i := th][1..] == ts[1..][i - 1 := th];
      SumUpdate(f, ts[1..], i - 1, th);
    }
  }

  lemma {:induction false} SumAtLeast(f: Thread -> int, ts: seq<Thread>, i: nat)
    requires i < |ts|
    requires forall k :: 0 <= k < |ts| ==> f(ts[k]) >= 0
    ensures Sum(f, ts) >= f(ts[i]) >= 0
    decreases |ts|
  {
    SumNonNegative(f, ts[1..]);
    if i > 0 { SumAtLeast(f, ts[1..], i - 1); }
  }

  lemma {:induction false} SumNonNegative(f: Thread -> int, ts: seq<Thread>)
    requires forall k :: 0 <= k < |ts| ==> f(ts[k]) >= 0
    ensures Sum(f, ts) >= 0
  {
    if ts != [] { SumNonNegative(f, ts[1..]); }
  }

  lemma {:induction false} SumSame(f: Thread -> int, ts: seq<Thread>, us: seq<Thread>)
    requires |ts| == |us| && forall k :: 0 <= k < |ts| ==> f(ts[k]) == f(us[k])
    ensures Sum(f, ts) == Sum(f, us)
  {
    if ts != [] { SumSame(f, ts[1..], us[1..]); }
  }

  /** Checks this thread has taken from the queue and not yet reported. */
  ghost function InFlight(th: Thread): int {
    if th.phase.Working? then |th.phase.ran| + |th.phase.left| else 0
  }

  ghost function Waiting(th: Thread): int {
    if th.phase.Asleep? || th.phase.Woken? then 1 else 0
  }

  ghost function Inside(th: Thread): int {
    if th.phase.Outside? then 0 else 1
  }

  ghost function Count(q: seq<Check>, c: Check): nat {
    multiset(q)[c]
  }

  lemma CountConcat(q: seq<Check>, r: seq<Check>, c: Check)
    ensures Count(q + r, c) == Count(q, c) + Count(r, c)
  {
  }

  ghost function Checks(log: seq<Run>): (cs: seq<Check>)
    ensures |cs| == |log| && forall i :: 0 <= i < |log| ==> cs[i] == log[i].check
  {
    seq(|log|, i requires 0 <= i < |log| => log[i].check)
  }

  /** Checks this thread took from the queue and has not (or not yet) called. */
  ghost function UncalledBy(th: Thread): seq<Check> {
    if th.phase.Working? then th.phase.left else []
  }

  ghost function Uncalled(ts: seq<Thread>, c: Check): int {
    if ts == [] then 0 else Count(UncalledBy(ts[0]), c) + Uncalled(ts[1..], c)
  }

  lemma {:induction false} UncalledUpdate(ts: seq<Thread>, i: nat, th: Thread, c: Check)
    requires i < |ts|
    ensures Uncalled(ts[i := th], c) == Uncalled(ts, c) - Count(UncalledBy(ts[i]), c) + Count(UncalledBy(th), c)
    decreases |ts|
  {
    if i == 0 {
      assert ts[i := th][1..] == ts[1..];
    } else {
      assert ts[i := th][1..] == ts[1..][i - 1 := th];
      UncalledUpdate(ts[1..], i - 1, th, c);
    }
  }

  lemma {:induction false} UncalledSame(ts: seq<Thread>, us: seq<Thread>, c: Check)
    requires |ts| == |us| && forall k :: 0 <= k < |ts| ==> UncalledBy(ts[k]) == UncalledBy(us[k])
    ensures Uncalled(ts, c) == Uncalled(us, c)
  {
    if ts != [] {
      UncalledSame(ts[1..], us[1..], c);
      assert UncalledBy(ts[0]) == UncalledBy(us[0]);
    }
  }

  // ---------- The invariant ----------

  /** Some call of this session reported e. */
  ghost predicate Reported(log: seq<Run>, e: Error) {
    exists i :: 0 <= i < |log| && log[i].outcome == Some(e)
  }

  ghost predicate SomeError(log: seq<Run>) {
    exists i :: 0 <= i < |log| && log[i].outcome.Some?
  }

  /** The thread has called a check of its batch and the call reported an error
      that is not published yet. */
  ghost predicate HoldsError(th: Thread) {
    th.phase.Working? && th.phase.ran != [] && th.local.Some?
  }

  ghost predicate ThreadOk(s: State, th: Thread) {
    th.phase.Working? ==>
      && InFlight(th) >= 1
      && (!th.phase.doWork ==> th.phase.ran == [] && s.result.Some?)
      && (HoldsError(th) ==> Reported(s.log, th.local.value))
  }

  /** `holder` is the thread inside a critical section (its phase reads Outside), or -1. */
  ghost predicate CountsOk(s: State, holder: int) {
    && s.nTodo == |s.queue| + Sum(InFlight, s.threads)
    && s.nIdle == Sum(Waiting, s.threads)
    && s.nTotal == Sum(Inside, s.threads) + if holder >= 0 then 1 else 0
  }

  /** Every check added in this session was called, is queued, is in some batch, or
      was retired without a call: as often as it was added. */
  ghost predicate AccountedFor(s: State, c: Check) {
    Count(Checks(s.log), c) + Count(s.queue, c) + Uncalled(s.threads, c) + Count(s.dropped, c) == Count(s.added, c)
  }

  ghost predicate Accounted(s: State) {
    forall c: Check :: AccountedFor(s, c)
  }

  ghost predicate ResultOk(s: State) {
    && (s.result.Some? ==> Reported(s.log, s.result.value))
    && (s.result.None? ==> s.dropped == [])
    && (s.result.None? && SomeError(s.log) ==> exists t :: 0 <= t < |s.threads| && HoldsError(s.threads[t]))
  }

  ghost predicate MasterInside(s: State, holder: int) {
    |s.threads| >= 1 && (!s.threads[0].phase.Outside? || holder == 0)
  }

  /** The master never misses its wake-up, and no worker sleeps through a stop. */
  ghost predicate SleepOk(s: State, holder: int)
    requires |s.threads| >= 1
  {
    && !s.threads[0].phase.Exited?
    && (MasterInside(s, holder) ==> s.notify.NoNotify? && !s.stop)
    && (s.threads[0].phase.Asleep? ==> s.queue == [] && s.nTodo > 0)
    && (s.stop && s.notify.NoNotify? ==> forall t :: 1 <= t < |s.threads| ==> !s.threads[t].phase.Asleep?)
    && (s.stop ==> !s.notify.NotifyOne?)
  }

  ghost predicate SessionOk(sess: Session) {
    // Every check runs at most once, and only checks of this session run.
    && multiset(Checks(sess.log)) <= multiset(sess.added)
    // nullopt exactly when every added check ran once and none reported an error.
    && (sess.value.None? <==>
          multiset(Checks(sess.log)) == multiset(sess.added) &&
          forall i :: 0 <= i < |sess.log| ==> sess.log[i].outcome.None?)
    // An error returned was reported by a check of this session.
    && (sess.value.Some? ==>
          exists i :: 0 <= i < |sess.log| && sess.log[i].outcome == sess.value && sess.log[i].check in sess.added)
  }

  ghost predicate Inv(s: State, holder: int) {
    && -1 <= holder < |s.threads| && |s.threads| >= 1
    && (holder >= 0 ==> s.threads[holder].phase.Outside?)
    && (forall t :: 0 <= t < |s.threads| ==> ThreadOk(s, s.threads[t]))
    && CountsOk(s, holder)
    && Accounted(s)
    && ResultOk(s)
    && SleepOk(s, holder)
    && (forall k :: 0 <= k < |s.sessions| ==> SessionOk(s.sessions[k]))
  }

  // ---------- One thread changes ----------

  /** The facts about sums when one thread is replaced. */
  lemma ThreadReplaced(ts: seq<Thread>, t: nat, th: Thread)
    requires t < |ts|
    ensures Sum(InFlight, ts[t := th]) == Sum(InFlight, ts) - InFlight(ts[t]) + InFlight(th)
    ensures Sum(Waiting, ts[t := th]) == Sum(Waiting, ts) - Waiting(ts[t]) + Waiting(th)
    ensures Sum(Inside, ts[t := th]) == Sum(Inside, ts) - Inside(ts[t]) + Inside(th)
  {
    SumUpdate(InFlight, ts, t, th);
    SumUpdate(Waiting, ts, t, th);
    SumUpdate(Inside, ts, t, th);
  }

  lemma WakeKeepsSums(ts: seq<Thread>, us: seq<Thread>)
    requires |ts| == |us|
    requires forall k :: 0 <= k < |ts| ==> us[k] == ts[k] || us[k] == WakeThread(ts[k])
    ensures Sum(InFlight, us) == Sum(InFlight, ts)
    ensures Sum(Waiting, us) == Sum(Waiting, ts)
    ensures Sum(Inside, us) == Sum(Inside, ts)
  {
    SumSame(InFlight, ts, us);
    SumSame(Waiting, ts, us);
    SumSame(Inside, ts, us);
  }

  lemma SumsNonNegative(ts: seq<Thread>)
    ensures Sum(InFlight, ts) >= 0 && Sum(Waiting, ts) >= 0 && Sum(Inside, ts) >= 0
  {
    SumNonNegative(InFlight, ts);
    SumNonNegative(Waiting, ts);
    SumNonNegative(Inside, ts);
  }

  /** With nothing in flight no thread is working. */
  lemma NoneInFlight(s: State, holder: int)
    requires Inv(s, holder) && Sum(InFlight, s.threads) == 0
    ensures forall t :: 0 <= t < |s.threads| ==> !s.threads[t].phase.Working?
  {
    forall t | 0 <= t < |s.threads| ensures !s.threads[t].phase.Working? {
      SumAtLeast(InFlight, s.threads, t);
      assert ThreadOk(s, s.threads[t]);
    }
  }

  lemma {:induction false} NothingUncalled(ts: seq<Thread>, c: Check)
    requires forall t :: 0 <= t < |ts| ==> !ts[t].phase.Working?
    ensures Uncalled(ts, c) == 0
  {
    if ts != [] { NothingUncalled(ts[1..], c); }
  }

  /** Moving checks between the queue, one batch, the log and the retired ones
      keeps the books, as long as nothing is lost or made up. */
  lemma AccountedMove(s: State, s': State, t: nat)
    requires Accounted(s) && t < |s.threads| == |s'.threads|
    requires s'.added == s.added
    requires forall k :: 0 <= k < |s.threads| && k != t ==> UncalledBy(s'.threads[k]) == UncalledBy(s.threads[k])
    requires forall c: Check ::
      Count(Checks(s'.log), c) + Count(s'.queue, c) + Count(UncalledBy(s'.threads[t]), c) + Count(s'.dropped, c)
      == Count(Checks(s.log), c) + Count(s.queue, c) + Count(UncalledBy(s.threads[t]), c) + Count(s.dropped, c)
    ensures Accounted(s')
  {
    forall c: Check ensures AccountedFor(s', c) {
      assert AccountedFor(s, c);
      UncalledUpdate(s.threads, t, s'.threads[t], c);
      UncalledSame(s.threads[t := s'.threads[t]], s'.threads, c);
    }
  }

  /** Threads other than t keep the error they hold. */
  lemma HoldersStay(s: State, s': State, t: nat)
    requires t < |s.threads| == |s'.threads| && s'.log == s.log && s'.result == s.result
    requires forall i :: 0 <= i < |s.threads| && i != t ==> HoldsError(s.threads[i]) ==> HoldsError(s'.threads[i])
    requires !HoldsError(s.threads[t])
    requires ResultOk(s) && s'.dropped == s.dropped
    ensures ResultOk(s')
  {
    if s.result.None? && SomeError(s.log) {
      var u :| 0 <= u < |s.threads| && HoldsError(s.threads[u]);
      assert HoldsError(s'.threads[u]);
    }
  }

  // ---------- The critical sections ----------

  /** When the master returns, the session that ends is as promised. */
  lemma ReturnedSession(s: State)
    requires Inv(s, 0) && s.queue == [] && s.nTodo == 0
    ensures SessionOk(Session(s.added, s.log, s.result))
  {
    NoneInFlight(s, 0);
    forall c: Check ensures Count(Checks(s.log), c) + Count(s.dropped, c) == Count(s.added, c) {
      assert AccountedFor(s, c);
      NothingUncalled(s.threads, c);
    }
    forall c: Check ensures multiset(Checks(s.log))[c] <= multiset(s.added)[c] {
      assert Count(Checks(s.log), c) + Count(s.dropped, c) == Count(s.added, c);
    }
    if s.result.Some? {
      var i :| 0 <= i < |s.log| && s.log[i].outcome == s.result;
      var c := s.log[i].check;
      assert Checks(s.log)[i] == c;
      assert Count(Checks(s.log), c) + Count(s.dropped, c) == Count(s.added, c);
      assert c in s.added;
    } else {
      assert !SomeError(s.log);
      forall c: Check ensures multiset(Checks(s.log))[c] == multiset(s.added)[c] {
        assert Count(Checks(s.log), c) + Count(s.dropped, c) == Count(s.added, c);
      }
    }
  }

  lemma ReturnInv(s: State)
    requires Inv(s, 0) && s.queue == [] && s.nTodo == 0
    ensures Inv(LoopTop(s, 0), -1)
  {
    var s' := LoopTop(s, 0);
    ReturnedSession(s);
    NoneInFlight(s, 0);
    ThreadReplaced(s.threads, 0, Thread(Outside, None));
    forall t | 0 <= t < |s'.threads| ensures ThreadOk(s', s'.threads[t]) {
      assert !s.threads[t].phase.Working?;
    }
    forall c: Check ensures AccountedFor(s', c) { NothingUncalled(s'.threads, c); }
  }

  lemma TakeBatchInv(s: State, t: nat)
    requires Inv(s, t) && s.queue != [] && !s.stop
    ensures Inv(LoopTop(s, t), -1)
  {
    var s' := LoopTop(s, t);
    ThreadReplaced(s.threads, t, s'.threads[t]);
    var start := |s.queue| - BatchCount(s);
    assert s.queue == s.queue[..start] + s.queue[start..];
    forall c: Check { CountConcat(s.queue[..start], s.queue[start..], c); }
    AccountedMove(s, s', t);
    OthersOk(s, s', t);
    HoldersStay(s, s', t);
  }

  /** Threads that did not change stay well-formed. */
  lemma OthersOk(s: State, s': State, t: nat)
    requires t < |s.threads| == |s'.threads| && s'.log == s.log && s'.result == s.result
    requires forall i :: 0 <= i < |s.threads| ==> ThreadOk(s, s.threads[i])
    requires forall i :: 0 <= i < |s.threads| && i != t ==>
      s'.threads[i] == s.threads[i] || s'.threads[i] == WakeThread(s.threads[i])
    requires ThreadOk(s', s'.threads[t])
    ensures forall i :: 0 <= i < |s'.threads| ==> ThreadOk(s', s'.threads[i])
  {
    forall i | 0 <= i < |s'.threads| ensures ThreadOk(s', s'.threads[i]) {
      assert ThreadOk(s, s.threads[i]);
    }
  }

  lemma SleepInv(s: State, t: nat)
    requires Inv(s, t) && s.queue == [] && !s.stop && !(t == 0 && s.nTodo == 0)
    ensures Inv(LoopTop(s, t), -1)
  {
    var s' := LoopTop(s, t);
    ThreadReplaced(s.threads, t, s'.threads[t]);
    SumsNonNegative(s.threads);
    AccountedMove(s, s', t);
    OthersOk(s, s', t);
    HoldersStay(s, s', t);
  }

  lemma ExitInv(s: State, t: nat)
    requires Inv(s, t) && s.stop
    ensures Inv(LoopTop(s, t), -1)
  {
    var s' := LoopTop(s, t);
    ThreadReplaced(s.threads, t, s'.threads[t]);
    AccountedMove(s, s', t);
    OthersOk(s, s', t);
    HoldersStay(s, s', t);
  }

  lemma LoopTopInv(s: State, t: nat)
    requires Inv(s, t)
    ensures Inv(LoopTop(s, t), -1)
  {
    if s.stop {
      ExitInv(s, t);
    } else if s.queue != [] {
      TakeBatchInv(s, t);
    } else if t == 0 && s.nTodo == 0 {
      ReturnInv(s);
    } else {
      SleepInv(s, t);
    }
  }

  lemma CleanUpInv(s: State, t: nat)
    requires Inv(s, -1) && t < |s.threads| && BatchOver(s.threads[t])
    ensures Inv(CleanUp(s, t), t)
  {
    CleanUpCounts(s, t);
    CleanUpThreads(s, t);
    CleanUpAccounts(s, t);
    CleanUpResult(s, t);
  }

  lemma CleanUpCounts(s: State, t: nat)
    requires Inv(s, -1) && t < |s.threads| && BatchOver(s.threads[t])
    ensures CountsOk(CleanUp(s, t), t) && SleepOk(CleanUp(s, t), t)
  {
    var th := s.threads[t];
    var ts := s.threads[t := Thread(Outside, if th.local.Some? && s.result.None? then None else th.local)];
    ThreadReplaced(s.threads, t, ts[t]);
    WakeKeepsSums(ts, CleanUp(s, t).threads);
    SumsNonNegative(ts);
  }

  lemma CleanUpThreads(s: State, t: nat)
    requires Inv(s, -1) && t < |s.threads| && BatchOver(s.threads[t])
    ensures forall i :: 0 <= i < |s.threads| ==> ThreadOk(CleanUp(s, t), CleanUp(s, t).threads[i])
  {
    var s' := CleanUp(s, t);
    forall i | 0 <= i < |s'.threads| ensures ThreadOk(s', s'.threads[i]) {
      assert ThreadOk(s, s.threads[i]);
    }
  }

  lemma CleanUpAccounts(s: State, t: nat)
    requires Inv(s, -1) && t < |s.threads| && BatchOver(s.threads[t])
    ensures Accounted(CleanUp(s, t))
  {
    forall c: Check { CountConcat(s.dropped, s.threads[t].phase.left, c); }
    AccountedMove(s, CleanUp(s, t), t);
  }

  /** A thread with a batch that was not called at all sees a published error, and
      an error it holds comes from its current batch: nothing stale is published. */
  lemma CleanUpResult(s: State, t: nat)
    requires Inv(s, -1) && t < |s.threads| && BatchOver(s.threads[t])
    ensures ResultOk(CleanUp(s, t))
  {
    var s' := CleanUp(s, t);
    var th := s.threads[t];
    assert ThreadOk(s, th);
    if s'.result.None? {
      assert th.phase.left == [] && !HoldsError(th);
      if SomeError(s.log) {
        var u :| 0 <= u < |s.threads| && HoldsError(s.threads[u]);
        assert HoldsError(s'.threads[u]);
      }
    }
  }

  // ---------- Every step ----------

  lemma AddInv(s: State, checks: seq<Check>)
    requires Inv(s, -1) && Enabled(s, Add(checks))
    ensures Inv(Apply(s, Add(checks)), -1)
  {
    var s' := Apply(s, Add(checks));
    OthersOk(s, s', 0);
    forall c: Check ensures AccountedFor(s', c) {
      assert AccountedFor(s, c);
      CountConcat(s.queue, checks, c);
      CountConcat(s.added, checks, c);
    }
  }

  lemma WakingInv(s: State, s': State)
    requires Inv(s, -1)
    requires s'.notify == s.notify || s'.notify.NoNotify?
    requires s' == s.(notify := s'.notify, threads := s'.threads)
    requires |s'.threads| == |s.threads|
    requires forall k :: 0 <= k < |s.threads| ==> s'.threads[k] == s.threads[k] || s'.threads[k] == WakeThread(s.threads[k])
    requires s.stop && s'.notify != s.notify ==>
      forall k :: 1 <= k < |s.threads| ==> s'.threads[k] == WakeThread(s.threads[k])
    ensures Inv(s', -1)
  {
    WakeKeepsSums(s.threads, s'.threads);
    OthersOk(s, s', 0);
    AccountedMove(s, s', 0);
    assert ResultOk(s') by {
      if SomeError(s.log) && s.result.None? {
        var u :| 0 <= u < |s.threads| && HoldsError(s.threads[u]);
        assert HoldsError(s'.threads[u]);
      }
    }
  }

  lemma CallCheckInv(s: State, t: nat, outcome: Option<Error>)
    requires Inv(s, -1) && Enabled(s, CallCheck(t, outcome))
    ensures Inv(Apply(s, CallCheck(t, outcome)), -1)
  {
    var s' := Apply(s, CallCheck(t, outcome));
    var th := s.threads[t];
    var check := th.phase.left[0];
    ThreadReplaced(s.threads, t, s'.threads[t]);
    assert th.phase.left == [check] + th.phase.left[1..];
    assert Checks(s'.log) == Checks(s.log) + [check];
    forall c: Check { CountConcat(Checks(s.log), [check], c); }
    forall c: Check { CountConcat([check], th.phase.left[1..], c); }
    AccountedMove(s, s', t);
    LogGrows(s, s', t, Run(check, outcome));
  }

  lemma LogGrows(s: State, s': State, t: nat, r: Run)
    requires Inv(s, -1) && t < |s.threads| == |s'.threads|
    requires s.threads[t].phase.Working? && !BatchOver(s.threads[t]) && s'.threads == s.threads[t := s'.threads[t]]
    requires InFlight(s'.threads[t]) == InFlight(s.threads[t])
    requires s'.threads[t].phase.Working? && s'.threads[t].phase.doWork && s'.threads[t].phase.ran != []
    requires s'.log == s.log + [r] && s'.threads[t].local == r.outcome
    requires s'.result == s.result && s'.dropped == s.dropped
    ensures ResultOk(s')
    ensures forall i :: 0 <= i < |s'.threads| ==> ThreadOk(s', s'.threads[i])
  {
    assert s'.log[|s.log|] == r;
    forall e | Reported(s.log, e) ensures Reported(s'.log, e) {
      var i :| 0 <= i < |s.log| && s.log[i].outcome == Some(e);
      assert s'.log[i].outcome == Some(e);
    }
    forall i | 0 <= i < |s'.threads| ensures ThreadOk(s', s'.threads[i]) {
      assert ThreadOk(s, s.threads[i]);
    }
    if s.result.None? && SomeError(s'.log) {
      if r.outcome.Some? {
        assert HoldsError(s'.threads[t]);
      } else {
        var i :| 0 <= i < |s'.log| && s'.log[i].outcome.Some?;
        assert s.log[i] == s'.log[i];
        var u :| 0 <= u < |s.threads| && HoldsError(s.threads[u]);
        assert HoldsError(s'.threads[u]);
      }
    }
  }

  lemma LockTaken(s: State, t: nat, s': State)
    requires Inv(s, -1) && t < |s.threads| == |s'.threads|
    requires s.threads[t].phase.Outside? || s.threads[t].phase.Woken?
    requires s.threads[t].phase.Outside? && t == 0 ==> OwnerFree(s)
    requires s'.threads == s.threads[t := s'.threads[t]] && s'.threads[t].phase.Outside?
    requires s' == s.(threads := s'.threads,
                      nTotal := s.nTotal + 1 - Inside(s.threads[t]),
                      nIdle := s.nIdle - Waiting(s.threads[t]))
    ensures Inv(s', t)
  {
    ThreadReplaced(s.threads, t, s'.threads[t]);
    OthersOk(s, s', t);
    AccountedMove(s, s', t);
    HoldersStay(s, s', t);
  }

  lemma EnterInv(s: State, t: nat)
    requires Inv(s, -1) && Enabled(s, Enter(t))
    ensures Inv(Apply(s, Enter(t)), -1)
  {
    var s1 := s.(nTotal := s.nTotal + 1, threads := s.threads[t := Thread(Outside, None)]);
    LockTaken(s, t, s1);
    LoopTopInv(s1, t);
  }

  lemma WakeInv(s: State, t: nat)
    requires Inv(s, -1) && Enabled(s, Wake(t))
    ensures Inv(Apply(s, Wake(t)), -1)
  {
    var s1 := s.(nIdle := s.nIdle - 1, threads := s.threads[t := s.threads[t].(phase := Outside)]);
    LockTaken(s, t, s1);
    LoopTopInv(s1, t);
  }

  lemma FinishInv(s: State, t: nat)
    requires Inv(s, -1) && Enabled(s, Finish(t))
    ensures Inv(Apply(s, Finish(t)), -1)
  {
    CleanUpInv(s, t);
    LoopTopInv(CleanUp(s, t), t);
  }

  lemma RequestStopInv(s: State)
    requires Inv(s, -1) && Enabled(s, RequestStop)
    ensures Inv(Apply(s, RequestStop), -1)
  {
    var s' := Apply(s, RequestStop);
    OthersOk(s, s', 0);
    AccountedMove(s, s', 0);
  }

  /** Every step of every thread keeps the invariant. */
  lemma StepInv(s: State, step: Step)
    requires Inv(s, -1) && Enabled(s, step)
    ensures Inv(Apply(s, step), -1)
  {
    match step {
      case Add(checks) => AddInv(s, checks);
      case NotifyWorkers(_) => WakingInv(s, Apply(s, step));
      case Spurious(_) => WakingInv(s, Apply(s, step));
      case CallCheck(t, outcome) => CallCheckInv(s, t, outcome);
      case Enter(t) => EnterInv(s, t);
      case Wake(t) => WakeInv(s, t);
      case Finish(t) => FinishInv(s, t);
      case RequestStop => RequestStopInv(s);
    }
  }

  lemma InitInv(s: State)
    requires Init(s)
    ensures Inv(s, -1)
  {
    NothingInside(s.threads);
    forall c: Check ensures AccountedFor(s, c) { NothingUncalled(s.threads, c); }
  }

  lemma {:induction false} NothingInside(ts: seq<Thread>)
    requires forall i :: 0 <= i < |ts| ==> ts[i].phase.Outside?
    ensures Sum(InFlight, ts) == 0 && Sum(Waiting, ts) == 0 && Sum(Inside, ts) == 0
  {
    if ts != [] { NothingInside(ts[1..]); }
  }

  /** The invariant holds in every state of every run. */
  lemma {:induction false} RunInv(states: seq<State>, steps: seq<Step>, i: nat)
    requires IsRun(states, steps) && i < |states|
    ensures Inv(states[i], -1)
  {
    if i == 0 {
      InitInv(states[0]);
    } else {
      RunInv(states, steps, i - 1);
      StepInv(states[i - 1], steps[i - 1]);
    }
  }

  // ---------- Main results ----------

  /** For every interleaving of any number of workers over any number of sessions:
      Complete returns nullopt exactly when every check added since the previous
      return ran once and reported nothing, and an error it returns was reported
      by a check of that session. */
  lemma CompleteIsSound(states: seq<State>, steps: seq<Step>, i: nat, k: nat)
    requires IsRun(states, steps) && i < |states| && k < |states[i].sessions|
    ensures SessionOk(states[i].sessions[k])
  {
    RunInv(states, steps, i);
  }

  /** nTodo, nIdle and nTotal are exact in every reachable state. */
  lemma CountersAreExact(states: seq<State>, steps: seq<Step>, i: nat)
    requires IsRun(states, steps) && i < |states|
    ensures CountsOk(states[i], -1)
  {
    RunInv(states, steps, i);
  }

  /** If the master sleeps, it has nothing to take, it has not missed its wake-up,
      and some worker holds a batch it will report. */
  lemma MasterSleepsSafely(states: seq<State>, steps: seq<Step>, i: nat)
    requires IsRun(states, steps) && i < |states| && |states[i].threads| >= 1 && states[i].threads[0].phase.Asleep?
    ensures states[i].queue == [] && states[i].nTodo > 0
    ensures exists t :: 1 <= t < |states[i].threads| && InFlight(states[i].threads[t]) >= 1
  {
    RunInv(states, steps, i);
    SomeoneWorks(states[i]);
  }

  lemma SomeoneWorks(s: State)
    requires Inv(s, -1) && s.queue == [] && s.nTodo > 0 && !s.threads[0].phase.Working?
    ensures exists t :: 1 <= t < |s.threads| && InFlight(s.threads[t]) >= 1
  {
    if forall t :: 0 <= t < |s.threads| ==> InFlight(s.threads[t]) == 0 {
      NothingInFlight(s.threads);
    }
  }

  lemma {:induction false} NothingInFlight(ts: seq<Thread>)
    requires forall t :: 0 <= t < |ts| ==> InFlight(ts[t]) == 0
    ensures Sum(InFlight, ts) == 0
  {
    if ts != [] { NothingInFlight(ts[1..]); }
  }
}
