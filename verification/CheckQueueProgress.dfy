/** Why a call of `Complete` ends, and why the destructor's joins end: in every
    reachable state some thread can take a step that is not a spurious wake-up,
    and such steps use up a bounded amount of work. */
module CheckQueueProgress {
  import opened Wrappers
  import opened CheckQueue
  import opened CheckQueueSafety

  // ---------- No deadlock ----------

  /** A thread that is past `Enter` and not asleep can go on by itself. */
  function OwnStep(s: State, t: nat): Step
    requires t < |s.threads|
  {
    var th := s.threads[t];
    if th.phase.Outside? then Enter(t)
    else if th.phase.Woken? then Wake(t)
    else if BatchOver(th) then Finish(t)
    else CallCheck(t, None)
  }

  predicate CanGoOn(th: Thread) {
    th.phase.Woken? || th.phase.Working?
  }

  /** While the master is inside Complete, some thread has a step that is neither a
      spurious wake-up nor the owner's: the protocol cannot deadlock. */
  lemma CompleteCanGoOn(states: seq<State>, steps: seq<Step>, i: nat)
    requires IsRun(states, steps) && i < |states| && MasterInside(states[i], -1)
    ensures exists t ::
              && 0 <= t < |states[i].threads| && CanGoOn(states[i].threads[t])
              && Enabled(states[i], OwnStep(states[i], t))
  {
    RunInv(states, steps, i);
    var s := states[i];
    if s.threads[0].phase.Asleep? {
      SomeoneWorks(s);
      var t :| 1 <= t < |s.threads| && InFlight(s.threads[t]) >= 1;
      assert CanGoOn(s.threads[t]) && Enabled(s, OwnStep(s, t));
    } else {
      assert CanGoOn(s.threads[0]) && Enabled(s, OwnStep(s, 0));
    }
  }

  /** After the destructor's notification every worker has exited or can go on, so
      the joins of ~CCheckQueue end too. */
  lemma StopReachesEveryWorker(states: seq<State>, steps: seq<Step>, i: nat, t: nat)
    requires IsRun(states, steps) && i < |states| && states[i].stop && states[i].notify.NoNotify?
    requires 1 <= t < |states[i].threads|
    ensures states[i].threads[t].phase.Exited? || Enabled(states[i], OwnStep(states[i], t))
  {
    RunInv(states, steps, i);
  }

  // ---------- Bounded work ----------

  /** Steps a thread may still take before it sleeps or leaves. */
  ghost function Effort(th: Thread): int {
    match th.phase
    case Outside => 1
    case Working(_, left, _) => 2 + |left|
    case Asleep => 0
    case Woken => 1
    case Exited => 0
  }

  ghost function Work(s: State): int {
    4 * |s.queue| + Sum(Effort, s.threads)
  }

  predicate OfLoop(step: Step) {
    step.Enter? || step.CallCheck? || step.Finish? || step.Wake?
  }

  lemma WorkNonNegative(s: State)
    ensures Work(s) >= 0
  {
    SumNonNegative(Effort, s.threads);
  }

  /** From the top of the loop the work only goes down, unless the master returns. */
  lemma LoopTopWork(s: State, t: nat)
    requires t < |s.threads| && s.threads[t].phase.Outside?
    requires !(t == 0 && s.queue == [] && !s.stop && s.nTodo == 0)
    ensures Work(LoopTop(s, t)) < Work(s)
  {
    SumUpdate(Effort, s.threads, t, LoopTop(s, t).threads[t]);
  }

  lemma CleanUpWork(s: State, t: nat)
    requires t < |s.threads| && s.threads[t].phase.Working?
    ensures Work(CleanUp(s, t)) <= Work(s)
  {
    var ts := s.threads[t := Thread(Outside, if s.threads[t].local.Some? && s.result.None? then None else s.threads[t].local)];
    SumUpdate(Effort, s.threads, t, ts[t]);
    SumUpdate(Effort, ts, 0, WakeThread(ts[0]));
    assert ts[0 := ts[0]] == ts;
  }

  /** Every step of Loop uses up work, except the one by which Complete returns. */
  lemma LoopStepWork(s: State, step: Step)
    requires Enabled(s, step) && OfLoop(step)
    requires |Apply(s, step).sessions| == |s.sessions|
    ensures Work(Apply(s, step)) < Work(s)
  {
    match step {
      case CallCheck(t, _) => SumUpdate(Effort, s.threads, t, Apply(s, step).threads[t]);
      case Enter(t) =>
        var s1 := s.(nTotal := s.nTotal + 1, threads := s.threads[t := Thread(Outside, None)]);
        SumUpdate(Effort, s.threads, t, s1.threads[t]);
        LoopTopWork(s1, t);
      case Wake(t) =>
        var s1 := s.(nIdle := s.nIdle - 1, threads := s.threads[t := s.threads[t].(phase := Outside)]);
        SumUpdate(Effort, s.threads, t, s1.threads[t]);
        LoopTopWork(s1, t);
      case Finish(t) =>
        CleanUpWork(s, t);
        LoopTopWork(CleanUp(s, t), t);
    }
  }

  lemma SpuriousWork(s: State, t: nat)
    requires Enabled(s, Spurious(t))
    ensures Work(Apply(s, Spurious(t))) == Work(s) + 1
  {
    SumUpdate(Effort, s.threads, t, WakeThread(s.threads[t]));
  }

  ghost function SpuriousCount(steps: seq<Step>): nat {
    if steps == [] then 0
    else SpuriousCount(steps[..|steps| - 1]) + if steps[|steps| - 1].Spurious? then 1 else 0
  }

  ghost predicate DuringAt(states: seq<State>, steps: seq<Step>, i: int) {
    0 <= i < |steps| == |states| - 1 ==>
      && Enabled(states[i], steps[i]) && states[i+1] == Apply(states[i], steps[i])
      && (OfLoop(steps[i]) || steps[i].Spurious?)
      && |states[i+1].sessions| == |states[i].sessions|
  }

  /** A stretch of a run during one call of Complete: states[a..b] with no return. */
  ghost predicate DuringComplete(states: seq<State>, steps: seq<Step>, a: nat, b: nat) {
    && |states| == |steps| + 1 && a <= b < |states|
    && forall i {:trigger DuringAt(states, steps, i)} :: a <= i < b ==> DuringAt(states, steps, i)
  }

  lemma {:induction false} WorkBound(states: seq<State>, steps: seq<Step>, a: nat, b: nat)
    requires DuringComplete(states, steps, a, b)
    ensures b - a <= Work(states[a]) - Work(states[b]) + 2 * SpuriousCount(steps[a..b])
    decreases b
  {
    if a < b {
      WorkBound(states, steps, a, b - 1);
      SpuriousSnoc(steps, a, b);
      assert DuringAt(states, steps, b - 1);
      StepWork(states[b - 1], steps[b - 1]);
    }
  }

  lemma StepWork(s: State, step: Step)
    requires Enabled(s, step) && (OfLoop(step) || step.Spurious?)
    requires |Apply(s, step).sessions| == |s.sessions|
    ensures 1 <= Work(s) - Work(Apply(s, step)) + if step.Spurious? then 2 else 0
  {
    if step.Spurious? {
      SpuriousWork(s, step.t);
    } else {
      LoopStepWork(s, step);
    }
  }

  lemma SpuriousSnoc(steps: seq<Step>, a: nat, b: nat)
    requires a < b <= |steps|
    ensures SpuriousCount(steps[a..b]) == SpuriousCount(steps[a..b - 1]) + if steps[b - 1].Spurious? then 1 else 0
  {
    assert steps[a..b][..b - 1 - a] == steps[a..b - 1];
  }

  /** While the master is inside Complete only the loops and spurious wake-ups run. */
  lemma OnlyLoopsDuringComplete(states: seq<State>, steps: seq<Step>, i: nat)
    requires IsRun(states, steps) && i < |steps| && MasterInside(states[i], -1)
    ensures OfLoop(steps[i]) || steps[i].Spurious?
  {
    RunInv(states, steps, i);
  }

  /** However the threads are scheduled, a stretch of a run in which Complete has
      started and not returned is at most as long as the work it began with plus
      twice the number of spurious wake-ups: Complete always returns. */
  lemma CompleteReturns(states: seq<State>, steps: seq<Step>, a: nat, b: nat)
    requires IsRun(states, steps) && a <= b < |states|
    requires forall i :: a <= i <= b ==> MasterInside(states[i], -1)
    ensures b - a <= Work(states[a]) + 2 * SpuriousCount(steps[a..b])
  {
    forall i | a <= i < b
      ensures DuringAt(states, steps, i)
    {
      OnlyLoopsDuringComplete(states, steps, i);
    }
    WorkBound(states, steps, a, b);
    WorkNonNegative(states[b]);
  }
}
