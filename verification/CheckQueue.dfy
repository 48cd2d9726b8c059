/** The parallel check queue of src/checkqueue.h as an interleaved transition
    system: any number of workers plus the master, one step per critical section,
    per call of a check, per notification and per spurious wake-up.

    Thread 0 is the master; threads 1.. are the workers. */
module CheckQueue {
  import opened Wrappers

  type Check = nat   // identity of a check object
  type Error = int   // what a failing check reports

  /** Where a thread is inside `Loop`. `Working` is the part outside the lock:
      of the batch `ran + left` taken from the queue, the checks `ran` have been
      called so far. */
  datatype Phase =
    | Outside
    | Working(ran: seq<Check>, left: seq<Check>, doWork: bool)
    | Asleep
    | Woken
    | Exited

  /** `local` is the variable local_result, which survives from batch to batch. */
  datatype Thread = Thread(phase: Phase, local: Option<Error>)

  datatype Run = Run(check: Check, outcome: Option<Error>)

  /** What happened between two returns of `Complete`. */
  datatype Session = Session(added: seq<Check>, log: seq<Run>, value: Option<Error>)

  /** The notification on m_worker_cv still owed by the thread that owns the queue. */
  datatype Notify = NoNotify | NotifyOne | NotifyAll

  /** The last four fields are history: checks added in this session, calls made
      in this session, checks retired without being called, finished sessions. */
  datatype State = State(
    batchSize: nat,
    queue: seq<Check>,
    nIdle: int,
    nTotal: int,
    result: Option<Error>,
    nTodo: int,
    stop: bool,
    notify: Notify,
    threads: seq<Thread>,
    added: seq<Check>,
    log: seq<Run>,
    dropped: seq<Check>,
    sessions: seq<Session>)

  datatype Step =
    | Add(checks: seq<Check>)
    | NotifyWorkers(target: nat)
    | Enter(t: nat)
    | CallCheck(t: nat, outcome: Option<Error>)
    | Finish(t: nat)
    | Wake(t: nat)
    | Spurious(t: nat)
    | RequestStop

  // ---------- The transition system ----------

  ghost predicate Init(s: State) {
    && |s.threads| >= 1
    && (forall i :: 0 <= i < |s.threads| ==> s.threads[i] == Thread(Outside, None))
    && s.queue == [] && s.nIdle == 0 && s.nTotal == 0 && s.nTodo == 0
    && s.result == None && !s.stop && s.notify == NoNotify
    && s.added == [] && s.log == [] && s.dropped == [] && s.sessions == []
  }

  /** The for loop over the batch has ended (or was skipped). */
  predicate BatchOver(th: Thread) {
    th.phase.Working? &&
    (!th.phase.doWork || th.phase.left == [] || (th.phase.ran != [] && th.local.Some?))
  }

  /** The owner of the queue is not inside `Complete` and owes no notification. */
  predicate OwnerFree(s: State) {
    |s.threads| >= 1 && s.threads[0].phase.Outside? && s.notify.NoNotify? && !s.stop
  }

  predicate Enabled(s: State, step: Step) {
    match step
    case Add(checks) => OwnerFree(s)
    case NotifyWorkers(target) =>
      && !s.notify.NoNotify?
      && (s.notify.NotifyOne? ==>
            if exists i :: 1 <= i < |s.threads| && s.threads[i].phase.Asleep?
            then 1 <= target < |s.threads| && s.threads[target].phase.Asleep?
            else true)
    case Enter(t) => t < |s.threads| && s.threads[t].phase.Outside? && (t == 0 ==> OwnerFree(s))
    case CallCheck(t, outcome) => t < |s.threads| && s.threads[t].phase.Working? && !BatchOver(s.threads[t])
    case Finish(t) => t < |s.threads| && BatchOver(s.threads[t])
    case Wake(t) => t < |s.threads| && s.threads[t].phase.Woken?
    case Spurious(t) => t < |s.threads| && s.threads[t].phase.Asleep?
    case RequestStop => OwnerFree(s)
  }

  function WakeThread(th: Thread): Thread {
    if th.phase.Asleep? then th.(phase := Woken) else th
  }

  function WakeAllWorkers(ts: seq<Thread>): (r: seq<Thread>)
    ensures |r| == |ts|
    ensures forall i :: 0 <= i < |ts| ==> r[i] == if i == 0 then ts[0] else WakeThread(ts[i])
  {
    seq(|ts|, i requires 0 <= i < |ts| => if i == 0 then ts[0] else WakeThread(ts[i]))
  }

  lemma QuotientAtMost(n: nat, d: nat)
    requires d >= 1
    ensures 0 <= n / d <= n
  {
    var q := n / d;
    assert n == d * q + n % d;
    assert d * q == q + (d - 1) * q;
    assert q >= 0 ==> (d - 1) * q >= 0;
  }

  /** nNow = max(1, min(nBatchSize, queue.size() / (nTotal + nIdle + 1))); a
      non-positive divisor cannot occur (see Inv) and yields one unit here. */
  function BatchCount(s: State): (n: nat)
    ensures 1 <= n && (s.queue != [] ==> n <= |s.queue|)
  {
    var d := s.nTotal + s.nIdle + 1;
    var share := if d <= 0 then 1 else (QuotientAtMost(|s.queue|, d); |s.queue| / d);
    var capped := if s.batchSize < share then s.batchSize else share;
    if capped < 1 then 1 else capped
  }

  /** The critical section from `while (queue.empty() && !m_request_stop)` on,
      executed by thread t: return, sleep, exit or take a batch. */
  function LoopTop(s: State, t: nat): State
    requires t < |s.threads|
  {
    var th := s.threads[t];
    if s.queue == [] && !s.stop then
      if t == 0 && s.nTodo == 0 then
        s.(nTotal := s.nTotal - 1,
           result := None,
           threads := s.threads[0 := Thread(Outside, None)],
           added := [], log := [], dropped := [],
           sessions := s.sessions + [Session(s.added, s.log, s.result)])
      else
        s.(nIdle := s.nIdle + 1, threads := s.threads[t := th.(phase := Asleep)])
    else if s.stop then
      s.(threads := s.threads[t := th.(phase := Exited)])
    else
      var start := |s.queue| - BatchCount(s);
      s.(queue := s.queue[..start],
         threads := s.threads[t := th.(phase := Working([], s.queue[start..], s.result.None?))])
  }

  /** The clean-up of the previous loop run, in the same critical section. */
  function CleanUp(s: State, t: nat): State
    requires t < |s.threads| && s.threads[t].phase.Working?
  {
    var th := s.threads[t];
    var publish := th.local.Some? && s.result.None?;
    var todo := s.nTodo - |th.phase.ran| - |th.phase.left|;
    var ts := s.threads[t := Thread(Outside, if publish then None else th.local)];
    s.(result := if publish then th.local else s.result,
       nTodo := todo,
       threads := if todo == 0 && t != 0 then ts[0 := WakeThread(ts[0])] else ts,
       dropped := s.dropped + th.phase.left)
  }

  function Apply(s: State, step: Step): State
    requires Enabled(s, step)
  {
    match step
    case Add(checks) =>
      if checks == [] then s
      else s.(queue := s.queue + checks, nTodo := s.nTodo + |checks|, added := s.added + checks,
              notify := if |checks| == 1 then NotifyOne else NotifyAll)
    case NotifyWorkers(target) =>
      if s.notify.NotifyAll? then
        s.(notify := NoNotify, threads := WakeAllWorkers(s.threads))
      else if 1 <= target < |s.threads| then
        s.(notify := NoNotify, threads := s.threads[target := WakeThread(s.threads[target])])
      else
        s.(notify := NoNotify)
    case Enter(t) =>
      LoopTop(s.(nTotal := s.nTotal + 1, threads := s.threads[t := Thread(Outside, None)]), t)
    case CallCheck(t, outcome) =>
      var th := s.threads[t];
      var check := th.phase.left[0];
      s.(log := s.log + [Run(check, outcome)],
         threads := s.threads[t := Thread(Working(th.phase.ran + [check], th.phase.left[1..], true), outcome)])
    case Finish(t) => LoopTop(CleanUp(s, t), t)
    case Wake(t) =>
      LoopTop(s.(nIdle := s.nIdle - 1, threads := s.threads[t := s.threads[t].(phase := Outside)]), t)
    case Spurious(t) => s.(threads := s.threads[t := WakeThread(s.threads[t])])
    case RequestStop => s.(stop := true, notify := NotifyAll)
  }

  /** A run: states[0] is initial and steps[i] leads from states[i] to states[i+1]. */
  ghost predicate IsRun(states: seq<State>, steps: seq<Step>) {
    && |states| == |steps| + 1
    && Init(states[0])
    && forall i :: 0 <= i < |steps| ==>
         Enabled(states[i], steps[i]) && states[i+1] == Apply(states[i], steps[i])
  }
}
