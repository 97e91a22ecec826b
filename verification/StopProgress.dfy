/**
  Progress of stopping and restarting the world (gc/pthread_stop_world.c): no wake-up is lost, a stop
  or restart that is under way can always go on, and only so many steps of it are left.

  A thread in sigsuspend may be woken by any signal, but progress must not depend on one that
  nobody sends: here a thread is woken only by the restart signal that is pending for it.
 */
module StopProgress {
  import opened StopWorld

  // ---- No wake-up is lost ----

  /** The stop for which thread `t` waits, or is about to, has been ended, and GC_start_world has dealt with `t`. */
  predicate Over(s: State, t: Tid)
    requires t in s.threads
  {
    var pc := s.threads[t].pc;
    (pc.Posted? || pc.Waiting? || pc.Woken? || pc.SawStopped?)
      && (pc.my < s.stopCount || !(Stopping(s.stage) || (s.stage.Restarting? && t in s.stage.todo)))
  }

  /** The thread will be in sigsuspend before it looks at the flag or the count again. */
  predicate WillWait(th: Thread, count: nat) {
    th.pc.Posted? || th.pc.Waiting? || (th.pc.SawStopped? && th.pc.my == count)
  }

  /** Whoever waits for a stop that is over has been sent the restart signal. */
  ghost predicate WakeSure(s: State) {
    forall t :: t in s.threads && Over(s, t) && WillWait(s.threads[t], s.stopCount) ==> s.threads[t].restartPending
  }

  lemma WakeSureKept(s: State, a: Action)
    requires Inv(s) && WakeSure(s) && Enabled(s, a)
    ensures WakeSure(Do(s, a))
  {
    var s' := Do(s, a);
    forall t | t in s'.threads && Over(s', t) && WillWait(s'.threads[t], s'.stopCount)
      ensures s'.threads[t].restartPending
    {
      if t in s.threads { assert ThreadOk(s, t); }
    }
  }

  // ---- How much is left to do ----

  /** The steps that a thread in its handler has to take until it is back in the program, if its stop is over. */
  function ToLeave(th: Thread, count: nat): (n: nat)
    ensures n <= 5
  {
    match th.pc
    case Posted(_) => 5
    case SawStopped(my) => if my == count then 5 else 2
    case Waiting(_) => 4
    case Woken(_) => 3
    case _ => 0
  }

  /** The steps until a thread that has been sent the suspend signal acknowledges it. */
  function ToAcknowledge(th: Thread, count: nat): (n: nat)
    ensures n <= 10
  {
    match th.pc
    case Entered => 4
    case Loaded(_) => 3
    case Posting(_) => 2
    case _ => if th.suspendPending then 5 + ToLeave(th, count) else 0
  }

  ghost function Owed(s: State, ts: set<Tid>): nat
    requires ts <= s.threads.Keys
  {
    if ts == {} then 0
    else
      var t :| t in ts;
      ToAcknowledge(s.threads[t], s.stopCount) + Owed(s, ts - {t})
  }

  function StageWork(s: State): nat {
    match s.stage
    case Counted => 12 * |s.threads| + 3
    case Suspending(todo, sent) => 12 * |todo| + sent + 2
    case Collecting(missing) => missing + 1
    case Restarting(todo) => |todo| + 1
    case _ => 0
  }

  ghost function Work(s: State): nat {
    StageWork(s) + Owed(s, s.threads.Keys)
  }

  /** A stop or a restart is under way. */
  predicate Busy(stage: Stage) {
    !stage.Idle? && !stage.Stopped?
  }

  /** A step of the thread that stops the world, or of one that owes an acknowledgement. */
  predicate Working(s: State, a: Action) {
    if OwnStep(a) then a.t in s.threads && Owes(s.threads[a.t]) else !LockStep(a)
  }

  /** The sum does not depend on the order of threads. */
  lemma {:induction false} OwedWithout(s: State, ts: set<Tid>, t: Tid)
    requires ts <= s.threads.Keys && t in ts
    ensures Owed(s, ts) == ToAcknowledge(s.threads[t], s.stopCount) + Owed(s, ts - {t})
  {
    var u :| u in ts && Owed(s, ts) == ToAcknowledge(s.threads[u], s.stopCount) + Owed(s, ts - {u});
    if u != t {
      OwedWithout(s, ts - {u}, t);
      OwedWithout(s, ts - {t}, u);
      assert ts - {u} - {t} == ts - {t} - {u};
    }
  }

  lemma {:induction false} OwedSame(s: State, s': State, ts: set<Tid>)
    requires ts <= s.threads.Keys && ts <= s'.threads.Keys
    requires forall t :: t in ts ==>
        ToAcknowledge(s'.threads[t], s'.stopCount) == ToAcknowledge(s.threads[t], s.stopCount)
    ensures Owed(s', ts) == Owed(s, ts)
  {
    if ts != {} {
      var t :| t in ts;
      OwedWithout(s, ts, t);
      OwedWithout(s', ts, t);
      OwedSame(s, s', ts - {t});
    }
  }

  /** One thread's record changed. */
  lemma OwedOne(s: State, s': State, t: Tid)
    requires t in s.threads && t in s'.threads && s'.threads == s.threads[t := s'.threads[t]]
    requires s'.stopCount == s.stopCount
    ensures Owed(s', s'.threads.Keys) + ToAcknowledge(s.threads[t], s.stopCount)
         == Owed(s, s.threads.Keys) + ToAcknowledge(s'.threads[t], s.stopCount)
  {
    assert s'.threads.Keys == s.threads.Keys;
    OwedWithout(s, s.threads.Keys, t);
    OwedWithout(s', s.threads.Keys, t);
    OwedSame(s, s', s.threads.Keys - {t});
  }

  // ---- What a step does to the work left ----

  lemma OwnStepWorks(s: State, a: Action)
    requires Inv(s) && Busy(s.stage) && Enabled(s, a) && OwnStep(a)
    ensures ToAcknowledge(Do(s, a).threads[a.t], s.stopCount) <= ToAcknowledge(s.threads[a.t], s.stopCount)
    ensures Working(s, a) <==>
      ToAcknowledge(Do(s, a).threads[a.t], s.stopCount) < ToAcknowledge(s.threads[a.t], s.stopCount)
  {
    assert ThreadOk(s, a.t);
  }

  lemma SignalWorks(s: State, a: Action)
    requires Inv(s) && Enabled(s, a) && a.SuspendOne?
    ensures Work(Do(s, a)) < Work(s)
  {
    var s' := Do(s, a);
    var todo := s.stage.todo;
    assert |todo| == |todo - {a.t}| + 1;
    if NeedsSignal(s, a.t) {
      assert ThreadOk(s, a.t);
      OwedOne(s, s', a.t);
    } else {
      assert s'.threads == s.threads;
      OwedSame(s, s', s.threads.Keys);
    }
  }

  predicate StageStep(a: Action) {
    !OwnStep(a) && !LockStep(a) && !a.SuspendOne?
  }

  lemma StageStepOwes(s: State, a: Action)
    requires Inv(s) && Busy(s.stage) && Enabled(s, a) && StageStep(a)
    ensures Owed(Do(s, a), Do(s, a).threads.Keys) == Owed(s, s.threads.Keys)
  {
    var s' := Do(s, a);
    forall t | t in s.threads
      ensures t in s'.threads
        && ToAcknowledge(s'.threads[t], s'.stopCount) == ToAcknowledge(s.threads[t], s.stopCount)
    {
    }
    assert s'.threads.Keys == s.threads.Keys;
    OwedSame(s, s', s.threads.Keys);
  }

  lemma StageStepWorks(s: State, a: Action)
    requires Inv(s) && Busy(s.stage) && Enabled(s, a) && StageStep(a)
    ensures StageWork(Do(s, a)) < StageWork(s)
  {
    if a.RaiseFlag? { OthersAreFew(s); }
    if a.RestartOne? { assert |s.stage.todo| == |s.stage.todo - {a.t}| + 1; }
  }

  lemma OthersAreFew(s: State)
    ensures |Others(s)| <= |s.threads|
  {
    Fewer(Others(s), s.threads.Keys);
    assert |s.threads.Keys| == |s.threads|;
  }

  lemma Fewer(a: set<Tid>, b: set<Tid>)
    requires a <= b
    ensures |a| <= |b|
  {
    assert b == a + (b - a);
  }

  /**
    While a stop or restart is under way, each step of the thread that stops the world, and of a
    thread that owes an acknowledgement, leaves less work, and other steps leave as much.
   */
  lemma StepsWork(s: State, a: Action)
    requires Inv(s) && Busy(s.stage) && Enabled(s, a)
    ensures if Working(s, a) then Work(Do(s, a)) < Work(s)
            else Work(Do(s, a)) == Work(s) && Do(s, a).stage == s.stage
  {
    if OwnStep(a) {
      OwnStepWorks(s, a);
      OwedOne(s, Do(s, a), a.t);
    } else if a.SuspendOne? {
      SignalWorks(s, a);
    } else {
      assert !LockStep(a);
      StageStepOwes(s, a);
      StageStepWorks(s, a);
    }
  }

  // ---- Some step is always possible ----

  /** A step that waits for nothing but what has already happened. */
  predicate Ready(s: State, a: Action) {
    Enabled(s, a) && (a.Wake? ==> s.threads[a.t].restartPending)
  }

  /** The next step of a thread. */
  function NextOf(th: Thread, t: Tid): Action {
    match th.pc
    case Running => Deliver(t)
    case Entered => LoadCount(t)
    case Loaded(_) => CheckDuplicate(t)
    case Posting(_) => Post(t)
    case Posted(_) => StoreLast(t)
    case Waiting(_) => Wake(t)
    case Woken(_) => ReadFlag(t)
    case SawStopped(_) => RereadCount(t)
  }

  /** A thread that owes an acknowledgement is never stuck. */
  lemma OwingIsReady(s: State, t: Tid)
    requires Inv(s) && WakeSure(s) && t in Owing(s)
    ensures var a := NextOf(s.threads[t], t); Ready(s, a) && Working(s, a)
  {
    assert ThreadOk(s, t);
  }

  /** While a stop or a restart is under way, it can go on. */
  lemma SomeStepIsReady(s: State) returns (a: Action)
    requires Inv(s) && WakeSure(s) && Busy(s.stage)
    ensures Ready(s, a) && Working(s, a)
  {
    match s.stage
    case Counted => a := RaiseFlag;
    case Suspending(todo, _) =>
      if todo == {} { a := AllSignalled; } else {
        var t :| t in todo;
        a := SuspendOne(t);
      }
    case Collecting(missing) =>
      if missing == 0 { a := AllAcked; } else if s.acks > 0 { a := TakeAck; } else {
        var t :| t in Owing(s);
        a := NextOf(s.threads[t], t);
        OwingIsReady(s, t);
      }
    case Restarting(todo) =>
      if todo == {} { a := AllRestarted; } else {
        var t :| t in todo;
        a := RestartOne(t);
      }
  }

  /** A thread whose stop is over, unless it is to be stopped again, is never stuck on its way out of its handler. */
  lemma LeavingIsReady(s: State, t: Tid)
    requires Inv(s) && WakeSure(s) && t in s.threads && Over(s, t)
    ensures var a := NextOf(s.threads[t], t);
            && Ready(s, a) && ToLeave(Do(s, a).threads[t], s.stopCount) < ToLeave(s.threads[t], s.stopCount)
            && (Over(Do(s, a), t) || Do(s, a).threads[t].pc.Running?)
  {
    assert ThreadOk(s, t);
  }

  /** Nor does any step of another thread set it back. */
  lemma LeavingIsKept(s: State, a: Action, t: Tid)
    requires Inv(s) && Enabled(s, a) && t in s.threads && Over(s, t) && !(OwnStep(a) && a.t == t)
    ensures t in Do(s, a).threads && Over(Do(s, a), t)
    ensures ToLeave(Do(s, a).threads[t], Do(s, a).stopCount) <= ToLeave(s.threads[t], s.stopCount)
  {
    assert ThreadOk(s, t);
  }

  // ---- Runs ----

  lemma {:induction false} RunKeepsBoth(s: State, actions: seq<Action>)
    requires Inv(s) && WakeSure(s) && Enables(s, actions)
    ensures Inv(After(s, actions)) && WakeSure(After(s, actions))
    decreases |actions|
  {
    if actions != [] {
      InvKept(s, actions[0]);
      WakeSureKept(s, actions[0]);
      RunKeepsBoth(Do(s, actions[0]), actions[1..]);
    }
  }

  /** Nothing in the run waits for a signal that was not sent. */
  ghost predicate AllReady(s: State, actions: seq<Action>)
    requires Enables(s, actions)
    decreases |actions|
  {
    actions == [] || (Ready(s, actions[0]) && AllReady(Do(s, actions[0]), actions[1..]))
  }

  /** Where a stop or a restart ends. */
  function Goal(stage: Stage): Stage {
    if stage.Restarting? then Idle else Stopped
  }

  lemma GoalKept(s: State, a: Action)
    requires Inv(s) && Busy(s.stage) && Enabled(s, a)
    ensures if Busy(Do(s, a).stage) then Goal(Do(s, a).stage) == Goal(s.stage) else Do(s, a).stage == Goal(s.stage)
  {
  }

  /** The rest of a stop or restart, from any point of it. */
  lemma {:induction false} Complete(s: State) returns (actions: seq<Action>)
    requires Inv(s) && WakeSure(s) && Busy(s.stage)
    ensures Enables(s, actions) && AllReady(s, actions) && After(s, actions).stage == Goal(s.stage)
    decreases Work(s)
  {
    var a := SomeStepIsReady(s);
    var s' := Do(s, a);
    StepsWork(s, a);
    InvKept(s, a);
    WakeSureKept(s, a);
    GoalKept(s, a);
    var rest := [];
    if Busy(s'.stage) { rest := Complete(s'); }
    actions := [a] + rest;
    assert actions[1..] == rest;
  }

  /** The steps of a run that are needed to finish the stop or restart. */
  ghost function WorkingSteps(s: State, actions: seq<Action>): nat
    requires Enables(s, actions)
    decreases |actions|
  {
    if actions == [] then 0
    else (if Working(s, actions[0]) then 1 else 0) + WorkingSteps(Do(s, actions[0]), actions[1..])
  }

  /** The stop or restart is under way before each step. */
  ghost predicate BusyThroughout(s: State, actions: seq<Action>)
    requires Enables(s, actions)
    decreases |actions|
  {
    actions == [] || (Busy(s.stage) && BusyThroughout(Do(s, actions[0]), actions[1..]))
  }

  lemma {:induction false} WorkBounds(s: State, actions: seq<Action>)
    requires Inv(s) && Enables(s, actions) && BusyThroughout(s, actions)
    ensures WorkingSteps(s, actions) + Work(After(s, actions)) <= Work(s)
    decreases |actions|
  {
    if actions != [] {
      StepsWork(s, actions[0]);
      InvKept(s, actions[0]);
      WorkBounds(Do(s, actions[0]), actions[1..]);
    }
  }

  /** Whatever happened so far, a stop or restart that is under way can be completed with the signals that were sent. */
  lemma EveryStopCanEnd(s: State, actions: seq<Action>) returns (rest: seq<Action>)
    requires Init(s) && Enables(s, actions) && Busy(After(s, actions).stage)
    ensures var s' := After(s, actions);
            Enables(s', rest) && AllReady(s', rest) && After(s', rest).stage == Goal(s'.stage)
  {
    assert Owing(s) == {};
    RunKeepsBoth(s, actions);
    rest := Complete(After(s, actions));
  }

  /** However threads are scheduled, only so many steps of it can be taken before it is over. */
  lemma NoStopGoesOnForever(s: State, actions: seq<Action>, more: seq<Action>)
    requires Init(s) && Enables(s, actions) && Enables(After(s, actions), more)
      && BusyThroughout(After(s, actions), more)
    ensures WorkingSteps(After(s, actions), more) <= Work(After(s, actions))
  {
    assert Owing(s) == {};
    RunKeepsInv(s, actions);
    WorkBounds(After(s, actions), more);
  }
}
