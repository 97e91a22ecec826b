/**
  Stopping and restarting the world with signals (gc/pthread_stop_world.c) together with
  the blocking wrapper and thread registration (gc/pthread_support.c).

  Each `Action` is one access to shared memory, one signal event or one short critical
  section under the allocation lock. Signals of one kind do not queue. While a thread is in
  its suspend handler the suspend signal stays pending; any other signal may wake it.

  Main result, over every run of any number of stop and start cycles: from the return of
  GC_stop_world until GC_start_world clears the flag, every other registered unfinished
  thread is inside its handler for this very stop, or is marked blocked, in either case with
  its stack pointer saved; and the acknowledgement semaphore is back to zero.
 */
module StopWorld {

  type Tid = nat

  datatype Pc =
    | Running
    | Entered                  // suspend handler entered
    | Loaded(my: nat)          // has read GC_stop_count
    | Posting(my: nat)         // stack pointer saved, about to sem_post
    | Posted(my: nat)          // about to store last_stop_count
    | Waiting(my: nat)         // in sigsuspend
    | Woken(my: nat)           // about to read GC_world_is_stopped
    | SawStopped(my: nat)      // read it as true, about to read GC_stop_count again

  datatype Thread = Thread(
    pc: Pc,
    lastStop: nat,
    spSaved: bool,
    blocked: bool,
    finished: bool,
    suspendPending: bool,
    restartPending: bool)

  /** Where the holder of the allocation lock is in GC_stop_world or GC_start_world. */
  datatype Stage =
    | Idle
    | Counted                              // GC_stop_count incremented
    | Suspending(todo: set<Tid>, sent: nat)
    | Collecting(missing: nat)             // waiting for that many acknowledgements
    | Stopped                              // GC_stop_world has returned
    | Restarting(todo: set<Tid>)

  datatype State = State(
    threads: map<Tid, Thread>,
    holder: seq<Tid>,
    stage: Stage,
    stopCount: nat,
    worldIsStopped: bool,
    acks: nat)
  {
    predicate HeldBy(t: Tid) { holder == [t] }

    function With(t: Tid, th: Thread): State {
      this.(threads := threads[t := th])
    }
  }

  datatype Action =
    // any thread
    | Deliver(t: Tid) | LoadCount(t: Tid) | CheckDuplicate(t: Tid) | Post(t: Tid) | StoreLast(t: Tid)
    | Wake(t: Tid) | ReadFlag(t: Tid) | RereadCount(t: Tid)
    // under the allocation lock
    | Acquire(t: Tid) | Release | Register(t: Tid) | Finish(t: Tid) | Unregister(t: Tid) | Block(t: Tid) | Unblock(t:
        Tid)
    // the thread that stops the world
    | CountUp | RaiseFlag | SuspendOne(t: Tid) | AllSignalled | TakeAck | AllAcked
    | LowerFlag | RestartOne(t: Tid) | AllRestarted

  predicate Enabled(s: State, a: Action) {
    match a
    case Deliver(t) => t in s.threads && s.threads[t].suspendPending && s.threads[t].pc.Running?
        && !s.threads[t].finished
    case LoadCount(t) => t in s.threads && s.threads[t].pc.Entered?
    case CheckDuplicate(t) => t in s.threads && s.threads[t].pc.Loaded?
    case Post(t) => t in s.threads && s.threads[t].pc.Posting?
    case StoreLast(t) => t in s.threads && s.threads[t].pc.Posted?
    case Wake(t) => t in s.threads && s.threads[t].pc.Waiting?
    case ReadFlag(t) => t in s.threads && s.threads[t].pc.Woken?
    case RereadCount(t) => t in s.threads && s.threads[t].pc.SawStopped?
    case Acquire(t) => s.holder == [] && t in s.threads && s.threads[t].pc.Running? && !s.threads[t].blocked
        && !s.threads[t].finished
    case Release => s.holder != [] && s.stage.Idle?
    case Register(t) => s.holder == [] && t !in s.threads
    case Finish(t) => s.holder == [] && t in s.threads && s.threads[t].pc.Running? && !s.threads[t].blocked
    case Unregister(t) => s.holder == [] && t in s.threads && s.threads[t].pc.Running? && !s.threads[t].blocked
    case Block(t) => s.holder == [] && t in s.threads && s.threads[t].pc.Running? && !s.threads[t].blocked
        && !s.threads[t].finished
    case Unblock(t) => s.holder == [] && t in s.threads && s.threads[t].pc.Running? && s.threads[t].blocked
    case CountUp => s.holder != [] && s.stage.Idle?
    case RaiseFlag => s.stage.Counted?
    case SuspendOne(t) => s.stage.Suspending? && t in s.stage.todo
    case AllSignalled => s.stage.Suspending? && s.stage.todo == {}
    case TakeAck => s.stage.Collecting? && s.stage.missing > 0 && s.acks > 0
    case AllAcked => s.stage.Collecting? && s.stage.missing == 0
    case LowerFlag => s.stage.Stopped?
    case RestartOne(t) => s.stage.Restarting? && t in s.stage.todo
    case AllRestarted => s.stage.Restarting? && s.stage.todo == {}
  }

  /** GC_suspend_all passes over finished, blocked and already stopped threads. */
  predicate NeedsSignal(s: State, t: Tid) {
    t in s.threads && !s.threads[t].finished && s.threads[t].lastStop != s.stopCount && !s.threads[t].blocked
  }

  function Others(s: State): set<Tid> {
    set t | t in s.threads && !s.HeldBy(t)
  }

  /** The next record of a thread that takes one of its own steps. */
  function Own(s: State, a: Action): Thread
    requires Enabled(s, a) && (a.Deliver? || a.LoadCount? || a.CheckDuplicate? || a.Post? || a.StoreLast? || a.Wake?
      || a.ReadFlag? || a.RereadCount?)
  {
    var th := s.threads[a.t];
    match a
    case Deliver(_) => th.(pc := Entered, suspendPending := false)
    case LoadCount(_) => th.(pc := Loaded(s.stopCount))
    case CheckDuplicate(_) =>
      if th.lastStop == th.pc.my then th.(pc := Running) else th.(pc := Posting(th.pc.my), spSaved := true)
    case Post(_) => th.(pc := Posted(th.pc.my))
    case StoreLast(_) => th.(pc := Waiting(th.pc.my), lastStop := th.pc.my)
    case Wake(_) => th.(pc := Woken(th.pc.my), restartPending := false)
    case ReadFlag(_) => th.(pc := if s.worldIsStopped then SawStopped(th.pc.my) else Running)
    case RereadCount(_) => th.(pc := if s.stopCount == th.pc.my then Waiting(th.pc.my) else Running)
  }

  function Do(s: State, a: Action): State
    requires Enabled(s, a)
  {
    match a
    case Deliver(t) => s.With(t, Own(s, a))
    case LoadCount(t) => s.With(t, Own(s, a))
    case CheckDuplicate(t) => s.With(t, Own(s, a))
    case Post(t) => s.With(t, Own(s, a)).(acks := s.acks + 1)
    case StoreLast(t) => s.With(t, Own(s, a))
    case Wake(t) => s.With(t, Own(s, a))
    case ReadFlag(t) => s.With(t, Own(s, a))
    case RereadCount(t) => s.With(t, Own(s, a))
    case Acquire(t) => s.(holder := [t])
    case Release => s.(holder := [])
    case Register(t) => s.With(t, Thread(Running, 0, false, false, false, false, false))
    case Finish(t) => s.With(t, s.threads[t].(finished := true))
    case Unregister(t) => s.(threads := s.threads - {t})
    case Block(t) => s.With(t, s.threads[t].(blocked := true, spSaved := true))
    case Unblock(t) => s.With(t, s.threads[t].(blocked := false))
    case CountUp => s.(stopCount := s.stopCount + 1, stage := Counted)
    case RaiseFlag => s.(worldIsStopped := true, stage := Suspending(Others(s), 0))
    case SuspendOne(t) =>
      if NeedsSignal(s, t) then
        s.With(t, s.threads[t].(suspendPending := true)).(stage := Suspending(s.stage.todo - {t}, s.stage.sent + 1))
      else s.(stage := Suspending(s.stage.todo - {t}, s.stage.sent))
    case AllSignalled => s.(stage := Collecting(s.stage.sent))
    case TakeAck => s.(acks := s.acks - 1, stage := Collecting(s.stage.missing - 1))
    case AllAcked => s.(stage := Stopped)
    case LowerFlag => s.(worldIsStopped := false, stage := Restarting(Others(s)))
    case RestartOne(t) =>
      if t in s.threads && !s.threads[t].finished && !s.threads[t].blocked then
        s.With(t, s.threads[t].(restartPending := true)).(stage := Restarting(s.stage.todo - {t}))
      else s.(stage := Restarting(s.stage.todo - {t}))
    case AllRestarted => s.(stage := Idle)
  }

  // ---- Invariant ----

  /** The thread has been sent the suspend signal and has not acknowledged it. */
  predicate Owes(th: Thread) {
    th.suspendPending || th.pc.Entered? || th.pc.Loaded? || th.pc.Posting?
  }

  function Owing(s: State): set<Tid> {
    set t | t in s.threads && Owes(s.threads[t])
  }

  /** The thread has acknowledged stop number `count` and is held in its handler until it ends. */
  predicate Held(th: Thread, count: nat) {
    (th.pc.Posted? || th.pc.Waiting? || th.pc.Woken? || th.pc.SawStopped?) && th.pc.my == count && th.spSaved
        && !th.suspendPending
  }

  /** The world is being stopped or is stopped. */
  predicate Stopping(stage: Stage) {
    stage.Suspending? || stage.Collecting? || stage.Stopped?
  }

  /** Acknowledgements that will still be taken from the semaphore. */
  function Expected(stage: Stage): nat {
    match stage
    case Suspending(_, sent) => sent
    case Collecting(missing) => missing
    case _ => 0
  }

  ghost predicate ThreadOk(s: State, t: Tid)
    requires t in s.threads
  {
    var th := s.threads[t];
    && th.lastStop <= s.stopCount
    && (!th.pc.Running? && !th.pc.Entered? ==> th.pc.my <= s.stopCount)
    && (th.blocked ==> th.spSaved && th.pc.Running? && !th.suspendPending)
    && (th.finished ==> th.pc.Running? && !th.suspendPending)
    // a thread that owes an acknowledgement owes it for the current stop
    && (Owes(th) ==> Stopping(s.stage) && th.lastStop < s.stopCount && !th.blocked && !th.finished)
    && (th.pc.Loaded? || th.pc.Posting? ==> th.pc.my == s.stopCount && !th.suspendPending)
    && (th.pc.Entered? ==> !th.suspendPending)
    // one signalled while still leaving an earlier stop
    && (th.suspendPending && !th.pc.Running? && !th.pc.Entered? ==> th.pc.my < s.stopCount)
    && (th.pc.Posting? ==> th.spSaved)
    // before it is signalled, nobody is held for the current stop
    && (s.stage.Counted? || (s.stage.Suspending? && (t in s.stage.todo || s.HeldBy(t))) ==>
          !Owes(th) && th.lastStop < s.stopCount && (!th.pc.Running? ==> th.pc.my < s.stopCount))
    // afterwards, everybody else owes an acknowledgement or is held
    && (Stopping(s.stage) && !s.HeldBy(t) && !(s.stage.Suspending? && t in s.stage.todo) && !th.finished
        && !th.blocked ==>
          Owes(th) || Held(th, s.stopCount))
    && (s.HeldBy(t) ==> th.pc.Running? && !th.blocked && !th.finished && !th.suspendPending)
  }

  ghost predicate Inv(s: State) {
    && |s.holder| <= 1
    && (s.holder != [] ==> s.holder[0] in s.threads)
    && (!s.stage.Idle? ==> s.holder != [])
    && (s.stage.Suspending? ==> s.stage.todo <= Others(s))
    && s.worldIsStopped == Stopping(s.stage)
    && s.acks + |Owing(s)| == Expected(s.stage)
    && forall t :: t in s.threads ==> ThreadOk(s, t)
  }

  /** What the collector relies on while it marks from the thread stacks. */
  ghost predicate WorldStopped(s: State) {
    && s.worldIsStopped && s.acks == 0
    && forall t :: t in s.threads && !s.HeldBy(t) && !s.threads[t].finished ==>
         s.threads[t].spSaved && (s.threads[t].blocked || Held(s.threads[t], s.stopCount))
  }

  lemma StoppedMeansStopped(s: State)
    requires Inv(s) && s.stage.Stopped?
    ensures WorldStopped(s)
  {
    forall t | t in s.threads ensures !Owes(s.threads[t]) {
      assert t !in Owing(s);
    }
    forall t | t in s.threads && !s.HeldBy(t) && !s.threads[t].finished
      ensures s.threads[t].spSaved && (s.threads[t].blocked || Held(s.threads[t], s.stopCount))
    {
      assert ThreadOk(s, t);
    }
  }

  // ---- Every step keeps the invariant ----

  predicate OwnStep(a: Action) {
    a.Deliver? || a.LoadCount? || a.CheckDuplicate? || a.Post? || a.StoreLast? || a.Wake? || a.ReadFlag?
        || a.RereadCount?
  }

  lemma OwingAfterWith(s: State, t: Tid, th: Thread)
    ensures Owing(s.With(t, th)) == if Owes(th) then Owing(s) + {t} else Owing(s) - {t}
  {
  }

  /** Changing one thread's record leaves the others' obligations alone. */
  lemma OthersKept(s: State, s': State, t: Tid)
    requires forall u :: u in s.threads ==> ThreadOk(s, u)
    requires s'.stage == s.stage && s'.stopCount == s.stopCount && s'.holder == s.holder
    requires forall u :: u in s'.threads && u != t ==> u in s.threads && s'.threads[u] == s.threads[u]
    requires t in s'.threads ==> ThreadOk(s', t)
    ensures forall u :: u in s'.threads ==> ThreadOk(s', u)
  {
    forall u | u in s'.threads ensures ThreadOk(s', u) {
      if u != t { assert ThreadOk(s, u); }
    }
  }

  lemma OwnStepKeepsThread(s: State, a: Action)
    requires Inv(s) && Enabled(s, a) && OwnStep(a)
    ensures ThreadOk(Do(s, a), a.t)
    ensures Owes(Own(s, a)) == (Owes(s.threads[a.t]) && !a.Post?)
    ensures a.Post? ==> Owes(s.threads[a.t])
  {
    assert ThreadOk(s, a.t);
  }

  lemma OwnStepKeepsInv(s: State, a: Action)
    requires Inv(s) && Enabled(s, a) && OwnStep(a)
    ensures Inv(Do(s, a))
  {
    OwnStepKeepsThread(s, a);
    OwnStepOwes(s, a);
    OthersKept(s, Do(s, a), a.t);
  }

  lemma OwnStepOwes(s: State, a: Action)
    requires Inv(s) && Enabled(s, a) && OwnStep(a)
    ensures a.Post? ==> a.t in Owing(s)
    ensures Owing(Do(s, a)) == if a.Post? then Owing(s) - {a.t} else Owing(s)
  {
    OwnStepKeepsThread(s, a);
    OwingAfterWith(s, a.t, Own(s, a));
  }

  predicate LockStep(a: Action) {
    a.Acquire? || a.Release? || a.Register? || a.Finish? || a.Unregister? || a.Block? || a.Unblock?
  }

  lemma LockStepKeepsInv(s: State, a: Action)
    requires Inv(s) && Enabled(s, a) && LockStep(a)
    ensures Inv(Do(s, a))
  {
    var s' := Do(s, a);
    assert s.stage.Idle?;
    forall u | u in s'.threads ensures ThreadOk(s', u) && (Owes(s'.threads[u]) ==> u in Owing(s)) {
      if u in s.threads { assert ThreadOk(s, u); }
    }
    assert Owing(s) == {} && Owing(s') <= Owing(s);
  }

  lemma SignalKeepsInv(s: State, a: Action)
    requires Inv(s) && Enabled(s, a) && a.SuspendOne?
    ensures Inv(Do(s, a))
  {
    var s' := Do(s, a);
    forall u | u in s'.threads ensures ThreadOk(s', u) {
      assert ThreadOk(s, u);
    }
    if NeedsSignal(s, a.t) {
      assert ThreadOk(s, a.t);
      assert a.t !in Owing(s);
      assert Owing(s') == Owing(s) + {a.t};
    } else {
      assert Owing(s') == Owing(s);
    }
  }

  lemma StageStepKeepsInv(s: State, a: Action)
    requires Inv(s) && Enabled(s, a) && !OwnStep(a) && !LockStep(a) && !a.SuspendOne?
    ensures Inv(Do(s, a))
  {
    var s' := Do(s, a);
    forall u | u in s'.threads ensures ThreadOk(s', u) && (Owes(s'.threads[u]) <==> u in Owing(s)) {
      assert ThreadOk(s, u);
      if s.acks + |Owing(s)| == 0 { assert u !in Owing(s); }
    }
    assert Owing(s') == Owing(s);
  }

  lemma InvKept(s: State, a: Action)
    requires Inv(s) && Enabled(s, a)
    ensures Inv(Do(s, a))
  {
    if OwnStep(a) {
      OwnStepKeepsInv(s, a);
    } else if LockStep(a) {
      LockStepKeepsInv(s, a);
    } else if a.SuspendOne? {
      SignalKeepsInv(s, a);
    } else {
      StageStepKeepsInv(s, a);
    }
  }

  // ---- Runs ----

  /** Initially nobody is registered. */
  predicate Init(s: State) {
    s == State(map[], [], Idle, 0, false, 0)
  }

  ghost predicate Enables(s: State, actions: seq<Action>)
    decreases |actions|
  {
    actions == [] || (Enabled(s, actions[0]) && Enables(Do(s, actions[0]), actions[1..]))
  }

  ghost function After(s: State, actions: seq<Action>): State
    requires Enables(s, actions)
    decreases |actions|
  {
    if actions == [] then s else After(Do(s, actions[0]), actions[1..])
  }

  lemma {:induction false} RunKeepsInv(s: State, actions: seq<Action>)
    requires Inv(s) && Enables(s, actions)
    ensures Inv(After(s, actions))
    decreases |actions|
  {
    if actions != [] {
      InvKept(s, actions[0]);
      RunKeepsInv(Do(s, actions[0]), actions[1..]);
    }
  }

  /** Whenever GC_stop_world has returned and the flag is not yet cleared, the world is stopped. */
  lemma StopTheWorldWorks(s: State, actions: seq<Action>)
    requires Init(s) && Enables(s, actions) && After(s, actions).stage.Stopped?
    ensures WorldStopped(After(s, actions))
  {
    assert Owing(s) == {};
    RunKeepsInv(s, actions);
    StoppedMeansStopped(After(s, actions));
  }

  /** A held thread cannot leave its handler while the flag is up. */
  lemma HeldStaysHeld(s: State, a: Action, t: Tid)
    requires Inv(s) && s.stage.Stopped? && Enabled(s, a) && !a.LowerFlag?
    requires t in s.threads && Held(s.threads[t], s.stopCount)
    ensures Do(s, a).stage.Stopped? && t in Do(s, a).threads && Held(Do(s, a).threads[t], Do(s, a).stopCount)
  {
    assert ThreadOk(s, t);
  }
}
