/**
  When collections start, go on and end (gc/alloc.c): GC_collect_a_little_inner, GC_maybe_gc and
  GC_try_to_collect_inner, one step at a time, while the program allocates and writes.

  Only the stopped marking runs with the world stopped. Everything between two calls of
  GC_mark_some or GC_stopped_mark is a point at which other threads may write.

  Main result: over every interleaving, the "unexpected state" abort of GC_initiate_gc is ruled
  out by this control flow, every collection that finishes has marked everything reachable, and
  the state sequence of a run is step for step the one the calls describe.
 */
module Collections {
  import opened ObjectGraph
  import opened Marker
  import opened Runs

  const GC_RATE := 10
  const MAX_PRIOR_ATTEMPTS := 1

  /** A stop function by its first TRUE answer in each place that asks it. */
  datatype StopFunc = NeverStops | Stops(wait: nat, mark: nat) {
    function ForMarking(): Stop {
      if NeverStops? then Never else After(mark)
    }
  }

  /**
    Who called GC_collect_a_little_inner: GC_try_to_collect_inner after `calls` questions to its
    stop function, or anybody.
   */
  datatype Caller = Anybody | Collect(f: StopFunc, calls: nat)

  /** Where the holder of the allocation lock is. */
  datatype Task =
    | Idle
    | Little(i: nat, limit: nat, caller: Caller)   // about to test i < limit in GC_collect_a_little_inner
    | Ending(limit: nat, caller: Caller)           // GC_mark_some has returned TRUE there
    | Maybe                                        // GC_maybe_gc, about to call GC_stopped_mark
    | Waiting(f: StopFunc, calls: nat)             // GC_try_to_collect_inner finishing a collection in progress
    | Preparing(f: StopFunc)                       // nothing is in progress any more
    | Marking(f: StopFunc)                         // marks are cleared, about to call GC_stopped_mark

  /** The collector's own variables. `unlimited` says that GC_time_limit is GC_TIME_UNLIMITED. */
  datatype Job = Job(task: Task, deficit: nat, attempts: nat, isFull: bool, unlimited: bool)

  datatype Snap = Snap(g: Globals, job: Job, rescan: seq<nat>)

  /**
    What happens next. `Proceed` lets the collector take a step: `timeout` is GC_timeout_stop_func,
    `grows` tells when memory for a larger mark stack is available, and `reclaimed` is what
    GC_reclaim_all answers to a stop function.
   */
  datatype Event =
    | Write(o: Obj, i: nat, w: Word, k: nat)
    | WriteRoot(j: nat, i: nat, w: Word)
    | SetStack(ws: seq<Word>)
    | Allocate(o: Obj, len: nat, kept: bool, bit: bool)
    | Release(o: Obj)
    | CollectALittle(n: nat, should: bool, full: bool)
    | TryToCollect(f: StopFunc)
    | Proceed(timeout: Stop, grows: nat -> bool, reclaimed: bool)

  /** What an event led to: nothing because it could not happen, a step, or the end of a stopped marking. */
  datatype Report = Skipped | Done | Collected(result: StopResult, full: bool)

  // ---- The control flow ----

  /** What every task may rely on. */
  ghost predicate TaskOk(g: Globals, task: Task) {
    match task
    case Idle => true
    case Little(_, _, _) => g.incremental && g.phase != None
    case Ending(_, _) => g.incremental && g.phase == None
    case Maybe => g.incremental && (g.phase == None || Cleared(g))
    case Waiting(_, _) => g.incremental
    case Preparing(_) => g.incremental ==> g.phase == None
    case Marking(_) => Cleared(g)
  }

  ghost predicate Cleared(g: Globals) {
    g.phase == Invalid && !g.objectsAreMarked && g.stack == []
  }

  /** GC_collect_a_little_inner returns. */
  function Return(caller: Caller): Task {
    match caller
    case Anybody => Idle
    case Collect(f, calls) => Waiting(f, calls)
  }

  function LessDeficit(job: Job, limit: nat): Job {
    job.(deficit := if job.deficit > limit then job.deficit - limit else 0)
  }

  /** GC_finish_collection, as far as it concerns the next collection. */
  function FinishedJob(job: Job): Job {
    job.(attempts := 0, isFull := false)
  }

  /**
    The start of GC_collect_a_little_inner, or of GC_maybe_gc if no collection is in progress. The
    mark stack is empty in the latter case, so that clearing the marks there is a start from scratch.
   */
  function StartLittle(p: Snap, n: nat, should: bool, full: bool): Snap {
    if p.g.incremental && p.g.phase != None then p.(job := p.job.(task := Little(p.job.deficit, GC_RATE * n, Anybody)))
    else if !should then p
    else if !p.g.incremental then p.(job := p.job.(task := Preparing(NeverStops)))
    else if full then p.(g := FromScratch(p.g), job := p.job.(task := Maybe, isFull := true))
    else p.(job := p.job.(task := Maybe))
  }

  function StartCollect(p: Snap, f: StopFunc): Snap {
    p.(job := p.job.(task := if p.g.incremental && p.g.phase != None then Waiting(f, 0) else Preparing(f)))
  }

  /** The loop test of GC_try_to_collect_inner while a collection is in progress. */
  function Wait(p: Snap, f: StopFunc, calls: nat): Snap {
    p.(job := p.job.(task :=
      if p.g.phase == None then Preparing(f)
      else if f.Stops? && calls >= f.wait then Idle
      else Little(p.job.deficit, GC_RATE, Collect(f, calls + 1))))
  }

  /** GC_reclaim_all, which may ask to stop, then GC_invalidate_mark_state and GC_clear_marks. */
  function Prepare(p: Snap, f: StopFunc, reclaimed: bool): Snap {
    if f.Stops? && !reclaimed then p.(job := p.job.(task := Idle))
    else p.(g := FromScratch(p.g), job := p.job.(task := Marking(f), isFull := true))
  }

  /** The stop function of the GC_stopped_mark call a task makes. */
  function StopOf(p: Snap, timeout: Stop): Stop {
    match p.job.task
    case Ending(_, _) => if p.job.attempts < MAX_PRIOR_ATTEMPTS && !p.job.unlimited then timeout else Never
    case Maybe => if p.job.unlimited then Never else timeout
    case Marking(f) => f.ForMarking()
    case _ => Never
  }

  /** The variables after GC_stopped_mark has returned. */
  function AfterMark(p: Snap, stop: Stop, r: StopResult): Job {
    var job := if r == Finished then FinishedJob(p.job)
        else p.job.(deficit := if stop.After? then stop.calls else p.job.deficit);
    match p.job.task
    case Ending(limit, caller) =>
      LessDeficit(if r == Finished then job else job.(attempts := job.attempts + 1), limit).(task := Return(caller))
    case Maybe => (if r == Finished || job.isFull then job else job.(attempts := job.attempts + 1)).(task := Idle)
    case _ => job.(task := Idle)
  }

  /** A stopped marking with its outcome. */
  ghost predicate MarkDid(p: Snap, timeout: Stop, q: Snap, rep: Report) {
    var stop := StopOf(p, timeout);
    && rep.Collected? && rep.full == (p.g.phase == Invalid)
    && StoppedMarked(p, q, stop, rep.result)
    && (rep.full ==> OnlyNamedMarked(q.g))
    && q.job == AfterMark(p, stop, rep.result)
  }

  /** GC_stopped_mark and, where it is given up for good, the flushing of its marks. */
  ghost predicate StoppedMarked(p: Snap, q: Snap, stop: Stop, r: StopResult) {
    exists g :: StoppedMarkDid(p.g, g, stop, r) &&
      q.g == if r == Abandoned && p.job.task.Marking? && !g.incremental then g.(phase := Invalid, stack := []) else g
  }

  /** A round of the loop in GC_collect_a_little_inner, or its end. */
  ghost predicate LittleDid(p: Snap, q: Snap)
    requires p.job.task.Little?
  {
    var Little(i, limit, caller) := p.job.task;
    if i >= limit then q == p.(job := LessDeficit(p.job, limit).(task := Return(caller)))
    else
      var done := q.job.task.Ending?;
      && MarkSomeDid(p.g, q.g, done) && RescanStep(p.g, p.rescan, q.g, q.rescan)
      && q.job == p.job.(task := if done then Ending(limit, caller) else Little(i + 1, limit, caller))
  }

  /** A step of the collector. */
  ghost predicate Proceeded(p: Snap, timeout: Stop, reclaimed: bool, q: Snap, rep: Report) {
    match p.job.task
    case Idle => q == p && rep == Skipped
    case Little(_, _, _) => LittleDid(p, q) && rep == Done
    case Waiting(f, calls) => q == Wait(p, f, calls) && rep == Done
    case Preparing(f) => q == Prepare(p, f, reclaimed) && rep == Done
    case _ => MarkDid(p, timeout, q, rep)
  }

  /** What each event does, and when it cannot happen. */
  ghost predicate Did(p: Snap, e: Event, q: Snap, rep: Report) {
    match e
    case Write(o, i, w, k) =>
      if o in p.g.fields && i < |p.g.fields[o]| && k < |p.g.fields[o]|
      then rep == Done && q == p.(g := p.g.(fields := p.g.fields[o := p.g.fields[o][i := w]],
                                            dirty := if p.g.incremental then p.g.dirty + {PageIndex(o, k)}
                                                else p.g.dirty))
      else rep == Skipped && q == p
    case WriteRoot(j, i, w) =>
      if j < |p.g.segs| && i < |p.g.segs[j]|
      then rep == Done && q == p.(g := p.g.(segs := p.g.segs[j := p.g.segs[j][i := w]]))
      else rep == Skipped && q == p
    case SetStack(ws) => rep == Done && q == p.(g := p.g.(eager := ws))
    case Allocate(o, len, kept, bit) =>
      if o !in p.g.fields && 1 <= Block(o) && (bit && !kept ==> p.g.objectsAreMarked)
      then rep == Done && q == p.(g := p.g.WithObject(o, len, kept, bit))
      else rep == Skipped && q == p
    case Release(o) =>
      if o in p.g.fields then rep == Done && q == p.(g := p.g.WithoutObject(o)) else rep == Skipped && q == p
    case CollectALittle(n, should, full) =>
      if p.job.task.Idle? then rep == Done && q == StartLittle(p, n, should, full) else rep == Skipped && q == p
    case TryToCollect(f) =>
      if p.job.task.Idle? then rep == Done && q == StartCollect(p, f) else rep == Skipped && q == p
    case Proceed(timeout, grows, reclaimed) => Proceeded(p, timeout, reclaimed, q, rep)
  }

  class Driver {
    const c: Collector
    var job: Job

    ghost predicate Valid()
      reads this, c
    {
      c.Valid() && TaskOk(c.s, job.task)
    }

    ghost function Now(): Snap
      reads this, c
    {
      Snap(c.s, job, c.rescan)
    }

    constructor (incremental: bool, unlimited: bool, segs: seq<seq<Word>>)
      requires |segs| <= INITIAL_MARK_STACK_SIZE / 2
      ensures Valid() && fresh(c) && job == Job(Idle, 0, 0, false, unlimited)
      ensures c.s.incremental == incremental && c.s.segs == segs && c.s.fields == map[] && c.s.phase == None
    {
      c := new Collector(incremental, segs);
      job := Job(Idle, 0, 0, false, unlimited);
    }

    /** A step of the program. */
    method Mutate(e: Event) returns (rep: Report)
      requires Valid() && !e.CollectALittle? && !e.TryToCollect? && !e.Proceed?
      modifies this, c
      ensures Valid() && Did(old(Now()), e, Now(), rep)
    {
      rep := Done;
      match e {
        case Write(o, i, w, k) =>
          if o in c.s.fields && i < |c.s.fields[o]|
              && k < |c.s.fields[o]| { c.Write(o, i, w, k); } else { rep := Skipped; }
        case WriteRoot(j, i, w) =>
          if j < |c.s.segs| && i < |c.s.segs[j]| { c.WriteRoot(j, i, w); } else { rep := Skipped; }
        case SetStack(ws) => c.SetStack(ws);
        case Allocate(o, len, kept, bit) =>
          if o !in c.s.fields && 1 <= Block(o) && (bit && !kept ==> c.s.objectsAreMarked) {
            c.Allocate(o, len, kept, bit);
          } else {
            rep := Skipped;
          }
        case Release(o) =>
          if o in c.s.fields { c.Release(o); } else { rep := Skipped; }
      }
    }

    /** GC_collect_a_little_inner and GC_maybe_gc up to their first point at which others may run. */
    method CollectALittle(n: nat, should: bool, full: bool)
      requires Valid() && job.task.Idle?
      modifies this, c
      ensures Valid() && Now() == StartLittle(old(Now()), n, should, full)
    {
      if c.s.incremental && c.s.phase != None {
        job := job.(task := Little(job.deficit, GC_RATE * n, Anybody));
      } else if should {
        if !c.s.incremental {
          job := job.(task := Preparing(NeverStops));
        } else {
          if full {
            c.Reset();
            job := job.(isFull := true);
          }
          job := job.(task := Maybe);
        }
      }
    }

    /** GC_try_to_collect_inner, likewise. */
    method TryToCollect(f: StopFunc)
      requires Valid() && job.task.Idle?
      modifies this
      ensures Valid() && Now() == StartCollect(old(Now()), f)
    {
      job := job.(task := if c.s.incremental && c.s.phase != None then Waiting(f, 0) else Preparing(f));
    }

    /** A round of the loop in GC_collect_a_little_inner. */
    method StepLittle(grow: bool)
      requires Valid() && job.task.Little?
      modifies this, c
      ensures Valid() && LittleDid(old(Now()), Now())
    {
      var Little(i, limit, caller) := job.task;
      if i >= limit {
        job := LessDeficit(job, limit).(task := Return(caller));
      } else {
        var done := c.MarkSome(grow);
        job := job.(task := if done then Ending(limit, caller) else Little(i + 1, limit, caller));
      }
    }

    /** The loop of GC_try_to_collect_inner that finishes a collection in progress. */
    method StepWait()
      requires Valid() && job.task.Waiting?
      modifies this
      ensures Valid() && Now() == Wait(old(Now()), old(job).task.f, old(job).task.calls)
    {
      var Waiting(f, calls) := job.task;
      if c.s.phase == None {
        job := job.(task := Preparing(f));
      } else if f.Stops? && calls >= f.wait {
        job := job.(task := Idle);
      } else {
        job := job.(task := Little(job.deficit, GC_RATE, Collect(f, calls + 1)));
      }
    }

    /** GC_try_to_collect_inner between that loop and its marking. */
    method StepPrepare(reclaimed: bool)
      requires Valid() && job.task.Preparing?
      modifies this, c
      ensures Valid() && Now() == Prepare(old(Now()), old(job).task.f, reclaimed)
    {
      var Preparing(f) := job.task;
      if f.Stops? && !reclaimed {
        job := job.(task := Idle);
      } else {
        c.Reset();
        job := job.(task := Marking(f), isFull := true);
      }
    }

    /** A call of GC_stopped_mark, from wherever. It cannot abort. */
    method MarkStopped(timeout: Stop, grows: nat -> bool) returns (rep: Report)
      requires Valid() && (job.task.Ending? || job.task.Maybe? || job.task.Marking?)
      modifies this, c
      ensures Valid() && MarkDid(old(Now()), timeout, Now(), rep)
    {
      ghost var p := Now();
      var stop := NextStop(timeout);
      var task, full := job.task, c.s.phase == Invalid;
      var r: StopResult;
      if full {
        r := c.FullMark(stop, grows);
      } else {
        r := c.StoppedMark(stop, grows);
      }
      ghost var g := c.s;
      if r == Abandoned && task.Marking? && !c.s.incremental {
        c.Invalidate();
      }
      AdvanceJob(stop, r);
      rep := Collected(r, full);
      assert StoppedMarkDid(p.g, g, stop, r);
      assert StoppedMarked(p, Now(), stop, r);
    }

    method NextStop(timeout: Stop) returns (stop: Stop)
      ensures stop == StopOf(Now(), timeout)
    {
      match job.task {
        case Ending(_, _) => stop := if job.attempts < MAX_PRIOR_ATTEMPTS && !job.unlimited then timeout else Never;
        case Maybe => stop := if job.unlimited then Never else timeout;
        case Marking(f) => stop := f.ForMarking();
        case _ => stop := Never;
      }
    }

    method AdvanceJob(stop: Stop, r: StopResult)
      modifies this
      ensures job == AfterMark(old(Now()), stop, r)
    {
      var was := job;
      if r == Finished {
        job := FinishedJob(job);
      } else if stop.After? {
        job := job.(deficit := stop.calls);
      }
      match was.task {
        case Ending(limit, caller) =>
          if r != Finished { job := job.(attempts := job.attempts + 1); }
          job := LessDeficit(job, limit).(task := Return(caller));
        case Maybe =>
          if r != Finished && !job.isFull { job := job.(attempts := job.attempts + 1); }
          job := job.(task := Idle);
        case _ => job := job.(task := Idle);
      }
    }

    method Step(e: Event) returns (rep: Report)
      requires Valid()
      modifies this, c
      ensures Valid() && Did(old(Now()), e, Now(), rep)
    {
      match e {
        case CollectALittle(n, should, full) =>
          rep := if job.task.Idle? then Done else Skipped;
          if job.task.Idle? { CollectALittle(n, should, full); }
        case TryToCollect(f) =>
          rep := if job.task.Idle? then Done else Skipped;
          if job.task.Idle? { TryToCollect(f); }
        case Proceed(timeout, grows, reclaimed) =>
          rep := Done;
          match job.task {
            case Idle => rep := Skipped;
            case Little(_, _, _) => StepLittle(grows(0));
            case Waiting(_, _) => StepWait();
            case Preparing(_) => StepPrepare(reclaimed);
            case _ => rep := MarkStopped(timeout, grows);
          }
        case _ => rep := Mutate(e);
      }
    }
  }

  // ---- Whole runs ----

  /** What a collection promises about the state it leaves. */
  ghost predicate Good(rep: Report, g: Globals) {
    rep.Collected? ==>
      && rep.result != Aborted
      && (rep.result == Finished ==> AllReachableMarked(g))
      && (rep.full ==> OnlyNamedMarked(g))
  }

  ghost predicate AllGood(reports: seq<Report>, trace: seq<Snap>)
    requires |trace| == |reports| + 1
  {
    forall i :: 0 <= i < |reports| ==> Good(reports[i], trace[i + 1].g)
  }

  lemma DidIsGood(p: Snap, e: Event, q: Snap, rep: Report)
    requires Did(p, e, q, rep)
    ensures Good(rep, q.g)
  {
  }

  ghost predicate InOrder(p: Snap) {
    TaskOk(p.g, p.job.task) && RescanOk(p.g, p.rescan)
  }

  /** There are no objects, and nothing has been marked. */
  ghost predicate Initial(p: Snap, incremental: bool, unlimited: bool, segs: seq<seq<Word>>) {
    && p.job == Job(Idle, 0, 0, false, unlimited)
    && p.g.fields == map[] && p.g.segs == segs && p.g.incremental == incremental && p.g.phase == None
  }

  /**
    Any interleaving of the program's steps with those of collections started, waited for,
    stopped, abandoned and resumed: the states follow each other as the calls describe; none
    aborts; each collection that finishes has marked everything reachable at that moment, and one
    that started from cleared marks nothing but what possible references lead to; and a phase
    about to push the roots again has scanned the heap from the bottom.
   */
  method Run(incremental: bool, unlimited: bool, segs: seq<seq<Word>>, events: seq<Event>)
      returns (reports: seq<Report>)
    requires |segs| <= INITIAL_MARK_STACK_SIZE / 2
    ensures exists trace ::
      && Follows(trace, events, reports, Did, InOrder)
      && Initial(trace[0], incremental, unlimited, segs) && AllGood(reports, trace)
    ensures forall i :: 0 <= i < |reports| && reports[i].Collected? ==> reports[i].result != Aborted
  {
    var d := new Driver(incremental, unlimited, segs);
    reports := [];
    ghost var trace := [d.Now()];
    NoEvents(d.Now(), Did, InOrder);
    for n := 0 to |events|
      invariant d.Valid() && fresh(d) && fresh(d.c)
      invariant Follows(trace, events[..n], reports, Did, InOrder) && trace[n] == d.Now()
      invariant Initial(trace[0], incremental, unlimited, segs) && AllGood(reports, trace)
    {
      var rep := d.Step(events[n]);
      DidIsGood(trace[n], events[n], d.Now(), rep);
      OneMore(trace, events[..n], reports, Did, InOrder, events[n], d.Now(), rep);
      Prefix(events, n);
      reports, trace := reports + [rep], trace + [d.Now()];
    }
    assert events[..|events|] == events;
  }
}
