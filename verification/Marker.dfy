/**
  The sequential marker (gc/mark.c) with the collection driver around it
  (gc/alloc.c) and the MANUAL_VDB dirty table (gc/os_dep.c).

  Marking runs in small steps, `MarkSome`, through an explicit state machine. The
  mark stack is bounded: on overflow entries are dropped and the state falls back
  to `Invalid`. The mutator may run between steps; its heap writes are recorded
  only as hashed dirty pages.

  Main results: every operation keeps `Valid`, the driver never reaches an abort,
  marking with the world stopped terminates whatever the size of the mark stack,
  and when `StoppedMark` finishes every object reachable from the roots is marked.
 */
module Marker {
  import opened ObjectGraph

  const HBLK_WORDS := 512
  const SPLIT_RANGE_WORDS := 128
  const INITIAL_MARK_STACK_SIZE := 4096
  const MARK_STACK_DISCARDS := 512
  const PHT_ENTRIES := 0x40000

  /** When stop_func first asks to stop: never, or at some call. */
  datatype Stop = Never | After(calls: nat)

  /** How GC_stopped_mark ends. */
  datatype StopResult = Finished | Abandoned | Aborted

  datatype MarkState =
    | None | PushRescuers | PushUncollectable | RootsPushed | PartiallyInvalid | Invalid

  /** A mark stack entry: words `lo` to `hi` (exclusive) of an object or of a root segment. */
  datatype Entry =
    | ObjRange(o: Obj, lo: nat, hi: nat)
    | RootRange(seg: nat, lo: nat, hi: nat)

  function Block(addr: nat): nat { addr / HBLK_WORDS }

  /** The dirty table index of the page holding word `k` of the object at `o`. */
  function PageIndex(o: Obj, k: nat): nat { Block(o + k) % PHT_ENTRIES }

  /** Some page the object lies on is set in the (hashed) page table. */
  predicate TouchesPage(fields: Fields, o: Obj, table: set<nat>)
    requires o in fields
  {
    exists k :: 0 <= k < |fields[o]| && PageIndex(o, k) in table
  }

  /** GC_block_was_dirty for the block numbered `h`. */
  predicate BlockWasDirty(fields: Fields, h: nat, table: set<nat>) {
    exists o :: o in fields && Block(o) == h && TouchesPage(fields, o, table)
  }

  /** Every object of `objs` has a page in the table. */
  ghost predicate Recorded(fields: Fields, objs: set<Obj>, table: set<nat>) {
    forall o :: o in objs && o in fields ==> TouchesPage(fields, o, table)
  }

  lemma RecordedGrows(fields: Fields, objs: set<Obj>, table0: set<nat>, table: set<nat>)
    requires Recorded(fields, objs, table0) && table0 <= table
    ensures Recorded(fields, objs, table)
  {
  }

  /** Objects lie within the plausible addresses and below the last heap block. */
  ghost predicate WellPlaced(fields: Fields, least: nat, greatest: nat, heapEnd: nat) {
    forall o :: o in fields ==> least <= o < greatest && 1 <= Block(o) < heapEnd
  }

  // ---- Mark stack ----

  predicate WellFormedStack(stack: seq<Entry>) {
    forall e :: e in stack ==> e.lo < e.hi
  }

  /** Number of words the stack still asks to examine. */
  function StackWords(stack: seq<Entry>): nat
    requires WellFormedStack(stack)
  {
    if |stack| == 0 then 0
    else
      var last := stack[|stack| - 1];
      StackWords(stack[..|stack| - 1]) + (last.hi - last.lo)
  }

  predicate Covers(e: Entry, o: Obj, i: nat) {
    e.ObjRange? && e.o == o && e.lo <= i < e.hi
  }

  predicate CoversRoot(e: Entry, s: nat, i: nat) {
    e.RootRange? && e.seg == s && e.lo <= i < e.hi
  }

  ghost predicate OnStack(stack: seq<Entry>, o: Obj, i: nat) {
    exists k :: 0 <= k < |stack| && Covers(stack[k], o, i)
  }

  ghost predicate RootOnStack(stack: seq<Entry>, s: nat, i: nat) {
    exists k :: 0 <= k < |stack| && CoversRoot(stack[k], s, i)
  }

  /** The `k`th word of an entry's range; memory that is no longer an object's reads as a non-pointer. */
  function WordAt(fields: Fields, segs: seq<seq<Word>>, e: Entry, k: nat): Word {
    match e
    case ObjRange(o, lo, _) =>
      if o in fields && lo + k < |fields[o]| then fields[o][lo + k] else Int(0)
    case RootRange(s, lo, _) =>
      if s < |segs| && lo + k < |segs[s]| then segs[s][lo + k] else Int(0)
  }

  /** The first `n` words of an entry's range. */
  function Contents(fields: Fields, segs: seq<seq<Word>>, e: Entry, n: nat): (ws: seq<Word>) {
    seq(n, k requires 0 <= k => WordAt(fields, segs, e, k))
  }

  // ---- The tri-colour invariant ----

  /** A genuine reference in slot `i` of `o` is marked or the slot is still on the stack. */
  ghost predicate SlotOk(fields: Fields, marks: set<Obj>, stack: seq<Entry>, o: Obj, i: nat)
    requires o in fields && i < |fields[o]|
  {
    var w := fields[o][i];
    w.Ptr? && w.target in fields ==> w.target in marks || OnStack(stack, o, i)
  }

  /** Every marked object outside `ex` has only good slots. */
  ghost predicate Covered(fields: Fields, marks: set<Obj>, stack: seq<Entry>, ex: set<Obj>) {
    forall o, i :: o in fields && o in marks && o !in ex && 0 <= i < |fields[o]| ==>
      SlotOk(fields, marks, stack, o, i)
  }

  /** The same for root words; the eagerly scanned ones must be marked already. */
  ghost predicate RootsOk(fields: Fields, segs: seq<seq<Word>>, eager: seq<Word>, marks: set<Obj>, stack: seq<Entry>) {
    && (forall s, i :: 0 <= s < |segs| && 0 <= i < |segs[s]| && segs[s][i].Ptr? && segs[s][i].target in fields ==>
          segs[s][i].target in marks || RootOnStack(stack, s, i))
    && (forall q :: Ptr(q) in eager && q in fields ==> q in marks)
  }

  /** `marks`/`stack` extend `marks0`/`stack0` by marking objects and pushing each whole. */
  ghost predicate Greyed(fields: Fields, marks0: set<Obj>, stack0: seq<Entry>, marks: set<Obj>, stack: seq<Entry>) {
    && marks0 <= marks
    && stack0 <= stack
    && (forall q :: q in marks && q !in marks0 && q in fields && |fields[q]| > 0 ==>
          ObjRange(q, 0, |fields[q]|) in stack)
  }

  lemma OnStackGrows(stack0: seq<Entry>, stack: seq<Entry>, o: Obj, i: nat)
    requires stack0 <= stack
    ensures OnStack(stack0, o, i) ==> OnStack(stack, o, i)
    ensures RootOnStack(stack0, o, i) ==> RootOnStack(stack, o, i)
  {
  }

  /** Marking objects and pushing them keeps the invariant. */
  lemma GreyedKeepsCovered(fields: Fields, marks0: set<Obj>, stack0: seq<Entry>, marks: set<Obj>, stack: seq<Entry>,
      ex: set<Obj>)
    requires Covered(fields, marks0, stack0, ex)
    requires Greyed(fields, marks0, stack0, marks, stack)
    ensures Covered(fields, marks, stack, ex)
  {
    forall o, i | o in fields && o in marks && o !in ex && 0 <= i < |fields[o]|
      ensures SlotOk(fields, marks, stack, o, i)
    {
      if o in marks0 {
        assert SlotOk(fields, marks0, stack0, o, i);
        OnStackGrows(stack0, stack, o, i);
      } else {
        var e := ObjRange(o, 0, |fields[o]|);
        assert e in stack;
        var k :| 0 <= k < |stack| && stack[k] == e;
        assert Covers(stack[k], o, i);
      }
    }
  }

  lemma GreyedKeepsRoots(fields: Fields, segs: seq<seq<Word>>, eager: seq<Word>,
                         marks0: set<Obj>, stack0: seq<Entry>, marks: set<Obj>, stack: seq<Entry>)
    requires RootsOk(fields, segs, eager, marks0, stack0)
    requires marks0 <= marks && stack0 <= stack
    ensures RootsOk(fields, segs, eager, marks, stack)
  {
  }

  /** The stack left once the first `n` words of its top entry are taken off. */
  function AfterTake(rest: seq<Entry>, e: Entry, n: nat): seq<Entry>
    requires n <= e.hi - e.lo
  {
    if n < e.hi - e.lo then rest + [e.(lo := e.lo + n)] else rest
  }

  lemma TakenSlots(rest: seq<Entry>, e: Entry, n: nat, o: Obj, i: nat)
    requires n <= e.hi - e.lo
    ensures OnStack(rest + [e], o, i) ==>
              OnStack(AfterTake(rest, e, n), o, i) || (e.ObjRange? && e.o == o && e.lo <= i < e.lo + n)
    ensures RootOnStack(rest + [e], o, i) ==>
              RootOnStack(AfterTake(rest, e, n), o, i) || (e.RootRange? && e.seg == o && e.lo <= i < e.lo + n)
  {
  }

  /** Taking words off the stack and marking what they refer to keeps the invariant. */
  lemma ScanKeepsCovered(fields: Fields, segs: seq<seq<Word>>, marks0: set<Obj>, rest: seq<Entry>, e: Entry, n: nat,
                         marks: set<Obj>, stack: seq<Entry>, ex: set<Obj>)
    requires n <= e.hi - e.lo
    requires Covered(fields, marks0, rest + [e], ex)
    requires Greyed(fields, marks0, AfterTake(rest, e, n), marks, stack)
    requires forall k :: 0 <= k < n ==> WordAt(fields, segs, e, k).Value() in fields ==>
      WordAt(fields, segs, e, k).Value() in marks
    ensures Covered(fields, marks, stack, ex)
  {
    var left := AfterTake(rest, e, n);
    forall o, i | o in fields && o in marks && o !in ex && 0 <= i < |fields[o]|
      ensures SlotOk(fields, marks, stack, o, i)
    {
      if o in marks0 {
        assert SlotOk(fields, marks0, rest + [e], o, i);
        TakenSlots(rest, e, n, o, i);
        OnStackGrows(left, stack, o, i);
        if e.ObjRange? && e.o == o && e.lo <= i < e.lo + n {
          assert WordAt(fields, segs, e, i - e.lo) == fields[o][i];
        }
      } else {
        var whole := ObjRange(o, 0, |fields[o]|);
        assert whole in stack;
        var k :| 0 <= k < |stack| && stack[k] == whole;
        assert Covers(stack[k], o, i);
      }
    }
  }

  lemma ScanKeepsRoots(fields: Fields, segs: seq<seq<Word>>, eager: seq<Word>, marks0: set<Obj>, rest: seq<Entry>,
      e: Entry, n: nat,
                       marks: set<Obj>, stack: seq<Entry>)
    requires n <= e.hi - e.lo
    requires RootsOk(fields, segs, eager, marks0, rest + [e])
    requires marks0 <= marks && AfterTake(rest, e, n) <= stack
    requires forall k :: 0 <= k < n ==> WordAt(fields, segs, e, k).Value() in fields ==>
      WordAt(fields, segs, e, k).Value() in marks
    ensures RootsOk(fields, segs, eager, marks, stack)
  {
    var left := AfterTake(rest, e, n);
    forall s, i | 0 <= s < |segs| && 0 <= i < |segs[s]| && segs[s][i].Ptr? && segs[s][i].target in fields
      ensures segs[s][i].target in marks || RootOnStack(stack, s, i)
    {
      TakenSlots(rest, e, n, s, i);
      OnStackGrows(left, stack, s, i);
      if e.RootRange? && e.seg == s && e.lo <= i < e.lo + n {
        assert WordAt(fields, segs, e, i - e.lo) == segs[s][i];
      }
    }
  }

  /** The collector's global variables. */
  datatype Globals = Globals(
    // heap and roots
    fields: Fields,
    marks: set<Obj>,
    uncollectable: set<Obj>,
    segs: seq<seq<Word>>,
    eager: seq<Word>,
    least: nat,
    greatest: nat,
    heapEnd: nat,
    // dirty pages since the last read, and those found by the last read
    dirty: set<nat>,
    grungy: set<nat>,
    // marker
    stack: seq<Entry>,
    limit: nat,
    phase: MarkState,
    scan: nat,
    tooSmall: bool,
    objectsAreMarked: bool,
    incremental: bool)
  {
    predicate StackOk() {
      WellFormedStack(stack) && |stack| <= limit && limit >= INITIAL_MARK_STACK_SIZE
    }

    predicate Plausible(v: nat) {
      least <= v < greatest
    }

    ghost predicate HeapOk() {
      WellPlaced(fields, least, greatest, heapEnd)
    }

    /**
      Unless marking has to start over, the stack accounts for all unscanned words, in objects but
      those in `ex` and in the roots.
     */
    ghost predicate Accounted(ex: set<Obj>, rootsCovered: bool) {
      phase != Invalid ==>
          Covered(fields, marks, stack, ex) && (rootsCovered ==> RootsOk(fields, segs, eager, marks, stack))
    }

    /** All that is marked or to be scanned lies in `bound`, which holds whatever its own words and the roots name. */
    ghost predicate Within(bound: set<Obj>) {
      && marks <= bound
      && (forall e :: e in stack && e.ObjRange? ==> e.o in bound)
      && ClosedUnderNames(fields, segs, eager, bound)
    }

    /** A full collection that has not marked anything yet starts its scan at the bottom of the heap. */
    predicate Ready() {
      phase == Invalid && !objectsAreMarked ==> scan == 0
    }

    /** The marked objects whose slots need not be good in the current phase. */
    ghost function Excused(written: set<Obj>, grungyWritten: set<Obj>): set<Obj> {
      match phase
      case None => written
      case RootsPushed => written
      case PushRescuers => written + Ahead(grungyWritten, scan)
      case PushUncollectable => written + Ahead(uncollectable, scan)
      case PartiallyInvalid => written + Ahead(fields.Keys, scan)
      case Invalid => fields.Keys
    }

    /**
      What every operation keeps. `written` are the objects written since the last
      GC_read_dirty, `grungyWritten` those written before it, and `rootsCovered` says that
      the roots have not changed since they were last pushed.
     */
    ghost predicate Sound(written: set<Obj>, grungyWritten: set<Obj>, rootsCovered: bool) {
      && StackOk() && HeapOk()
      && |segs| <= INITIAL_MARK_STACK_SIZE / 2
      && scan <= heapEnd
      && uncollectable <= marks
      && written <= fields.Keys && grungyWritten <= fields.Keys && uncollectable <= fields.Keys
      && (phase == None ==> stack == [])
      && (phase == PartiallyInvalid ==> objectsAreMarked)
      && Covered(fields, marks, stack, Excused(written, grungyWritten))
      && (incremental ==> Recorded(fields, written, dirty))
      && (phase == PushRescuers ==> Recorded(fields, grungyWritten, grungy))
      && (!objectsAreMarked ==> marks * fields.Keys <= uncollectable)
      && (incremental ==> Ready())
      && (rootsCovered ==> phase in {RootsPushed, None} && RootsOk(fields, segs, eager, marks, stack))
    }

    function BlocksLeft(): nat {
      if scan <= heapEnd then heapEnd - scan + 1 else 0
    }

    function WorkLeft(): Work
      requires WellFormedStack(stack)
    {
      Work(Rank(phase, scan), BlocksLeft(), StackWords(stack))
    }

    /** The state once the object at `o` has been swept or freed. */
    function WithoutObject(o: Obj): Globals {
      this.(fields := ForgetAll(fields, o) - {o},
            segs := ForgetRoots(segs, o),
            eager := Forget(eager, o),
            uncollectable := uncollectable - {o})
    }

    /** The state once an object of `len` words has been allocated at `o`. */
    function WithObject(o: Obj, len: nat, kept: bool, bit: bool): Globals {
      this.(fields := ForgetAll(fields, o)[o := seq(len, k requires 0 <= k < len => Int(0))],
            segs := ForgetRoots(segs, o),
            eager := Forget(eager, o),
            marks := if bit || kept then marks + {o} else marks - {o},
            uncollectable := if kept then uncollectable + {o} else uncollectable,
            least := if o < least then o else least,
            greatest := if o >= greatest then o + 1 else greatest,
            heapEnd := if Block(o) >= heapEnd then Block(o) + 1 else heapEnd)
    }
  }

  /** The objects the roots refer to. */
  ghost function RootsOf(g: Globals): set<Obj> {
    (set j, i | 0 <= j < |g.segs| && 0 <= i < |g.segs[j]| && g.segs[j][i].Ptr? :: g.segs[j][i].target)
    + (set q | q in g.fields && Ptr(q) in g.eager)
  }

  /** Everything the client can still reach is marked. */
  ghost predicate AllReachableMarked(g: Globals) {
    forall o :: Reachable(g.fields, RootsOf(g), o) ==> o in g.marks
  }

  /** No reference in a marked object or in a root leads to an unmarked one. */
  ghost predicate MarksClosed(g: Globals) {
    Closed(g.fields, g.marks) && forall q :: q in RootsOf(g) && q in g.fields ==> q in g.marks
  }

  /** Nothing is marked but what some chain of possible references leads to. */
  ghost predicate OnlyNamedMarked(g: Globals) {
    forall o :: o in g.marks && o in g.fields ==> Named(g, o)
  }

  // ---- What collector steps do ----

  /** A call of GC_mark_some. */
  ghost predicate MarkSomeDid(g: Globals, g': Globals, done: bool) {
    && g' == g.(stack := g'.stack, phase := g'.phase, tooSmall := g'.tooSmall, marks := g'.marks, dirty := g'.dirty,
                objectsAreMarked := g'.objectsAreMarked, scan := g'.scan, limit := g'.limit)
    && g.dirty <= g'.dirty && g.marks <= g'.marks <= g.marks + g.fields.Keys
    && (g.objectsAreMarked ==> g'.objectsAreMarked)
    && (done ==> g.phase == RootsPushed && g.stack == [] && g'.phase == None && g'.marks == g.marks)
    && (!done && g.phase != None ==> g'.phase != None)
    && WellFormedStack(g.stack) && WellFormedStack(g'.stack)
    && (!done && g.phase != None && g'.marks == g.marks ==> g'.WorkLeft().Below(g.WorkLeft()))
  }

  /** A call of GC_stopped_mark. */
  ghost predicate StoppedMarkDid(g: Globals, g': Globals, stop: Stop, r: StopResult) {
    && g' == g.(stack := g'.stack, phase := g'.phase, tooSmall := g'.tooSmall, marks := g'.marks, dirty := g'.dirty,
                objectsAreMarked := g'.objectsAreMarked, scan := g'.scan, limit := g'.limit, grungy := g'.grungy)
    && g.marks <= g'.marks <= g.marks + g.fields.Keys && (g.objectsAreMarked ==> g'.objectsAreMarked)
    && r != Aborted
    && (r == Abandoned ==> stop.After? && g'.phase != None)
    && (r == Finished ==> g'.phase == None && MarksClosed(g') && AllReachableMarked(g'))
  }

  // ---- The heap scan that must precede the roots ----

  /** The positions of a heap scan that began at the bottom of the heap. */
  ghost predicate FromBottom(rescan: seq<nat>) {
    rescan != [] && rescan[0] == 0 && forall i, j :: 0 <= i < j < |rescan| ==> rescan[i] < rescan[j]
  }

  /** Throughout PartiallyInvalid the scan began at the bottom and has reached the scan pointer. */
  ghost predicate RescanOk(g: Globals, rescan: seq<nat>) {
    g.phase == PartiallyInvalid ==> FromBottom(rescan) && rescan[|rescan| - 1] == g.scan
  }

  ghost predicate NoBlockFrom(fields: Fields, h: nat) {
    forall o :: o in fields ==> Block(o) < h
  }

  /** The scan went from `from` to `to` past one used block, whose marked objects are all on the stack. */
  ghost predicate PassedOneBlock(g: Globals, from: nat, to: nat) {
    && from < to
    && (exists o :: o in g.fields && Block(o) == to - 1)
    && (forall o :: o in g.fields && from <= Block(o) < to ==> Block(o) == to - 1)
    && (forall o :: o in g.fields && Block(o) == to - 1 && o in g.marks && |g.fields[o]| > 0 ==>
        ObjRange(o, 0, |g.fields[o]|) in g.stack)
  }

  /**
    How one call of GC_mark_some moves the scan. From Invalid the next phase but Invalid is
    PartiallyInvalid, entered with the scan at the bottom; there each call marks from the stack
    or, with an empty one, passes exactly one used block; and only when no used block is left,
    without an overflow since the bottom, are the roots pushed.
   */
  ghost predicate RescanStep(g: Globals, r: seq<nat>, g': Globals, r': seq<nat>) {
    match g.phase
    case PartiallyInvalid =>
      && (g'.phase == PartiallyInvalid ==>
            if g.stack != [] then g'.scan == g.scan && r' == r
            else PassedOneBlock(g', g.scan, g'.scan) && r' == r + [g'.scan])
      && (g'.phase == RootsPushed ==> g.stack == [] && r' == r && NoBlockFrom(g.fields, g.scan))
      && g'.phase in {PartiallyInvalid, RootsPushed, Invalid}
    case Invalid =>
      && (g'.phase == PartiallyInvalid ==>
          g.stack == [] && g.scan == 0 && PassedOneBlock(g', 0, g'.scan) && r' == [0, g'.scan])
      && (g'.phase == RootsPushed ==> g.stack == [] && g.scan == 0 && r' == [0] && NoBlockFrom(g.fields, 0))
      && (g.objectsAreMarked ==> g'.phase in {PartiallyInvalid, RootsPushed, Invalid})
    case _ => r' == r && g'.phase != PartiallyInvalid
  }

  /** The state after all marks but those of uncollectable objects are gone and the stack is flushed. */
  function FromScratch(g: Globals): Globals {
    g.(marks := g.uncollectable, objectsAreMarked := false, phase := Invalid, scan := 0, stack := [])
  }

  // ---- Conservative reachability ----

  /** What the words of the roots could refer to. */
  function RootNames(g: Globals): set<Obj> {
    (set j, i | 0 <= j < |g.segs| && 0 <= i < |g.segs[j]| && g.segs[j][i].Value() in g.fields :: g.segs[j][i].Value())
    + Targets(g.fields, g.eager)
  }

  /** Some chain of words that could be references leads from the roots or an uncollectable object to `o`. */
  ghost predicate Named(g: Globals, o: Obj) {
    Reachable(AsPointers(g.fields), RootNames(g) + g.uncollectable, o)
  }

  ghost function AllNamed(g: Globals): set<Obj> {
    set o | o in g.fields && Named(g, o)
  }

  /** A set that contains what its objects' words and the roots' words name. */
  ghost predicate ClosedUnderNames(fields: Fields, segs: seq<seq<Word>>, eager: seq<Word>, bound: set<Obj>) {
    && (forall o, i :: o in fields && o in bound && 0 <= i < |fields[o]| && fields[o][i].Value() in fields ==>
        fields[o][i].Value() in bound)
    && (forall j, i :: 0 <= j < |segs| && 0 <= i < |segs[j]| && segs[j][i].Value() in fields ==>
        segs[j][i].Value() in bound)
    && Targets(fields, eager) <= bound
  }

  lemma AllNamedIsClosed(g: Globals)
    requires g.uncollectable <= g.fields.Keys
    ensures ClosedUnderNames(g.fields, g.segs, g.eager, AllNamed(g)) && g.uncollectable <= AllNamed(g)
  {
    var start, ptrs := RootNames(g) + g.uncollectable, AsPointers(g.fields);
    forall o | o in start && o in g.fields ensures o in AllNamed(g) {
      assert IsPath(ptrs, start, [o]) && [o][0] == o;
    }
    forall o, i | o in g.fields && o in AllNamed(g) && 0 <= i < |g.fields[o]| && g.fields[o][i].Value() in g.fields
      ensures g.fields[o][i].Value() in AllNamed(g)
    {
      assert ptrs[o][i] == Ptr(g.fields[o][i].Value());
      ReachableStep(ptrs, start, o, g.fields[o][i].Value());
    }
  }

  ghost function NamedBound(g: Globals): set<Obj> {
    AllNamed(g) + (g.marks - g.fields.Keys)
  }

  lemma StartsWithin(g: Globals)
    requires g.uncollectable <= g.fields.Keys && g.marks * g.fields.Keys <= g.uncollectable && g.stack == []
    ensures g.Within(NamedBound(g))
  {
    AllNamedIsClosed(g);
    forall o | o in g.marks ensures o in NamedBound(g) {
      if o in g.fields { assert o in g.marks * g.fields.Keys; }
    }
  }

  lemma EndsWithin(g: Globals, g': Globals)
    requires g'.fields == g.fields && g'.segs == g.segs && g'.eager == g.eager && g'.uncollectable == g.uncollectable
    requires g'.marks <= NamedBound(g)
    ensures OnlyNamedMarked(g')
  {
    forall o | o in g'.marks && o in g'.fields ensures Named(g', o) {
      assert o in AllNamed(g);
    }
  }

  lemma TopWithin(g: Globals, bound: set<Obj>, n: nat)
    requires g.stack != [] && 0 !in g.fields
    ensures g.Within(bound) ==> Targets(g.fields, Contents(g.fields, g.segs, g.stack[|g.stack| - 1], n)) <= bound
  {
    if g.Within(bound) {
      var e := g.stack[|g.stack| - 1];
      var ws := Contents(g.fields, g.segs, e, n);
      assert e in g.stack;
      forall w | w in ws && w.Value() in g.fields ensures w.Value() in bound {
        var k :| 0 <= k < |ws| && ws[k] == w;
        assert ws[k] == WordAt(g.fields, g.segs, e, k);
      }
    }
  }

  // ---- Splitting long ranges ----

  /** How many of `len` words one round examines before the rest goes back on the stack. */
  function RoundWords(len: nat): nat {
    if len >= SPLIT_RANGE_WORDS then SPLIT_RANGE_WORDS - 1 else len
  }

  const SHARE_WORDS := 256

  /**
    The pieces in which an entry for words `lo` to `hi` ends up being examined. `share` says
    when a range above SHARE_BYTES is halved for the other markers; the halves overlap by one
    word. Without sharing these are the rounds of the sequential marker.
   */
  function Pieces(lo: nat, hi: nat, share: (nat, nat) -> bool): (r: seq<(nat, nat)>)
    requires lo < hi
    decreases hi - lo
  {
    var len := hi - lo;
    if len > SHARE_WORDS && share(lo, hi) then
      var half := len / 2;
      Pieces(lo, lo + half + 1, share) + Pieces(lo + half, hi, share)
    else if RoundWords(len) < len then
      [(lo, lo + RoundWords(len))] + Pieces(lo + RoundWords(len), hi, share)
    else
      [(lo, hi)]
  }

  /** How many of the pieces contain word `i`. */
  function Times(ps: seq<(nat, nat)>, i: nat): nat {
    if ps == [] then 0
    else (if ps[0].0 <= i < ps[0].1 then 1 else 0) + Times(ps[1..], i)
  }

  lemma {:induction false} TimesConcat(a: seq<(nat, nat)>, b: seq<(nat, nat)>, i: nat)
    ensures Times(a + b, i) == Times(a, i) + Times(b, i)
  {
    if a == [] {
      assert a + b == b;
    } else {
      assert (a + b)[1..] == a[1..] + b;
      TimesConcat(a[1..], b, i);
    }
  }

  /** However a range is split, each of its words is examined at least once and no other word is. */
  lemma {:induction false} PiecesExamine(lo: nat, hi: nat, share: (nat, nat) -> bool, i: nat)
    requires lo < hi
    ensures Times(Pieces(lo, hi, share), i) > 0 <==> lo <= i < hi
    decreases hi - lo
  {
    if hi - lo > SHARE_WORDS && share(lo, hi) {
      var mid := lo + (hi - lo) / 2;
      PiecesExamine(lo, mid + 1, share, i);
      PiecesExamine(mid, hi, share, i);
      HalvesExamine(lo, hi, share, i);
    } else if RoundWords(hi - lo) < hi - lo {
      PiecesExamine(lo + RoundWords(hi - lo), hi, share, i);
      RoundsExamine(lo, hi, share, i);
    } else {
      LastRoundExamines(lo, hi, share, i);
    }
  }

  lemma LastRoundExamines(lo: nat, hi: nat, share: (nat, nat) -> bool, i: nat)
    requires lo < hi && !(hi - lo > SHARE_WORDS && share(lo, hi)) && RoundWords(hi - lo) == hi - lo
    ensures Times(Pieces(lo, hi, share), i) > 0 <==> lo <= i < hi
  {
  }

  lemma HalvesExamine(lo: nat, hi: nat, share: (nat, nat) -> bool, i: nat)
    requires hi - lo > SHARE_WORDS && share(lo, hi)
    requires var mid := lo + (hi - lo) / 2;
             && (Times(Pieces(lo, mid + 1, share), i) > 0 <==> lo <= i < mid + 1)
             && (Times(Pieces(mid, hi, share), i) > 0 <==> mid <= i < hi)
    ensures Times(Pieces(lo, hi, share), i) > 0 <==> lo <= i < hi
  {
    var mid := lo + (hi - lo) / 2;
    BothExamine(Pieces(lo, mid + 1, share), Pieces(mid, hi, share), lo, mid + 1, mid, hi, i);
  }

  lemma RoundsExamine(lo: nat, hi: nat, share: (nat, nat) -> bool, i: nat)
    requires lo < hi && !(hi - lo > SHARE_WORDS && share(lo, hi)) && RoundWords(hi - lo) < hi - lo
    requires var mid := lo + RoundWords(hi - lo); Times(Pieces(mid, hi, share), i) > 0 <==> mid <= i < hi
    ensures Times(Pieces(lo, hi, share), i) > 0 <==> lo <= i < hi
  {
  }

  lemma BothExamine(a: seq<(nat, nat)>, b: seq<(nat, nat)>, lo: nat, end: nat, start: nat, hi: nat, i: nat)
    requires lo <= start <= end <= hi && (Times(a, i) > 0 <==> lo <= i < end) && (Times(b, i) > 0 <==> start <= i < hi)
    ensures Times(a + b, i) > 0 <==> lo <= i < hi
  {
    TimesConcat(a, b, i);
  }

  lemma TimesOne(lo: nat, hi: nat, i: nat)
    ensures Times([(lo, hi)], i) == if lo <= i < hi then 1 else 0
  {
  }

  /** The sequential marker examines each word exactly once. */
  lemma {:induction false} PiecesExamineOnce(lo: nat, hi: nat, share: (nat, nat) -> bool, i: nat)
    requires lo <= i < hi && forall a, b :: !share(a, b)
    ensures Times(Pieces(lo, hi, share), i) == 1
    decreases hi - lo
  {
    var len := hi - lo;
    if RoundWords(len) < len {
      var mid := lo + RoundWords(len);
      TimesConcat([(lo, mid)], Pieces(mid, hi, share), i);
      TimesOne(lo, mid, i);
      if i < mid {
        PiecesExamine(mid, hi, share, i);
      } else {
        PiecesExamineOnce(mid, hi, share, i);
      }
    }
  }

  /** No round is asked to examine an empty range. */
  lemma {:induction false} PiecesNonEmpty(lo: nat, hi: nat, share: (nat, nat) -> bool)
    requires lo < hi
    ensures forall p :: p in Pieces(lo, hi, share) ==> p.0 < p.1
    decreases hi - lo
  {
    var len := hi - lo;
    if len > SHARE_WORDS && share(lo, hi) {
      PiecesNonEmpty(lo, lo + len / 2 + 1, share);
      PiecesNonEmpty(lo + len / 2, hi, share);
    } else if RoundWords(len) < len {
      PiecesNonEmpty(lo + RoundWords(len), hi, share);
    }
  }

  // ---- Scanning a range ----

  /** The objects named by the words of a range, genuinely or not. */
  function Targets(fields: Fields, ws: seq<Word>): set<Obj> {
    set w | w in ws && w.Value() in fields :: w.Value()
  }

  lemma TargetsConcat(fields: Fields, a: seq<Word>, b: seq<Word>)
    ensures Targets(fields, a + b) == Targets(fields, a) + Targets(fields, b)
  {
  }

  lemma TargetStep(fields: Fields, ws: seq<Word>, k: nat)
    requires k < |ws|
    ensures Targets(fields, ws[..k + 1]) == Targets(fields, ws[..k]) + (if ws[k].Value() in fields then {ws[k].Value()}
      else {})
    ensures ws[k].Value() in fields ==> ws[k].Value() in Targets(fields, ws)
  {
    assert ws[..k + 1] == ws[..k] + [ws[k]] && ws[k] in ws;
    TargetsConcat(fields, ws[..k], [ws[k]]);
  }

  lemma ContentsMarked(fields: Fields, segs: seq<seq<Word>>, e: Entry, n: nat, marks: set<Obj>)
    requires Targets(fields, Contents(fields, segs, e, n)) <= marks
    ensures forall k :: 0 <= k < n ==> WordAt(fields, segs, e, k).Value() in fields ==>
      WordAt(fields, segs, e, k).Value() in marks
  {
    var ws := Contents(fields, segs, e, n);
    forall k | 0 <= k < n && WordAt(fields, segs, e, k).Value() in fields
      ensures WordAt(fields, segs, e, k).Value() in marks
    {
      assert ws[k] in ws && ws[k].Value() in Targets(fields, ws);
    }
  }

  /** Examining the top entry, or the first words of it, keeps the invariant for objects and roots. */
  lemma TopScanned(fields: Fields, segs: seq<seq<Word>>, eager: seq<Word>, marks0: set<Obj>, stack0: seq<Entry>, n: nat,
                   marks: set<Obj>, stack: seq<Entry>, ex: set<Obj>)
    requires |stack0| > 0 && WellFormedStack(stack0)
    requires var e := stack0[|stack0| - 1];
             && 0 < n <= e.hi - e.lo
             && marks == marks0 + Targets(fields, Contents(fields, segs, e, n))
             && Greyed(fields, marks0, AfterTake(stack0[..|stack0| - 1], e, n), marks, stack)
    ensures Covered(fields, marks0, stack0, ex) ==> Covered(fields, marks, stack, ex)
    ensures RootsOk(fields, segs, eager, marks0, stack0) ==> RootsOk(fields, segs, eager, marks, stack)
  {
    var e, rest := stack0[|stack0| - 1], stack0[..|stack0| - 1];
    assert stack0 == rest + [e];
    ContentsMarked(fields, segs, e, n, marks);
    if Covered(fields, marks0, stack0, ex) {
      ScanKeepsCovered(fields, segs, marks0, rest, e, n, marks, stack, ex);
    }
    if RootsOk(fields, segs, eager, marks0, stack0) {
      ScanKeepsRoots(fields, segs, eager, marks0, rest, e, n, marks, stack);
    }
  }

  /**
    The order in which the range scan examines `n` words: backwards down to the
    deferred word at `last`, then forwards from the start up to it.
   */
  function ScanOrder(n: nat, last: nat): (order: seq<nat>)
    requires last < n
  {
    seq(n, k requires 0 <= k < n => if k < n - last then n - 1 - k else k - (n - last))
  }

  /** The scan order examines every word of the range exactly once. */
  lemma ScanOrderExact(n: nat, last: nat)
    requires last < n
    ensures forall i :: 0 <= i < n ==> i in ScanOrder(n, last)
    ensures forall j, k :: 0 <= j < k < n ==> ScanOrder(n, last)[j] != ScanOrder(n, last)[k]
    ensures forall j :: 0 <= j < n ==> ScanOrder(n, last)[j] < n
  {
    var order := ScanOrder(n, last);
    forall i | 0 <= i < n ensures i in order {
      if i >= last {
        assert order[n - 1 - i] == i;
      } else {
        assert order[i + (n - last)] == i;
      }
    }
  }

  // ---- Progress measure ----

  function Rank(phase: MarkState, scan: nat): nat {
    match phase
    case None => 0
    case RootsPushed => 1
    case PushRescuers => 2
    case PushUncollectable => 2
    case PartiallyInvalid => 3
    case Invalid => if scan == 0 then 4 else 5
  }

  lemma TakingShrinks(stack: seq<Entry>, n: nat)
    requires WellFormedStack(stack) && |stack| > 0
    requires var e := stack[|stack| - 1]; 0 < n <= e.hi - e.lo
    ensures var e := stack[|stack| - 1];
            var left := AfterTake(stack[..|stack| - 1], e, n);
            && WellFormedStack(left)
            && StackWords(left) < StackWords(stack)
            && |left| <= |stack|
            && stack == stack[..|stack| - 1] + [e]
  {
  }

  /** How much work is left, compared lexicographically once no new object gets marked. */
  datatype Work = Work(rank: nat, blocks: nat, words: nat) {
    predicate Below(w: Work) {
      || rank < w.rank
      || (rank == w.rank && blocks < w.blocks)
      || (rank == w.rank && blocks == w.blocks && words < w.words)
    }
  }

  // ---- Block scans ----

  function ObjectsIn(fields: Fields, h: nat): (objs: set<Obj>) {
    set o | o in fields && Block(o) == h
  }

  lemma {:induction false} IntervalSize(s: set<int>, a: int, n: nat)
    requires forall x :: x in s ==> a <= x < a + n
    ensures |s| <= n
  {
    if n == 0 {
      assert forall x :: x !in s;
    } else {
      IntervalSize(s - {a + n - 1}, a, n - 1);
    }
  }

  /** A block never holds more objects than words, so its marked objects fit the reserve kept on the stack. */
  lemma ObjectsInBlock(fields: Fields, h: nat)
    ensures |ObjectsIn(fields, h)| <= HBLK_WORDS
  {
    var s: set<int> := set o: int | o in ObjectsIn(fields, h);
    assert s == ObjectsIn(fields, h);
    forall x | x in s ensures h * HBLK_WORDS <= x < h * HBLK_WORDS + HBLK_WORDS {
      assert Block(x) == h;
    }
    IntervalSize(s, h * HBLK_WORDS, HBLK_WORDS);
  }

  /** Those of `kind` that a scan going up from block `from` has yet to reach. */
  ghost function Ahead(kind: set<Obj>, from: nat): set<Obj> {
    set o | o in kind && Block(o) >= from
  }

  lemma AllAhead(fields: Fields, marks: set<Obj>, stack: seq<Entry>, more: set<Obj>)
    ensures Covered(fields, marks, stack, fields.Keys)
    ensures Covered(fields, marks, stack, more + Ahead(fields.Keys, 0))
  {
  }

  lemma RescueAll(fields: Fields, marks: set<Obj>, stack: seq<Entry>, kind: set<Obj>)
    requires Covered(fields, marks, stack, kind)
    ensures Covered(fields, marks, stack, {} + Ahead(kind, 0))
  {
  }

  lemma MoreMarks(all: set<Obj>, marks0: set<Obj>, marks: set<Obj>)
    requires marks0 <= marks <= marks0 + all
    ensures marks == marks0 || |all - marks| < |all - marks0|
  {
    if marks != marks0 {
      assert all - marks < all - marks0 by {
        var o :| o in marks && o !in marks0;
        assert o in all - marks0 && o !in all - marks;
      }
      SubsetSmaller(all - marks, all - marks0);
    }
  }

  lemma SubsetSmaller(a: set<Obj>, b: set<Obj>)
    requires a < b
    ensures |a| < |b|
  {
    assert b == a + (b - a);
    assert b - a != {};
  }

  /** Pushing a whole block's marked objects removes the need to exempt that block. */
  lemma PushedBlockCovered(fields: Fields, marks: set<Obj>, stack0: seq<Entry>, stack: seq<Entry>, ex: set<Obj>, h: nat)
    requires Covered(fields, marks, stack0, ex + ObjectsIn(fields, h))
    requires stack0 <= stack
    requires forall o :: o in ObjectsIn(fields, h) && o in marks && |fields[o]| > 0 ==>
      ObjRange(o, 0, |fields[o]|) in stack
    ensures Covered(fields, marks, stack, ex)
  {
    forall o, i | o in fields && o in marks && o !in ex && 0 <= i < |fields[o]|
      ensures SlotOk(fields, marks, stack, o, i)
    {
      if o in ObjectsIn(fields, h) {
        var e := ObjRange(o, 0, |fields[o]|);
        assert e in stack;
        var k :| 0 <= k < |stack| && stack[k] == e;
        assert Covers(stack[k], o, i);
      } else {
        assert SlotOk(fields, marks, stack0, o, i);
        OnStackGrows(stack0, stack, o, i);
      }
    }
  }

  // ---- Mutator ----

  /** Words that referred to `o` no longer do: its storage has been given up. */
  function Forget(ws: seq<Word>, o: Obj): (r: seq<Word>)
    ensures |r| == |ws|
  {
    seq(|ws|, i requires 0 <= i < |ws| => if ws[i] == Ptr(o) then Int(o) else ws[i])
  }

  function ForgetAll(fields: Fields, o: Obj): (r: Fields)
    ensures r.Keys == fields.Keys
  {
    map p | p in fields :: Forget(fields[p], o)
  }

  function ForgetRoots(segs: seq<seq<Word>>, o: Obj): (r: seq<seq<Word>>)
    ensures |r| == |segs|
  {
    seq(|segs|, j requires 0 <= j < |segs| => Forget(segs[j], o))
  }

  lemma WriteKeepsCovered(fields: Fields, marks: set<Obj>, stack: seq<Entry>, ex: set<Obj>, ex': set<Obj>, o: Obj,
      i: nat, w: Word)
    requires Covered(fields, marks, stack, ex)
    requires o in fields && i < |fields[o]| && ex + {o} <= ex'
    ensures Covered(fields[o := fields[o][i := w]], marks, stack, ex')
  {
    var after := fields[o := fields[o][i := w]];
    forall p, k | p in after && p in marks && p !in ex' && 0 <= k < |after[p]|
      ensures SlotOk(after, marks, stack, p, k)
    {
      assert SlotOk(fields, marks, stack, p, k);
    }
  }

  ghost predicate SameBut(a: set<Obj>, b: set<Obj>, o: Obj) {
    forall p :: p != o ==> (p in a <==> p in b)
  }

  lemma ForgetKeepsCovered(fields: Fields, marks: set<Obj>, stack: seq<Entry>, ex: set<Obj>,
                           after: Fields, marks': set<Obj>, ex': set<Obj>, o: Obj)
    requires Covered(fields, marks, stack, ex)
    requires SameBut(marks, marks', o)
    requires forall p :: p in ex && p != o ==> p in ex'
    requires SameBut(fields.Keys, after.Keys, o)
    requires forall p :: p in after && p != o ==> after[p] == Forget(fields[p], o)
    requires o in after ==> forall k :: 0 <= k < |after[o]| ==> after[o][k] == Int(0)
    ensures Covered(after, marks', stack, ex')
  {
    forall p, k | p in after && p in marks' && p !in ex' && 0 <= k < |after[p]|
      ensures SlotOk(after, marks', stack, p, k)
    {
      if p != o {
        assert p in fields && p in marks;
        assert SlotOk(fields, marks, stack, p, k);
      }
    }
  }

  lemma ForgetKeepsRoots(fields: Fields, segs: seq<seq<Word>>, eager: seq<Word>, marks: set<Obj>, stack: seq<Entry>,
                         after: Fields, marks': set<Obj>, o: Obj)
    requires RootsOk(fields, segs, eager, marks, stack)
    requires SameBut(marks, marks', o)
    requires SameBut(fields.Keys, after.Keys, o)
    ensures RootsOk(after, ForgetRoots(segs, o), Forget(eager, o), marks', stack)
  {
  }

  lemma LengthKeepsRecorded(fields: Fields, objs: set<Obj>, table: set<nat>, after: Fields)
    requires Recorded(fields, objs, table)
    requires after.Keys == fields.Keys && forall p :: p in after ==> |after[p]| == |fields[p]|
    ensures Recorded(after, objs, table)
  {
  }

  lemma WriteKeepsRecorded(fields: Fields, objs: set<Obj>, table: set<nat>, after: Fields, table': set<nat>, o: Obj,
      k: nat)
    requires Recorded(fields, objs, table)
    requires after.Keys == fields.Keys && forall p :: p in after ==> |after[p]| == |fields[p]|
    requires o in fields && k < |fields[o]| && table' == table + {PageIndex(o, k)}
    ensures Recorded(after, objs + {o}, table')
  {
  }

  lemma ForgetKeepsRecorded(fields: Fields, objs: set<Obj>, table: set<nat>, after: Fields, o: Obj)
    requires Recorded(fields, objs, table)
    requires SameBut(fields.Keys, after.Keys, o)
    requires forall p :: p in after && p != o ==> |after[p]| == |fields[p]|
    ensures o !in objs ==> Recorded(after, objs, table)
    ensures Recorded(after, objs - {o}, table)
  {
  }

  lemma AllocationKeepsExcused(g: Globals, written: set<Obj>, grungyWritten: set<Obj>, o: Obj, len: nat, kept: bool,
      bit: bool)
    ensures var g' := g.WithObject(o, len, kept, bit);
            forall p :: p in g.Excused(written, grungyWritten) && p != o ==> p in g'.Excused(written, grungyWritten)
  {
  }

  lemma AllocationKeepsSound(g: Globals, written: set<Obj>, grungyWritten: set<Obj>, rootsCovered: bool,
                             o: Obj, len: nat, kept: bool, bit: bool)
    requires g.Sound(written, grungyWritten, rootsCovered)
    requires o !in g.fields && 1 <= Block(o)
    requires bit && !kept ==> g.objectsAreMarked
    ensures g.WithObject(o, len, kept, bit).Sound(written, grungyWritten, rootsCovered)
  {
    var g' := g.WithObject(o, len, kept, bit);
    AllocationKeepsExcused(g, written, grungyWritten, o, len, kept, bit);
    ForgetKeepsCovered(g.fields, g.marks, g.stack, g.Excused(written, grungyWritten), g'.fields, g'.marks,
                       g'.Excused(written, grungyWritten), o);
    if rootsCovered {
      ForgetKeepsRoots(g.fields, g.segs, g.eager, g.marks, g.stack, g'.fields, g'.marks, o);
    }
    if g.incremental {
      ForgetKeepsRecorded(g.fields, written, g.dirty, g'.fields, o);
    }
    if g.phase == PushRescuers {
      ForgetKeepsRecorded(g.fields, grungyWritten, g.grungy, g'.fields, o);
    }
  }

  class Collector {
    var s: Globals
    // Objects written since the last GC_read_dirty, and before it
    ghost var written: set<Obj>
    ghost var grungyWritten: set<Obj>
    // The roots have not changed since they were last pushed
    ghost var rootsCovered: bool
    // A set of objects that marking is to stay within
    ghost var bound: set<Obj>
    // Where the heap scan of the current, or else the last, PartiallyInvalid phase has been
    ghost var rescan: seq<nat>

    constructor (incremental: bool, segs: seq<seq<Word>>)
      requires |segs| <= INITIAL_MARK_STACK_SIZE / 2
      ensures Valid() && s.incremental == incremental && s.segs == segs && s.fields == map[] && s.phase == None
    {
      s := Globals(map[], {}, {}, segs, [], 0, 0, 0, {}, {}, [], INITIAL_MARK_STACK_SIZE, None, 0, false, false,
          incremental);
      written, grungyWritten, rootsCovered := {}, {}, false;
    }

    /** PUSH_OBJ's push: on a full stack the top entries are discarded and marking becomes invalid. */
    method PushEntry(e: Entry)
      requires s.StackOk() && e.lo < e.hi
      modifies this`s
      ensures s == old(s).(stack := s.stack, phase := s.phase, tooSmall := s.tooSmall)
      ensures s.StackOk()
      ensures |old(s.stack)| < s.limit ==>
                s.stack == old(s.stack) + [e] && s.phase == old(s.phase) && s.tooSmall == old(s.tooSmall)
      ensures |old(s.stack)| == s.limit ==>
                s.stack == old(s.stack)[..s.limit - MARK_STACK_DISCARDS] + [e] && s.phase == Invalid && s.tooSmall
    {
      if |s.stack| >= s.limit {
        s := s.(phase := Invalid, tooSmall := true, stack := s.stack[..|s.stack| - MARK_STACK_DISCARDS]);
      }
      s := s.(stack := s.stack + [e]);
    }

    /** PUSH_CONTENTS: mark and push an object that is not marked yet. */
    method PushContents(v: nat)
      requires s.StackOk()
      modifies this`s
      ensures s == old(s).(stack := s.stack, phase := s.phase, tooSmall := s.tooSmall, marks := s.marks)
      ensures s.StackOk()
      ensures s.marks == old(s.marks) + (if v in s.fields then {v} else {})
      ensures s.phase == old(s.phase) || s.phase == Invalid
      ensures s.phase != Invalid ==> Greyed(s.fields, old(s.marks), old(s.stack), s.marks, s.stack)
      ensures s.marks == old(s.marks) ==> s.stack == old(s.stack) && s.phase == old(s.phase)
      ensures old(s.Within(bound)) && (v in s.fields ==> v in bound) ==> s.Within(bound)
    {
      if v in s.fields && v !in s.marks {
        s := s.(marks := s.marks + {v});
        if |s.fields[v]| > 0 {
          PushEntry(ObjRange(v, 0, |s.fields[v]|));
        }
      }
    }

    /** The backward search of the range scan: the last plausible word, if there is one. */
    method LastPlausible(ws: seq<Word>) returns (found: bool, last: nat, ghost visited: seq<nat>)
      requires |ws| > 0
      ensures last < |ws| && visited == ScanOrder(|ws|, last)[..|ws| - last]
      ensures found ==> s.Plausible(ws[last].Value())
      ensures !found ==> last == 0 && !s.Plausible(ws[0].Value())
      ensures forall i :: last < i < |ws| ==> !s.Plausible(ws[i].Value())
    {
      last := |ws| - 1;
      visited := [last];
      while last > 0 && !s.Plausible(ws[last].Value())
        invariant last < |ws|
        invariant forall i :: last < i < |ws| ==> !s.Plausible(ws[i].Value())
        invariant visited == ScanOrder(|ws|, last)[..|ws| - last]
      {
        last := last - 1;
        visited := visited + [last];
      }
      found := s.Plausible(ws[last].Value());
    }

    /** The forward part of the range scan. */
    method ScanForward(ws: seq<Word>)
      requires s.StackOk() && s.HeapOk()
      modifies this`s
      ensures s == old(s).(stack := s.stack, phase := s.phase, tooSmall := s.tooSmall, marks := s.marks)
      ensures s.StackOk()
      ensures s.marks == old(s.marks) + Targets(s.fields, ws)
      ensures s.phase == old(s.phase) || s.phase == Invalid
      ensures s.phase != Invalid ==> Greyed(s.fields, old(s.marks), old(s.stack), s.marks, s.stack)
      ensures s.marks == old(s.marks) ==> s.stack == old(s.stack) && s.phase == old(s.phase)
      ensures old(s.Within(bound)) && Targets(s.fields, ws) <= bound ==> s.Within(bound)
    {
      for current := 0 to |ws|
        invariant s == old(s).(stack := s.stack, phase := s.phase, tooSmall := s.tooSmall, marks := s.marks)
        invariant s.StackOk()
        invariant s.marks == old(s.marks) + Targets(s.fields, ws[..current])
        invariant s.phase == old(s.phase) || s.phase == Invalid
        invariant s.phase != Invalid ==> Greyed(s.fields, old(s.marks), old(s.stack), s.marks, s.stack)
        invariant s.marks == old(s.marks) ==> s.stack == old(s.stack) && s.phase == old(s.phase)
        invariant old(s.Within(bound)) && Targets(s.fields, ws) <= bound ==> s.Within(bound)
      {
        var v := ws[current].Value();
        TargetStep(s.fields, ws, current);
        if s.Plausible(v) {
          PushContents(v);
        }
      }
      assert ws[..|ws|] == ws;
    }

    /**
      The range scan of GC_mark_from: search backwards for a plausible word, defer it,
      scan the rest forwards, and finish with the deferred word. Every word is examined
      exactly once, in the order `visited`.
     */
    method ScanWords(ws: seq<Word>) returns (ghost visited: seq<nat>)
      requires s.StackOk() && s.HeapOk() && |ws| > 0
      modifies this`s
      ensures s == old(s).(stack := s.stack, phase := s.phase, tooSmall := s.tooSmall, marks := s.marks)
      ensures s.StackOk()
      ensures s.marks == old(s.marks) + Targets(s.fields, ws)
      ensures s.phase == old(s.phase) || s.phase == Invalid
      ensures s.phase != Invalid ==> Greyed(s.fields, old(s.marks), old(s.stack), s.marks, s.stack)
      ensures s.marks == old(s.marks) ==> s.stack == old(s.stack) && s.phase == old(s.phase)
      ensures exists last :: 0 <= last < |ws| && visited == ScanOrder(|ws|, last)
      ensures old(s.Within(bound)) && Targets(s.fields, ws) <= bound ==> s.Within(bound)
    {
      var found, last, backwards := LastPlausible(ws);
      visited := ScanOrder(|ws|, last);
      assert backwards == visited[..|ws| - last];
      assert ws == ws[..last] + ([ws[last]] + ws[last + 1..]);
      TargetsConcat(s.fields, ws[..last], [ws[last]] + ws[last + 1..]);
      TargetsConcat(s.fields, [ws[last]], ws[last + 1..]);
      assert Targets(s.fields, ws[last + 1..]) == {};
      if found {
        ScanForward(ws[..last]);
        PushContents(ws[last].Value());
      }
    }

    /** Take the top entry, or the first SPLIT_RANGE_WORDS-1 words of a long one, off the stack. */
    method TakeTop() returns (e: Entry, n: nat)
      requires s.StackOk() && s.stack != []
      modifies this`s
      ensures e == old(s.stack)[|old(s.stack)| - 1] && n == RoundWords(e.hi - e.lo) && 0 < n <= e.hi - e.lo
      ensures s == old(s).(stack := AfterTake(old(s.stack)[..|old(s.stack)| - 1], e, n))
      ensures s.StackOk() && StackWords(s.stack) < StackWords(old(s.stack))
      ensures old(s.Within(bound)) ==> s.Within(bound)
    {
      e := s.stack[|s.stack| - 1];
      assert e in s.stack;
      n := RoundWords(e.hi - e.lo);
      TakingShrinks(s.stack, n);
      s := s.(stack := AfterTake(s.stack[..|s.stack| - 1], e, n));
    }

    /** Examine the top entry, or the first part of a long one. */
    method ScanTop() returns (n: nat)
      requires s.StackOk() && s.HeapOk() && s.stack != []
      modifies this`s
      ensures s == old(s).(stack := s.stack, phase := s.phase, tooSmall := s.tooSmall, marks := s.marks)
      ensures s.StackOk()
      ensures s.phase == old(s.phase) || s.phase == Invalid
      ensures s.marks == old(s.marks) ==> s.phase == old(s.phase) && StackWords(s.stack) < StackWords(old(s.stack))
      ensures var e, rest := old(s.stack)[|old(s.stack)| - 1], old(s.stack)[..|old(s.stack)| - 1];
        && n == RoundWords(e.hi - e.lo) && 0 < n <= e.hi - e.lo
        && s.marks == old(s.marks) + Targets(s.fields, Contents(s.fields, s.segs, e, n))
        && (s.phase != Invalid ==> Greyed(s.fields, old(s.marks), AfterTake(rest, e, n), s.marks, s.stack))
      ensures old(s.Within(bound)) ==> s.Within(bound)
    {
      TopWithin(s, bound, RoundWords(s.stack[|s.stack| - 1].hi - s.stack[|s.stack| - 1].lo));
      var e;
      e, n := TakeTop();
      ghost var visited := ScanWords(Contents(s.fields, s.segs, e, n));
    }

    /** One round of GC_mark_from's loop. */
    method MarkTop(ghost ex: set<Obj>) returns (n: nat)
      requires s.StackOk() && s.HeapOk() && s.stack != []
      requires s.Accounted(ex, rootsCovered)
      modifies this`s
      ensures s == old(s).(stack := s.stack, phase := s.phase, tooSmall := s.tooSmall, marks := s.marks)
      ensures s.StackOk() && n > 0
      ensures old(s.marks) <= s.marks <= old(s.marks) + s.fields.Keys
      ensures s.phase == old(s.phase) || s.phase == Invalid
      ensures s.Accounted(ex, rootsCovered)
      ensures s.marks == old(s.marks) ==> s.phase == old(s.phase) && StackWords(s.stack) < StackWords(old(s.stack))
      ensures old(s.Within(bound)) ==> s.Within(bound)
    {
      n := ScanTop();
      if s.phase != Invalid {
        TopScanned(s.fields, s.segs, s.eager, old(s.marks), old(s.stack), n, s.marks, s.stack, ex);
      }
    }

    /** GC_mark_from: examine about a block's worth of words from the top of the stack. */
    method MarkFrom(ghost ex: set<Obj>)
      requires s.StackOk() && s.HeapOk() && s.stack != []
      requires s.Accounted(ex, rootsCovered)
      modifies this`s
      ensures s == old(s).(stack := s.stack, phase := s.phase, tooSmall := s.tooSmall, marks := s.marks,
        objectsAreMarked := s.objectsAreMarked)
      ensures s.StackOk() && s.objectsAreMarked
      ensures old(s.marks) <= s.marks <= old(s.marks) + s.fields.Keys
      ensures s.phase == old(s.phase) || s.phase == Invalid
      ensures s.Accounted(ex, rootsCovered)
      // an overflow means that something new was marked; without that the stack shrinks
      ensures s.marks == old(s.marks) ==> s.phase == old(s.phase) && StackWords(s.stack) < StackWords(old(s.stack))
      ensures old(s.Within(bound)) ==> s.Within(bound)
    {
      s := s.(objectsAreMarked := true);
      var n := MarkTop(ex);
      var credit: int := HBLK_WORDS - n;
      while s.stack != [] && credit >= 0
        invariant s == old(s).(stack := s.stack, phase := s.phase, tooSmall := s.tooSmall, marks := s.marks,
          objectsAreMarked := s.objectsAreMarked)
        invariant s.StackOk() && s.objectsAreMarked
        invariant old(s.marks) <= s.marks <= old(s.marks) + s.fields.Keys
        invariant s.phase == old(s.phase) || s.phase == Invalid
        invariant s.Accounted(ex, rootsCovered)
        invariant s.marks == old(s.marks) ==> s.phase == old(s.phase) && StackWords(s.stack) < StackWords(old(s.stack))
        invariant old(s.Within(bound)) ==> s.Within(bound)
        decreases credit
      {
        n := MarkTop(ex);
        credit := credit - n;
      }
    }

    /** GC_push_marked: push the marked objects of one block. There is always room for them. */
    method PushMarked(h: nat, ghost ex: set<Obj>)
      requires s.StackOk() && |s.stack| + HBLK_WORDS <= s.limit
      requires s.Accounted(ex + ObjectsIn(s.fields, h), rootsCovered)
      modifies this`s
      ensures s == old(s).(stack := s.stack, phase := s.phase, tooSmall := s.tooSmall,
        objectsAreMarked := s.objectsAreMarked)
      ensures s.StackOk() && s.phase == old(s.phase)
      ensures old(s.objectsAreMarked) ==> s.objectsAreMarked
      ensures s.Accounted(ex, rootsCovered)
      ensures old(s.Within(bound)) ==> s.Within(bound)
      ensures forall o :: o in ObjectsIn(s.fields, h) && o in s.marks && |s.fields[o]| > 0 ==>
        ObjRange(o, 0, |s.fields[o]|) in s.stack
    {
      var todo := ObjectsIn(s.fields, h);
      ObjectsInBlock(s.fields, h);
      while todo != {}
        invariant s == old(s).(stack := s.stack, phase := s.phase, tooSmall := s.tooSmall,
          objectsAreMarked := s.objectsAreMarked)
        invariant todo <= ObjectsIn(s.fields, h)
        invariant s.StackOk() && |s.stack| + |todo| <= s.limit
        invariant s.phase == old(s.phase) && old(s.stack) <= s.stack
        invariant old(s.objectsAreMarked) ==> s.objectsAreMarked
        invariant forall o :: o in ObjectsIn(s.fields, h) - todo && o in s.marks && |s.fields[o]| > 0 ==>
                    ObjRange(o, 0, |s.fields[o]|) in s.stack
        invariant forall e :: e in s.stack && e !in old(s.stack) && e.ObjRange? ==> e.o in s.marks
        decreases todo
      {
        var o :| o in todo;
        todo := todo - {o};
        if o in s.marks && |s.fields[o]| > 0 {
          s := s.(objectsAreMarked := true);
          PushEntry(ObjRange(o, 0, |s.fields[o]|));
        }
      }
      if s.phase != Invalid {
        PushedBlockCovered(s.fields, s.marks, old(s.stack), s.stack, ex, h);
        if rootsCovered {
          GreyedKeepsRoots(s.fields, s.segs, s.eager, s.marks, old(s.stack), s.marks, s.stack);
        }
      }
    }

    /** GC_next_used_block: the first block at or after `h` that holds objects, 0 if none. */
    method NextUsed(h: nat) returns (next: nat)
      requires s.HeapOk()
      ensures next == 0 ==> forall o :: o in s.fields ==> Block(o) < h
      ensures next != 0 ==> h <= next < s.heapEnd && (forall o :: o in s.fields && h <= Block(o) ==> next <= Block(o))
      ensures next != 0 ==> exists o :: o in s.fields && Block(o) == next
    {
      next := h;
      while next < s.heapEnd && (next == 0 || ObjectsIn(s.fields, next) == {})
        invariant h <= next
        invariant forall o :: o in s.fields && h <= Block(o) ==> next <= Block(o)
        decreases s.heapEnd - next
      {
        forall o | o in s.fields && h <= Block(o) ensures next + 1 <= Block(o) {
          assert o in ObjectsIn(s.fields, Block(o));
        }
        next := next + 1;
      }
      if next >= s.heapEnd {
        return 0;
      }
      ghost var o :| o in ObjectsIn(s.fields, next);
    }

    method NextDirty() returns (h: nat)
      requires s.HeapOk()
      ensures h != 0 ==> s.scan <= h < s.heapEnd
      ensures forall o :: o in s.fields && TouchesPage(s.fields, o, s.grungy) && s.scan <= Block(o) ==>
        h != 0 && h <= Block(o)
    {
      h := NextUsed(s.scan);
      while h != 0 && !BlockWasDirty(s.fields, h, s.grungy)
        invariant h != 0 ==> s.scan <= h < s.heapEnd
        invariant forall o :: o in s.fields && TouchesPage(s.fields, o, s.grungy) && s.scan <= Block(o) ==>
          h != 0 && h <= Block(o)
        decreases if h == 0 then 0 else s.heapEnd - h
      {
        h := NextUsed(h + 1);
      }
    }

    method NextUncollectable() returns (h: nat)
      requires s.HeapOk()
      ensures h != 0 ==> s.scan <= h < s.heapEnd
      ensures forall o :: o in s.fields && o in s.uncollectable && s.scan <= Block(o) ==> h != 0 && h <= Block(o)
    {
      h := NextUsed(s.scan);
      while h != 0 && ObjectsIn(s.fields, h) !! s.uncollectable
        invariant h != 0 ==> s.scan <= h < s.heapEnd
        invariant forall o :: o in s.fields && o in s.uncollectable && s.scan <= Block(o) ==> h != 0 && h <= Block(o)
        decreases if h == 0 then 0 else s.heapEnd - h
      {
        forall o | o in s.fields && o in s.uncollectable && s.scan <= Block(o) ensures h + 1 <= Block(o) {
          assert o in ObjectsIn(s.fields, Block(o));
        }
        h := NextUsed(h + 1);
      }
    }

    /** Exempting what lies at or after the scan pointer is the same as exempting from the next used block on. */
    lemma SkipUnused(next: nat, kind: set<Obj>, from: nat)
      requires s.HeapOk()
      requires next == 0 ==> forall o :: o in s.fields && o in kind ==> Block(o) < from
      requires next != 0 ==>
          from <= next && forall o :: o in s.fields && o in kind && from <= Block(o) ==> next <= Block(o)
      requires Covered(s.fields, s.marks, s.stack, written + Ahead(kind, from))
      ensures next == 0 ==> Covered(s.fields, s.marks, s.stack, written)
      ensures next != 0 ==> Covered(s.fields, s.marks, s.stack,
        (written + Ahead(kind, next + 1)) + ObjectsIn(s.fields, next))
    {
    }

    /**
      GC_push_next_marked: push the marked objects of the next used block and return
      the block after it, or 0 with nothing pushed when no used block is left.
     */
    method PushNextMarked() returns (next: nat)
      requires s.StackOk() && s.HeapOk() && |s.stack| + HBLK_WORDS <= s.limit
      requires s.phase != Invalid ==> Covered(s.fields, s.marks, s.stack, written + Ahead(s.fields.Keys, s.scan))
      requires !rootsCovered
      modifies this`s
      ensures s == old(s).(stack := s.stack, phase := s.phase, tooSmall := s.tooSmall,
        objectsAreMarked := s.objectsAreMarked)
      ensures s.StackOk() && s.phase == old(s.phase)
      ensures old(s.objectsAreMarked) ==> s.objectsAreMarked
      ensures next == 0 ==> s.stack == old(s.stack)
      ensures next != 0 ==> s.scan < next <= s.heapEnd
      ensures s.phase != Invalid && next == 0 ==> Covered(s.fields, s.marks, s.stack, written)
      ensures s.phase != Invalid && next != 0 ==>
        Covered(s.fields, s.marks, s.stack, written + Ahead(s.fields.Keys, next))
      ensures old(s.Within(bound)) ==> s.Within(bound)
      ensures next == 0 ==> NoBlockFrom(s.fields, s.scan)
      ensures next != 0 ==> PassedOneBlock(s, s.scan, next)
    {
      var h := NextUsed(s.scan);
      if s.phase != Invalid {
        SkipUnused(h, s.fields.Keys, s.scan);
      }
      if h == 0 {
        return 0;
      }
      PushMarked(h, written + Ahead(s.fields.Keys, h + 1));
      next := h + 1;
    }

    /** GC_push_next_marked_dirty: the same, for blocks found dirty by the last GC_read_dirty. */
    method PushNextMarkedDirty() returns (next: nat)
      requires s.StackOk() && s.HeapOk() && |s.stack| + HBLK_WORDS <= s.limit
      requires s.phase != Invalid && !rootsCovered
      requires Recorded(s.fields, grungyWritten, s.grungy)
      requires Covered(s.fields, s.marks, s.stack, written + Ahead(grungyWritten, s.scan))
      modifies this`s
      ensures s == old(s).(stack := s.stack, phase := s.phase, tooSmall := s.tooSmall,
        objectsAreMarked := s.objectsAreMarked)
      ensures s.StackOk() && s.phase == old(s.phase)
      ensures old(s.objectsAreMarked) ==> s.objectsAreMarked
      ensures next == 0 ==> s.stack == old(s.stack) && Covered(s.fields, s.marks, s.stack, written)
      ensures next != 0 ==> s.scan < next <= s.heapEnd &&
                            Covered(s.fields, s.marks, s.stack, written + Ahead(grungyWritten, next))
      ensures old(s.Within(bound)) ==> s.Within(bound)
    {
      var h := NextDirty();
      SkipUnused(h, grungyWritten, s.scan);
      if h == 0 {
        return 0;
      }
      PushMarked(h, written + Ahead(grungyWritten, h + 1));
      next := h + 1;
    }

    /** GC_push_next_marked_uncollectable: the same, for uncollectable blocks, whose marks are never cleared. */
    method PushNextMarkedUncollectable() returns (next: nat)
      requires s.StackOk() && s.HeapOk() && |s.stack| + HBLK_WORDS <= s.limit
      requires s.phase != Invalid && !rootsCovered
      requires Covered(s.fields, s.marks, s.stack, written + Ahead(s.uncollectable, s.scan))
      modifies this`s
      ensures s == old(s).(stack := s.stack, phase := s.phase, tooSmall := s.tooSmall,
        objectsAreMarked := s.objectsAreMarked)
      ensures s.StackOk() && s.phase == old(s.phase)
      ensures old(s.objectsAreMarked) ==> s.objectsAreMarked
      ensures next == 0 ==> s.stack == old(s.stack) && Covered(s.fields, s.marks, s.stack, written)
      ensures next != 0 ==> s.scan < next <= s.heapEnd &&
                            Covered(s.fields, s.marks, s.stack, written + Ahead(s.uncollectable, next))
      ensures old(s.Within(bound)) ==> s.Within(bound)
    {
      var h := NextUncollectable();
      SkipUnused(h, s.uncollectable, s.scan);
      if h == 0 {
        return 0;
      }
      PushMarked(h, written + Ahead(s.uncollectable, h + 1));
      next := h + 1;
    }

    /** GC_push_all on each static segment: one range entry per segment, aborting on a full stack. */
    method PushSegments() returns (aborted: bool)
      requires s.StackOk() && |s.stack| + |s.segs| <= s.limit
      modifies this`s
      ensures s == old(s).(stack := s.stack)
      ensures s.StackOk() && !aborted && old(s.stack) <= s.stack
      ensures forall t, i :: 0 <= t < |s.segs| && 0 <= i < |s.segs[t]| ==> RootOnStack(s.stack, t, i)
      ensures old(s.Within(bound)) ==> s.Within(bound)
    {
      aborted := false;
      for j := 0 to |s.segs|
        invariant s == old(s).(stack := s.stack)
        invariant s.StackOk() && old(s.stack) <= s.stack && |s.stack| + (|s.segs| - j) <= s.limit && !aborted
        invariant forall t, i :: 0 <= t < j && 0 <= i < |s.segs[t]| ==> RootOnStack(s.stack, t, i)
        invariant old(s.Within(bound)) ==> s.Within(bound)
      {
        if |s.segs[j]| > 0 {
          if |s.stack| >= s.limit {
            return true;
          }
          ghost var stack0 := s.stack;
          s := s.(stack := s.stack + [RootRange(j, 0, |s.segs[j]|)]);
          assert forall i :: 0 <= i < |s.segs[j]| ==> CoversRoot(s.stack[|stack0|], j, i);
          forall t, i | 0 <= t < j && 0 <= i < |s.segs[t]| ensures RootOnStack(s.stack, t, i) {
            OnStackGrows(stack0, s.stack, t, i);
          }
        }
      }
    }

    /**
      GC_PUSH_ONE_STACK. A stack word may name an object whose write has not been reported
      yet, so its page is made dirty (GC_mark_and_push_stack).
     */
    method MarkAndPushStack(v: nat)
      requires s.StackOk() && s.HeapOk()
      modifies this`s
      ensures s == old(s).(stack := s.stack, phase := s.phase, tooSmall := s.tooSmall, marks := s.marks,
        dirty := s.dirty)
      ensures s.StackOk() && old(s.dirty) <= s.dirty
      ensures s.marks == old(s.marks) + (if v in s.fields then {v} else {})
      ensures s.phase == old(s.phase) || s.phase == Invalid
      ensures s.phase != Invalid ==> Greyed(s.fields, old(s.marks), old(s.stack), s.marks, s.stack)
      ensures s.marks == old(s.marks) ==> s.phase == old(s.phase)
      ensures old(s.Within(bound)) && (v in s.fields ==> v in bound) ==> s.Within(bound)
    {
      if s.Plausible(v) {
        if v in s.fields {
          s := s.(dirty := s.dirty + {PageIndex(v, 0)});
        }
        PushContents(v);
      }
    }

    /** GC_push_all_eager on the current stack and registers. */
    method PushEager()
      requires s.StackOk() && s.HeapOk()
      modifies this`s
      ensures s == old(s).(stack := s.stack, phase := s.phase, tooSmall := s.tooSmall, marks := s.marks,
        dirty := s.dirty)
      ensures s.StackOk() && old(s.dirty) <= s.dirty
      ensures s.marks == old(s.marks) + Targets(s.fields, s.eager)
      ensures s.phase == old(s.phase) || s.phase == Invalid
      ensures s.phase != Invalid ==> Greyed(s.fields, old(s.marks), old(s.stack), s.marks, s.stack)
      ensures s.marks == old(s.marks) ==> s.phase == old(s.phase)
      ensures old(s.Within(bound)) ==> s.Within(bound)
    {
      for k := 0 to |s.eager|
        invariant s == old(s).(stack := s.stack, phase := s.phase, tooSmall := s.tooSmall, marks := s.marks,
          dirty := s.dirty)
        invariant s.StackOk() && old(s.dirty) <= s.dirty
        invariant s.marks == old(s.marks) + Targets(s.fields, s.eager[..k])
        invariant s.phase == old(s.phase) || s.phase == Invalid
        invariant s.phase != Invalid ==> Greyed(s.fields, old(s.marks), old(s.stack), s.marks, s.stack)
        invariant s.marks == old(s.marks) ==> s.phase == old(s.phase)
        invariant old(s.Within(bound)) ==> s.Within(bound)
      {
        TargetStep(s.fields, s.eager, k);
        MarkAndPushStack(s.eager[k].Value());
      }
      assert s.eager[..|s.eager|] == s.eager;
    }

    /** GC_push_roots. */
    method PushRoots() returns (aborted: bool)
      requires s.StackOk() && s.HeapOk()
      requires |s.stack| + |s.segs| <= s.limit
      requires s.phase != Invalid ==> Covered(s.fields, s.marks, s.stack, written)
      modifies this`s
      ensures s == old(s).(stack := s.stack, phase := s.phase, tooSmall := s.tooSmall, marks := s.marks,
        dirty := s.dirty)
      ensures s.StackOk() && !aborted
      ensures old(s.dirty) <= s.dirty
      ensures old(s.marks) <= s.marks <= old(s.marks) + s.fields.Keys
      ensures s.phase == old(s.phase) || s.phase == Invalid
      ensures s.phase != Invalid ==> Covered(s.fields, s.marks, s.stack, written)
      ensures s.phase != Invalid ==> RootsOk(s.fields, s.segs, s.eager, s.marks, s.stack)
      ensures s.marks == old(s.marks) ==> s.phase == old(s.phase)
      ensures old(s.Within(bound)) ==> s.Within(bound)
    {
      aborted := PushSegments();
      if aborted { return; }
      ghost var stack1 := s.stack;
      PushEager();
      if s.phase != Invalid {
        GreyedKeepsCovered(s.fields, old(s.marks), old(s.stack), s.marks, s.stack, written);
        forall t, i | 0 <= t < |s.segs| && 0 <= i < |s.segs[t]| ensures RootOnStack(s.stack, t, i) {
          OnStackGrows(stack1, s.stack, t, i);
        }
        forall q | Ptr(q) in s.eager && q in s.fields ensures q in s.marks {
          assert Ptr(q).Value() == q;
        }
      }
    }

    // ---- The phase machine ----

    ghost predicate Valid()
      reads this
    {
      s.Sound(written, grungyWritten, rootsCovered) && RescanOk(s, rescan)
    }

    /** alloc_mark_stack(2 * size): growing may silently fail. */
    method GrowMarkStack(canGrow: bool)
      requires s.StackOk() && s.stack == []
      modifies this`s
      ensures s == old(s).(limit := s.limit, tooSmall := s.tooSmall, stack := s.stack)
      ensures s.StackOk() && s.stack == [] && !s.tooSmall
      ensures s.limit == if canGrow then 2 * old(s.limit) else old(s.limit)
    {
      s := s.(tooSmall := false);
      if canGrow {
        s := s.(limit := 2 * s.limit);
      }
      s := s.(stack := []);
    }

    /** Roots are pushed once the scan of the heap is complete; overflow falls back to `Invalid`. */
    method RootsAfterScan()
      requires s.StackOk() && s.HeapOk() && |s.segs| <= INITIAL_MARK_STACK_SIZE / 2 && |s.stack| + |s.segs| <= s.limit
      requires written <= s.fields.Keys && grungyWritten <= s.fields.Keys && s.uncollectable <= s.fields.Keys
      requires s.phase != Invalid && !rootsCovered && s.scan == 0 && s.uncollectable <= s.marks
      requires Covered(s.fields, s.marks, s.stack, written)
      requires s.incremental ==> Recorded(s.fields, written, s.dirty)
      modifies this`s, this`rootsCovered
      ensures s == old(s).(stack := s.stack, phase := s.phase, tooSmall := s.tooSmall, marks := s.marks,
        dirty := s.dirty, objectsAreMarked := s.objectsAreMarked)
      ensures old(s.objectsAreMarked) ==> s.objectsAreMarked
      ensures Valid() && s.Ready() && old(s.dirty) <= s.dirty
      ensures old(s.marks) <= s.marks <= old(s.marks) + s.fields.Keys
      ensures s.phase == Invalid || s.phase == RootsPushed
      ensures s.phase == Invalid ==> old(s.marks) < s.marks
      ensures s.phase == RootsPushed ==> rootsCovered
      ensures old(s.Within(bound)) ==> s.Within(bound)
    {
      var aborted := PushRoots();
      s := s.(objectsAreMarked := true);
      if s.incremental {
        RecordedGrows(s.fields, written, old(s.dirty), s.dirty);
      }
      if s.phase != Invalid {
        s := s.(phase := RootsPushed);
        rootsCovered := true;
      } else {
        AllAhead(s.fields, s.marks, s.stack, written);
      }
    }

    /** MARK_FROM_MARK_STACK in whatever phase the machine is. */
    method MarkFromStack()
      requires Valid() && s.stack != []
      modifies this`s, this`rootsCovered
      ensures s == old(s).(stack := s.stack, phase := s.phase, tooSmall := s.tooSmall, marks := s.marks,
        objectsAreMarked := s.objectsAreMarked)
      ensures Valid() && s.objectsAreMarked
      ensures old(s.marks) <= s.marks <= old(s.marks) + s.fields.Keys
      ensures s.phase == old(s.phase) || s.phase == Invalid
      ensures s.marks == old(s.marks) ==> s.phase == old(s.phase) && StackWords(s.stack) < StackWords(old(s.stack))
      ensures s.phase != Invalid ==> rootsCovered == old(rootsCovered)
      ensures old(s.Within(bound)) ==> s.Within(bound)
    {
      MarkFrom(s.Excused(written, grungyWritten));
      if s.phase == Invalid {
        rootsCovered := false;
      }
    }

    /** The scanning part of the MS_PUSH_RESCUERS case. */
    method ScanRescuers()
      requires Valid() && s.phase == PushRescuers && |s.stack| <= s.limit - INITIAL_MARK_STACK_SIZE / 2
      modifies this`s, this`rootsCovered
      ensures s == old(s).(stack := s.stack, phase := s.phase, tooSmall := s.tooSmall, marks := s.marks,
        dirty := s.dirty, objectsAreMarked := s.objectsAreMarked, scan := s.scan)
      ensures old(s.objectsAreMarked) ==> s.objectsAreMarked
      ensures Valid() && s.Ready() && old(s.dirty) <= s.dirty
      ensures old(s.marks) <= s.marks <= old(s.marks) + s.fields.Keys
      ensures s.marks == old(s.marks) ==> s.WorkLeft().Below(old(s.WorkLeft()))
      ensures s.phase == RootsPushed ==> rootsCovered
      ensures s.phase !in {None, PartiallyInvalid}
      ensures old(s.Within(bound)) ==> s.Within(bound)
    {
      var next := PushNextMarkedDirty();
      s := s.(scan := next);
      if s.scan == 0 {
        RootsAfterScan();
      }
    }

    /** The MS_PUSH_RESCUERS case. */
    method StepRescuers()
      requires Valid() && s.phase == PushRescuers
      modifies this`s, this`rootsCovered
      ensures s == old(s).(stack := s.stack, phase := s.phase, tooSmall := s.tooSmall, marks := s.marks,
        dirty := s.dirty, objectsAreMarked := s.objectsAreMarked, scan := s.scan)
      ensures old(s.objectsAreMarked) ==> s.objectsAreMarked
      ensures Valid() && s.Ready() && old(s.dirty) <= s.dirty
      ensures old(s.marks) <= s.marks <= old(s.marks) + s.fields.Keys
      ensures s.marks == old(s.marks) ==> s.WorkLeft().Below(old(s.WorkLeft()))
      ensures s.phase == RootsPushed ==> rootsCovered
      ensures s.phase !in {None, PartiallyInvalid}
      ensures old(s.Within(bound)) ==> s.Within(bound)
    {
      if |s.stack| - 1 >= s.limit - INITIAL_MARK_STACK_SIZE / 2 {
        s := s.(tooSmall := true);
        MarkFromStack();
      } else {
        ScanRescuers();
      }
    }

    /** The scanning part of the MS_PUSH_UNCOLLECTABLE case. */
    method ScanUncollectable()
      requires Valid() && s.phase == PushUncollectable && |s.stack| <= s.limit / 4
      modifies this`s, this`rootsCovered
      ensures s == old(s).(stack := s.stack, phase := s.phase, tooSmall := s.tooSmall, marks := s.marks,
        dirty := s.dirty, objectsAreMarked := s.objectsAreMarked, scan := s.scan)
      ensures old(s.objectsAreMarked) ==> s.objectsAreMarked
      ensures Valid() && s.Ready() && old(s.dirty) <= s.dirty
      ensures old(s.marks) <= s.marks <= old(s.marks) + s.fields.Keys
      ensures s.marks == old(s.marks) ==> s.WorkLeft().Below(old(s.WorkLeft()))
      ensures s.phase == RootsPushed ==> rootsCovered
      ensures s.phase !in {None, PartiallyInvalid}
      ensures old(s.Within(bound)) ==> s.Within(bound)
    {
      var next := PushNextMarkedUncollectable();
      s := s.(scan := next);
      if s.scan == 0 {
        RootsAfterScan();
      }
    }

    /** The heap scan of the invalid states, run with an empty stack. */
    method Rescan()
      requires Valid() && s.phase in {Invalid, PartiallyInvalid} && s.objectsAreMarked && s.stack == []
      requires s.phase == PartiallyInvalid || s.scan != 0
      modifies this`s, this`rootsCovered, this`rescan
      ensures s == old(s).(stack := s.stack, phase := s.phase, tooSmall := s.tooSmall, marks := s.marks,
        dirty := s.dirty, objectsAreMarked := s.objectsAreMarked, scan := s.scan)
      ensures old(s.objectsAreMarked) ==> s.objectsAreMarked
      ensures Valid() && s.Ready() && old(s.dirty) <= s.dirty
      ensures old(s.marks) <= s.marks <= old(s.marks) + s.fields.Keys
      ensures s.marks == old(s.marks) ==> s.WorkLeft().Below(old(s.WorkLeft()))
      ensures s.phase == RootsPushed ==> rootsCovered
      ensures s.phase != None
      ensures old(s.Within(bound)) ==> s.Within(bound)
      ensures RescanStep(old(s), old(rescan), s, rescan)
    {
      var next := PushNextMarked();
      s := s.(scan := next);
      if next != 0 && s.phase == PartiallyInvalid { rescan := rescan + [next]; }
      if s.scan == 0 && s.phase == PartiallyInvalid {
        RootsAfterScan();
      }
    }

    /**
      The MS_INVALID and MS_PARTIALLY_INVALID cases once objects are marked. Roots are
      pushed only at the end of a scan of the whole heap that saw no overflow.
     */
    method StepInvalid(canGrow: bool)
      requires Valid() && s.phase in {Invalid, PartiallyInvalid} && s.objectsAreMarked
      modifies this`s, this`rootsCovered, this`rescan
      ensures s == old(s).(stack := s.stack, phase := s.phase, tooSmall := s.tooSmall, marks := s.marks,
        dirty := s.dirty, objectsAreMarked := s.objectsAreMarked, scan := s.scan, limit := s.limit)
      ensures old(s.objectsAreMarked) ==> s.objectsAreMarked
      ensures Valid() && s.Ready() && old(s.dirty) <= s.dirty
      ensures old(s.marks) <= s.marks <= old(s.marks) + s.fields.Keys
      ensures s.marks == old(s.marks) ==> s.WorkLeft().Below(old(s.WorkLeft()))
      ensures s.phase == RootsPushed ==> rootsCovered
      ensures s.phase != None
      ensures old(s.Within(bound)) ==> s.Within(bound)
      ensures RescanStep(old(s), old(rescan), s, rescan)
    {
      if s.stack != [] {
        MarkFromStack();
        return;
      }
      if s.scan == 0 && s.phase == Invalid {
        if s.tooSmall {
          GrowMarkStack(canGrow);
        }
        s := s.(phase := PartiallyInvalid);
        rescan := [0];
        AllAhead(s.fields, s.marks, s.stack, written);
      }
      Rescan();
    }

    /** GC_mark_some: a small amount of marking. Returns true when a mark phase has just finished. */
    method MarkSome(canGrow: bool) returns (done: bool)
      requires Valid() && s.Ready()
      modifies this`s, this`rootsCovered, this`rescan
      ensures s == old(s).(stack := s.stack, phase := s.phase, tooSmall := s.tooSmall, marks := s.marks,
        dirty := s.dirty, objectsAreMarked := s.objectsAreMarked, scan := s.scan, limit := s.limit)
      ensures old(s.objectsAreMarked) ==> s.objectsAreMarked
      ensures Valid() && s.Ready() && old(s.dirty) <= s.dirty
      ensures old(s.marks) <= s.marks <= old(s.marks) + s.fields.Keys
      ensures done ==> old(s.phase) == RootsPushed && s.phase == None && s.marks == old(s.marks)
      ensures done ==> rootsCovered == old(rootsCovered)
      ensures !done && old(s.phase) != None ==> s.phase != None
      // between two falls to Invalid something new is marked; otherwise the work shrinks
      ensures !done && old(s.phase) != None && s.marks == old(s.marks) ==> s.WorkLeft().Below(old(s.WorkLeft()))
      ensures (old(s.phase) == RootsPushed ==> old(rootsCovered)) && s.phase == RootsPushed ==> rootsCovered
      ensures old(s.Within(bound)) ==> s.Within(bound)
      ensures RescanStep(old(s), old(rescan), s, rescan)
      ensures MarkSomeDid(old(s), s, done)
    {
      done := false;
      if s.phase == PushRescuers {
        StepRescuers();
      } else if s.phase == PushUncollectable {
        if |s.stack| - 1 >= s.limit / 4 {
          MarkFromStack();
        } else {
          ScanUncollectable();
        }
      } else if s.phase == RootsPushed {
        if s.stack != [] {
          MarkFromStack();
        } else {
          s := s.(phase := None);
          if s.tooSmall {
            GrowMarkStack(canGrow);
          }
          done := true;
        }
      } else if s.phase != None {
        if !s.objectsAreMarked {
          s := s.(phase := PushUncollectable);
        } else {
          StepInvalid(canGrow);
        }
      }
    }

    // ---- Collections ----

    /** GC_clear_marks: forget all marks but those of uncollectable objects. */
    method ClearMarks()
      requires Valid()
      modifies this`s, this`rootsCovered
      ensures s == old(s).(marks := s.marks, objectsAreMarked := s.objectsAreMarked, phase := s.phase, scan := s.scan)
      ensures Valid() && s.Ready() && s.phase == Invalid && !s.objectsAreMarked
      ensures s.marks == s.uncollectable
    {
      s := s.(marks := s.uncollectable, objectsAreMarked := false, phase := Invalid, scan := 0);
      rootsCovered := false;
      AllAhead(s.fields, s.marks, s.stack, written);
    }

    /** GC_initiate_gc without marks to keep: a full collection. */
    method InitiateFull()
      requires Valid() && s.phase == Invalid && !s.objectsAreMarked
      modifies this`s, this`written, this`grungyWritten
      ensures s == old(s).(dirty := s.dirty, grungy := s.grungy, scan := s.scan)
      ensures Valid() && s.Ready() && written == {}
    {
      s := s.(grungy := s.dirty, dirty := {}, scan := 0);
      grungyWritten, written := written, {};
    }

    /** GC_initiate_gc after a finished collection: a partial one, from the dirty pages. */
    method InitiatePartial()
      requires Valid() && s.phase == None && s.incremental
      modifies this`s, this`rootsCovered, this`written, this`grungyWritten
      ensures s == old(s).(dirty := s.dirty, grungy := s.grungy, phase := s.phase, scan := s.scan)
      ensures Valid() && s.Ready() && s.phase == PushRescuers && written == {}
    {
      RescueAll(s.fields, s.marks, s.stack, written);
      s := s.(grungy := s.dirty, dirty := {}, scan := 0, phase := PushRescuers);
      grungyWritten, written := written, {};
      rootsCovered := false;
      assert s.Excused(written, grungyWritten) == {} + Ahead(grungyWritten, 0);
      assert Recorded(s.fields, grungyWritten, s.grungy);
    }

    /**
      GC_initiate_gc: retrieve the dirty bits and start a partial collection, or a full one
      if the marks are invalid. Any other phase is an abort.
     */
    method InitiateGc() returns (aborted: bool)
      requires Valid()
      requires s.phase == None ==> s.incremental
      requires s.phase == Invalid ==> !s.objectsAreMarked
      modifies this`s, this`rootsCovered, this`written, this`grungyWritten
      ensures s == old(s).(dirty := s.dirty, grungy := s.grungy, phase := s.phase, scan := s.scan)
      ensures aborted <==> old(s.phase) !in {None, Invalid}
      ensures !aborted ==> Valid() && s.Ready() && s.phase in {PushRescuers, Invalid} && !rootsCovered && written == {}
    {
      aborted := false;
      if s.phase == None {
        InitiatePartial();
      } else if s.phase == Invalid {
        InitiateFull();
      } else {
        aborted := true;
      }
    }

    /** A finished mark phase whose roots are still those that were pushed has marked everything reachable. */
    lemma FinishedMeansMarked()
      requires Valid() && s.phase == None && rootsCovered && written == {}
      ensures MarksClosed(s) && AllReachableMarked(s)
    {
      forall o, q | o in s.fields && o in s.marks && Ptr(q) in s.fields[o] && q in s.fields ensures q in s.marks {
        var i :| 0 <= i < |s.fields[o]| && s.fields[o][i] == Ptr(q);
        assert SlotOk(s.fields, s.marks, s.stack, o, i);
      }
      forall q | q in RootsOf(s) && q in s.fields ensures q in s.marks {
        if Ptr(q) !in s.eager {
          var j, i :| 0 <= j < |s.segs| && 0 <= i < |s.segs[j]| && s.segs[j][i].Ptr? && s.segs[j][i].target == q;
        }
      }
      ClosedContainsReachable(s.fields, s.marks, RootsOf(s));
    }

    /**
      The marking loop of GC_stopped_mark. `stop` says when stop_func asks to give up (never,
      for GC_never_stop_func); `grows` says which attempts to enlarge the mark stack succeed.
      Terminates for every mark stack size.
     */
    method MarkUntilDone(stop: Stop, grows: nat -> bool) returns (finished: bool)
      requires Valid() && s.Ready() && s.phase != None && written == {}
      requires s.phase == RootsPushed ==> rootsCovered
      modifies this`s, this`rootsCovered, this`rescan
      ensures s == old(s).(stack := s.stack, phase := s.phase, tooSmall := s.tooSmall, marks := s.marks,
        dirty := s.dirty, objectsAreMarked := s.objectsAreMarked, scan := s.scan, limit := s.limit)
      ensures old(s.objectsAreMarked) ==> s.objectsAreMarked
      ensures Valid()
      ensures !finished ==> stop.After? && s.phase != None
      ensures finished ==> s.phase == None && rootsCovered
      ensures old(s.Within(bound)) ==> s.Within(bound)
      ensures old(s.marks) <= s.marks <= old(s.marks) + s.fields.Keys
    {
      var i := 0;
      while true
        invariant s == old(s).(stack := s.stack, phase := s.phase, tooSmall := s.tooSmall, marks := s.marks,
          dirty := s.dirty, objectsAreMarked := s.objectsAreMarked, scan := s.scan, limit := s.limit)
        invariant old(s.objectsAreMarked) ==> s.objectsAreMarked
        invariant Valid() && s.Ready() && s.phase != None && written == {}
        invariant s.phase == RootsPushed ==> rootsCovered
        invariant old(s.marks) <= s.marks <= old(s.marks) + s.fields.Keys
        invariant old(s.Within(bound)) ==> s.Within(bound)
        decreases |s.fields.Keys - s.marks|, Rank(s.phase, s.scan), s.BlocksLeft(), StackWords(s.stack)
      {
        if stop.After? && i >= stop.calls {
          return false;
        }
        ghost var marks0 := s.marks;
        var done := MarkSome(grows(i));
        if done {
          return true;
        }
        MoreMarks(s.fields.Keys, marks0, s.marks);
        i := i + 1;
      }
    }

    /** GC_stopped_mark: mark from the roots with the world stopped. */
    method StoppedMark(stop: Stop, grows: nat -> bool) returns (r: StopResult)
      requires Valid()
      requires s.phase == None ==> s.incremental
      requires s.phase == Invalid ==> !s.objectsAreMarked
      modifies this`s, this`rootsCovered, this`rescan, this`written, this`grungyWritten
      ensures s == old(s).(stack := s.stack, phase := s.phase, tooSmall := s.tooSmall, marks := s.marks,
        dirty := s.dirty, objectsAreMarked := s.objectsAreMarked, scan := s.scan, limit := s.limit, grungy := s.grungy)
      ensures old(s.objectsAreMarked) ==> s.objectsAreMarked
      ensures r == Aborted <==> old(s.phase) !in {None, Invalid}
      ensures r != Aborted ==> Valid()
      ensures r == Abandoned ==> stop.After? && s.phase != None
      ensures r == Finished ==> s.phase == None && MarksClosed(s) && AllReachableMarked(s)
      ensures old(s.Within(bound)) ==> s.Within(bound)
      ensures r != Aborted ==> StoppedMarkDid(old(s), s, stop, r)
    {
      var aborted := InitiateGc();
      if aborted {
        return Aborted;
      }
      var finished := MarkUntilDone(stop, grows);
      if !finished {
        return Abandoned;
      }
      FinishedMeansMarked();
      return Finished;
    }

    /** GC_invalidate_mark_state and GC_clear_marks: everything starts over. */
    method Reset()
      requires Valid()
      modifies this`s, this`rootsCovered
      ensures Valid() && s == FromScratch(old(s))
    {
      ClearMarks();
      s := s.(stack := []);
      AllAhead(s.fields, s.marks, s.stack, written);
    }

    /** GC_invalidate_mark_state: a useless attempt is forgotten. */
    method Invalidate()
      requires Valid() && !s.incremental
      modifies this`s, this`rootsCovered
      ensures Valid() && s == old(s).(phase := Invalid, stack := [])
    {
      s := s.(phase := Invalid, stack := []);
      rootsCovered := false;
      AllAhead(s.fields, s.marks, s.stack, written);
    }

    /** GC_stopped_mark after all marks were cleared: the marking of a full collection. */
    method FullMark(stop: Stop, grows: nat -> bool) returns (r: StopResult)
      requires Valid() && s.phase == Invalid && !s.objectsAreMarked && s.stack == []
      modifies this`s, this`rootsCovered, this`rescan, this`written, this`grungyWritten, this`bound
      ensures Valid() && StoppedMarkDid(old(s), s, stop, r)
      ensures OnlyNamedMarked(s)
    {
      bound := NamedBound(s);
      StartsWithin(s);
      r := StoppedMark(stop, grows);
      EndsWithin(old(s), s);
    }

    // ---- The mutator, running between collector steps ----

    /** A heap write, reported by GC_dirty on some word `k` of the object. */
    method Write(o: Obj, i: nat, w: Word, k: nat)
      requires Valid() && o in s.fields && i < |s.fields[o]| && k < |s.fields[o]|
      modifies this`s, this`written
      ensures Valid()
      ensures s == old(s).(fields := old(s.fields)[o := old(s.fields)[o][i := w]],
                           dirty := if s.incremental then old(s.dirty) + {PageIndex(o, k)} else old(s.dirty))
    {
      ghost var ex := s.Excused(written, grungyWritten);
      ghost var g := s;
      s := s.(fields := s.fields[o := s.fields[o][i := w]],
              dirty := if s.incremental then s.dirty + {PageIndex(o, k)} else s.dirty);
      written := written + {o};
      WriteKeepsCovered(g.fields, g.marks, g.stack, ex, s.Excused(written, grungyWritten), o, i, w);
      if s.incremental {
        assert PageIndex(o, k) in s.dirty;
        WriteKeepsRecorded(g.fields, old(written), g.dirty, s.fields, s.dirty, o, k);
      }
      if s.phase == PushRescuers {
        LengthKeepsRecorded(g.fields, grungyWritten, g.grungy, s.fields);
      }
    }

    method WriteRoot(j: nat, i: nat, w: Word)
      requires Valid() && j < |s.segs| && i < |s.segs[j]|
      modifies this`s, this`rootsCovered
      ensures Valid() && s == old(s).(segs := old(s.segs)[j := old(s.segs)[j][i := w]])
    {
      s := s.(segs := s.segs[j := s.segs[j][i := w]]);
      rootsCovered := false;
    }

    /** The running threads' stacks and registers change at will. */
    method SetStack(ws: seq<Word>)
      requires Valid()
      modifies this`s, this`rootsCovered
      ensures Valid() && s == old(s).(eager := ws)
    {
      s := s.(eager := ws);
      rootsCovered := false;
    }

    /** An object of `len` words is allocated at `o`, where the mark bit `bit` is found. */
    method Allocate(o: Obj, len: nat, kept: bool, bit: bool)
      requires Valid() && o !in s.fields && 1 <= Block(o)
      requires bit && !kept ==> s.objectsAreMarked
      modifies this`s
      ensures Valid() && s == old(s).WithObject(o, len, kept, bit)
    {
      AllocationKeepsSound(s, written, grungyWritten, rootsCovered, o, len, kept, bit);
      s := s.WithObject(o, len, kept, bit);
    }

    /** An object is swept or explicitly freed. */
    method Release(o: Obj)
      requires Valid() && o in s.fields
      modifies this`s, this`written, this`grungyWritten
      ensures Valid() && s == old(s).WithoutObject(o)
    {
      ghost var ex := s.Excused(written, grungyWritten);
      ghost var g := s;
      s := s.WithoutObject(o);
      written := written - {o};
      grungyWritten := grungyWritten - {o};
      ForgetKeepsCovered(g.fields, g.marks, g.stack, ex, s.fields, s.marks, s.Excused(written, grungyWritten), o);
      if rootsCovered {
        ForgetKeepsRoots(g.fields, g.segs, g.eager, g.marks, g.stack, s.fields, s.marks, o);
      }
      if s.incremental {
        ForgetKeepsRecorded(g.fields, old(written), g.dirty, s.fields, o);
      }
      if s.phase == PushRescuers {
        ForgetKeepsRecorded(g.fields, old(grungyWritten), g.grungy, s.fields, o);
      }
    }
  }
}
