/**
  The parallel marker (gc/mark.c, PARALLEL_MARK): any number of threads steal entries
  from a shared mark stack that only grows, mark on local stacks, hand work back, and
  detect by two counters that no work is left.

  Each `Action` is one step of one thread that touches shared memory, or one critical
  section under the mark lock. Memory is sequentially consistent. A root segment is
  treated as an object that is marked from the start.

  Main results, over every run: entries below any thread's first-nonempty index are
  taken; a thread leaves the phase only when no shared or local stack holds an entry,
  and from then on none ever does again; and unless an overflow was recorded,
  everything reachable from the objects marked at the start is then marked.
 */
module ParallelMark {
  import opened ObjectGraph

  const ENTRIES_TO_GET := 5

  /** Words `lo` to `hi` (exclusive) of an object are still to be examined. */
  datatype Item = Item(o: Obj, lo: nat, hi: nat)

  /** A slot of the shared stack: its descriptor is zeroed when somebody takes it. */
  datatype Cell = Taken | Full(item: Item)

  datatype Pc =
    | Out                                                       // not in the phase
    | Joined                                                    // counted as helper, not yet active
    | LoopTop                                                   // about to read GC_first_nonempty
    | Compare(seen: nat)                                        // has read GC_first_nonempty
    | ReadTop                                                   // about to read GC_mark_stack_top
    | Check(size: nat)                                          // has read the size of the shared stack
    | Steal(p: nat, high: nat, got: nat, max: nat)              // about to look at cell p
    | Grab(p: nat, high: nat, got: nat, max: nat, item: Item)   // saw a full cell, about to zero it
    | Marking                                                   // working on the local stack
    | SetBit(c: Obj)                                            // saw c unmarked, about to mark it
    | Waiting                                                   // inactive

  datatype Thread = Thread(pc: Pc, first: nat, local: seq<Item>)

  datatype State = State(
    fields: Fields,
    marks: set<Obj>,
    cells: seq<Cell>,
    capacity: nat,
    first: nat,
    active: int,
    helpers: int,
    helpWanted: bool,
    invalid: bool,
    localSize: nat,
    discards: nat,
    threads: seq<Thread>)

  datatype Action =
    | Join(t: nat)
    | StopHelping
    | Move(t: nat)
    | Examine(t: nat)
    | Split(t: nat, mid: nat)
    | ReturnAll(t: nat)
    | Share(t: nat)

  predicate IsActive(th: Thread) {
    !th.pc.Out? && !th.pc.Joined? && !th.pc.Waiting?
  }

  predicate IsHelper(th: Thread) {
    !th.pc.Out?
  }

  /** How many entries one visit to the shared stack takes. */
  function ToGet(onStack: nat): nat {
    if onStack < 2 * ENTRIES_TO_GET then 1 else ENTRIES_TO_GET
  }

  /** A range entry counts for more than one: its length in bytes over 256. */
  function Weight(item: Item): nat {
    if item.lo < item.hi then 1 + (item.hi - item.lo) / 32 else 1
  }

  function AsCells(items: seq<Item>): (cells: seq<Cell>)
    ensures |cells| == |items|
  {
    seq(|items|, k requires 0 <= k < |items| => Full(items[k]))
  }

  // ---- Steps ----

  predicate Enabled(s: State, a: Action) {
    match a
    case StopHelping => s.helpWanted
    case Join(t) => t < |s.threads| && s.threads[t].pc.Out? && s.helpWanted
    case Move(t) => t < |s.threads| && CanMove(s, s.threads[t])
    case Examine(t) => t < |s.threads| && s.threads[t].pc.Marking? && s.threads[t].local != []
    case Split(t, mid) =>
      && t < |s.threads| && s.threads[t].pc.Marking? && 0 < |s.threads[t].local| < s.localSize
      && var top := s.threads[t].local[|s.threads[t].local| - 1]; top.lo < mid && mid + 1 < top.hi
    case ReturnAll(t) =>
      t < |s.threads| && s.threads[t].pc.Marking? && |s.threads[t].local| - 1 >= s.localSize / 2
          && s.threads[t].local != []
    case Share(t) => t < |s.threads| && s.threads[t].pc.Marking? && |s.threads[t].local| > 2
  }

  /** A waiting thread stays put while others are active and nothing is on the shared stack. */
  predicate CanMove(s: State, th: Thread) {
    match th.pc
    case Out => false
    case Waiting => !(s.active > 0 && s.first >= |s.cells|)
    case Marking => th.local == []
    case _ => true
  }

  /** GC_return_mark_stack: append to the shared stack, or drop the entries and record it. */
  function Returned(s: State, items: seq<Item>): State {
    if |s.cells| + |items| > s.capacity then s.(invalid := true)
    else s.(cells := s.cells + AsCells(items))
  }

  /** The object found in the next word of a local entry. */
  function NextWord(s: State, item: Item): nat {
    if item.o in s.fields && item.lo < |s.fields[item.o]| then s.fields[item.o][item.lo].Value() else 0
  }

  function WithoutNextWord(local: seq<Item>): seq<Item>
    requires local != []
  {
    var item := local[|local| - 1];
    var rest := local[..|local| - 1];
    if item.lo + 1 < item.hi then rest + [item.(lo := item.lo + 1)] else rest
  }

  /** The local stack after pushing a newly marked object; a full one loses its top entries. */
  function Pushed(s: State, local: seq<Item>, c: Obj): seq<Item> {
    if c !in s.fields || |s.fields[c]| == 0 then local
    else if |local| < s.localSize then local + [Item(c, 0, |s.fields[c]|)]
    else
      var keep := if s.discards <= |local| then |local| - s.discards else 0;
      local[..keep] + [Item(c, 0, |s.fields[c]|)]
  }

  predicate Overflows(s: State, local: seq<Item>, c: Obj) {
    c in s.fields && |s.fields[c]| > 0 && |local| >= s.localSize
  }

  /** What the step does to the acting thread. */
  function Own(s: State, a: Action): Thread
    requires Enabled(s, a) && !a.StopHelping?
  {
    var th := s.threads[a.t];
    match a
    case Join(_) => th.(pc := Joined)
    case Examine(_) =>
      var v := NextWord(s, th.local[|th.local| - 1]);
      th.(pc := if v in s.fields && v !in s.marks then SetBit(v) else Marking,
          local := WithoutNextWord(th.local))
    case Split(_, mid) =>
      var item := th.local[|th.local| - 1];
      th.(local := th.local[..|th.local| - 1] + [item.(hi := mid + 1), item.(lo := mid)])
    case ReturnAll(_) => th.(pc := LoopTop, local := [])
    case Share(_) => th.(local := th.local[(|th.local| - 1) / 2..])
    case Move(_) =>
      match th.pc
      case Joined => th.(pc := LoopTop, first := s.first)
      case LoopTop => th.(pc := Compare(s.first))
      case Compare(seen) => th.(pc := ReadTop, first := if th.first < seen then seen else th.first)
      case ReadTop => th.(pc := Check(|s.cells|))
      case Check(size) =>
        if th.first < size then th.(pc := Steal(th.first, size, 0, ToGet(size - th.first)))
        else if th.first < |s.cells| then th.(pc := Steal(th.first, |s.cells|, 0, ToGet(|s.cells| - th.first)))
        else th.(pc := Waiting)
      case Steal(p, high, got, max) =>
        if p < high && p < |s.cells| && got <= max then
          if s.cells[p].Taken? then th.(pc := Steal(p + 1, high, got, max))
          else th.(pc := Grab(p, high, got, max, s.cells[p].item))
        else th.(pc := Marking, first := p)
      case Grab(p, high, got, max, item) =>
        th.(pc := Steal(p + 1, high, got + Weight(item), max), local := th.local + [item])
      case Marking => th.(pc := LoopTop)
      case SetBit(c) => th.(pc := Marking, local := Pushed(s, th.local, c))
      case Waiting => th.(pc := if s.active == 0 && s.first >= |s.cells| then Out else LoopTop)
  }

  /** What the step does to everything else. */
  function Shared(s: State, a: Action): State
    requires Enabled(s, a)
  {
    match a
    case StopHelping => s.(helpWanted := false)
    case Join(_) => s.(helpers := s.helpers + 1)
    case Examine(_) => s
    case Split(_, _) => s
    case ReturnAll(t) => Returned(s, s.threads[t].local)
    case Share(t) => Returned(s, s.threads[t].local[..(|s.threads[t].local| - 1) / 2])
    case Move(t) =>
      var th := s.threads[t];
      match th.pc
      case Joined => s.(active := s.active + 1)
      case Compare(seen) => if seen < th.first && s.first == seen then s.(first := th.first) else s
      case Check(size) => if th.first < size || th.first < |s.cells| then s else s.(active := s.active - 1)
      case Grab(p, _, _, _, _) => if p < |s.cells| then s.(cells := s.cells[p := Taken]) else s
      case SetBit(c) => s.(marks := s.marks + {c}, invalid := s.invalid || Overflows(s, th.local, c))
      case Waiting =>
        if s.active == 0 && s.first >= |s.cells| then s.(helpers := s.helpers - 1)
        else s.(active := s.active + 1)
      case _ => s
  }

  function Do(s: State, a: Action): State
    requires Enabled(s, a)
  {
    if a.StopHelping? then Shared(s, a)
    else Shared(s, a).(threads := s.threads[a.t := Own(s, a)])
  }

  /** Thread `t` leaves the phase in this step. */
  predicate Leaves(s: State, a: Action) {
    && a.Move? && Enabled(s, a)
    && s.threads[a.t].pc.Waiting? && s.active == 0 && s.first >= |s.cells|
  }

  // ---- Counting threads ----

  function CountActive(ts: seq<Thread>): nat {
    if ts == [] then 0
    else CountActive(ts[..|ts| - 1]) + (if IsActive(ts[|ts| - 1]) then 1 else 0)
  }

  function CountHelpers(ts: seq<Thread>): nat {
    if ts == [] then 0
    else CountHelpers(ts[..|ts| - 1]) + (if IsHelper(ts[|ts| - 1]) then 1 else 0)
  }

  lemma {:induction false} CountsAfterPut(ts: seq<Thread>, t: nat, th: Thread)
    requires t < |ts|
    ensures CountActive(ts[t := th]) == CountActive(ts) - (if IsActive(ts[t]) then 1 else 0) + (if IsActive(th) then 1
      else 0)
    ensures CountHelpers(ts[t := th]) == CountHelpers(ts) - (if IsHelper(ts[t]) then 1 else 0) + (if IsHelper(th)
      then 1 else 0)
  {
    var n := |ts| - 1;
    if t == n {
      assert ts[t := th][..n] == ts[..n];
    } else {
      CountsAfterPut(ts[..n], t, th);
      assert ts[t := th][..n] == ts[..n][t := th];
    }
  }

  lemma {:induction false} NoneActive(ts: seq<Thread>)
    requires CountActive(ts) == 0
    ensures forall t :: 0 <= t < |ts| ==> !IsActive(ts[t])
  {
    if ts != [] {
      NoneActive(ts[..|ts| - 1]);
      forall t | 0 <= t < |ts| ensures !IsActive(ts[t]) {
        if t < |ts| - 1 { assert ts[t] == ts[..|ts| - 1][t]; }
      }
    }
  }

  ghost predicate CountsOk(s: State) {
    s.active == CountActive(s.threads) && s.helpers == CountHelpers(s.threads)
  }

  lemma CountsKept(s: State, a: Action)
    requires CountsOk(s) && Enabled(s, a)
    ensures CountsOk(Do(s, a))
  {
    if !a.StopHelping? {
      CountsAfterPut(s.threads, a.t, Own(s, a));
    }
  }

  // ---- Positions: what lies below a first-nonempty index is taken ----

  ghost predicate AllTaken(cells: seq<Cell>, n: nat) {
    n <= |cells| && forall k :: 0 <= k < n ==> cells[k].Taken?
  }

  /** The lowest index at which the thread may still find an entry. */
  function Position(th: Thread): nat {
    match th.pc
    case Steal(p, _, _, _) => p
    case Grab(p, _, _, _, _) => p
    case _ => th.first
  }

  ghost predicate PositionOk(cells: seq<Cell>, th: Thread) {
    && (IsActive(th) || th.pc.Waiting? ==> AllTaken(cells, Position(th)))
    && (th.pc.Compare? ==> AllTaken(cells, th.pc.seen))
    && (th.pc.Check? ==> th.first <= th.pc.size <= |cells|)
    && (th.pc.Steal? ==> th.pc.p <= th.pc.high <= |cells|)
    && (th.pc.Grab? ==>
        th.pc.p < th.pc.high <= |cells| && (cells[th.pc.p] == Full(th.pc.item) || cells[th.pc.p].Taken?))
  }

  ghost predicate PositionsOk(s: State) {
    && AllTaken(s.cells, s.first)
    && forall t :: 0 <= t < |s.threads| ==> PositionOk(s.cells, s.threads[t])
  }

  /** Cells only ever get added or taken. */
  ghost predicate Grown(cells: seq<Cell>, cells': seq<Cell>) {
    |cells| <= |cells'| && forall k :: 0 <= k < |cells| ==> cells'[k] == cells[k] || cells'[k].Taken?
  }

  lemma GrownKeepsPosition(cells: seq<Cell>, cells': seq<Cell>, th: Thread)
    requires Grown(cells, cells') && PositionOk(cells, th)
    ensures PositionOk(cells', th)
  {
  }

  lemma CellsGrow(s: State, a: Action)
    requires Enabled(s, a)
    ensures Grown(s.cells, Do(s, a).cells)
  {
  }

  lemma StealingPositionKept(s: State, a: Action)
    requires PositionsOk(s) && Enabled(s, a) && a.Move?
    requires s.threads[a.t].pc.Steal? || s.threads[a.t].pc.Grab?
    ensures PositionOk(Shared(s, a).cells, Own(s, a))
  {
    assert PositionOk(s.cells, s.threads[a.t]);
  }

  lemma OwnPositionKept(s: State, a: Action)
    requires PositionsOk(s) && Enabled(s, a) && !a.StopHelping?
    ensures PositionOk(Shared(s, a).cells, Own(s, a))
  {
    var th := s.threads[a.t];
    assert PositionOk(s.cells, th);
    if a.Move? && (th.pc.Steal? || th.pc.Grab?) {
      StealingPositionKept(s, a);
    } else if a.Move? {
      assert Shared(s, a).cells == s.cells;
    }
  }

  lemma SharedPositionKept(s: State, a: Action)
    requires PositionsOk(s) && Enabled(s, a)
    ensures AllTaken(Shared(s, a).cells, Shared(s, a).first)
  {
    if !a.StopHelping? {
      assert PositionOk(s.cells, s.threads[a.t]);
    }
  }

  lemma PositionsKept(s: State, a: Action)
    requires PositionsOk(s) && Enabled(s, a)
    ensures PositionsOk(Do(s, a))
  {
    var s' := Do(s, a);
    CellsGrow(s, a);
    SharedPositionKept(s, a);
    forall t | 0 <= t < |s'.threads| ensures PositionOk(s'.cells, s'.threads[t]) {
      if !a.StopHelping? && t == a.t {
        OwnPositionKept(s, a);
      } else {
        GrownKeepsPosition(s.cells, s'.cells, s.threads[t]);
      }
    }
  }

  // ---- Work: every unexamined word is on some stack ----

  predicate Covers(item: Item, o: Obj, i: nat) {
    item.o == o && item.lo <= i < item.hi
  }

  ghost predicate InCells(cells: seq<Cell>, o: Obj, i: nat) {
    exists k :: 0 <= k < |cells| && cells[k].Full? && Covers(cells[k].item, o, i)
  }

  ghost predicate InLocal(local: seq<Item>, o: Obj, i: nat) {
    exists k :: 0 <= k < |local| && Covers(local[k], o, i)
  }

  /** The thread will still examine word `i` of `o`, or is about to mark the object `q` it found there. */
  ghost predicate Claims(th: Thread, o: Obj, i: nat, q: Obj) {
    InLocal(th.local, o, i) || th.pc == SetBit(q)
  }

  ghost predicate SlotOk(s: State, o: Obj, i: nat)
    requires o in s.fields && i < |s.fields[o]|
  {
    var w := s.fields[o][i];
    w.Ptr? && w.target in s.fields ==>
      || w.target in s.marks
      || InCells(s.cells, o, i)
      || (exists t :: 0 <= t < |s.threads| && Claims(s.threads[t], o, i, w.target))
  }

  ghost predicate WorkOk(s: State) {
    !s.invalid ==> forall o, i :: o in s.fields && o in s.marks && 0 <= i < |s.fields[o]| ==> SlotOk(s, o, i)
  }

  /** Only an active thread holds local entries. */
  ghost predicate LocalsOk(s: State) {
    forall t :: 0 <= t < |s.threads| && s.threads[t].local != [] ==>
      var pc := s.threads[t].pc; pc.Steal? || pc.Grab? || pc.Marking? || pc.SetBit?
  }

  ghost predicate Inv(s: State) {
    CountsOk(s) && PositionsOk(s) && LocalsOk(s) && WorkOk(s)
  }

  lemma LocalsKept(s: State, a: Action)
    requires LocalsOk(s) && Enabled(s, a)
    ensures LocalsOk(Do(s, a))
  {
  }

  lemma InLocalConcat(a: seq<Item>, b: seq<Item>, o: Obj, i: nat)
    ensures InLocal(a + b, o, i) <==> InLocal(a, o, i) || InLocal(b, o, i)
  {
    var ab := a + b;
    if InLocal(ab, o, i) {
      var k :| 0 <= k < |ab| && Covers(ab[k], o, i);
      assert if k < |a| then Covers(a[k], o, i) else Covers(b[k - |a|], o, i);
    }
    if InLocal(a, o, i) {
      var k :| 0 <= k < |a| && Covers(a[k], o, i);
      assert Covers(ab[k], o, i);
    }
    if InLocal(b, o, i) {
      var k :| 0 <= k < |b| && Covers(b[k], o, i);
      assert Covers(ab[|a| + k], o, i);
    }
  }

  lemma InLocalLast(local: seq<Item>, o: Obj, i: nat)
    requires local != []
    ensures InLocal(local, o, i) <==> InLocal(local[..|local| - 1], o, i) || Covers(local[|local| - 1], o, i)
  {
    assert local == local[..|local| - 1] + [local[|local| - 1]];
    InLocalConcat(local[..|local| - 1], [local[|local| - 1]], o, i);
    assert [local[|local| - 1]][0] == local[|local| - 1];
  }

  lemma ReturnedInCells(s: State, items: seq<Item>, o: Obj, i: nat)
    requires !Returned(s, items).invalid
    ensures InLocal(items, o, i) ==> InCells(Returned(s, items).cells, o, i)
  {
    if InLocal(items, o, i) {
      var k :| 0 <= k < |items| && Covers(items[k], o, i);
      assert Returned(s, items).cells[|s.cells| + k] == Full(items[k]);
    }
  }

  /** Examining a word leaves its object marked or about to be marked, and drops no other word. */
  lemma ExamineKeepsClaim(s: State, a: Action, o: Obj, i: nat, q: Obj)
    requires Enabled(s, a) && a.Examine?
    requires o in s.fields && i < |s.fields[o]| && s.fields[o][i] == Ptr(q) && q in s.fields
    requires InLocal(s.threads[a.t].local, o, i)
    ensures q in s.marks || Claims(Own(s, a), o, i, q)
  {
    var local := s.threads[a.t].local;
    var item := local[|local| - 1];
    InLocalLast(local, o, i);
    if Covers(item, o, i) && i == item.lo {
      assert NextWord(s, item) == q;
    } else {
      InLocalConcat(local[..|local| - 1], [item.(lo := item.lo + 1)], o, i);
      if Covers(item, o, i) {
        assert Covers([item.(lo := item.lo + 1)][0], o, i);
      }
    }
  }

  lemma SplitKeepsClaim(s: State, a: Action, o: Obj, i: nat)
    requires Enabled(s, a) && a.Split?
    requires InLocal(s.threads[a.t].local, o, i)
    ensures InLocal(Own(s, a).local, o, i)
  {
    var local := s.threads[a.t].local;
    var item := local[|local| - 1];
    var halves := [item.(hi := a.mid + 1), item.(lo := a.mid)];
    InLocalLast(local, o, i);
    InLocalConcat(local[..|local| - 1], halves, o, i);
    if Covers(item, o, i) {
      assert Covers(halves[0], o, i) || Covers(halves[1], o, i);
    }
  }

  lemma PushKeepsClaim(s: State, local: seq<Item>, c: Obj, o: Obj, i: nat)
    requires !Overflows(s, local, c)
    ensures InLocal(local, o, i) ==> InLocal(Pushed(s, local, c), o, i)
    ensures c in s.fields && i < |s.fields[c]| ==> InLocal(Pushed(s, local, c), c, i)
  {
    if c in s.fields && |s.fields[c]| > 0 {
      var item := Item(c, 0, |s.fields[c]|);
      InLocalConcat(local, [item], o, i);
      InLocalConcat(local, [item], c, i);
      if i < |s.fields[c]| {
        assert Covers([item][0], c, i);
      }
    }
  }

  /** What the acting thread claimed stays claimed, becomes shared, or gets marked. */
  lemma OwnClaimKept(s: State, a: Action, o: Obj, i: nat, q: Obj)
    requires Enabled(s, a) && !a.StopHelping? && LocalsOk(s) && !Shared(s, a).invalid
    requires o in s.fields && i < |s.fields[o]| && s.fields[o][i] == Ptr(q) && q in s.fields
    requires Claims(s.threads[a.t], o, i, q)
    ensures q in Shared(s, a).marks || InCells(Shared(s, a).cells, o, i) || Claims(Own(s, a), o, i, q)
  {
    var th := s.threads[a.t];
    match a {
      case Examine(_) => ExamineKeepsClaim(s, a, o, i, q);
      case Split(_, _) => SplitKeepsClaim(s, a, o, i);
      case ReturnAll(_) => ReturnedInCells(s, th.local, o, i);
      case Share(_) =>
        var n := (|th.local| - 1) / 2;
        assert th.local == th.local[..n] + th.local[n..];
        InLocalConcat(th.local[..n], th.local[n..], o, i);
        ReturnedInCells(s, th.local[..n], o, i);
      case Join(_) =>
      case Move(_) =>
        if th.pc.SetBit? {
          PushKeepsClaim(s, th.local, th.pc.c, o, i);
        } else if th.pc.Grab? {
          InLocalConcat(th.local, [th.pc.item], o, i);
        }
    }
  }

  /** A shared entry stays where it is, or moves to the stack of the thread that takes it. */
  lemma CellKept(s: State, a: Action, o: Obj, i: nat, q: Obj)
    requires Enabled(s, a) && PositionsOk(s)
    requires InCells(s.cells, o, i)
    ensures InCells(Shared(s, a).cells, o, i) || (!a.StopHelping? && Claims(Own(s, a), o, i, q))
  {
    var k :| 0 <= k < |s.cells| && s.cells[k].Full? && Covers(s.cells[k].item, o, i);
    if a.Move? && s.threads[a.t].pc.Grab? {
      var th := s.threads[a.t];
      assert PositionOk(s.cells, th);
      if k == th.pc.p {
        InLocalConcat(th.local, [th.pc.item], o, i);
        assert Covers([th.pc.item][0], o, i);
      } else {
        assert Shared(s, a).cells[k] == s.cells[k];
      }
    } else {
      assert Shared(s, a).cells[k] == s.cells[k];
    }
  }

  lemma SlotKept(s: State, a: Action, o: Obj, i: nat)
    requires Inv(s) && Enabled(s, a) && !Do(s, a).invalid
    requires o in s.fields && o in s.marks && i < |s.fields[o]|
    ensures SlotOk(Do(s, a), o, i)
  {
    var s' := Do(s, a);
    var w := s.fields[o][i];
    assert SlotOk(s, o, i);
    if w.Ptr? && w.target in s.fields && w.target !in s.marks {
      var q := w.target;
      if InCells(s.cells, o, i) {
        CellKept(s, a, o, i, q);
        if !InCells(s'.cells, o, i) {
          assert Claims(s'.threads[a.t], o, i, q);
        }
      } else {
        var t :| 0 <= t < |s.threads| && Claims(s.threads[t], o, i, q);
        if !a.StopHelping? && t == a.t {
          OwnClaimKept(s, a, o, i, q);
          assert s'.threads[t] == Own(s, a);
        } else {
          assert s'.threads[t] == s.threads[t];
        }
      }
    }
  }

  lemma WorkKept(s: State, a: Action)
    requires Inv(s) && Enabled(s, a)
    ensures WorkOk(Do(s, a))
  {
    var s' := Do(s, a);
    if !s'.invalid {
      forall o, i | o in s'.fields && o in s'.marks && 0 <= i < |s'.fields[o]| ensures SlotOk(s', o, i) {
        if o in s.marks {
          SlotKept(s, a, o, i);
        } else {
          var th := s.threads[a.t];
          PushKeepsClaim(s, th.local, th.pc.c, o, i);
          assert InLocal(s'.threads[a.t].local, o, i);
          assert s'.fields[o][i].Ptr? ==> Claims(s'.threads[a.t], o, i, s'.fields[o][i].target);
        }
      }
    }
  }

  /** Every step of every thread keeps the invariant. */
  lemma InvKept(s: State, a: Action)
    requires Inv(s) && Enabled(s, a)
    ensures Inv(Do(s, a))
  {
    CountsKept(s, a);
    PositionsKept(s, a);
    LocalsKept(s, a);
    WorkKept(s, a);
  }

  // ---- Termination detection ----

  /** No stack holds an entry and nobody is about to mark anything. */
  ghost predicate NoWork(s: State) {
    && (forall k :: 0 <= k < |s.cells| ==> s.cells[k].Taken?)
    && (forall t :: 0 <= t < |s.threads| ==>
        s.threads[t].local == [] && !s.threads[t].pc.SetBit? && !s.threads[t].pc.Grab?)
  }

  /** The work is done and everybody will find that out. */
  ghost predicate Quiescent(s: State) {
    NoWork(s) && s.first == |s.cells|
  }

  /** A thread leaves only when no work is left anywhere. */
  lemma LeavingMeansQuiescent(s: State, a: Action)
    requires Inv(s) && Leaves(s, a)
    ensures Quiescent(s)
  {
    NoneActive(s.threads);
    forall t | 0 <= t < |s.threads|
        ensures s.threads[t].local == [] && !s.threads[t].pc.SetBit? && !s.threads[t].pc.Grab? {
      assert !IsActive(s.threads[t]);
    }
  }

  /** Once the work is done no step creates any, so a late helper finds nothing. */
  lemma QuiescentKept(s: State, a: Action)
    requires Inv(s) && Quiescent(s) && Enabled(s, a)
    ensures Quiescent(Do(s, a)) && Do(s, a).marks == s.marks && Do(s, a).invalid == s.invalid
  {
    PositionsKept(s, a);
  }

  /** With no work left and nothing dropped, the marks are closed under references. */
  lemma NoWorkMeansClosed(s: State)
    requires Inv(s) && NoWork(s) && !s.invalid
    ensures Closed(s.fields, s.marks)
  {
    forall o, q | o in s.fields && o in s.marks && Ptr(q) in s.fields[o] && q in s.fields ensures q in s.marks {
      var i :| 0 <= i < |s.fields[o]| && s.fields[o][i] == Ptr(q);
      assert SlotOk(s, o, i);
    }
  }

  // ---- Runs ----

  /**
    The phase starts with the stack that GC_mark_some has filled: everything the marked
    objects refer to is marked or on it. Thread 0 is the initiating one.
   */
  ghost predicate Init(s: State) {
    && s.first == 0 && s.active == 0 && s.helpers == 1 && s.helpWanted && !s.invalid
    && |s.threads| > 0
    && (forall t :: 0 <= t < |s.threads| ==>
        s.threads[t].pc == (if t == 0 then Joined else Out) && s.threads[t].local == [])
    && (forall o, i :: o in s.fields && o in s.marks && 0 <= i < |s.fields[o]| ==> SlotOk(s, o, i))
  }

  lemma {:induction false} CountsOfFirst(ts: seq<Thread>)
    requires |ts| > 0 && forall t :: 0 <= t < |ts| ==> ts[t].pc == if t == 0 then Joined else Out
    ensures CountActive(ts) == 0 && CountHelpers(ts) == 1
  {
    if |ts| > 1 {
      CountsOfFirst(ts[..|ts| - 1]);
    } else {
      assert ts[..0] == [];
    }
  }

  lemma InitInv(s: State)
    requires Init(s)
    ensures Inv(s)
  {
    CountsOfFirst(s.threads);
  }

  ghost predicate Enables(s: State, actions: seq<Action>)
    decreases |actions|
  {
    actions == [] || (Enabled(s, actions[0]) && Enables(Do(s, actions[0]), actions[1..]))
  }

  ghost function After(s: State, actions: seq<Action>): State
    requires Enables(s, actions)
    decreases |actions|
  {
    if actions == [] then s else After(Do(s, actions[0]), actions[1..])
  }

  ghost predicate SomeLeave(s: State, actions: seq<Action>)
    requires Enables(s, actions)
    decreases |actions|
  {
    actions != [] && (Leaves(s, actions[0]) || SomeLeave(Do(s, actions[0]), actions[1..]))
  }

  lemma {:induction false} RunKeepsInv(s: State, actions: seq<Action>)
    requires Inv(s) && Enables(s, actions)
    ensures Inv(After(s, actions)) && After(s, actions).fields == s.fields && s.marks <= After(s, actions).marks
    ensures Quiescent(s) ==> Quiescent(After(s, actions))
    decreases |actions|
  {
    if actions != [] {
      InvKept(s, actions[0]);
      if Quiescent(s) {
        QuiescentKept(s, actions[0]);
      }
      RunKeepsInv(Do(s, actions[0]), actions[1..]);
    }
  }

  lemma {:induction false} LeftRunIsQuiescent(s: State, actions: seq<Action>)
    requires Inv(s) && Enables(s, actions) && SomeLeave(s, actions)
    ensures Quiescent(After(s, actions))
    decreases |actions|
  {
    InvKept(s, actions[0]);
    if Leaves(s, actions[0]) {
      LeavingMeansQuiescent(s, actions[0]);
      QuiescentKept(s, actions[0]);
      RunKeepsInv(Do(s, actions[0]), actions[1..]);
    } else {
      LeftRunIsQuiescent(Do(s, actions[0]), actions[1..]);
    }
  }

  /**
    After any run in which some thread has left the phase, no stack holds an entry; and
    either an overflow was recorded or everything reachable from the objects marked at the
    start is marked.
   */
  lemma ParallelMarkingComplete(s: State, actions: seq<Action>)
    requires Init(s) && Enables(s, actions) && SomeLeave(s, actions)
    ensures var e := After(s, actions);
            && NoWork(e)
            && (e.invalid || forall o :: Reachable(s.fields, s.marks, o) ==> o in e.marks)
  {
    InitInv(s);
    RunKeepsInv(s, actions);
    LeftRunIsQuiescent(s, actions);
    var e := After(s, actions);
    if !e.invalid {
      NoWorkMeansClosed(e);
      ClosedContainsReachable(e.fields, e.marks, s.marks);
    }
  }

  // ---- Nothing else gets marked ----

  ghost predicate ItemsWithin(items: seq<Item>, bound: set<Obj>) {
    forall k :: 0 <= k < |items| ==> items[k].o in bound
  }

  /** A thread holds only objects of `bound`. */
  ghost predicate ThreadWithin(th: Thread, bound: set<Obj>) {
    ItemsWithin(th.local, bound) && (th.pc.SetBit? ==> th.pc.c in bound) && (th.pc.Grab? ==> th.pc.item.o in bound)
  }

  /** All that is marked, or to be scanned or marked, lies in `bound`, which holds whatever its own words name. */
  ghost predicate Within(s: State, bound: set<Obj>) {
    && s.marks <= bound
    && CellsWithin(s.cells, bound)
    && (forall t :: 0 <= t < |s.threads| ==> ThreadWithin(s.threads[t], bound))
    && (forall o, i :: o in s.fields && o in bound && 0 <= i < |s.fields[o]| && s.fields[o][i].Value() in s.fields ==>
          s.fields[o][i].Value() in bound)
  }

  lemma OwnStaysWithin(s: State, a: Action, bound: set<Obj>)
    requires Within(s, bound) && Enabled(s, a) && !a.StopHelping? && 0 !in s.fields
    ensures ThreadWithin(Own(s, a), bound)
  {
    assert ThreadWithin(s.threads[a.t], bound);
  }

  ghost predicate CellsWithin(cells: seq<Cell>, bound: set<Obj>) {
    forall k :: 0 <= k < |cells| && cells[k].Full? ==> cells[k].item.o in bound
  }

  lemma SharedStaysWithin(s: State, a: Action, bound: set<Obj>)
    requires Within(s, bound) && Enabled(s, a)
    ensures Shared(s, a).marks <= bound && CellsWithin(Shared(s, a).cells, bound)
    ensures Shared(s, a).threads == s.threads && Shared(s, a).fields == s.fields
  {
    if !a.StopHelping? { assert ThreadWithin(s.threads[a.t], bound); }
  }

  lemma StepStaysWithin(s: State, a: Action, bound: set<Obj>)
    requires Within(s, bound) && Enabled(s, a) && 0 !in s.fields
    ensures Within(Do(s, a), bound)
  {
    SharedStaysWithin(s, a, bound);
    if !a.StopHelping? { OwnStaysWithin(s, a, bound); }
  }

  /**
    In every run, marks stay within any set that holds the marked and the stacked objects and all
    that its words name.
   */
  lemma {:induction false} RunStaysWithin(s: State, actions: seq<Action>, bound: set<Obj>)
    requires Within(s, bound) && Enables(s, actions) && 0 !in s.fields
    ensures Within(After(s, actions), bound)
    decreases |actions|
  {
    if actions != [] {
      StepStaysWithin(s, actions[0], bound);
      RunStaysWithin(Do(s, actions[0]), actions[1..], bound);
    }
  }

  /** In every reachable state, entries below a first-nonempty index, shared or private, are already taken. */
  lemma BelowFirstIsTaken(s: State, actions: seq<Action>, t: nat)
    requires Init(s) && Enables(s, actions) && t < |After(s, actions).threads|
    ensures var e := After(s, actions);
            && AllTaken(e.cells, e.first)
            && (IsActive(e.threads[t]) || e.threads[t].pc.Waiting? ==> AllTaken(e.cells, Position(e.threads[t])))
  {
    InitInv(s);
    RunKeepsInv(s, actions);
    assert PositionOk(After(s, actions).cells, After(s, actions).threads[t]);
  }

  lemma {:induction false} ExtendRun(s: State, actions: seq<Action>, a: Action)
    requires Enables(s, actions) && Enabled(After(s, actions), a)
    ensures Enables(s, actions + [a]) && After(s, actions + [a]) == Do(After(s, actions), a)
    decreases |actions|
  {
    var all := actions + [a];
    if actions == [] {
      assert all[1..] == [];
    } else {
      assert all[0] == actions[0] && all[1..] == actions[1..] + [a];
      ExtendRun(Do(s, actions[0]), actions[1..], a);
    }
  }

  /** A run of the initiating thread alone on an empty stack, after `i` steps. */
  function Alone(i: nat): State
    requires i < 6
  {
    var pc := [Joined, LoopTop, Compare(0), ReadTop, Check(0), Waiting][i];
    State(map[], {}, [], 1, 0, if 0 < i < 5 then 1
        else 0, 1, true, false, 1, 0, [Thread(pc, 0, []), Thread(Out, 0, [])])
  }

  lemma AloneStep(i: nat)
    requires i < 5
    ensures Enabled(Alone(i), Move(0)) && Do(Alone(i), Move(0)) == Alone(i + 1)
  {
    assert Do(Alone(i), Move(0)).threads == Alone(i + 1).threads;
  }

  /**
    The comment at GC_active_count says that once it returns to zero it stays zero for the
    cycle. It does not: a helper that joined late becomes active after the others have
    stopped. (This is harmless, by QuiescentKept.)
   */
  lemma ActiveCountMayRise() returns (s: State, actions: seq<Action>, a: Action)
    ensures Init(s) && Enables(s, actions)
    ensures var idle := After(s, actions); idle.active == 0 && |idle.threads| > 0 && idle.threads[0].pc.Waiting?
    ensures Enabled(After(s, actions), a) && Do(After(s, actions), a).active == 1
  {
    s, actions, a := Alone(0), [], Move(1);
    for i := 0 to 5
      invariant Enables(s, actions) && After(s, actions) == Alone(i)
    {
      AloneStep(i);
      ExtendRun(s, actions, Move(0));
      actions := actions + [Move(0)];
    }
    ExtendRun(s, actions, Join(1));
    actions := actions + [Join(1)];
  }

  /** A helper that has joined becomes active, or a waiting thread sees entries it has not passed. */
  predicate Wakes(s: State, a: Action) {
    && a.Move? && a.t < |s.threads|
    && (s.threads[a.t].pc.Joined? || (s.threads[a.t].pc.Waiting? && s.first < |s.cells|))
  }

  /** The steps that raise the count from zero. */
  lemma ActiveRisesExactly(s: State, a: Action)
    requires Inv(s) && Enabled(s, a) && s.active == 0
    ensures Do(s, a).active > 0 <==> Wakes(s, a)
    ensures Do(s, a).active >= 0
  {
    NoneActive(s.threads);
  }

  /** The count is zero in every state of the run. */
  ghost predicate StaysIdle(s: State, actions: seq<Action>)
    requires Enables(s, actions)
    decreases |actions|
  {
    s.active == 0 && (actions != [] ==> StaysIdle(Do(s, actions[0]), actions[1..]))
  }

  ghost predicate NobodyWakes(s: State, actions: seq<Action>)
    requires Enables(s, actions)
    decreases |actions|
  {
    actions != [] ==> !Wakes(s, actions[0]) && NobodyWakes(Do(s, actions[0]), actions[1..])
  }

  /** Once zero, the count stays zero for the rest of a run if and only if nobody wakes during it. */
  lemma {:induction false} StaysIdleExactly(s: State, actions: seq<Action>)
    requires Inv(s) && Enables(s, actions) && s.active == 0
    ensures StaysIdle(s, actions) <==> NobodyWakes(s, actions)
    decreases |actions|
  {
    if actions != [] {
      ActiveRisesExactly(s, actions[0]);
      if !Wakes(s, actions[0]) {
        InvKept(s, actions[0]);
        StaysIdleExactly(Do(s, actions[0]), actions[1..]);
      }
    }
  }
}
