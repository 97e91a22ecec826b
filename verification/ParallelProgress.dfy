/**
  Progress of the parallel marker (gc/mark.c, PARALLEL_MARK). Two threads may take the same entry,
  mark the same object, or read an index that is out of date, and a waiting thread may wake for
  nothing; still, as long as anybody is in the phase some step is possible, and without new helpers
  every run comes to an end, however the threads are scheduled. So every phase can be completed,
  and ends with everybody out.
 */
module ParallelProgress {
  import opened ObjectGraph
  import opened ParallelMark

  // ---- Sums over the threads ----

  ghost function Sum(f: Thread -> nat, ts: seq<Thread>): nat {
    if ts == [] then 0 else Sum(f, ts[..|ts| - 1]) + f(ts[|ts| - 1])
  }

  lemma {:induction false} SumAfterPut(f: Thread -> nat, ts: seq<Thread>, t: nat, th: Thread)
    requires t < |ts|
    ensures Sum(f, ts[t := th]) + f(ts[t]) == Sum(f, ts) + f(th)
  {
    var n := |ts| - 1;
    if t == n {
      assert ts[t := th][..n] == ts[..n];
    } else {
      SumAfterPut(f, ts[..n], t, th);
      assert ts[t := th][..n] == ts[..n][t := th];
    }
  }

  lemma {:induction false} SumAtMost(f: Thread -> nat, g: Thread -> nat, ts: seq<Thread>)
    requires forall th :: th in ts ==> f(th) <= g(th)
    ensures Sum(f, ts) <= Sum(g, ts)
  {
    if ts != [] { SumAtMost(f, g, ts[..|ts| - 1]); }
  }

  /** One thread changes, and the others count for no more than before. */
  lemma SumStep(f: Thread -> nat, g: Thread -> nat, ts: seq<Thread>, t: nat, th: Thread)
    requires t < |ts| && (forall u :: 0 <= u < |ts| && u != t ==> g(ts[u]) <= f(ts[u]))
    ensures Sum(g, ts[t := th]) + f(ts[t]) <= Sum(f, ts) + g(th)
  {
    SumAfterPut(g, ts, t, th);
    SumRest(f, g, ts, t);
  }

  lemma {:induction false} SumRest(f: Thread -> nat, g: Thread -> nat, ts: seq<Thread>, t: nat)
    requires t < |ts| && (forall u :: 0 <= u < |ts| && u != t ==> g(ts[u]) <= f(ts[u]))
    ensures Sum(g, ts) + f(ts[t]) <= Sum(f, ts) + g(ts[t])
  {
    var n := |ts| - 1;
    if t == n {
      forall th | th in ts[..n] ensures g(th) <= f(th) {
        var u :| 0 <= u < n && ts[u] == th;
      }
      SumAtMost(g, f, ts[..n]);
    } else {
      SumRest(f, g, ts[..n], t);
      assert g(ts[n]) <= f(ts[n]);
    }
  }

  // ---- What is left to do ----

  /** Objects not yet marked, but for the one a thread is about to mark. */
  ghost function Unmarked(s: State, th: Thread): nat {
    |s.fields.Keys - s.marks - if th.pc.SetBit? then {th.pc.c} else {}|
  }

  /** An entry counts by the square of its length, so splitting one leaves less. */
  function Size(item: Item): (n: nat)
    ensures n > 0
  {
    if item.lo < item.hi then (item.hi - item.lo) * (item.hi - item.lo) else 1
  }

  function Sizes(items: seq<Item>): nat {
    if items == [] then 0 else Sizes(items[..|items| - 1]) + Size(items[|items| - 1])
  }

  /** The entries in cells from `p` on. */
  function Ahead(cells: seq<Cell>, p: nat): nat
    decreases |cells| - p
  {
    if p >= |cells| then 0 else (if cells[p].Full? then Size(cells[p].item) else 0) + Ahead(cells, p + 1)
  }

  /** What a thread may still have to examine: its own entries, and those it may still take. */
  ghost function Words(s: State, th: Thread): nat {
    match th.pc
    case Out => 0
    case Joined => Sizes(th.local) + Ahead(s.cells, 0)
    case Steal(p, _, _, _) => Sizes(th.local) + Ahead(s.cells, p)
    case Grab(p, _, _, _, item) => Sizes(th.local) + Size(item) + Ahead(s.cells, p + 1)
    case SetBit(c) =>
      Sizes(th.local) + Ahead(s.cells, th.first) + (if c in s.fields then Size(Item(c, 0, |s.fields[c]|)) else 0)
    case _ => Sizes(th.local) + Ahead(s.cells, th.first)
  }

  /** The order of a thread's steps within one visit to the shared stack; worse if what it has read is out of date. */
  function Rank(s: State, th: Thread): nat {
    match th.pc
    case Out => 0
    case Joined => 8
    case Waiting => if s.first < |s.cells| then 8 else 1
    case LoopTop => 7
    case Compare(seen) => if seen == s.first then 6 else 16
    case ReadTop => if th.first <= s.first then 5 else 15
    case Check(_) => if th.first <= s.first then 4 else 14
    case Steal(p, _, _, _) => if p == th.first then 3 else 20
    case Grab(p, _, _, _, _) => if p == th.first then 2 else 19
    case SetBit(_) => 11
    case Marking => 10
  }

  /** The cells a thread has not passed, and its steps. */
  function Steps(s: State, th: Thread): nat {
    var passed := if th.pc.Joined? then 0 else Position(th);
    if th.pc.Out? then 0 else 30 * (if passed < |s.cells| then |s.cells| - passed else 0) + Rank(s, th)
  }

  /** All that is left, most important first. */
  datatype Left = Left(unmarked: nat, room: nat, words: nat, behind: nat, steps: nat, help: nat) {
    predicate Below(l: Left) {
      || unmarked < l.unmarked
      || (unmarked == l.unmarked && room < l.room)
      || (unmarked == l.unmarked && room == l.room && words < l.words)
      || (unmarked == l.unmarked && room == l.room && words == l.words && behind < l.behind)
      || (unmarked == l.unmarked && room == l.room && words == l.words && behind == l.behind && steps < l.steps)
      || (unmarked == l.unmarked && room == l.room && words == l.words && behind == l.behind && steps == l.steps
          && help < l.help)
    }
  }

  function Monus(a: nat, b: nat): nat {
    if b < a then a - b else 0
  }

  ghost function Rest(s: State): Left {
    Left(Sum(th => Unmarked(s, th), s.threads), Monus(s.capacity, |s.cells|), Sum(th => Words(s, th), s.threads),
         Monus(|s.cells|, s.first), Sum(th => Steps(s, th), s.threads), if s.helpWanted then 1 else 0)
  }

  // ---- Entries ----

  lemma {:induction false} SizesConcat(a: seq<Item>, b: seq<Item>)
    ensures Sizes(a + b) == Sizes(a) + Sizes(b)
  {
    if b == [] {
      assert a + b == a;
    } else {
      SizesConcat(a, b[..|b| - 1]);
      assert (a + b)[..|a + b| - 1] == a + b[..|b| - 1];
    }
  }

  lemma SizesOne(item: Item)
    ensures Sizes([item]) == Size(item)
  {
    assert [item][..0] == [];
  }

  lemma SizesLast(local: seq<Item>)
    requires local != []
    ensures Sizes(local) == Sizes(local[..|local| - 1]) + Size(local[|local| - 1])
  {
  }

  /** Examining a word leaves less. */
  lemma ExamineLeavesLess(local: seq<Item>)
    requires local != []
    ensures Sizes(WithoutNextWord(local)) < Sizes(local)
  {
    var item := local[|local| - 1];
    var rest := local[..|local| - 1];
    SizesLast(local);
    if item.lo + 1 < item.hi {
      SizesConcat(rest, [item.(lo := item.lo + 1)]);
      SizesOne(item.(lo := item.lo + 1));
      Squares(item.hi - item.lo, 1, item.hi - item.lo - 1);
    }
  }

  lemma Squares(n: nat, a: nat, b: nat)
    requires n == a + b && a > 0 && b > 0
    ensures a * a + b * b < n * n
  {
    assert n * n == a * a + b * b + 2 * (a * b);
  }

  /** So does splitting an entry. */
  lemma SplitLeavesLess(local: seq<Item>, mid: nat)
    requires local != [] && local[|local| - 1].lo < mid && mid + 1 < local[|local| - 1].hi
    ensures var item := local[|local| - 1];
            Sizes(local[..|local| - 1] + [item.(hi := mid + 1), item.(lo := mid)]) < Sizes(local)
  {
    var item := local[|local| - 1];
    var rest, l, r := local[..|local| - 1], item.(hi := mid + 1), item.(lo := mid);
    SizesLast(local);
    assert [l] + [r] == [l, r];
    SizesConcat([l], [r]);
    SizesConcat(rest, [l, r]);
    SizesOne(l);
    SizesOne(r);
    PartsAreSmaller(item, mid);
  }

  lemma PartsAreSmaller(item: Item, mid: nat)
    requires item.lo < mid && mid + 1 < item.hi
    ensures Size(item.(hi := mid + 1)) + Size(item.(lo := mid)) < Size(item)
  {
    HalvesAreSmaller(item.hi - item.lo, mid + 1 - item.lo, item.hi - mid);
  }

  lemma HalvesAreSmaller(n: nat, a: nat, b: nat)
    requires n + 1 == a + b && a > 1 && b > 1
    ensures a * a + b * b < n * n
  {
    var x, y := a - 1, b - 1;
    assert n == x + y + 1;
    assert n * n == x * x + y * y + 1 + 2 * (x * y) + 2 * x + 2 * y;
    assert a * a == x * x + 2 * x + 1 && b * b == y * y + 2 * y + 1;
    assert x * y >= 1;
  }

  // ---- Cells ----

  lemma {:induction false} AheadShrinks(cells: seq<Cell>, p: nat, q: nat)
    requires p <= q
    ensures Ahead(cells, q) <= Ahead(cells, p)
    decreases q - p
  {
    if p < q { AheadShrinks(cells, p + 1, q); }
  }

  lemma {:induction false} AheadTaken(cells: seq<Cell>, k: nat, p: nat)
    requires k < |cells|
    ensures Ahead(cells[k := Taken], p) <= Ahead(cells, p)
    decreases |cells| - p
  {
    if p < |cells| { AheadTaken(cells, k, p + 1); }
  }

  lemma {:induction false} AheadSame(cells: seq<Cell>, k: nat, p: nat)
    requires k < p
    ensures k < |cells| ==> Ahead(cells[k := Taken], p) == Ahead(cells, p)
    decreases |cells| - p
  {
    if p < |cells| { AheadSame(cells, k, p + 1); }
  }

  // ---- Invariant ----

  /** A thread that has begun to look at cells and found none yet has not reached the end. */
  predicate StealOk(th: Thread) {
    && (th.pc.Steal? ==> th.first <= th.pc.p && (th.pc.p == th.first ==> th.pc.got == 0 && th.pc.p < th.pc.high))
    && (th.pc.Grab? ==> th.first <= th.pc.p)
  }

  ghost predicate RunningWell(s: State) {
    Inv(s) && forall t :: 0 <= t < |s.threads| ==> StealOk(s.threads[t])
  }

  lemma RunningWellKept(s: State, a: Action)
    requires RunningWell(s) && Enabled(s, a)
    ensures RunningWell(Do(s, a))
  {
    InvKept(s, a);
    forall t | 0 <= t < |s.threads| ensures StealOk(Do(s, a).threads[t]) {
      assert StealOk(s.threads[t]);
    }
  }

  // ---- What a step does to the threads that do not take it ----

  lemma MarksGrow(s: State, a: Action)
    requires Enabled(s, a)
    ensures s.marks <= Do(s, a).marks && Do(s, a).fields == s.fields
  {
    assert s.marks <= Shared(s, a).marks && Shared(s, a).fields == s.fields;
  }

  lemma FewerLeft(all: set<Obj>, marks: set<Obj>, marks': set<Obj>, c: set<Obj>)
    requires marks <= marks'
    ensures |all - marks' - c| <= |all - marks - c|
  {
    var m, m' := all - marks - c, all - marks' - c;
    assert m' <= m;
    assert m == m' + (m - m');
  }

  lemma MarksMissNoMore(s: State, a: Action, th: Thread)
    requires Enabled(s, a)
    ensures Unmarked(Do(s, a), th) <= Unmarked(s, th)
  {
    MarksGrow(s, a);
    FewerLeft(s.fields.Keys, s.marks, Do(s, a).marks, if th.pc.SetBit? then {th.pc.c} else {});
  }

  /** No cell was added. */
  predicate SameRoom(s: State, a: Action)
    requires Enabled(s, a)
  {
    |Do(s, a).cells| == |s.cells|
  }

  lemma CellsTaken(s: State, a: Action, p: nat)
    requires Enabled(s, a) && SameRoom(s, a) && !a.Share? && !a.ReturnAll?
    ensures Ahead(Do(s, a).cells, p) <= Ahead(s.cells, p)
  {
    if a.Move? && s.threads[a.t].pc.Grab? && s.threads[a.t].pc.p < |s.cells| {
      AheadTaken(s.cells, s.threads[a.t].pc.p, p);
    }
  }

  lemma ReturnedNothing(s: State, items: seq<Item>)
    requires items != [] && |Returned(s, items).cells| == |s.cells|
    ensures Returned(s, items) == s.(invalid := true)
  {
  }

  lemma WordsNoMore(s: State, a: Action, th: Thread)
    requires Enabled(s, a) && SameRoom(s, a)
    ensures Words(Do(s, a), th) <= Words(s, th)
  {
    if a.Share? || a.ReturnAll? {
      assert Do(s, a).cells == s.cells;
    } else {
      forall p: nat ensures Ahead(Do(s, a).cells, p) <= Ahead(s.cells, p) {
        CellsTaken(s, a, p);
      }
    }
  }

  lemma StepsNoMore(s: State, a: Action, th: Thread)
    requires Enabled(s, a) && SameRoom(s, a) && Do(s, a).first == s.first
    ensures Steps(Do(s, a), th) == Steps(s, th)
  {
  }

  // ---- What it does to the one that does ----

  /** A thread that finds an object unmarked is about to mark it. */
  lemma FoundUnmarked(s: State, a: Action)
    requires Enabled(s, a) && a.Examine? && Own(s, a).pc.SetBit?
    ensures Unmarked(Do(s, a), Own(s, a)) < Unmarked(s, s.threads[a.t])
  {
    var c := Own(s, a).pc.c;
    var m := s.fields.Keys - s.marks;
    assert c in m && m - {} == m;
    assert |m| == |m - {c}| + 1;
  }

  lemma OwnMarksMissNoMore(s: State, a: Action)
    requires Enabled(s, a) && !a.StopHelping? && !a.Join?
    ensures Unmarked(Do(s, a), Own(s, a)) <= Unmarked(s, s.threads[a.t])
  {
    if a.Examine? && Own(s, a).pc.SetBit? {
      FoundUnmarked(s, a);
    } else if a.Move? && s.threads[a.t].pc.SetBit? {
      var c := s.threads[a.t].pc.c;
      assert s.fields.Keys - (s.marks + {c}) - {} == s.fields.Keys - s.marks - {c};
    } else {
      MarksMissNoMore(s, a, s.threads[a.t]);
    }
  }

  lemma PushedWords(s: State, local: seq<Item>, c: Obj)
    ensures Sizes(Pushed(s, local, c)) <= Sizes(local) + if c in s.fields then Size(Item(c, 0, |s.fields[c]|)) else 0
  {
    if c in s.fields && |s.fields[c]| > 0 {
      var item := Item(c, 0, |s.fields[c]|);
      SizesOne(item);
      if |local| < s.localSize {
        SizesConcat(local, [item]);
      } else {
        var keep := if s.discards <= |local| then |local| - s.discards else 0;
        SizesConcat(local[..keep], [item]);
        SizesConcat(local[..keep], local[keep..]);
        assert local[..keep] + local[keep..] == local;
      }
    }
  }

  /** Examining or splitting an entry, and dropping entries, leaves less. */
  predicate Works(s: State, a: Action)
    requires Enabled(s, a)
  {
    a.Split? || a.Share? || a.ReturnAll? || (a.Examine? && Own(s, a).pc.Marking?)
  }

  lemma DroppedWords(local: seq<Item>, n: nat)
    requires 0 < n <= |local|
    ensures Sizes(local[n..]) < Sizes(local)
  {
    assert local == local[..n] + local[n..];
    SizesConcat(local[..n], local[n..]);
    SizesLast(local[..n]);
  }

  lemma WorkLeavesLess(s: State, a: Action)
    requires Enabled(s, a) && Works(s, a) && SameRoom(s, a)
    ensures Words(Do(s, a), Own(s, a)) < Words(s, s.threads[a.t])
  {
    var local := s.threads[a.t].local;
    match a {
      case Examine(_) => ExamineLeavesLess(local);
      case Split(_, mid) => SplitLeavesLess(local, mid);
      case ReturnAll(_) =>
        ReturnedNothing(s, local);
        DroppedWords(local, |local|);
      case Share(_) =>
        var n := (|local| - 1) / 2;
        ReturnedNothing(s, local[..n]);
        DroppedWords(local, n);
    }
  }

  /** A thread takes an entry, even one that another has taken meanwhile. */
  lemma GrabbedWords(s: State, a: Action)
    requires Enabled(s, a) && a.Move? && s.threads[a.t].pc.Grab?
    ensures Words(Do(s, a), Own(s, a)) <= Words(s, s.threads[a.t])
  {
    var th := s.threads[a.t];
    SizesConcat(th.local, [th.pc.item]);
    SizesOne(th.pc.item);
    AheadSame(s.cells, th.pc.p, th.pc.p + 1);
  }

  lemma SetBitWords(s: State, a: Action)
    requires Enabled(s, a) && a.Move? && s.threads[a.t].pc.SetBit?
    ensures Words(Do(s, a), Own(s, a)) <= Words(s, s.threads[a.t])
  {
    PushedWords(s, s.threads[a.t].local, s.threads[a.t].pc.c);
  }

  lemma StealWords(s: State, a: Action)
    requires PositionsOk(s) && Enabled(s, a) && a.Move? && s.threads[a.t].pc.Steal?
    ensures Words(Do(s, a), Own(s, a)) <= Words(s, s.threads[a.t])
  {
    assert PositionOk(s.cells, s.threads[a.t]);
  }

  /** Other moves take no entry, and pass only cells that are taken. */
  lemma MoveWords(s: State, a: Action)
    requires PositionsOk(s) && Enabled(s, a) && a.Move?
    requires !s.threads[a.t].pc.Grab? && !s.threads[a.t].pc.SetBit? && !s.threads[a.t].pc.Steal?
    ensures Words(Do(s, a), Own(s, a)) <= Words(s, s.threads[a.t])
  {
    var th := s.threads[a.t];
    assert PositionOk(s.cells, th) && Do(s, a).cells == s.cells;
    match th.pc {
      case Joined => AheadShrinks(s.cells, 0, s.first);
      case Compare(seen) => if th.first < seen { AheadShrinks(s.cells, th.first, seen); }
      case _ =>
    }
  }

  lemma OwnWordsNoMore(s: State, a: Action)
    requires PositionsOk(s) && Enabled(s, a) && a.Move?
    ensures Words(Do(s, a), Own(s, a)) <= Words(s, s.threads[a.t])
  {
    var pc := s.threads[a.t].pc;
    if pc.Grab? {
      GrabbedWords(s, a);
    } else if pc.SetBit? {
      SetBitWords(s, a);
    } else if pc.Steal? {
      StealWords(s, a);
    } else {
      MoveWords(s, a);
    }
  }

  lemma StealingStepsLess(s: State, a: Action)
    requires RunningWell(s) && Enabled(s, a) && a.Move? && (s.threads[a.t].pc.Steal? || s.threads[a.t].pc.Grab?)
    ensures SameRoom(s, a) && Do(s, a).first == s.first <= |s.cells|
    ensures Steps(Do(s, a), Own(s, a)) < Steps(s, s.threads[a.t])
  {
    assert PositionOk(s.cells, s.threads[a.t]) && StealOk(s.threads[a.t]);
  }

  lemma OtherStepsLess(s: State, a: Action)
    requires RunningWell(s) && Enabled(s, a) && a.Move? && !s.threads[a.t].pc.Steal? && !s.threads[a.t].pc.Grab?
    ensures SameRoom(s, a) && s.first <= Do(s, a).first <= |s.cells|
    ensures Do(s, a).first == s.first ==> Steps(Do(s, a), Own(s, a)) < Steps(s, s.threads[a.t])
  {
    assert PositionOk(s.cells, s.threads[a.t]);
  }

  /** The shared index moves on, or the thread has one step less to take. */
  lemma MoveStepsLess(s: State, a: Action)
    requires RunningWell(s) && Enabled(s, a) && a.Move?
    ensures SameRoom(s, a) && s.first <= Do(s, a).first <= |s.cells|
    ensures Do(s, a).first == s.first ==> Steps(Do(s, a), Own(s, a)) < Steps(s, s.threads[a.t])
  {
    if s.threads[a.t].pc.Steal? || s.threads[a.t].pc.Grab? { StealingStepsLess(s, a); } else { OtherStepsLess(s, a); }
  }

  // ---- Every step leaves less ----

  lemma SumUnmarked(s: State, a: Action)
    requires Enabled(s, a) && !a.StopHelping? && !a.Join?
    ensures Rest(Do(s, a)).unmarked + Unmarked(s, s.threads[a.t])
         <= Rest(s).unmarked + Unmarked(Do(s, a), Own(s, a))
  {
    var s' := Do(s, a);
    forall u | 0 <= u < |s.threads| ensures Unmarked(s', s.threads[u]) <= Unmarked(s, s.threads[u]) {
      MarksMissNoMore(s, a, s.threads[u]);
    }
    SumStep(th => Unmarked(s, th), th => Unmarked(s', th), s.threads, a.t, Own(s, a));
  }

  lemma SumWords(s: State, a: Action)
    requires Enabled(s, a) && SameRoom(s, a) && !a.StopHelping? && !a.Join?
    ensures Rest(Do(s, a)).words + Words(s, s.threads[a.t]) <= Rest(s).words + Words(Do(s, a), Own(s, a))
  {
    var s' := Do(s, a);
    forall u | 0 <= u < |s.threads| ensures Words(s', s.threads[u]) <= Words(s, s.threads[u]) {
      WordsNoMore(s, a, s.threads[u]);
    }
    SumStep(th => Words(s, th), th => Words(s', th), s.threads, a.t, Own(s, a));
  }

  lemma SumSteps(s: State, a: Action)
    requires Enabled(s, a) && SameRoom(s, a) && Do(s, a).first == s.first && !a.StopHelping? && !a.Join?
    ensures Rest(Do(s, a)).steps + Steps(s, s.threads[a.t]) <= Rest(s).steps + Steps(Do(s, a), Own(s, a))
  {
    var s' := Do(s, a);
    forall u | 0 <= u < |s.threads| ensures Steps(s', s.threads[u]) <= Steps(s, s.threads[u]) {
      StepsNoMore(s, a, s.threads[u]);
    }
    SumStep(th => Steps(s, th), th => Steps(s', th), s.threads, a.t, Own(s, a));
  }

  /** No thread has more left to do because no more helpers are wanted. */
  lemma StopHelpingLeavesLess(s: State)
    requires Enabled(s, StopHelping)
    ensures Rest(Do(s, StopHelping)).Below(Rest(s))
  {
    var s' := s.(helpWanted := false);
    assert Do(s, StopHelping) == s';
    SumAtMost(th => Unmarked(s', th), th => Unmarked(s, th), s.threads);
    SameWords(s);
    SumAtMost(th => Words(s', th), th => Words(s, th), s.threads);
    SumAtMost(th => Steps(s', th), th => Steps(s, th), s.threads);
  }

  lemma SameWords(s: State)
    ensures forall th :: Words(s.(helpWanted := false), th) == Words(s, th)
  {
  }

  /** Entries that another thread may take use up room on the shared stack, which only grows. */
  lemma RoomShrinks(s: State, a: Action)
    requires Enabled(s, a)
    ensures Monus(Do(s, a).capacity, |Do(s, a).cells|) <= Monus(s.capacity, |s.cells|)
    ensures !SameRoom(s, a) ==> Monus(Do(s, a).capacity, |Do(s, a).cells|) < Monus(s.capacity, |s.cells|)
  {
    var s' := Shared(s, a);
    assert s'.capacity == s.capacity && |s.cells| <= |s'.cells|;
    assert |s'.cells| > |s.cells| ==> |s'.cells| <= s.capacity;
  }

  /** Every step but that of a new helper leaves less to do. */
  lemma StepLeavesLess(s: State, a: Action)
    requires RunningWell(s) && Enabled(s, a) && !a.Join?
    ensures Rest(Do(s, a)).Below(Rest(s))
  {
    if a.StopHelping? {
      StopHelpingLeavesLess(s);
    } else {
      RoomShrinks(s, a);
      SumUnmarked(s, a);
      OwnMarksMissNoMore(s, a);
      if a.Examine? && Own(s, a).pc.SetBit? {
        FoundUnmarked(s, a);
      } else if SameRoom(s, a) {
        SumWords(s, a);
        if Works(s, a) {
          WorkLeavesLess(s, a);
        } else {
          OwnWordsNoMore(s, a);
          MoveStepsLess(s, a);
          if Do(s, a).first == s.first { SumSteps(s, a); }
        }
      }
    }
  }

  // ---- Some step is always possible ----

  lemma {:induction false} SomeHelper(ts: seq<Thread>) returns (t: nat)
    requires CountHelpers(ts) > 0
    ensures t < |ts| && IsHelper(ts[t])
  {
    var n := |ts| - 1;
    if IsHelper(ts[n]) { t := n; } else { t := SomeHelper(ts[..n]); }
  }

  lemma {:induction false} SomeActive(ts: seq<Thread>) returns (t: nat)
    requires CountActive(ts) > 0
    ensures t < |ts| && IsActive(ts[t])
  {
    var n := |ts| - 1;
    if IsActive(ts[n]) { t := n; } else { t := SomeActive(ts[..n]); }
  }

  /** As long as somebody is in the phase, an active thread can go on, or one that waits can leave or wake. */
  lemma SomeStepIsPossible(s: State) returns (a: Action)
    requires Inv(s) && s.helpers > 0
    ensures Enabled(s, a) && (a.Move? || a.Examine?)
  {
    var t;
    if s.active > 0 { t := SomeActive(s.threads); } else { t := SomeHelper(s.threads); }
    a := if s.threads[t].pc.Marking? && s.threads[t].local != [] then Examine(t) else Move(t);
  }

  // ---- Runs ----

  lemma InitRunsWell(s: State)
    requires Init(s)
    ensures RunningWell(s)
  {
    InitInv(s);
  }

  lemma {:induction false} RunStaysWell(s: State, actions: seq<Action>)
    requires RunningWell(s) && Enables(s, actions)
    ensures RunningWell(After(s, actions))
    decreases |actions|
  {
    if actions != [] {
      RunningWellKept(s, actions[0]);
      RunStaysWell(Do(s, actions[0]), actions[1..]);
    }
  }

  /** The rest of a phase, from any point of it. */
  lemma {:induction false} Complete(s: State) returns (actions: seq<Action>)
    requires RunningWell(s)
    ensures Enables(s, actions) && After(s, actions).helpers <= 0
    decreases Rest(s).unmarked, Rest(s).room, Rest(s).words, Rest(s).behind, Rest(s).steps, Rest(s).help
  {
    if s.helpers <= 0 {
      actions := [];
    } else {
      var a := SomeStepIsPossible(s);
      StepLeavesLess(s, a);
      RunningWellKept(s, a);
      var rest := Complete(Do(s, a));
      actions := [a] + rest;
      assert actions[1..] == rest;
    }
  }

  /** Whatever happened so far, the phase can be completed: everybody leaves. */
  lemma EveryPhaseCanEnd(s: State, actions: seq<Action>) returns (rest: seq<Action>)
    requires Init(s) && Enables(s, actions)
    ensures Enables(After(s, actions), rest) && After(After(s, actions), rest).helpers == 0
  {
    InitRunsWell(s);
    RunStaysWell(s, actions);
    rest := Complete(After(s, actions));
    RunStaysWell(After(s, actions), rest);
  }

  lemma {:induction false} LastOneLeft(s: State, actions: seq<Action>)
    requires Enables(s, actions) && s.helpers > 0 && After(s, actions).helpers <= 0
    ensures SomeLeave(s, actions)
    decreases |actions|
  {
    if !Leaves(s, actions[0]) { LastOneLeft(Do(s, actions[0]), actions[1..]); }
  }

  /** A phase that everybody has left has marked everything reachable, or has recorded an overflow. */
  lemma EndedPhaseIsComplete(s: State, actions: seq<Action>)
    requires Init(s) && Enables(s, actions) && After(s, actions).helpers == 0
    ensures NoWork(After(s, actions))
    ensures After(s, actions).invalid || forall o :: Reachable(s.fields, s.marks, o) ==> o in After(s, actions).marks
  {
    LastOneLeft(s, actions);
    ParallelMarkingComplete(s, actions);
  }

  /** Step `i` of an unending run is possible, and is not that of a new helper. */
  ghost predicate Follows(states: nat -> State, actions: nat -> Action, i: nat) {
    Enabled(states(i), actions(i)) && !actions(i).Join? && states(i + 1) == Do(states(i), actions(i))
  }

  /** However the threads are scheduled, no run goes on forever without new helpers. */
  lemma {:induction false} EveryRunEnds(states: nat -> State, actions: nat -> Action, n: nat)
    requires RunningWell(states(n))
    ensures exists i :: i >= n && !Follows(states, actions, i)
    decreases Rest(states(n)).unmarked, Rest(states(n)).room, Rest(states(n)).words, Rest(states(n)).behind,
      Rest(states(n)).steps, Rest(states(n)).help
  {
    if Follows(states, actions, n) {
      StepLeavesLess(states(n), actions(n));
      RunningWellKept(states(n), actions(n));
      EveryRunEnds(states, actions, n + 1);
    }
  }
}
