/**
  The end of a collection (GC_finish_collection in gc/alloc.c): finalization runs on what the marker
  left, and what is still unmarked afterwards is swept.

  The marker and the object heap count words, finalization counts bytes. Main results: an object
  survives exactly if finalization leaves it marked, so what the program could reach survives, and
  so do finalizable objects with all that ordered ones lead to; and afterwards the tables and the
  queue speak of survivors only.
 */
module FinalSweep {
  import opened ObjectGraph
  import opened HeapSteps
  import F = Finalize
  import T = HashTable
  import M = Marker
  import S = Sweep

  // ---- One heap in words and in bytes ----

  /** The byte address of a word address. */
  function Bytes(a: nat): nat {
    a * F.ALIGNMENT
  }

  /** A word's reference counted in bytes; integers are whatever they are. */
  predicate SameWord(w: Word, v: Word) {
    w.Ptr? == v.Ptr? && (w.Ptr? ==> v.target == Bytes(w.target))
  }

  predicate SameWords(ws: seq<Word>, vs: seq<Word>) {
    |vs| == |ws| && forall i :: 0 <= i < |ws| ==> SameWord(ws[i], vs[i])
  }

  /** The same objects with the same words. */
  ghost predicate SameFields(fields: Fields, inBytes: Fields) {
    && (forall o :: o in fields ==> Bytes(o) in inBytes && SameWords(fields[o], inBytes[Bytes(o)]))
    && (forall a :: a in inBytes ==> exists o :: o in fields && Bytes(o) == a)
  }

  ghost predicate SameMarked(fields: Fields, marks: set<Obj>, inBytes: set<Obj>) {
    forall o :: o in fields ==> (o in marks <==> Bytes(o) in inBytes)
  }

  /** The marker's heap as finalization sees it. */
  ghost predicate SameHeap(g: M.Globals, h: F.Heap) {
    && SameFields(g.fields, h.fields) && SameMarked(g.fields, g.marks, h.marks) && h.marks <= h.fields.Keys
    && (forall q :: q in g.fields ==> (q in M.RootsOf(g) <==> Bytes(q) in F.RootRefs(h)))
  }

  lemma SameReference(ws: seq<Word>, vs: seq<Word>, q: Obj)
    requires SameWords(ws, vs) && Ptr(Bytes(q)) in vs
    ensures Ptr(q) in ws
  {
    var i :| 0 <= i < |vs| && vs[i] == Ptr(Bytes(q));
    assert SameWord(ws[i], vs[i]);
  }

  /** What the marker promises is what finalization relies on. */
  lemma ClosedInBytes(g: M.Globals, h: F.Heap)
    requires SameHeap(g, h) && M.MarksClosed(g) && g.HeapOk()
    ensures F.HeapOk(h) && Closed(h.fields, h.marks) && F.RootRefs(h) * h.fields.Keys <= h.marks
  {
    forall a, b | a in h.fields && a in h.marks && Ptr(b) in h.fields[a] && b in h.fields ensures b in h.marks {
      var o, q :| o in g.fields && Bytes(o) == a && q in g.fields && Bytes(q) == b;
      SameReference(g.fields[o], h.fields[a], q);
    }
    forall b | b in F.RootRefs(h) && b in h.fields ensures b in h.marks {
      var q :| q in g.fields && Bytes(q) == b;
    }
    forall o | o in g.fields ensures Bytes(o) != 0 {
      assert 1 <= M.Block(o);
    }
  }

  // ---- The marker's variables after finalization ----

  /** An object's words after links at byte addresses in `zeroed` have been cleared. */
  function SettledWords(ws: seq<Word>, o: Obj, zeroed: seq<T.Address>): (r: seq<Word>)
    ensures |r| == |ws|
  {
    seq(|ws|, i requires 0 <= i < |ws| => if F.WordAddress(Bytes(o), i) in zeroed then Int(0) else ws[i])
  }

  /** Links are cleared in the heap, and what finalization marked has its mark. */
  function Settled(g: M.Globals, r: F.Result): M.Globals {
    g.(fields := map o | o in g.fields :: SettledWords(g.fields[o], o, r.zeroed),
       marks := g.marks + (set o | o in g.fields && Bytes(o) in r.after.marks),
       objectsAreMarked := true)
  }

  /** A call of GC_finalize: the heap it found, the tables, and what it did. */
  datatype Call = Call(h: F.Heap, lm: map<T.Address, T.Address>, fm: map<T.Address, F.Finalizer>,
                       overflows: T.Address -> bool, middle: set<Obj>, r: F.Result)

  ghost predicate Ran(f: Call) {
    F.Finalized(f.h, f.lm, f.fm, f.overflows, f.middle, f.r)
  }

  lemma SettledIs(g: M.Globals, f: Call)
    requires SameHeap(g, f.h) && Ran(f)
    ensures SameFields(Settled(g, f.r).fields, f.r.after.fields)
    ensures SameMarked(g.fields, Settled(g, f.r).marks, f.r.after.marks)
  {
    forall o | o in g.fields
      ensures SameWords(Settled(g, f.r).fields[o], f.r.after.fields[Bytes(o)])
    {
      assert f.r.after.fields[Bytes(o)] == F.ClearedWords(f.h.fields[Bytes(o)], Bytes(o), f.r.zeroed);
    }
  }

  // ---- The object heap ----

  /** The words of the objects in `done` are those after finalization, the others those before. */
  ghost predicate PartlySettled(p: S.Snap, m: S.Snap, g: M.Globals, g': M.Globals, done: set<Obj>) {
    && m.v == p.v && m.s == p.s.(mem := m.s.mem)
    && forall x :: x in p.v.held ==> WordsAgree(m, if Address(p.s.blocks, x) in done then g' else g, x)
  }

  lemma SettleOne(p: S.Snap, m: S.Snap, m': S.Snap, g: M.Globals, g': M.Globals, done: set<Obj>, a: Obj, x: S.Obj)
    requires PartlySettled(p, m, g, g', done) && S.Inv(p.s, p.v) && g'.fields.Keys == g.fields.Keys
    requires x in p.v.held && Address(p.s.blocks, x) == a && a in g'.fields && g'.fields[a] != []
    requires m' == m.(s := m.s.(mem := m.s.mem[x := CellOf(p.s.blocks, g'.fields[a])]))
    ensures PartlySettled(p, m', g, g', done + {a})
  {
    forall y | y in p.v.held
      ensures WordsAgree(m', if Address(p.s.blocks, y) in done + {a} then g' else g, y)
    {
      assert WordsAgree(m, if Address(p.s.blocks, y) in done then g' else g, y);
      LinkOfAddress(p.s, x);
      assert S.IsObj(p.s.blocks, y);
      LinkOfAddress(p.s, y);
    }
  }

  /** The object heap takes over the words of the object at `a`. */
  method StoreOne(objects: S.ObjectHeap, ghost p: S.Snap, ghost g: M.Globals, g': M.Globals, ghost done: set<Obj>,
      a: Obj)
    requires objects.Valid() && PartlySettled(p, objects.Now(), g, g', done) && S.Inv(p.s, p.v)
    requires g'.fields.Keys == g.fields.Keys && a in g'.fields && g'.fields[a] != []
    requires exists y :: y in p.v.held && Address(p.s.blocks, y) == a
    modifies objects
    ensures objects.Valid() && PartlySettled(p, objects.Now(), g, g', done + {a})
  {
    var x := LinkOf(objects.s.blocks, a);
    ghost var m := objects.Now();
    ghost var y :| y in p.v.held && Address(p.s.blocks, y) == a;
    assert S.IsObj(p.s.blocks, y);
    LinkOfAddress(p.s, y);
    objects.Assign(x, CellOf(objects.s.blocks, g'.fields[a]));
    SettleOne(p, m, objects.Now(), g, g', done, a, x);
  }

  /** The object heap takes over all words. */
  method StoreSettled(objects: S.ObjectHeap, ghost g: M.Globals, g': M.Globals)
    requires objects.Valid() && ObjectsAgree(objects.Now(), g) && g'.fields.Keys == g.fields.Keys
      && g'.uncollectable == g.uncollectable
    requires forall a :: a in g.fields ==> (g'.fields[a] == [] <==> g.fields[a] == [])
    modifies objects
    ensures objects.Valid() && objects.Now() == old(objects.Now()).(s := old(objects.s).(mem := objects.s.mem))
    ensures ObjectsAgree(objects.Now(), g')
  {
    ghost var p := objects.Now();
    var rest := g'.fields.Keys;
    ghost var done: set<Obj> := {};
    NoneSettled(p, g, g');
    while rest != {}
      invariant objects.Valid() && PartlySettled(p, objects.Now(), g, g', done)
      invariant forall a :: a in g'.fields <==> a in done || a in rest
      decreases rest
    {
      var a :| a in rest;
      if g'.fields[a] != [] {
        StoreOne(objects, p, g, g', done, a);
      } else {
        SettleEmpty(p, objects.Now(), g, g', done, a);
      }
      rest, done := rest - {a}, done + {a};
    }
    AllSettled(p, objects.Now(), g, g', done);
  }

  lemma NoneSettled(p: S.Snap, g: M.Globals, g': M.Globals)
    requires ObjectsAgree(p, g)
    ensures PartlySettled(p, p, g, g', {})
  {
    forall x | x in p.v.held ensures WordsAgree(p, g, x) {
    }
  }

  lemma SettleEmpty(p: S.Snap, m: S.Snap, g: M.Globals, g': M.Globals, done: set<Obj>, a: Obj)
    requires PartlySettled(p, m, g, g', done) && a in g'.fields && g'.fields[a] == []
    ensures PartlySettled(p, m, g, g', done + {a})
  {
    forall y | y in p.v.held
      ensures WordsAgree(m, if Address(p.s.blocks, y) in done + {a} then g' else g, y)
    {
      assert WordsAgree(m, if Address(p.s.blocks, y) in done then g' else g, y);
    }
  }

  lemma AllSettled(p: S.Snap, m: S.Snap, g: M.Globals, g': M.Globals, done: set<Obj>)
    requires ObjectsAgree(p, g) && PartlySettled(p, m, g, g', done) && g.fields.Keys == g'.fields.Keys
    requires forall a :: a in g'.fields ==> a in done
    requires g'.uncollectable == g.uncollectable
    ensures ObjectsAgree(m, g')
  {
    forall x | x in m.v.held ensures WordsAgree(m, g', x) {
      assert WordsAgree(m, if Address(p.s.blocks, x) in done then g' else g, x);
    }
  }

  // ---- What the tables name ----

  /** The byte address of an object. */
  function Place(o: S.Snap, x: S.Obj): nat {
    Bytes(Address(o.s.blocks, x))
  }

  /** `a` is the address of an object that is held. */
  ghost predicate HeldAt(o: S.Snap, a: nat) {
    exists x :: x in o.v.held && Place(o, x) == a
  }

  /** Each object a table names is held. */
  ghost predicate LinksOfHeld(o: S.Snap, lm: map<T.Address, T.Address>, baseOf: T.Address -> Obj) {
    forall l :: l in lm ==> HeldAt(o, lm[l]) && (baseOf(l) == 0 || HeldAt(o, baseOf(l)))
  }

  ghost predicate FinalizersOfHeld(o: S.Snap, fm: map<T.Address, F.Finalizer>) {
    forall a :: a in fm ==> HeldAt(o, a)
  }

  ghost predicate QueueOfHeld(o: S.Snap, ready: seq<(T.Address, F.Finalizer)>) {
    forall k :: 0 <= k < |ready| ==> HeldAt(o, ready[k].0)
  }

  // ---- Finalization and the sweep ----

  /**
    The object heap before finalization, with cleared words, with the mark bits of `marked` set,
    and after the sweep.
   */
  datatype Ending = Ending(before: S.Snap, cleared: S.Snap, marked: seq<S.Obj>, ready: S.Snap, after: S.Snap)

  /** The marker has finished, and the object heap agrees with it. */
  ghost predicate MarkingOver(o: S.Snap, g: M.Globals, h: F.Heap, fm: map<T.Address, F.Finalizer>) {
    && M.MarksClosed(g) && g.HeapOk() && SameHeap(g, h)
    && ObjectsAgree(o, g) && MarksAgree(o, g) && NoneStray(o) && FinalizersOfHeld(o, fm)
  }

  /** The object heap has taken over words and marks from `g`. */
  ghost predicate Followed(g: M.Globals, e: Ending) {
    && e.cleared == e.before.(s := e.before.s.(mem := e.cleared.s.mem)) && ObjectsAgree(e.cleared, g)
    && HeldMarked(e.cleared, g, e.marked) && OnlyBits(e.cleared, e.ready)
    && (forall x :: S.Marked(e.ready.s.blocks, x) <==> S.Marked(e.cleared.s.blocks, x) || x in e.marked)
    && S.Inv(e.cleared.s, e.cleared.v) && S.Inv(e.ready.s, e.ready.v)
  }

  /** A finished collection: `g` is what the marker left, the same heap as finalization found. */
  ghost predicate Ended(g: M.Globals, f: Call, e: Ending) {
    && MarkingOver(e.before, g, f.h, f.fm) && Ran(f) && S.Inv(e.before.s, e.before.v)
    && Followed(Settled(g, f.r), e)
    && S.FinishDid(e.ready, e.after) && S.Inv(e.after.s, e.after.v)
  }

  /** The mark bits are right when the sweep begins. */
  lemma ReadyAgrees(g: M.Globals, f: Call, e: Ending)
    requires Ended(g, f, e)
    ensures var g' := Settled(g, f.r);
            ObjectsAgree(e.ready, g') && MarksAgree(e.ready, g') && NoneStray(e.ready)
  {
    var g0 := Settled(g, f.r).(marks := g.marks);
    SameFieldsAgree(e.cleared, Settled(g, f.r), g0);
    assert MarksAgree(e.cleared, g0) && NoneStray(e.cleared);
    GrownAgree(e.cleared, e.ready, g0, Settled(g, f.r), e.marked);
  }

  lemma EndShrinks(g: M.Globals, f: Call, e: Ending)
    requires Ended(g, f, e)
    ensures Shrunk(e.cleared, e.after, Settled(g, f.r))
  {
    ReadyAgrees(g, f, e);
    FinishShrinks(e.ready, e.after, Settled(g, f.r));
    ShrunkAfterBits(e.cleared, e.ready, e.after, Settled(g, f.r));
  }

  lemma ShrunkExactly(p: S.Snap, q: S.Snap, g: M.Globals, marks: set<Obj>, x: S.Obj)
    requires Known(p, g) && Shrunk(p, q, g) && SameMarked(g.fields, g.marks, marks) && x in p.v.held
    ensures x in q.v.held <==> Place(p, x) in marks
  {
  }

  lemma UntouchedWords(p: S.Snap, q: S.Snap, g: M.Globals, x: S.Obj)
    requires WordsAgree(p, g, x) && S.Untouched(p.s, q.s, {x})
    ensures Place(q, x) == Place(p, x) && x in p.s.mem && x in q.s.mem && q.s.mem[x] == p.s.mem[x]
    ensures WordsAgree(q, g, x)
  {
    assert x in {x};
  }

  /** Objects survive exactly if finalization left them marked, their words as it left them. */
  lemma SurvivesExactly(g: M.Globals, f: Call, e: Ending, x: S.Obj)
    requires Ended(g, f, e) && x in e.before.v.held
    ensures x in e.after.v.held <==> Place(e.before, x) in f.r.after.marks
    ensures x in e.after.v.held ==>
      && Place(e.after, x) == Place(e.before, x) && x in e.after.s.mem && x in e.cleared.s.mem
      && e.after.s.mem[x] == e.cleared.s.mem[x] && WordsAgree(e.after, Settled(g, f.r), x)
  {
    EndShrinks(g, f, e);
    SettledIs(g, f);
    ShrunkExactly(e.cleared, e.after, Settled(g, f.r), f.r.after.marks, x);
    if x in e.after.v.held {
      assert S.Untouched(e.cleared.s, e.after.s, {x});
      assert WordsAgree(e.cleared, Settled(g, f.r), x);
      UntouchedWords(e.cleared, e.after, Settled(g, f.r), x);
    }
  }

  /** Some ordered object in the queue leads to `a`. */
  ghost predicate Awaited(f: Call, a: Obj) {
    exists q: T.Address :: q in f.r.queued && q in f.fm && f.fm[q].proc != F.Null && Reachable(f.r.after.fields, {q}, a)
  }

  /** Each block that is left holds a survivor. */
  lemma BlocksHoldSurvivors(g: M.Globals, f: Call, e: Ending)
    requires Ended(g, f, e)
    ensures EachBlockHolds(e.after)
  {
    EndShrinks(g, f, e);
    MarkedBlocksHold(e.after);
  }

  /** What is marked before finalization or by it. */
  lemma LeftMarked(g: M.Globals, f: Call, a: Obj)
    requires SameHeap(g, f.h) && M.MarksClosed(g) && g.HeapOk() && Ran(f)
    ensures Reachable(f.h.fields, F.RootRefs(f.h), a) ==> a in f.r.after.marks
    ensures (exists k: T.Address :: k in f.fm && k == a) ==> a in f.r.after.marks
    ensures Awaited(f, a) ==> a in f.r.after.marks
  {
    ClosedInBytes(g, f.h);
    ClosedContainsReachable(f.h.fields, f.h.marks, F.RootRefs(f.h));
    if Awaited(f, a) {
      var q: T.Address :| q in f.r.queued && q in f.fm && f.fm[q].proc != F.Null
        && Reachable(f.r.after.fields, {q}, a);
      F.QueuedSurvives(f.h, f.lm, f.fm, f.overflows, f.middle, f.r, q);
    }
  }

  /**
    What the program could reach before links were cleared survives, and so does every object that
    has a finalizer, and what ordered ones in the queue lead to.
   */
  lemma ReachableSurvives(g: M.Globals, f: Call, e: Ending, x: S.Obj)
    requires Ended(g, f, e) && x in e.before.v.held
    ensures Reachable(f.h.fields, F.RootRefs(f.h), Place(e.before, x)) ==> x in e.after.v.held
    ensures (exists k: T.Address :: k in f.fm && k == Place(e.before, x)) ==> x in e.after.v.held
    ensures Awaited(f, Place(e.before, x)) ==> x in e.after.v.held
  {
    SurvivesExactly(g, f, e, x);
    LeftMarked(g, f, Place(e.before, x));
  }

  // ---- The tables afterwards ----

  lemma MarkedIsHeld(g: M.Globals, f: Call, e: Ending, a: nat)
    requires Ended(g, f, e) && a in f.r.after.marks
    ensures HeldAt(e.after, a)
  {
    var x := HeldObject(g, f, e, a);
    SurvivesExactly(g, f, e, x);
  }

  lemma HeldObject(g: M.Globals, f: Call, e: Ending, a: nat) returns (x: S.Obj)
    requires Ended(g, f, e) && a in f.r.after.marks
    ensures x in e.before.v.held && Place(e.before, x) == a
  {
    if a in f.middle {
      var o :| o in g.fields && Bytes(o) == a;
      x :| x in e.before.v.held && Address(e.before.s.blocks, x) == o;
    } else {
      assert a in f.fm;
      x :| x in e.before.v.held && Place(e.before, x) == a;
    }
  }

  /** Afterwards links belong to survivors, and lie in survivors or outside the heap. */
  lemma LinksSpeakOfSurvivors(g: M.Globals, f: Call, e: Ending, lm': map<T.Address, T.Address>,
      baseOf: T.Address -> Obj)
    requires Ended(g, f, e) && F.LinksAfter(f.lm, lm', f.h.marks, f.r.after.marks, baseOf)
    ensures LinksOfHeld(e.after, lm', baseOf)
  {
    forall l | l in lm' ensures HeldAt(e.after, lm'[l]) && (baseOf(l) == 0 || HeldAt(e.after, baseOf(l))) {
      MarkedIsHeld(g, f, e, lm'[l]);
      if baseOf(l) != 0 { MarkedIsHeld(g, f, e, baseOf(l)); }
    }
  }

  /** Every object that keeps its finalizer is a survivor. */
  lemma FinalizersSpeakOfSurvivors(g: M.Globals, f: Call, e: Ending, fm': map<T.Address, F.Finalizer>)
    requires Ended(g, f, e) && F.FinalizersAfter(f.fm, fm', f.middle)
    ensures FinalizersOfHeld(e.after, fm')
  {
    forall a | a in fm' ensures HeldAt(e.after, a) {
      MarkedIsHeld(g, f, e, a);
    }
  }

  /** Everything in the queue is held, and the collector pushes the queue as a root. */
  ghost predicate QueueIsRoot(o: S.Snap, h: F.Heap, ready: seq<(T.Address, F.Finalizer)>) {
    QueueOfHeld(o, ready) && forall k :: 0 <= k < |ready| ==> ready[k].0 in F.RootRefs(h)
  }

  /** Everything in the queue was there before or has just been queued. */
  lemma QueuedWhere(ready: seq<(T.Address, F.Finalizer)>, ready': seq<(T.Address, F.Finalizer)>,
      queued: seq<T.Address>, fm: map<T.Address, F.Finalizer>, k: nat)
    requires F.QueuedInFront(ready, ready', queued, fm) && k < |ready'|
    ensures if k < |queued| then ready'[k].0 in queued else k - |queued| < |ready| && ready'[k] == ready[k - |queued|]
  {
    if k < |queued| {
      assert ready'[|queued| - 1 - (|queued| - 1 - k)].0 == queued[|queued| - 1 - k];
    } else {
      assert ready'[k] == ready'[|queued|..][k - |queued|];
    }
  }

  /** Everything in the queue is a survivor, if what was queued before is a root. */
  lemma QueueSpeaksOfSurvivors(g: M.Globals, f: Call, e: Ending, ready: seq<(T.Address, F.Finalizer)>,
      ready': seq<(T.Address, F.Finalizer)>)
    requires Ended(g, f, e) && F.QueuedInFront(ready, ready', f.r.queued, f.fm)
    requires QueueIsRoot(e.before, f.h, ready)
    ensures QueueOfHeld(e.after, ready')
  {
    forall k | 0 <= k < |ready'| ensures HeldAt(e.after, ready'[k].0) {
      QueuedWhere(ready, ready', f.r.queued, f.fm, k);
      if k < |f.r.queued| {
        MarkedIsHeld(g, f, e, ready'[k].0);
      } else {
        RootIsHeld(g, f, e, ready[k - |f.r.queued|].0);
      }
    }
  }

  lemma RootIsHeld(g: M.Globals, f: Call, e: Ending, a: nat)
    requires Ended(g, f, e) && HeldAt(e.before, a) && a in F.RootRefs(f.h)
    ensures HeldAt(e.after, a)
  {
    var x :| x in e.before.v.held && Place(e.before, x) == a;
    assert Address(e.before.s.blocks, x) in g.fields;
    ClosedInBytes(g, f.h);
    MarkedIsHeld(g, f, e, a);
  }

  // ---- The end of a collection ----


  // ---- The end of a collection ----

  lemma FinalizersKnown(o: S.Snap, g: M.Globals, h: F.Heap, fm: map<T.Address, F.Finalizer>)
    requires ObjectsAgree(o, g) && SameHeap(g, h) && FinalizersOfHeld(o, fm)
    ensures forall a: T.Address :: a in fm ==> a in h.fields
  {
    forall a: T.Address | a in fm ensures a in h.fields {
      assert HeldAt(o, a);
      var x :| x in o.v.held && Place(o, x) == a;
      assert Address(o.s.blocks, x) in g.fields;
    }
  }

  /** GC_finalize ran on tables whose contents were `lm`, `fm` and `ready`. */
  ghost predicate TablesDid(f: Call, lm': map<T.Address, T.Address>, fm': map<T.Address, F.Finalizer>,
      ready: seq<(T.Address, F.Finalizer)>, ready': seq<(T.Address, F.Finalizer)>, baseOf: T.Address -> Obj) {
    && F.LinksAfter(f.lm, lm', f.h.marks, f.r.after.marks, baseOf) && F.FinalizersAfter(f.fm, fm', f.middle)
    && F.QueuedInFront(ready, ready', f.r.queued, f.fm)
  }

  lemma TablesSpeakOfSurvivors(g: M.Globals, f: Call, e: Ending, lm': map<T.Address, T.Address>,
      fm': map<T.Address, F.Finalizer>, ready: seq<(T.Address, F.Finalizer)>, ready': seq<(T.Address, F.Finalizer)>,
      baseOf: T.Address -> Obj)
    requires Ended(g, f, e) && TablesDid(f, lm', fm', ready, ready', baseOf)
    ensures LinksOfHeld(e.after, lm', baseOf) && FinalizersOfHeld(e.after, fm')
    ensures QueueIsRoot(e.before, f.h, ready) ==> QueueOfHeld(e.after, ready')
  {
    LinksSpeakOfSurvivors(g, f, e, lm', baseOf);
    FinalizersSpeakOfSurvivors(g, f, e, fm');
    if QueueIsRoot(e.before, f.h, ready) { QueueSpeaksOfSurvivors(g, f, e, ready, ready'); }
  }

  /** GC_finalize on the tables. */
  method RunFinalization(tables: F.Finalization, h: F.Heap, baseOf: T.Address -> Obj, overflows: T.Address -> bool)
      returns (r: F.Result, ghost f: Call)
    requires tables.Valid() && F.HeapOk(h) && forall a: T.Address :: a in tables.fm ==> a in h.fields
    modifies tables
    ensures tables.Valid() && Ran(f) && f.h == h && f.lm == old(tables.lm) && f.fm == old(tables.fm) && f.r == r
    ensures TablesDid(f, tables.lm, tables.fm, old(tables.ready), tables.ready, baseOf)
  {
    ghost var lm, fm := tables.lm, tables.fm;
    ghost var middle;
    r, middle := tables.Run(h, baseOf, overflows);
    f := Call(h, lm, fm, overflows, middle, r);
  }

  /** The object heap takes over what finalization did to words and marks. */
  method Follow(objects: S.ObjectHeap, g: M.Globals, r: F.Result) returns (ghost e: Ending)
    requires objects.Valid() && ObjectsAgree(objects.Now(), g)
    modifies objects
    ensures objects.Valid() && Followed(Settled(g, r), e)
    ensures e.before == old(objects.Now()) && e.ready == objects.Now()
  {
    ghost var before := objects.Now();
    var g' := Settled(g, r);
    StoreSettled(objects, g, g');
    ghost var cleared := objects.Now();
    var marked := MarkedObjects(objects, g');
    MarkList(objects, marked);
    e := Ending(before, cleared, marked, objects.Now(), objects.Now());
  }

  /**
    GC_finish_collection once marking is over: GC_finalize, which clears links and marks objects,
    then the sweep. `g` are the marker's variables, `h` its heap in bytes, `baseOf` is GC_base for
    link addresses, and `overflows` says for which objects the mark stack overflows.
   */
  method FinishCollection(tables: F.Finalization, objects: S.ObjectHeap, g: M.Globals, h: F.Heap,
      baseOf: T.Address -> Obj, overflows: T.Address -> bool) returns (ghost f: Call, ghost e: Ending)
    requires tables.Valid() && objects.Valid() && MarkingOver(objects.Now(), g, h, tables.fm)
    modifies tables, objects
    ensures tables.Valid() && objects.Valid() && Ended(g, f, e)
    ensures f.h == h && f.lm == old(tables.lm) && f.fm == old(tables.fm)
    ensures TablesDid(f, tables.lm, tables.fm, old(tables.ready), tables.ready, baseOf)
    ensures e.before == old(objects.Now()) && e.after == objects.Now()
    ensures LinksOfHeld(objects.Now(), tables.lm, baseOf) && FinalizersOfHeld(objects.Now(), tables.fm)
    ensures QueueIsRoot(old(objects.Now()), h, old(tables.ready)) ==> QueueOfHeld(objects.Now(), tables.ready)
  {
    var r;
    ghost var ready := tables.ready;
    ClosedInBytes(g, h);
    FinalizersKnown(objects.Now(), g, h, tables.fm);
    r, f := RunFinalization(tables, h, baseOf, overflows);
    e := Follow(objects, g, r);
    objects.Finish();
    e := e.(after := objects.Now());
    TablesSpeakOfSurvivors(g, f, e, tables.lm, tables.fm, ready, tables.ready, baseOf);
  }
}
