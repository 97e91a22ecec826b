/**
  The allocator and the collector together (gc/malloc.c, gc/alloc.c), incremental or not: blocks come
  from the block allocator, objects from free lists and lazily swept blocks, marks from the marker as
  the control flow of collections drives it, and what is left unmarked goes back.

  Main results, for every run of heap growth, allocation, explicit deallocation, writes and
  collector steps: everything reachable from the roots is held, in a block in use and on no free
  list; a collection leaves the reachable part of the heap as it was, and a full one drops all that
  no chain of words could lead to; objects handed out do not overlap any that is held; no block
  leaks; and an allocation fails exactly if no free object, no object to sweep and no block suits.
 */
module WholeHeap {
  import opened ObjectGraph
  import opened Runs
  import opened HeapSteps
  import FreeLists
  import BlackList
  import BlockSteps
  import B = BlockAlloc
  import S = Sweep
  import M = Marker
  import C = Collections

  /** Everything reachable from the roots is held, in a block in use, and on no free list. */
  lemma ReachableIsHeld(p: Snap, a: Obj)
    requires InOrder(p) && Reachable(p.d.g.fields, M.RootsOf(p.d.g), a)
    ensures exists x :: x in p.o.v.held && Address(p.o.s.blocks, x) == a && S.IsObj(p.o.s.blocks, x)
              && !S.OnList(p.o.s, p.o.v, x) && x.blk in BlockSteps.InUse(p.b.s.ix.hdrs)
  {
    KeptSame(p.d.g);
    assert a in p.d.g.fields;
    var x :| x in p.o.v.held && Address(p.o.s.blocks, x) == a;
    assert S.IsObj(p.o.s.blocks, x) && x.blk in p.b.live;
  }

  // ---- The operations ----

  /** What is asked of the block allocator for objects of class `c`. */
  function RequestFor(kinds: seq<S.Kind>, c: S.Class, ignoreOffPage: bool): B.Request
    requires c.kind < |kinds|
  {
    B.Request(c.gran * GRANULE_BYTES, kinds[c.kind].uncollectable, !kinds[c.kind].hasPointers, ignoreOffPage)
  }

  /**
    An object is found exactly unless nothing is free, waits to be swept, or can be made of a free
    block; and the block allocator is asked exactly if nothing is free or waits to be swept. What it
    then drops or hands out becomes part of the object heap, and nothing else does.
   */
  ghost predicate FindDid(b: B.View, o: S.Snap, r: B.Request, c: S.Class, splitLimit: nat, b': B.View, o': S.Snap,
      x: S.Obj) {
    && c.kind < |o.s.kinds| && S.Untouched(o.s, o'.s, o.v.held) && o'.s.kinds == o.s.kinds
    && (!S.NeedsBlock(o, c) ==> b' == b)
    && (S.NeedsBlock(o, c) ==> B.AllocateDid(b, r, splitLimit, b', if x == S.NULL then 0 else x.blk))
    && (x == S.NULL <==> S.NeedsBlock(o, c) && B.NoneLeft(b.s, r, splitLimit + 1))
    && (x == S.NULL ==> o'.v.held == o.v.held)
    && (x != S.NULL ==>
        x !in o.v.held && o'.v.held == o.v.held + {x} && S.IsObj(o'.s.blocks, x) && o'.s.blocks[x.blk].Cls() == c)
    && (x != S.NULL ==> x in o'.s.mem && (o.s.kinds[c.kind].init ==> o'.s.mem[x] == S.Cell(S.NULL, true)))
  }

  /** Finding an object on a free list or by sweeping, or failing to. */
  lemma FoundOld(b: B.View, o: S.Snap, r: B.Request, c: S.Class, splitLimit: nat, o': S.Snap, x: S.Obj)
    requires S.NewDid(o, c, 0, o', x) && c.kind < |o.s.kinds| && BlocksAgree(b.live, o.s.blocks)
    requires S.Inv(o.s, o.v) && S.Inv(o'.s, o'.v) && NoneStray(o)
    ensures BlocksAgree(b.live, o'.s.blocks) && NoneStray(o') && BitsKept(o, o')
    ensures x != S.NULL ==> FindDid(b, o, r, c, splitLimit, b, o', x)
  {
    NewNotStray(o, c, 0, o', x);
    NewBitsKept(o, c, 0, o', x);
  }

  /** Finding none: `o1` is the object heap after looking, `o'` with dropped blocks entered. */
  lemma FoundNone(b: B.View, o: S.Snap, r: B.Request, c: S.Class, splitLimit: nat, o1: S.Snap, b': B.View, o': S.Snap)
    requires S.NewDid(o, c, 0, o1, S.NULL) && c.kind < |o.s.kinds| && BlocksAgree(b.live, o1.s.blocks)
    requires B.AllocateDid(b, r, splitLimit, b', 0) && 0 !in b'.live && Entered(o1, o', B.DroppedBlocks(b, b', 0))
    ensures BlocksAgree(b'.live, o'.s.blocks) && FindDid(b, o, r, c, splitLimit, b', o', S.NULL)
  {
    DroppedAgree(b, r, splitLimit, b', 0, o1, o');
    assert b'.live - {0} == b'.live;
    S.UntouchedTwice(o.s, o1.s, o'.s, o.v.held, o.v.held);
  }

  /** Finding one in the new block `n`, after that. */
  lemma FoundNew(b: B.View, o: S.Snap, r: B.Request, c: S.Class, splitLimit: nat, o1: S.Snap, b': B.View, n: nat,
      o2: S.Snap, o': S.Snap, x: S.Obj)
    requires S.NewDid(o, c, 0, o1, S.NULL) && c.kind < |o.s.kinds|
    requires B.AllocateDid(b, r, splitLimit, b', n) && n != 0 && r.sz == c.gran * GRANULE_BYTES
    requires o2.v.held == o1.v.held && S.Untouched(o1.s, o2.s, o1.v.held) && o2.s.kinds == o1.s.kinds
    requires S.NeedsBlock(o2, c) && BlocksAgree(b'.live - {n}, o2.s.blocks) && S.NewDid(o2, c, n, o', x)
    ensures BlocksAgree(b'.live, o'.s.blocks) && FindDid(b, o, r, c, splitLimit, b', o', x)
  {
    S.UntouchedTwice(o.s, o1.s, o2.s, o.v.held, o.v.held);
    S.UntouchedTwice(o.s, o2.s, o'.s, o.v.held, o.v.held);
  }

  /** Object `x`, if there is one, is new to the marker, whose variables are `g`, and can be made known to it. */
  ghost predicate Tellable(o: S.Snap, g: M.Globals, x: S.Obj) {
    x != S.NULL ==>
      && S.IsObj(o.s.blocks, x) && o.s.blocks[x.blk].kind < |o.s.kinds|
      && Address(o.s.blocks, x) !in g.fields && 1 <= M.Block(Address(o.s.blocks, x))
      && (S.Marked(o.s.blocks, x) && !S.Uncollectable(o.s, x) ==> g.objectsAreMarked)
  }

  /** An allocation: what is found becomes the program's, and the marker's to look at, with the mark bit it has. */
  ghost predicate MakeDid(p: Snap, c: S.Class, ignoreOffPage: bool, splitLimit: nat, q: Snap, x: S.Obj) {
    && c.kind < |p.o.s.kinds|
    && FindDid(p.b, p.o, RequestFor(p.o.s.kinds, c, ignoreOffPage), c, splitLimit, q.b, q.o, x)
    && (x != S.NULL ==> Address(q.o.s.blocks, x) !in p.d.g.fields)
    && q.d == p.d.(g := Told(p.d.g, q.o, x))
  }

  /** An object is given back by the program: it is free, or its block is if it had one to itself. */
  ghost predicate ObjectFreed(b: B.View, o: S.Snap, x: S.Obj, b': B.View, o': S.Snap) {
    && o'.v.held == o.v.held - {x} && S.Untouched(o.s, o'.s, o'.v.held) && x.blk in o.s.blocks
    && var large := o.s.blocks[x.blk].Large();
       && (x.blk in o'.s.blocks <==> !large) && (!large ==> S.OnList(o'.s, o'.v, x))
       && Returned(b, b', if large then {x.blk} else {})
  }

  ghost predicate DropDid(p: Snap, x: S.Obj, q: Snap) {
    && ObjectFreed(p.b, p.o, x, q.b, q.o)
    && q.d == p.d.(g := p.d.g.WithoutObject(Address(p.o.s.blocks, x)))
  }

  ghost predicate ExpandDid(p: Snap, start: nat, n: nat, q: Snap) {
    B.GrowDid(p.b, start, n, q.b) && q.o == p.o && q.d == p.d
  }

  ghost predicate HasWord(p: Snap, x: S.Obj, i: nat) {
    x in p.o.v.held && Address(p.o.s.blocks, x) in p.d.g.fields && i < |p.d.g.fields[Address(p.o.s.blocks, x)]|
  }

  /** A write, with its dirty page if the collector is incremental. */
  ghost predicate StoreDid(p: Snap, x: S.Obj, i: nat, w: Word, q: Snap) {
    && HasWord(p, x, i) && q.b == p.b
    && var a := Address(p.o.s.blocks, x);
       && q.o == p.o.(s := p.o.s.(mem := p.o.s.mem[x := CellOf(p.o.s.blocks, p.d.g.fields[a][i := w])]))
       && C.Did(p.d, C.Write(a, i, w, i), q.d, C.Done)
  }

  /** The same objects are held, with the same contents, and there are the same blocks. */
  ghost predicate OnlySweeping(o: S.Snap, o': S.Snap) {
    && o'.v.held == o.v.held && S.Untouched(o.s, o'.s, o.v.held)
    && o'.s.blocks.Keys == o.s.blocks.Keys && S.SameClasses(o.s.blocks, o'.s.blocks) && o'.s.kinds == o.s.kinds
  }

  /** Nothing changed for the program. */
  ghost predicate NothingLost(p: Snap, q: Snap) {
    q.b == p.b && OnlySweeping(p.o, q.o)
  }

  /**
    The end of a collection, whose marking led to `d`: the reachable part of the heap is as before;
    an object stays held exactly if it was marked, so if it is reachable, and after a full collection
    only if some chain of words could lead to it; and every block that is left without held objects
    has been given back to the block allocator.
   */
  ghost predicate CollectDid(p: Snap, d: C.Snap, full: bool, q: Snap) {
    && Kept(p.d.g, q.d.g) && Cleaned(d.g, q.d.g) && q.d == d.(g := q.d.g)
    && q.o.v.held <= p.o.v.held && S.Untouched(p.o.s, q.o.s, q.o.v.held)
    && q.o.s.blocks.Keys <= p.o.s.blocks.Keys
    && (forall n :: n in BlockSteps.InUse(q.b.s.ix.hdrs) ==> exists x: S.Obj :: x.blk == n && x in q.o.v.held)
    && Returned(p.b, q.b, p.o.s.blocks.Keys - q.o.s.blocks.Keys)
    && (forall x :: x in p.o.v.held && Reachable(p.d.g.fields, M.RootsOf(p.d.g), Address(p.o.s.blocks, x)) ==>
          x in q.o.v.held)
    && (full ==> forall x :: x in q.o.v.held ==> M.Named(p.d.g, Address(p.o.s.blocks, x)))
  }

  /** A collection has finished. */
  predicate Finishes(rep: C.Report) {
    rep.Collected? && rep.result == M.Finished
  }

  /** A step of the collector that led from `p.d` to `d`, with the sweeping and freeing that goes with it. */
  ghost predicate SteppedTo(p: Snap, d: C.Snap, rep: C.Report, q: Snap) {
    if Finishes(rep) then CollectDid(p, d, rep.full, q) else q.d == d && NothingLost(p, q)
  }

  /** A step of the collector, where `reclaimed` is what GC_reclaim_all answers to the stop function `stop`. */
  ghost predicate ProceedDid(p: Snap, timeout: M.Stop, stop: nat -> bool, q: Snap, rep: C.Report) {
    exists d, reclaimed :: ((forall n :: !stop(n)) ==> reclaimed) && C.Proceeded(p.d, timeout, reclaimed, d, rep)
      && SteppedTo(p, d, rep, q)
  }

  // ---- What the marker's steps leave alone ----

  ghost predicate SameHeap(g0: M.Globals, g: M.Globals) {
    g.fields == g0.fields && g.segs == g0.segs && g.eager == g0.eager && g.uncollectable == g0.uncollectable
  }

  lemma ProceededSameHeap(p: C.Snap, timeout: M.Stop, reclaimed: bool, q: C.Snap, rep: C.Report)
    requires C.Proceeded(p, timeout, reclaimed, q, rep)
    ensures SameHeap(p.g, q.g)
  {
  }

  lemma CollectedIs(p: Snap, d: C.Snap, full: bool, q: Snap)
    requires SameHeap(p.d.g, d.g) && M.AllReachableMarked(d.g) && (full ==> M.OnlyNamedMarked(d.g)) && Kept(d.g, q.d.g)
    requires Known(p.o, d.g) && Shrunk(p.o, q.o, d.g) && EachBlockHolds(q.o)
    requires BlockSteps.InUse(q.b.s.ix.hdrs) == q.b.live && BlocksAgree(q.b.live, q.o.s.blocks)
    requires q.o.s.blocks.Keys <= p.o.s.blocks.Keys && Returned(p.b, q.b, p.o.s.blocks.Keys - q.o.s.blocks.Keys)
    requires Cleaned(d.g, q.d.g) && q.d == d.(g := q.d.g)
    ensures CollectDid(p, d, full, q)
  {
    MarkedIsCollected(p.d, d, p.o, q.o, full, q.d.g);
  }

  lemma ReleaseDid(p: C.Snap, a: Obj, q: C.Snap, rep: C.Report)
    requires C.Did(p, C.Release(a), q, rep) && a in p.g.fields
    ensures q == p.(g := p.g.WithoutObject(a))
  {
  }

  lemma AllocateDid(p: C.Snap, a: Obj, len: nat, kept: bool, bit: bool, q: C.Snap, rep: C.Report)
    requires C.Did(p, C.Allocate(a, len, kept, bit), q, rep)
    requires a !in p.g.fields && 1 <= M.Block(a) && (bit && !kept ==> p.g.objectsAreMarked)
    ensures q == p.(g := p.g.WithObject(a, len, kept, bit))
  {
  }

  /** The mark bits to be set are those of new marks. */
  lemma LittleGrew(p: C.Snap, q: C.Snap)
    requires p.job.task.Little? && C.LittleDid(p, q)
      && (!q.g.objectsAreMarked ==> q.g.marks * q.g.fields.Keys <= q.g.uncollectable)
    ensures MarksGrew(p.g, q.g) && SameHeap(p.g, q.g)
    ensures !Late(q.job.task)
  {
  }

  lemma StoppedGrew(p: C.Snap, timeout: M.Stop, q: C.Snap, rep: C.Report)
    requires (p.job.task.Ending? || p.job.task.Maybe? || p.job.task.Marking?) && C.MarkDid(p, timeout, q, rep)
    requires !q.g.objectsAreMarked ==> q.g.marks * q.g.fields.Keys <= q.g.uncollectable
    ensures MarksGrew(p.g, q.g) && SameHeap(p.g, q.g) && !Late(q.job.task)
    ensures Late(p.job.task) ==> rep.result == M.Finished
    ensures rep.result == M.Finished ==> M.AllReachableMarked(q.g)
  {
    var stop := C.StopOf(p, timeout);
    var g :| M.StoppedMarkDid(p.g, g, stop, rep.result) &&
      q.g == if rep.result == M.Abandoned && p.job.task.Marking?
          && !g.incremental then g.(phase := M.Invalid, stack := []) else g;
  }

  lemma SameHeapReachable(g0: M.Globals, g: M.Globals, a: Obj)
    requires SameHeap(g0, g)
    ensures Reachable(g0.fields, M.RootsOf(g0), a) <==> Reachable(g.fields, M.RootsOf(g), a)
    ensures M.Named(g0, a) <==> M.Named(g, a)
  {
    assert M.RootsOf(g) == M.RootsOf(g0) && M.RootNames(g) == M.RootNames(g0);
  }

  /** What a finished marking allows to conclude once the unmarked objects are gone. */
  lemma MarkedIsCollected(p: C.Snap, d: C.Snap, o: S.Snap, o': S.Snap, full: bool, g': M.Globals)
    requires SameHeap(p.g, d.g) && M.AllReachableMarked(d.g) && (full ==> M.OnlyNamedMarked(d.g)) && Kept(d.g, g')
    requires Known(o, d.g) && Shrunk(o, o', d.g)
    ensures Kept(p.g, g')
    ensures forall x :: x in o.v.held && Reachable(p.g.fields, M.RootsOf(p.g), Address(o.s.blocks, x)) ==>
      x in o'.v.held
    ensures full ==> forall x :: x in o'.v.held ==> M.Named(p.g, Address(o.s.blocks, x))
  {
    forall a ensures Reachable(p.g.fields, M.RootsOf(p.g), a) <==> Reachable(d.g.fields, M.RootsOf(d.g), a) {
      SameHeapReachable(p.g, d.g, a);
    }
    forall x | full && x in o'.v.held ensures M.Named(p.g, Address(o.s.blocks, x)) {
      assert M.Named(d.g, Address(o.s.blocks, x));
      SameHeapReachable(p.g, d.g, Address(o.s.blocks, x));
    }
  }

  class World {
    const blocks: B.Client
    const objects: S.ObjectHeap
    const driver: C.Driver

    ghost function Now(): Snap
      reads blocks, blocks.h, objects, driver, driver.c
    {
      Snap(blocks.Now(), objects.Now(), driver.Now())
    }

    ghost predicate Valid()
      reads blocks, blocks.h, objects, driver, driver.c
    {
      && blocks.Valid() && objects.Valid() && driver.Valid()
      && Agree(driver.job.task, blocks.live, objects.Now(), driver.c.s)
    }

    constructor (black: BlackList.Lists, spacing: nat, kinds: seq<S.Kind>, incremental: bool, unlimited: bool,
        segs: seq<seq<Word>>)
      requires KindsOk(kinds) && |segs| <= M.INITIAL_MARK_STACK_SIZE / 2
      ensures Valid() && fresh(blocks) && fresh(blocks.h) && fresh(objects) && fresh(driver) && fresh(driver.c)
      ensures Initial(Now(), kinds, incremental, unlimited, segs)
    {
      blocks := new B.Client(black, spacing);
      objects := new S.ObjectHeap(kinds);
      driver := new C.Driver(incremental, unlimited, segs);
    }

    lemma IsInOrder()
      requires Valid()
      ensures InOrder(Now())
    {
      blocks.HeldInOrder();
    }

    // ---- The program ----

    /** Dropped blocks get their headers. */
    method EnterBlocks(bs: set<nat>)
      requires objects.Valid() && |objects.s.kinds| > S.PTRFREE && 0 !in bs && bs !! objects.s.blocks.Keys
      modifies objects
      ensures objects.Valid() && Entered(old(objects.Now()), objects.Now(), bs)
    {
      ghost var o := objects.Now();
      var rest := bs;
      EnteredNone(o);
      while rest != {}
        invariant objects.Valid() && rest <= bs && Entered(o, objects.Now(), bs - rest)
        decreases rest
      {
        var n :| n in rest;
        ghost var r := objects.Now();
        objects.Enter(n);
        EnteredOneMore(o, r, objects.Now(), bs - rest, n);
        assert bs - rest + {n} == bs - (rest - {n});
        rest := rest - {n};
      }
      assert bs - rest == bs;
    }

    /** A block for objects of class `c`, and what the search for it drops. */
    method FindBlock(r: B.Request, splitLimit: nat) returns (n: nat)
      requires blocks.Valid() && objects.Valid() && BlocksAgree(blocks.live, objects.s.blocks)
      requires |objects.s.kinds| > S.PTRFREE && r.sz > 0 && splitLimit <= FreeLists.N_HBLK_FLS
      modifies blocks, blocks.h, objects
      ensures blocks.Valid() && objects.Valid() && 0 !in blocks.live
      ensures B.AllocateDid(old(blocks.Now()), r, splitLimit, blocks.Now(), n)
      ensures Entered(old(objects.Now()), objects.Now(), B.DroppedBlocks(old(blocks.Now()), blocks.Now(), n))
      ensures n !in objects.s.blocks && BlocksAgree(blocks.live - {n}, objects.s.blocks)
    {
      ghost var b, o := blocks.Now(), objects.Now();
      var before := blocks.live;
      n := blocks.Allocate(r, splitLimit);
      blocks.NoBlockZero();
      EnterBlocks(blocks.live.Keys - before.Keys - {n});
      DroppedAgree(b, r, splitLimit, blocks.Now(), n, o, objects.Now());
    }

    /** The same, with what does not change by it. */
    method FindBlockFor(c: S.Class, r: B.Request, splitLimit: nat, ghost o: S.Snap) returns (n: nat)
      requires blocks.Valid() && objects.Valid() && BlocksAgree(blocks.live, objects.s.blocks)
      requires |objects.s.kinds| > S.PTRFREE && r.sz > 0 && splitLimit <= FreeLists.N_HBLK_FLS
      requires S.NeedsBlock(objects.Now(), c) && NoneStray(objects.Now()) && BitsKept(o, objects.Now())
      requires objects.v.held == o.v.held && o.s.blocks.Keys <= objects.s.blocks.Keys
      modifies blocks, blocks.h, objects
      ensures blocks.Valid() && objects.Valid() && 0 !in blocks.live
      ensures B.AllocateDid(old(blocks.Now()), r, splitLimit, blocks.Now(), n)
      ensures Entered(old(objects.Now()), objects.Now(), B.DroppedBlocks(old(blocks.Now()), blocks.Now(), n))
      ensures n !in objects.s.blocks && BlocksAgree(blocks.live - {n}, objects.s.blocks)
      ensures S.NeedsBlock(objects.Now(), c) && NoneStray(objects.Now()) && BitsKept(o, objects.Now())
    {
      ghost var b, p := blocks.Now(), objects.Now();
      n := FindBlock(r, splitLimit);
      EnteredKeeps(p, objects.Now(), B.DroppedBlocks(b, blocks.Now(), n));
      BitsKeptTwice(o, p, objects.Now());
    }

    /** An object from the heap or from a new block. */
    method FindObject(c: S.Class, ignoreOffPage: bool, splitLimit: nat) returns (x: S.Obj)
      requires blocks.Valid() && objects.Valid() && BlocksAgree(blocks.live, objects.s.blocks)
      requires NoneStray(objects.Now())
      requires c.kind < |objects.s.kinds| && c.gran > 0 && splitLimit <= FreeLists.N_HBLK_FLS
      modifies blocks, blocks.h, objects
      ensures blocks.Valid() && objects.Valid() && BlocksAgree(blocks.live, objects.s.blocks)
      ensures NoneStray(objects.Now()) && BitsKept(old(objects.Now()), objects.Now())
      ensures FindDid(old(blocks.Now()), old(objects.Now()), RequestFor(old(objects.s.kinds), c, ignoreOffPage), c,
        splitLimit, blocks.Now(), objects.Now(), x)
    {
      ghost var b, o := blocks.Now(), objects.Now();
      var r := RequestFor(objects.s.kinds, c, ignoreOffPage);
      x := objects.New(c, 0);
      FoundOld(b, o, r, c, splitLimit, objects.Now(), x);
      if x == S.NULL { x := FindInNew(c, r, splitLimit, b, o); }
    }

    /** An object from a new block, once none was found otherwise. */
    method FindInNew(c: S.Class, r: B.Request, splitLimit: nat, ghost b: B.View, ghost o: S.Snap) returns (x: S.Obj)
      requires blocks.Valid() && objects.Valid() && BlocksAgree(blocks.live, objects.s.blocks) && b == blocks.Now()
      requires S.NewDid(o, c, 0, objects.Now(), S.NULL) && c.kind < |o.s.kinds| && r.sz == c.gran * GRANULE_BYTES
      requires NoneStray(objects.Now()) && BitsKept(o, objects.Now()) && c.gran > 0
        && splitLimit <= FreeLists.N_HBLK_FLS
      modifies blocks, blocks.h, objects
      ensures blocks.Valid() && objects.Valid() && BlocksAgree(blocks.live, objects.s.blocks)
      ensures NoneStray(objects.Now()) && BitsKept(o, objects.Now())
      ensures FindDid(b, o, r, c, splitLimit, blocks.Now(), objects.Now(), x)
    {
      ghost var o1 := objects.Now();
      var n := FindBlockFor(c, r, splitLimit, o);
      x := MakeFound(c, n, r, splitLimit, b, o, o1, blocks.Now());
    }

    /** An object of the block just found, if there was one. */
    method MakeFound(c: S.Class, n: nat, r: B.Request, splitLimit: nat, ghost b: B.View, ghost o: S.Snap,
        ghost o1: S.Snap, ghost b': B.View) returns (x: S.Obj)
      requires objects.Valid() && n !in objects.s.blocks && c.kind < |o.s.kinds| && c.gran > 0 && 0 !in b'.live
      requires S.NewDid(o, c, 0, o1, S.NULL) && BlocksAgree(b.live, o1.s.blocks)
        && B.AllocateDid(b, r, splitLimit, b', n)
      requires Entered(o1, objects.Now(), B.DroppedBlocks(b, b', n)) && r.sz == c.gran * GRANULE_BYTES
      requires S.NeedsBlock(objects.Now(), c) && BlocksAgree(b'.live - {n}, objects.s.blocks)
      requires NoneStray(objects.Now()) && BitsKept(o, objects.Now())
      modifies objects
      ensures objects.Valid() && BlocksAgree(b'.live, objects.s.blocks) && NoneStray(objects.Now())
      ensures BitsKept(o, objects.Now()) && FindDid(b, o, r, c, splitLimit, b', objects.Now(), x)
    {
      ghost var o2 := objects.Now();
      if n == 0 {
        FoundNone(b, o, r, c, splitLimit, o1, b', o2);
        return S.NULL;
      }
      x := MakeIn(c, n, o);
      FoundNew(b, o, r, c, splitLimit, o1, b', n, o2, objects.Now(), x);
    }

    /** An object of the new block `n`. */
    method MakeIn(c: S.Class, n: nat, ghost o: S.Snap) returns (x: S.Obj)
      requires objects.Valid() && n != 0 && n !in objects.s.blocks && c.kind < |objects.s.kinds| && c.gran > 0
      requires NoneStray(objects.Now()) && BitsKept(o, objects.Now())
      requires objects.v.held == o.v.held && o.s.blocks.Keys <= objects.s.blocks.Keys
      modifies objects
      ensures objects.Valid() && S.NewDid(old(objects.Now()), c, n, objects.Now(), x)
      ensures NoneStray(objects.Now()) && BitsKept(o, objects.Now())
    {
      ghost var p := objects.Now();
      x := objects.New(c, n);
      NewNotStray(p, c, n, objects.Now(), x);
      NewBitsKept(p, c, n, objects.Now(), x);
      BitsKeptTwice(o, p, objects.Now());
    }

    /** The same, with what the marker, whose variables are `g`, needs to know about it. */
    method FindAgreed(c: S.Class, ignoreOffPage: bool, splitLimit: nat, ghost g: M.Globals) returns (x: S.Obj)
      requires blocks.Valid() && objects.Valid() && BlocksAgree(blocks.live, objects.s.blocks)
      requires NoneStray(objects.Now()) && ObjectsAgree(objects.Now(), g) && MarksAgree(objects.Now(), g)
      requires g.uncollectable <= g.fields.Keys && KindsOk(objects.s.kinds)
      requires c.kind < |objects.s.kinds| && c.gran > 0 && splitLimit <= FreeLists.N_HBLK_FLS
      modifies blocks, blocks.h, objects
      ensures blocks.Valid() && objects.Valid() && BlocksAgree(blocks.live, objects.s.blocks)
      ensures NoneStray(objects.Now())
      ensures FindDid(old(blocks.Now()), old(objects.Now()), RequestFor(old(objects.s.kinds), c, ignoreOffPage), c,
        splitLimit, blocks.Now(), objects.Now(), x)
      ensures Tellable(objects.Now(), g, x)
      ensures ObjectsAgree(objects.Now(), Told(g, objects.Now(), x))
        && MarksAgree(objects.Now(), Told(g, objects.Now(), x))
    {
      ghost var o := objects.Now();
      x := FindObject(c, ignoreOffPage, splitLimit);
      UntouchedPlaces(o.s, objects.s, o.v.held);
      if x == S.NULL {
        SameAgrees(o, objects.Now(), g);
        SameBitsAgree(o, objects.Now(), g);
      } else {
        blocks.HeldInOrder();
        FoundAgrees(blocks.live, o, objects.Now(), g, x);
      }
    }

    /** GC_generic_malloc, with GC_allocobj's new block, but without the collections it may start. */
    method Make(c: S.Class, ignoreOffPage: bool, splitLimit: nat) returns (x: S.Obj)
      requires Valid() && driver.job.task.Idle?
      requires c.kind < |objects.s.kinds| && c.gran > 0 && splitLimit <= FreeLists.N_HBLK_FLS
      modifies blocks, blocks.h, objects, driver, driver.c
      ensures Valid() && MakeDid(old(Now()), c, ignoreOffPage, splitLimit, Now(), x)
    {
      x := FindAgreed(c, ignoreOffPage, splitLimit, driver.c.s);
      TellMarker(x);
    }

    /** The marker gets to know an object, if there is one. */
    method TellMarker(x: S.Obj)
      requires driver.Valid() && Tellable(objects.Now(), driver.c.s, x)
      modifies driver, driver.c
      ensures driver.Valid() && driver.Now() == old(driver.Now()).(g := Told(old(driver.c.s), objects.Now(), x))
    {
      if x != S.NULL {
        ghost var d := driver.Now();
        var c := objects.s.blocks[x.blk].Cls();
        var a, len, kept := Address(objects.s.blocks, x), ScannedWords(objects.s.kinds, c),
            objects.s.kinds[c.kind].uncollectable;
        var bit := S.Marked(objects.s.blocks, x);
        var rep := driver.Mutate(C.Allocate(a, len, kept, bit));
        AllocateDid(d, a, len, kept, bit, driver.Now(), rep);
      }
    }

    /** GC_free, without the marker's part. */
    method FreeObject(x: S.Obj)
      requires blocks.Valid() && objects.Valid() && BlocksAgree(blocks.live, objects.s.blocks) && x in objects.v.held
      modifies blocks, blocks.h, objects
      ensures blocks.Valid() && objects.Valid() && BlocksAgree(blocks.live, objects.s.blocks)
      ensures S.FreeDid(old(objects.Now()), x, objects.Now())
      ensures ObjectFreed(old(blocks.Now()), old(objects.Now()), x, blocks.Now(), objects.Now())
    {
      assert S.IsObj(objects.s.blocks, x);
      ghost var before := objects.s.blocks;
      var large := objects.s.blocks[x.blk].Large();
      objects.Free(x);
      FreedBlocksAgree(blocks.live, before, objects.s.blocks, if large then {x.blk} else {});
      FreeBlocks(if large then {x.blk} else {});
    }

    /** The same, with what the marker needs to know about it. */
    method FreeHeld(x: S.Obj)
      requires blocks.Valid() && objects.Valid() && BlocksAgree(blocks.live, objects.s.blocks) && x in objects.v.held
      requires NoneStray(objects.Now())
      modifies blocks, blocks.h, objects
      ensures blocks.Valid() && objects.Valid() && BlocksAgree(blocks.live, objects.s.blocks)
      ensures ObjectFreed(old(blocks.Now()), old(objects.Now()), x, blocks.Now(), objects.Now())
      ensures LetGo(old(objects.Now()), objects.Now(), x) && NoneStray(objects.Now())
    {
      ghost var o, live := objects.Now(), blocks.live;
      blocks.HeldInOrder();
      FreeObject(x);
      FreedIsLetGo(live, o, objects.Now(), x);
      FreedNotStray(o, x, objects.Now());
    }

    /** GC_free. */
    method Drop(x: S.Obj)
      requires Valid() && x in objects.v.held && driver.job.task.Idle?
      modifies blocks, blocks.h, objects, driver, driver.c
      ensures Valid() && DropDid(old(Now()), x, Now())
    {
      ghost var o, g := objects.Now(), driver.c.s;
      ForgetObject(Address(objects.s.blocks, x));
      FreeHeld(x);
      DropAgrees(o, objects.Now(), g, x);
      DropMarksAgree(o, objects.Now(), g, x);
    }

    /** The marker forgets an object. */
    method ForgetObject(a: Obj)
      requires driver.Valid() && a in driver.c.s.fields
      modifies driver, driver.c
      ensures driver.Valid() && driver.Now() == old(driver.Now()).(g := old(driver.c.s).WithoutObject(a))
    {
      ghost var d := driver.Now();
      var rep := driver.Mutate(C.Release(a));
      ReleaseDid(d, a, driver.Now(), rep);
    }

    /** Blocks go back to the block allocator. */
    method FreeBlocks(gone: set<nat>)
      requires blocks.Valid() && gone <= blocks.live.Keys
      modifies blocks, blocks.h
      ensures blocks.Valid() && Returned(old(blocks.Now()), blocks.Now(), gone)
    {
      ghost var b := blocks.Now();
      var rest := gone;
      ReturnedNone(b);
      while rest != {}
        invariant blocks.Valid() && rest <= gone && Returned(b, blocks.Now(), gone - rest)
        decreases rest
      {
        var n :| n in rest;
        FreeOne(n, b, gone - rest);
        assert gone - rest + {n} == gone - (rest - {n});
        rest := rest - {n};
      }
      assert gone - rest == gone;
    }

    method FreeOne(n: nat, ghost b: B.View, ghost gone: set<nat>)
      requires blocks.Valid() && n in blocks.live && Returned(b, blocks.Now(), gone)
      modifies blocks, blocks.h
      ensures blocks.Valid() && Returned(b, blocks.Now(), gone + {n})
    {
      ghost var b1 := blocks.Now();
      blocks.Free(n);
      ReturnedOneMore(b, b1, blocks.Now(), gone, n);
    }

    /** GC_expand_hp_inner with the memory the system returned. */
    method Expand(start: nat, n: nat)
      requires Valid() && B.FreshRegion(blocks.sections, start, n)
      modifies blocks, blocks.h
      ensures Valid() && ExpandDid(old(Now()), start, n, Now())
    {
      blocks.Grow(start, n);
    }

    /** Both pictures of memory change. */
    method StoreBoth(x: S.Obj, i: nat, w: Word)
      requires objects.Valid() && driver.Valid() && ObjectsAgree(objects.Now(), driver.c.s) && x in objects.v.held
      requires var a := Address(objects.s.blocks, x); a in driver.c.s.fields && i < |driver.c.s.fields[a]|
      requires forall y :: y in objects.v.held - {x} ==>
          Address(objects.s.blocks, y) != Address(objects.s.blocks, x)
      modifies objects, driver, driver.c
      ensures objects.Valid() && driver.Valid() && driver.job == old(driver.job) && objects.v == old(objects.v)
      ensures var a := Address(old(objects.s.blocks), x);
              && objects.s == old(objects.s).(mem := old(objects.s.mem)[x := CellOf(old(objects.s.blocks),
                old(driver.c.s.fields)[a][i := w])])
              && C.Did(old(driver.Now()), C.Write(a, i, w, i), driver.Now(), C.Done)
      ensures SameMarks(old(driver.c.s), driver.c.s)
      ensures forall y :: y in objects.v.held ==> WordsAgree(objects.Now(), driver.c.s, y)
    {
      ghost var o, g := objects.Now(), driver.c.s;
      var a := Address(objects.s.blocks, x);
      TellChange(C.Write(a, i, w, i));
      objects.Assign(x, CellOf(objects.s.blocks, driver.c.s.fields[a]));
      StoreWords(o, objects.Now(), g, driver.c.s, x, g.fields[a][i := w]);
    }

    /** The program writes word `i` of an object it holds; the allocator would read the object's memory accordingly. */
    method Store(x: S.Obj, i: nat, w: Word)
      requires Valid() && HasWord(Now(), x, i)
      modifies objects, driver, driver.c
      ensures Valid() && StoreDid(old(Now()), x, i, w, Now())
    {
      ghost var o, g := objects.Now(), driver.c.s;
      HeldApart(x);
      StoreBoth(x, i, w);
      StoreAgrees(o, objects.Now(), g, driver.c.s);
    }

    /** No other held object has the address of `x`. */
    lemma HeldApart(x: S.Obj)
      requires Valid() && x in objects.v.held
      ensures forall y :: y in objects.v.held - {x} ==> Address(objects.s.blocks, y) != Address(objects.s.blocks, x)
    {
      blocks.HeldInOrder();
      assert forall y :: y in objects.v.held ==> S.IsObj(objects.s.blocks, y);
      OtherAddresses(blocks.live, objects.s, objects.v.held, x);
    }

    /** A write reaches the marker. */
    method TellChange(e: C.Event)
      requires driver.Valid() && (e.Write? || e.WriteRoot? || e.SetStack?)
      requires e.Write? ==> e.o in driver.c.s.fields && e.i < |driver.c.s.fields[e.o]| && e.k == e.i
      requires e.WriteRoot? ==> e.j < |driver.c.s.segs| && e.i < |driver.c.s.segs[e.j]|
      modifies driver, driver.c
      ensures driver.Valid() && driver.job == old(driver.job) && C.Did(old(driver.Now()), e, driver.Now(), C.Done)
      ensures SameMarks(old(driver.c.s), driver.c.s)
    {
      var rep := driver.Mutate(e);
    }

    method StoreRoot(j: nat, i: nat, w: Word)
      requires Valid() && j < |driver.c.s.segs| && i < |driver.c.s.segs[j]|
      modifies driver, driver.c
      ensures Valid() && Now() == old(Now()).(d := Now().d)
        && C.Did(old(Now()).d, C.WriteRoot(j, i, w), Now().d, C.Done)
    {
      ghost var g := driver.c.s;
      TellChange(C.WriteRoot(j, i, w));
      SameFieldsAgree(objects.Now(), g, driver.c.s);
      StoreAgrees(objects.Now(), objects.Now(), g, driver.c.s);
    }

    method SetStack(ws: seq<Word>)
      requires Valid()
      modifies driver, driver.c
      ensures Valid() && Now() == old(Now()).(d := Now().d) && C.Did(old(Now()).d, C.SetStack(ws), Now().d, C.Done)
    {
      ghost var g := driver.c.s;
      TellChange(C.SetStack(ws));
      SameFieldsAgree(objects.Now(), g, driver.c.s);
      StoreAgrees(objects.Now(), objects.Now(), g, driver.c.s);
    }

    /** Whether the program holds `x`, as far as the collector's tables tell. */
    method Holds(x: S.Obj) returns (yes: bool)
      requires Valid()
      ensures yes <==> x in objects.v.held
    {
      yes := S.IsObj(objects.s.blocks, x) && Address(objects.s.blocks, x) in driver.c.s.fields;
      blocks.HeldInOrder();
      HeldByAddress(blocks.live, objects.Now(), driver.c.s, x);
    }

    method HasWordNow(x: S.Obj, i: nat) returns (yes: bool)
      requires Valid()
      ensures yes <==> HasWord(Now(), x, i)
    {
      yes := Holds(x);
      if yes {
        assert Address(objects.s.blocks, x) in driver.c.s.fields;
        yes := i < |driver.c.s.fields[Address(objects.s.blocks, x)]|;
      }
    }

    // ---- The collector ----

    /** The blocks' mark bits follow the marker, whose variables were `g0`. */
    method SetBits(ghost g0: M.Globals)
      requires blocks.Valid() && objects.Valid() && BlocksAgree(blocks.live, objects.s.blocks)
      requires ObjectsAgree(objects.Now(), g0) && MarksAgree(objects.Now(), g0) && NoneStray(objects.Now())
      requires MarksGrew(g0, driver.c.s)
      modifies objects
      ensures objects.Valid() && OnlyBits(old(objects.Now()), objects.Now())
      ensures ObjectsAgree(objects.Now(), driver.c.s) && MarksAgree(objects.Now(), driver.c.s)
        && NoneStray(objects.Now())
    {
      ghost var o := objects.Now();
      SameFieldsAgree(o, g0, driver.c.s);
      var marked := MarkedObjects(objects, driver.c.s);
      MarkList(objects, marked);
      GrownAgree(o, objects.Now(), g0, driver.c.s, marked);
    }

    /** The object heap's part of GC_finish_collection, if the mark bits are up to date. */
    method FinishObjects()
      requires objects.Valid() && MarksAgree(objects.Now(), driver.c.s) && NoneStray(objects.Now())
      modifies objects
      ensures objects.Valid() && Shrunk(old(objects.Now()), objects.Now(), driver.c.s)
      ensures objects.s.blocks.Keys <= old(objects.s.blocks).Keys
        && S.SameClasses(old(objects.s.blocks), objects.s.blocks)
    {
      ghost var o := objects.Now();
      objects.Finish();
      FinishShrinks(o, objects.Now(), driver.c.s);
    }

    /** The same after a collection that could not be stopped, which sets all mark bits first. */
    method CollectObjects(marked: seq<S.Obj>)
      requires objects.Valid() && ObjectsAgree(objects.Now(), driver.c.s) && NoneStray(objects.Now())
      requires HeldMarked(objects.Now(), driver.c.s, marked) && driver.c.s.uncollectable <= driver.c.s.marks
      modifies objects
      ensures objects.Valid() && Shrunk(old(objects.Now()), objects.Now(), driver.c.s)
      ensures objects.s.blocks.Keys <= old(objects.s.blocks).Keys
        && S.SameClasses(old(objects.s.blocks), objects.s.blocks)
    {
      ghost var o := objects.Now();
      var ok := objects.Collect(false, n => false, marked, false);
      CollectShrinks(o, objects.Now(), driver.c.s, marked);
    }

    /** Either, by whether mark bits are up to date. */
    method FinishHeap(late: bool)
      requires blocks.Valid() && objects.Valid() && BlocksAgree(blocks.live, objects.s.blocks)
      requires ObjectsAgree(objects.Now(), driver.c.s) && NoneStray(objects.Now())
      requires (!late ==> MarksAgree(objects.Now(), driver.c.s)) && driver.c.s.uncollectable <= driver.c.s.marks
      modifies objects
      ensures objects.Valid() && Shrunk(old(objects.Now()), objects.Now(), driver.c.s)
      ensures objects.s.blocks.Keys <= old(objects.s.blocks).Keys
        && S.SameClasses(old(objects.s.blocks), objects.s.blocks)
    {
      if late {
        var marked := MarkedObjects(objects, driver.c.s);
        CollectObjects(marked);
      } else {
        FinishObjects();
      }
    }

    /** The blocks that the object heap no longer has go back. */
    method ReturnBlocks(before: map<nat, S.Block>)
      requires blocks.Valid() && BlocksAgree(blocks.live, before)
      requires objects.s.blocks.Keys <= before.Keys && S.SameClasses(before, objects.s.blocks)
      modifies blocks, blocks.h
      ensures blocks.Valid() && BlocksAgree(blocks.live, objects.s.blocks)
      ensures Returned(old(blocks.Now()), blocks.Now(), before.Keys - objects.s.blocks.Keys)
    {
      var gone := before.Keys - objects.s.blocks.Keys;
      FreedBlocksAgree(blocks.live, before, objects.s.blocks, gone);
      FreeBlocks(gone);
    }

    /** The marker gives up what it has not marked. */
    method ForgetUnmarked()
      requires driver.Valid() && M.AllReachableMarked(driver.c.s)
      modifies driver.c
      ensures driver.Valid() && driver.Now() == old(driver.Now()).(g := driver.c.s)
      ensures Cleaned(old(driver.c.s), driver.c.s) && Kept(old(driver.c.s), driver.c.s)
    {
      ForgetDead(driver.c);
    }

    /**
      GC_finish_collection: what is not marked goes, with the blocks in which nothing is; `late` if
      mark bits are out of date.
     */
    method Finish(late: bool, ghost p: Snap, ghost d: C.Snap, full: bool)
      requires blocks.Valid() && objects.Valid() && driver.Valid() && Now().d == d && Now().b == p.b
      requires BlocksAgree(blocks.live, objects.s.blocks) && OnlyBits(p.o, objects.Now()) && S.Inv(p.o.s, p.o.v)
      requires ObjectsAgree(p.o, d.g) && NoneStray(objects.Now()) && (!late ==> MarksAgree(objects.Now(), d.g))
      requires SameHeap(p.d.g, d.g) && M.AllReachableMarked(d.g) && (full ==> M.OnlyNamedMarked(d.g))
      modifies blocks, blocks.h, objects, driver.c
      ensures blocks.Valid() && objects.Valid() && driver.Valid() && BlocksAgree(blocks.live, objects.s.blocks)
      ensures ObjectsAgree(objects.Now(), driver.c.s) && MarksAgree(objects.Now(), driver.c.s)
        && NoneStray(objects.Now())
      ensures objects.s.kinds == p.o.s.kinds && CollectDid(p, d, full, Now())
    {
      ghost var r := objects.Now();
      var before := objects.s.blocks;
      OnlyBitsKeeps(p.o, r, d.g);
      FinishHeap(late);
      ghost var o := objects.Now();
      ShrunkAfterBits(p.o, r, o, d.g);
      assert blocks.Now() == p.b;
      ReturnBlocks(before);
      ghost var b := blocks.Now();
      assert objects.Now() == o && driver.Now() == d;
      ForgetUnmarked();
      ghost var q := Now();
      assert q.b == b && q.o == o;
      ShrunkAgree(p.o, o, d.g, q.d.g);
      CollectedIs(p, d, full, q);
    }

    /** GC_stopped_mark and, if it finishes, GC_finish_collection. */
    method StepStopped(timeout: M.Stop, grows: nat -> bool) returns (rep: C.Report, ghost d: C.Snap)
      requires Valid() && (driver.job.task.Ending? || driver.job.task.Maybe? || driver.job.task.Marking?)
      modifies blocks, blocks.h, objects, driver, driver.c
      ensures Valid() && C.MarkDid(old(Now()).d, timeout, d, rep) && SteppedTo(old(Now()), d, rep, Now())
    {
      ghost var p := Now();
      var late := Late(driver.job.task);
      rep := driver.MarkStopped(timeout, grows);
      d := driver.Now();
      StoppedGrew(p.d, timeout, d, rep);
      SameFieldsAgree(p.o, p.d.g, d.g);
      assert objects.Now() == p.o && blocks.Now() == p.b;
      if !late { SetBits(p.d.g); }
      OnlyBitsKeeps(p.o, objects.Now(), d.g);
      assert driver.Now() == d && blocks.Now() == p.b;
      SameBlocksAgree(blocks.live, p.o.s.blocks, objects.s.blocks);
      if rep.result == M.Finished { Finish(late, p, d, rep.full); }
    }

    /** GC_reclaim_all, if the collection may be stopped, and GC_clear_marks. */
    method StepPrepare(stop: nat -> bool) returns (ghost reclaimed: bool)
      requires Valid() && driver.job.task.Preparing?
      modifies objects, driver, driver.c
      ensures Valid() && NothingLost(old(Now()), Now()) && ((forall n :: !stop(n)) ==> reclaimed)
      ensures Now().d == C.Prepare(old(Now()).d, old(driver.job).task.f, reclaimed)
    {
      ghost var p := Now();
      if driver.job.task.f.NeverStops? {
        S.UntouchedSame(objects.s, objects.v);
        driver.StepPrepare(true);
        SameFieldsAgree(p.o, p.d.g, driver.c.s);
        assert objects.Now() == p.o && blocks.Now() == p.b;
        reclaimed := true;
      } else {
        reclaimed := PrepareToStop(stop);
      }
    }

    /** GC_reclaim_all. */
    method SweepFirst(ignoreOld: bool, stop: nat -> bool) returns (ok: bool)
      requires objects.Valid() && ObjectsAgree(objects.Now(), driver.c.s) && NoneStray(objects.Now())
      requires MarksAgree(objects.Now(), driver.c.s)
      modifies objects
      ensures objects.Valid() && ObjectsAgree(objects.Now(), driver.c.s) && NoneStray(objects.Now())
      ensures MarksAgree(objects.Now(), driver.c.s) && ((forall n :: !stop(n)) ==> ok)
        && (ok ==> S.NothingWaits(objects.s))
      ensures OnlySweeping(old(objects.Now()), objects.Now())
    {
      ghost var o := objects.Now();
      ok := objects.SweepAll(ignoreOld, stop);
      SweptAgree(o, ignoreOld, objects.Now(), driver.c.s);
    }

    method PrepareToStop(stop: nat -> bool) returns (ghost reclaimed: bool)
      requires Valid() && driver.job.task.Preparing? && !driver.job.task.f.NeverStops?
      modifies objects, driver, driver.c
      ensures Valid() && NothingLost(old(Now()), Now()) && ((forall n :: !stop(n)) ==> reclaimed)
      ensures Now().d == C.Prepare(old(Now()).d, old(driver.job).task.f, reclaimed)
    {
      ghost var p := Now();
      var ok := SweepFirst(false, stop);
      ghost var o := objects.Now();
      assert driver.Now() == p.d;
      driver.StepPrepare(ok);
      ghost var d := driver.Now();
      assert objects.Now() == o && blocks.Now() == p.b;
      if ok { ClearBits(p.d.g, p.o); }
      assert driver.Now() == d && blocks.Now() == p.b;
      SameBlocksAgree(blocks.live, p.o.s.blocks, objects.s.blocks);
      reclaimed := ok;
    }

    /** GC_clear_marks for the blocks. */
    method ClearBits(ghost g: M.Globals, ghost o: S.Snap)
      requires objects.Valid() && S.NothingWaits(objects.s) && ObjectsAgree(objects.Now(), g)
        && NoneStray(objects.Now())
      requires OnlySweeping(o, objects.Now())
      modifies objects
      ensures objects.Valid() && OnlySweeping(o, objects.Now())
      ensures ObjectsAgree(objects.Now(), M.FromScratch(g)) && MarksAgree(objects.Now(), M.FromScratch(g))
      ensures NoneStray(objects.Now())
    {
      ghost var p := objects.Now();
      objects.Clear();
      ClearedAgree(p, objects.Now(), g);
      OnlyBitsKeeps(p, objects.Now(), g);
      S.UntouchedTwice(o.s, p.s, objects.s, o.v.held, o.v.held);
    }

    /** The start of an incremental full collection: GC_reclaim_all and GC_clear_marks. */
    method StartFull(n: nat)
      requires Valid() && driver.job.task.Idle? && driver.c.s.incremental && driver.c.s.phase == M.None
      modifies objects, driver, driver.c
      ensures Valid() && NothingLost(old(Now()), Now()) && Now().d == C.StartLittle(old(Now()).d, n, true, true)
    {
      ghost var p := Now();
      var ok := SweepFirst(true, n => false);
      ghost var o := objects.Now();
      assert driver.Now() == p.d;
      driver.CollectALittle(n, true, true);
      ghost var d := driver.Now();
      assert objects.Now() == o && blocks.Now() == p.b;
      ClearBits(p.d.g, p.o);
      assert driver.Now() == d && blocks.Now() == p.b;
      SameBlocksAgree(blocks.live, p.o.s.blocks, objects.s.blocks);
    }

    /** GC_collect_a_little_inner and GC_maybe_gc, up to their first point at which others may run. */
    method CollectALittle(n: nat, should: bool, full: bool)
      requires Valid() && driver.job.task.Idle?
      modifies objects, driver, driver.c
      ensures Valid() && NothingLost(old(Now()), Now()) && Now().d == C.StartLittle(old(Now()).d, n, should, full)
    {
      if driver.c.s.incremental && driver.c.s.phase == M.None && should && full {
        StartFull(n);
      } else {
        ghost var p := Now();
        S.UntouchedSame(objects.s, objects.v);
        driver.CollectALittle(n, should, full);
        assert objects.Now() == p.o && blocks.Now() == p.b;
      }
    }

    /** The marker's part of a round of GC_collect_a_little_inner's loop. */
    method AdvanceMarker(grow: bool)
      requires driver.Valid() && driver.job.task.Little?
      modifies driver, driver.c
      ensures driver.Valid() && C.LittleDid(old(driver.Now()), driver.Now())
      ensures MarksGrew(old(driver.c.s), driver.c.s) && !Late(driver.job.task)
    {
      ghost var d := driver.Now();
      driver.StepLittle(grow);
      LittleGrew(d, driver.Now());
    }

    /** A round of GC_collect_a_little_inner's loop. */
    method StepLittle(grow: bool)
      requires Valid() && driver.job.task.Little?
      modifies objects, driver, driver.c
      ensures Valid() && NothingLost(old(Now()), Now()) && C.LittleDid(old(Now()).d, Now().d)
    {
      ghost var p := Now();
      AdvanceMarker(grow);
      ghost var d := driver.Now();
      assert objects.Now() == p.o && blocks.Now() == p.b;
      SetBits(p.d.g);
      assert driver.Now() == d && blocks.Now() == p.b;
      OnlyBitsKeeps(p.o, objects.Now(), d.g);
      SameBlocksAgree(blocks.live, p.o.s.blocks, objects.s.blocks);
    }

    /** A step of whoever holds the allocation lock. */
    method Proceed(timeout: M.Stop, grows: nat -> bool, stop: nat -> bool) returns (rep: C.Report)
      requires Valid() && !driver.job.task.Idle?
      modifies blocks, blocks.h, objects, driver, driver.c
      ensures Valid() && ProceedDid(old(Now()), timeout, stop, Now(), rep)
    {
      ghost var p := Now();
      ghost var d, reclaimed := p.d, true;
      rep := C.Done;
      if driver.job.task.Little? {
        StepLittle(grows(0));
        d := Now().d;
      } else if driver.job.task.Waiting? {
        S.UntouchedSame(objects.s, objects.v);
        driver.StepWait();
        d := Now().d;
      } else if driver.job.task.Preparing? {
        reclaimed := StepPrepare(stop);
        d := Now().d;
      } else {
        rep, d := StepStopped(timeout, grows);
      }
      assert C.Proceeded(p.d, timeout, reclaimed, d, rep) && SteppedTo(p, d, rep, Now());
    }

    // ---- Any step ----

    /** The program writes to an object, if it may. */
    method StepStore(x: S.Obj, i: nat, w: Word) returns (out: Outcome)
      requires Valid()
      modifies objects, driver, driver.c
      ensures Valid() && ActDid(old(Now()), Act.Store(x, i, w), Now(), out)
    {
      var may := HasWordNow(x, i);
      if may {
        Store(x, i, w);
        out := Done;
      } else {
        out := Skipped;
      }
    }

    /** The program writes to a root. */
    method StepRoot(act: Act) returns (out: Outcome)
      requires Valid() && (act.StoreRoot? || act.SetStack?)
      modifies driver, driver.c
      ensures Valid() && ActDid(old(Now()), act, Now(), out)
    {
      out := Done;
      match act {
        case StoreRoot(j, i, w) =>
          if j < |driver.c.s.segs| && i < |driver.c.s.segs[j]| { StoreRoot(j, i, w); } else { out := Skipped; }
        case SetStack(ws) => SetStack(ws);
      }
    }

    /** The program asks for an object. */
    method StepMake(c: S.Class, ignoreOffPage: bool, splitLimit: nat) returns (out: Outcome)
      requires Valid()
      modifies blocks, blocks.h, objects, driver, driver.c
      ensures Valid() && ActDid(old(Now()), Act.Make(c, ignoreOffPage, splitLimit), Now(), out)
    {
      if !driver.job.task.Idle? || c.kind >= |objects.s.kinds| || c.gran == 0 || splitLimit > FreeLists.N_HBLK_FLS {
        return Skipped;
      }
      var x := Make(c, ignoreOffPage, splitLimit);
      out := Made(x);
    }

    /** Memory is obtained, or an object given back. */
    method StepMemory(act: Act) returns (out: Outcome)
      requires Valid() && (act.Expand? || act.Drop?)
      modifies blocks, blocks.h, objects, driver, driver.c
      ensures Valid() && ActDid(old(Now()), act, Now(), out)
    {
      out := Done;
      match act {
        case Expand(start, n) =>
          if driver.job.task.Idle? && B.FreshRegion(blocks.sections, start, n) {
            Expand(start, n);
          } else {
            out := Skipped;
          }
        case Drop(x) =>
          var held := Holds(x);
          if driver.job.task.Idle? && held { Drop(x); } else { out := Skipped; }
      }
    }

    /** A collection is started or goes on. */
    method StepCollector(act: Act) returns (out: Outcome)
      requires Valid() && (act.CollectALittle? || act.TryToCollect? || act.Proceed?)
      modifies blocks, blocks.h, objects, driver, driver.c
      ensures Valid() && ActDid(old(Now()), act, Now(), out)
    {
      out := Done;
      match act {
        case CollectALittle(n, should, full) =>
          if driver.job.task.Idle? { CollectALittle(n, should, full); } else { out := Skipped; }
        case TryToCollect(f) =>
          if driver.job.task.Idle? {
            S.UntouchedSame(objects.s, objects.v);
            driver.TryToCollect(f);
          } else {
            out := Skipped;
          }
        case Proceed(timeout, grows, stop) =>
          if driver.job.task.Idle? {
            out := Skipped;
          } else {
            var rep := Proceed(timeout, grows, stop);
            out := Stepped(rep);
          }
      }
    }

    method Step(act: Act) returns (out: Outcome)
      requires Valid()
      modifies blocks, blocks.h, objects, driver, driver.c
      ensures Valid() && ActDid(old(Now()), act, Now(), out)
    {
      match act {
        case Store(x, i, w) => out := StepStore(x, i, w);
        case StoreRoot(_, _, _) => out := StepRoot(act);
        case SetStack(_) => out := StepRoot(act);
        case Make(c, ignoreOffPage, splitLimit) => out := StepMake(c, ignoreOffPage, splitLimit);
        case Expand(_, _) => out := StepMemory(act);
        case Drop(_) => out := StepMemory(act);
        case _ => out := StepCollector(act);
      }
    }

    /** A run goes on. */
    method Continue(act: Act, ghost trace: seq<Snap>, ghost acts: seq<Act>, ghost results: seq<Outcome>)
        returns (out: Outcome)
      requires Valid() && Follows(trace, acts, results, ActDid, InOrder) && trace[|results|] == Now()
      modifies blocks, blocks.h, objects, driver, driver.c
      ensures Valid() && Follows(trace + [Now()], acts + [act], results + [out], ActDid, InOrder)
    {
      out := Step(act);
      IsInOrder();
      OneMore(trace, acts, results, ActDid, InOrder, act, Now(), out);
    }
  }

  // ---- Whole runs ----

  /** Steps of the program, and of the collector in the control flow of whoever holds the allocation lock. */
  datatype Act =
    | Expand(start: nat, n: nat)
    | Make(c: S.Class, ignoreOffPage: bool, splitLimit: nat)
    | Drop(x: S.Obj)
    | Store(x: S.Obj, i: nat, w: Word)
    | StoreRoot(j: nat, i: nat, w: Word)
    | SetStack(ws: seq<Word>)
    | CollectALittle(n: nat, should: bool, full: bool)
    | TryToCollect(f: C.StopFunc)
    | Proceed(timeout: M.Stop, grows: nat -> bool, stop: nat -> bool)

  /** What a step led to: nothing because it cannot be taken, or its result. */
  datatype Outcome = Skipped | Done | Made(x: S.Obj) | Stepped(rep: C.Report)

  /**
    The program may free and write only what it holds, and gets memory only once; it needs the
    allocation lock for all but writes.
   */
  ghost predicate Allowed(p: Snap, act: Act) {
    match act
    case Expand(start, n) => p.d.job.task.Idle? && B.FreshRegion(p.b.sections, start, n)
    case Make(c, _, splitLimit) =>
      p.d.job.task.Idle? && c.kind < |p.o.s.kinds| && c.gran > 0 && splitLimit <= FreeLists.N_HBLK_FLS
    case Drop(x) => p.d.job.task.Idle? && x in p.o.v.held
    case Store(x, i, _) => HasWord(p, x, i)
    case StoreRoot(j, i, _) => j < |p.d.g.segs| && i < |p.d.g.segs[j]|
    case SetStack(_) => true
    case CollectALittle(_, _, _) => p.d.job.task.Idle?
    case TryToCollect(_) => p.d.job.task.Idle?
    case Proceed(_, _, _) => !p.d.job.task.Idle?
  }

  /** What each step does. */
  ghost predicate ActDid(p: Snap, act: Act, q: Snap, out: Outcome) {
    if !Allowed(p, act) then out == Skipped && q == p
    else
      match act
      case Expand(start, n) => out == Done && ExpandDid(p, start, n, q)
      case Make(c, ignoreOffPage, splitLimit) => out.Made? && MakeDid(p, c, ignoreOffPage, splitLimit, q, out.x)
      case Drop(x) => out == Done && DropDid(p, x, q)
      case Store(x, i, w) => out == Done && StoreDid(p, x, i, w, q)
      case StoreRoot(j, i, w) =>
        out == Done && q == p.(d := q.d) && C.Did(p.d, C.WriteRoot(j, i, w), q.d, C.Done)
      case SetStack(ws) => out == Done && q == p.(d := q.d) && C.Did(p.d, C.SetStack(ws), q.d, C.Done)
      case CollectALittle(n, should, full) =>
        out == Done && q.d == C.StartLittle(p.d, n, should, full) && NothingLost(p, q)
      case TryToCollect(f) => out == Done && q.d == C.StartCollect(p.d, f) && NothingLost(p, q)
      case Proceed(timeout, _, stop) => out.Stepped? && ProceedDid(p, timeout, stop, q, out.rep)
  }

  /** Nothing is held, and there is no memory. */
  ghost predicate Initial(p: Snap, kinds: seq<S.Kind>, incremental: bool, unlimited: bool, segs: seq<seq<Word>>) {
    && p.b.live == map[] && p.b.sections == [] && p.o.v.held == {} && p.o.s.kinds == kinds
    && C.Initial(p.d, incremental, unlimited, segs)
  }

  /**
    Any run of heap growth, allocation, explicit deallocation, writes and collector steps: the states
    follow each other as the steps describe, and in each of them the three views of the heap are in
    order and agree.
   */
  method Run(black: BlackList.Lists, spacing: nat, kinds: seq<S.Kind>, incremental: bool, unlimited: bool,
      segs: seq<seq<Word>>, acts: seq<Act>)
    returns (results: seq<Outcome>)
    requires KindsOk(kinds) && |segs| <= M.INITIAL_MARK_STACK_SIZE / 2
    ensures exists trace ::
      Follows(trace, acts, results, ActDid, InOrder) && Initial(trace[0], kinds, incremental, unlimited, segs)
  {
    var w := new World(black, spacing, kinds, incremental, unlimited, segs);
    w.IsInOrder();
    results := [];
    ghost var first := w.Now();
    ghost var trace := [first];
    NoEvents(w.Now(), ActDid, InOrder);
    for n := 0 to |acts|
      invariant w.Valid() && fresh(w.blocks) && fresh(w.blocks.h) && fresh(w.objects) && fresh(w.driver)
      invariant fresh(w.driver.c)
      invariant Follows(trace, acts[..n], results, ActDid, InOrder) && trace[n] == w.Now() && trace[0] == first
    {
      var out := w.Continue(acts[n], trace, acts[..n], results);
      Prefix(acts, n);
      results, trace := results + [out], trace + [w.Now()];
    }
    assert acts[..|acts|] == acts;
  }

  lemma ToldKeepsReachable(g: M.Globals, o: S.Snap, x: S.Obj, a: Obj)
    requires x != S.NULL ==> Address(o.s.blocks, x) !in g.fields
    requires Reachable(g.fields, M.RootsOf(g), a)
    ensures Reachable(Told(g, o, x).fields, M.RootsOf(Told(g, o, x)), a)
  {
    if S.IsObj(o.s.blocks, x) && x != S.NULL && o.s.blocks[x.blk].kind < |o.s.kinds| {
      var c := o.s.blocks[x.blk].Cls();
      NewKeepsReachable(g, Address(o.s.blocks, x), ScannedWords(o.s.kinds, c), o.s.kinds[c.kind].uncollectable,
        S.Marked(o.s.blocks, x), a);
    }
  }

  lemma ProceedKeepsReachable(p: Snap, timeout: M.Stop, stop: nat -> bool, q: Snap, rep: C.Report, a: Obj)
    requires ProceedDid(p, timeout, stop, q, rep) && Reachable(p.d.g.fields, M.RootsOf(p.d.g), a)
    ensures Reachable(q.d.g.fields, M.RootsOf(q.d.g), a)
  {
    var d, reclaimed :| C.Proceeded(p.d, timeout, reclaimed, d, rep) && SteppedTo(p, d, rep, q);
    ProceededSameHeap(p.d, timeout, reclaimed, d, rep);
    if Finishes(rep) {
      StillReachable(p.d.g, q.d.g, a);
    } else {
      SameHeapReachable(p.d.g, q.d.g, a);
    }
  }

  /**
    What is reachable stays so while the program neither writes nor frees, whatever is allocated and
    however collections start, go on and end.
   */
  lemma ReachableStays(p: Snap, act: Act, q: Snap, out: Outcome, a: Obj)
    requires ActDid(p, act, q, out) && Reachable(p.d.g.fields, M.RootsOf(p.d.g), a)
    requires !act.Drop? && !act.Store? && !act.StoreRoot? && !act.SetStack?
    ensures Reachable(q.d.g.fields, M.RootsOf(q.d.g), a)
  {
    if !Allowed(p, act) { return; }
    match act {
      case Make(c, _, _) =>
        ToldKeepsReachable(p.d.g, q.o, out.x, a);
      case Proceed(timeout, _, stop) => ProceedKeepsReachable(p, timeout, stop, q, out.rep, a);
      case _ => SameHeapReachable(p.d.g, q.d.g, a);
    }
  }
}
