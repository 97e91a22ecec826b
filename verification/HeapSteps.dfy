/**
  The block allocator, the object heap and the marker seen together: what each operation must keep
  for the three to agree about which blocks are in use, which objects exist, and which are marked.
 */
module HeapSteps {
  import opened ObjectGraph
  import FreeLists
  import BlockIndex
  import BlockSteps
  import opened BlockBytes
  import B = BlockAlloc
  import S = Sweep
  import M = Marker
  import C = Collections

  const GRANULE_WORDS := 2
  const GRANULE_BYTES := 16

  /** The word address of an object. */
  function Address(blocks: map<nat, S.Block>, x: S.Obj): nat {
    if x.blk in blocks then x.blk * M.HBLK_WORDS + x.idx * blocks[x.blk].gran * GRANULE_WORDS else 0
  }

  function Words(blocks: map<nat, S.Block>, x: S.Obj): nat {
    if x.blk in blocks then blocks[x.blk].gran * GRANULE_WORDS else 0
  }

  /** The words of an object of class `c` that are scanned for pointers. */
  function ScannedWords(kinds: seq<S.Kind>, c: S.Class): nat
    requires c.kind < |kinds|
  {
    if kinds[c.kind].hasPointers then c.gran * GRANULE_WORDS else 0
  }

  /** The state of the block allocator, of the object heap, and of the collector. */
  datatype Snap = Snap(b: B.View, o: S.Snap, d: C.Snap)

  /** The block allocator's client is the object heap, which knows every block in use: no block leaks. */
  ghost predicate BlocksAgree(live: map<nat, nat>, blocks: map<nat, S.Block>) {
    && (forall b :: b in live <==> b in blocks)
    && (forall b :: b in live && b in blocks ==> live[b] == blocks[b].gran * GRANULE_BYTES)
  }

  /** The marker knows held objects and which of them are uncollectable. */
  ghost predicate Known(o: S.Snap, g: M.Globals) {
    && (forall x :: x in o.v.held ==> Address(o.s.blocks, x) in g.fields)
    && (forall x :: x in o.v.held ==> (Address(o.s.blocks, x) in g.uncollectable <==> S.Uncollectable(o.s, x)))
  }

  /** The object of which `v` is the address, if there is one. */
  function LinkOf(blocks: map<nat, S.Block>, v: nat): S.Obj {
    var b, offset := v / M.HBLK_WORDS, v % M.HBLK_WORDS;
    if b in blocks && blocks[b].gran > 0 && offset % (blocks[b].gran * GRANULE_WORDS) == 0
      && offset / (blocks[b].gran * GRANULE_WORDS) < |blocks[b].marks|
    then S.Obj(b, offset / (blocks[b].gran * GRANULE_WORDS))
    else S.NULL
  }

  /** All words after the first one are zero. */
  predicate ZeroRest(ws: seq<Word>) {
    forall i :: 1 <= i < |ws| ==> ws[i].Value() == 0
  }

  /** An object's words as the allocator reads them: the first one as a link, and whether the rest is zero. */
  function CellOf(blocks: map<nat, S.Block>, ws: seq<Word>): S.Cell
    requires ws != []
  {
    S.Cell(LinkOf(blocks, ws[0].Value()), ZeroRest(ws))
  }

  /** The two pictures of an object's memory agree about what is zero. */
  ghost predicate WordsAgree(o: S.Snap, g: M.Globals, x: S.Obj) {
    var a := Address(o.s.blocks, x);
    a in g.fields && g.fields[a] != [] ==> x in o.s.mem && (o.s.mem[x].zero <==> ZeroRest(g.fields[a]))
  }

  /** The marker's objects are the held ones, and their memory is the same. */
  ghost predicate ObjectsAgree(o: S.Snap, g: M.Globals) {
    && Known(o, g) && (forall x :: x in o.v.held ==> WordsAgree(o, g, x))
    && (forall a :: a in g.fields ==> exists x :: x in o.v.held && Address(o.s.blocks, x) == a)
  }

  /**
    The blocks' mark bits of held objects are the marker's marks; if it has marked nothing, no
    collectable object has one.
   */
  ghost predicate MarksAgree(o: S.Snap, g: M.Globals) {
    && (forall x :: x in o.v.held ==> (S.Marked(o.s.blocks, x) <==> Address(o.s.blocks, x) in g.marks))
    && (!g.objectsAreMarked ==> forall x :: S.Marked(o.s.blocks, x) ==> S.Uncollectable(o.s, x))
  }

  /** No object is lost: one that is marked, so not found by sweeping, is held or free. */
  ghost predicate NoneStray(o: S.Snap) {
    forall x :: S.Marked(o.s.blocks, x) ==> x in o.v.held || S.OnList(o.s, o.v, x)
  }

  /** The kind of pointer-free objects comes first; objects that may contain pointers are cleared when allocated. */
  predicate KindsOk(kinds: seq<S.Kind>) {
    && |kinds| > S.PTRFREE && kinds[S.PTRFREE] == S.Kind(false, false, false)
    && (forall k :: 0 <= k < |kinds| && kinds[k].hasPointers ==> kinds[k].init)
  }

  /** A collection that cannot be stopped is about to mark: the blocks' mark bits are out of date until it is over. */
  predicate Late(task: C.Task) {
    task.Marking? && task.f.NeverStops?
  }

  ghost predicate Agree(task: C.Task, live: map<nat, nat>, o: S.Snap, g: M.Globals) {
    && KindsOk(o.s.kinds) && BlocksAgree(live, o.s.blocks) && ObjectsAgree(o, g) && NoneStray(o)
    && (!Late(task) ==> MarksAgree(o, g))
  }

  ghost predicate InOrder(p: Snap) {
    B.InOrder(p.b) && S.Inv(p.o.s, p.o.v) && C.InOrder(p.d) && Agree(p.d.job.task, p.b.live, p.o, p.d.g)
  }

  // ---- Where objects are ----

  /** The objects of a block fit in it. */
  lemma FitsIn(gran: nat, idx: nat)
    requires gran > 0 && idx < S.ObjCount(gran)
    ensures idx * gran * GRANULE_WORDS + gran * GRANULE_WORDS <= BlockIndex.Blocks(gran * GRANULE_BYTES) * M.HBLK_WORDS
  {
    if gran <= S.MAXOBJGRANULES {
      assert (idx + 1) * gran <= S.HBLK_GRANULES by {
        Ordered(idx + 1, S.HBLK_GRANULES / gran, gran);
      }
    }
  }

  lemma Ordered(i: nat, j: nat, g: nat)
    requires i <= j
    ensures i * g <= j * g
  {
  }

  /** Two objects do not overlap, whether they are held, free or neither. */
  lemma Apart(live: map<nat, nat>, s: S.Space, x: S.Obj, y: S.Obj)
    requires B.Separate(live) && S.BlocksOk(s) && BlocksAgree(live, s.blocks)
    requires S.IsObj(s.blocks, x) && S.IsObj(s.blocks, y) && x != y
    ensures Address(s.blocks, x) + Words(s.blocks, x) <= Address(s.blocks, y)
      || Address(s.blocks, y) + Words(s.blocks, y) <= Address(s.blocks, x)
    ensures Words(s.blocks, x) > 0
  {
    assert S.BlockOk(s.kinds, s.blocks[x.blk]) && S.BlockOk(s.kinds, s.blocks[y.blk]);
    if x.blk == y.blk {
      if x.idx < y.idx { SameBlock(s, x, y); } else { SameBlock(s, y, x); }
    } else if x.blk < y.blk {
      OtherBlock(live, s, x, y);
    } else {
      OtherBlock(live, s, y, x);
    }
  }

  lemma SameBlock(s: S.Space, x: S.Obj, y: S.Obj)
    requires x.blk == y.blk && x.blk in s.blocks && x.idx < y.idx
    ensures Address(s.blocks, x) + Words(s.blocks, x) <= Address(s.blocks, y)
  {
    Ordered(x.idx + 1, y.idx, s.blocks[x.blk].gran);
  }

  lemma BlockBefore(b: nat, n: nat, c: nat, offset: nat, len: nat)
    requires b + n <= c && offset + len <= n * M.HBLK_WORDS
    ensures b * M.HBLK_WORDS + offset + len <= c * M.HBLK_WORDS
  {
  }

  lemma OtherBlock(live: map<nat, nat>, s: S.Space, x: S.Obj, y: S.Obj)
    requires B.Separate(live) && S.BlocksOk(s) && BlocksAgree(live, s.blocks)
    requires S.IsObj(s.blocks, x) && S.IsObj(s.blocks, y) && x.blk < y.blk
    ensures Address(s.blocks, x) + Words(s.blocks, x) <= Address(s.blocks, y)
  {
    var gran := s.blocks[x.blk].gran;
    assert S.BlockOk(s.kinds, s.blocks[x.blk]);
    assert live[x.blk] == gran * GRANULE_BYTES && x.blk + BlockIndex.Blocks(live[x.blk]) <= y.blk;
    InEarlierBlock(x.blk, x.idx, gran, y.blk, y.idx, s.blocks[y.blk].gran);
  }

  lemma InEarlierBlock(b: nat, i: nat, gran: nat, c: nat, j: nat, gran': nat)
    requires gran > 0 && i < S.ObjCount(gran) && b + BlockIndex.Blocks(gran * GRANULE_BYTES) <= c
    ensures b * M.HBLK_WORDS + i * gran * GRANULE_WORDS + gran * GRANULE_WORDS <= c * M.HBLK_WORDS + j * gran' *
      GRANULE_WORDS
  {
    FitsIn(gran, i);
    BlockBefore(b, BlockIndex.Blocks(gran * GRANULE_BYTES), c, i * gran * GRANULE_WORDS, gran * GRANULE_WORDS);
    assert j * gran' >= 0;
  }

  /** An address names at most one object. */
  lemma AddressIsUnique(live: map<nat, nat>, s: S.Space, x: S.Obj, y: S.Obj)
    requires B.Separate(live) && S.BlocksOk(s) && BlocksAgree(live, s.blocks)
    requires S.IsObj(s.blocks, x) && S.IsObj(s.blocks, y) && Address(s.blocks, x) == Address(s.blocks, y)
    ensures x == y
  {
    if x != y {
      Apart(live, s, x, y);
      Apart(live, s, y, x);
      assert false;
    }
  }

  lemma HeldByAddress(live: map<nat, nat>, o: S.Snap, g: M.Globals, x: S.Obj)
    requires B.Separate(live) && S.Inv(o.s, o.v) && BlocksAgree(live, o.s.blocks) && ObjectsAgree(o, g)
    ensures x in o.v.held <==> S.IsObj(o.s.blocks, x) && Address(o.s.blocks, x) in g.fields
  {
    if S.IsObj(o.s.blocks, x) && Address(o.s.blocks, x) in g.fields {
      var y :| y in o.v.held && Address(o.s.blocks, y) == Address(o.s.blocks, x);
      assert S.IsObj(o.s.blocks, y);
      AddressIsUnique(live, o.s, x, y);
    }
  }

  // ---- Giving up the dead ----

  /** The roots and everything reachable from those of `g0` are as they were. */
  ghost predicate Kept(g0: M.Globals, g: M.Globals) {
    && g.segs == g0.segs && g.eager == g0.eager
    && forall a :: Reachable(g0.fields, M.RootsOf(g0), a) ==>
        a in g0.fields && a in g.fields && g.fields[a] == g0.fields[a]
  }

  lemma RootReachable(g: M.Globals, o: Obj)
    requires o in g.fields && o in M.RootsOf(g)
    ensures Reachable(g.fields, M.RootsOf(g), o)
  {
    assert IsPath(g.fields, M.RootsOf(g), [o]) && [o][0] == o;
  }

  lemma ForgetNothing(ws: seq<Word>, o: Obj)
    requires Ptr(o) !in ws
    ensures M.Forget(ws, o) == ws
  {
  }

  /** Forgetting an unreachable object changes no root. */
  lemma RootsKept(g0: M.Globals, g: M.Globals, o: Obj)
    requires Kept(g0, g) && o in g0.fields && !Reachable(g0.fields, M.RootsOf(g0), o)
    ensures M.ForgetRoots(g.segs, o) == g0.segs && M.Forget(g.eager, o) == g0.eager
  {
    if o in M.RootsOf(g0) { RootReachable(g0, o); }
    forall j | 0 <= j < |g0.segs| ensures M.Forget(g0.segs[j], o) == g0.segs[j] {
      ForgetNothing(g0.segs[j], o);
    }
    assert M.ForgetRoots(g.segs, o) == g0.segs;
    ForgetNothing(g0.eager, o);
  }

  lemma ForgetKeeps(g0: M.Globals, g: M.Globals, o: Obj)
    requires Kept(g0, g) && o in g0.fields && o in g.fields && !Reachable(g0.fields, M.RootsOf(g0), o)
    ensures Kept(g0, g.WithoutObject(o))
  {
    RootsKept(g0, g, o);
    var g' := g.WithoutObject(o);
    forall a | Reachable(g0.fields, M.RootsOf(g0), a)
        ensures a in g0.fields && a in g'.fields && g'.fields[a] == g0.fields[a] {
      if Ptr(o) in g0.fields[a] {
        ReachableStep(g0.fields, M.RootsOf(g0), a, o);
        assert false;
      }
      ForgetNothing(g.fields[a], o);
    }
  }

  /** What is reachable stays so. */
  lemma StillReachable(g0: M.Globals, g: M.Globals, a: Obj)
    requires Kept(g0, g) && Reachable(g0.fields, M.RootsOf(g0), a)
    ensures Reachable(g.fields, M.RootsOf(g), a)
  {
    var path :| IsPath(g0.fields, M.RootsOf(g0), path) && path[|path| - 1] == a;
    forall k | 0 <= k < |path| ensures path[k] in g.fields && g.fields[path[k]] == g0.fields[path[k]] {
      assert IsPath(g0.fields, M.RootsOf(g0), path[..k + 1]) && path[..k + 1][k] == path[k];
      assert Reachable(g0.fields, M.RootsOf(g0), path[k]);
    }
    assert IsPath(g.fields, M.RootsOf(g), path);
  }

  /** The objects that are left have words of the same values. */
  ghost predicate SameValues(fields0: Fields, fields: Fields) {
    forall a :: a in fields ==>
      && a in fields0 && |fields[a]| == |fields0[a]|
      && forall i :: 0 <= i < |fields[a]| ==> fields[a][i].Value() == fields0[a][i].Value()
  }

  lemma SameZero(fields0: Fields, fields: Fields, a: Obj)
    requires SameValues(fields0, fields) && a in fields
    ensures a in fields0 && (fields[a] == [] <==> fields0[a] == []) && (ZeroRest(fields[a]) <==> ZeroRest(fields0[a]))
  {
  }

  lemma ForgetValues(fields: Fields, o: Obj)
    ensures SameValues(fields, M.ForgetAll(fields, o) - {o})
  {
  }

  /** Only the marked ones of the objects are left. */
  ghost predicate Cleaned(g0: M.Globals, g: M.Globals) {
    && SameValues(g0.fields, g.fields)
    && g == g0.(fields := g.fields, segs := g.segs, eager := g.eager) && g.fields.Keys == g0.fields.Keys * g0.marks
  }

  /** All unmarked objects but those in `dead` have been given up. */
  ghost predicate Giving(g0: M.Globals, g: M.Globals, dead: set<Obj>) {
    && Kept(g0, g) && SameValues(g0.fields, g.fields) && g == g0.(fields := g.fields, segs := g.segs, eager := g.eager)
    && dead <= g0.fields.Keys - g0.marks && g.fields.Keys == g0.fields.Keys * g0.marks + dead
  }

  lemma GiveOne(g0: M.Globals, g: M.Globals, dead: set<Obj>, a: Obj)
    requires Giving(g0, g, dead) && a in dead && M.AllReachableMarked(g0) && g0.uncollectable <= g0.marks
    ensures a in g.fields && Giving(g0, g.WithoutObject(a), dead - {a})
  {
    ForgetKeeps(g0, g, a);
    ForgetValues(g.fields, a);
    assert g.uncollectable - {a} == g.uncollectable;
    assert g.fields.Keys - {a} == g0.fields.Keys * g0.marks + (dead - {a});
  }

  /** All unmarked objects are given up. */
  method ForgetDead(marker: M.Collector)
    requires marker.Valid() && M.AllReachableMarked(marker.s)
    modifies marker
    ensures marker.Valid() && Cleaned(old(marker.s), marker.s) && Kept(old(marker.s), marker.s)
    ensures marker.rescan == old(marker.rescan)
  {
    ghost var g0 := marker.s;
    var dead := marker.s.fields.Keys - marker.s.marks;
    KeptSame(g0);
    while dead != {}
      invariant marker.Valid() && Giving(g0, marker.s, dead) && marker.rescan == old(marker.rescan)
      decreases dead
    {
      var a :| a in dead;
      GiveOne(g0, marker.s, dead, a);
      marker.Release(a);
      dead := dead - {a};
    }
  }

  lemma KeptSame(g: M.Globals)
    ensures Kept(g, g)
  {
    forall a | Reachable(g.fields, M.RootsOf(g), a) ensures a in g.fields {
      var path :| IsPath(g.fields, M.RootsOf(g), path) && path[|path| - 1] == a;
    }
  }

  // ---- What the operations do to the objects ----

  /** Objects in `held` keep their block and their contents. */
  ghost predicate SamePlaces(s: S.Space, t: S.Space, held: set<S.Obj>) {
    forall x :: x in held ==>
      && x.blk in s.blocks && x.blk in t.blocks && t.blocks[x.blk].Cls() == s.blocks[x.blk].Cls()
      && x in s.mem && x in t.mem && t.mem[x] == s.mem[x]
  }

  lemma UntouchedPlaces(s: S.Space, t: S.Space, held: set<S.Obj>)
    requires S.Untouched(s, t, held)
    ensures SamePlaces(s, t, held)
  {
  }

  lemma NewAddress(live: map<nat, nat>, p: S.Snap, q: S.Snap, g: M.Globals, x: S.Obj)
    requires ObjectsAgree(p, g) && SamePlaces(p.s, q.s, p.v.held) && S.Inv(q.s, q.v) && q.v.held == p.v.held + {x}
      && x !in p.v.held
    requires B.Separate(live) && BlocksAgree(live, q.s.blocks)
    ensures Address(q.s.blocks, x) !in g.fields
  {
    if Address(q.s.blocks, x) in g.fields {
      var y :| y in p.v.held && Address(p.s.blocks, y) == Address(q.s.blocks, x);
      assert S.IsObj(q.s.blocks, x) && S.IsObj(q.s.blocks, y);
      AddressIsUnique(live, q.s, x, y);
    }
  }

  lemma OldWords(p: S.Snap, q: S.Snap, g: M.Globals, a: Obj, len: nat, kept: bool, bit: bool, y: S.Obj)
    requires WordsAgree(p, g, y) && SamePlaces(p.s, q.s, {y}) && a !in g.fields && Address(p.s.blocks, y) in g.fields
    ensures Address(q.s.blocks, y) == Address(p.s.blocks, y) && WordsAgree(q, g.WithObject(a, len, kept, bit), y)
  {
    assert y in {y};
    ForgetValues(g.fields, a);
    SameZero(g.fields, M.ForgetAll(g.fields, a) - {a}, Address(p.s.blocks, y));
  }

  lemma NewWords(p: S.Snap, q: S.Snap, g: M.Globals, x: S.Obj, len: nat, kept: bool, bit: bool)
    requires Known(p, g) && (forall y :: y in p.v.held ==> WordsAgree(p, g, y))
    requires SamePlaces(p.s, q.s, p.v.held) && q.v.held == p.v.held + {x} && Address(q.s.blocks, x) !in g.fields
    requires len > 0 ==> x in q.s.mem && q.s.mem[x].zero
    ensures forall y :: y in q.v.held ==> WordsAgree(q, g.WithObject(Address(q.s.blocks, x), len, kept, bit), y)
  {
    forall y | y in q.v.held ensures WordsAgree(q, g.WithObject(Address(q.s.blocks, x), len, kept, bit), y) {
      if y in p.v.held { OldWords(p, q, g, Address(q.s.blocks, x), len, kept, bit, y); }
    }
  }

  lemma NewKnown(p: S.Snap, q: S.Snap, g: M.Globals, x: S.Obj, len: nat, kept: bool, bit: bool)
    requires Known(p, g) && SamePlaces(p.s, q.s, p.v.held) && q.s.kinds == p.s.kinds && q.v.held == p.v.held + {x}
    requires Address(q.s.blocks, x) !in g.fields && g.uncollectable <= g.fields.Keys
      && (kept <==> S.Uncollectable(q.s, x))
    ensures Known(q, g.WithObject(Address(q.s.blocks, x), len, kept, bit))
  {
    forall y | y in p.v.held
      ensures Address(q.s.blocks, y) == Address(p.s.blocks, y)
        && (S.Uncollectable(q.s, y) <==> S.Uncollectable(p.s, y))
    {
    }
  }

  lemma NewAgrees(p: S.Snap, q: S.Snap, g: M.Globals, x: S.Obj, len: nat, kept: bool, bit: bool)
    requires ObjectsAgree(p, g) && SamePlaces(p.s, q.s, p.v.held) && q.s.kinds == p.s.kinds
      && q.v.held == p.v.held + {x}
    requires Address(q.s.blocks, x) !in g.fields && g.uncollectable <= g.fields.Keys
      && (kept <==> S.Uncollectable(q.s, x))
    requires len > 0 ==> x in q.s.mem && q.s.mem[x].zero
    ensures ObjectsAgree(q, g.WithObject(Address(q.s.blocks, x), len, kept, bit))
  {
    var g' := g.WithObject(Address(q.s.blocks, x), len, kept, bit);
    NewWords(p, q, g, x, len, kept, bit);
    NewKnown(p, q, g, x, len, kept, bit);
    forall a | a in g'.fields ensures exists y :: y in q.v.held && Address(q.s.blocks, y) == a {
      if a in g.fields {
        var y :| y in p.v.held && Address(p.s.blocks, y) == a;
        assert y in q.v.held && Address(q.s.blocks, y) == a;
      } else {
        assert x in q.v.held;
      }
    }
  }

  /** Held objects keep their mark bits, and collectable objects get none. */
  ghost predicate BitsKept(p: S.Snap, q: S.Snap) {
    && q.s.kinds == p.s.kinds && S.SameClasses(p.s.blocks, q.s.blocks)
    && (forall y :: y in p.v.held ==> (S.Marked(q.s.blocks, y) <==> S.Marked(p.s.blocks, y)))
    && (forall y :: S.Marked(q.s.blocks, y) && !S.Uncollectable(q.s, y) ==> S.Marked(p.s.blocks, y))
  }

  lemma NewBitsKept(p: S.Snap, c: S.Class, supply: nat, q: S.Snap, x: S.Obj)
    requires S.NewDid(p, c, supply, q, x) && S.Inv(p.s, p.v) && S.Inv(q.s, q.v)
    ensures BitsKept(p, q)
  {
    forall y | y in p.v.held && S.Marked(q.s.blocks, y) ensures S.Marked(p.s.blocks, y) {
      assert y in q.v.held && S.IsObj(p.s.blocks, y) && y.blk > 0;
    }
  }

  lemma BitsKeptTwice(p: S.Snap, r: S.Snap, q: S.Snap)
    requires BitsKept(p, r) && BitsKept(r, q) && r.v.held == p.v.held && p.s.blocks.Keys <= r.s.blocks.Keys
    ensures BitsKept(p, q)
  {
  }

  lemma NewMarksAgree(p: S.Snap, q: S.Snap, g: M.Globals, x: S.Obj, len: nat, kept: bool)
    requires ObjectsAgree(p, g) && MarksAgree(p, g) && BitsKept(p, q) && SamePlaces(p.s, q.s, p.v.held)
      && q.v.held == p.v.held + {x}
    requires Address(q.s.blocks, x) !in g.fields && (kept ==> S.Marked(q.s.blocks, x))
    ensures MarksAgree(q, g.WithObject(Address(q.s.blocks, x), len, kept, S.Marked(q.s.blocks, x)))
  {
    forall y | y in p.v.held
      ensures Address(q.s.blocks, y) == Address(p.s.blocks, y) && Address(p.s.blocks, y) != Address(q.s.blocks, x)
    {
      assert Address(p.s.blocks, y) in g.fields;
    }
  }

  /** The marker's variables once it knows object `x`, if there is one, with the mark bit it has. */
  function Told(g: M.Globals, o: S.Snap, x: S.Obj): M.Globals {
    if x != S.NULL && S.IsObj(o.s.blocks, x) && o.s.blocks[x.blk].kind < |o.s.kinds| then
      var c := o.s.blocks[x.blk].Cls();
      g.WithObject(Address(o.s.blocks, x), ScannedWords(o.s.kinds, c), o.s.kinds[c.kind].uncollectable,
        S.Marked(o.s.blocks, x))
    else g
  }

  /** The object found can be made known to the marker. */
  lemma FoundAgrees(live: map<nat, nat>, p: S.Snap, q: S.Snap, g: M.Globals, x: S.Obj)
    requires ObjectsAgree(p, g) && SamePlaces(p.s, q.s, p.v.held) && S.Inv(q.s, q.v) && q.v.held == p.v.held + {x}
      && x !in p.v.held
    requires B.Separate(live) && BlocksAgree(live, q.s.blocks) && g.uncollectable <= g.fields.Keys
    requires q.s.kinds == p.s.kinds && S.IsObj(q.s.blocks, x) && q.s.blocks[x.blk].kind < |q.s.kinds|
    requires MarksAgree(p, g) && BitsKept(p, q)
    requires q.s.kinds[q.s.blocks[x.blk].kind].hasPointers ==> x in q.s.mem && q.s.mem[x].zero
    ensures ObjectsAgree(q, Told(g, q, x)) && MarksAgree(q, Told(g, q, x))
    ensures Address(q.s.blocks, x) !in g.fields && 1 <= M.Block(Address(q.s.blocks, x))
    ensures S.Marked(q.s.blocks, x) && !S.Uncollectable(q.s, x) ==> g.objectsAreMarked
  {
    var c := q.s.blocks[x.blk].Cls();
    var kept := q.s.kinds[c.kind].uncollectable;
    NewAddress(live, p, q, g, x);
    NewAgrees(p, q, g, x, ScannedWords(q.s.kinds, c), kept, S.Marked(q.s.blocks, x));
    assert S.ProtectedIn(q.s, q.v, x);
    NewMarksAgree(p, q, g, x, ScannedWords(q.s.kinds, c), kept);
    InBlock(x.blk, x.idx, q.s.blocks[x.blk].gran);
  }

  lemma InBlock(b: nat, idx: nat, gran: nat)
    requires b > 0
    ensures M.Block(b * M.HBLK_WORDS + idx * gran * GRANULE_WORDS) >= 1
  {
    assert idx * gran >= 0;
  }

  lemma SameAgrees(p: S.Snap, q: S.Snap, g: M.Globals)
    requires ObjectsAgree(p, g) && SamePlaces(p.s, q.s, p.v.held) && q.s.kinds == p.s.kinds && q.v.held == p.v.held
    ensures ObjectsAgree(q, g)
  {
    forall y | y in p.v.held
      ensures Address(q.s.blocks, y) == Address(p.s.blocks, y) && WordsAgree(q, g, y)
        && (S.Uncollectable(q.s, y) <==> S.Uncollectable(p.s, y))
    {
      assert WordsAgree(p, g, y);
    }
  }

  /** The held objects shrink to those whose address is still one of an object. */
  lemma FewerAgree(p: S.Snap, q: S.Snap, g: M.Globals, g': M.Globals)
    requires ObjectsAgree(p, g) && SamePlaces(p.s, q.s, q.v.held) && q.s.kinds == p.s.kinds
    requires q.v.held <= p.v.held && g'.fields.Keys <= g.fields.Keys
      && g'.uncollectable == g.uncollectable * g'.fields.Keys
    requires forall x :: x in p.v.held ==> (x in q.v.held <==> Address(p.s.blocks, x) in g'.fields)
    requires SameValues(g.fields, g'.fields)
    ensures ObjectsAgree(q, g')
  {
    forall y | y in q.v.held
      ensures Address(q.s.blocks, y) == Address(p.s.blocks, y) && WordsAgree(q, g', y)
        && (S.Uncollectable(q.s, y) <==> S.Uncollectable(p.s, y))
    {
      assert WordsAgree(p, g, y);
      SameZero(g.fields, g'.fields, Address(p.s.blocks, y));
    }
    forall a | a in g'.fields ensures exists y :: y in q.v.held && Address(q.s.blocks, y) == a {
      var y :| y in p.v.held && Address(p.s.blocks, y) == a;
      assert y in q.v.held;
    }
  }

  lemma OtherAddresses(live: map<nat, nat>, s: S.Space, held: set<S.Obj>, x: S.Obj)
    requires B.Separate(live) && BlocksAgree(live, s.blocks) && S.BlocksOk(s) && x in held
      && forall y :: y in held ==> S.IsObj(s.blocks, y)
    ensures forall y :: y in held - {x} ==> Address(s.blocks, y) != Address(s.blocks, x)
  {
    forall y | y in held - {x} ensures Address(s.blocks, y) != Address(s.blocks, x) {
      if Address(s.blocks, y) == Address(s.blocks, x) { AddressIsUnique(live, s, x, y); }
    }
  }

  /** Object `x`, and nothing else at its address, is no longer held. */
  ghost predicate LetGo(p: S.Snap, q: S.Snap, x: S.Obj) {
    && q.s.kinds == p.s.kinds && q.v.held == p.v.held - {x} && SamePlaces(p.s, q.s, q.v.held)
    && S.SameClasses(p.s.blocks, q.s.blocks)
    && (forall y :: S.Marked(q.s.blocks, y) <==> S.Marked(p.s.blocks, y) && y.blk in q.s.blocks)
    && forall y :: y in p.v.held - {x} ==> Address(p.s.blocks, y) != Address(p.s.blocks, x)
  }

  lemma FreedIsLetGo(live: map<nat, nat>, p: S.Snap, q: S.Snap, x: S.Obj)
    requires B.Separate(live) && BlocksAgree(live, p.s.blocks) && S.Inv(p.s, p.v) && x in p.v.held && S.FreeDid(p, x, q)
    ensures LetGo(p, q, x)
  {
    assert forall y :: y in p.v.held ==> S.IsObj(p.s.blocks, y);
    OtherAddresses(live, p.s, p.v.held, x);
    UntouchedPlaces(p.s, q.s, q.v.held);
  }

  lemma DropAgrees(p: S.Snap, q: S.Snap, g: M.Globals, x: S.Obj)
    requires ObjectsAgree(p, g) && g.uncollectable <= g.fields.Keys && LetGo(p, q, x)
    ensures ObjectsAgree(q, g.WithoutObject(Address(p.s.blocks, x)))
  {
    var a := Address(p.s.blocks, x);
    forall y | y in p.v.held ensures y in q.v.held <==> Address(p.s.blocks, y) != a {
      assert y in p.v.held - {x} <==> y != x;
    }
    ForgetValues(g.fields, a);
    OneFewerAgree(p, q, g, g.WithoutObject(a), a);
  }

  lemma DropMarksAgree(p: S.Snap, q: S.Snap, g: M.Globals, x: S.Obj)
    requires MarksAgree(p, g) && LetGo(p, q, x)
    ensures MarksAgree(q, g.WithoutObject(Address(p.s.blocks, x)))
  {
    forall y | y in q.v.held ensures Address(q.s.blocks, y) == Address(p.s.blocks, y) {
    }
  }

  lemma OneFewerAgree(p: S.Snap, q: S.Snap, g: M.Globals, g': M.Globals, a: Obj)
    requires ObjectsAgree(p, g) && SamePlaces(p.s, q.s, q.v.held) && q.s.kinds == p.s.kinds && q.v.held <= p.v.held
    requires g.uncollectable <= g.fields.Keys && g'.fields.Keys == g.fields.Keys - {a}
      && g'.uncollectable == g.uncollectable - {a}
    requires forall y :: y in p.v.held ==> (y in q.v.held <==> Address(p.s.blocks, y) != a)
    requires SameValues(g.fields, g'.fields)
    ensures ObjectsAgree(q, g')
  {
    FewerAgree(p, q, g, g');
  }

  lemma SameBlocksAgree(live: map<nat, nat>, blocks: map<nat, S.Block>, blocks': map<nat, S.Block>)
    requires BlocksAgree(live, blocks) && S.SameClasses(blocks, blocks') && blocks'.Keys == blocks.Keys
    ensures BlocksAgree(live, blocks')
  {
  }

  lemma FreedBlocksAgree(live: map<nat, nat>, blocks: map<nat, S.Block>, blocks': map<nat, S.Block>, gone: set<nat>)
    requires BlocksAgree(live, blocks) && S.SameClasses(blocks, blocks') && blocks'.Keys == blocks.Keys - gone
    ensures BlocksAgree(live - gone, blocks')
  {
  }

  lemma NewNotStray(p: S.Snap, c: S.Class, supply: nat, q: S.Snap, x: S.Obj)
    requires S.NewDid(p, c, supply, q, x) && S.BlocksOk(q.s)
    ensures NoneStray(p) ==> NoneStray(q)
  {
    if NoneStray(p) {
      forall y | S.Marked(q.s.blocks, y) ensures y in q.v.held || S.OnList(q.s, q.v, y) {
        assert S.FreeStays(p.s, q.s, p.v, q.v, x);
      }
    }
  }

  lemma FreedNotStray(p: S.Snap, x: S.Obj, q: S.Snap)
    requires S.FreeDid(p, x, q) && NoneStray(p)
    ensures NoneStray(q)
  {
    forall y | S.Marked(q.s.blocks, y) ensures y in q.v.held || S.OnList(q.s, q.v, y) {
      assert S.Marked(p.s.blocks, y);
    }
  }

  // ---- Dropped blocks ----

  /** The blocks `bs` are new, each with an unmarked object that nobody holds. */
  ghost predicate Entered(p: S.Snap, q: S.Snap, bs: set<nat>) {
    && q.v == p.v && q.s.kinds == p.s.kinds && S.Untouched(p.s, q.s, p.v.held)
    && q.s.blocks.Keys == p.s.blocks.Keys + bs
    && (forall b :: b in p.s.blocks ==> q.s.blocks[b] == p.s.blocks[b])
    && (forall b :: b in bs && b !in p.s.blocks ==> q.s.blocks[b] == S.DroppedBlock(p.s.gcNo))
    && q.s.gcNo == p.s.gcNo
  }

  lemma EnteredNone(p: S.Snap)
    requires S.Inv(p.s, p.v)
    ensures Entered(p, p, {})
  {
    S.UntouchedSame(p.s, p.v);
  }

  lemma EnteredOneMore(p: S.Snap, r: S.Snap, q: S.Snap, bs: set<nat>, b: nat)
    requires Entered(p, r, bs) && S.EnterDid(r, b, q) && b !in r.s.blocks
    ensures Entered(p, q, bs + {b})
  {
    S.UntouchedTwice(p.s, r.s, q.s, p.v.held, p.v.held);
  }

  lemma EnteredKeeps(p: S.Snap, q: S.Snap, bs: set<nat>)
    requires Entered(p, q, bs) && S.Inv(p.s, p.v) && S.Inv(q.s, q.v)
    ensures BitsKept(p, q) && (NoneStray(p) ==> NoneStray(q))
    ensures forall c: S.Class :: S.NeedsBlock(p, c) <==> S.NeedsBlock(q, c)
  {
    forall x ensures S.OnList(q.s, q.v, x) <==> S.OnList(p.s, p.v, x) {
      if S.OnList(q.s, q.v, x) { assert q.s.blocks[x.blk].Cls() in q.v.lists; }
    }
    forall b ensures S.InQueue(q.s, q.v, b) <==> S.InQueue(p.s, p.v, b) {
      if S.InQueue(q.s, q.v, b) { assert q.s.blocks[b].Cls() in q.v.queues; }
    }
    forall x ensures S.Marked(q.s.blocks, x) <==> S.Marked(p.s.blocks, x) {
    }
    forall c: S.Class ensures S.NeedsBlock(p, c) <==> S.NeedsBlock(q, c) {
      if c.gran <= S.MAXOBJGRANULES { SameToGive(p, q, bs, c); }
    }
  }

  lemma SameToGive(p: S.Snap, q: S.Snap, bs: set<nat>, c: S.Class)
    requires Entered(p, q, bs) && c.gran <= S.MAXOBJGRANULES
    requires forall x :: S.OnList(q.s, q.v, x) <==> S.OnList(p.s, p.v, x)
    requires forall b :: S.InQueue(q.s, q.v, b) <==> S.InQueue(p.s, p.v, b)
    ensures S.NoneToGive(p.s, p.v, c) <==> S.NoneToGive(q.s, q.v, c)
  {
    forall x | S.IsObj(q.s.blocks, x) && q.s.blocks[x.blk].Cls() == c ensures S.IsObj(p.s.blocks, x) {
    }
  }

  /** With the blocks dropped by an allocation entered, only the block `n` it returned is missing. */
  lemma DroppedAgree(b: B.View, r: B.Request, splitLimit: nat, b': B.View, n: nat, p: S.Snap, q: S.Snap)
    requires BlocksAgree(b.live, p.s.blocks) && B.AllocateDid(b, r, splitLimit, b', n) && 0 !in b'.live
    requires Entered(p, q, B.DroppedBlocks(b, b', n))
    ensures n !in q.s.blocks && BlocksAgree(b'.live - {n}, q.s.blocks)
  {
    var bs := B.DroppedBlocks(b, b', n);
    forall x | x in q.s.blocks ensures x in b'.live && x != n && b'.live[x] == q.s.blocks[x].gran * GRANULE_BYTES {
      if x !in p.s.blocks { assert x in bs; }
    }
  }

  // ---- Blocks given back ----

  /** Every block in use holds an object that is held. */
  ghost predicate EachBlockHolds(o: S.Snap) {
    forall b :: b in o.s.blocks ==> exists x: S.Obj :: x.blk == b && x in o.v.held
  }

  /** Exactly the blocks `gone` have been given back, and their bytes are free. */
  ghost predicate Returned(b: B.View, b': B.View, gone: set<nat>) {
    && gone <= b.live.Keys && b'.live == b.live - gone && b'.sections == b.sections && b'.owner.Keys == b.owner.Keys
    && BlockSteps.InUse(b'.s.ix.hdrs) == BlockSteps.InUse(b.s.ix.hdrs) - gone
    && b'.s.largeFree == b.s.largeFree + Extents(b.live, gone)
  }

  lemma ReturnedNone(b: B.View)
    ensures Returned(b, b, {})
  {
    assert b.live - {} == b.live;
    assert BlockSteps.InUse(b.s.ix.hdrs) - {} == BlockSteps.InUse(b.s.ix.hdrs);
  }

  lemma ReturnedOneMore(b: B.View, b1: B.View, b': B.View, gone: set<nat>, n: nat)
    requires Returned(b, b1, gone) && n in b1.live && B.FreeDid(b1, n, b')
    requires n in BlockSteps.InUse(b1.s.ix.hdrs) && BlockSteps.InUse(b1.s.ix.hdrs)[n] == b1.live[n]
    ensures Returned(b, b', gone + {n})
  {
    assert b1.live - {n} == b.live - (gone + {n});
    assert BlockSteps.InUse(b1.s.ix.hdrs) - {n} == BlockSteps.InUse(b.s.ix.hdrs) - (gone + {n});
    ExtentsWithout(b.live, gone + {n}, n);
    assert gone + {n} - {n} == gone;
  }

  /** All the memory of a block that was given back belongs to free blocks. */
  lemma ReturnedIsFree(b: B.View, b': B.View, gone: set<nat>, n: nat, a: nat)
    requires B.InOrder(b) && B.InOrder(b') && Returned(b, b', gone) && n in gone
    requires n <= a < n + BlockIndex.Blocks(b.live[n])
    ensures a in b'.owner && BlockIndex.FreeAt(b'.s.ix.hdrs, b'.owner[a])
  {
    var used := BlockSteps.InUse(b.s.ix.hdrs);
    assert n in used && BlockIndex.Inside(b.s.ix.hdrs, n, a) && a in b.owner && b.owner[a] == n;
    var h := b'.owner[a];
    assert BlockIndex.Inside(b'.s.ix.hdrs, h, a);
    if !b'.s.ix.hdrs[h].free {
      assert h in BlockSteps.InUse(b'.s.ix.hdrs) && h in used && h !in gone;
      assert BlockIndex.Inside(b.s.ix.hdrs, h, a);
    }
  }

  lemma SameBitsAgree(p: S.Snap, q: S.Snap, g: M.Globals)
    requires MarksAgree(p, g) && BitsKept(p, q) && SamePlaces(p.s, q.s, p.v.held) && q.v.held == p.v.held
    ensures MarksAgree(q, g)
  {
    forall y | y in q.v.held ensures Address(q.s.blocks, y) == Address(p.s.blocks, y) {
    }
  }

  /** The same objects exist, and the same ones are marked. */
  ghost predicate SameMarks(g0: M.Globals, g: M.Globals) {
    && g.fields.Keys == g0.fields.Keys && g.uncollectable == g0.uncollectable
    && g.marks == g0.marks && g.objectsAreMarked == g0.objectsAreMarked
  }

  /** A write changes neither objects nor marks, and both pictures of memory alike. */
  lemma StoreAgrees(p: S.Snap, q: S.Snap, g0: M.Globals, g: M.Globals)
    requires q.v == p.v && q.s == p.s.(mem := q.s.mem) && SameMarks(g0, g)
    requires ObjectsAgree(p, g0) && forall x :: x in q.v.held ==> WordsAgree(q, g, x)
    ensures ObjectsAgree(q, g) && (MarksAgree(p, g0) ==> MarksAgree(q, g)) && (NoneStray(p) ==> NoneStray(q))
  {
  }

  lemma StoreWords(p: S.Snap, q: S.Snap, g0: M.Globals, g: M.Globals, x: S.Obj, ws: seq<Word>)
    requires ObjectsAgree(p, g0) && x in p.v.held && ws != [] && q.v == p.v
    requires forall y :: y in p.v.held - {x} ==> Address(p.s.blocks, y) != Address(p.s.blocks, x)
    requires q.s == p.s.(mem := p.s.mem[x := CellOf(p.s.blocks, ws)])
    requires g.fields == g0.fields[Address(p.s.blocks, x) := ws]
    ensures forall y :: y in q.v.held ==> WordsAgree(q, g, y)
  {
    forall y | y in q.v.held ensures WordsAgree(q, g, y) {
      assert WordsAgree(p, g0, y);
      if y != x { assert y in p.v.held - {x}; }
    }
  }

  /** An object's address read as a link is the object. */
  lemma LinkOfAddress(s: S.Space, x: S.Obj)
    requires S.BlocksOk(s) && S.IsObj(s.blocks, x)
    ensures LinkOf(s.blocks, Address(s.blocks, x)) == x
  {
    assert S.BlockOk(s.kinds, s.blocks[x.blk]);
    OffsetInBlock(x.blk, x.idx, s.blocks[x.blk].gran);
  }

  lemma OffsetInBlock(b: nat, idx: nat, gran: nat)
    requires gran > 0 && idx < S.ObjCount(gran)
    ensures var v := b * M.HBLK_WORDS + idx * gran * GRANULE_WORDS;
            && v / M.HBLK_WORDS == b && v % M.HBLK_WORDS == idx * (gran * GRANULE_WORDS)
            && v % M.HBLK_WORDS % (gran * GRANULE_WORDS) == 0
            && v % M.HBLK_WORDS / (gran * GRANULE_WORDS) == idx
  {
    if gran <= S.MAXOBJGRANULES {
      Ordered(idx + 1, S.HBLK_GRANULES / gran, gran);
      assert idx * gran + gran <= S.HBLK_GRANULES;
    }
    var d := idx * gran * GRANULE_WORDS;
    assert d < M.HBLK_WORDS;
    Division(b, d, M.HBLK_WORDS);
    assert d == idx * (gran * GRANULE_WORDS) + 0;
    Division(idx, 0, gran * GRANULE_WORDS);
  }

  lemma Division(q: nat, r: nat, d: nat)
    requires r < d
    ensures (q * d + r) / d == q && (q * d + r) % d == r
  {
    var n := q * d + r;
    assert n == n / d * d + n % d;
    if n / d > q { Ordered(q + 1, n / d, d); }
    if n / d < q { Ordered(n / d + 1, q, d); }
  }

  // ---- Mark bits ----

  /** Only mark bits changed. */
  ghost predicate OnlyBits(p: S.Snap, q: S.Snap) {
    && q.v == p.v && q.s == p.s.(blocks := q.s.blocks)
    && q.s.blocks.Keys == p.s.blocks.Keys && S.SameClasses(p.s.blocks, q.s.blocks)
  }

  lemma OnlyBitsKeeps(p: S.Snap, q: S.Snap, g: M.Globals)
    requires OnlyBits(p, q) && S.Inv(p.s, p.v) && S.Inv(q.s, q.v)
    ensures S.Untouched(p.s, q.s, p.v.held) && (forall x :: S.IsObj(q.s.blocks, x) <==> S.IsObj(p.s.blocks, x))
    ensures forall x :: S.OnList(q.s, q.v, x) <==> S.OnList(p.s, p.v, x)
    ensures ObjectsAgree(p, g) ==> ObjectsAgree(q, g)
  {
    forall b | b in p.s.blocks ensures |q.s.blocks[b].marks| == |p.s.blocks[b].marks| {
      assert S.BlockOk(p.s.kinds, p.s.blocks[b]) && S.BlockOk(q.s.kinds, q.s.blocks[b]);
    }
    if ObjectsAgree(p, g) { SameAgrees(p, q, g); }
  }

  /** The held objects that the marker has marked. */
  ghost predicate HeldMarked(p: S.Snap, g: M.Globals, marked: seq<S.Obj>) {
    forall x :: x in marked <==> x in p.v.held && Address(p.s.blocks, x) in g.marks
  }

  /** What the marker may do to its variables as far as the blocks' mark bits are concerned. */
  ghost predicate MarksGrew(g0: M.Globals, g: M.Globals) {
    && g.fields == g0.fields && g.uncollectable == g0.uncollectable && g0.marks <= g.marks
    && (g0.objectsAreMarked ==> g.objectsAreMarked)
    && (!g.objectsAreMarked ==> g.marks * g.fields.Keys <= g.uncollectable)
  }

  lemma GrownMarks(p: S.Snap, q: S.Snap, g0: M.Globals, g: M.Globals, marked: seq<S.Obj>)
    requires Known(p, g0) && MarksAgree(p, g0) && MarksGrew(g0, g) && HeldMarked(p, g, marked)
    requires OnlyBits(p, q) && SamePlaces(p.s, q.s, p.v.held)
    requires forall x :: S.Marked(q.s.blocks, x) <==> S.Marked(p.s.blocks, x) || x in marked
    ensures MarksAgree(q, g)
  {
    forall x | x in q.v.held
      ensures S.Marked(q.s.blocks, x) <==> Address(q.s.blocks, x) in g.marks
    {
      assert Address(q.s.blocks, x) == Address(p.s.blocks, x);
    }
    forall x | S.Marked(q.s.blocks, x) && !g.objectsAreMarked ensures S.Uncollectable(q.s, x) {
      if x in marked { assert Address(p.s.blocks, x) in g.marks * g.fields.Keys; }
    }
  }

  /** The bits of newly marked objects have been set. */
  lemma GrownAgree(p: S.Snap, q: S.Snap, g0: M.Globals, g: M.Globals, marked: seq<S.Obj>)
    requires ObjectsAgree(p, g0) && MarksAgree(p, g0) && NoneStray(p) && MarksGrew(g0, g) && HeldMarked(p, g, marked)
    requires OnlyBits(p, q) && S.Inv(p.s, p.v) && S.Inv(q.s, q.v)
    requires forall x :: S.Marked(q.s.blocks, x) <==> S.Marked(p.s.blocks, x) || x in marked
    ensures ObjectsAgree(q, g) && MarksAgree(q, g) && NoneStray(q)
  {
    OnlyBitsKeeps(p, q, g0);
    UntouchedPlaces(p.s, q.s, p.v.held);
    SameFieldsAgree(q, g0, g);
    GrownMarks(p, q, g0, g, marked);
    SomeBitsNotStray(p, q, marked);
  }

  lemma SomeBitsNotStray(p: S.Snap, q: S.Snap, marked: seq<S.Obj>)
    requires NoneStray(p) && q.v == p.v && (forall x :: x in marked ==> x in p.v.held)
    requires forall x :: S.Marked(q.s.blocks, x) ==> S.Marked(p.s.blocks, x) || x in marked
    requires forall x :: S.OnList(q.s, q.v, x) <==> S.OnList(p.s, p.v, x)
    ensures NoneStray(q)
  {
  }

  lemma SameFieldsAgree(p: S.Snap, g0: M.Globals, g: M.Globals)
    requires ObjectsAgree(p, g0) && g.fields == g0.fields && g.uncollectable == g0.uncollectable
    ensures ObjectsAgree(p, g)
  {
    forall x | x in p.v.held ensures WordsAgree(p, g, x) {
      assert WordsAgree(p, g0, x);
    }
  }

  /** The held objects with a mark. */
  method MarkedObjects(objects: S.ObjectHeap, g: M.Globals) returns (marked: seq<S.Obj>)
    requires objects.Valid() && ObjectsAgree(objects.Now(), g)
    ensures HeldMarked(objects.Now(), g, marked) && forall x :: x in marked ==> S.IsObj(objects.s.blocks, x)
  {
    var blks := objects.s.blocks;
    var rest := set a | a in g.fields && a in g.marks;
    marked := [];
    while rest != {}
      invariant forall a :: a in rest ==> a in g.fields && a in g.marks
      invariant forall x :: x in marked <==>
          x in objects.v.held && Address(blks, x) in g.marks && Address(blks, x) !in rest
      decreases rest
    {
      var a :| a in rest;
      HeldLink(objects.Now(), g, a);
      marked, rest := marked + [LinkOf(blks, a)], rest - {a};
    }
    assert forall x :: x in objects.v.held ==> S.IsObj(blks, x);
  }

  /** The held object at `a` is found by its address, and no other is there. */
  lemma HeldLink(o: S.Snap, g: M.Globals, a: Obj)
    requires ObjectsAgree(o, g) && S.Inv(o.s, o.v) && a in g.fields
    ensures forall x :: x in o.v.held && Address(o.s.blocks, x) == a <==> x == LinkOf(o.s.blocks, a)
  {
    var y :| y in o.v.held && Address(o.s.blocks, y) == a;
    forall x | x in o.v.held && Address(o.s.blocks, x) == a ensures x == LinkOf(o.s.blocks, a) {
      assert S.IsObj(o.s.blocks, x);
      LinkOfAddress(o.s, x);
    }
  }

  method MarkList(objects: S.ObjectHeap, marked: seq<S.Obj>)
    requires objects.Valid() && forall x :: x in marked ==> S.IsObj(objects.s.blocks, x)
    modifies objects
    ensures objects.Valid() && OnlyBits(old(objects.Now()), objects.Now())
    ensures forall x :: S.Marked(objects.s.blocks, x) <==> old(S.Marked(objects.s.blocks, x)) || x in marked
  {
    ghost var o := objects.Now();
    for n := 0 to |marked|
      invariant objects.Valid() && OnlyBits(o, objects.Now())
      invariant forall x :: S.IsObj(objects.s.blocks, x) <==> S.IsObj(o.s.blocks, x)
      invariant forall x :: S.Marked(objects.s.blocks, x) <==> S.Marked(o.s.blocks, x) || x in marked[..n]
    {
      assert marked[n] in marked && marked[..n + 1] == marked[..n] + [marked[n]];
      objects.Mark(marked[n]);
    }
    assert marked[..|marked|] == marked;
  }

  lemma ClearedMarks(p: S.Snap, q: S.Snap, g: M.Globals)
    requires Known(p, g) && S.Protected(p.s, p.v) && S.BlocksOk(p.s)
      && (forall x :: x in p.v.held ==> S.IsObj(p.s.blocks, x))
    requires OnlyBits(p, q) && SamePlaces(p.s, q.s, p.v.held)
    requires forall x :: S.Marked(q.s.blocks, x) <==> S.Marked(p.s.blocks, x) && S.Uncollectable(p.s, x)
    ensures MarksAgree(q, M.FromScratch(g))
  {
    forall x | x in q.v.held
      ensures S.Marked(q.s.blocks, x) <==> Address(q.s.blocks, x) in M.FromScratch(g).marks
    {
      assert S.ProtectedIn(p.s, p.v, x) && Address(q.s.blocks, x) == Address(p.s.blocks, x);
    }
  }

  /** All marks have been cleared, in the blocks as in the marker. */
  lemma ClearedAgree(p: S.Snap, q: S.Snap, g: M.Globals)
    requires ObjectsAgree(p, g) && NoneStray(p) && S.ClearDid(p, q) && S.Inv(p.s, p.v) && S.Inv(q.s, q.v)
    ensures ObjectsAgree(q, M.FromScratch(g)) && MarksAgree(q, M.FromScratch(g)) && NoneStray(q) && OnlyBits(p, q)
  {
    OnlyBitsKeeps(p, q, g);
    UntouchedPlaces(p.s, q.s, p.v.held);
    SameFieldsAgree(q, g, M.FromScratch(g));
    ClearedMarks(p, q, g);
    SomeBitsNotStray(p, q, []);
  }

  lemma SweptMarks(p: S.Snap, q: S.Snap, g: M.Globals)
    requires MarksAgree(p, g) && S.BitsGrow(p.s, q.s) && S.FreeStays(p.s, q.s, p.v, q.v, S.NULL)
    requires q.v.held == p.v.held && SamePlaces(p.s, q.s, p.v.held)
    requires forall x :: x in q.v.held ==> x.blk > 0 && !S.OnList(q.s, q.v, x)
    ensures MarksAgree(q, g)
  {
    forall x | x in p.v.held
      ensures Address(q.s.blocks, x) == Address(p.s.blocks, x)
        && (S.Marked(q.s.blocks, x) <==> S.Marked(p.s.blocks, x))
    {
    }
  }

  /** Sweeping has set the mark bits of objects that are free now. */
  lemma SweptAgree(p: S.Snap, ignoreOld: bool, q: S.Snap, g: M.Globals)
    requires ObjectsAgree(p, g) && NoneStray(p) && S.Reclaiming(p.s, q.s, p.v, q.v, ignoreOld)
    requires S.Inv(p.s, p.v) && S.Inv(q.s, q.v)
    ensures ObjectsAgree(q, g) && NoneStray(q) && S.Untouched(p.s, q.s, p.v.held)
    ensures MarksAgree(p, g) ==> MarksAgree(q, g)
  {
    S.HeldObjects(p.s, q.s, p.v, q.v);
    UntouchedPlaces(p.s, q.s, p.v.held);
    SameAgrees(p, q, g);
    S.SweptFreeStays(p.s, q.s, p.v, q.v);
    SweptNotStray(p, q);
    if MarksAgree(p, g) { SweptMarks(p, q, g); }
  }

  lemma SweptNotStray(p: S.Snap, q: S.Snap)
    requires NoneStray(p) && S.FreeStays(p.s, q.s, p.v, q.v, S.NULL) && q.v.held == p.v.held && S.BlocksOk(q.s)
    ensures NoneStray(q)
  {
    forall x | S.Marked(q.s.blocks, x) ensures x in q.v.held || S.OnList(q.s, q.v, x) {
      assert x.blk > 0;
      if x in p.v.held { } else if S.Marked(p.s.blocks, x) { assert S.OnList(p.s, p.v, x); }
    }
  }

  lemma ShrunkMarks(p: S.Snap, q: S.Snap, g: M.Globals, g': M.Globals)
    requires Known(p, g) && SamePlaces(p.s, q.s, q.v.held) && q.s.kinds == p.s.kinds && q.v.held <= p.v.held
    requires g'.marks == g.marks && g'.objectsAreMarked == g.objectsAreMarked
    requires !g.objectsAreMarked ==> g.marks * g.fields.Keys <= g.uncollectable
    requires forall x :: x in q.v.held ==> Address(p.s.blocks, x) in g.marks
    requires forall x :: S.Marked(q.s.blocks, x) <==> x in q.v.held
    ensures MarksAgree(q, g') && NoneStray(q)
  {
    forall x | x in q.v.held
      ensures Address(q.s.blocks, x) == Address(p.s.blocks, x) && Address(p.s.blocks, x) in g.marks * g.fields.Keys
    {
    }
  }

  lemma MarkedBlocksHold(q: S.Snap)
    requires S.OnlyMarkedBlocks(q.s.blocks) && forall x :: S.Marked(q.s.blocks, x) <==> x in q.v.held
    ensures EachBlockHolds(q)
  {
    forall b | b in q.s.blocks ensures exists x: S.Obj :: x.blk == b && x in q.v.held {
      var x: S.Obj :| x.blk == b && S.Marked(q.s.blocks, x);
      assert x in q.v.held;
    }
  }

  lemma UncollectableStay(g: M.Globals, g': M.Globals)
    requires Cleaned(g, g') && g.uncollectable <= g.fields.Keys && g.uncollectable <= g.marks
    ensures g'.uncollectable == g.uncollectable * g'.fields.Keys
  {
  }

  lemma ShrunkObjects(p: S.Snap, q: S.Snap, g: M.Globals, g': M.Globals)
    requires ObjectsAgree(p, g) && Cleaned(g, g') && g.uncollectable <= g.fields.Keys && g.uncollectable <= g.marks
    requires SamePlaces(p.s, q.s, q.v.held) && q.s.kinds == p.s.kinds && q.v.held <= p.v.held
    requires forall x :: x in p.v.held ==> (x in q.v.held <==> Address(p.s.blocks, x) in g.marks)
    ensures ObjectsAgree(q, g')
  {
    UncollectableStay(g, g');
    FewerAgree(p, q, g, g');
  }

  /** What the object heap keeps of the held objects once marking is over. */
  ghost predicate Shrunk(p: S.Snap, q: S.Snap, g: M.Globals) {
    && q.s.kinds == p.s.kinds && q.v.held <= p.v.held && S.Untouched(p.s, q.s, q.v.held)
    && (forall x :: x in p.v.held ==> (x in q.v.held <==> Address(p.s.blocks, x) in g.marks))
    && (forall x :: S.Marked(q.s.blocks, x) <==> x in q.v.held) && S.OnlyMarkedBlocks(q.s.blocks)
  }

  /** The held objects shrink to the marked ones, in the blocks as in the marker, and each block left holds one. */
  lemma ShrunkAgree(p: S.Snap, q: S.Snap, g: M.Globals, g': M.Globals)
    requires ObjectsAgree(p, g) && Cleaned(g, g') && g.uncollectable <= g.fields.Keys && g.uncollectable <= g.marks
    requires !g.objectsAreMarked ==> g.marks * g.fields.Keys <= g.uncollectable
    requires Shrunk(p, q, g)
    ensures ObjectsAgree(q, g') && MarksAgree(q, g') && NoneStray(q) && EachBlockHolds(q)
  {
    UntouchedPlaces(p.s, q.s, q.v.held);
    ShrunkObjects(p, q, g, g');
    ShrunkMarks(p, q, g, g');
    MarkedBlocksHold(q);
  }

  /** The end of a collection during which mark bits were kept up to date. */
  lemma FinishShrinks(p: S.Snap, q: S.Snap, g: M.Globals)
    requires S.FinishDid(p, q) && S.Inv(p.s, p.v) && S.Inv(q.s, q.v) && MarksAgree(p, g) && NoneStray(p)
    ensures Shrunk(p, q, g)
  {
    S.EachHasMarked(q.s);
    forall x ensures S.Marked(q.s.blocks, x) <==> x in q.v.held {
      if x in p.v.held { assert !S.OnList(p.s, p.v, x); }
    }
  }

  /** The end of one that brings them up to date only then. */
  lemma CollectShrinks(p: S.Snap, q: S.Snap, g: M.Globals, marked: seq<S.Obj>)
    requires S.CollectDid(p, false, marked, q, true) && S.Inv(p.s, p.v) && S.Inv(q.s, q.v) && NoneStray(p)
    requires ObjectsAgree(p, g) && HeldMarked(p, g, marked) && g.uncollectable <= g.marks
    ensures Shrunk(p, q, g)
  {
    forall x ensures S.Marked(q.s.blocks, x) <==> x in q.v.held {
      assert S.Marked(q.s.blocks, x) <==> S.Remarked(p.s, marked, x) && !S.WasFree(p.s, p.v, false, x);
      if x in p.v.held { assert S.IsObj(p.s.blocks, x) && S.ProtectedIn(p.s, p.v, x); }
    }
  }

  /** Bringing mark bits up to date first makes no difference. */
  lemma ShrunkAfterBits(p: S.Snap, r: S.Snap, q: S.Snap, g: M.Globals)
    requires OnlyBits(p, r) && S.Inv(p.s, p.v) && S.Inv(r.s, r.v) && Shrunk(r, q, g)
    ensures Shrunk(p, q, g)
  {
    OnlyBitsKeeps(p, r, g);
    S.UntouchedTwice(p.s, r.s, q.s, p.v.held, q.v.held);
    forall x | x in p.v.held ensures Address(r.s.blocks, x) == Address(p.s.blocks, x) {
      assert S.IsObj(p.s.blocks, x);
    }
  }

  // ---- What stays reachable ----

  lemma WordStays(ws: seq<Word>, a: Obj, q: Obj)
    requires Ptr(q) in ws && q != a
    ensures Ptr(q) in M.Forget(ws, a)
  {
    var i :| 0 <= i < |ws| && ws[i] == Ptr(q);
    assert M.Forget(ws, a)[i] == Ptr(q);
  }

  lemma RootStays(g: M.Globals, g': M.Globals, a: Obj, q: Obj)
    requires q in M.RootsOf(g) && q in g'.fields && q != a && g'.segs == M.ForgetRoots(g.segs, a)
      && g'.eager == M.Forget(g.eager, a)
    ensures q in M.RootsOf(g')
  {
    if Ptr(q) in g.eager {
      WordStays(g.eager, a, q);
    } else {
      var j, i :| 0 <= j < |g.segs| && 0 <= i < |g.segs[j]| && g.segs[j][i].Ptr? && g.segs[j][i].target == q;
      assert g'.segs[j][i] == Ptr(q);
    }
  }

  /** A new object changes nothing that is reachable. */
  lemma NewKeepsReachable(g: M.Globals, a: Obj, len: nat, kept: bool, bit: bool, q: Obj)
    requires a !in g.fields && Reachable(g.fields, M.RootsOf(g), q)
    ensures var g' := g.WithObject(a, len, kept, bit); Reachable(g'.fields, M.RootsOf(g'), q)
  {
    var g' := g.WithObject(a, len, kept, bit);
    var path :| IsPath(g.fields, M.RootsOf(g), path) && path[|path| - 1] == q;
    RootStays(g, g', a, path[0]);
    forall k | 0 < k < |path| ensures Ptr(path[k]) in g'.fields[path[k - 1]] {
      WordStays(g.fields[path[k - 1]], a, path[k]);
    }
    assert IsPath(g'.fields, M.RootsOf(g'), path);
  }
}
