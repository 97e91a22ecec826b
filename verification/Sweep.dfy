/**
  Small-object free lists and lazy sweeping (gc/reclaim.c, gc/malloc.c, gc/new_hblk.c and the end
  of a collection in gc/alloc.c).

  The first word of a free object links it to the next free object of its class, in memory the
  program overwrites once it holds the object. After marking, blocks are queued; a queued block
  is swept only when an object of its class is wanted, while the program goes on allocating and
  freeing.

  Main results: over every run, free lists are well formed and disjoint from the objects the
  program holds; an allocated object is one it did not hold, zero-filled where its kind promises
  so; no marked object is put on a free list or has its block freed; and a block is swept at most
  once per collection.
 */
module Sweep {
  import opened Runs

  const HBLK_GRANULES := 256
  const MAXOBJGRANULES := 128

  /** The `idx`th object of block `blk`. */
  datatype Obj = Obj(blk: nat, idx: nat)

  const NULL := Obj(0, 0)

  /** An object's memory: its first word read as a link, and whether the words after it are zero. */
  datatype Cell = Cell(link: Obj, zero: bool)

  datatype Kind = Kind(uncollectable: bool, init: bool, hasPointers: bool)

  /** Free lists and reclaim queues are kept per kind and size in granules. */
  datatype Class = Class(kind: nat, gran: nat)

  datatype Block = Block(kind: nat, gran: nat, marks: seq<bool>, nMarks: int, next: nat, lastReclaimed: nat) {
    function Cls(): Class { Class(kind, gran) }
    predicate Large() { gran > MAXOBJGRANULES }
  }

  datatype Space = Space(
    kinds: seq<Kind>,
    blocks: map<nat, Block>,
    mem: map<Obj, Cell>,
    free: map<Class, Obj>,
    queue: map<Class, nat>,
    gcNo: nat)

  /**
    What the links spell out; the objects the program holds: handed out, not freed, still
    reachable; and the blocks swept since the last collection.
   */
  datatype View = View(lists: map<Class, seq<Obj>>, queues: map<Class, seq<nat>>, held: set<Obj>, swept: set<nat>)

  /** HBLK_OBJS for small objects; a large object has its block to itself. */
  function ObjCount(gran: nat): (n: nat)
    requires gran > 0
    ensures n > 0
  {
    if gran > MAXOBJGRANULES then 1 else HBLK_GRANULES / gran
  }

  function CountTrue(marks: seq<bool>): nat {
    if marks == [] then 0 else (if marks[0] then 1 else 0) + CountTrue(marks[1..])
  }

  lemma {:induction false} CountTrueUpdate(marks: seq<bool>, i: nat, v: bool)
    requires i < |marks|
    ensures CountTrue(marks[i := v]) == CountTrue(marks) - (if marks[i] then 1 else 0) + (if v then 1 else 0)
  {
    if i == 0 {
      assert marks[0 := v][1..] == marks[1..];
    } else {
      CountTrueUpdate(marks[1..], i - 1, v);
      assert marks[i := v][1..] == marks[1..][i - 1 := v];
    }
  }

  /** A count of zero means that no object is marked. */
  lemma {:induction false} CountZero(marks: seq<bool>)
    ensures CountTrue(marks) == 0 <==> forall i :: 0 <= i < |marks| ==> !marks[i]
  {
    if marks != [] {
      CountZero(marks[1..]);
      assert forall i :: 0 <= i < |marks| - 1 ==> marks[1..][i] == marks[i + 1];
      assert forall i :: 0 < i < |marks| ==> marks[i] == marks[1..][i - 1];
    }
  }

  lemma {:induction false} CountAll(n: nat, v: bool)
    ensures CountTrue(seq(n, i => v)) == if v then n else 0
  {
    if n > 0 {
      assert seq(n, i => v)[1..] == seq(n - 1, i => v);
      CountAll(n - 1, v);
    }
  }

  // ---- Linked lists ----

  ghost predicate Linked(mem: map<Obj, Cell>, head: Obj, l: seq<Obj>)
    decreases |l|
  {
    if l == [] then head == NULL
    else head == l[0] && head in mem && Linked(mem, mem[head].link, l[1..])
  }

  lemma {:induction false} LinkedFrame(mem: map<Obj, Cell>, mem': map<Obj, Cell>, head: Obj, l: seq<Obj>)
    requires Linked(mem, head, l)
    requires forall o :: o in l ==> o in mem && o in mem' && mem'[o].link == mem[o].link
    ensures Linked(mem', head, l)
    decreases |l|
  {
    if l != [] {
      assert l[0] in l && forall o :: o in l[1..] ==> o in l;
      LinkedFrame(mem, mem', mem[head].link, l[1..]);
    }
  }

  ghost predicate Queued(blocks: map<nat, Block>, head: nat, q: seq<nat>)
    decreases |q|
  {
    if q == [] then head == 0
    else head == q[0] && head in blocks && Queued(blocks, blocks[head].next, q[1..])
  }

  lemma {:induction false} QueuedFrame(blocks: map<nat, Block>, blocks': map<nat, Block>, head: nat, q: seq<nat>)
    requires Queued(blocks, head, q)
    requires forall b :: b in q ==> b in blocks && b in blocks' && blocks'[b].next == blocks[b].next
    ensures Queued(blocks', head, q)
    decreases |q|
  {
    if q != [] {
      assert q[0] in q && forall b :: b in q[1..] ==> b in q;
      QueuedFrame(blocks, blocks', blocks[head].next, q[1..]);
    }
  }

  ghost predicate NoDup<T>(l: seq<T>) {
    forall i, j :: 0 <= i < j < |l| ==> l[i] != l[j]
  }

  // ---- Invariant ----

  predicate IsObj(blocks: map<nat, Block>, o: Obj) {
    o.blk in blocks && o.idx < |blocks[o.blk].marks|
  }

  predicate Marked(blocks: map<nat, Block>, o: Obj) {
    IsObj(blocks, o) && blocks[o.blk].marks[o.idx]
  }

  predicate SmallClass(kinds: seq<Kind>, c: Class) {
    c.kind < |kinds| && 0 < c.gran <= MAXOBJGRANULES
  }

  ghost predicate BlockOk(kinds: seq<Kind>, blk: Block) {
    blk.kind < |kinds| && blk.gran > 0 && |blk.marks| == ObjCount(blk.gran) && blk.nMarks == CountTrue(blk.marks)
  }

  ghost predicate BlocksOk(s: Space) {
    && (forall b :: b in s.blocks ==> b > 0 && BlockOk(s.kinds, s.blocks[b]))
    && (forall o :: IsObj(s.blocks, o) ==> o in s.mem)
  }

  /** The free list of class `c` holds distinct objects of that class, zero-filled if the kind promises so. */
  ghost predicate ListOk(s: Space, c: Class, l: seq<Obj>) {
    && c in s.free && SmallClass(s.kinds, c) && Linked(s.mem, s.free[c], l) && NoDup(l)
    && (forall o :: o in l ==> IsObj(s.blocks, o) && s.blocks[o.blk].Cls() == c)
    && (s.kinds[c.kind].init ==> forall o :: o in l ==> o in s.mem && s.mem[o].zero)
  }

  ghost predicate QueueOk(s: Space, c: Class, q: seq<nat>) {
    && c in s.queue && SmallClass(s.kinds, c) && Queued(s.blocks, s.queue[c], q) && NoDup(q)
    && (forall b :: b in q ==> b in s.blocks && s.blocks[b].Cls() == c)
  }

  /** Object `o` is on a free list. */
  ghost predicate OnList(s: Space, v: View, o: Obj) {
    o.blk in s.blocks && s.blocks[o.blk].Cls() in v.lists && o in v.lists[s.blocks[o.blk].Cls()]
  }

  ghost predicate InQueue(s: Space, v: View, b: nat) {
    b in s.blocks && s.blocks[b].Cls() in v.queues && b in v.queues[s.blocks[b].Cls()]
  }

  ghost predicate HeldOk(s: Space, v: View) {
    forall o :: o in v.held ==> IsObj(s.blocks, o) && !OnList(s, v, o)
  }

  /** Held or free objects are marked in blocks waiting to be swept, and always in uncollectable blocks. */
  ghost predicate ProtectedIn(s: Space, v: View, o: Obj) {
    IsObj(s.blocks, o) && (o in v.held || OnList(s, v, o)) && s.blocks[o.blk].kind < |s.kinds| ==>
      (InQueue(s, v, o.blk) ==> Marked(s.blocks, o))
          && (s.kinds[s.blocks[o.blk].kind].uncollectable ==> Marked(s.blocks, o))
  }

  ghost predicate Protected(s: Space, v: View) {
    forall o {:trigger ProtectedIn(s, v, o)} :: ProtectedIn(s, v, o)
  }

  ghost predicate Lists(s: Space, v: View) {
    && (forall c :: c in v.lists <==> SmallClass(s.kinds, c))
    && (forall c :: c in v.queues <==> SmallClass(s.kinds, c))
    && s.free.Keys == v.lists.Keys && s.queue.Keys == v.queues.Keys
    && (forall c {:trigger ListOk(s, c, v.lists[c])} :: c in v.lists ==> ListOk(s, c, v.lists[c]))
    && (forall c {:trigger QueueOk(s, c, v.queues[c])} :: c in v.queues ==> QueueOk(s, c, v.queues[c]))
  }

  ghost predicate Inv(s: Space, v: View) {
    BlocksOk(s) && Lists(s, v) && HeldOk(s, v) && Protected(s, v) && SweptOnce(s, v)
  }

  /** A block that has been swept is a small-object block and is not waiting to be swept again. */
  ghost predicate SweptOnce(s: Space, v: View) {
    forall b :: b in v.swept ==> b in s.blocks && !s.blocks[b].Large() && !InQueue(s, v, b)
  }

  /** A free list none of whose objects changed. */
  lemma ListKept(s: Space, t: Space, c: Class, l: seq<Obj>)
    requires ListOk(s, c, l) && t.kinds == s.kinds && c in t.free && t.free[c] == s.free[c]
    requires forall o :: o in l ==> o in s.mem && o in t.mem && t.mem[o] == s.mem[o]
    requires forall o :: o in l ==> IsObj(t.blocks, o) && t.blocks[o.blk].Cls() == c
    ensures ListOk(t, c, l)
  {
    LinkedFrame(s.mem, t.mem, s.free[c], l);
  }

  lemma QueueKept(s: Space, t: Space, c: Class, q: seq<nat>)
    requires QueueOk(s, c, q) && t.kinds == s.kinds && c in t.queue && t.queue[c] == s.queue[c]
    requires forall b :: b in q ==> b in t.blocks && t.blocks[b].Cls() == c && t.blocks[b].next == s.blocks[b].next
    ensures QueueOk(t, c, q)
  {
    QueuedFrame(s.blocks, t.blocks, s.queue[c], q);
  }

  lemma TailFacts<T>(l: seq<T>)
    requires NoDup(l) && l != []
    ensures NoDup(l[1..]) && l[0] !in l[1..] && forall x :: x in l <==> x == l[0] || x in l[1..]
  {
  }

  /** Only the free list of class `c` and the memory of objects of that class changed. */
  ghost predicate OnlyClass(s: Space, t: Space, c: Class) {
    && t == s.(free := t.free, mem := t.mem) && t.free.Keys == s.free.Keys && s.mem.Keys <= t.mem.Keys
    && (forall d :: d in s.free && d != c ==> t.free[d] == s.free[d])
    && (forall o :: IsObj(s.blocks, o) && s.blocks[o.blk].Cls() != c ==>
        o in s.mem && o in t.mem && t.mem[o] == s.mem[o])
  }

  lemma OtherListKept(s: Space, t: Space, c: Class, d: Class, l: seq<Obj>)
    requires OnlyClass(s, t, c) && d != c && ListOk(s, d, l)
    ensures ListOk(t, d, l)
  {
    ListKept(s, t, d, l);
  }

  lemma SameQueue(s: Space, t: Space, d: Class, q: seq<nat>)
    requires QueueOk(s, d, q) && t.kinds == s.kinds && t.queue == s.queue && t.blocks == s.blocks
    ensures QueueOk(t, d, q)
  {
  }

  lemma OtherLists(s: Space, t: Space, v: View, v': View, c: Class)
    requires Lists(s, v) && c in v.lists && c in v'.lists && OnlyClass(s, t, c)
    requires ListOk(t, c, v'.lists[c]) && v'.lists == v.lists[c := v'.lists[c]]
    ensures forall d {:trigger ListOk(t, d, v'.lists[d])} :: d in v'.lists ==> ListOk(t, d, v'.lists[d])
  {
    forall d | d in v'.lists ensures ListOk(t, d, v'.lists[d]) {
      if d != c { OtherListKept(s, t, c, d, v.lists[d]); }
    }
  }

  lemma OtherQueues(s: Space, t: Space, v: View, v': View)
    requires Lists(s, v) && t.kinds == s.kinds && t.queue == s.queue && t.blocks == s.blocks && v'.queues == v.queues
    ensures forall d {:trigger QueueOk(t, d, v'.queues[d])} :: d in v'.queues ==> QueueOk(t, d, v'.queues[d])
  {
    forall d | d in v'.queues ensures QueueOk(t, d, v'.queues[d]) {
      SameQueue(s, t, d, v.queues[d]);
    }
  }

  /** The other free lists and the queues are then as before. */
  lemma OthersKept(s: Space, t: Space, v: View, c: Class, l: seq<Obj>)
    requires BlocksOk(s) && Lists(s, v) && c in v.lists && ListOk(t, c, l) && OnlyClass(s, t, c)
    ensures BlocksOk(t) && Lists(t, v.(lists := v.lists[c := l]))
  {
    var v' := v.(lists := v.lists[c := l]);
    OtherLists(s, t, v, v', c);
    OtherQueues(s, t, v, v');
  }

  // ---- Allocation and explicit deallocation ----

  /** The part of GC_generic_malloc_inner that takes the first object off a free list that is not empty. */
  method Pop(s: Space, c: Class, ghost v: View) returns (t: Space, o: Obj, ghost v': View)
    requires Inv(s, v) && SmallClass(s.kinds, c) && c in s.free && s.free[c] != NULL
    ensures c in v.lists && v.lists[c] != [] && o == v.lists[c][0] && o !in v.held
    ensures Inv(t, v') && v' == v.(lists := v.lists[c := v.lists[c][1..]], held := v.held + {o})
    ensures IsObj(t.blocks, o) && t.blocks[o.blk].Cls() == c && o in t.mem && t.mem[o].link == NULL
    ensures s.kinds[c.kind].init ==> t.mem[o].zero
    ensures t == s.(free := t.free, mem := t.mem)
      && forall x :: x in s.mem && x != o ==> x in t.mem && t.mem[x] == s.mem[x]
  {
    o := s.free[c];
    ghost var l := v.lists[c];
    assert ListOk(s, c, l);
    TailFacts(l);
    t := s.(free := s.free[c := s.mem[o].link], mem := s.mem[o := s.mem[o].(link := NULL)]);
    v' := v.(lists := v.lists[c := l[1..]], held := v.held + {o});
    PopKeepsLists(s, t, v, c, o);
    PopKeepsRest(s, t, v, v', c, o);
  }

  lemma PopKeepsLists(s: Space, t: Space, v: View, c: Class, o: Obj)
    requires BlocksOk(s) && Lists(s, v) && c in v.lists && v.lists[c] != [] && o == v.lists[c][0] && o in s.mem
    requires t == s.(free := s.free[c := s.mem[o].link], mem := s.mem[o := s.mem[o].(link := NULL)])
    ensures BlocksOk(t) && Lists(t, v.(lists := v.lists[c := v.lists[c][1..]]))
  {
    var l := v.lists[c];
    assert ListOk(s, c, l);
    TailFacts(l);
    LinkedFrame(s.mem, t.mem, s.mem[o].link, l[1..]);
    assert ListOk(t, c, l[1..]);
    OthersKept(s, t, v, c, l[1..]);
  }

  lemma PopKeepsRest(s: Space, t: Space, v: View, v': View, c: Class, o: Obj)
    requires Inv(s, v) && c in v.lists && v.lists[c] != [] && o == v.lists[c][0]
      && t == s.(free := t.free, mem := t.mem)
    requires v' == v.(lists := v.lists[c := v.lists[c][1..]], held := v.held + {o})
    ensures HeldOk(t, v') && Protected(t, v') && o !in v.held
  {
    assert ListOk(s, c, v.lists[c]);
    TailFacts(v.lists[c]);
    assert OnList(s, v, o);
    forall x ensures OnList(t, v', x) <==> OnList(s, v, x) && x != o {
    }
    forall x ensures ProtectedIn(t, v', x) {
      assert ProtectedIn(s, v, x);
    }
  }

  /** GC_free for a small object the program holds. */
  method FreeSmall(s: Space, o: Obj, ghost v: View) returns (t: Space, ghost v': View)
    requires Inv(s, v) && o in v.held && o.blk in s.blocks && !s.blocks[o.blk].Large()
    ensures Inv(t, v')
    ensures var c := s.blocks[o.blk].Cls();
      c in v.lists && v' == v.(lists := v.lists[c := [o] + v.lists[c]], held := v.held - {o})
    ensures OnList(t, v', o) && t == s.(free := t.free, mem := t.mem)
    ensures forall x :: x in s.mem && x != o ==> x in t.mem && t.mem[x] == s.mem[x]
  {
    assert BlockOk(s.kinds, s.blocks[o.blk]);
    var c := s.blocks[o.blk].Cls();
    var zero := s.kinds[c.kind].init || s.mem[o].zero;
    t := s.(free := s.free[c := o], mem := s.mem[o := Cell(s.free[c], zero)]);
    v' := v.(lists := v.lists[c := [o] + v.lists[c]], held := v.held - {o});
    FreeKeepsLists(s, t, v, c, o);
    FreeKeepsRest(s, t, v, v', c, o);
  }

  lemma FreeKeepsLists(s: Space, t: Space, v: View, c: Class, o: Obj)
    requires BlocksOk(s) && Lists(s, v) && IsObj(s.blocks, o) && s.blocks[o.blk].Cls() == c && c in v.lists
      && c in s.free && o !in v.lists[c]
    requires o in t.mem && t == s.(free := s.free[c := o], mem := s.mem[o := t.mem[o]]) && t.mem[o].link == s.free[c]
    requires s.kinds[c.kind].init ==> t.mem[o].zero
    ensures BlocksOk(t) && Lists(t, v.(lists := v.lists[c := [o] + v.lists[c]]))
  {
    var l := v.lists[c];
    assert ListOk(s, c, l);
    LinkedFrame(s.mem, t.mem, s.free[c], l);
    assert ([o] + l)[1..] == l;
    assert ListOk(t, c, [o] + l);
    OthersKept(s, t, v, c, [o] + l);
  }

  lemma FreeKeepsRest(s: Space, t: Space, v: View, v': View, c: Class, o: Obj)
    requires Inv(s, v) && o in v.held && s.blocks[o.blk].Cls() == c && c in v.lists
      && t == s.(free := t.free, mem := t.mem)
    requires v' == v.(lists := v.lists[c := [o] + v.lists[c]], held := v.held - {o})
    ensures HeldOk(t, v') && Protected(t, v') && OnList(t, v', o)
  {
    forall x ensures OnList(t, v', x) <==> OnList(s, v, x) || x == o {
    }
    forall x ensures ProtectedIn(t, v', x) {
      assert ProtectedIn(s, v, x);
    }
  }

  // ---- Sweeping ----

  predicate Freed(b: nat, marks: seq<bool>, n: nat, o: Obj) {
    o.blk == b && o.idx < n <= |marks| && !marks[o.idx]
  }

  /** Only the memory of unmarked objects changed; it is zero if it was to be cleared. */
  ghost predicate OnlyFreed(mem: map<Obj, Cell>, mem': map<Obj, Cell>, b: nat, marks: seq<bool>, n: nat, clear: bool) {
    && mem'.Keys == mem.Keys
    && (forall o :: o in mem && !Freed(b, marks, n, o) ==> mem'[o] == mem[o])
    && (clear ==> forall o :: o in mem && Freed(b, marks, n, o) ==> mem'[o].zero)
  }

  /** The unmarked ones of the first `n` objects of a block, last first. */
  function Unmarked(b: nat, marks: seq<bool>, n: nat): (l: seq<Obj>)
    requires n <= |marks|
    ensures forall o :: o in l <==> Freed(b, marks, n, o)
  {
    if n == 0 then [] else (if marks[n - 1] then [] else [Obj(b, n - 1)]) + Unmarked(b, marks, n - 1)
  }

  lemma {:induction false} UnmarkedNoDup(b: nat, marks: seq<bool>, n: nat)
    requires n <= |marks|
    ensures NoDup(Unmarked(b, marks, n))
  {
    if n > 0 {
      UnmarkedNoDup(b, marks, n - 1);
      var l, rest := Unmarked(b, marks, n), Unmarked(b, marks, n - 1);
      if !marks[n - 1] {
        assert forall i :: 0 < i < |l| ==> l[i] == rest[i - 1] && rest[i - 1] in rest;
      }
    }
  }

  lemma LinkInFront(mem: map<Obj, Cell>, head: Obj, l: seq<Obj>, o: Obj, zero: bool)
    requires Linked(mem, head, l) && o !in l && forall x :: x in l ==> x in mem
    ensures Linked(mem[o := Cell(head, zero)], o, [o] + l)
  {
    LinkedFrame(mem, mem[o := Cell(head, zero)], head, l);
    assert ([o] + l)[1..] == l;
  }

  /** One round of the loop below, for an unmarked object. */
  lemma LinkStep(mem: map<Obj, Cell>, head: Obj, b: nat, marks: seq<bool>, n: nat, l: seq<Obj>, zero: bool)
    requires n < |marks| && Linked(mem, head, Unmarked(b, marks, n) + l)
    requires forall i :: 0 <= i < |marks| ==> Obj(b, i) in mem
    requires forall o :: o in l ==> o in mem && (o.blk == b && o.idx < |marks| ==> marks[o.idx])
    ensures marks[n] ==> Linked(mem, head, Unmarked(b, marks, n + 1) + l)
    ensures !marks[n] ==> Linked(mem[Obj(b, n) := Cell(head, zero)], Obj(b, n), Unmarked(b, marks, n + 1) + l)
  {
    var rest := Unmarked(b, marks, n) + l;
    if marks[n] {
      assert Unmarked(b, marks, n + 1) == Unmarked(b, marks, n);
    } else {
      assert Unmarked(b, marks, n + 1) + l == [Obj(b, n)] + rest;
      forall x | x in rest ensures x in mem && x != Obj(b, n) {
        assert Freed(b, marks, n, x) ==> x == Obj(b, x.idx);
      }
      LinkInFront(mem, head, rest, Obj(b, n), zero);
    }
  }

  lemma FreedStep(mem: map<Obj, Cell>, mem1: map<Obj, Cell>, b: nat, marks: seq<bool>, n: nat, clear: bool, head: Obj)
    requires OnlyFreed(mem, mem1, b, marks, n, clear) && n < |marks| && Obj(b, n) in mem
    ensures marks[n] ==> OnlyFreed(mem, mem1, b, marks, n + 1, clear)
    ensures !marks[n] ==> OnlyFreed(mem, mem1[Obj(b, n) := Cell(head, clear || mem1[Obj(b, n)].zero)], b, marks, n + 1,
      clear)
  {
  }

  /** The memory and list head once the first `n` objects of the block have been looked at. */
  ghost predicate LinkedUpTo(mem: map<Obj, Cell>, mem': map<Obj, Cell>, head: Obj, b: nat, marks: seq<bool>, n: nat,
      clear: bool, l: seq<Obj>) {
    n <= |marks| && Linked(mem', head, Unmarked(b, marks, n) + l) && OnlyFreed(mem, mem', b, marks, n, clear)
  }

  lemma LinkOne(mem: map<Obj, Cell>, mem': map<Obj, Cell>, head: Obj, b: nat, marks: seq<bool>, n: nat, clear: bool,
      l: seq<Obj>)
    requires LinkedUpTo(mem, mem', head, b, marks, n, clear, l) && n < |marks|
      && forall i :: 0 <= i < |marks| ==> Obj(b, i) in mem
    requires forall o :: o in l ==> o in mem && (o.blk == b && o.idx < |marks| ==> marks[o.idx])
    ensures Obj(b, n) in mem'
    ensures marks[n] ==> LinkedUpTo(mem, mem', head, b, marks, n + 1, clear, l)
    ensures !marks[n] ==> LinkedUpTo(mem, mem'[Obj(b, n) := Cell(head, clear || mem'[Obj(b, n)].zero)], Obj(b, n), b,
      marks, n + 1, clear, l)
  {
    assert Obj(b, n) in mem;
    LinkStep(mem', head, b, marks, n, l, clear || mem'[Obj(b, n)].zero);
    FreedStep(mem, mem', b, marks, n, clear, head);
  }

  /** GC_reclaim_clear and GC_reclaim_uninit: link the unmarked objects of block `b` in front of a free list. */
  method LinkUnmarked(mem: map<Obj, Cell>, b: nat, marks: seq<bool>, clear: bool, list: Obj, ghost l: seq<Obj>)
    returns (mem': map<Obj, Cell>, head: Obj)
    requires Linked(mem, list, l) && (forall i :: 0 <= i < |marks| ==> Obj(b, i) in mem)
    requires forall o :: o in l ==> o in mem && (o.blk == b && o.idx < |marks| ==> marks[o.idx])
    ensures mem'.Keys == mem.Keys && Linked(mem', head, Unmarked(b, marks, |marks|) + l)
    ensures OnlyFreed(mem, mem', b, marks, |marks|, clear)
  {
    mem', head := mem, list;
    assert Unmarked(b, marks, 0) + l == l;
    var i := 0;
    while i < |marks|
      invariant LinkedUpTo(mem, mem', head, b, marks, i, clear, l)
    {
      LinkOne(mem, mem', head, b, marks, i, clear, l);
      if !marks[i] {
        var o := Obj(b, i);
        mem', head := mem'[o := Cell(head, clear || mem'[o].zero)], o;
      }
      i := i + 1;
    }
  }

  /** Nothing in block `b` is unmarked but held or free already. */
  ghost predicate SafeToSweep(s: Space, v: View, b: nat) {
    forall o: Obj :: o.blk == b && IsObj(s.blocks, o) && (o in v.held || OnList(s, v, o)) ==> Marked(s.blocks, o)
  }

  function AllSet(n: nat): seq<bool> { seq(n, i => true) }

  /**
    GC_set_hdr_marks. `perObject` is the MARK_BIT_PER_OBJ build, where the count is derived from
    the final mark bit, which is the number of objects, and comes out one too low.
   */
  function SetHdrMarks(blk: Block, perObject: bool): Block {
    blk.(marks := AllSet(|blk.marks|), nMarks := if perObject then |blk.marks| - 1 else |blk.marks|)
  }

  /** The header after GC_reclaim_small_nonempty_block: uncollectable blocks have all mark bits set again. */
  function SweptHeader(kinds: seq<Kind>, blk: Block, gcNo: nat): Block
    requires blk.kind < |kinds|
  {
    var h := blk.(lastReclaimed := gcNo % 0x10000);
    if kinds[blk.kind].uncollectable then SetHdrMarks(h, false) else h
  }

  /** GC_reclaim_small_nonempty_block for a block already taken off its queue. */
  method SweepBlock(s: Space, b: nat, ghost v: View) returns (t: Space, ghost v': View)
    requires Inv(s, v) && b in s.blocks && !s.blocks[b].Large() && !InQueue(s, v, b) && b !in v.swept
      && SafeToSweep(s, v, b)
    ensures Inv(t, v') && t == s.(blocks := s.blocks[b := SweptHeader(s.kinds, s.blocks[b], s.gcNo)], free := t.free,
      mem := t.mem)
    ensures var c := s.blocks[b].Cls();
            c in v.lists && v' == v.(lists :=
                v.lists[c := Unmarked(b, s.blocks[b].marks, |s.blocks[b].marks|) + v.lists[c]], swept := v.swept + {b})
    ensures OnlyFreed(s.mem, t.mem, b, s.blocks[b].marks, |s.blocks[b].marks|, s.kinds[s.blocks[b].kind].init)
  {
    assert BlockOk(s.kinds, s.blocks[b]);
    t := RelinkBlock(s, b, v);
    ghost var u := t;
    t := t.(blocks := s.blocks[b := SweptHeader(s.kinds, s.blocks[b], s.gcNo)]);
    ghost var c := s.blocks[b].Cls();
    v' := v.(lists := v.lists[c := Unmarked(b, s.blocks[b].marks, |s.blocks[b].marks|) + v.lists[c]],
        swept := v.swept + {b});
    CountAll(|s.blocks[b].marks|, true);
    HeaderKeepsLists(u, t, v', b);
    SweepKeepsRest(s, t, v, v', b);
  }

  method RelinkBlock(s: Space, b: nat, ghost v: View) returns (u: Space)
    requires Inv(s, v) && b in s.blocks && !s.blocks[b].Large() && SafeToSweep(s, v, b) && BlockOk(s.kinds, s.blocks[b])
    ensures u == s.(free := u.free, mem := u.mem) && BlocksOk(u) && s.blocks[b].Cls() in v.lists
    ensures OnlyFreed(s.mem, u.mem, b, s.blocks[b].marks, |s.blocks[b].marks|, s.kinds[s.blocks[b].kind].init)
    ensures var c := s.blocks[b].Cls();
            Lists(u, v.(lists := v.lists[c := Unmarked(b, s.blocks[b].marks, |s.blocks[b].marks|) + v.lists[c]]))
  {
    var blk := s.blocks[b];
    var c := blk.Cls();
    ghost var l := v.lists[c];
    assert ListOk(s, c, l);
    SweepApart(s, v, b, c);
    var mem, head := LinkUnmarked(s.mem, b, blk.marks, s.kinds[blk.kind].init, s.free[c], l);
    u := s.(mem := mem, free := s.free[c := head]);
    SweptListOk(s, u, b, c, l);
    OthersKept(s, u, v, c, Unmarked(b, blk.marks, |blk.marks|) + l);
  }

  lemma SweepApart(s: Space, v: View, b: nat, c: Class)
    requires Inv(s, v) && b in s.blocks && s.blocks[b].Cls() == c && c in v.lists && SafeToSweep(s, v, b)
    ensures forall o :: o in v.lists[c] ==>
      o in s.mem && (o.blk == b && o.idx < |s.blocks[b].marks| ==> s.blocks[b].marks[o.idx])
    ensures forall i :: 0 <= i < |s.blocks[b].marks| ==> Obj(b, i) in s.mem
  {
    assert ListOk(s, c, v.lists[c]);
    forall o | o in v.lists[c]
        ensures o in s.mem && (o.blk == b && o.idx < |s.blocks[b].marks| ==> s.blocks[b].marks[o.idx]) {
      assert OnList(s, v, o);
    }
    forall i | 0 <= i < |s.blocks[b].marks| ensures Obj(b, i) in s.mem {
      assert IsObj(s.blocks, Obj(b, i));
    }
  }

  lemma JoinNoDup(l: seq<Obj>, m: seq<Obj>)
    requires NoDup(l) && NoDup(m) && forall o :: o in l ==> o !in m
    ensures NoDup(l + m)
  {
    var j := l + m;
    forall i, k | 0 <= i < k < |j| ensures j[i] != j[k] {
      if i < |l| <= k { assert j[i] in l && j[k] in m; }
    }
  }

  lemma SweptListOk(s: Space, u: Space, b: nat, c: Class, l: seq<Obj>)
    requires ListOk(s, c, l) && b in s.blocks && s.blocks[b].Cls() == c && u.kinds == s.kinds && u.blocks == s.blocks
      && c in u.free
    requires forall o :: o in l ==>
      o in s.mem && (o.blk == b && o.idx < |s.blocks[b].marks| ==> s.blocks[b].marks[o.idx])
    requires forall i :: 0 <= i < |s.blocks[b].marks| ==> Obj(b, i) in s.mem
    requires var marks := s.blocks[b].marks;
             && Linked(u.mem, u.free[c], Unmarked(b, marks, |marks|) + l)
             && OnlyFreed(s.mem, u.mem, b, marks, |marks|, s.kinds[c.kind].init)
    ensures ListOk(u, c, Unmarked(b, s.blocks[b].marks, |s.blocks[b].marks|) + l)
  {
    var marks := s.blocks[b].marks;
    UnmarkedNoDup(b, marks, |marks|);
    JoinNoDup(Unmarked(b, marks, |marks|), l);
    assert forall o :: Freed(b, marks, |marks|, o) ==> o == Obj(b, o.idx) && o in s.mem;
  }

  /** Lists and queues do not depend on mark bits. */
  lemma HeaderKeepsLists(s: Space, t: Space, v: View, b: nat)
    requires BlocksOk(s) && Lists(s, v) && b in s.blocks && b in t.blocks
      && t == s.(blocks := s.blocks[b := t.blocks[b]])
    requires BlockOk(s.kinds, t.blocks[b]) && t.blocks[b].Cls() == s.blocks[b].Cls()
      && t.blocks[b].next == s.blocks[b].next
    ensures BlocksOk(t) && Lists(t, v)
  {
    assert BlockOk(s.kinds, s.blocks[b]);
    forall o ensures IsObj(t.blocks, o) <==> IsObj(s.blocks, o) {
    }
    HeaderLists(s, t, v, b);
    HeaderQueues(s, t, v, b);
  }

  lemma HeaderLists(s: Space, t: Space, v: View, b: nat)
    requires Lists(s, v) && b in s.blocks && b in t.blocks && t == s.(blocks := s.blocks[b := t.blocks[b]])
    requires t.blocks[b].Cls() == s.blocks[b].Cls() && |t.blocks[b].marks| == |s.blocks[b].marks|
    ensures forall d {:trigger ListOk(t, d, v.lists[d])} :: d in v.lists ==> ListOk(t, d, v.lists[d])
  {
    forall d | d in v.lists ensures ListOk(t, d, v.lists[d]) {
      assert ListOk(s, d, v.lists[d]);
    }
  }

  lemma HeaderQueues(s: Space, t: Space, v: View, b: nat)
    requires Lists(s, v) && b in s.blocks && b in t.blocks && t == s.(blocks := s.blocks[b := t.blocks[b]])
    requires t.blocks[b].Cls() == s.blocks[b].Cls() && t.blocks[b].next == s.blocks[b].next
    ensures forall d {:trigger QueueOk(t, d, v.queues[d])} :: d in v.queues ==> QueueOk(t, d, v.queues[d])
  {
    forall d | d in v.queues ensures QueueOk(t, d, v.queues[d]) {
      assert QueueOk(s, d, v.queues[d]);
      QueueKept(s, t, d, v.queues[d]);
    }
  }

  /** What a swept block looks like to the rest of the invariant. */
  ghost predicate SweptChange(s: Space, t: Space, v: View, v': View, b: nat) {
    && b in s.blocks && s.blocks[b].kind < |s.kinds| && s.blocks[b].Cls() in v.lists && t.kinds == s.kinds
    && t.blocks == s.blocks[b := SweptHeader(s.kinds, s.blocks[b], s.gcNo)]
    && var c, marks := s.blocks[b].Cls(), s.blocks[b].marks;
       v' == v.(lists := v.lists[c := Unmarked(b, marks, |marks|) + v.lists[c]], swept := v.swept + {b})
  }

  lemma SweptOnList(s: Space, t: Space, v: View, v': View, b: nat)
    requires SweptChange(s, t, v, v', b)
    ensures forall x :: OnList(t, v', x) <==> OnList(s, v, x) || Freed(b, s.blocks[b].marks, |s.blocks[b].marks|, x)
    ensures forall x :: IsObj(t.blocks, x) <==> IsObj(s.blocks, x)
    ensures forall x :: InQueue(t, v', x) <==> InQueue(s, v, x)
    ensures forall x :: Marked(s.blocks, x) ==> Marked(t.blocks, x)
    ensures forall x: Obj :: x.blk != b && Marked(t.blocks, x) ==> Marked(s.blocks, x)
    ensures s.kinds[s.blocks[b].kind].uncollectable ==> forall x: Obj :: x.blk == b && IsObj(t.blocks, x) ==>
      Marked(t.blocks, x)
  {
  }

  lemma SweepKeepsRest(s: Space, t: Space, v: View, v': View, b: nat)
    requires Inv(s, v) && SweptChange(s, t, v, v', b) && !s.blocks[b].Large() && !InQueue(s, v, b)
      && SafeToSweep(s, v, b)
    ensures HeldOk(t, v') && Protected(t, v') && SweptOnce(t, v')
  {
    SweptOnList(s, t, v, v', b);
    forall o | o in v'.held ensures IsObj(t.blocks, o) && !OnList(t, v', o) {
      assert Freed(b, s.blocks[b].marks, |s.blocks[b].marks|, o) ==> !Marked(s.blocks, o);
    }
    forall x ensures ProtectedIn(t, v', x) {
      assert ProtectedIn(s, v, x);
    }
  }

  /** Take the first block off a queue. */
  method TakeQueued(s: Space, c: Class, ghost v: View) returns (t: Space, b: nat, ghost v': View)
    requires Inv(s, v) && SmallClass(s.kinds, c) && c in s.queue && s.queue[c] != 0
    ensures Inv(t, v') && b in t.blocks && t.blocks[b].Cls() == c && !InQueue(t, v', b) && b !in v.swept
      && SafeToSweep(t, v', b)
    ensures t == s.(queue := t.queue) && c in v.queues && v.queues[c] != [] && b == v.queues[c][0]
      && v' == v.(queues := v.queues[c := v.queues[c][1..]])
  {
    b := s.queue[c];
    ghost var q := v.queues[c];
    assert QueueOk(s, c, q);
    TailFacts(q);
    t := s.(queue := s.queue[c := s.blocks[b].next]);
    v' := v.(queues := v.queues[c := q[1..]]);
    TakeKeepsQueues(s, t, v, c);
    SameLists(s, t, v, v');
    TakeKeepsRest(s, t, v, v', c, b);
  }

  lemma TakeKeepsQueues(s: Space, t: Space, v: View, c: Class)
    requires Lists(s, v) && c in v.queues && v.queues[c] != [] && c in s.queue && s.queue[c] in s.blocks
    requires t == s.(queue := s.queue[c := s.blocks[s.queue[c]].next])
    ensures var v' := v.(queues := v.queues[c := v.queues[c][1..]]);
            forall d {:trigger QueueOk(t, d, v'.queues[d])} :: d in v'.queues ==> QueueOk(t, d, v'.queues[d])
  {
    var v' := v.(queues := v.queues[c := v.queues[c][1..]]);
    assert QueueOk(s, c, v.queues[c]);
    TailFacts(v.queues[c]);
    forall d | d in v'.queues ensures QueueOk(t, d, v'.queues[d]) {
      assert QueueOk(s, d, v.queues[d]);
    }
  }

  lemma SameLists(s: Space, t: Space, v: View, v': View)
    requires Lists(s, v) && t.kinds == s.kinds && t.blocks == s.blocks && t.mem == s.mem && t.free == s.free
      && v'.lists == v.lists
    ensures forall d {:trigger ListOk(t, d, v'.lists[d])} :: d in v'.lists ==> ListOk(t, d, v'.lists[d])
  {
    forall d | d in v'.lists ensures ListOk(t, d, v'.lists[d]) {
      assert ListOk(s, d, v.lists[d]);
    }
  }

  lemma TakeKeepsRest(s: Space, t: Space, v: View, v': View, c: Class, b: nat)
    requires Inv(s, v) && c in v.queues && v.queues[c] != [] && b == v.queues[c][0] && b in s.blocks
      && s.blocks[b].Cls() == c
    requires t == s.(queue := t.queue) && v' == v.(queues := v.queues[c := v.queues[c][1..]])
    ensures HeldOk(t, v') && Protected(t, v') && SweptOnce(t, v') && !InQueue(t, v', b) && b !in v.swept
      && SafeToSweep(t, v', b)
  {
    assert QueueOk(s, c, v.queues[c]);
    TailFacts(v.queues[c]);
    assert InQueue(s, v, b) && BlockOk(s.kinds, s.blocks[b]);
    forall x ensures InQueue(t, v', x) <==> InQueue(s, v, x) && x != b {
    }
    forall o ensures OnList(t, v', o) <==> OnList(s, v, o) {
    }
    forall o ensures ProtectedIn(t, v', o) {
      assert ProtectedIn(s, v, o);
    }
    forall o: Obj | o.blk == b && IsObj(t.blocks, o) && (o in v'.held || OnList(t, v', o)) ensures Marked(t.blocks, o) {
      assert ProtectedIn(s, v, o);
    }
  }

  /**
    Only sweeping happened: what the program holds and its memory are untouched, mark bits were
    only set, and only in swept blocks, and of a swept block exactly the unmarked objects became free.
   */
  ghost predicate OnlySwept(s: Space, t: Space, v: View, v': View) {
    && t.kinds == s.kinds && t.gcNo == s.gcNo && v'.held == v.held && v.swept <= v'.swept
    && t.blocks.Keys == s.blocks.Keys && (forall b :: b in s.blocks ==> t.blocks[b].Cls() == s.blocks[b].Cls())
    && (forall o :: Marked(s.blocks, o) ==> Marked(t.blocks, o))
    && (forall o :: o in v.held ==> o in s.mem && o in t.mem && t.mem[o] == s.mem[o])
    && (forall o :: OnList(s, v, o) ==> OnList(t, v', o))
    && (forall o :: OnList(t, v', o) && !OnList(s, v, o) ==>
        !Marked(s.blocks, o) && o.blk in v'.swept && o.blk !in v.swept)
    && (forall o :: IsObj(s.blocks, o) && o.blk in v'.swept && o.blk !in v.swept ==>
        Marked(s.blocks, o) || OnList(t, v', o))
    && (forall o :: IsObj(s.blocks, o) <==> IsObj(t.blocks, o))
    && (forall o :: Marked(t.blocks, o) && (o.blk in v'.swept ==> o.blk in v.swept) ==> Marked(s.blocks, o))
  }

  /** Every block that was waiting still is, or has been swept. */
  ghost predicate NoneForgotten(s: Space, t: Space, v: View, v': View) {
    forall b :: InQueue(s, v, b) ==> InQueue(t, v', b) || b in v'.swept
  }

  /** Blocks only leave the queues, and only those that were waiting get swept. */
  ghost predicate OnlyQueued(s: Space, t: Space, v: View, v': View) {
    && (forall b :: InQueue(t, v', b) ==> InQueue(s, v, b))
    && (forall b :: b in v'.swept && b !in v.swept ==> InQueue(s, v, b))
  }

  /** Mark bits are only set, and only of uncollectable objects. */
  ghost predicate BitsGrow(s: Space, t: Space) {
    && t.kinds == s.kinds && SameClasses(s.blocks, t.blocks)
    && (forall x :: Marked(s.blocks, x) ==> Marked(t.blocks, x))
    && (forall x :: Marked(t.blocks, x) && !Uncollectable(t, x) ==> Marked(s.blocks, x))
  }

  lemma SweptBits(s: Space, u: Space, t: Space, v: View, v': View, b: nat)
    requires SweptChange(u, t, v, v', b) && u.blocks == s.blocks && u.kinds == s.kinds
    ensures BitsGrow(s, t)
  {
    SweptOnList(u, t, v, v', b);
  }

  lemma BitsTwice(s: Space, t: Space, u: Space)
    requires BitsGrow(s, t) && BitsGrow(t, u)
    requires s.blocks.Keys <= t.blocks.Keys
    ensures BitsGrow(s, u)
  {
  }

  /** Take a block off a queue and sweep it. */
  method SweepNext(s: Space, c: Class, ghost v: View) returns (t: Space, ghost v': View)
    requires Inv(s, v) && SmallClass(s.kinds, c) && c in s.queue && s.queue[c] != 0
    ensures Inv(t, v') && OnlySwept(s, t, v, v') && NoneForgotten(s, t, v, v') && OnlyQueued(s, t, v, v')
    ensures BitsGrow(s, t)
    ensures c in v.queues && c in v'.queues && v.queues[c] != [] && v'.queues == v.queues[c := v.queues[c][1..]]
  {
    var b;
    t, b, v' := TakeQueued(s, c, v);
    ghost var u, w := t, v';
    t, v' := SweepBlock(t, b, v');
    SweptIsOnlySwept(s, u, t, v, w, v', b);
    SweptBits(s, u, t, w, v', b);
    HeadIsSwept(s, t, v, v', c, b);
  }

  lemma HeadIsSwept(s: Space, t: Space, v: View, v': View, c: Class, b: nat)
    requires c in v.queues && v.queues[c] != [] && v.queues[c][0] == b && v'.queues == v.queues[c := v.queues[c][1..]]
    requires v'.swept == v.swept + {b} && b in s.blocks && s.blocks[b].Cls() == c
    requires t.blocks.Keys == s.blocks.Keys && forall x :: x in s.blocks ==> t.blocks[x].Cls() == s.blocks[x].Cls()
    ensures NoneForgotten(s, t, v, v') && OnlyQueued(s, t, v, v')
  {
    assert v.queues[c] == [b] + v.queues[c][1..];
  }

  lemma SweptIsOnlySwept(s: Space, u: Space, t: Space, v: View, w: View, v': View, b: nat)
    requires Inv(s, v) && u == s.(queue := u.queue) && w == v.(queues := w.queues) && b !in v.swept
    requires SweptChange(u, t, w, v', b) && SafeToSweep(u, w, b) && t.gcNo == s.gcNo
    requires OnlyFreed(s.mem, t.mem, b, s.blocks[b].marks, |s.blocks[b].marks|, s.kinds[s.blocks[b].kind].init)
    ensures OnlySwept(s, t, v, v')
  {
    SweptOnList(u, t, w, v', b);
    SweptHeld(s, u, t, v, w, b);
    forall o ensures OnList(u, w, o) <==> OnList(s, v, o) {
    }
  }

  /** Sweeping does not touch held objects. */
  lemma SweptHeld(s: Space, u: Space, t: Space, v: View, w: View, b: nat)
    requires Inv(s, v) && u == s.(queue := u.queue) && w == v.(queues := w.queues) && b in s.blocks
      && SafeToSweep(u, w, b)
    requires OnlyFreed(s.mem, t.mem, b, s.blocks[b].marks, |s.blocks[b].marks|, s.kinds[s.blocks[b].kind].init)
    ensures forall o :: o in v.held ==> o in s.mem && o in t.mem && t.mem[o] == s.mem[o]
  {
    var marks := s.blocks[b].marks;
    forall o | o in v.held ensures o in s.mem && o in t.mem && t.mem[o] == s.mem[o] {
      assert IsObj(s.blocks, o);
      assert Freed(b, marks, |marks|, o) ==> !Marked(u.blocks, o);
    }
  }

  lemma SweptTwice(s: Space, t: Space, u: Space, v: View, w: View, x: View)
    requires OnlySwept(s, t, v, w) && OnlySwept(t, u, w, x)
    ensures OnlySwept(s, u, v, x)
    ensures NoneForgotten(s, t, v, w) && NoneForgotten(t, u, w, x) ==> NoneForgotten(s, u, v, x)
    ensures OnlyQueued(s, t, v, w) && OnlyQueued(t, u, w, x) ==> OnlyQueued(s, u, v, x)
  {
    forall o | IsObj(s.blocks, o) && o.blk in x.swept && o.blk !in v.swept
        ensures Marked(s.blocks, o) || OnList(u, x, o) {
      assert o.blk !in w.swept && Marked(t.blocks, o) ==> Marked(s.blocks, o);
    }
  }

  lemma SweptNot(s: Space, v: View)
    requires Inv(s, v)
    ensures OnlySwept(s, s, v, v) && NoneForgotten(s, s, v, v) && OnlyQueued(s, s, v, v) && BitsGrow(s, s)
  {
  }

  /** GC_continue_reclaim: sweep blocks of a class until its free list is not empty or its queue is. */
  method ContinueReclaim(s: Space, c: Class, ghost v: View) returns (t: Space, ghost v': View)
    requires Inv(s, v) && SmallClass(s.kinds, c)
    ensures Inv(t, v') && OnlySwept(s, t, v, v') && NoneForgotten(s, t, v, v') && OnlyQueued(s, t, v, v')
    ensures BitsGrow(s, t)
    ensures c in t.free && c in t.queue && (t.free[c] != NULL || t.queue[c] == 0)
  {
    t, v' := s, v;
    SweptNot(s, v);
    while t.queue[c] != 0
      invariant Inv(t, v') && OnlySwept(s, t, v, v') && NoneForgotten(s, t, v, v') && OnlyQueued(s, t, v, v')
      invariant BitsGrow(s, t)
      decreases |v'.queues[c]|
    {
      ghost var t0, v0 := t, v';
      t, v' := SweepNext(t, c, v');
      SweptTwice(s, t0, t, v, v0, v');
      BitsTwice(s, t0, t);
      if t.free[c] != NULL { break; }
    }
  }

  /** Progress of GC_reclaim_all: only waiting blocks are swept, and none is forgotten unless old ones are ignored. */
  ghost predicate Reclaiming(s: Space, t: Space, v: View, v': View, ignoreOld: bool) {
    && OnlySwept(s, t, v, v') && OnlyQueued(s, t, v, v') && BitsGrow(s, t)
    && (!ignoreOld ==> NoneForgotten(s, t, v, v'))
  }

  /** One block of GC_reclaim_all: taken off its queue, and swept unless it is an old one to be ignored. */
  method ReclaimOrDiscard(s: Space, c: Class, ignoreOld: bool, ghost v: View, ghost s0: Space, ghost v0: View)
      returns (t: Space, ghost v': View)
    requires Inv(s, v) && SmallClass(s.kinds, c) && c in s.queue && s.queue[c] != 0
      && Reclaiming(s0, s, v0, v, ignoreOld)
    ensures Inv(t, v') && Reclaiming(s0, t, v0, v', ignoreOld)
    ensures c in v.queues && c in v'.queues && v.queues[c] != [] && v'.queues == v.queues[c := v.queues[c][1..]]
  {
    assert QueueOk(s, c, v.queues[c]);
    if !ignoreOld || s.blocks[s.queue[c]].lastReclaimed == s.gcNo - 1 {
      t, v' := SweepNext(s, c, v);
    } else {
      var b;
      t, b, v' := TakeQueued(s, c, v);
      SweptNot(s, v);
      TakenIsOnlySwept(s, t, v, v');
    }
    SweptTwice(s0, s, t, v0, v, v');
    BitsTwice(s0, s, t);
  }

  lemma TakenIsOnlySwept(s: Space, t: Space, v: View, v': View)
    requires OnlySwept(s, s, v, v) && t == s.(queue := t.queue) && v' == v.(queues := v'.queues)
    ensures OnlySwept(s, t, v, v')
  {
    assert forall o :: OnList(t, v', o) <==> OnList(s, v, o);
  }

  /** Empty the queue of one class. */
  method ReclaimClass(s: Space, c: Class, ignoreOld: bool, stop: nat -> bool, calls: nat, ghost v: View,
      ghost s0: Space, ghost v0: View)
    returns (t: Space, ok: bool, calls': nat, ghost v': View)
    requires Inv(s, v) && SmallClass(s.kinds, c) && Reclaiming(s0, s, v0, v, ignoreOld)
    ensures Inv(t, v') && Reclaiming(s0, t, v0, v', ignoreOld)
    ensures c in v.queues && (ok ==> v'.queues == v.queues[c := []]) && ((forall n :: !stop(n)) ==> ok)
  {
    t, v', calls', ok := s, v, calls, true;
    while t.queue[c] != 0
      invariant Inv(t, v') && Reclaiming(s0, t, v0, v', ignoreOld)
      invariant c in v.queues && c in v'.queues && v'.queues == v.queues[c := v'.queues[c]]
      decreases |v'.queues[c]|
    {
      calls' := calls' + 1;
      if stop(calls' - 1) { ok := false; return; }
      ghost var before := v'.queues;
      t, v' := ReclaimOrDiscard(t, c, ignoreOld, v', s0, v0);
      SetTwice(v.queues, before, v'.queues, c);
    }
    EmptyQueue(t, v', c);
  }

  lemma SetTwice(m: map<Class, seq<nat>>, m1: map<Class, seq<nat>>, m2: map<Class, seq<nat>>, c: Class)
    requires c in m && c in m1 && m1 == m[c := m1[c]] && c in m2 && m2 == m1[c := m2[c]]
    ensures m2 == m[c := m2[c]]
  {
  }

  lemma EmptyQueue(s: Space, v: View, c: Class)
    requires BlocksOk(s) && Lists(s, v) && c in v.queues && c in s.queue && s.queue[c] == 0
    ensures v.queues[c] == []
  {
    assert QueueOk(s, c, v.queues[c]);
  }

  /** The classes before `(kind, gran)` in the order in which loops over all classes visit them. */
  predicate ClassBefore(c: Class, kind: nat, gran: nat) {
    c.kind < kind || (c.kind == kind && c.gran < gran)
  }

  /** The queues of classes before `(kind, gran)` are empty. */
  ghost predicate EmptyBefore(queues: map<Class, seq<nat>>, kind: nat, gran: nat) {
    forall c :: c in queues && ClassBefore(c, kind, gran) ==> queues[c] == []
  }

  /** Empty the queues of one kind. */
  method ReclaimKind(s: Space, kind: nat, ignoreOld: bool, stop: nat -> bool, calls: nat, ghost v: View,
      ghost s0: Space, ghost v0: View)
    returns (t: Space, ok: bool, calls': nat, ghost v': View)
    requires Inv(s, v) && kind < |s.kinds| && Reclaiming(s0, s, v0, v, ignoreOld) && EmptyBefore(v.queues, kind, 0)
    ensures Inv(t, v') && Reclaiming(s0, t, v0, v', ignoreOld)
    ensures (ok ==> EmptyBefore(v'.queues, kind + 1, 0)) && ((forall n :: !stop(n)) ==> ok)
  {
    t, v', calls', ok := s, v, calls, true;
    var gran := 1;
    GranRange(s, v, kind);
    while gran <= MAXOBJGRANULES
      invariant 1 <= gran <= MAXOBJGRANULES + 1 && Inv(t, v') && Reclaiming(s0, t, v0, v', ignoreOld)
        && EmptyBefore(v'.queues, kind, gran)
    {
      ghost var before := v'.queues;
      t, ok, calls', v' := ReclaimClass(t, Class(kind, gran), ignoreOld, stop, calls', v', s0, v0);
      if !ok { return; }
      EmptyStep(before, v'.queues, kind, gran);
      gran := gran + 1;
    }
    GranRange(t, v', kind);
  }

  lemma EmptyStep(queues: map<Class, seq<nat>>, queues': map<Class, seq<nat>>, kind: nat, gran: nat)
    requires EmptyBefore(queues, kind, gran) && queues' == queues[Class(kind, gran) := []]
    ensures EmptyBefore(queues', kind, gran + 1)
  {
    forall c | c in queues' && ClassBefore(c, kind, gran + 1) ensures queues'[c] == [] {
      if c.kind == kind && c.gran == gran { assert c == Class(kind, gran); }
    }
  }

  /** Classes have between 1 and MAXOBJGRANULES granules. */
  lemma GranRange(s: Space, v: View, kind: nat)
    requires Lists(s, v)
    ensures EmptyBefore(v.queues, kind, 0) ==> EmptyBefore(v.queues, kind, 1)
    ensures EmptyBefore(v.queues, kind, MAXOBJGRANULES + 1) ==> EmptyBefore(v.queues, kind + 1, 0)
  {
    assert forall c :: c in v.queues ==> 0 < c.gran <= MAXOBJGRANULES;
  }

  /**
    GC_reclaim_all. When it is not stopped, no block waits any more, and all that did were swept,
    old ones ignored apart.
   */
  method ReclaimAll(s: Space, ignoreOld: bool, stop: nat -> bool, ghost v: View)
      returns (t: Space, ok: bool, ghost v': View)
    requires Inv(s, v)
    ensures Inv(t, v') && Reclaiming(s, t, v, v', ignoreOld) && ((forall n :: !stop(n)) ==> ok)
    ensures ok ==> forall c :: c in v'.queues ==> v'.queues[c] == []
    ensures ok && !ignoreOld ==> forall b :: InQueue(s, v, b) ==> b in v'.swept
  {
    t, v', ok := s, v, true;
    SweptNot(s, v);
    var kind, calls := 0, 0;
    while kind < |s.kinds|
      invariant kind <= |s.kinds| && Inv(t, v') && Reclaiming(s, t, v, v', ignoreOld) && EmptyBefore(v'.queues, kind, 0)
    {
      t, ok, calls, v' := ReclaimKind(t, kind, ignoreOld, stop, calls, v', s, v);
      if !ok { return; }
      kind := kind + 1;
    }
    AllQueuesDone(t, v');
  }

  lemma AllQueuesDone(s: Space, v: View)
    requires Lists(s, v) && EmptyBefore(v.queues, |s.kinds|, 0)
    ensures forall c :: c in v.queues ==> v.queues[c] == []
    ensures forall b :: !InQueue(s, v, b)
  {
  }

  // ---- New blocks ----

  /** Memory with the objects of a new block added; other objects are as before. */
  ghost predicate WithBlock(mem: map<Obj, Cell>, mem': map<Obj, Cell>, b: nat, n: nat, clear: bool) {
    && (forall o :: o in mem' <==> o in mem || (o.blk == b && o.idx < n))
    && (forall o :: o in mem && o.blk != b ==> mem'[o] == mem[o])
    && (clear ==> forall o :: o in mem' && o.blk == b && o.idx < n ==> mem'[o].zero)
  }

  /** GC_build_fl: chain all objects of a new block, last first, in front of a free list. */
  method BuildList(mem: map<Obj, Cell>, b: nat, n: nat, clear: bool, list: Obj, ghost l: seq<Obj>)
      returns (mem': map<Obj, Cell>, head: Obj)
    requires n > 0 && Linked(mem, list, l) && forall o :: o in l ==> o in mem && o.blk != b
    ensures WithBlock(mem, mem', b, n, clear) && head == Obj(b, n - 1)
    ensures Linked(mem', head, Unmarked(b, AllClear(n), n) + l)
  {
    mem' := BuildLinks(mem, b, n, clear);
    mem' := mem'[Obj(b, 0) := mem'[Obj(b, 0)].(link := list)];
    head := Obj(b, n - 1);
    LinkedFrame(mem, mem', list, l);
    BuiltChain(mem', b, n, n, list, l);
  }

  method BuildLinks(mem: map<Obj, Cell>, b: nat, n: nat, clear: bool) returns (mem': map<Obj, Cell>)
    requires n > 0
    ensures WithBlock(mem, mem', b, n, clear)
    ensures forall i :: 0 < i < n ==> mem'[Obj(b, i)].link == Obj(b, i - 1)
  {
    mem' := PrepareBlock(mem, b, n, clear);
    var p := 1;
    while p < n
      invariant 1 <= p <= n && WithBlock(mem, mem', b, n, clear)
      invariant forall i :: 0 < i < p ==> mem'[Obj(b, i)].link == Obj(b, i - 1)
    {
      mem' := mem'[Obj(b, p) := mem'[Obj(b, p)].(link := Obj(b, p - 1))];
      p := p + 1;
    }
  }

  function AllClear(n: nat): seq<bool> { seq(n, i => false) }

  lemma {:induction false} BuiltChain(mem: map<Obj, Cell>, b: nat, n: nat, k: nat, list: Obj, l: seq<Obj>)
    requires 0 < k <= n && Linked(mem, list, l)
    requires Obj(b, 0) in mem && mem[Obj(b, 0)].link == list
    requires forall i :: 0 < i < n ==> Obj(b, i) in mem && mem[Obj(b, i)].link == Obj(b, i - 1)
    ensures Linked(mem, Obj(b, k - 1), Unmarked(b, AllClear(n), k) + l)
  {
    var rest := Unmarked(b, AllClear(n), k - 1) + l;
    assert Unmarked(b, AllClear(n), k) + l == [Obj(b, k - 1)] + rest;
    assert ([Obj(b, k - 1)] + rest)[1..] == rest;
    if k == 1 {
      assert rest == l;
    } else {
      BuiltChain(mem, b, n, k - 1, list, l);
    }
  }

  /** The memory of a new block: cleared, or with whatever it held before. */
  method PrepareBlock(mem: map<Obj, Cell>, b: nat, n: nat, clear: bool) returns (mem': map<Obj, Cell>)
    ensures WithBlock(mem, mem', b, n, clear)
  {
    mem' := mem;
    for j := 0 to n
      invariant WithBlock(mem, mem', b, j, clear)
    {
      if clear || Obj(b, j) !in mem' { mem' := mem'[Obj(b, j) := Cell(NULL, clear)]; }
    }
  }

  /** The header of a new block: mark bits clear, or all set if its objects are uncollectable. */
  function NewHeader(kinds: seq<Kind>, c: Class, gcNo: nat): Block
    requires SmallClass(kinds, c)
  {
    var n := ObjCount(c.gran);
    var blk := Block(c.kind, c.gran, AllClear(n), 0, 0, gcNo % 0x10000);
    if kinds[c.kind].uncollectable then SetHdrMarks(blk, false) else blk
  }

  lemma NewHeaderOk(kinds: seq<Kind>, c: Class, gcNo: nat)
    requires SmallClass(kinds, c)
    ensures var h := NewHeader(kinds, c, gcNo); BlockOk(kinds, h) && h.Cls() == c && |h.marks| == ObjCount(c.gran)
  {
    CountAll(ObjCount(c.gran), true);
    CountAll(ObjCount(c.gran), false);
  }

  /** GC_new_hblk with the block the block allocator provided. */
  method NewBlock(s: Space, c: Class, b: nat, ghost v: View) returns (t: Space, ghost v': View)
    requires Inv(s, v) && SmallClass(s.kinds, c) && b > 0 && b !in s.blocks
    ensures Inv(t, v') && v' == v.(lists := v'.lists) && c in t.free && t.free[c] != NULL
    ensures b in t.blocks && t.blocks[b].Cls() == c
      && t == s.(blocks := s.blocks[b := t.blocks[b]], mem := t.mem, free := t.free)
    ensures forall o :: o in s.mem && o.blk != b ==> o in t.mem && t.mem[o] == s.mem[o]
    ensures forall o: Obj :: OnList(t, v', o) <==> OnList(s, v, o) || (o.blk == b && IsObj(t.blocks, o))
    ensures forall o: Obj :: o.blk == b && Marked(t.blocks, o) ==> Uncollectable(t, o)
  {
    var n := ObjCount(c.gran);
    var blk := NewHeader(s.kinds, c, s.gcNo);
    NewHeaderOk(s.kinds, c, s.gcNo);
    ghost var l := v.lists[c];
    assert ListOk(s, c, l);
    var mem, head := BuildList(s.mem, b, n, s.kinds[c.kind].init, s.free[c], l);
    var u := s.(blocks := s.blocks[b := blk], mem := mem);
    NewBlockLists(s, u, v, b);
    t := u.(free := s.free[c := head]);
    v' := v.(lists := v.lists[c := Unmarked(b, AllClear(n), n) + l]);
    NewListOk(u, t, b, c, n, l);
    OthersKept(u, t, v, c, v'.lists[c]);
    NewKeepsRest(s, t, v, v', b, c, n);
  }

  /** Adding a block on no list. */
  lemma NewBlockLists(s: Space, u: Space, v: View, b: nat)
    requires BlocksOk(s) && Lists(s, v) && b > 0 && b !in s.blocks && b in u.blocks && BlockOk(s.kinds, u.blocks[b])
    requires u == s.(blocks := s.blocks[b := u.blocks[b]], mem := u.mem)
      && WithBlock(s.mem, u.mem, b, |u.blocks[b].marks|, false)
    ensures BlocksOk(u) && Lists(u, v)
  {
    NewBlockOldLists(s, u, v, b);
    NewBlockQueues(s, u, v, b);
  }

  lemma NewBlockOldLists(s: Space, u: Space, v: View, b: nat)
    requires BlocksOk(s) && Lists(s, v) && b !in s.blocks && u.kinds == s.kinds && u.free == s.free
    requires forall x :: x in s.blocks ==> x in u.blocks && u.blocks[x] == s.blocks[x]
    requires forall o :: o in s.mem && o.blk != b ==> o in u.mem && u.mem[o] == s.mem[o]
    ensures forall d {:trigger ListOk(u, d, v.lists[d])} :: d in v.lists ==> ListOk(u, d, v.lists[d])
  {
    forall d | d in v.lists ensures ListOk(u, d, v.lists[d]) {
      assert ListOk(s, d, v.lists[d]);
      ListKept(s, u, d, v.lists[d]);
    }
  }

  lemma NewBlockQueues(s: Space, u: Space, v: View, b: nat)
    requires Lists(s, v) && u.kinds == s.kinds && u.queue == s.queue
    requires forall x :: x in s.blocks ==> x in u.blocks && u.blocks[x] == s.blocks[x]
    ensures forall d {:trigger QueueOk(u, d, v.queues[d])} :: d in v.queues ==> QueueOk(u, d, v.queues[d])
  {
    forall d | d in v.queues ensures QueueOk(u, d, v.queues[d]) {
      assert QueueOk(s, d, v.queues[d]);
      QueueKept(s, u, d, v.queues[d]);
    }
  }

  lemma NewListOk(u: Space, t: Space, b: nat, c: Class, n: nat, l: seq<Obj>)
    requires ListOk(u, c, l) && t == u.(free := t.free) && c in t.free && b in u.blocks && u.blocks[b].Cls() == c
      && |u.blocks[b].marks| == n
    requires forall o :: o in l ==> o.blk != b
    requires Linked(t.mem, t.free[c], Unmarked(b, AllClear(n), n) + l)
    requires forall i :: 0 <= i < n ==> Obj(b, i) in t.mem
    requires u.kinds[c.kind].init ==> forall o :: o in t.mem && o.blk == b && o.idx < n ==> t.mem[o].zero
    ensures ListOk(t, c, Unmarked(b, AllClear(n), n) + l)
  {
    UnmarkedNoDup(b, AllClear(n), n);
    JoinNoDup(Unmarked(b, AllClear(n), n), l);
    forall o | Freed(b, AllClear(n), n, o) ensures o in t.mem {
      assert o == Obj(b, o.idx);
    }
  }

  lemma NewKeepsRest(s: Space, t: Space, v: View, v': View, b: nat, c: Class, n: nat)
    requires Inv(s, v) && b !in s.blocks && b in t.blocks && t.blocks == s.blocks[b := t.blocks[b]]
      && t.kinds == s.kinds
    requires c in v.lists && t.blocks[b].Cls() == c && |t.blocks[b].marks| == n && c.kind < |s.kinds|
    requires s.kinds[c.kind].uncollectable ==> t.blocks[b].marks == AllSet(n)
    requires v' == v.(lists := v.lists[c := Unmarked(b, AllClear(n), n) + v.lists[c]])
    ensures HeldOk(t, v') && Protected(t, v') && SweptOnce(t, v')
    ensures forall o: Obj :: OnList(t, v', o) <==> OnList(s, v, o) || (o.blk == b && IsObj(t.blocks, o))
  {
    NewOnList(s, t, v, v', b, c, n);
    NewInQueue(s, t, v, v', b, c);
    forall o ensures ProtectedIn(t, v', o) {
      assert ProtectedIn(s, v, o);
    }
  }

  lemma NewOnList(s: Space, t: Space, v: View, v': View, b: nat, c: Class, n: nat)
    requires Lists(s, v) && b !in s.blocks && b in t.blocks && t.blocks == s.blocks[b := t.blocks[b]]
    requires c in v.lists && t.blocks[b].Cls() == c && |t.blocks[b].marks| == n
    requires v'.lists == v.lists[c := Unmarked(b, AllClear(n), n) + v.lists[c]]
    ensures forall o: Obj :: OnList(t, v', o) <==> OnList(s, v, o) || (o.blk == b && IsObj(t.blocks, o))
  {
    assert ListOk(s, c, v.lists[c]);
    forall o: Obj ensures OnList(t, v', o) <==> OnList(s, v, o) || (o.blk == b && IsObj(t.blocks, o)) {
      if o.blk == b { assert o !in v.lists[c] && (Freed(b, AllClear(n), n, o) <==> IsObj(t.blocks, o)); }
    }
  }

  lemma NewInQueue(s: Space, t: Space, v: View, v': View, b: nat, c: Class)
    requires Lists(s, v) && b !in s.blocks && b in t.blocks && t.blocks == s.blocks[b := t.blocks[b]]
      && t.blocks[b].Cls() == c && v'.queues == v.queues
    ensures forall q :: InQueue(t, v', q) <==> InQueue(s, v, q)
  {
    if c in v.queues { assert QueueOk(s, c, v.queues[c]); }
  }

  // ---- Marking and the end of a collection ----

  /** What holds while a collection is under way: queues may disagree with the mark bits. */
  ghost predicate Marking(s: Space, v: View) {
    && BlocksOk(s) && Lists(s, v) && HeldOk(s, v)
    && (forall o :: o in v.held && Uncollectable(s, o) ==> Marked(s.blocks, o))
  }

  predicate Uncollectable(s: Space, o: Obj) {
    o.blk in s.blocks && s.blocks[o.blk].kind < |s.kinds| && s.kinds[s.blocks[o.blk].kind].uncollectable
  }

  lemma InvMeansMarking(s: Space, v: View)
    requires Inv(s, v)
    ensures Marking(s, v)
  {
    forall o | o in v.held && Uncollectable(s, o) ensures Marked(s.blocks, o) {
      assert ProtectedIn(s, v, o);
    }
  }

  /** GC_set_mark_bit and GC_clear_mark_bit, keeping the count of set bits. */
  function WithMark(blk: Block, i: nat, m: bool): Block
    requires i < |blk.marks|
  {
    if blk.marks[i] == m then blk
    else blk.(marks := blk.marks[i := m], nMarks := if m then blk.nMarks + 1 else blk.nMarks - 1)
  }

  lemma WithMarkOk(kinds: seq<Kind>, blk: Block, i: nat, m: bool)
    requires BlockOk(kinds, blk) && i < |blk.marks|
    ensures BlockOk(kinds, WithMark(blk, i, m))
  {
    CountTrueUpdate(blk.marks, i, m);
  }

  // ---- The mark count of uncollectable blocks in the two builds ----

  const WORD_LIMIT := 0x1_0000_0000_0000_0000

  /** The counter as stored, in an unsigned word. */
  function StoredCount(blk: Block): nat {
    blk.nMarks % WORD_LIMIT
  }

  /** GC_block_empty. */
  predicate LooksEmpty(blk: Block) {
    StoredCount(blk) == 0
  }

  /** GC_block_nearly_full. */
  predicate LooksNearlyFull(blk: Block) {
    StoredCount(blk) > 7 * |blk.marks| / 8
  }

  /** Any sequence of GC_set_mark_bit and GC_clear_mark_bit calls on objects of the block. */
  function WithMarks(blk: Block, ops: seq<(nat, bool)>): (r: Block)
    ensures |r.marks| == |blk.marks|
    decreases |ops|
  {
    if ops == [] then blk
    else
      var (i, m) := ops[0];
      WithMarks(if i < |blk.marks| then WithMark(blk, i, m) else blk, ops[1..])
  }

  /** How far the count is off stays as GC_set_hdr_marks left it. */
  lemma {:induction false} CountStaysOff(blk: Block, ops: seq<(nat, bool)>, off: int)
    requires blk.nMarks == CountTrue(blk.marks) - off
    ensures WithMarks(blk, ops).nMarks == CountTrue(WithMarks(blk, ops).marks) - off
    decreases |ops|
  {
    if ops != [] {
      var (i, m) := ops[0];
      if i < |blk.marks| {
        CountTrueUpdate(blk.marks, i, m);
        CountStaysOff(WithMark(blk, i, m), ops[1..], off);
      } else {
        CountStaysOff(blk, ops[1..], off);
      }
    }
  }

  lemma {:induction false} CountAtMost(marks: seq<bool>)
    ensures CountTrue(marks) <= |marks|
  {
    if marks != [] { CountAtMost(marks[1..]); }
  }

  /**
    An uncollectable block, however its objects were freed and marked since GC_set_hdr_marks: with
    one mark bit per granule it looks empty exactly if no object is marked. With one per object it
    looks empty exactly if one object is marked, so that a block in use gets freed; and with no
    object marked it looks nearly full, so that it is never freed and never swept.
   */
  lemma LooksEmptyExactly(blk: Block, ops: seq<(nat, bool)>, perObject: bool)
    requires 0 < |blk.marks| <= HBLK_GRANULES
    ensures var r := WithMarks(SetHdrMarks(blk, perObject), ops);
            && (LooksEmpty(r) <==> CountTrue(r.marks) == if perObject then 1 else 0)
            && (perObject && CountTrue(r.marks) == 0 ==> LooksNearlyFull(r))
            && (!perObject ==> (LooksNearlyFull(r) <==> CountTrue(r.marks) > 7 * |r.marks| / 8))
  {
    var start := SetHdrMarks(blk, perObject);
    CountAll(|blk.marks|, true);
    CountStaysOff(start, ops, if perObject then 1 else 0);
    CountAtMost(WithMarks(start, ops).marks);
  }

  /** Freeing the objects from `k` on, all but the last of `n`. */
  function FreeAllButLast(k: nat, n: nat): seq<(nat, bool)>
    decreases n - k
  {
    if k + 1 < n then [(k, false)] + FreeAllButLast(k + 1, n) else []
  }

  lemma {:induction false} FreedOneByOne(blk: Block, k: nat)
    requires k < |blk.marks| && forall j :: k <= j < |blk.marks| ==> blk.marks[j]
    ensures var r := WithMarks(blk, FreeAllButLast(k, |blk.marks|));
            r.nMarks == blk.nMarks - (|blk.marks| - 1 - k) && r.marks[|blk.marks| - 1]
    decreases |blk.marks| - k
  {
    if k + 1 < |blk.marks| {
      var rest := FreeAllButLast(k + 1, |blk.marks|);
      assert ([(k, false)] + rest)[1..] == rest;
      FreedOneByOne(WithMark(blk, k, false), k + 1);
    }
  }

  /** For instance, freeing all but the last object of a new block of any size makes it look empty. */
  lemma PerObjectCountTooLow(kind: nat, gran: nat)
    requires gran > 0
    ensures var n := ObjCount(gran);
            var r := WithMarks(SetHdrMarks(Block(kind, gran, AllClear(n), 0, 0, 0), true), FreeAllButLast(0, n));
            LooksEmpty(r) && r.marks[n - 1]
  {
    FreedOneByOne(SetHdrMarks(Block(kind, gran, AllClear(ObjCount(gran)), 0, 0, 0), true), 0);
  }

  /** Setting a mark bit is safe at any time, between sweeps or while marking. */
  method SetMark(s: Space, o: Obj, ghost v: View) returns (t: Space)
    requires Marking(s, v) && IsObj(s.blocks, o)
    ensures Marking(t, v) && (Inv(s, v) ==> Inv(t, v))
    ensures t == s.(blocks := t.blocks) && t.blocks.Keys == s.blocks.Keys
    ensures forall x :: Marked(t.blocks, x) <==> Marked(s.blocks, x) || x == o
    ensures forall b :: b in s.blocks ==> t.blocks[b].Cls() == s.blocks[b].Cls()
  {
    t := s.(blocks := s.blocks[o.blk := WithMark(s.blocks[o.blk], o.idx, true)]);
    MarkKeepsLists(s, t, v, o, true);
    MarkKeepsRest(s, t, v, o);
  }

  lemma MarkKeepsLists(s: Space, t: Space, v: View, o: Obj, m: bool)
    requires BlocksOk(s) && Lists(s, v) && IsObj(s.blocks, o)
      && t == s.(blocks := s.blocks[o.blk := WithMark(s.blocks[o.blk], o.idx, m)])
    ensures BlocksOk(t) && Lists(t, v)
    ensures forall x :: Marked(t.blocks, x) <==> if x == o then m else Marked(s.blocks, x)
    ensures forall x :: OnList(t, v, x) <==> OnList(s, v, x)
    ensures forall x :: IsObj(t.blocks, x) <==> IsObj(s.blocks, x)
  {
    assert BlockOk(s.kinds, s.blocks[o.blk]);
    WithMarkOk(s.kinds, s.blocks[o.blk], o.idx, m);
    HeaderKeepsLists(s, t, v, o.blk);
  }

  lemma MarkKeepsRest(s: Space, t: Space, v: View, o: Obj)
    requires Marking(s, v) && t.kinds == s.kinds && t.blocks.Keys == s.blocks.Keys
    requires forall b :: b in s.blocks ==> t.blocks[b].Cls() == s.blocks[b].Cls()
    requires forall x :: Marked(t.blocks, x) <==> Marked(s.blocks, x) || x == o
    requires forall x :: IsObj(t.blocks, x) <==> IsObj(s.blocks, x)
    requires forall x :: OnList(t, v, x) <==> OnList(s, v, x)
    requires BlocksOk(t) && Lists(t, v)
    ensures Marking(t, v) && (Inv(s, v) ==> Inv(t, v))
  {
    forall b ensures InQueue(t, v, b) <==> InQueue(s, v, b) {
    }
    if Inv(s, v) {
      forall x ensures ProtectedIn(t, v, x) {
        assert ProtectedIn(s, v, x);
      }
    }
  }

  /** GC_clear_hdr_marks. */
  function Cleared(blk: Block): Block {
    blk.(marks := AllClear(|blk.marks|), nMarks := 0)
  }

  ghost predicate AllQueuesEmpty(v: View) {
    forall c :: c in v.queues ==> v.queues[c] == []
  }

  /** GC_clear_marks: clear the mark bits of all blocks but uncollectable ones. The blocks are visited in some order. */
  method ClearMarks(s: Space, order: seq<nat>, ghost v: View) returns (t: Space)
    requires Marking(s, v) && forall b :: b in order <==> b in s.blocks
    ensures Marking(t, v) && t == s.(blocks := t.blocks) && t.blocks.Keys == s.blocks.Keys
    ensures Inv(s, v) && AllQueuesEmpty(v) ==> Inv(t, v)
    ensures forall o :: Marked(t.blocks, o) <==> Marked(s.blocks, o) && Uncollectable(s, o)
    ensures forall b :: b in s.blocks ==> t.blocks[b].Cls() == s.blocks[b].Cls()
  {
    t := s;
    for i := 0 to |order|
      invariant Marking(t, v) && ClearedFor(s, t, order[..i])
    {
      assert order[..i + 1] == order[..i] + [order[i]] && order[i] in order;
      t := ClearBlockMarks(t, order[i], v, s, order[..i]);
    }
    assert order[..|order|] == order;
    if Inv(s, v) && AllQueuesEmpty(v) { ClearKeepsInv(s, t, v); }
  }

  /** The mark bits of the collectable ones of the blocks `done` are clear. */
  ghost predicate ClearedFor(s: Space, t: Space, done: seq<nat>) {
    && SameButMarks(s, t)
    && forall o :: Marked(t.blocks, o) <==> Marked(s.blocks, o) && (Uncollectable(s, o) || o.blk !in done)
  }

  /** clear_marks_for_block. */
  method ClearBlockMarks(s: Space, b: nat, ghost v: View, ghost s0: Space, ghost done: seq<nat>) returns (t: Space)
    requires Marking(s, v) && b in s.blocks && ClearedFor(s0, s, done)
    ensures Marking(t, v) && ClearedFor(s0, t, done + [b])
  {
    assert BlockOk(s.kinds, s.blocks[b]);
    t := s;
    if !s.kinds[s.blocks[b].kind].uncollectable {
      t := s.(blocks := s.blocks[b := Cleared(s.blocks[b])]);
      ClearKeepsMarking(s, t, v, b);
    }
    assert forall o: Obj :: o.blk == b ==> (Uncollectable(s0, o) <==> s.kinds[s.blocks[b].kind].uncollectable);
  }

  lemma ClearKeepsMarking(s: Space, t: Space, v: View, b: nat)
    requires Marking(s, v) && b in s.blocks && s.blocks[b].kind < |s.kinds| && !s.kinds[s.blocks[b].kind].uncollectable
    requires t == s.(blocks := s.blocks[b := Cleared(s.blocks[b])])
    ensures Marking(t, v)
    ensures forall o :: Marked(t.blocks, o) <==> Marked(s.blocks, o) && o.blk != b
    ensures forall o :: IsObj(t.blocks, o) <==> IsObj(s.blocks, o)
  {
    assert BlockOk(s.kinds, s.blocks[b]);
    CountAll(|s.blocks[b].marks|, false);
    HeaderKeepsLists(s, t, v, b);
    assert forall x :: OnList(t, v, x) <==> OnList(s, v, x);
  }

  lemma ClearKeepsInv(s: Space, t: Space, v: View)
    requires Inv(s, v) && AllQueuesEmpty(v) && Marking(t, v) && t.kinds == s.kinds && t.blocks.Keys == s.blocks.Keys
    requires forall b :: b in s.blocks ==> t.blocks[b].Cls() == s.blocks[b].Cls()
    requires forall o :: Marked(t.blocks, o) <==> Marked(s.blocks, o) && Uncollectable(s, o)
    requires forall o :: IsObj(t.blocks, o) <==> IsObj(s.blocks, o)
    ensures Inv(t, v)
  {
    assert forall b :: !InQueue(t, v, b) && !InQueue(s, v, b);
    forall o ensures ProtectedIn(t, v, o) {
      assert ProtectedIn(s, v, o);
      assert OnList(t, v, o) <==> OnList(s, v, o);
    }
  }

  /** GC_clear_fl_marks for one free list: its objects are unmarked. */
  method ClearListMarks(s: Space, c: Class, ghost v: View) returns (t: Space)
    requires BlocksOk(s) && Lists(s, v) && SmallClass(s.kinds, c)
    ensures BlocksOk(t) && Lists(t, v) && SameButMarks(s, t)
    ensures c in v.lists && forall x :: Marked(t.blocks, x) <==> Marked(s.blocks, x) && x !in v.lists[c]
  {
    t := s;
    var p := s.free[c];
    ghost var l := v.lists[c];
    ghost var i := 0;
    assert ListOk(s, c, l);
    assert l[0..] == l;
    while p != NULL
      invariant i <= |l| && Linked(s.mem, p, l[i..])
      invariant BlocksOk(t) && Lists(t, v) && SameButMarks(s, t)
      invariant forall x :: Marked(t.blocks, x) <==> Marked(s.blocks, x) && x !in l[..i]
      decreases |l| - i
    {
      assert p == l[i] && p in l && l[..i + 1] == l[..i] + [p] && l[i..][1..] == l[i + 1..];
      assert IsObj(t.blocks, p);
      ghost var t0 := t;
      t := t.(blocks := t.blocks[p.blk := WithMark(t.blocks[p.blk], p.idx, false)]);
      MarkKeepsLists(t0, t, v, p, false);
      p := s.mem[p].link;
      i := i + 1;
    }
    assert l[..i] == l;
  }

  /** Only mark bits differ. */
  ghost predicate SameButMarks(s: Space, t: Space) {
    && t == s.(blocks := t.blocks) && t.blocks.Keys == s.blocks.Keys
    && (forall b :: b in s.blocks ==> t.blocks[b].Cls() == s.blocks[b].Cls())
    && (forall o :: IsObj(t.blocks, o) <==> IsObj(s.blocks, o))
  }

  /** Object `o` is on the free list of a class before `(kind, gran)`. */
  ghost predicate ListedBefore(s: Space, v: View, o: Obj, kind: nat, gran: nat) {
    OnList(s, v, o) && ClassBefore(s.blocks[o.blk].Cls(), kind, gran)
  }

  /** Free lists before `(kind, gran)` have been unmarked. */
  ghost predicate UnmarkedBefore(s: Space, t: Space, v: View, kind: nat, gran: nat) {
    && SameButMarks(s, t)
    && forall x :: Marked(t.blocks, x) <==> Marked(s.blocks, x) && !ListedBefore(s, v, x, kind, gran)
  }

  /** The loop of GC_finish_collection over all free lists. */
  method ClearAllListMarks(s: Space, ghost v: View) returns (t: Space)
    requires BlocksOk(s) && Lists(s, v)
    ensures BlocksOk(t) && Lists(t, v) && SameButMarks(s, t)
    ensures forall x :: Marked(t.blocks, x) <==> Marked(s.blocks, x) && !OnList(s, v, x)
  {
    t := s;
    var kind := 0;
    while kind < |s.kinds|
      invariant kind <= |s.kinds| && BlocksOk(t) && Lists(t, v) && UnmarkedBefore(s, t, v, kind, 0)
    {
      t := ClearKindMarks(t, kind, v, s);
      kind := kind + 1;
    }
    ListedEnd(s, v);
  }

  method ClearKindMarks(s: Space, kind: nat, ghost v: View, ghost s0: Space) returns (t: Space)
    requires BlocksOk(s) && Lists(s, v) && kind < |s.kinds| && Lists(s0, v) && UnmarkedBefore(s0, s, v, kind, 0)
    ensures BlocksOk(t) && Lists(t, v) && UnmarkedBefore(s0, t, v, kind + 1, 0)
  {
    t := s;
    var gran := 1;
    ListedStart(s0, v, kind, kind + 1, MAXOBJGRANULES + 1);
    while gran <= MAXOBJGRANULES
      invariant 1 <= gran <= MAXOBJGRANULES + 1 && BlocksOk(t) && Lists(t, v) && UnmarkedBefore(s0, t, v, kind, gran)
    {
      ListedStep(s0, v, kind, gran);
      t := ClearListMarks(t, Class(kind, gran), v);
      gran := gran + 1;
    }
  }

  lemma ListedStart(s: Space, v: View, kind: nat, next: nat, limit: nat)
    requires Lists(s, v) && next == kind + 1 && limit == MAXOBJGRANULES + 1
    ensures forall x :: ListedBefore(s, v, x, kind, 1) <==> ListedBefore(s, v, x, kind, 0)
    ensures forall x :: ListedBefore(s, v, x, next, 0) <==> ListedBefore(s, v, x, kind, limit)
  {
  }

  lemma ListedStep(s: Space, v: View, kind: nat, gran: nat)
    requires Lists(s, v) && SmallClass(s.kinds, Class(kind, gran))
    ensures forall x :: ListedBefore(s, v, x, kind, gran + 1) <==>
      ListedBefore(s, v, x, kind, gran) || x in v.lists[Class(kind, gran)]
  {
    assert ListOk(s, Class(kind, gran), v.lists[Class(kind, gran)]);
  }

  lemma ListedEnd(s: Space, v: View)
    requires Lists(s, v)
    ensures forall x :: ListedBefore(s, v, x, |s.kinds|, 0) <==> OnList(s, v, x)
  {
  }

  /** GC_clear_fl_links, or just dropping the list for pointer-free kinds: the free list becomes empty. */
  method DropList(s: Space, c: Class, ghost v: View) returns (t: Space, ghost v': View)
    requires BlocksOk(s) && Lists(s, v) && SmallClass(s.kinds, c)
    ensures BlocksOk(t) && Lists(t, v') && c in v.lists && v' == v.(lists := v.lists[c := []])
    ensures t == s.(free := t.free, mem := t.mem) && OnlyLinks(s.mem, t.mem, v.lists[c])
  {
    ghost var l := v.lists[c];
    assert ListOk(s, c, l);
    t := s.(free := s.free[c := NULL]);
    if s.kinds[c.kind].hasPointers {
      var mem := ClearLinks(s.mem, s.free[c], l);
      t := t.(mem := mem);
    }
    v' := v.(lists := v.lists[c := []]);
    assert ListOk(t, c, []);
    OthersKept(s, t, v, c, []);
  }

  /** Memory changed at most in the links of the objects `l`. */
  ghost predicate OnlyLinks(mem: map<Obj, Cell>, mem': map<Obj, Cell>, l: seq<Obj>) {
    mem'.Keys == mem.Keys && forall o :: o in mem && o !in l ==> mem'[o] == mem[o]
  }

  method ClearLinks(mem: map<Obj, Cell>, head: Obj, ghost l: seq<Obj>) returns (mem': map<Obj, Cell>)
    requires Linked(mem, head, l) && NoDup(l) && forall o :: o in l ==> o in mem
    ensures OnlyLinks(mem, mem', l)
  {
    mem' := mem;
    var next := head;
    ghost var i := 0;
    assert l[0..] == l;
    while next != NULL
      invariant i <= |l| && Linked(mem, next, l[i..]) && OnlyLinks(mem, mem', l)
      invariant forall k :: i <= k < |l| ==> mem'[l[k]] == mem[l[k]]
      decreases |l| - i
    {
      assert next == l[i] && l[i..][1..] == l[i + 1..];
      var link := mem'[next].link;
      mem' := mem'[next := mem'[next].(link := NULL)];
      next := link;
      i := i + 1;
    }
  }

  /** No free list of a class before `(kind, gran)` has objects. */
  ghost predicate ListsEmptyBefore(lists: map<Class, seq<Obj>>, kind: nat, gran: nat) {
    forall c :: c in lists && ClassBefore(c, kind, gran) ==> lists[c] == []
  }

  /** Free lists were dropped: what the program holds is untouched. */
  ghost predicate OnlyDropped(s: Space, t: Space, v: View, v': View) {
    && t == s.(free := t.free, mem := t.mem) && v' == v.(lists := v'.lists) && t.mem.Keys == s.mem.Keys
    && (forall o :: OnList(t, v', o) ==> OnList(s, v, o))
    && (forall o :: o in s.mem && !OnList(s, v, o) ==> t.mem[o] == s.mem[o])
  }

  lemma DropIsOnlyDropped(s: Space, t: Space, u: Space, v: View, w: View, x: View, c: Class)
    requires OnlyDropped(s, t, v, w) && Lists(t, w) && c in w.lists && x == w.(lists := w.lists[c := []])
    requires u == t.(free := u.free, mem := u.mem) && OnlyLinks(t.mem, u.mem, w.lists[c])
    ensures OnlyDropped(s, u, v, x)
  {
    assert ListOk(t, c, w.lists[c]);
    assert forall o :: o in w.lists[c] ==> OnList(t, w, o);
  }

  /** The first loop of GC_start_reclaim: all free lists become empty. */
  method DropLists(s: Space, ghost v: View) returns (t: Space, ghost v': View)
    requires BlocksOk(s) && Lists(s, v)
    ensures BlocksOk(t) && Lists(t, v') && OnlyDropped(s, t, v, v') && forall o :: !OnList(t, v', o)
  {
    t, v' := s, v;
    var kind := 0;
    while kind < |s.kinds|
      invariant kind <= |s.kinds| && BlocksOk(t) && Lists(t, v') && OnlyDropped(s, t, v, v')
      invariant ListsEmptyBefore(v'.lists, kind, 0)
    {
      t, v' := DropListsOfKind(t, kind, v', s, v);
      kind := kind + 1;
    }
    assert forall c :: c in v'.lists ==> v'.lists[c] == [];
  }

  method DropListsOfKind(s: Space, kind: nat, ghost v: View, ghost s0: Space, ghost v0: View)
      returns (t: Space, ghost v': View)
    requires BlocksOk(s) && Lists(s, v) && kind < |s.kinds| && OnlyDropped(s0, s, v0, v)
      && ListsEmptyBefore(v.lists, kind, 0)
    ensures BlocksOk(t) && Lists(t, v') && OnlyDropped(s0, t, v0, v') && ListsEmptyBefore(v'.lists, kind + 1, 0)
  {
    t, v' := s, v;
    var gran := 1;
    ListGranRange(s, v, kind);
    while gran <= MAXOBJGRANULES
      invariant 1 <= gran <= MAXOBJGRANULES + 1 && BlocksOk(t) && Lists(t, v') && OnlyDropped(s0, t, v0, v')
      invariant ListsEmptyBefore(v'.lists, kind, gran)
    {
      ghost var t0, w := t, v';
      t, v' := DropList(t, Class(kind, gran), v');
      DropIsOnlyDropped(s0, t0, t, v0, w, v', Class(kind, gran));
      EmptyListStep(w.lists, v'.lists, kind, gran);
      gran := gran + 1;
    }
    ListGranRange(t, v', kind);
  }

  lemma EmptyListStep(lists: map<Class, seq<Obj>>, lists': map<Class, seq<Obj>>, kind: nat, gran: nat)
    requires ListsEmptyBefore(lists, kind, gran) && lists' == lists[Class(kind, gran) := []]
    ensures ListsEmptyBefore(lists', kind, gran + 1)
  {
    forall c | c in lists' && ClassBefore(c, kind, gran + 1) ensures lists'[c] == [] {
      if c.kind == kind && c.gran == gran { assert c == Class(kind, gran); }
    }
  }

  lemma ListGranRange(s: Space, v: View, kind: nat)
    requires Lists(s, v)
    ensures ListsEmptyBefore(v.lists, kind, 0) ==> ListsEmptyBefore(v.lists, kind, 1)
    ensures ListsEmptyBefore(v.lists, kind, MAXOBJGRANULES + 1) ==> ListsEmptyBefore(v.lists, kind + 1, 0)
  {
    assert forall c :: c in v.lists ==> 0 < c.gran <= MAXOBJGRANULES;
  }

  /** Worth sweeping later: a small-object block with marked objects, not nearly full. */
  predicate WorthQueueing(blk: Block) {
    !blk.Large() && blk.nMarks != 0 && blk.nMarks <= 7 * |blk.marks| / 8
  }

  /**
    The state of the walk over all blocks: visited blocks without marked objects are gone, those
    worth it are queued.
   */
  ghost predicate Walked(s: Space, t: Space, v: View, v': View, done: seq<nat>) {
    && t == s.(blocks := t.blocks, queue := t.queue) && v' == v.(queues := v'.queues)
    && (forall b :: b in t.blocks <==> b in s.blocks && !(b in done && s.blocks[b].nMarks == 0))
    && (forall b :: b in t.blocks ==> t.blocks[b] == s.blocks[b].(next := t.blocks[b].next))
    && (forall b :: b in t.blocks ==> (InQueue(t, v', b) <==> b in done && WorthQueueing(s.blocks[b])))
  }

  /** GC_reclaim_block applied to all blocks, in some order. */
  method ReclaimBlocks(s: Space, order: seq<nat>, ghost v: View) returns (t: Space, ghost v': View)
    requires BlocksOk(s) && Lists(s, v) && AllQueuesEmpty(v) && (forall o :: !OnList(s, v, o))
    requires NoDup(order) && forall b :: b in order <==> b in s.blocks
    ensures BlocksOk(t) && Lists(t, v') && Walked(s, t, v, v', order)
  {
    t, v' := s, v;
    assert forall c :: c in v.queues ==> v.queues[c] == [];
    for i := 0 to |order|
      invariant BlocksOk(t) && Lists(t, v') && Walked(s, t, v, v', order[..i])
    {
      assert order[..i + 1] == order[..i] + [order[i]];
      assert order[i] in order && order[i] !in order[..i];
      t, v' := ReclaimBlock(t, order[i], v', s, v, order[..i]);
    }
    assert order[..|order|] == order;
  }

  /** GC_reclaim_block. */
  method ReclaimBlock(s: Space, b: nat, ghost v: View, ghost s0: Space, ghost v0: View, ghost done: seq<nat>)
      returns (t: Space, ghost v': View)
    requires BlocksOk(s) && Lists(s, v) && (forall o :: !OnList(s0, v0, o)) && Walked(s0, s, v0, v, done)
    requires b in s0.blocks && b !in done
    ensures BlocksOk(t) && Lists(t, v') && Walked(s0, t, v0, v', done + [b])
  {
    var blk := s.blocks[b];
    assert BlockOk(s.kinds, blk);
    t, v' := s, v;
    if blk.Large() {
      CountZero(blk.marks);
      if !blk.marks[0] {
        t := s.(blocks := s.blocks - {b});
        GoneKeepsLists(s, t, v, s0, v0, b, done);
      }
    } else if blk.nMarks == 0 {
      t := s.(blocks := s.blocks - {b});
      GoneKeepsLists(s, t, v, s0, v0, b, done);
    } else if blk.nMarks <= 7 * |blk.marks| / 8 {
      t, v' := Enqueue(s, b, v);
      EnqueueWalked(s, t, v, v', s0, v0, b, done);
    }
  }

  lemma GoneKeepsLists(s: Space, t: Space, v: View, s0: Space, v0: View, b: nat, done: seq<nat>)
    requires BlocksOk(s) && Lists(s, v) && (forall o :: !OnList(s0, v0, o)) && Walked(s0, s, v0, v, done)
    requires b in s.blocks && b !in done && s.blocks[b].nMarks == 0 && t == s.(blocks := s.blocks - {b})
    ensures BlocksOk(t) && Lists(t, v) && Walked(s0, t, v0, v, done + [b])
  {
    GoneLists(s, t, v, s0, v0, b);
    GoneQueues(s, t, v, b);
    assert forall x :: x in t.blocks ==> (InQueue(t, v, x) <==> InQueue(s, v, x));
  }

  lemma GoneLists(s: Space, t: Space, v: View, s0: Space, v0: View, b: nat)
    requires Lists(s, v) && (forall o :: !OnList(s0, v0, o)) && v.lists == v0.lists && t == s.(blocks := s.blocks - {b})
    requires forall x :: x in s.blocks ==> x in s0.blocks && s.blocks[x].Cls() == s0.blocks[x].Cls()
    ensures forall d {:trigger ListOk(t, d, v.lists[d])} :: d in v.lists ==> ListOk(t, d, v.lists[d])
  {
    forall d | d in v.lists ensures ListOk(t, d, v.lists[d]) {
      assert ListOk(s, d, v.lists[d]);
      forall o | o in v.lists[d] ensures false {
        assert OnList(s0, v0, o);
      }
    }
  }

  lemma GoneQueues(s: Space, t: Space, v: View, b: nat)
    requires Lists(s, v) && !InQueue(s, v, b) && b in s.blocks && t == s.(blocks := s.blocks - {b})
    ensures forall d {:trigger QueueOk(t, d, v.queues[d])} :: d in v.queues ==> QueueOk(t, d, v.queues[d])
  {
    forall d | d in v.queues ensures QueueOk(t, d, v.queues[d]) {
      assert QueueOk(s, d, v.queues[d]);
      assert b !in v.queues[d];
      QueueKept(s, t, d, v.queues[d]);
    }
  }

  /** Put a block at the front of the queue of its class. */
  method Enqueue(s: Space, b: nat, ghost v: View) returns (t: Space, ghost v': View)
    requires BlocksOk(s) && Lists(s, v) && b in s.blocks && !s.blocks[b].Large() && !InQueue(s, v, b)
    ensures BlocksOk(t) && Lists(t, v')
    ensures b in t.blocks && t == s.(blocks := s.blocks[b := s.blocks[b].(next := t.blocks[b].next)], queue := t.queue)
    ensures var c := s.blocks[b].Cls(); c in v.queues && v' == v.(queues := v.queues[c := [b] + v.queues[c]])
  {
    assert BlockOk(s.kinds, s.blocks[b]);
    var c := s.blocks[b].Cls();
    t := s.(blocks := s.blocks[b := s.blocks[b].(next := s.queue[c])], queue := s.queue[c := b]);
    v' := v.(queues := v.queues[c := [b] + v.queues[c]]);
    EnqueueLists(s, t, v, b);
    EnqueueQueues(s, t, v, v', b, c);
  }

  lemma EnqueueLists(s: Space, t: Space, v: View, b: nat)
    requires Lists(s, v) && b in s.blocks && t.kinds == s.kinds && t.free == s.free && t.mem == s.mem
    requires b in t.blocks && t.blocks == s.blocks[b := s.blocks[b].(next := t.blocks[b].next)]
    ensures forall d {:trigger ListOk(t, d, v.lists[d])} :: d in v.lists ==> ListOk(t, d, v.lists[d])
  {
    forall d | d in v.lists ensures ListOk(t, d, v.lists[d]) {
      assert ListOk(s, d, v.lists[d]);
    }
  }

  lemma EnqueueQueues(s: Space, t: Space, v: View, v': View, b: nat, c: Class)
    requires Lists(s, v) && b in s.blocks && s.blocks[b].Cls() == c && c in v.queues && c in s.queue
      && !InQueue(s, v, b)
    requires t == s.(blocks := s.blocks[b := s.blocks[b].(next := s.queue[c])], queue := s.queue[c := b])
    requires v' == v.(queues := v.queues[c := [b] + v.queues[c]])
    ensures forall d {:trigger QueueOk(t, d, v'.queues[d])} :: d in v'.queues ==> QueueOk(t, d, v'.queues[d])
  {
    forall d | d in v'.queues ensures QueueOk(t, d, v'.queues[d]) {
      assert QueueOk(s, d, v.queues[d]);
      assert b !in v.queues[d];
      QueuedFrame(s.blocks, t.blocks, s.queue[d], v.queues[d]);
      assert ([b] + v.queues[c])[1..] == v.queues[c];
    }
  }

  lemma EnqueueWalked(s: Space, t: Space, v: View, v': View, s0: Space, v0: View, b: nat, done: seq<nat>)
    requires Walked(s0, s, v0, v, done) && b in s.blocks && b !in done && WorthQueueing(s.blocks[b])
    requires b in t.blocks && t == s.(blocks := s.blocks[b := s.blocks[b].(next := t.blocks[b].next)], queue := t.queue)
    requires var c := s.blocks[b].Cls(); c in v.queues && v' == v.(queues := v.queues[c := [b] + v.queues[c]])
    ensures Walked(s0, t, v0, v', done + [b])
  {
    forall x | x in t.blocks ensures InQueue(t, v', x) <==> InQueue(s, v, x) || x == b {
    }
  }

  /** GC_start_reclaim: free lists and queues are emptied, then every block is freed, queued or left alone. */
  method StartReclaim(s: Space, order: seq<nat>, ghost v: View) returns (t: Space, ghost v': View)
    requires BlocksOk(s) && Lists(s, v) && NoDup(order) && forall b :: b in order <==> b in s.blocks
    ensures BlocksOk(t) && Lists(t, v') && v'.held == v.held && v'.swept == v.swept && Reclaimed(s, t, v, v')
  {
    var u;
    ghost var w;
    u, w := DropLists(s, v);
    t := u.(queue := map c | c in u.queue :: 0);
    v' := w.(queues := map c | c in w.queues :: []);
    SameLists(u, t, w, v');
    assert forall o :: OnList(t, v', o) <==> OnList(u, w, o);
    ghost var t0, v0 := t, v';
    t, v' := ReclaimBlocks(t, order, v');
    ReclaimDone(s, t0, t, v, v0, v', order);
  }

  /** What GC_start_reclaim does to blocks and memory. */
  ghost predicate Reclaimed(s: Space, t: Space, v: View, v': View) {
    && t.kinds == s.kinds && t.gcNo == s.gcNo && (forall o :: !OnList(t, v', o))
    && (forall b :: b in t.blocks <==> b in s.blocks && s.blocks[b].nMarks != 0)
    && (forall b :: b in t.blocks ==> t.blocks[b] == s.blocks[b].(next := t.blocks[b].next))
    && (forall b :: b in t.blocks ==> (InQueue(t, v', b) <==> WorthQueueing(t.blocks[b])))
    && (forall o :: o in s.mem && !OnList(s, v, o) ==> o in t.mem && t.mem[o] == s.mem[o])
  }

  lemma ReclaimDone(s: Space, t0: Space, t: Space, v: View, v0: View, v': View, order: seq<nat>)
    requires Walked(t0, t, v0, v', order) && (forall b :: b in order <==> b in t0.blocks)
      && (forall o :: !OnList(t0, v0, o))
    requires t0 == s.(free := t0.free, mem := t0.mem, queue := t0.queue) && t0.mem.Keys == s.mem.Keys
    requires forall o :: o in s.mem && !OnList(s, v, o) ==> t0.mem[o] == s.mem[o]
    ensures Reclaimed(s, t, v, v')
  {
    forall o ensures !OnList(t, v', o) {
      assert !OnList(t0, v0, o);
    }
    assert forall b :: b in t.blocks ==> WorthQueueing(t.blocks[b]) == WorthQueueing(s.blocks[b]);
  }

  /** The objects held after a collection: those that were and are marked. */
  function StillHeld(s: Space, held: set<Obj>): set<Obj> {
    set o | o in held && Marked(s.blocks, o)
  }

  /**
    The end of a collection (GC_stopped_mark's count of collections, then GC_finish_collection
    without finalization). Marked objects, other than those on free lists, keep their block, their
    mark bit and their contents; blocks without any are freed.
   */
  method FinishCollection(s: Space, order: seq<nat>, ghost v: View) returns (t: Space, ghost v': View)
    requires Marking(s, v) && NoDup(order) && forall b :: b in order <==> b in s.blocks
    ensures Inv(t, v') && v'.held == StillHeld(s, v.held) && v'.swept == {} && (forall o :: !OnList(t, v', o))
    ensures t.kinds == s.kinds && t.gcNo == s.gcNo + 1
    ensures forall o :: Marked(s.blocks, o) && !OnList(s, v, o) <==> Marked(t.blocks, o)
    ensures forall b :: b in t.blocks ==>
      b in s.blocks && t.blocks[b].Cls() == s.blocks[b].Cls() && t.blocks[b].nMarks != 0
    ensures forall b :: b in t.blocks ==> (InQueue(t, v', b) <==> WorthQueueing(t.blocks[b]))
    ensures forall o :: o in v.held ==> o in s.mem && o in t.mem && t.mem[o] == s.mem[o]
  {
    t := s.(gcNo := s.gcNo + 1);
    assert Lists(t, v) by {
      SameLists(s, t, v, v);
      OtherQueues(s, t, v, v);
    }
    t := ClearAllListMarks(t, v);
    ghost var u := t;
    ghost var w;
    t, w := StartReclaim(t, order, v);
    v' := w.(held := StillHeld(s, v.held), swept := {});
    HeldApart(u, t, v, w, v');
    FinishKeepsInv(s, u, t, v, v');
  }

  /** Lists and queues do not depend on what the program holds. */
  lemma HeldApart(u: Space, t: Space, v: View, w: View, w': View)
    requires Lists(t, w) && Reclaimed(u, t, v, w) && w'.lists == w.lists && w'.queues == w.queues
    ensures Lists(t, w') && Reclaimed(u, t, v, w')
  {
    SameLists(t, t, w, w');
    OtherQueues(t, t, w, w');
    assert forall o :: OnList(t, w', o) <==> OnList(t, w, o);
    assert forall b :: InQueue(t, w', b) <==> InQueue(t, w, b);
  }

  lemma FinishKeepsInv(s: Space, u: Space, t: Space, v: View, v': View)
    requires Marking(s, v) && SameButMarks(s.(gcNo := s.gcNo + 1), u) && BlocksOk(u)
    requires forall x :: Marked(u.blocks, x) <==> Marked(s.blocks, x) && !OnList(s, v, x)
    requires BlocksOk(t) && Lists(t, v') && Reclaimed(u, t, v, v') && v'.held == StillHeld(s, v.held) && v'.swept == {}
    ensures Inv(t, v')
    ensures forall o :: Marked(s.blocks, o) && !OnList(s, v, o) <==> Marked(t.blocks, o)
    ensures forall o :: o in v.held ==> o in s.mem && o in t.mem && t.mem[o] == s.mem[o]
  {
    forall o ensures Marked(u.blocks, o) <==> Marked(t.blocks, o) {
      if Marked(u.blocks, o) {
        assert BlockOk(u.kinds, u.blocks[o.blk]);
        CountZero(u.blocks[o.blk].marks);
      }
    }
    forall o | o in v'.held ensures Marked(t.blocks, o) {
    }
    forall o ensures ProtectedIn(t, v', o) {
    }
    forall o | o in v.held ensures o in s.mem && !OnList(u, v, o) {
      assert IsObj(s.blocks, o);
    }
  }

  // ---- Calls made by the program ----

  /** Held objects keep their block, class and contents. */
  ghost predicate Untouched(s: Space, t: Space, held: set<Obj>) {
    forall o :: o in held ==>
      IsObj(s.blocks, o) && IsObj(t.blocks, o) && t.blocks[o.blk].Cls() == s.blocks[o.blk].Cls() && o in s.mem
          && o in t.mem && t.mem[o] == s.mem[o]
  }

  /** No object of class `c` is free, or would be if the blocks waiting were swept. */
  ghost predicate NoneToGive(s: Space, v: View, c: Class) {
    forall o :: IsObj(s.blocks, o) && s.blocks[o.blk].Cls() == c ==>
        !OnList(s, v, o) && (InQueue(s, v, o.blk) ==> Marked(s.blocks, o))
  }

  /** Blocks that stay keep their class. */
  predicate SameClasses(blocks: map<nat, Block>, blocks': map<nat, Block>) {
    forall b :: b in blocks && b in blocks' ==> blocks'[b].Cls() == blocks[b].Cls()
  }

  /** The blocks after an allocation: the new one was taken, for class `c`, exactly if it was needed. */
  ghost predicate TookBlock(s: Space, t: Space, c: Class, supply: nat, needed: bool) {
    && (forall b :: b in t.blocks <==> b in s.blocks || (b == supply && supply != 0 && needed))
    && (forall b :: b in t.blocks && b !in s.blocks ==> t.blocks[b].Cls() == c) && SameClasses(s.blocks, t.blocks)
  }

  lemma NullIsEmpty(s: Space, c: Class, l: seq<Obj>)
    requires BlocksOk(s) && ListOk(s, c, l)
    ensures s.free[c] == NULL <==> l == []
  {
    if l != [] { assert l[0] in l; }
  }

  /** Sweeping finds an object to give exactly if there is one. */
  lemma FoundExactly(s: Space, t: Space, v: View, v': View, c: Class)
    requires Inv(s, v) && Inv(t, v') && OnlySwept(s, t, v, v') && NoneForgotten(s, t, v, v') && OnlyQueued(s, t, v, v')
    requires SmallClass(s.kinds, c) && c in t.free && c in t.queue && (t.free[c] != NULL || t.queue[c] == 0)
    ensures t.free[c] == NULL <==> NoneToGive(s, v, c)
    ensures t.free[c] == NULL ==> NoneToGive(t, v', c)
  {
    assert ListOk(t, c, v'.lists[c]);
    if t.free[c] != NULL {
      var o := v'.lists[c][0];
      assert o in v'.lists[c];
      assert IsObj(t.blocks, o) && IsObj(s.blocks, o) && OnList(t, v', o);
    } else {
      EmptyQueue(t, v', c);
      NullIsEmpty(t, c, v'.lists[c]);
    }
  }

  /**
    GC_generic_malloc_inner for a small object: an object from the free list, or else from blocks
    waiting to be swept, or else from the new block `supply`; 0 stands for no block available.
   */
  method Malloc(s: Space, c: Class, supply: nat, ghost v: View) returns (t: Space, o: Obj, ghost v': View)
    requires Inv(s, v) && SmallClass(s.kinds, c) && (supply == 0 || supply !in s.blocks)
    ensures Inv(t, v') && t.kinds == s.kinds && Refilled(s, t, v, v', c, supply, o)
    ensures o == NULL ==> v'.held == v.held && NoneToGive(t, v', c)
    ensures o == NULL <==> NoneToGive(s, v, c) && supply == 0
    ensures o != NULL ==> o !in v.held && v'.held == v.held + {o} && IsObj(t.blocks, o) && t.blocks[o.blk].Cls() == c
    ensures o != NULL ==> o in t.mem && t.mem[o].link == NULL && (t.kinds[c.kind].init ==> t.mem[o].zero)
    ensures supply != 0 && NoneToGive(s, v, c) ==> o.blk == supply
  {
    t, v' := Refill(s, c, supply, v);
    if t.free[c] == NULL { return t, NULL, v'; }
    ghost var u, w := t, v';
    assert OnList(u, w, u.free[c]) by {
      assert ListOk(u, c, w.lists[c]);
      NullIsEmpty(u, c, w.lists[c]);
      assert w.lists[c][0] in w.lists[c];
    }
    t, o, v' := Pop(t, c, v');
    PopKeeps(s, u, t, v, w, v', c, o, supply);
  }

  /** What taking an object off its list leaves as it was after the list was refilled. */
  ghost predicate Refilled(s: Space, t: Space, v: View, v': View, c: Class, supply: nat, o: Obj) {
    && Untouched(s, t, v.held) && FreeStays(s, t, v, v', o) && BitsGrow(s, t)
    && TookBlock(s, t, c, supply, NoneToGive(s, v, c))
  }

  lemma PopKeeps(s: Space, u: Space, t: Space, v: View, w: View, v': View, c: Class, o: Obj, supply: nat)
    requires Refilled(s, u, v, w, c, supply, NULL) && BlocksOk(s) && BlocksOk(t) && o !in v.held
    requires t.blocks == u.blocks && t.kinds == u.kinds && c in w.lists && w.lists[c] != [] && o == w.lists[c][0]
      && v'.lists == w.lists[c := w.lists[c][1..]]
    requires forall x :: x in u.mem && x != o ==> x in t.mem && t.mem[x] == u.mem[x]
    ensures Refilled(s, t, v, v', c, supply, o)
  {
    assert w.lists[c] == [o] + w.lists[c][1..];
    forall x | OnList(u, w, x) && x != o ensures OnList(t, v', x) {
    }
  }

  /** Objects stay on their free lists, and mark bits are only set of objects that get there, but for object `o`. */
  ghost predicate FreeStays(s: Space, t: Space, v: View, v': View, o: Obj) {
    && (forall x :: OnList(s, v, x) && x != o ==> OnList(t, v', x))
    && (forall x :: Marked(t.blocks, x) && x != o ==> Marked(s.blocks, x) || OnList(t, v', x))
  }

  lemma SweptFreeStays(s: Space, t: Space, v: View, v': View)
    requires Inv(s, v) && Inv(t, v') && OnlySwept(s, t, v, v')
    ensures FreeStays(s, t, v, v', NULL)
  {
    forall x | Marked(t.blocks, x) ensures Marked(s.blocks, x) || OnList(t, v', x) {
      assert IsObj(t.blocks, x) && IsObj(s.blocks, x);
    }
  }

  /** GC_allocobj, without its collections, up to the new block. */
  method Reuse(s: Space, c: Class, ghost v: View) returns (t: Space, ghost v': View)
    requires Inv(s, v) && SmallClass(s.kinds, c)
    ensures Inv(t, v') && t.kinds == s.kinds && v'.held == v.held && t.blocks.Keys == s.blocks.Keys
      && SameClasses(s.blocks, t.blocks)
    ensures Untouched(s, t, v.held) && FreeStays(s, t, v, v', NULL) && BitsGrow(s, t)
    ensures c in t.free && (t.free[c] == NULL <==> NoneToGive(s, v, c)) && (t.free[c] == NULL ==> NoneToGive(t, v', c))
  {
    t, v' := s, v;
    SweptNot(s, v);
    if t.free[c] == NULL {
      t, v' := ContinueReclaim(s, c, v);
    }
    HeldObjects(s, t, v, v');
    SweptFreeStays(s, t, v, v');
    FoundExactly(s, t, v, v', c);
  }

  /** GC_allocobj without its collections. */
  method Refill(s: Space, c: Class, supply: nat, ghost v: View) returns (t: Space, ghost v': View)
    requires Inv(s, v) && SmallClass(s.kinds, c) && (supply == 0 || supply !in s.blocks)
    ensures Inv(t, v') && t.kinds == s.kinds && v'.held == v.held && Refilled(s, t, v, v', c, supply, NULL)
    ensures c in t.free && (t.free[c] == NULL <==> NoneToGive(s, v, c) && supply == 0)
    ensures t.free[c] == NULL ==> NoneToGive(t, v', c)
    ensures supply != 0 && NoneToGive(s, v, c) ==> forall x :: OnList(t, v', x) && t.blocks[x.blk].Cls() == c ==>
      x.blk == supply
  {
    t, v' := Reuse(s, c, v);
    if t.free[c] == NULL && supply != 0 {
      ghost var u, w := t, v';
      t, v' := NewBlock(t, c, supply, v');
      NewFreeStays(s, u, t, v, w, v', supply);
      NewOnlyThere(u, t, w, v', c, supply);
    }
  }

  lemma NewOnlyThere(u: Space, t: Space, w: View, v': View, c: Class, b: nat)
    requires Inv(u, w) && NoneToGive(u, w, c) && b in t.blocks && t.blocks == u.blocks[b := t.blocks[b]]
    requires forall o: Obj :: OnList(t, v', o) <==> OnList(u, w, o) || (o.blk == b && IsObj(t.blocks, o))
    ensures forall x :: OnList(t, v', x) && t.blocks[x.blk].Cls() == c ==> x.blk == b
  {
    forall x | OnList(u, w, x) ensures IsObj(u.blocks, x) {
      assert ListOk(u, u.blocks[x.blk].Cls(), w.lists[u.blocks[x.blk].Cls()]);
    }
  }

  lemma NewFreeStays(s: Space, u: Space, t: Space, v: View, w: View, v': View, b: nat)
    requires s.blocks.Keys <= u.blocks.Keys && FreeStays(s, u, v, w, NULL) && BitsGrow(s, u)
    requires b in t.blocks && b !in u.blocks && t.blocks == u.blocks[b := t.blocks[b]]
      && t.kinds == u.kinds
    requires forall o: Obj :: o.blk == b && Marked(t.blocks, o) ==> Uncollectable(t, o)
    requires forall o: Obj :: OnList(t, v', o) <==> OnList(u, w, o) || (o.blk == b && IsObj(t.blocks, o))
    ensures FreeStays(s, t, v, v', NULL) && BitsGrow(s, t)
  {
  }

  lemma HeldObjects(s: Space, t: Space, v: View, v': View)
    requires Inv(s, v) && Inv(t, v') && OnlySwept(s, t, v, v')
    ensures Untouched(s, t, v.held)
  {
    forall o | o in v.held ensures IsObj(s.blocks, o) && IsObj(t.blocks, o) {
      assert o in v'.held;
    }
  }

  /** GC_alloc_large: an object with block `b` to itself, its mark bit set if it is uncollectable. */
  method MallocLarge(s: Space, kind: nat, gran: nat, b: nat, ghost v: View) returns (t: Space, o: Obj, ghost v': View)
    requires Inv(s, v) && kind < |s.kinds| && gran > MAXOBJGRANULES && b > 0 && b !in s.blocks
    ensures Inv(t, v') && t.kinds == s.kinds && Untouched(s, t, v.held)
    ensures o == Obj(b, 0) && o !in v.held && v' == v.(held := v.held + {o}) && IsObj(t.blocks, o)
    ensures b in t.blocks && t.blocks[b].marks == [s.kinds[kind].uncollectable]
    ensures t.blocks == s.blocks[b := t.blocks[b]] && t.blocks[b].Cls() == Class(kind, gran)
    ensures o in t.mem && (s.kinds[kind].init ==> t.mem[o] == Cell(NULL, true))
  {
    o := Obj(b, 0);
    var full := s.kinds[kind].uncollectable;
    var blk := Block(kind, gran, [full], if full then 1 else 0, 0, s.gcNo % 0x10000);
    var mem := PrepareBlock(s.mem, b, 1, s.kinds[kind].init);
    if s.kinds[kind].init { mem := mem[o := Cell(NULL, true)]; }
    t := s.(blocks := s.blocks[b := blk], mem := mem);
    v' := v.(held := v.held + {o});
    assert BlockOk(s.kinds, blk);
    NewBlockLists(s, t, v, b);
    HeldOnly(t, v, v');
    LargeKeepsRest(s, t, v, v', o);
  }

  lemma HeldOnly(t: Space, v: View, v': View)
    requires Lists(t, v) && v'.lists == v.lists && v'.queues == v.queues
    ensures Lists(t, v')
  {
    SameLists(t, t, v, v');
    OtherQueues(t, t, v, v');
  }

  lemma LargeKeepsRest(s: Space, t: Space, v: View, v': View, o: Obj)
    requires Inv(s, v) && o.blk !in s.blocks && o.idx == 0 && o.blk in t.blocks
      && t.blocks == s.blocks[o.blk := t.blocks[o.blk]] && t.kinds == s.kinds
    requires t.blocks[o.blk].Large() && t.blocks[o.blk].kind < |s.kinds|
      && t.blocks[o.blk].marks == [s.kinds[t.blocks[o.blk].kind].uncollectable]
    requires v' == v.(held := v.held + {o})
      && forall x :: x in s.mem && x.blk != o.blk ==> x in t.mem && t.mem[x] == s.mem[x]
    ensures HeldOk(t, v') && Protected(t, v') && SweptOnce(t, v') && o !in v.held && Untouched(s, t, v.held)
  {
    forall x ensures OnList(t, v', x) <==> OnList(s, v, x) {
    }
    forall b ensures InQueue(t, v', b) <==> InQueue(s, v, b) {
    }
    forall x ensures ProtectedIn(t, v', x) {
      assert ProtectedIn(s, v, x);
    }
  }

  /** The kind of objects without pointers, and the one of dropped blocks. */
  const PTRFREE := 0

  /** The header of a dropped block: one unmarked object that fills it. */
  function DroppedBlock(gcNo: nat): Block {
    Block(PTRFREE, HBLK_GRANULES, [false], 0, 0, gcNo % 0x10000)
  }

  /**
    A block dropped by the block allocator (GC_allochblk_nth): nobody holds it, it is on no list and
    has no mark, so that the next collection frees it.
   */
  method EnterDropped(s: Space, b: nat, ghost v: View) returns (t: Space)
    requires Inv(s, v) && |s.kinds| > 0 && b > 0 && b !in s.blocks
    ensures Inv(t, v) && Untouched(s, t, v.held)
    ensures t == s.(blocks := s.blocks[b := DroppedBlock(s.gcNo)], mem := t.mem)
  {
    var mem := PrepareBlock(s.mem, b, 1, false);
    t := s.(blocks := s.blocks[b := DroppedBlock(s.gcNo)], mem := mem);
    assert BlockOk(s.kinds, DroppedBlock(s.gcNo));
    NewBlockLists(s, t, v, b);
    EnterKeepsRest(s, t, v, b);
  }

  lemma EnterKeepsRest(s: Space, t: Space, v: View, b: nat)
    requires Inv(s, v) && b !in s.blocks && t == s.(blocks := s.blocks[b := DroppedBlock(s.gcNo)], mem := t.mem)
    requires forall x :: x in s.mem && x.blk != b ==> x in t.mem && t.mem[x] == s.mem[x]
    ensures HeldOk(t, v) && Protected(t, v) && SweptOnce(t, v) && Untouched(s, t, v.held)
  {
    forall x ensures OnList(t, v, x) <==> OnList(s, v, x) {
    }
    forall c ensures InQueue(t, v, c) <==> InQueue(s, v, c) {
    }
    forall x ensures ProtectedIn(t, v, x) {
      assert ProtectedIn(s, v, x);
    }
  }

  /** GC_free for a large object: its block is freed. */
  method FreeLarge(s: Space, o: Obj, ghost v: View) returns (t: Space, ghost v': View)
    requires Inv(s, v) && o in v.held && o.blk in s.blocks && s.blocks[o.blk].Large()
    ensures Inv(t, v') && t == s.(blocks := s.blocks - {o.blk}) && v' == v.(held := v.held - {o})
      && Untouched(s, t, v'.held)
  {
    t := s.(blocks := s.blocks - {o.blk});
    v' := v.(held := v.held - {o});
    LargeGoneLists(s, t, v, o.blk);
    LargeGoneRest(s, t, v, v', o);
    HeldOnly(t, v, v');
  }

  lemma LargeGoneLists(s: Space, t: Space, v: View, b: nat)
    requires BlocksOk(s) && Lists(s, v) && b in s.blocks && s.blocks[b].Large() && t == s.(blocks := s.blocks - {b})
    ensures BlocksOk(t) && Lists(t, v)
  {
    GoneQueues(s, t, v, b);
    LargeGoneFree(s, t, v, b);
  }

  lemma LargeGoneFree(s: Space, t: Space, v: View, b: nat)
    requires Lists(s, v) && b in s.blocks && s.blocks[b].Large() && t == s.(blocks := s.blocks - {b})
    ensures forall d {:trigger ListOk(t, d, v.lists[d])} :: d in v.lists ==> ListOk(t, d, v.lists[d])
  {
    forall d | d in v.lists ensures ListOk(t, d, v.lists[d]) {
      assert ListOk(s, d, v.lists[d]);
    }
  }

  lemma LargeGoneRest(s: Space, t: Space, v: View, v': View, o: Obj)
    requires Inv(s, v) && o in v.held && s.blocks[o.blk].Large() && t == s.(blocks := s.blocks - {o.blk})
      && v' == v.(held := v.held - {o})
    ensures HeldOk(t, v') && Protected(t, v') && SweptOnce(t, v') && Untouched(s, t, v'.held)
  {
    assert BlockOk(s.kinds, s.blocks[o.blk]);
    forall x | x in v'.held ensures x.blk != o.blk && x in s.mem {
      assert IsObj(s.blocks, x);
      assert x.blk == o.blk ==> x.idx == 0 && x == o;
    }
    forall x ensures OnList(t, v', x) ==> OnList(s, v, x) {
    }
    forall b ensures InQueue(t, v', b) ==> InQueue(s, v, b) {
    }
    forall x ensures ProtectedIn(t, v', x) {
      assert ProtectedIn(s, v, x);
    }
  }

  /** The program writes to an object it holds, anything, including over the word that was the link. */
  method Write(s: Space, o: Obj, cell: Cell, ghost v: View) returns (t: Space)
    requires Inv(s, v) && o in v.held
    ensures Inv(t, v) && t == s.(mem := s.mem[o := cell])
  {
    t := s.(mem := s.mem[o := cell]);
    WriteLists(s, t, v, o);
    OtherQueues(s, t, v, v);
    forall x ensures ProtectedIn(t, v, x) {
      assert ProtectedIn(s, v, x);
      assert OnList(t, v, x) <==> OnList(s, v, x);
    }
  }

  lemma WriteLists(s: Space, t: Space, v: View, o: Obj)
    requires BlocksOk(s) && Lists(s, v) && HeldOk(s, v) && o in v.held && t == s.(mem := t.mem) && o in t.mem
      && t.mem == s.mem[o := t.mem[o]]
    ensures forall d {:trigger ListOk(t, d, v.lists[d])} :: d in v.lists ==> ListOk(t, d, v.lists[d])
  {
    forall d | d in v.lists ensures ListOk(t, d, v.lists[d]) {
      assert ListOk(s, d, v.lists[d]);
      assert o in v.lists[d] ==> OnList(s, v, o);
      ListKept(s, t, d, v.lists[d]);
    }
  }

  /** Some order of all blocks, as GC_apply_to_all_blocks visits each exactly once. */
  method BlockOrder(blocks: map<nat, Block>) returns (order: seq<nat>)
    ensures NoDup(order) && forall b :: b in order <==> b in blocks
  {
    order := [];
    var rest := blocks.Keys;
    while rest != {}
      invariant rest <= blocks.Keys && NoDup(order) && forall b :: b in order <==> b in blocks && b !in rest
      decreases rest
    {
      var b :| b in rest;
      order := order + [b];
      rest := rest - {b};
    }
  }

  lemma FreeUntouched(s: Space, t: Space, v: View, held: set<Obj>, o: Obj)
    requires Inv(s, v) && held <= v.held && o !in held && t.blocks == s.blocks
    requires forall x :: x in s.mem && x != o ==> x in t.mem && t.mem[x] == s.mem[x]
    ensures Untouched(s, t, held)
  {
    forall x | x in held ensures IsObj(s.blocks, x) && x in s.mem {
      assert x in v.held;
    }
  }

  /** The marker's work: the mark bits it sets. */
  method MarkAll(s: Space, marked: seq<Obj>, ghost v: View) returns (t: Space)
    requires Marking(s, v) && forall o :: o in marked ==> IsObj(s.blocks, o)
    ensures Marking(t, v) && (Inv(s, v) ==> Inv(t, v)) && SameButMarks(s, t)
    ensures forall x :: Marked(t.blocks, x) <==> Marked(s.blocks, x) || x in marked
  {
    t := s;
    for i := 0 to |marked|
      invariant Marking(t, v) && (Inv(s, v) ==> Inv(t, v)) && SameButMarks(s, t)
      invariant forall x :: Marked(t.blocks, x) <==> Marked(s.blocks, x) || x in marked[..i]
    {
      assert marked[i] in marked && marked[..i + 1] == marked[..i] + [marked[i]];
      t := SetMark(t, marked[i], v);
    }
    assert marked[..|marked|] == marked;
  }

  /** GC_try_to_collect_inner from the clearing of mark bits on. */
  method MarkAndFinish(s: Space, marked: seq<Obj>, abandon: bool, ghost v: View)
      returns (t: Space, ok: bool, ghost v': View)
    requires Inv(s, v) && (abandon ==> AllQueuesEmpty(v)) && forall o :: o in marked ==> IsObj(s.blocks, o)
    ensures Inv(t, v') && t.kinds == s.kinds && ok == !abandon && Untouched(s, t, v'.held)
    ensures v'.held == if ok then Survivors(s, v.held, marked) else v.held
    ensures t.blocks.Keys <= s.blocks.Keys && SameClasses(s.blocks, t.blocks)
    ensures ok ==> OnlyMarkedBlocks(t.blocks)
    ensures ok ==> forall x :: Marked(t.blocks, x) <==> Remarked(s, marked, x) && !OnList(s, v, x)
  {
    var order := BlockOrder(s.blocks);
    InvMeansMarking(s, v);
    t := ClearMarks(s, order, v);
    t := MarkAll(t, marked, v);
    ghost var u := t;
    ok := !abandon;
    v' := v;
    if ok {
      t, v' := FinishCollection(t, order, v);
      EachHasMarked(t);
      SameOnList(s, u, v);
    }
    CollectedUntouched(s, u, t, v, v', marked);
  }

  /** The objects marked when a collection's marking is done. */
  ghost predicate Remarked(s: Space, marked: seq<Obj>, x: Obj) {
    x in marked || (Marked(s.blocks, x) && Uncollectable(s, x))
  }

  /** No block is without a marked object. */
  ghost predicate OnlyMarkedBlocks(blocks: map<nat, Block>) {
    forall b :: b in blocks ==> exists x: Obj :: x.blk == b && Marked(blocks, x)
  }

  lemma EachHasMarked(s: Space)
    requires BlocksOk(s) && forall b :: b in s.blocks ==> s.blocks[b].nMarks != 0
    ensures OnlyMarkedBlocks(s.blocks)
  {
    forall b | b in s.blocks ensures exists x: Obj :: x.blk == b && Marked(s.blocks, x) {
      var marks := s.blocks[b].marks;
      assert BlockOk(s.kinds, s.blocks[b]);
      CountZero(marks);
      var i :| 0 <= i < |marks| && marks[i];
      assert Marked(s.blocks, Obj(b, i));
    }
  }

  lemma SameOnList(s: Space, t: Space, v: View)
    requires t.blocks.Keys == s.blocks.Keys && SameClasses(s.blocks, t.blocks)
    ensures forall x :: OnList(t, v, x) <==> OnList(s, v, x)
  {
  }

  /** Held objects that the marker marked or that are uncollectable. */
  function Survivors(s: Space, held: set<Obj>, marked: seq<Obj>): set<Obj> {
    set o | o in held && (o in marked || Uncollectable(s, o))
  }

  lemma CollectedUntouched(s: Space, u: Space, t: Space, v: View, v': View, marked: seq<Obj>)
    requires Marking(s, v) && u.kinds == s.kinds && u.blocks.Keys == s.blocks.Keys && u.mem == s.mem && Inv(t, v')
    requires forall b :: b in s.blocks ==> u.blocks[b].Cls() == s.blocks[b].Cls()
    requires forall o :: IsObj(u.blocks, o) <==> IsObj(s.blocks, o)
    requires forall o :: Marked(u.blocks, o) <==> (Marked(s.blocks, o) && Uncollectable(s, o)) || o in marked
    requires (v'.held == v.held && t == u) || v'.held == StillHeld(u, v.held)
    requires forall b :: b in t.blocks ==> b in u.blocks && t.blocks[b].Cls() == u.blocks[b].Cls()
    requires forall o :: o in v.held ==> o in u.mem && o in t.mem && t.mem[o] == u.mem[o]
    ensures Untouched(s, t, v'.held)
    ensures StillHeld(u, v.held) == Survivors(s, v.held, marked)
  {
    forall o | o in v'.held ensures IsObj(t.blocks, o) && o in v.held && IsObj(s.blocks, o) {
    }
  }

  /** GC_try_to_collect_inner. */
  method TryToCollect(s: Space, canStop: bool, stop: nat -> bool, marked: seq<Obj>, abandon: bool, ghost v: View)
    returns (t: Space, ok: bool, ghost v': View)
    requires Inv(s, v) && (abandon ==> canStop) && forall o :: o in marked ==> IsObj(s.blocks, o)
    ensures Inv(t, v') && t.kinds == s.kinds && Untouched(s, t, v'.held)
    ensures v'.held == if ok then Survivors(s, v.held, marked) else v.held
    ensures (!canStop ==> ok) && t.blocks.Keys <= s.blocks.Keys && SameClasses(s.blocks, t.blocks)
    ensures ok ==> OnlyMarkedBlocks(t.blocks)
    ensures ok ==> forall x :: Marked(t.blocks, x) <==> Remarked(s, marked, x) && !WasFree(s, v, canStop, x)
  {
    t, v', ok := s, v, true;
    SweptNot(s, v);
    if canStop {
      t, ok, v' := ReclaimAll(s, false, stop, v);
    }
    HeldObjects(s, t, v, v');
    if ok {
      SweptObjects(s, t, v, v', marked);
      ReclaimedFree(s, t, v, v', canStop, marked);
      ghost var u, w := t, v';
      t, ok, v' := MarkAndFinish(t, marked, abandon, v');
      UntouchedTwice(s, u, t, w.held, v'.held);
    }
  }

  lemma UntouchedSame(s: Space, v: View)
    requires Inv(s, v)
    ensures Untouched(s, s, v.held)
  {
  }

  lemma UntouchedTwice(s: Space, u: Space, t: Space, held: set<Obj>, held': set<Obj>)
    requires Untouched(s, u, held) && Untouched(u, t, held') && held' <= held
    ensures Untouched(s, t, held')
  {
  }

  lemma SweptObjects(s: Space, t: Space, v: View, v': View, marked: seq<Obj>)
    requires Inv(s, v) && Inv(t, v') && OnlySwept(s, t, v, v')
    ensures forall o :: IsObj(t.blocks, o) <==> IsObj(s.blocks, o)
    ensures Survivors(t, v'.held, marked) == Survivors(s, v.held, marked)
  {
    forall b | b in s.blocks ensures |t.blocks[b].marks| == |s.blocks[b].marks| {
      assert BlockOk(s.kinds, s.blocks[b]) && BlockOk(t.kinds, t.blocks[b]) && t.blocks[b].Cls() == s.blocks[b].Cls();
    }
    assert forall o :: Uncollectable(t, o) <==> Uncollectable(s, o);
  }

  /** An object that was free, or is found to be so by sweeping all waiting blocks first. */
  ghost predicate WasFree(s: Space, v: View, swept: bool, x: Obj) {
    OnList(s, v, x) || (swept && IsObj(s.blocks, x) && InQueue(s, v, x.blk) && !Marked(s.blocks, x))
  }

  lemma ReclaimedFree(s: Space, t: Space, v: View, v': View, swept: bool, marked: seq<Obj>)
    requires Inv(s, v) && Inv(t, v') && Reclaiming(s, t, v, v', false)
    requires if swept then forall b :: InQueue(s, v, b) ==> b in v'.swept else t == s && v' == v
    requires forall o :: IsObj(t.blocks, o) <==> IsObj(s.blocks, o)
    ensures forall x :: OnList(t, v', x) <==> WasFree(s, v, swept, x)
    ensures forall x ::
      Remarked(t, marked, x) && !OnList(t, v', x) <==> Remarked(s, marked, x) && !WasFree(s, v, swept, x)
  {
    forall x ensures OnList(t, v', x) <==> WasFree(s, v, swept, x) {
      if swept && IsObj(s.blocks, x) && InQueue(s, v, x.blk) { assert x.blk !in v.swept; }
      if OnList(t, v', x) { assert ListOk(t, t.blocks[x.blk].Cls(), v'.lists[t.blocks[x.blk].Cls()]); }
    }
  }

  // ---- The object heap ----

  /** The heap and the ghost view of it. */
  datatype Snap = Snap(s: Space, v: View)

  /** There is no object of class `c` without a new block. */
  ghost predicate NeedsBlock(p: Snap, c: Class) {
    c.gran <= MAXOBJGRANULES ==> NoneToGive(p.s, p.v, c)
  }

  /**
    An allocation, which fails exactly if it needs a new block and `supply` is 0 for none: an object
    the program did not hold, zero-filled if its kind promises that, and nothing held is touched.
   */
  ghost predicate NewDid(p: Snap, c: Class, supply: nat, q: Snap, o: Obj) {
    && q.s.kinds == p.s.kinds && Untouched(p.s, q.s, p.v.held)
    && (o == NULL <==> supply == 0 && NeedsBlock(p, c)) && TookBlock(p.s, q.s, c, supply, NeedsBlock(p, c))
    && (o == NULL ==> q.v.held == p.v.held && NeedsBlock(q, c))
    && (o != NULL ==> o !in p.v.held && q.v.held == p.v.held + {o})
    && (o != NULL ==>
        IsObj(q.s.blocks, o) && q.s.blocks[o.blk].Cls() == c && o in q.s.mem
        && (c.kind < |p.s.kinds| && p.s.kinds[c.kind].init ==> q.s.mem[o] == Cell(NULL, true)))
    && (supply != 0 && NeedsBlock(p, c) ==> o.blk == supply)
    && FreeStays(p.s, q.s, p.v, q.v, o) && BitsGrow(p.s, q.s)
  }

  /** A dropped block is entered: nothing else changes. */
  ghost predicate EnterDid(p: Snap, b: nat, q: Snap) {
    && q.v == p.v && q.s == p.s.(blocks := p.s.blocks[b := DroppedBlock(p.s.gcNo)], mem := q.s.mem)
    && Untouched(p.s, q.s, p.v.held)
  }

  /** A small object goes on its free list, a large one takes its block along. */
  ghost predicate FreeDid(p: Snap, o: Obj, q: Snap) {
    && o.blk in p.s.blocks && q.s.kinds == p.s.kinds && q.v.held == p.v.held - {o} && Untouched(p.s, q.s, q.v.held)
    && (forall b :: b in q.s.blocks <==> b in p.s.blocks && !(b == o.blk && p.s.blocks[b].Large()))
        && SameClasses(p.s.blocks, q.s.blocks)
    && (forall x :: OnList(q.s, q.v, x) <==> OnList(p.s, p.v, x) || (x == o && !p.s.blocks[o.blk].Large()))
    && (forall x :: Marked(q.s.blocks, x) <==> Marked(p.s.blocks, x) && x.blk in q.s.blocks)
  }

  ghost predicate MarkDid(p: Snap, o: Obj, q: Snap) {
    && q.v == p.v && q.s == p.s.(blocks := q.s.blocks)
    && q.s.blocks.Keys == p.s.blocks.Keys && SameClasses(p.s.blocks, q.s.blocks)
    && forall x :: Marked(q.s.blocks, x) <==> Marked(p.s.blocks, x) || x == o
  }

  /** Blocks of a class are swept until there is a free object or no block waits. */
  ghost predicate SweepClassDid(p: Snap, c: Class, q: Snap) {
    && OnlySwept(p.s, q.s, p.v, q.v) && NoneForgotten(p.s, q.s, p.v, q.v) && OnlyQueued(p.s, q.s, p.v, q.v)
    && c in q.s.free && c in q.s.queue && (q.s.free[c] != NULL || q.s.queue[c] == 0)
  }

  ghost predicate SweepAllDid(p: Snap, ignoreOld: bool, stop: nat -> bool, q: Snap, ok: bool) {
    && Reclaiming(p.s, q.s, p.v, q.v, ignoreOld) && ((forall n :: !stop(n)) ==> ok)
    && (ok && !ignoreOld ==> forall b :: InQueue(p.s, p.v, b) ==> b in q.v.swept)
    && (ok ==> NothingWaits(q.s))
  }

  predicate NothingWaits(s: Space) {
    forall c :: c in s.queue ==> s.queue[c] == 0
  }

  ghost predicate ClearDid(p: Snap, q: Snap) {
    && q.v == p.v && q.s == p.s.(blocks := q.s.blocks)
    && q.s.blocks.Keys == p.s.blocks.Keys && SameClasses(p.s.blocks, q.s.blocks)
    && forall o :: Marked(q.s.blocks, o) <==> Marked(p.s.blocks, o) && Uncollectable(p.s, o)
  }

  /** Held objects shrink to the marked ones, contents kept; free lists are empty; blocks without marks are gone. */
  ghost predicate FinishDid(p: Snap, q: Snap) {
    && q.s.kinds == p.s.kinds && q.s.gcNo == p.s.gcNo + 1 && q.v.held == StillHeld(p.s, p.v.held)
    && (forall o :: o in p.v.held ==> o in q.s.mem && o in p.s.mem && q.s.mem[o] == p.s.mem[o])
    && (forall o :: !OnList(q.s, q.v, o))
    && (forall o :: Marked(q.s.blocks, o) <==> Marked(p.s.blocks, o) && !OnList(p.s, p.v, o))
    && q.s.blocks.Keys <= p.s.blocks.Keys && SameClasses(p.s.blocks, q.s.blocks)
        && (forall b :: b in q.s.blocks ==> q.s.blocks[b].nMarks != 0)
  }

  /**
    A collection that is not stopped leaves exactly the held objects that are marked or uncollectable,
    and exactly the blocks that contain something marked that was not free.
   */
  ghost predicate CollectDid(p: Snap, canStop: bool, marked: seq<Obj>, q: Snap, ok: bool) {
    && q.s.kinds == p.s.kinds && (!canStop ==> ok) && Untouched(p.s, q.s, q.v.held)
    && q.v.held == (if ok then Survivors(p.s, p.v.held, marked) else p.v.held)
    && q.s.blocks.Keys <= p.s.blocks.Keys && SameClasses(p.s.blocks, q.s.blocks)
    && (ok ==> OnlyMarkedBlocks(q.s.blocks))
    && (ok ==> forall x :: Marked(q.s.blocks, x) <==> Remarked(p.s, marked, x) && !WasFree(p.s, p.v, canStop, x))
  }

  /** The small- and large-object heap, with the lock held by one caller at a time. */
  class ObjectHeap {
    var s: Space
    ghost var v: View

    ghost predicate Valid()
      reads this
    {
      Inv(s, v)
    }

    ghost function Now(): Snap
      reads this
    {
      Snap(s, v)
    }

    constructor (kinds: seq<Kind>)
      ensures Valid() && s.kinds == kinds && s.blocks == map[] && v.held == {}
    {
      var classes := set k: nat, g: nat | k < |kinds| && 0 < g <= MAXOBJGRANULES :: Class(k, g);
      s := Space(kinds, map[], map[], map c | c in classes :: NULL, map c | c in classes :: 0, 0);
      v := View(map c | c in classes :: [], map c | c in classes :: [], {}, {});
      new;
      assert forall c :: c in classes <==> SmallClass(kinds, c);
      assert forall c :: c in v.lists ==> ListOk(s, c, v.lists[c]);
      assert forall c :: c in v.queues ==> QueueOk(s, c, v.queues[c]);
    }

    method New(c: Class, supply: nat) returns (o: Obj)
      requires Valid() && c.kind < |s.kinds| && c.gran > 0 && (supply == 0 || supply !in s.blocks)
      modifies this
      ensures Valid() && NewDid(old(Now()), c, supply, Now(), o)
    {
      var t;
      if c.gran <= MAXOBJGRANULES {
        t, o, v := Malloc(s, c, supply, v);
      } else if supply == 0 {
        SweptNot(s, v);
        HeldObjects(s, s, v, v);
        return NULL;
      } else {
        ghost var p := Now();
        t, o, v := MallocLarge(s, c.kind, c.gran, supply, v);
        LargeNewDid(p, c, supply, t, v, o);
      }
      s := t;
    }

    /** A block dropped by the block allocator. */
    method Enter(b: nat)
      requires Valid() && |s.kinds| > 0 && b > 0 && b !in s.blocks
      modifies this
      ensures Valid() && EnterDid(old(Now()), b, Now())
    {
      s := EnterDropped(s, b, v);
    }

    /** GC_free of an object the program holds. */
    method Free(o: Obj)
      requires Valid() && o in v.held
      modifies this
      ensures Valid() && FreeDid(old(Now()), o, Now())
    {
      assert IsObj(s.blocks, o);
      ghost var p := Now();
      var t;
      if s.blocks[o.blk].Large() {
        t, v := FreeLarge(s, o, v);
        LargeFreeDid(p, o, t, v);
      } else {
        t, v := FreeSmall(s, o, v);
        SmallFreeDid(p, o, t, v);
      }
      s := t;
    }

    /**
      GC_try_to_collect_inner, with the marker's work given by the objects it marks. Unless the
      collection cannot be stopped, waiting blocks are swept first; it may then be abandoned after
      the old mark bits are gone.
     */
    method Collect(canStop: bool, stop: nat -> bool, marked: seq<Obj>, abandon: bool) returns (ok: bool)
      requires Valid() && (abandon ==> canStop)
      requires forall o :: o in marked ==> IsObj(s.blocks, o)
      modifies this
      ensures Valid() && CollectDid(old(Now()), canStop, marked, Now(), ok)
    {
      var t;
      t, ok, v := TryToCollect(s, canStop, stop, marked, abandon, v);
      s := t;
    }

    /** The program writes to an object it holds. */
    method Assign(o: Obj, cell: Cell)
      requires Valid() && o in v.held
      modifies this
      ensures Valid() && Now() == Snap(old(s).(mem := old(s).mem[o := cell]), old(v))
    {
      s := Write(s, o, cell, v);
    }

    /** A step of incremental marking. */
    method Mark(o: Obj)
      requires Valid() && IsObj(s.blocks, o)
      modifies this
      ensures Valid() && MarkDid(old(Now()), o, Now())
    {
      InvMeansMarking(s, v);
      s := SetMark(s, o, v);
    }

    /** Lazy sweeping of one class. */
    method SweepClass(c: Class)
      requires Valid() && SmallClass(s.kinds, c)
      modifies this
      ensures Valid() && SweepClassDid(old(Now()), c, Now())
    {
      var t;
      t, v := ContinueReclaim(s, c, v);
      s := t;
    }

    method SweepAll(ignoreOld: bool, stop: nat -> bool) returns (ok: bool)
      requires Valid()
      modifies this
      ensures Valid() && SweepAllDid(old(Now()), ignoreOld, stop, Now(), ok)
    {
      var t;
      t, ok, v := ReclaimAll(s, ignoreOld, stop, v);
      s := t;
      if ok {
        forall c | c in s.queue ensures s.queue[c] == 0 {
          assert QueueOk(s, c, v.queues[c]);
        }
      }
    }

    /** The start of an incremental full collection, once all waiting blocks are swept or discarded. */
    method Clear()
      requires Valid() && NothingWaits(s)
      modifies this
      ensures Valid() && ClearDid(old(Now()), Now())
    {
      var order := BlockOrder(s.blocks);
      InvMeansMarking(s, v);
      forall c | c in v.queues ensures v.queues[c] == [] {
        assert QueueOk(s, c, v.queues[c]);
        assert forall b :: b in v.queues[c] ==> b in s.blocks && b > 0;
      }
      s := ClearMarks(s, order, v);
    }

    /** The end of a collection, full or partial. */
    method Finish()
      requires Valid()
      modifies this
      ensures Valid() && FinishDid(old(Now()), Now())
    {
      var order := BlockOrder(s.blocks);
      InvMeansMarking(s, v);
      var t;
      t, v := FinishCollection(s, order, v);
      s := t;
    }
  }

  lemma LargeNewDid(p: Snap, c: Class, b: nat, t: Space, v': View, o: Obj)
    requires Inv(p.s, p.v) && c.kind < |p.s.kinds| && c.gran > MAXOBJGRANULES && b > 0 && b !in p.s.blocks
    requires t.kinds == p.s.kinds && Untouched(p.s, t, p.v.held) && b in t.blocks
      && t.blocks == p.s.blocks[b := t.blocks[b]]
    requires o == Obj(b, 0) && o !in p.v.held && v' == p.v.(held := p.v.held + {o}) && IsObj(t.blocks, o)
      && t.blocks[b].Cls() == c
    requires t.blocks[b].marks == [p.s.kinds[c.kind].uncollectable]
    requires o in t.mem && (p.s.kinds[c.kind].init ==> t.mem[o] == Cell(NULL, true)) && Inv(t, v')
    ensures NewDid(p, c, b, Snap(t, v'), o)
  {
    assert BlockOk(t.kinds, t.blocks[b]);
    forall x | Marked(t.blocks, x) && x != o ensures Marked(p.s.blocks, x) {
      assert x == Obj(x.blk, x.idx);
    }
  }

  lemma LargeFreeDid(p: Snap, o: Obj, t: Space, v': View)
    requires Inv(p.s, p.v) && o in p.v.held && o.blk in p.s.blocks && p.s.blocks[o.blk].Large()
    requires t == p.s.(blocks := p.s.blocks - {o.blk}) && v' == p.v.(held := p.v.held - {o})
      && Untouched(p.s, t, v'.held)
    ensures FreeDid(p, o, Snap(t, v'))
  {
    forall x ensures OnList(t, v', x) <==> OnList(p.s, p.v, x) {
    }
  }

  lemma SmallFreeDid(p: Snap, o: Obj, t: Space, v': View)
    requires Inv(p.s, p.v) && o in p.v.held && o.blk in p.s.blocks && !p.s.blocks[o.blk].Large()
    requires t == p.s.(free := t.free, mem := t.mem)
      && forall x :: x in p.s.mem && x != o ==> x in t.mem && t.mem[x] == p.s.mem[x]
    requires var c := p.s.blocks[o.blk].Cls();
      c in p.v.lists && v' == p.v.(lists := p.v.lists[c := [o] + p.v.lists[c]], held := p.v.held - {o})
    ensures FreeDid(p, o, Snap(t, v'))
  {
    FreeUntouched(p.s, t, p.v, v'.held, o);
    forall x ensures OnList(t, v', x) <==> OnList(p.s, p.v, x) || x == o {
    }
  }

  // ---- Whole runs ----

  datatype Event =
    | Alloc(c: Class, supply: nat)
    | DropBlock(b: nat)
    | Release(o: Obj)
    | Store(o: Obj, cell: Cell)
    | MarkOne(o: Obj)
    | SweepSome(c: Class)
    | SweepRest(ignoreOld: bool, stop: nat -> bool)
    | ClearAll
    | EndCollection
    | Collection(canStop: bool, stop: nat -> bool, marked: seq<Obj>, abandon: bool)

  /** What an event led to: nothing because its caller's duty was not met, or its result. */
  datatype Outcome = Skipped | Done | Handed(o: Obj) | Ended(ok: bool)

  /** The program may free or write only what it holds; other requirements are those of the operations. */
  predicate Allowed(s: Space, live: set<Obj>, e: Event) {
    match e
    case Alloc(c, supply) => c.kind < |s.kinds| && c.gran > 0 && (supply == 0 || supply !in s.blocks)
    case DropBlock(b) => |s.kinds| > 0 && b > 0 && b !in s.blocks
    case Release(o) => o in live
    case Store(o, cell) => o in live
    case MarkOne(o) => IsObj(s.blocks, o)
    case SweepSome(c) => SmallClass(s.kinds, c)
    case SweepRest(_, _) => true
    case ClearAll => NothingWaits(s)
    case EndCollection => true
    case Collection(canStop, stop, marked, abandon) =>
      (abandon ==> canStop) && forall o :: o in marked ==> IsObj(s.blocks, o)
  }

  /** What each event does. An allocation that succeeds is in the results. */
  ghost predicate EventDid(p: Snap, e: Event, q: Snap, out: Outcome) {
    if !Allowed(p.s, p.v.held, e) then out == Skipped && q == p
    else
      match e
      case Alloc(c, supply) => out.Handed? && NewDid(p, c, supply, q, out.o)
      case DropBlock(b) => out == Done && EnterDid(p, b, q)
      case Release(o) => out == Done && FreeDid(p, o, q)
      case Store(o, cell) => out == Done && q == Snap(p.s.(mem := p.s.mem[o := cell]), p.v)
      case MarkOne(o) => out == Done && MarkDid(p, o, q)
      case SweepSome(c) => out == Done && SweepClassDid(p, c, q)
      case SweepRest(ignoreOld, stop) => out.Ended? && SweepAllDid(p, ignoreOld, stop, q, out.ok)
      case ClearAll => out == Done && ClearDid(p, q)
      case EndCollection => out == Done && FinishDid(p, q)
      case Collection(canStop, stop, marked, abandon) => out.Ended? && CollectDid(p, canStop, marked, q, out.ok)
  }

  /** A program using the heap, which knows what it holds. */
  class Program {
    const h: ObjectHeap
    var live: set<Obj>

    ghost predicate Valid()
      reads this, h
    {
      h.Valid() && live == h.v.held
    }

    constructor (kinds: seq<Kind>)
      ensures Valid() && fresh(h) && h.s.kinds == kinds && h.s.blocks == map[] && live == {}
    {
      h := new ObjectHeap(kinds);
      live := {};
    }

    /** The program's own steps. */
    method Use(e: Event) returns (out: Outcome)
      requires Valid() && Allowed(h.s, live, e) && (e.Alloc? || e.Release? || e.Store?)
      modifies this, h
      ensures Valid() && EventDid(old(h.Now()), e, h.Now(), out)
    {
      out := Done;
      match e {
        case Alloc(c, supply) =>
          var o := h.New(c, supply);
          out := Handed(o);
          if o != NULL { live := live + {o}; }
        case Release(o) =>
          h.Free(o);
          live := live - {o};
        case Store(o, cell) => h.Assign(o, cell);
      }
    }

    /** The collector's steps. */
    method Collect(e: Event) returns (out: Outcome)
      requires Valid() && Allowed(h.s, live, e) && !e.Alloc? && !e.Release? && !e.Store?
      modifies this, h
      ensures Valid() && EventDid(old(h.Now()), e, h.Now(), out)
    {
      out := Done;
      match e {
        case DropBlock(b) => h.Enter(b);
        case MarkOne(o) => h.Mark(o);
        case SweepSome(c) => h.SweepClass(c);
        case SweepRest(ignoreOld, stop) =>
          var ok := h.SweepAll(ignoreOld, stop);
          out := Ended(ok);
        case ClearAll => h.Clear();
        case EndCollection =>
          live := set o | o in live && Marked(h.s.blocks, o);
          h.Finish();
        case Collection(canStop, stop, marked, abandon) =>
          var kept := Survivors(h.s, live, marked);
          var ok := h.Collect(canStop, stop, marked, abandon);
          if ok { live := kept; }
          out := Ended(ok);
      }
    }

    method Step(e: Event) returns (out: Outcome)
      requires Valid()
      modifies this, h
      ensures Valid() && EventDid(old(h.Now()), e, h.Now(), out)
    {
      if !Allowed(h.s, live, e) {
        out := Skipped;
      } else if e.Alloc? || e.Release? || e.Store? {
        out := Use(e);
      } else {
        out := Collect(e);
      }
    }
  }

  ghost predicate InOrder(p: Snap) {
    Inv(p.s, p.v)
  }

  /** There are no blocks. */
  ghost predicate Initial(p: Snap, kinds: seq<Kind>) {
    p.s.kinds == kinds && p.s.blocks == map[] && p.v.held == {}
  }

  /**
    Any run of allocations, dropped blocks, frees of held objects, writes, marking steps, sweeping and
    collections:
    the states follow each other as the operations describe, and in each of them the free lists
    are well formed and apart from what the program holds.
   */
  method Run(kinds: seq<Kind>, events: seq<Event>) returns (results: seq<Outcome>)
    ensures exists trace :: Follows(trace, events, results, EventDid, InOrder) && Initial(trace[0], kinds)
  {
    var p := new Program(kinds);
    results := [];
    ghost var trace := [p.h.Now()];
    NoEvents(p.h.Now(), EventDid, InOrder);
    for n := 0 to |events|
      invariant p.Valid() && fresh(p) && fresh(p.h)
      invariant Follows(trace, events[..n], results, EventDid, InOrder) && trace[n] == p.h.Now()
        && Initial(trace[0], kinds)
    {
      var out := p.Step(events[n]);
      OneMore(trace, events[..n], results, EventDid, InOrder, events[n], p.h.Now(), out);
      Prefix(events, n);
      results, trace := results + [out], trace + [p.h.Now()];
    }
    assert events[..|events|] == events;
  }
}
