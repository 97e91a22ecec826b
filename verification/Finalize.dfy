/**
  Finalization and disappearing links (gc/finalize.c), with Java-style finalization off.

  After marking, links to unmarked objects are cleared, which may break cycles. Then everything
  that finalizable objects refer to is marked, as far as each one's mark procedure looks, and those
  objects that are still unmarked are queued: no finalizable object, itself included, leads to them.
  Queued objects are marked, so that they and, for ordered finalizers, all they refer to survive
  the sweep.

  Addresses are byte addresses here: word `i` of the object at `o` is at `o + 8 * i`.
 */
module Finalize {
  import opened ObjectGraph
  import opened HashTable

  const ALIGNMENT := 8

  /** The mark procedures: ordered, ordered but for references to the object itself, and unordered. */
  datatype MarkProc = Normal | IgnoreSelf | Null

  datatype Finalizer = Finalizer(fn: nat, data: nat, size: nat, proc: MarkProc)

  /** The objects a mark procedure pushes for object `p`: those its words name, genuine references or not. */
  ghost function Targets(fields: Fields, proc: MarkProc, p: Obj): set<Obj> {
    if p !in fields || proc == Null then {}
    else set q | q in fields && Names(fields, p, q) && (proc == Normal || q != p)
  }

  // ---- Marking from a finalizable object ----

  /** The objects still to be scanned account for every reference out of what was newly marked. */
  ghost predicate Frontier(fields: Fields, marks: set<Obj>, marks': set<Obj>, stack: seq<Obj>) {
    forall o, q :: o in fields && o in marks' && o !in marks && Ptr(q) in fields[o] && q in fields ==>
        q in marks' || q in stack
  }

  /** What was newly marked refers to marked objects only. */
  ghost predicate NewClosed(fields: Fields, marks: set<Obj>, marks': set<Obj>) {
    forall o, q :: o in fields && o in marks' && o !in marks && Ptr(q) in fields[o] && q in fields ==> q in marks'
  }

  /** Only reachable objects were added. */
  ghost predicate OnlyReached(fields: Fields, start: set<Obj>, marks: set<Obj>, marks': set<Obj>) {
    forall x :: x in marks' && x !in marks ==> Reachable(fields, start, x)
  }

  /**
    Marking everything unmarked that some objects lead to, as the marker does: whatever is a word
    may be a reference.
   */
  method MarkFrom(fields: Fields, marks: set<Obj>, start: set<Obj>) returns (marks': set<Obj>)
    requires marks <= fields.Keys && start <= fields.Keys
    ensures marks <= marks' <= fields.Keys && start <= marks'
    ensures NewClosed(AsPointers(fields), marks, marks') && OnlyReached(AsPointers(fields), start, marks, marks')
  {
    ghost var ptrs := AsPointers(fields);
    marks' := marks;
    var stack := SetToSeq(start);
    forall q | q in stack ensures Reachable(ptrs, start, q) {
      assert IsPath(ptrs, start, [q]) && [q][0] == q;
    }
    while stack != []
      invariant marks <= marks' <= fields.Keys && (forall q :: q in stack ==> q in fields && Reachable(ptrs, start, q))
      invariant Frontier(ptrs, marks, marks', stack) && OnlyReached(ptrs, start, marks, marks')
      invariant forall q :: q in start ==> q in marks' || q in stack
      decreases fields.Keys - marks', |stack|
    {
      var o, rest := stack[0], stack[1..];
      assert stack == [o] + rest;
      if o in marks' {
        stack := rest;
      } else {
        var more := Named(fields, o);
        forall q | q in more ensures Reachable(ptrs, start, q) {
          ReachableStep(ptrs, start, o, q);
        }
        marks' := marks' + {o};
        stack := more + rest;
      }
    }
  }

  method SetToSeq(s: set<Obj>) returns (l: seq<Obj>)
    ensures forall x :: x in l <==> x in s
  {
    l := [];
    var rest := s;
    while rest != {}
      invariant rest <= s && forall x :: x in l <==> x in s && x !in rest
      decreases rest
    {
      var x :| x in rest;
      l, rest := l + [x], rest - {x};
    }
  }

  /** The objects that words of object `o` name. */
  method Named(fields: Fields, o: Obj) returns (l: seq<Obj>)
    requires o in fields
    ensures forall q :: q in l <==> q in fields && Ptr(q) in AsPointers(fields)[o]
  {
    l := [];
    var words := fields[o];
    for i := 0 to |words|
      invariant forall q :: q in l <==> q in fields && Ptr(q) in AsPointers(fields)[o][..i]
    {
      assert AsPointers(fields)[o][..i + 1] == AsPointers(fields)[o][..i] + [Ptr(words[i].Value())];
      if words[i].Value() in fields { l := l + [words[i].Value()]; }
    }
    assert AsPointers(fields)[o][..|words|] == AsPointers(fields)[o];
  }

  /**
    Where marking from one finalizable object starts: what its procedure pushes and, should the
    mark stack overflow, the object itself and all that is `known`, the marked objects and the roots.
    The null procedure pushes nothing, so nothing overflows.
   */
  ghost function Pushed(fields: Fields, proc: MarkProc, p: Obj, overflow: bool, known: set<Obj>): set<Obj> {
    Targets(fields, proc, p) + if overflow && proc != Null then known + {p} else {}
  }

  /**
    GC_MARK_FO. After an overflow the object itself is marked and everything marked and the roots
    are scanned again.
   */
  method MarkFO(fields: Fields, roots: set<Obj>, marks: set<Obj>, p: Obj, proc: MarkProc, overflow: bool)
      returns (marks': set<Obj>)
    requires marks <= fields.Keys && roots <= fields.Keys && p in fields
    ensures marks <= marks' <= fields.Keys && Pushed(fields, proc, p, overflow, marks + roots) <= marks'
    ensures NewClosed(AsPointers(fields), marks, marks')
    ensures overflow && proc != Null ==> Closed(AsPointers(fields), marks')
    ensures OnlyReached(AsPointers(fields), Pushed(fields, proc, p, overflow, marks + roots), marks, marks')
  {
    if proc == Null { return marks; }
    var names := Named(fields, p);
    var start := set q | q in names && (proc == Normal || q != p);
    assert start == Targets(fields, proc, p) by {
      forall q ensures q in start <==> q in Targets(fields, proc, p) {
        NamesIsPointer(fields, p, q);
      }
    }
    if overflow {
      marks' := MarkFrom(fields, {}, start + marks + {p} + roots);
      assert start + marks + {p} + roots == Pushed(fields, proc, p, true, marks + roots);
    } else {
      marks' := MarkFrom(fields, marks, start);
      assert start == Pushed(fields, proc, p, false, marks + roots);
    }
  }

  /** All that those of the finalizable objects `keys` name that were not marked before is marked. */
  ghost predicate TargetsMarked(fields: Fields, fm: map<Address, Finalizer>, keys: seq<Address>, marks: set<Obj>,
      marks': set<Obj>) {
    forall a :: a in keys && a in fm && a !in marks ==> Targets(fields, fm[a].proc, a) <= marks'
  }

  lemma TargetsOfNew(fields: Fields, marks: set<Obj>, marks': set<Obj>, proc: MarkProc, a: Obj)
    requires NewClosed(AsPointers(fields), marks, marks') && a in marks' && a !in marks
    ensures Targets(fields, proc, a) <= marks'
  {
    forall q | q in Targets(fields, proc, a) ensures q in marks' {
      NamesIsPointer(fields, a, q);
    }
  }

  /**
    Object `x` is reached, over words that could be references, from where marking from some
    unmarked finalizable object starts.
   */
  ghost predicate Led(fields: Fields, fm: map<Address, Finalizer>, overflows: Address -> bool, roots: set<Obj>,
      marks: set<Obj>, x: Obj) {
    exists a :: a in fm && a !in marks
        && Reachable(AsPointers(fields), Pushed(fields, fm[a].proc, a, overflows(a), marks + roots), x)
  }

  /** Nothing was marked that no finalizable object leads to. */
  ghost predicate NoMoreMarked(fields: Fields, fm: map<Address, Finalizer>, overflows: Address -> bool,
      roots: set<Obj>, marks: set<Obj>, marks': set<Obj>) {
    forall x :: x in marks' && x !in marks ==> Led(fields, fm, overflows, roots, marks, x)
  }

  /**
    What marking from one more object adds is led to as well, even if an overflow made it start
    from the marks so far.
   */
  lemma StillLed(fields: Fields, fm: map<Address, Finalizer>, overflows: Address -> bool, roots: set<Obj>,
      marks: set<Obj>, before: set<Obj>, marks': set<Obj>, a: Address)
    requires a in fm && a !in before && marks <= before && NoMoreMarked(fields, fm, overflows, roots, marks, before)
    requires OnlyReached(AsPointers(fields), Pushed(fields, fm[a].proc, a, overflows(a), before + roots), before,
      marks')
    ensures NoMoreMarked(fields, fm, overflows, roots, marks, marks')
  {
    forall x | x in marks' && x !in marks ensures Led(fields, fm, overflows, roots, marks, x) {
      if x !in before {
        OneLed(fields, fm, overflows, roots, marks, before, a, x);
      }
    }
  }

  lemma OneLed(fields: Fields, fm: map<Address, Finalizer>, overflows: Address -> bool, roots: set<Obj>,
      marks: set<Obj>, before: set<Obj>, a: Address, x: Obj)
    requires a in fm && a !in marks && NoMoreMarked(fields, fm, overflows, roots, marks, before)
    requires Reachable(AsPointers(fields), Pushed(fields, fm[a].proc, a, overflows(a), before + roots), x)
    ensures Led(fields, fm, overflows, roots, marks, x)
  {
    var ptrs := AsPointers(fields);
    var path :| IsPath(ptrs, Pushed(fields, fm[a].proc, a, overflows(a), before + roots), path)
        && path[|path| - 1] == x;
    var y := path[0];
    assert IsPath(ptrs, {y}, path) && Reachable(ptrs, {y}, x);
    if y in Pushed(fields, fm[a].proc, a, overflows(a), marks + roots) {
      assert IsPath(ptrs, Pushed(fields, fm[a].proc, a, overflows(a), marks + roots), path);
    } else {
      assert y in before && y !in marks && Led(fields, fm, overflows, roots, marks, y);
      var b :| b in fm && b !in marks && Reachable(ptrs, Pushed(fields, fm[b].proc, b, overflows(b), marks + roots), y);
      ReachableTwice(ptrs, Pushed(fields, fm[b].proc, b, overflows(b), marks + roots), y, x);
    }
  }

  /** The second loop of GC_finalize: mark from every unmarked finalizable object. */
  method MarkFromFinalizable(fields: Fields, roots: set<Obj>, marks: set<Obj>, keys: seq<Address>, procs: map<Address,
      MarkProc>, overflows: Address -> bool, ghost fm: map<Address, Finalizer>)
    returns (marks': set<Obj>)
    requires marks <= fields.Keys && roots <= fields.Keys
    requires forall a :: a in keys ==> a in fm && a in procs && procs[a] == fm[a].proc && a in fields
    ensures marks <= marks' <= fields.Keys && NewClosed(AsPointers(fields), marks, marks')
    ensures TargetsMarked(fields, fm, keys, marks, marks') && NoMoreMarked(fields, fm, overflows, roots, marks, marks')
  {
    marks' := marks;
    for i := 0 to |keys|
      invariant marks <= marks' <= fields.Keys && NewClosed(AsPointers(fields), marks, marks')
      invariant TargetsMarked(fields, fm, keys[..i], marks, marks')
        && NoMoreMarked(fields, fm, overflows, roots, marks, marks')
    {
      var a := keys[i];
      assert a in keys && keys[..i + 1] == keys[..i] + [a];
      if a !in marks' {
        ghost var before := marks';
        marks' := MarkFO(fields, roots, marks', a, procs[a], overflows(a));
        StillLed(fields, fm, overflows, roots, marks, before, marks', a);
      } else if a !in marks {
        TargetsOfNew(fields, marks, marks', fm[a].proc, a);
      }
    }
    assert keys[..|keys|] == keys;
  }

  /** Every genuine reference is a word that could be one. */
  lemma ClosedStays(fields: Fields, marks: set<Obj>, marks': set<Obj>)
    requires Closed(fields, marks) && marks <= marks' && NewClosed(AsPointers(fields), marks, marks')
    ensures Closed(fields, marks')
  {
    forall o, q | o in fields && o in marks' && Ptr(q) in fields[o] && q in fields ensures q in marks' {
      NamesIsPointer(fields, o, q);
    }
  }

  // ---- Disappearing links ----

  /** The heap, the words outside it that are roots by their addresses, and the marked objects. */
  datatype Heap = Heap(fields: Fields, roots: map<nat, Word>, marks: set<Obj>)

  /** The heap's own requirements: marked things are objects, and null is not the address of one. */
  predicate HeapOk(h: Heap) {
    h.marks <= h.fields.Keys && 0 !in h.fields
  }

  /** The objects that words of the roots name. */
  function RootNames(h: Heap): (names: set<Obj>)
    ensures names <= h.fields.Keys
  {
    set l | l in h.roots && h.roots[l].Value() in h.fields :: h.roots[l].Value()
  }

  /** The objects that the roots genuinely refer to. */
  function RootRefs(h: Heap): set<Obj> {
    set l | l in h.roots && h.roots[l].Ptr? :: h.roots[l].target
  }

  function WordAddress(o: Obj, i: nat): nat {
    o + i * ALIGNMENT
  }

  /** The words of the object at `o` after those at addresses in `links` have been set to 0. */
  function ClearedWords(ws: seq<Word>, o: Obj, links: seq<Address>): (r: seq<Word>)
    ensures |r| == |ws|
  {
    seq(|ws|, i requires 0 <= i < |ws| => if WordAddress(o, i) in links then Int(0) else ws[i])
  }

  /** The heap after the words at addresses in `links` have been set to 0. */
  function Cleared(h: Heap, links: seq<Address>): (c: Heap)
    ensures c.fields.Keys == h.fields.Keys && c.marks == h.marks
  {
    h.(fields := map o | o in h.fields :: ClearedWords(h.fields[o], o, links),
       roots := map l | l in h.roots :: if l in links then Int(0) else h.roots[l])
  }

  lemma ClearedNothing(h: Heap)
    ensures Cleared(h, []) == h
  {
    forall o | o in h.fields ensures ClearedWords(h.fields[o], o, []) == h.fields[o] {
    }
  }

  lemma ClearedOneMore(h: Heap, links: seq<Address>, l: Address)
    ensures Cleared(Cleared(h, links), [l]) == Cleared(h, links + [l])
  {
    var c, d := Cleared(Cleared(h, links), [l]), Cleared(h, links + [l]);
    forall o | o in h.fields ensures c.fields[o] == d.fields[o] {
    }
    assert c.fields == d.fields && c.roots == d.roots;
  }

  /** Clearing adds no reference and no name. */
  lemma ClearingOnlyRemoves(h: Heap, links: seq<Address>, o: Obj, q: Obj)
    requires o in h.fields
    ensures Ptr(q) in Cleared(h, links).fields[o] ==> Ptr(q) in h.fields[o]
    ensures Names(Cleared(h, links).fields, o, q) && q != 0 ==> Names(h.fields, o, q)
  {
    var ws := Cleared(h, links).fields[o];
    if Ptr(q) in ws {
      var i :| 0 <= i < |ws| && ws[i] == Ptr(q);
      assert h.fields[o][i] == Ptr(q);
    }
    if Names(Cleared(h, links).fields, o, q) && q != 0 {
      var i :| 0 <= i < |ws| && ws[i].Value() == q;
      assert h.fields[o][i].Value() == q;
    }
  }

  /** So marks that were closed stay closed, for genuine references and for names. */
  lemma ClearingKeepsClosed(h: Heap, links: seq<Address>)
    requires HeapOk(h)
    ensures Closed(h.fields, h.marks) ==> Closed(Cleared(h, links).fields, h.marks)
    ensures Closed(AsPointers(h.fields), h.marks) ==> Closed(AsPointers(Cleared(h, links).fields), h.marks)
  {
    var c := Cleared(h, links);
    forall o, q | o in h.fields && o in h.marks && Ptr(q) in c.fields[o] && q in h.fields && Closed(h.fields, h.marks)
      ensures q in h.marks
    {
      ClearingOnlyRemoves(h, links, o, q);
    }
    forall o, q | o in h.fields && o in h.marks && Ptr(q) in AsPointers(c.fields)[o] && q in h.fields
        && Closed(AsPointers(h.fields), h.marks)
      ensures q in h.marks
    {
      NamesIsPointer(c.fields, o, q);
      ClearingOnlyRemoves(h, links, o, q);
      NamesIsPointer(h.fields, o, q);
    }
  }

  predicate RefersOnlyTo(h: Heap, w: Word, o: Obj) {
    w.Ptr? && w.target in h.fields ==> w.target == o
  }

  /** A link whose word holds a genuine reference to an object holds one to its own object, as documented. */
  ghost predicate OwnLinks(h: Heap, lm: map<Address, Address>) {
    && (forall o, i :: o in h.fields && 0 <= i < |h.fields[o]| && WordAddress(o, i) in lm ==>
          RefersOnlyTo(h, h.fields[o][i], lm[WordAddress(o, i)]))
    && (forall l :: l in h.roots && l in lm ==> RefersOnlyTo(h, h.roots[l], lm[l]))
  }

  /** The links that GC_finalize clears. */
  ghost predicate Doomed(h: Heap, lm: map<Address, Address>, zeroed: seq<Address>) {
    forall l :: l in zeroed <==> l in lm && lm[l] !in h.marks
  }

  /** Word `i` of the marked object at `o` genuinely refers to an object. */
  predicate LiveWord(h: Heap, o: Obj, i: nat) {
    o in h.fields && o in h.marks && i < |h.fields[o]| && h.fields[o][i].Ptr? && h.fields[o][i].target in h.fields
  }

  /** References in marked objects are safe exactly if each link on one belongs to an object that is still marked. */
  lemma ReferencesStayExactly(h: Heap, lm: map<Address, Address>, zeroed: seq<Address>)
    requires Doomed(h, lm, zeroed)
    ensures (forall o, i :: LiveWord(h, o, i) ==> LiveWord(Cleared(h, zeroed), o, i))
      <==> (forall o, i :: LiveWord(h, o, i) && WordAddress(o, i) in lm ==> lm[WordAddress(o, i)] in h.marks)
  {
    var c := Cleared(h, zeroed);
    forall o, i | LiveWord(h, o, i) ensures LiveWord(c, o, i) <==> WordAddress(o, i) !in zeroed {
    }
  }

  /**
    With links of one's own they are: a reference from a marked object is not cleared, as what it
    refers to is marked.
   */
  lemma MarkedReferencesStay(h: Heap, lm: map<Address, Address>, zeroed: seq<Address>, o: Obj, q: Obj)
    requires OwnLinks(h, lm) && Doomed(h, lm, zeroed) && Closed(h.fields, h.marks)
    requires o in h.fields && o in h.marks && q in h.fields && Ptr(q) in h.fields[o]
    ensures Ptr(q) in Cleared(h, zeroed).fields[o]
  {
    var i :| 0 <= i < |h.fields[o]| && h.fields[o][i] == Ptr(q);
    assert q in h.marks;
    assert Cleared(h, zeroed).fields[o][i] == Ptr(q);
  }

  /** What is reachable from the roots, or from anything marked, is the same after links have disappeared. */
  lemma ClearingKeepsReachable(h: Heap, lm: map<Address, Address>, zeroed: seq<Address>, start: set<Obj>, x: Obj)
    requires HeapOk(h) && OwnLinks(h, lm) && Doomed(h, lm, zeroed) && Closed(h.fields, h.marks)
    requires start * h.fields.Keys <= h.marks
    ensures Reachable(h.fields, start, x) <==> Reachable(Cleared(h, zeroed).fields, start, x)
  {
    var c := Cleared(h, zeroed);
    if Reachable(h.fields, start, x) {
      var path :| IsPath(h.fields, start, path) && path[|path| - 1] == x;
      forall k | 0 < k < |path| ensures Ptr(path[k]) in c.fields[path[k - 1]] {
        assert IsPath(h.fields, start, path[..k]) && path[..k][k - 1] == path[k - 1];
        PathStaysMarked(h.fields, h.marks, start, path[..k]);
        MarkedReferencesStay(h, lm, zeroed, path[k - 1], path[k]);
      }
      assert IsPath(c.fields, start, path);
    }
    if Reachable(c.fields, start, x) {
      var path :| IsPath(c.fields, start, path) && path[|path| - 1] == x;
      forall k | 0 < k < |path| ensures Ptr(path[k]) in h.fields[path[k - 1]] {
        ClearingOnlyRemoves(h, zeroed, path[k - 1], path[k]);
      }
      assert IsPath(h.fields, start, path);
    }
  }

  /** Nor does a root lose a reference. */
  lemma ClearingKeepsRoots(h: Heap, lm: map<Address, Address>, zeroed: seq<Address>)
    requires OwnLinks(h, lm) && Doomed(h, lm, zeroed) && RootRefs(h) * h.fields.Keys <= h.marks
    ensures RootRefs(Cleared(h, zeroed)) * h.fields.Keys == RootRefs(h) * h.fields.Keys
  {
    var c := Cleared(h, zeroed);
    forall q | q in RootRefs(h) && q in h.fields ensures q in RootRefs(c) {
      var l :| l in h.roots && h.roots[l].Ptr? && h.roots[l].target == q;
      assert q in RootRefs(h) * h.fields.Keys;
      assert c.roots[l] == h.roots[l];
    }
    forall q | q in RootRefs(c) ensures q in RootRefs(h) {
      var l :| l in c.roots && c.roots[l].Ptr? && c.roots[l].target == q;
      assert h.roots[l] == c.roots[l];
    }
  }

  /**
    A link on a word that refers to some other object cuts off what is in use: here object 32,
    reachable through object 16, when object 48 dies.
   */
  lemma ForeignLinkCuts()
    ensures var h := Heap(map[16 := [Ptr(32)], 32 := [], 48 := []], map[8 := Ptr(16)], {16, 32});
            && HeapOk(h) && Closed(h.fields, h.marks) && RootRefs(h) == {16}
            && Doomed(h, map[16 as Address := 48], [16])
            && Reachable(h.fields, {16}, 32) && !Reachable(Cleared(h, [16]).fields, {16}, 32)
  {
    var h := Heap(map[16 := [Ptr(32)], 32 := [], 48 := []], map[8 := Ptr(16)], {16, 32});
    assert h.roots[8] == Ptr(16) && RootRefs(h) == {16};
    assert IsPath(h.fields, {16}, [16, 32]) && [16, 32][1] == 32;
    var c := Cleared(h, [16]);
    assert WordAddress(16, 0) == 16 && c.fields[16] == [Int(0)];
    ClosedContainsReachable(c.fields, {16}, {16});
  }

  // ---- What finalization promises ----

  /** What a call of GC_finalize leaves behind: links cleared, objects queued, and the heap. */
  datatype Result = Result(zeroed: seq<Address>, queued: seq<Address>, after: Heap)

  /**
    The outcome of GC_finalize on heap `h` for the links `lm` and finalizers `fm`, where `middle`
    are the marks after marking from finalizable objects. Marking sees the heap with the links cleared.
   */
  ghost predicate Finalized(h: Heap, lm: map<Address, Address>, fm: map<Address, Finalizer>,
      overflows: Address -> bool, middle: set<Obj>, r: Result) {
    && Doomed(h, lm, r.zeroed)
    && r.after == Cleared(h, r.zeroed).(marks := middle + set a | a in r.queued)
    && h.marks <= middle <= h.fields.Keys && NewClosed(AsPointers(r.after.fields), h.marks, middle)
    && (forall a :: a in fm && a !in h.marks ==> Targets(r.after.fields, fm[a].proc, a) <= middle)
    && NoMoreMarked(r.after.fields, fm, overflows, RootNames(Cleared(h, r.zeroed)), h.marks, middle)
    && (forall a :: a in r.queued <==> a in fm && a !in middle)
    && (forall j, k :: 0 <= j < k < |r.queued| ==> r.queued[j] != r.queued[k])
  }

  /**
    No queued object can be reached from the roots or from what was marked, nor, once links have
    disappeared, through any finalizable object, itself included.
   */
  lemma QueuedIsUnreachable(h: Heap, lm: map<Address, Address>, fm: map<Address, Finalizer>, overflows: Address -> bool,
                            middle: set<Obj>, r: Result, q: Address)
    requires Finalized(h, lm, fm, overflows, middle, r) && q in r.queued
    requires HeapOk(h) && Closed(h.fields, h.marks) && RootRefs(h) * h.fields.Keys <= h.marks
    ensures !Reachable(h.fields, RootRefs(h) + h.marks, q)
    ensures forall a :: a in fm && a !in h.marks ==>
      !Reachable(r.after.fields, Targets(r.after.fields, fm[a].proc, a), q)
  {
    ClosedContainsReachable(h.fields, h.marks, RootRefs(h) + h.marks);
    ClearingKeepsClosed(h, r.zeroed);
    ClosedStays(r.after.fields, h.marks, middle);
    forall a | a in fm && a !in h.marks
      ensures !Reachable(r.after.fields, Targets(r.after.fields, fm[a].proc, a), q)
    {
      ClosedContainsReachable(r.after.fields, middle, Targets(r.after.fields, fm[a].proc, a));
    }
  }

  /** Words that could be references lead from some unmarked finalizable object to `q`. */
  ghost predicate LedWithoutOverflow(fields: Fields, marks: set<Obj>, fm: map<Address, Finalizer>, q: Obj) {
    exists a :: a in fm && a !in marks && Reachable(AsPointers(fields), Targets(fields, fm[a].proc, a), q)
  }

  /**
    Without overflow an unmarked finalizable object is queued if no words lead to it once links have
    disappeared; if the marks already account for all words, then only if.
   */
  lemma QueuedExactly(h: Heap, lm: map<Address, Address>, fm: map<Address, Finalizer>, overflows: Address -> bool,
                      middle: set<Obj>, r: Result, q: Address)
    requires Finalized(h, lm, fm, overflows, middle, r) && HeapOk(h) && forall a :: a in fm ==> !overflows(a)
    ensures q in fm && q !in h.marks && !LedWithoutOverflow(r.after.fields, h.marks, fm, q) ==> q in r.queued
    ensures Closed(AsPointers(h.fields), h.marks) && q in r.queued ==>
              q in fm && q !in h.marks && !LedWithoutOverflow(r.after.fields, h.marks, fm, q)
  {
    var fields := r.after.fields;
    ClearingKeepsClosed(h, r.zeroed);
    if LedWithoutOverflow(fields, h.marks, fm, q) && Closed(AsPointers(h.fields), h.marks) {
      var a :| a in fm && a !in h.marks && Reachable(AsPointers(fields), Targets(fields, fm[a].proc, a), q);
      ClosedContainsReachable(AsPointers(fields), middle, Targets(fields, fm[a].proc, a));
    }
  }

  /** Word `i` of the object at `o`. */
  datatype Step = Step(o: Obj, i: nat)

  predicate WordNames(fields: Fields, s: Step, q: Obj) {
    s.o in fields && s.i < |fields[s.o]| && fields[s.o][s.i].Value() == q
  }

  /**
    Each word names the object of the next one and the last names `q`; the mark procedure of the
    first object follows its word.
   */
  ghost predicate Chain(fields: Fields, proc: MarkProc, steps: seq<Step>, q: Obj) {
    && steps != [] && q in fields && proc != Null
    && (forall k :: 0 <= k < |steps| - 1 ==> WordNames(fields, steps[k], steps[k + 1].o))
    && WordNames(fields, steps[|steps| - 1], q)
    && (proc == IgnoreSelf ==> !WordNames(fields, steps[0], steps[0].o))
  }

  /** A word of the chain has disappeared. */
  ghost predicate Broken(steps: seq<Step>, links: seq<Address>) {
    exists k :: 0 <= k < |steps| && WordAddress(steps[k].o, steps[k].i) in links
  }

  /** A chain is a path from what the mark procedure of its first object pushes. */
  lemma {:induction false} ChainIsPath(fields: Fields, proc: MarkProc, steps: seq<Step>, q: Obj)
    requires Chain(fields, proc, steps, q)
    ensures Reachable(AsPointers(fields), Targets(fields, proc, steps[0].o), q)
    decreases |steps|
  {
    var last, n := steps[|steps| - 1], |steps| - 1;
    var ptrs, start := AsPointers(fields), Targets(fields, proc, steps[0].o);
    assert Names(fields, last.o, q);
    NamesIsPointer(fields, last.o, q);
    if n == 0 {
      assert IsPath(ptrs, start, [q]) && [q][0] == q;
    } else {
      assert WordNames(fields, steps[n - 1], last.o) && steps[..n][n - 1] == steps[n - 1];
      ChainIsPath(fields, proc, steps[..n], last.o);
      ReachableStep(ptrs, start, last.o, q);
    }
  }

  /** And every such path is a chain. */
  lemma {:induction false} PathIsChain(fields: Fields, proc: MarkProc, a: Obj, path: seq<Obj>)
      returns (steps: seq<Step>)
    requires IsPath(AsPointers(fields), Targets(fields, proc, a), path)
    ensures Chain(fields, proc, steps, path[|path| - 1]) && steps[0].o == a
    decreases |path|
  {
    var n := |path| - 1;
    if n == 0 {
      var i :| 0 <= i < |fields[a]| && fields[a][i].Value() == path[0];
      steps := [Step(a, i)];
    } else {
      assert IsPath(AsPointers(fields), Targets(fields, proc, a), path[..n]);
      var before := PathIsChain(fields, proc, a, path[..n]);
      assert Ptr(path[n]) in AsPointers(fields)[path[n - 1]];
      NamesIsPointer(fields, path[n - 1], path[n]);
      var i :| 0 <= i < |fields[path[n - 1]]| && fields[path[n - 1]][i].Value() == path[n];
      steps := before + [Step(path[n - 1], i)];
    }
  }

  /** The chains left once links have disappeared are the unbroken ones. */
  lemma ChainsLeft(h: Heap, links: seq<Address>, proc: MarkProc, steps: seq<Step>, q: Obj)
    requires HeapOk(h)
    ensures Chain(Cleared(h, links).fields, proc, steps, q) <==>
      Chain(h.fields, proc, steps, q) && !Broken(steps, links)
  {
    var c := Cleared(h, links);
    if Chain(c.fields, proc, steps, q) {
      forall k | 0 <= k < |steps| ensures WordAddress(steps[k].o, steps[k].i) !in links {
        if k + 1 < |steps| {
          assert WordNames(c.fields, steps[k + 1], if k + 2 < |steps| then steps[k + 2].o else q);
          assert WordNames(c.fields, steps[k], steps[k + 1].o) && steps[k + 1].o in h.fields;
        }
      }
      forall k | 0 <= k < |steps| - 1 ensures WordNames(h.fields, steps[k], steps[k + 1].o) {
        assert WordNames(c.fields, steps[k], steps[k + 1].o);
      }
    }
  }

  /** A chain of words leads from the unmarked finalizable object at `a` to `q`. */
  ghost predicate ChainFrom(h: Heap, fm: map<Address, Finalizer>, a: Address, steps: seq<Step>, q: Obj) {
    a in fm && a !in h.marks && Chain(h.fields, fm[a].proc, steps, q) && steps[0].o == a
  }

  /** Every chain of words from an unmarked finalizable object to `q` goes through a link that disappears. */
  ghost predicate AllBroken(h: Heap, fm: map<Address, Finalizer>, links: seq<Address>, q: Obj) {
    forall a, steps :: ChainFrom(h, fm, a, steps, q) ==> Broken(steps, links)
  }

  lemma AllBrokenExactly(h: Heap, fm: map<Address, Finalizer>, links: seq<Address>, q: Obj)
    requires HeapOk(h)
    ensures AllBroken(h, fm, links, q) <==> !LedWithoutOverflow(Cleared(h, links).fields, h.marks, fm, q)
  {
    var fields := Cleared(h, links).fields;
    if LedWithoutOverflow(fields, h.marks, fm, q) {
      var a :| a in fm && a !in h.marks && Reachable(AsPointers(fields), Targets(fields, fm[a].proc, a), q);
      var path :| IsPath(AsPointers(fields), Targets(fields, fm[a].proc, a), path) && path[|path| - 1] == q;
      var steps := PathIsChain(fields, fm[a].proc, a, path);
      ChainsLeft(h, links, fm[a].proc, steps, q);
      assert ChainFrom(h, fm, a, steps, q);
    }
    forall a, steps | ChainFrom(h, fm, a, steps, q) && !LedWithoutOverflow(fields, h.marks, fm, q)
      ensures Broken(steps, links)
    {
      ChainsLeft(h, links, fm[a].proc, steps, q);
      if !Broken(steps, links) { ChainIsPath(fields, fm[a].proc, steps, q); }
    }
  }

  /**
    The documented use of links: an unmarked finalizable object is queued if every chain of words that
    leads to it from an unmarked finalizable object, such as a cycle through itself, goes through a
    link that disappears; and only if, when the marks account for all words.
   */
  lemma BrokenCyclesAreFinalized(h: Heap, lm: map<Address, Address>, fm: map<Address, Finalizer>,
      overflows: Address -> bool, middle: set<Obj>, r: Result, q: Address)
    requires Finalized(h, lm, fm, overflows, middle, r) && HeapOk(h) && forall a :: a in fm ==> !overflows(a)
    ensures q in fm && q !in h.marks && AllBroken(h, fm, r.zeroed, q) ==> q in r.queued
    ensures Closed(AsPointers(h.fields), h.marks) && q in r.queued ==> q !in h.marks && AllBroken(h, fm, r.zeroed, q)
  {
    AllBrokenExactly(h, fm, r.zeroed, q);
    QueuedExactly(h, lm, fm, overflows, middle, r, q);
  }

  /** An ordered or ignore-self finalizer's object survives with everything it reaches once links have disappeared. */
  lemma QueuedSurvives(h: Heap, lm: map<Address, Address>, fm: map<Address, Finalizer>, overflows: Address -> bool,
                       middle: set<Obj>, r: Result, q: Address)
    requires Finalized(h, lm, fm, overflows, middle, r) && HeapOk(h) && Closed(h.fields, h.marks) && q in r.queued
      && fm[q].proc != Null
    ensures forall x :: Reachable(r.after.fields, {q}, x) ==> x in r.after.marks
  {
    var fields, kept := r.after.fields, middle + {q};
    ClearingKeepsClosed(h, r.zeroed);
    ClosedStays(fields, h.marks, middle);
    assert Closed(fields, kept) by {
      forall p | p in fields && q in fields && Ptr(p) in fields[q] ensures p in kept {
        NamesIsPointer(fields, q, p);
        assert p in Targets(fields, fm[q].proc, q) || p == q;
      }
    }
    ClosedContainsReachable(fields, kept, {q});
  }

  /** If no finalizer is unordered, the marks are closed again when GC_finalize is done. */
  lemma MarksClosedAgain(h: Heap, lm: map<Address, Address>, fm: map<Address, Finalizer>, overflows: Address -> bool,
      middle: set<Obj>, r: Result)
    requires Finalized(h, lm, fm, overflows, middle, r) && HeapOk(h) && Closed(h.fields, h.marks)
    requires forall a :: a in fm ==> fm[a].proc != Null
    ensures Closed(r.after.fields, r.after.marks)
  {
    var fields := r.after.fields;
    ClearingKeepsClosed(h, r.zeroed);
    ClosedStays(fields, h.marks, middle);
    forall o, q | o in fields && o in r.after.marks && Ptr(q) in fields[o] && q in fields ensures q in r.after.marks {
      NamesIsPointer(fields, o, q);
      if o !in middle {
        assert q in Targets(fields, fm[o].proc, o) || q == o;
      }
    }
  }

  /** The heap of the example below: the object at 16 refers to the one at 32. */
  const Example := Heap(map[16 := [Ptr(32)], 32 := []], map[], {})

  /** What GC_finalize leaves if the object at 16 has an unordered finalizer. */
  const Outcome := Result([], [16], Example.(marks := {16}))

  function OneFinalizer(proc: MarkProc): map<Address, Finalizer> {
    map[16 as Address := Finalizer(0, 0, 0, proc)]
  }

  /**
    Unordered finalizers break this promise: here the object at 16 is queued and marked, but the one
    at 32, which its finalizer may use, is not, and will be swept.
   */
  lemma UnorderedLosesReferent()
    ensures Finalized(Example, map[], OneFinalizer(Null), a => false, {}, Outcome)
    ensures HeapOk(Example) && Closed(Example.fields, Example.marks)
    ensures Reachable(Outcome.after.fields, {16}, 32) && 32 !in Outcome.after.marks
  {
    ClearedNothing(Example);
    assert IsPath(Example.fields, {16}, [16, 32]) && [16, 32][1] == 32;
    assert {} + (set a | a in Outcome.queued) == {16};
  }

  /** A call of GC_finalize without mark stack overflow. */
  datatype Call = Call(h: Heap, lm: map<Address, Address>, fm: map<Address, Finalizer>, middle: set<Obj>, r: Result)

  /** In this call an object that queued object `q` reaches is left unmarked. */
  ghost predicate Loses(c: Call, proc: MarkProc, q: Address, x: Obj) {
    && Finalized(c.h, c.lm, c.fm, a => false, c.middle, c.r) && HeapOk(c.h) && Closed(c.h.fields, c.h.marks)
    && q in c.r.queued && q in c.fm && c.fm[q].proc == proc
    && Reachable(c.r.after.fields, {q}, x) && x !in c.r.after.marks
  }

  /** A mark procedure keeps what queued objects reach, whatever the heap, exactly if it is not the null one. */
  lemma KeepsReferentsExactly(proc: MarkProc)
    ensures (forall c, q, x :: !Loses(c, proc, q, x)) <==> proc != Null
  {
    if proc == Null {
      UnorderedLosesReferent();
      assert Loses(Call(Example, map[], OneFinalizer(Null), {}, Outcome), proc, 16, 32);
    } else {
      forall c, q, x ensures !Loses(c, proc, q, x) {
        if Loses(c, proc, q, x) {
          QueuedSurvives(c.h, c.lm, c.fm, a => false, c.middle, c.r, q);
        }
      }
    }
  }

  // ---- The tables and the queue ----

  datatype LinkResult = Added | Replaced | OutOfMemory | NotFound | Removed | Aborted | Faulted

  /** Links in the table whose object is unmarked, and links that lie in an unmarked object, are gone. */
  ghost predicate LinksAfter(lm: map<Address, Address>, lm': map<Address, Address>, marks: set<Obj>, final: set<Obj>,
      baseOf: Address -> Obj) {
    && (forall l :: l in lm' <==> l in lm && lm[l] in marks && (baseOf(l) == 0 || baseOf(l) in final))
    && (forall l :: l in lm' ==> lm'[l] == lm[l])
  }

  class Finalization {
    var links: Table<Address>
    var finalizers: Table<Finalizer>
    /** GC_finalize_now: the objects to be finalized, last queued first. */
    var ready: seq<(Address, Finalizer)>
    ghost var lm: map<Address, Address>
    ghost var fm: map<Address, Finalizer>

    ghost predicate Valid()
      reads this
    {
      Represents(links, lm) && Represents(finalizers, fm)
    }

    constructor ()
      ensures Valid() && lm == map[] && fm == map[] && ready == []
    {
      links, finalizers, ready := Empty(), Empty(), [];
      lm, fm := map[], map[];
    }

    /** GC_general_register_disappearing_link. */
    method RegisterLink(link: Address, obj: Address, canGrow: bool, canAllocate: bool) returns (r: LinkResult)
      requires Valid()
      modifies this
      ensures Valid() && fm == old(fm) && ready == old(ready) && finalizers == old(finalizers)
      ensures r == Aborted <==> link % ALIGNMENT != 0 || link == 0 || (old(links.log) == -1 && !canGrow)
      ensures r == Added || r == Replaced ==> lm == old(lm)[link := obj] && (r == Replaced <==> link in old(lm))
      ensures r != Added && r != Replaced ==> lm == old(lm)
      ensures r == OutOfMemory <==> r != Aborted && link !in old(lm) && !canAllocate
      ensures r in {Added, Replaced, OutOfMemory, Aborted}
    {
      if link % ALIGNMENT != 0 || link == 0 { return Aborted; }
      links := MakeRoom(links, canGrow, lm);
      if links.log == -1 { return Aborted; }
      var j := Find(links, link, lm);
      var found := j < |links.buckets[Hash(link, links.log)]|;
      if !found && !canAllocate { return OutOfMemory; }
      links := Put(links, link, obj, lm);
      lm := lm[link := obj];
      r := if found then Replaced else Added;
    }

    /**
      GC_unregister_disappearing_link. Called with an aligned link before anything was registered,
      the code indexes a table that does not exist.
     */
    method UnregisterLink(link: Address) returns (r: LinkResult)
      requires Valid()
      modifies this
      ensures Valid() && fm == old(fm) && ready == old(ready) && finalizers == old(finalizers)
      ensures r == Faulted <==> link % ALIGNMENT == 0 && old(links.log) == -1
      ensures r == Removed <==> link % ALIGNMENT == 0 && link in old(lm)
      ensures lm == if r == Removed then old(lm) - {link} else old(lm)
      ensures r in {Faulted, Removed, NotFound}
    {
      if link % ALIGNMENT != 0 { return NotFound; }
      if links.log == -1 { return Faulted; }
      var found;
      links, found := Remove(links, link, lm);
      if found {
        lm := lm - {link};
        return Removed;
      }
      assert lm - {link} == lm;
      return NotFound;
    }

    /**
      GC_register_finalizer_inner: install, replace or, for a null function, remove the finalizer
      of an object. `size` is 0 for an object outside the heap. The result is the old finalizer,
      if there was one.
     */
    method RegisterFinalizer(obj: Address, fn: nat, data: nat, proc: MarkProc, size: nat, canGrow: bool,
        canAllocate: bool)
      returns (aborted: bool, was: seq<Finalizer>)
      requires Valid()
      modifies this
      ensures Valid() && lm == old(lm) && ready == old(ready) && links == old(links)
      ensures aborted <==> old(finalizers.log) == -1 && !canGrow
      ensures !aborted ==> was == if obj in old(fm) then [old(fm)[obj]] else []
      ensures !aborted && obj in old(fm) ==>
                fm == if fn == 0 then old(fm) - {obj} else old(fm)[obj := Finalizer(fn, data, old(fm)[obj].size, proc)]
      ensures aborted || obj !in old(fm) ==>
                fm == if !aborted && fn != 0 && size != 0
                    && canAllocate then old(fm)[obj := Finalizer(fn, data, size, proc)] else old(fm)
    {
      was, aborted := [], false;
      finalizers := MakeRoom(finalizers, canGrow, fm);
      if finalizers.log == -1 { aborted := true; return; }
      var j := Find(finalizers, obj, fm);
      var chain := finalizers.buckets[Hash(obj, finalizers.log)];
      if j < |chain| {
        was := [chain[j].value];
        if fn == 0 {
          var found;
          finalizers, found := Remove(finalizers, obj, fm);
          fm := fm - {obj};
        } else {
          var f := Finalizer(fn, data, was[0].size, proc);
          finalizers := Put(finalizers, obj, f, fm);
          fm := fm[obj := f];
        }
      } else if fn != 0 && size != 0 && canAllocate {
        var f := Finalizer(fn, data, size, proc);
        finalizers := Put(finalizers, obj, f, fm);
        fm := fm[obj := f];
      }
    }

    /**
      GC_finalize. `baseOf` is GC_base for link addresses and `overflows` says for which objects the
      mark stack overflows.
     */
    method Run(h: Heap, baseOf: Address -> Obj, overflows: Address -> bool) returns (r: Result, ghost middle: set<Obj>)
      requires Valid() && HeapOk(h) && forall a :: a in fm ==> a in h.fields
      modifies this
      ensures Valid() && Finalized(h, old(lm), old(fm), overflows, middle, r)
      ensures LinksAfter(old(lm), lm, h.marks, r.after.marks, baseOf)
      ensures FinalizersAfter(old(fm), fm, middle) && QueuedInFront(old(ready), ready, r.queued, old(fm))
    {
      links, finalizers, ready, r, middle, lm,
          fm := FinalizeTables(links, finalizers, ready, h, baseOf, overflows, lm, fm);
    }
  }

  /** The queue after objects were put in front of it one by one. */
  ghost predicate QueuedInFront(before: seq<(Address, Finalizer)>, after: seq<(Address, Finalizer)>,
      queued: seq<Address>, fm: map<Address, Finalizer>) {
    && |after| == |queued| + |before| && after[|queued|..] == before
    && (forall k :: 0 <= k < |queued| ==> queued[k] in fm && after[|queued| - 1 - k] == (queued[k], fm[queued[k]]))
  }

  method FinalizeTables(links: Table<Address>, finalizers: Table<Finalizer>, ready: seq<(Address, Finalizer)>,
                        h: Heap, baseOf: Address -> Obj, overflows: Address -> bool,
                        ghost lm: map<Address, Address>, ghost fm: map<Address, Finalizer>)
    returns (links': Table<Address>, finalizers': Table<Finalizer>, ready': seq<(Address, Finalizer)>, r: Result,
             ghost middle: set<Obj>, ghost lm': map<Address, Address>, ghost fm': map<Address, Finalizer>)
    requires Represents(links, lm) && Represents(finalizers, fm)
    requires HeapOk(h) && forall a :: a in fm ==> a in h.fields
    ensures Represents(links', lm') && Represents(finalizers', fm')
    ensures Finalized(h, lm, fm, overflows, middle, r)
    ensures LinksAfter(lm, lm', h.marks, r.after.marks, baseOf) && FinalizersAfter(fm, fm', middle)
    ensures QueuedInFront(ready, ready', r.queued, fm)
  {
    var c, zeroed, queued, table, m;
    links', c, zeroed, lm' := ClearLinks(links, h, lm);
    m, table := MarkPhase(c, finalizers, overflows, fm);
    middle := m;
    finalizers', queued, fm' := TakeUnmarked(finalizers, m, fm);
    r := Result(zeroed, queued, c.(marks := m + set a | a in queued));
    ready' := Enqueue(ready, queued, table);
    links', lm' := RemoveDangling(links', r.after.marks, baseOf, lm');
  }

  /** The finalizers of marked objects stay. */
  ghost predicate FinalizersAfter(fm: map<Address, Finalizer>, fm': map<Address, Finalizer>, marks: set<Obj>) {
    (forall a :: a in fm' <==> a in fm && a in marks) && (forall a :: a in fm' ==> fm'[a] == fm[a])
  }

  method Enqueue(ready: seq<(Address, Finalizer)>, queued: seq<Address>, table: map<Address, Finalizer>)
      returns (ready': seq<(Address, Finalizer)>)
    requires forall a :: a in queued ==> a in table
    ensures QueuedInFront(ready, ready', queued, table)
  {
    ready' := ready;
    for i := 0 to |queued|
      invariant |ready'| == i + |ready| && ready'[i..] == ready
      invariant forall k :: 0 <= k < i ==> ready'[i - 1 - k] == (queued[k], table[queued[k]])
    {
      ready' := [(queued[i], table[queued[i]])] + ready';
    }
  }

  /** The values stored for some keys. */
  method Values(t: Table<Finalizer>, keys: seq<Address>, ghost m: map<Address, Finalizer>)
      returns (table: map<Address, Finalizer>)
    requires Represents(t, m) && forall a :: a in keys ==> a in m
    ensures forall a :: a in table <==> a in keys
    ensures forall a :: a in keys ==> table[a] == m[a]
  {
    table := map[];
    for i := 0 to |keys|
      invariant forall a :: a in table <==> a in keys[..i]
      invariant forall a :: a in table ==> a in m && table[a] == m[a]
    {
      var a := keys[i];
      assert a in keys && keys[..i + 1] == keys[..i] + [a];
      var j := Find(t, a, m);
      table := table[a := t.buckets[Hash(a, t.log)][j].value];
    }
    assert keys[..|keys|] == keys;
  }

  /** The first loop of GC_finalize: links to unmarked objects are set to 0, wherever they are, and forgotten. */
  method ClearLinks(t: Table<Address>, h: Heap, ghost m: map<Address, Address>)
    returns (t': Table<Address>, c: Heap, zeroed: seq<Address>, ghost m': map<Address, Address>)
    requires Represents(t, m)
    ensures Represents(t', m') && (forall l :: l in m' <==> l in m && m[l] in h.marks)
      && (forall l :: l in m' ==> m'[l] == m[l])
    ensures Doomed(h, m, zeroed) && c == Cleared(h, zeroed)
  {
    t', zeroed := Filter(t, (l: Address, o: Address) => o in h.marks, m);
    m' := Kept(m, (l: Address, o: Address) => o in h.marks);
    c := ZeroWords(h, zeroed);
  }

  /** The words at some addresses are set to 0, one by one. */
  method ZeroWords(h: Heap, links: seq<Address>) returns (c: Heap)
    ensures c == Cleared(h, links)
  {
    c := h;
    ClearedNothing(h);
    for n := 0 to |links|
      invariant c == Cleared(h, links[..n])
    {
      ClearedOneMore(h, links[..n], links[n]);
      assert links[..n + 1] == links[..n] + [links[n]];
      c := Cleared(c, [links[n]]);
    }
    assert links[..|links|] == links;
  }

  /** The second loop, with what the table says about each object. */
  method MarkPhase(h: Heap, t: Table<Finalizer>, overflows: Address -> bool, ghost m: map<Address, Finalizer>)
    returns (marks': set<Obj>, table: map<Address, Finalizer>)
    requires Represents(t, m) && HeapOk(h) && forall a :: a in m ==> a in h.fields
    ensures table == m && h.marks <= marks' <= h.fields.Keys && NewClosed(AsPointers(h.fields), h.marks, marks')
    ensures forall a :: a in m && a !in h.marks ==> Targets(h.fields, m[a].proc, a) <= marks'
    ensures NoMoreMarked(h.fields, m, overflows, RootNames(h), h.marks, marks')
  {
    var keys := KeysInOrder(t, m);
    table := Values(t, keys, m);
    assert table == m;
    var procs := map a | a in table :: table[a].proc;
    marks' := MarkFromFinalizable(h.fields, RootNames(h), h.marks, keys, procs, overflows, m);
  }

  /** The third loop: unmarked objects leave the table, in the order met. */
  method TakeUnmarked(t: Table<Finalizer>, marks: set<Obj>, ghost m: map<Address, Finalizer>)
    returns (t': Table<Finalizer>, queued: seq<Address>, ghost m': map<Address, Finalizer>)
    requires Represents(t, m)
    ensures Represents(t', m') && (forall a :: a in m' <==> a in m && a in marks)
      && (forall a :: a in m' ==> m'[a] == m[a])
    ensures forall a :: a in queued <==> a in m && a !in marks
    ensures forall j, k :: 0 <= j < k < |queued| ==> queued[j] != queued[k]
  {
    t', queued := Filter(t, (a: Address, f: Finalizer) => a in marks, m);
    m' := Kept(m, (a: Address, f: Finalizer) => a in marks);
  }

  /** The last loop: links that lie in unmarked objects are forgotten. */
  method RemoveDangling(t: Table<Address>, marks: set<Obj>, baseOf: Address -> Obj, ghost m: map<Address, Address>)
    returns (t': Table<Address>, ghost m': map<Address, Address>)
    requires Represents(t, m)
    ensures Represents(t', m') && forall l :: l in m' <==> l in m && (baseOf(l) == 0 || baseOf(l) in marks)
    ensures forall l :: l in m' ==> m'[l] == m[l]
  {
    var removed;
    t', removed := Filter(t, (l: Address, o: Address) => baseOf(l) == 0 || baseOf(l) in marks, m);
    m' := Kept(m, (l: Address, o: Address) => baseOf(l) == 0 || baseOf(l) in marks);
  }
}
