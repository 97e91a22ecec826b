/**
  Explicitly typed objects (gc/typd_mlc.c): a small compiler from bitmaps, and from arrays of
  described elements, to descriptors that the marker interprets (gc/mark.c).

  Main results: the words a descriptor makes the marker visit are exactly those the bitmap names,
  for any bitmap, unless there is no room for a long descriptor, when they are a superset; and an
  optimised array descriptor visits exactly the words of the elements it stands for, has their
  size, and is pushed without passing the limit of the mark stack.
 */
module Typed {

  const WORDSZ := 64
  const WORD_BYTES := 8
  const BITMAP_BITS := 62
  const OPT_THRESHOLD := 50
  const ED_INITIAL_SIZE := 100
  const MAX_ENV := 0xff_ffff_ffff_ffff

  /** A machine word, most significant bit first; the last two bits of a descriptor are its tag. */
  type Word = w: seq<bool> | |w| == WORDSZ witness seq(WORDSZ, i => false)

  /** Length in bytes; a bitmap, as a whole word with tag bits 01; or the extended bitmap from an index on. */
  datatype Descr = Length(bytes: nat) | Bitmap(word: Word) | Proc(env: nat)

  /** An entry of the table of extended bitmaps, first word first. */
  datatype Ext = Ext(bits: seq<bool>, continued: bool)

  // ---- What the marker visits ----

  /** The extended bitmap starting at entry `env` names word `i`. */
  predicate ExtVisits(ext: seq<Ext>, env: nat, i: nat)
    decreases |ext| - env
  {
    env < |ext| &&
      if i < WORDSZ then i < |ext[env].bits| && ext[env].bits[i]
      else ext[env].continued && ExtVisits(ext, env + 1, i - WORDSZ)
  }

  /** Descriptor `d` names word `i` of the object. */
  predicate Visits(d: Descr, ext: seq<Ext>, i: nat) {
    match d
    case Length(bytes) => i < bytes / WORD_BYTES
    case Bitmap(word) => i < BITMAP_BITS && word[i]
    case Proc(env) => ExtVisits(ext, env, i)
  }

  /** No bit is set from position `i` on: the word is zero after `i` shifts. */
  predicate ZeroFrom(w: seq<bool>, i: nat) {
    forall k :: i <= k < |w| ==> !w[k]
  }

  /** The bitmap case of GC_mark_from: shift the descriptor left until it is zero, visiting where the top bit is set. */
  method ScanBitmap(word: Word, ghost ext: seq<Ext>) returns (visited: seq<nat>)
    ensures forall i: nat :: i in visited <==> Visits(Bitmap(word), ext, i)
  {
    var w := word[..BITMAP_BITS];
    visited := [];
    var p := 0;
    while !ZeroFrom(w, p)
      invariant p <= BITMAP_BITS
      invariant forall i: nat :: i in visited <==> i < p && w[i]
      decreases BITMAP_BITS - p
    {
      if w[p] { visited := visited + [p]; }
      p := p + 1;
    }
  }

  /**
    GC_typed_mark_proc and the entries it pushes for the rest of the object: shift each bitmap right
    until it is zero, then go on with the next entry, 64 words further on.
   */
  method ScanExtended(ext: seq<Ext>, env: nat) returns (visited: seq<nat>)
    requires forall e :: env <= e < |ext| ==> |ext[e].bits| == WORDSZ
    ensures forall i: nat :: i in visited <==> Visits(Proc(env), ext, i)
    decreases |ext| - env
  {
    visited := [];
    if env >= |ext| { return; }
    var bm, p := ext[env].bits, 0;
    while !ZeroFrom(bm, p)
      invariant p <= WORDSZ
      invariant forall i: nat :: i in visited <==> i < p && bm[i]
      decreases WORDSZ - p
    {
      if bm[p] { visited := visited + [p]; }
      p := p + 1;
    }
    if ext[env].continued {
      var rest := ScanExtended(ext, env + 1);
      var shifted := seq(|rest|, k requires 0 <= k < |rest| => rest[k] + WORDSZ);
      forall i: nat ensures i in visited + shifted <==> Visits(Proc(env), ext, i) {
        if i in shifted {
          var k :| 0 <= k < |shifted| && shifted[k] == i;
          assert rest[k] in rest;
        }
        if i >= WORDSZ && i - WORDSZ in rest {
          var k :| 0 <= k < |rest| && rest[k] == i - WORDSZ;
          assert shifted[k] == i;
        }
      }
      visited := visited + shifted;
    }
  }

  // ---- Descriptors for bitmaps ----

  /** Client bitmaps consist of whole words, first bit first. */
  predicate WholeWords(bm: seq<bool>) {
    |bm| % WORDSZ == 0
  }

  /** The entries from `from` on hold the first `nbits` bits of the bitmap. */
  ghost predicate Stored(ext: seq<Ext>, from: nat, bm: seq<bool>, nbits: nat)
    requires nbits <= |bm|
    decreases nbits
  {
    && from < |ext| && |ext[from].bits| == WORDSZ
    && if nbits <= WORDSZ then !ext[from].continued
        && forall j :: 0 <= j < WORDSZ ==> ext[from].bits[j] == (j < nbits && bm[j])
       else ext[from].continued && ext[from].bits == bm[..WORDSZ] && Stored(ext, from + 1, bm[WORDSZ..], nbits - WORDSZ)
  }

  /** A stored bitmap makes the marker visit exactly the words it names. */
  lemma {:induction false} StoredVisits(ext: seq<Ext>, from: nat, bm: seq<bool>, nbits: nat, i: nat)
    requires nbits <= |bm| && Stored(ext, from, bm, nbits)
    ensures ExtVisits(ext, from, i) <==> i < nbits && bm[i]
    decreases nbits
  {
    if nbits > WORDSZ && i >= WORDSZ {
      StoredVisits(ext, from + 1, bm[WORDSZ..], nbits - WORDSZ, i - WORDSZ);
    }
  }

  /** Entries once stored are not changed by adding others. */
  lemma {:induction false} StoredKept(ext: seq<Ext>, more: seq<Ext>, from: nat, bm: seq<bool>, nbits: nat)
    requires nbits <= |bm| && Stored(ext, from, bm, nbits)
    ensures Stored(ext + more, from, bm, nbits)
    decreases nbits
  {
    if nbits > WORDSZ {
      StoredKept(ext, more, from + 1, bm[WORDSZ..], nbits - WORDSZ);
    }
  }

  /** An entry in front of stored ones. */
  lemma StoredInFront(ext: seq<Ext>, rest: seq<Ext>, bm: seq<bool>, nbits: nat)
    requires WORDSZ < nbits <= |bm|
      && Stored(ext + [Ext(bm[..WORDSZ], true)] + rest, |ext| + 1, bm[WORDSZ..], nbits - WORDSZ)
    ensures Stored(ext + [Ext(bm[..WORDSZ], true)] + rest, |ext|, bm, nbits)
  {
  }

  /** The table of extended bitmaps: its entries in use and its capacity. */
  datatype ExtTable = ExtTable(ext: seq<Ext>, size: nat)

  /** Make room for `nwords` more entries, doubling the table; fails when it gets too large or memory runs out. */
  method Reserve(t: ExtTable, nwords: nat, canAllocate: nat -> bool) returns (t': ExtTable, ok: bool)
    ensures t'.ext == t.ext && (ok ==> |t.ext| + nwords < t'.size)
    ensures (forall size :: canAllocate(size)) && 2 * (|t.ext| + nwords + ED_INITIAL_SIZE) <= MAX_ENV ==> ok
  {
    t', ok := t, true;
    while |t'.ext| + nwords >= t'.size
      invariant t'.ext == t.ext
      decreases |t'.ext| + nwords + 1 - t'.size
    {
      var size := if t'.size == 0 then ED_INITIAL_SIZE else 2 * t'.size;
      if (t'.size != 0 && size > MAX_ENV) || !canAllocate(size) { return t', false; }
      t' := t'.(size := size);
    }
  }

  /** GC_add_ext_descriptor: store the first `nbits` bits of a bitmap in new entries; -1 if there is no room. */
  method AddExtDescriptor(t: ExtTable, bm: seq<bool>, nbits: nat, canAllocate: nat -> bool)
      returns (t': ExtTable, index: int)
    requires WholeWords(bm) && 0 < nbits <= |bm|
    ensures t.ext <= t'.ext && (index == -1 || index == |t.ext|)
    ensures index != -1 ==> Stored(t'.ext, index, bm, nbits)
    ensures (forall size :: canAllocate(size)) ==>
      2 * (|t.ext| + (nbits + WORDSZ - 1) / WORDSZ + ED_INITIAL_SIZE) <= MAX_ENV ==> index != -1
  {
    var nwords := (nbits + WORDSZ - 1) / WORDSZ;
    var ok;
    t', ok := Reserve(t, nwords, canAllocate);
    if !ok { return t', -1; }
    index := |t.ext|;
    var added: seq<Ext> := [];
    var i := 0;
    while i < nwords - 1
      invariant 0 <= i <= nwords - 1 && |added| == i
      invariant forall k :: 0 <= k < i ==> added[k] == Ext(bm[k * WORDSZ..(k + 1) * WORDSZ], true)
    {
      added := added + [Ext(bm[i * WORDSZ..(i + 1) * WORDSZ], true)];
      i := i + 1;
    }
    var extra := nwords * WORDSZ - nbits;
    var last := bm[i * WORDSZ..(i + 1) * WORDSZ];
    added := added + [Ext(last[..WORDSZ - extra] + seq(extra, k => false), false)];
    AddedIsStored(t.ext, added, bm, nbits);
    t' := t'.(ext := t.ext + added);
  }

  lemma {:induction false} AddedIsStored(ext: seq<Ext>, added: seq<Ext>, bm: seq<bool>, nbits: nat)
    requires WholeWords(bm) && 0 < nbits <= |bm| && |added| == (nbits + WORDSZ - 1) / WORDSZ
    requires forall k :: 0 <= k < |added| - 1 ==> added[k] == Ext(bm[k * WORDSZ..(k + 1) * WORDSZ], true)
    requires var n := |added|; var extra := n * WORDSZ - nbits;
             added[n - 1] == Ext(bm[(n - 1) * WORDSZ..n * WORDSZ][..WORDSZ - extra] + seq(extra, k => false), false)
    ensures Stored(ext + added, |ext|, bm, nbits)
    decreases nbits
  {
    if nbits <= WORDSZ {
      assert |added| == 1;
    } else {
      var front, rest := added[0], added[1..];
      assert front == Ext(bm[..WORDSZ], true);
      assert ext + added == (ext + [front]) + rest;
      forall k | 0 <= k < |rest| - 1 ensures rest[k] == Ext(bm[WORDSZ..][k * WORDSZ..(k + 1) * WORDSZ], true) {
        assert rest[k] == added[k + 1];
      }
      var n := |added|;
      assert bm[WORDSZ..][(n - 2) * WORDSZ..(n - 1) * WORDSZ] == bm[(n - 1) * WORDSZ..n * WORDSZ];
      assert rest[n - 2] == added[n - 1];
      AddedIsStored(ext + [front], rest, bm[WORDSZ..], nbits - WORDSZ);
      StoredInFront(ext, rest, bm, nbits);
    }
  }

  /** Bits in order, then zeroes and the tag 01. */
  ghost predicate IsBitmap(word: Word, bm: seq<bool>, n: nat) {
    && n <= |bm| && n <= BITMAP_BITS && word[WORDSZ - 1] && !word[WORDSZ - 2]
    && forall i :: 0 <= i < BITMAP_BITS ==> word[i] == (i < n && bm[i])
  }

  /** The bitmap case of GC_make_descriptor: from the last bit down, shift right and set the top bit. */
  method BuildBitmap(bm: seq<bool>, last: nat) returns (word: Word)
    requires last < |bm| && last < BITMAP_BITS && bm[last]
    ensures IsBitmap(word, bm, last + 1)
  {
    word := [true] + seq(WORDSZ - 1, k => false);
    var i := last - 1;
    while i >= 0
      invariant -1 <= i < last
      invariant forall k :: 0 <= k < WORDSZ ==> word[k] == (k <= last - (i + 1) && bm[i + 1 + k])
    {
      word := [bm[i]] + word[..WORDSZ - 1];
      i := i - 1;
    }
    word := word[WORDSZ - 1 := true];
  }

  /** GC_make_descriptor. */
  method MakeDescriptor(t: ExtTable, bm: seq<bool>, len: nat, canAllocate: nat -> bool) returns (d: Descr, t': ExtTable)
    requires WholeWords(bm) && len <= |bm|
    ensures t.ext <= t'.ext
    ensures forall i: nat :: i < len && bm[i] ==> Visits(d, t'.ext, i)
    ensures (forall size :: canAllocate(size)) && 2 * (|t.ext| + len + ED_INITIAL_SIZE) <= MAX_ENV ==>
              forall i: nat :: Visits(d, t'.ext, i) <==> i < len && bm[i]
    ensures forall i: nat :: Visits(d, t'.ext, i) ==> i < len
  {
    t' := t;
    var last := len - 1;
    while last >= 0 && !bm[last]
      invariant -1 <= last < len && forall i :: last < i < len ==> !bm[i]
    {
      last := last - 1;
    }
    if last < 0 { return Length(0), t'; }
    var i := 0;
    while i < last && bm[i]
      invariant 0 <= i <= last && forall k :: 0 <= k < i ==> bm[k]
    {
      i := i + 1;
    }
    if i == last { return Length(WORD_BYTES * (last + 1)), t'; }
    if last < BITMAP_BITS {
      var word := BuildBitmap(bm, last);
      return Bitmap(word), t';
    }
    var index;
    t', index := AddExtDescriptor(t, bm, last + 1, canAllocate);
    if index == -1 { return Length(WORD_BYTES * (last + 1)), t'; }
    forall k: nat ensures ExtVisits(t'.ext, index, k) <==> k < last + 1 && bm[k] {
      StoredVisits(t'.ext, index, bm, last + 1, k);
    }
    d := Proc(index);
  }

  // ---- Array descriptors ----

  /** Word `i` is named by one of `n` consecutive elements of `w` words described by `d`. */
  predicate Repeated(d: Descr, ext: seq<Ext>, w: nat, n: nat, i: nat) {
    n > 0 && (Visits(d, ext, i) || (i >= w && Repeated(d, ext, w, n - 1, i - w)))
  }

  /** The same, said with the number of the element. */
  lemma RepeatedMeaning(d: Descr, ext: seq<Ext>, w: nat, n: nat, i: nat)
    ensures Repeated(d, ext, w, n, i) <==> exists k: nat :: k < n && InElement(d, ext, w, k, i)
  {
    if Repeated(d, ext, w, n, i) {
      var k := WhichElement(d, ext, w, n, i);
    }
    if k: nat :| k < n && InElement(d, ext, w, k, i) {
      ElementRepeats(d, ext, w, n, i, k);
    }
  }

  lemma {:induction false} WhichElement(d: Descr, ext: seq<Ext>, w: nat, n: nat, i: nat) returns (k: nat)
    requires Repeated(d, ext, w, n, i)
    ensures k < n && InElement(d, ext, w, k, i)
    decreases n
  {
    if Visits(d, ext, i) {
      k := 0;
    } else {
      var j := WhichElement(d, ext, w, n - 1, i - w);
      assert (j + 1) * w == j * w + w;
      k := j + 1;
    }
  }

  lemma {:induction false} ElementRepeats(d: Descr, ext: seq<Ext>, w: nat, n: nat, i: nat, k: nat)
    requires k < n && InElement(d, ext, w, k, i)
    ensures Repeated(d, ext, w, n, i)
    decreases n
  {
    if k > 0 {
      assert k * w == (k - 1) * w + w;
      ElementRepeats(d, ext, w, n - 1, i - w, k - 1);
    }
  }

  predicate InElement(d: Descr, ext: seq<Ext>, w: nat, k: nat, i: nat) {
    k * w <= i && Visits(d, ext, i - k * w)
  }

  /** The descriptor names words of one element only. */
  ghost predicate Confined(d: Descr, ext: seq<Ext>, w: nat) {
    forall i: nat :: Visits(d, ext, i) ==> i < w
  }

  predicate ProperTag(d: Descr) {
    d.Bitmap? ==> d.word[WORDSZ - 1] && !d.word[WORDSZ - 2]
  }

  /** GC_bm_table: `n` pointer words. */
  function AllPointers(n: nat): Word
    requires n < WORDSZ / 2
  {
    seq(n, i => true) + seq(WORDSZ - 1 - n, i => false) + [true]
  }

  function ShiftRight(w: Word, n: nat): Word
    requires n <= WORDSZ
  {
    seq(n, i => false) + w[..WORDSZ - n]
  }

  function Or(a: Word, b: Word): Word {
    seq(WORDSZ, i requires 0 <= i < WORDSZ => a[i] || b[i])
  }

  function WithoutTag(w: Word): Word {
    w[..BITMAP_BITS] + [false, false]
  }

  /** GC_double_descr. */
  function DoubleDescr(d: Descr, nwords: nat): Descr
    requires !d.Proc? && nwords <= WORDSZ && (d.Length? ==> d.bytes / WORD_BYTES < WORDSZ / 2)
  {
    var word := if d.Length? then AllPointers(d.bytes / WORD_BYTES) else d.word;
    Bitmap(Or(word, ShiftRight(WithoutTag(word), nwords)))
  }

  /** Descriptor `dd` names the words of two consecutive elements of `w` words described by `d`. */
  ghost predicate Doubled(d: Descr, dd: Descr, ext: seq<Ext>, w: nat) {
    forall i: nat {:trigger Visits(dd, ext, i)} :: Visits(dd, ext, i) <==> InEither(d, ext, w, i)
  }

  predicate InEither(d: Descr, ext: seq<Ext>, w: nat, i: nat) {
    Visits(d, ext, i) || (i >= w && Visits(d, ext, i - w))
  }

  /** The doubled descriptor names the words of two elements, and its tag is still that of a bitmap. */
  lemma DoubleDescrMeaning(d: Descr, ext: seq<Ext>, w: nat)
    requires !d.Proc? && ProperTag(d) && Confined(d, ext, w) && 2 * w <= BITMAP_BITS
      && (d.Length? ==> d.bytes / WORD_BYTES <= w)
    ensures ProperTag(DoubleDescr(d, w)) && Confined(DoubleDescr(d, w), ext, 2 * w)
    ensures Doubled(d, DoubleDescr(d, w), ext, w)
  {
    var word := if d.Length? then AllPointers(d.bytes / WORD_BYTES) else d.word;
    forall i: nat ensures i < BITMAP_BITS && word[i] <==> Visits(d, ext, i) {
    }
    assert forall i: nat :: i < BITMAP_BITS && word[i] ==> Visits(d, ext, i);
    forall i: nat | i < WORDSZ
      ensures Or(word, ShiftRight(WithoutTag(word), w))[i] <==>
        (if i < BITMAP_BITS then InEither(d, ext, w, i) else i == WORDSZ - 1)
    {
      DoubledBit(word, w, i);
      if w <= i && i - w < BITMAP_BITS { assert word[i - w] <==> Visits(d, ext, i - w); }
    }
  }

  lemma DoubledBit(word: Word, w: nat, i: nat)
    requires w <= WORDSZ && i < WORDSZ
    ensures Or(word, ShiftRight(WithoutTag(word), w))[i] == (word[i] || (w <= i && i - w < BITMAP_BITS && word[i - w]))
  {
  }

  datatype Complex = Leaf(size: nat, n: nat, d: Descr) | Sequence(first: Complex, second: Complex) | Array(count: nat,
      element: Complex) | NullPointer

  /** GC_descr_obj_size. */
  function ObjSize(c: Complex): nat {
    match c
    case Leaf(size, n, _) => n * size
    case Sequence(first, second) => ObjSize(first) + ObjSize(second)
    case Array(count, element) => count * ObjSize(element)
    case NullPointer => 0
  }

  predicate HasNull(c: Complex) {
    match c
    case Leaf(_, _, _) => false
    case Sequence(first, second) => HasNull(first) || HasNull(second)
    case Array(_, element) => HasNull(element)
    case NullPointer => true
  }

  /** Complex descriptor `c` names word `i` of the object. */
  predicate Names(c: Complex, ext: seq<Ext>, i: nat)
    decreases c, 0
  {
    match c
    case Leaf(size, n, d) => Repeated(d, ext, size / WORD_BYTES, n, i)
    case Sequence(first, second) =>
      Names(first, ext, i) || (i >= ObjSize(first) / WORD_BYTES && Names(second, ext, i - ObjSize(first) / WORD_BYTES))
    case Array(count, element) => NamesInArray(element, ext, count, i)
    case NullPointer => false
  }

  predicate NamesInArray(element: Complex, ext: seq<Ext>, count: nat, i: nat)
    decreases element, count + 1
  {
    count > 0 && (Names(element, ext, i) ||
                  (i >= ObjSize(element) / WORD_BYTES
                      && NamesInArray(element, ext, count - 1, i - ObjSize(element) / WORD_BYTES)))
  }

  datatype ArrayDescr = Simple(d: Descr) | LeafDescr(size: nat, n: nat, d: Descr) | ComplexDescr(c: Complex) | NoMem

  /** Which of the allocations made for an odd element succeed. */
  datatype Allocs = Allocs(oneElement: bool, beginning: bool, sequence: bool)

  /** GC_make_array_descriptor. `allocs` gives the outcome of the allocations at each depth of the recursion. */
  function MakeArrayDescriptor(n: nat, size: nat, d: Descr, allocs: nat -> Allocs, depth: nat): ArrayDescr
    requires d.Length? ==> d.bytes <= size
    decreases n
  {
    if d == Length(size) then Simple(Length(n * size))
    else if d == Length(0) then Simple(Length(0))
    else if n == 1 then Simple(d)
    else if n == 0 then Simple(Length(0))
    else if n > OPT_THRESHOLD && size <= BITMAP_BITS / 2 && !d.Proc? && size % WORD_BYTES == 0 then
      var doubled := DoubleDescr(d, size / WORD_BYTES);
      var result := MakeArrayDescriptor(n / 2, 2 * size, doubled, allocs, depth + 1);
      if n % 2 == 0 then result
      else AddElement(result, Leaf(size, 1, d), size, allocs(depth))
    else LeafDescr(size, n, d)
  }

  /** The odd element after the others. */
  function AddElement(result: ArrayDescr, one: Complex, size: nat, a: Allocs): ArrayDescr {
    if result == NoMem || !a.oneElement then NoMem
    else match result
      case Simple(d) => if !a.beginning then NoMem else InSequence(Leaf(size, 1, d), one, a)
      case LeafDescr(s, m, d) => if !a.beginning then NoMem else InSequence(Leaf(s, m, d), one, a)
      case ComplexDescr(c) => InSequence(c, one, a)
  }

  /** GC_make_sequence_descriptor, whose failure its caller does not check. */
  function InSequence(first: Complex, second: Complex, a: Allocs): ArrayDescr {
    ComplexDescr(if a.sequence then Sequence(first, second) else NullPointer)
  }

  // ---- Array descriptors keep their meaning ----

  /** Pairs of elements with the doubled descriptor are the same as single elements. */
  lemma {:induction false} RepeatedInPairs(d: Descr, dd: Descr, ext: seq<Ext>, w: nat, m: nat, i: nat)
    requires Doubled(d, dd, ext, w)
    ensures Repeated(dd, ext, 2 * w, m, i) <==> Repeated(d, ext, w, 2 * m, i)
    decreases m
  {
    if m > 0 {
      assert Repeated(d, ext, w, 2 * m, i) <==> Visits(d, ext, i) || (i >= w && Repeated(d, ext, w, 2 * m - 1, i - w));
      if i >= w {
        assert Repeated(d, ext, w, 2 * m - 1, i - w) <==>
            Visits(d, ext, i - w) || (i >= 2 * w && Repeated(d, ext, w, 2 * m - 2, i - w - w));
      }
      assert Visits(dd, ext, i) <==> InEither(d, ext, w, i);
      if i >= 2 * w {
        RepeatedInPairs(d, dd, ext, w, m - 1, i - 2 * w);
      }
    }
  }

  /** One more element goes behind the others. */
  lemma {:induction false} RepeatedLast(d: Descr, ext: seq<Ext>, w: nat, n: nat, i: nat)
    ensures Repeated(d, ext, w, n + 1, i) <==> Repeated(d, ext, w, n, i) || (i >= n * w && Visits(d, ext, i - n * w))
    decreases n
  {
    if n > 0 {
      assert n * w == (n - 1) * w + w;
      if i >= w {
        RepeatedLast(d, ext, w, n - 1, i - w);
      }
    }
  }

  /** Elements full of pointers make one long run of pointers. */
  lemma {:induction false} RepeatedFull(ext: seq<Ext>, w: nat, n: nat, i: nat)
    ensures Repeated(Length(w * WORD_BYTES), ext, w, n, i) <==> i < n * w
    decreases n
  {
    if n > 0 {
      assert n * w == (n - 1) * w + w;
      if i >= w {
        RepeatedFull(ext, w, n - 1, i - w);
      }
    }
  }

  lemma {:induction false} RepeatedNone(d: Descr, ext: seq<Ext>, w: nat, n: nat, i: nat)
    requires forall j: nat :: !Visits(d, ext, j)
    ensures !Repeated(d, ext, w, n, i)
    decreases n
  {
    if n > 0 && i >= w {
      RepeatedNone(d, ext, w, n - 1, i - w);
    }
  }

  /** What an array descriptor as a whole names. */
  predicate ResultNames(r: ArrayDescr, ext: seq<Ext>, i: nat) {
    match r
    case Simple(d) => Visits(d, ext, i)
    case LeafDescr(size, n, d) => Names(Leaf(size, n, d), ext, i)
    case ComplexDescr(c) => Names(c, ext, i)
    case NoMem => false
  }

  /** A descriptor was built, and no allocation that the code does not check failed. */
  predicate Built(r: ArrayDescr) {
    r != NoMem && (r.ComplexDescr? ==> !HasNull(r.c))
  }

  /** What `GC_make_array_descriptor` promises: exactly the words of the elements, and their size. */
  ghost predicate Describes(r: ArrayDescr, ext: seq<Ext>, n: nat, size: nat, d: Descr) {
    && (forall i: nat :: ResultNames(r, ext, i) <==> Repeated(d, ext, size / WORD_BYTES, n, i))
    && (r.LeafDescr? ==> r.n * r.size == n * size)
    && (r.ComplexDescr? ==> ObjSize(r.c) == n * size)
  }

  /** A doubled descriptor is a bitmap, for more than one element: the recursion never finds a simple result. */
  lemma SimpleIsUnreachable(n: nat, size: nat, d: Descr, allocs: nat -> Allocs, depth: nat)
    requires d.Bitmap? && n > 1
    ensures !MakeArrayDescriptor(n, size, d, allocs, depth).Simple?
    decreases n
  {
  }

  lemma AddElementDescribes(r: ArrayDescr, ext: seq<Ext>, m: nat, w: nat, size: nat, d: Descr, dd: Descr, a: Allocs)
    requires size == w * WORD_BYTES && Built(r) && !r.Simple? && Describes(r, ext, m, 2 * size, dd)
    requires Doubled(d, dd, ext, w)
    ensures var s := AddElement(r, Leaf(size, 1, d), size, a); Built(s) ==> Describes(s, ext, 2 * m + 1, size, d)
  {
    var s := AddElement(r, Leaf(size, 1, d), size, a);
    if Built(s) {
      var first := s.c.first;
      SizeOfPairs(m, w, size);
      assert ObjSize(first) == m * (2 * size);
      assert ObjSize(s.c) == (2 * m + 1) * size;
      forall i: nat ensures ResultNames(s, ext, i) <==> Repeated(d, ext, w, 2 * m + 1, i) {
        assert ResultNames(r, ext, i) <==> Names(first, ext, i);
        OddElement(first, d, dd, ext, m, w, size, i);
      }
    }
  }

  lemma SizeOfPairs(m: nat, w: nat, size: nat)
    requires size == w * WORD_BYTES
    ensures (m * (2 * size)) / WORD_BYTES == (2 * m) * w && m * (2 * size) + size == (2 * m + 1) * size
  {
  }

  /** The words of an even number of elements and one more. */
  lemma OddElement(first: Complex, d: Descr, dd: Descr, ext: seq<Ext>, m: nat, w: nat, size: nat, i: nat)
    requires size == w * WORD_BYTES && ObjSize(first) == m * (2 * size) && Doubled(d, dd, ext, w)
    requires Names(first, ext, i) <==> Repeated(dd, ext, 2 * w, m, i)
    ensures Names(Sequence(first, Leaf(size, 1, d)), ext, i) <==> Repeated(d, ext, w, 2 * m + 1, i)
  {
    SizeOfPairs(m, w, size);
    RepeatedInPairs(d, dd, ext, w, m, i);
    RepeatedLast(d, ext, w, 2 * m, i);
    if i >= 2 * m * w {
      OneElement(d, ext, w, i - 2 * m * w);
    }
  }

  lemma OneElement(d: Descr, ext: seq<Ext>, w: nat, i: nat)
    ensures Repeated(d, ext, w, 1, i) <==> Visits(d, ext, i)
  {
  }

  /**
    The optimised descriptor of an array means the same as one descriptor per element, for any
    number of elements of a whole number of words.
   */
  lemma ArrayDescriptorExact(n: nat, w: nat, d: Descr, ext: seq<Ext>, allocs: nat -> Allocs, depth: nat)
    requires ProperTag(d) && Confined(d, ext, w)
      && (d.Length? ==> d.bytes % WORD_BYTES == 0 && d.bytes <= w * WORD_BYTES)
    ensures var r := MakeArrayDescriptor(n, w * WORD_BYTES, d, allocs, depth);
            Built(r) ==> Describes(r, ext, n, w * WORD_BYTES, d)
    decreases n
  {
    var size := w * WORD_BYTES;
    if d == Length(size) || d == Length(0) {
      UniformDescribes(n, w, d, ext);
    } else if n > OPT_THRESHOLD && size <= BITMAP_BITS / 2 && !d.Proc? {
      var dd := DoubleDescr(d, w);
      DoubleDescrMeaning(d, ext, w);
      var inner := MakeArrayDescriptor(n / 2, (2 * w) * WORD_BYTES, dd, allocs, depth + 1);
      ArrayDescriptorExact(n / 2, 2 * w, dd, ext, allocs, depth + 1);
      SimpleIsUnreachable(n / 2, (2 * w) * WORD_BYTES, dd, allocs, depth + 1);
      InPairs(n, w, d, allocs, depth);
      PairsDescribe(inner, ext, n, w, size, d, dd, allocs(depth));
    } else if n == 1 {
      forall i: nat ensures Visits(d, ext, i) <==> Repeated(d, ext, w, 1, i) {
        OneElement(d, ext, w, i);
      }
    }
  }

  /** The recursive case. */
  lemma InPairs(n: nat, w: nat, d: Descr, allocs: nat -> Allocs, depth: nat)
    requires !d.Proc? && (d.Length? ==> d.bytes <= w * WORD_BYTES) && d != Length(0) && d != Length(w * WORD_BYTES)
    requires n > OPT_THRESHOLD && w * WORD_BYTES <= BITMAP_BITS / 2
    ensures MakeArrayDescriptor(n, w * WORD_BYTES, d, allocs, depth) ==
            var inner := MakeArrayDescriptor(n / 2, (2 * w) * WORD_BYTES, DoubleDescr(d, w), allocs, depth + 1);
            if n % 2 == 0 then inner else AddElement(inner, Leaf(w * WORD_BYTES, 1, d), w * WORD_BYTES, allocs(depth))
  {
  }

  /** Elements that are all pointers, or have none. */
  lemma UniformDescribes(n: nat, w: nat, d: Descr, ext: seq<Ext>)
    requires d == Length(w * WORD_BYTES) || d == Length(0)
    ensures Describes(Simple(Length(n * d.bytes)), ext, n, w * WORD_BYTES, d)
  {
    forall i: nat ensures Visits(Length(n * d.bytes), ext, i) <==> Repeated(d, ext, w, n, i) {
      if d == Length(0) {
        RepeatedNone(d, ext, w, n, i);
      } else {
        RepeatedFull(ext, w, n, i);
        assert n * (w * WORD_BYTES) == (n * w) * WORD_BYTES;
      }
    }
  }

  lemma PairsDescribe(inner: ArrayDescr, ext: seq<Ext>, n: nat, w: nat, size: nat, d: Descr, dd: Descr, a: Allocs)
    requires size == w * WORD_BYTES && !inner.Simple? && Doubled(d, dd, ext, w)
      && (Built(inner) ==> Describes(inner, ext, n / 2, (2 * w) * WORD_BYTES, dd))
    ensures var r := if n % 2 == 0 then inner else AddElement(inner, Leaf(size, 1, d), size, a);
            Built(r) ==> Describes(r, ext, n, size, d)
  {
    var r := if n % 2 == 0 then inner else AddElement(inner, Leaf(size, 1, d), size, a);
    InnerBuilt(inner, Leaf(size, 1, d), size, a);
    assert (2 * w) * WORD_BYTES == 2 * size;
    if Built(r) {
      if n % 2 == 1 {
        AddElementDescribes(inner, ext, n / 2, w, size, d, dd, a);
      } else {
        SizeOfPairs(n / 2, w, size);
        assert (n / 2) * (2 * size) == n * size;
        forall i: nat ensures ResultNames(r, ext, i) <==> Repeated(d, ext, w, n, i) {
          RepeatedInPairs(d, dd, ext, w, n / 2, i);
        }
      }
    }
  }

  lemma InnerBuilt(r: ArrayDescr, one: Complex, size: nat, a: Allocs)
    ensures Built(AddElement(r, one, size, a)) ==> Built(r)
  {
  }

  /** Every sequence descriptor that is wanted on the way can be allocated. */
  predicate SequencesAllocated(n: nat, size: nat, d: Descr, allocs: nat -> Allocs, depth: nat)
    requires d.Length? ==> d.bytes <= size
    decreases n
  {
    d != Length(size) && d != Length(0) && n > OPT_THRESHOLD && size <= BITMAP_BITS / 2 && !d.Proc?
        && size % WORD_BYTES == 0 ==>
      && (n % 2 == 1 ==> allocs(depth).sequence)
      && SequencesAllocated(n / 2, 2 * size, DoubleDescr(d, size / WORD_BYTES), allocs, depth + 1)
  }

  /** The result is sound exactly if none of the unchecked allocations failed; otherwise it holds a null pointer. */
  lemma {:induction false} SoundExactlyIfSequencesAllocated(n: nat, size: nat, d: Descr, allocs: nat -> Allocs,
      depth: nat)
    requires d.Length? ==> d.bytes <= size
    ensures var r := MakeArrayDescriptor(n, size, d, allocs, depth);
            r != NoMem ==> (Built(r) <==> SequencesAllocated(n, size, d, allocs, depth))
    decreases n
  {
    if d != Length(size) && d != Length(0) && n > OPT_THRESHOLD && size <= BITMAP_BITS / 2 && !d.Proc?
        && size % WORD_BYTES == 0 {
      var dd := DoubleDescr(d, size / WORD_BYTES);
      var inner := MakeArrayDescriptor(n / 2, 2 * size, dd, allocs, depth + 1);
      SoundExactlyIfSequencesAllocated(n / 2, 2 * size, dd, allocs, depth + 1);
      SimpleIsUnreachable(n / 2, 2 * size, dd, allocs, depth + 1);
      assert MakeArrayDescriptor(n, size, d, allocs, depth) == if n % 2 == 0 then inner
          else AddElement(inner, Leaf(size, 1, d), size, allocs(depth));
      SequenceSound(inner, Leaf(size, 1, d), size, allocs(depth));
    }
  }

  lemma SequenceSound(r: ArrayDescr, one: Complex, size: nat, a: Allocs)
    requires one.Leaf? && !r.Simple?
    ensures var s := AddElement(r, one, size, a); s != NoMem ==> r != NoMem && (Built(s) <==> Built(r) && a.sequence)
  {
    var s := AddElement(r, one, size, a);
    if s != NoMem && a.sequence {
      assert s.c == Sequence(s.c.first, one) && !HasNull(one) && (s.c.first.Leaf? ==> !HasNull(s.c.first));
      assert HasNull(s.c) <==> HasNull(s.c.first);
    } else if s != NoMem {
      assert HasNull(s.c);
    }
  }

  /** For instance, 51 elements of two words, the first a pointer, when the sequence descriptor cannot be allocated. */
  lemma UncheckedFailure()
    ensures var word: Word := [true] + seq(WORDSZ - 2, i => false) + [true];
            MakeArrayDescriptor(51, 16, Bitmap(word), depth => Allocs(true, true, false),
                0) == ComplexDescr(NullPointer)
  {
  }

  // ---- Pushing a complex descriptor ----

  /** A mark stack entry: a word address and the descriptor of what lies there. */
  datatype Entry = Entry(start: nat, d: Descr)

  /** One of the entries from position `from` on makes the marker visit the word at address `a`. */
  ghost predicate Covers(stack: seq<Entry>, from: nat, ext: seq<Ext>, a: nat) {
    exists k :: from <= k < |stack| && stack[k].start <= a && Visits(stack[k].d, ext, a - stack[k].start)
  }

  predicate RepeatedAt(d: Descr, ext: seq<Ext>, w: nat, n: nat, addr: nat, a: nat) {
    a >= addr && Repeated(d, ext, w, n, a - addr)
  }

  /** Pushing `n` entries for elements of `w` words from `addr` on. */
  method PushElements(addr: nat, w: nat, n: nat, d: Descr, stack: seq<Entry>, ghost ext: seq<Ext>)
      returns (stack': seq<Entry>)
    ensures |stack'| == |stack| + n && stack <= stack'
    ensures forall a: nat :: Covers(stack', |stack|, ext, a) <==> RepeatedAt(d, ext, w, n, addr, a)
    decreases n
  {
    stack' := stack;
    var current := addr;
    var i := 0;
    while i < n
      invariant i <= n && |stack'| == |stack| + i && stack <= stack' && current == addr + i * w
      invariant forall a: nat :: Covers(stack', |stack|, ext, a) <==> RepeatedAt(d, ext, w, i, addr, a)
    {
      PushOne(stack', |stack|, addr, current, d, ext, w, i);
      stack' := stack' + [Entry(current, d)];
      current, i := current + w, i + 1;
    }
  }

  lemma PushOne(stack: seq<Entry>, from: nat, addr: nat, current: nat, d: Descr, ext: seq<Ext>, w: nat, i: nat)
    requires from <= |stack| && current == addr + i * w
    requires forall a: nat :: Covers(stack, from, ext, a) <==> RepeatedAt(d, ext, w, i, addr, a)
    ensures forall a: nat :: Covers(stack + [Entry(current, d)], from, ext, a) <==>
      RepeatedAt(d, ext, w, i + 1, addr, a)
  {
    var more := stack + [Entry(current, d)];
    forall a: nat
        ensures Covers(more, from, ext, a) <==>
        Covers(stack, from, ext, a) || (a >= current && Visits(d, ext, a - current)) {
      if Covers(stack, from, ext, a) {
        var k :| from <= k < |stack| && stack[k].start <= a && Visits(stack[k].d, ext, a - stack[k].start);
        assert more[k] == stack[k];
      }
      if a >= current && Visits(d, ext, a - current) {
        assert more[|stack|] == Entry(current, d);
      }
    }
    forall a: nat
        ensures RepeatedAt(d, ext, w, i + 1, addr, a) <==>
        RepeatedAt(d, ext, w, i, addr, a) || (a >= current && Visits(d, ext, a - current)) {
      if a >= addr { RepeatedLast(d, ext, w, i, a - addr); }
    }
  }

  predicate NamesAt(c: Complex, ext: seq<Ext>, addr: nat, a: nat) {
    a >= addr && Names(c, ext, a - addr)
  }

  /** Sizes are whole numbers of words. */
  predicate WordSized(c: Complex) {
    match c
    case Leaf(size, _, _) => size % WORD_BYTES == 0
    case Sequence(first, second) => WordSized(first) && WordSized(second)
    case Array(_, element) => WordSized(element)
    case NullPointer => true
  }

  /** Pushed on top of a stack, entries cover what was covered and what they describe. */
  lemma CoversJoin(s: seq<Entry>, t: seq<Entry>, u: seq<Entry>, ext: seq<Ext>, a: nat)
    requires s <= t <= u
    ensures Covers(u, |s|, ext, a) <==> Covers(t, |s|, ext, a) || Covers(u, |t|, ext, a)
  {
  }

  /**
    GC_push_complex_descriptor. `limit` is the position the top entry must stay below. The entries
    pushed make the marker visit exactly the words the descriptor names; if they do not fit, the
    call fails without passing the limit.
   */
  method PushComplex(addr: nat, c: Complex, stack: seq<Entry>, limit: nat, ghost ext: seq<Ext>)
      returns (stack': seq<Entry>, ok: bool)
    requires !HasNull(c) && WordSized(c)
    ensures stack <= stack' && (|stack'| <= limit || stack' == stack)
    ensures ok ==> forall a: nat :: Covers(stack', |stack|, ext, a) <==> NamesAt(c, ext, addr, a)
    decreases c, 0
  {
    match c {
      case Leaf(size, n, d) =>
        if limit - (|stack| - 1) <= n { return stack, false; }
        stack' := PushElements(addr, size / WORD_BYTES, n, d, stack, ext);
        return stack', true;
      case Sequence(first, second) =>
        stack', ok := PushComplex(addr, first, stack, limit, ext);
        if !ok { return; }
        ghost var middle := stack';
        var offset := ObjSize(first) / WORD_BYTES;
        stack', ok := PushComplex(addr + offset, second, stack', limit, ext);
        forall a: nat
            ensures Covers(stack', |stack|, ext, a) <==>
            Covers(middle, |stack|, ext, a) || Covers(stack', |middle|, ext, a) {
          CoversJoin(stack, middle, stack', ext, a);
        }
      case Array(count, element) =>
        stack', ok := PushArray(addr, element, count, stack, limit, ext);
    }
  }

  predicate InArrayAt(element: Complex, ext: seq<Ext>, count: nat, addr: nat, a: nat) {
    a >= addr && NamesInArray(element, ext, count, a - addr)
  }

  /** The array case: one element after the other. */
  method PushArray(addr: nat, element: Complex, count: nat, stack: seq<Entry>, limit: nat, ghost ext: seq<Ext>)
      returns (stack': seq<Entry>, ok: bool)
    requires !HasNull(element) && WordSized(element)
    ensures stack <= stack' && (|stack'| <= limit || stack' == stack)
    ensures ok ==> forall a: nat :: Covers(stack', |stack|, ext, a) <==> InArrayAt(element, ext, count, addr, a)
    decreases element, count + 1
  {
    if count == 0 { return stack, true; }
    stack', ok := PushComplex(addr, element, stack, limit, ext);
    if !ok { return; }
    ghost var middle := stack';
    stack', ok := PushArray(addr + ObjSize(element) / WORD_BYTES, element, count - 1, stack', limit, ext);
    forall a: nat
        ensures Covers(stack', |stack|, ext, a) <==>
        Covers(middle, |stack|, ext, a) || Covers(stack', |middle|, ext, a) {
      CoversJoin(stack, middle, stack', ext, a);
    }
  }

  /**
    GC_array_mark_proc for an object of `nwords` words at `addr` whose last word holds its
    descriptor, after its own entry was popped. Either exactly the words the descriptor names and
    the descriptor itself get visited, or the whole object, which is more. The stack limit is kept.
   */
  method ArrayMarkProc(addr: nat, nwords: nat, c: Complex, stack: seq<Entry>, limit: nat, ghost ext: seq<Ext>)
      returns (stack': seq<Entry>, tooSmall: bool)
    requires nwords > 0 && (c == NullPointer || (!HasNull(c) && WordSized(c))) && |stack| < limit
    requires forall i: nat :: Names(c, ext, i) ==> i < nwords - 1
    ensures stack <= stack' && |stack'| <= limit
    ensures c == NullPointer ==> stack' == stack && !tooSmall
    ensures c != NullPointer && !tooSmall ==>
              forall a: nat :: Covers(stack', |stack|, ext, a) <==> NamesAt(c, ext, addr, a) || a == addr + nwords - 1
    ensures tooSmall ==> forall a: nat :: Covers(stack', |stack|, ext, a) <==> addr <= a < addr + nwords
    ensures c != NullPointer ==> forall a: nat :: NamesAt(c, ext, addr, a) ==> Covers(stack', |stack|, ext, a)
  {
    if c == NullPointer { return stack, false; }
    var ok;
    stack', ok := PushComplex(addr, c, stack, limit - 1, ext);
    var entry := if ok then Entry(addr + nwords - 1, Length(WORD_BYTES)) else Entry(addr, Length(nwords * WORD_BYTES));
    var below := if ok then stack' else stack;
    stack', tooSmall := below + [entry], !ok;
    forall a: nat
        ensures Covers(stack', |stack|, ext, a) <==> Covers(below, |stack|, ext, a) || Covers(stack', |below|, ext, a) {
      CoversJoin(stack, below, stack', ext, a);
    }
    assert stack'[|below|] == entry;
    assert (nwords * WORD_BYTES) / WORD_BYTES == nwords;
    assert forall a: nat :: Covers(stack', |below|, ext, a) <==>
        entry.start <= a && Visits(entry.d, ext, a - entry.start);
  }
}
