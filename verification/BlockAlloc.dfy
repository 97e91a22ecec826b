/**
  The heap block allocator (gc/allchblk.c) and heap growth (gc/alloc.c): blocks are split from
  and coalesced into free blocks kept on segregated lists.

  Main results: every operation keeps the heap tiled, the index exact, each free block on
  exactly its size-class list with right links and byte counts, and no two free blocks
  adjacent; and allocation fails only when no free block can serve the request.
 */
module BlockAlloc {
  import opened FreeLists
  import opened BlockIndex
  import opened BlackList
  import opened BlockSteps
  import opened BlockBytes
  import opened Runs

  const MAX_BLACK_LIST_ALLOC := 2 * HBLKSIZE

  /** What a caller asks for: object size in bytes, and the properties of its kind that matter here. */
  datatype Request = Request(sz: nat, uncollectable: bool, pointerFree: bool, ignoreOffPage: bool) {
    /** Blocks needed. */
    function Need(): nat { Blocks(sz) }

    /** Black lists do not matter to this request. */
    predicate Exempt() {
      uncollectable || (pointerFree && Need() * HBLKSIZE <= MAX_BLACK_LIST_ALLOC)
    }

    /** How many blocks must be free of black-listing. */
    function Clean(): nat { if ignoreOffPage then 1 else Need() }
  }

  /** The block is so large that black-listing is overridden. */
  predicate Punts(s: Heap, avail: nat, r: Request) {
    avail >= r.Need() && r.Need() * HBLKSIZE > s.spacing && (avail - r.Need()) * HBLKSIZE > s.spacing
  }

  /** Some start in the `avail` blocks from `b` on is not black-listed. */
  ghost predicate HasCleanStart(s: Heap, b: nat, avail: nat, r: Request) {
    exists q :: b <= q && q + r.Need() <= b + avail && !s.black.BlackListed(q, r.Clean())
  }

  /** Free block `b` can serve the request. */
  ghost predicate Suits(s: Heap, b: nat, r: Request, maySplit: bool) {
    && b in s.ix.hdrs
    && var avail := Blocks(s.ix.hdrs[b].sz);
       && avail >= r.Need() && (maySplit || avail == r.Need())
       && (r.Exempt() || Punts(s, avail, r) || HasCleanStart(s, b, avail, r))
  }

  datatype Verdict = Skip | Take(at: nat) | Discard

  /** What GC_allochblk_nth does with one block of the list. */
  method Consider(s: Heap, b: nat, r: Request, maySplit: bool) returns (v: Verdict)
    requires r.sz > 0 && FreeAt(s.ix.hdrs, b)
    requires s.ix.hdrs[b].next != 0 ==> FreeAt(s.ix.hdrs, s.ix.hdrs[b].next)
    ensures v.Take? ==> Suits(s, b, r, maySplit) && b <= v.at && v.at + r.Need() <= End(s.ix.hdrs, b)
    ensures v.Take? ==>
        r.Exempt() || !s.black.BlackListed(v.at, r.Clean()) || (v.at == b && Punts(s, Blocks(s.ix.hdrs[b].sz), r))
    ensures v == Skip ==>
        !Suits(s, b, r, maySplit) || (s.ix.hdrs[b].next != 0 && Suits(s, s.ix.hdrs[b].next, r, maySplit))
    ensures v == Discard ==> !Suits(s, b, r, true) && r.Need() == 1 && !r.Exempt()
    ensures v == Discard ==> forall a :: b <= a < End(s.ix.hdrs, b) ==> s.black.BlackListed(a, 1)
  {
    var avail, need := Blocks(s.ix.hdrs[b].sz), r.Need();
    if avail < need { return Skip; }
    if avail != need {
      if !maySplit { return Skip; }
      var next := s.ix.hdrs[b].next;
      if next != 0 {
        var nextSize := Blocks(s.ix.hdrs[next].sz);
        if nextSize < avail && nextSize >= need {
          var listed := s.black.IsBlackListed(next, need);
          if listed == 0 {
            NotListedShort(s.black, next, r);
            return Skip;
          }
        }
      }
    }
    if r.Exempt() { return Take(b); }
    var start := s.black.FirstUsable(b, b + avail - need, r.Clean());
    if start <= b + avail - need {
      return Take(start);
    }
    if need * HBLKSIZE > s.spacing && (avail - need) * HBLKSIZE > s.spacing {
      return Take(b);
    }
    return if need == 1 && start == b + avail then Discard else Skip;
  }

  /** Fewer blocks to look at, fewer black-listed ones. */
  lemma NotListedShort(black: Lists, h: nat, r: Request)
    requires r.sz > 0 && !black.BlackListed(h, r.Need())
    ensures !black.BlackListed(h, r.Clean())
  {
  }

  class BlockHeap {
    var s: Heap
    ghost var owner: Owner
    ghost var lists: seq<seq<nat>>

    /** The heap is tiled, the index exact, the free lists and byte counts right, and no two free blocks touch. */
    ghost predicate Valid()
      reads this
    {
      Ok(s, owner, lists)
    }

    constructor (black: Lists, spacing: nat)
      ensures Valid() && s.black == black && s.spacing == spacing && InUse(s.ix.hdrs) == map[] && owner == map[]
    {
      s := Heap(Index(map[], map[], []), seq(N_HBLK_FLS + 1, i => 0), seq(N_HBLK_FLS + 1, i => 0), 0, black, spacing,
          0);
      owner := map[];
      lists := seq(N_HBLK_FLS + 1, i => []);
      new;
      ZeroTotal(N_HBLK_FLS + 1);
    }

    /** GC_add_to_heap: a region of `n` blocks from `p` on joins the heap, except for the part next to address zero. */
    method AddToHeap(p: nat, n: nat)
      requires Valid() && n > 0 && forall a :: p <= a < p + n ==> a !in owner
      modifies this
      ensures Valid() && InUse(s.ix.hdrs) == old(InUse(s.ix.hdrs))
      ensures forall a :: a in owner <==> a in old(owner) || (2 <= a && p <= a < p + n)
      ensures s.largeFree == old(s.largeFree) + BlocksGained(p, n) * HBLKSIZE
      ensures s.black == old(s.black) && s.spacing == old(s.spacing)
    {
      var q, m := p, n;
      while q <= 1
        invariant p <= q && m > 0 && q + m == p + n && (q == p || q <= 2)
        decreases m
      {
        q, m := q + 1, m - 1;
        if m == 0 { return; }
      }
      var t;
      t, owner, lists := Grow(s, q, m, owner, lists);
      s := t;
    }

    /**
      GC_allochblk: allocate a block for objects of `r.sz` bytes, splitting blocks only on lists up
      to `splitLimit`. It fails exactly when no free block of a size it may use suits the request.
     */
    method Allochblk(r: Request, splitLimit: nat) returns (res: nat)
      requires Valid() && r.sz > 0 && splitLimit <= N_HBLK_FLS
      modifies this
      ensures Valid() && owner.Keys == old(owner.Keys)
      ensures res == 0 <==> NoneLeft(old(s), r, splitLimit + 1)
      ensures res == 0 ==> OnlyDrops(old(s), s, r)
      ensures res != 0 ==> Allocated(old(s), s, res, r.sz)
      ensures res != 0 ==> r.Exempt() || !s.black.BlackListed(res, r.Clean()) || r.Need() * HBLKSIZE > s.spacing
    {
      var t;
      t, res, owner, lists := Allocate(s, r, splitLimit, owner, lists);
      if res == 0 { NoneLeftBefore(s, t, r, splitLimit + 1); }
      s := t;
    }

    /** GC_freehblk. Freeing a block that is free already is the "duplicate deallocation" abort. */
    method Freehblk(h: nat) returns (ok: bool)
      requires Valid() && h in s.ix.hdrs
      modifies this
      ensures ok <==> h in old(InUse(s.ix.hdrs))
      ensures !ok ==> s == old(s) && owner == old(owner)
      ensures Valid() && InUse(s.ix.hdrs) == old(InUse(s.ix.hdrs)) - {h} && owner.Keys == old(owner.Keys)
      ensures ok ==> s.largeFree == old(s.largeFree) + Blocks(old(s).ix.hdrs[h].sz) * HBLKSIZE
      ensures s.black == old(s.black) && s.spacing == old(s.spacing)
    {
      ok := !s.ix.hdrs[h].free;
      if ok {
        var t;
        t, owner, lists := Free(s, h, owner, lists);
        s := t;
      }
    }
  }

  /** The walk of GC_apply_to_all_blocks at offset `j` of bottom index `i` has gone past block `b`. */
  predicate Passed(keys: seq<nat>, i: nat, j: int, b: nat) {
    exists m :: 0 <= m <= i && m < |keys| && keys[m] == b / BOTTOM_SZ && (m < i || b % BOTTOM_SZ > j)
  }

  /** Where the walk stands: the blocks passed, and only they, were visited, once each, and those that die are gone. */
  ghost predicate Walked(used: map<nat, nat>, hdrs: Headers, keys: seq<nat>, i: nat, j: int, visited: seq<nat>,
      dies: nat -> bool) {
    && (forall b :: b in visited <==> b in used && Passed(keys, i, j, b))
    && (forall k, m :: 0 <= k < m < |visited| ==> visited[k] != visited[m])
    && InUse(hdrs) == map b | b in used && !(b in visited && dies(b)) :: used[b]
  }

  /**
    GC_apply_to_all_blocks, with a visitor that frees the blocks `dies` picks, as the sweeper does.
    Each block allocated at entry is visited exactly once, although freeing coalesces blocks
    around the walk.
   */
  method ApplyToAllBlocks(s: Heap, dies: nat -> bool, ghost owner: Owner, ghost lists: seq<seq<nat>>)
    returns (t: Heap, visited: seq<nat>, ghost owner': Owner, ghost lists': seq<seq<nat>>)
    requires Ok(s, owner, lists)
    ensures Ok(t, owner', lists') && owner'.Keys == owner.Keys
    ensures forall b :: b in visited <==> b in InUse(s.ix.hdrs)
    ensures forall k, m :: 0 <= k < m < |visited| ==> visited[k] != visited[m]
    ensures InUse(t.ix.hdrs) == map b | b in InUse(s.ix.hdrs) && !dies(b) :: InUse(s.ix.hdrs)[b]
  {
    t, visited, owner', lists' := s, [], owner, lists;
    ghost var used := InUse(s.ix.hdrs);
    var i := 0;
    while i < |t.ix.keys|
      invariant i <= |t.ix.keys| && t.ix.keys == s.ix.keys
      invariant Ok(t, owner', lists') && owner'.Keys == owner.Keys
      invariant Walked(used, t.ix.hdrs, t.ix.keys, i, BOTTOM_SZ - 1, visited, dies)
    {
      t, visited, owner', lists' := WalkBottomIndex(t, i, visited, dies, used, owner', lists');
      i := i + 1;
    }
    WalkDone(used, s.ix, t.ix.hdrs, visited, dies);
  }

  /** The walk through one bottom index, from its end. */
  method WalkBottomIndex(s: Heap, i: nat, before: seq<nat>, dies: nat -> bool, ghost used: map<nat, nat>,
      ghost owner: Owner, ghost lists: seq<seq<nat>>)
    returns (t: Heap, visited: seq<nat>, ghost owner': Owner, ghost lists': seq<seq<nat>>)
    requires Ok(s, owner, lists) && i < |s.ix.keys|
      && Walked(used, s.ix.hdrs, s.ix.keys, i, BOTTOM_SZ - 1, before, dies)
    ensures Ok(t, owner', lists') && owner'.Keys == owner.Keys && t.ix.keys == s.ix.keys
    ensures Walked(used, t.ix.hdrs, t.ix.keys, i + 1, BOTTOM_SZ - 1, visited, dies)
  {
    t, visited, owner', lists' := s, before, owner, lists;
    var j := BOTTOM_SZ - 1;
    while j >= 0
      invariant j < BOTTOM_SZ && t.ix.keys == s.ix.keys
      invariant Ok(t, owner', lists') && owner'.Keys == owner.Keys
      invariant Walked(used, t.ix.hdrs, t.ix.keys, i, j, visited, dies)
      decreases j
    {
      t, j, visited, owner', lists' := WalkStep(t, i, j, visited, dies, used, owner', lists');
    }
    WalkTurns(used, t.ix.hdrs, t.ix.keys, i, j, visited, dies);
  }

  method WalkStep(s: Heap, i: nat, j: nat, before: seq<nat>, dies: nat -> bool, ghost used: map<nat, nat>,
      ghost owner: Owner, ghost lists: seq<seq<nat>>)
    returns (t: Heap, j': int, visited: seq<nat>, ghost owner': Owner, ghost lists': seq<seq<nat>>)
    requires Ok(s, owner, lists) && i < |s.ix.keys| && j < BOTTOM_SZ
      && Walked(used, s.ix.hdrs, s.ix.keys, i, j, before, dies)
    ensures Ok(t, owner', lists') && owner'.Keys == owner.Keys && t.ix.keys == s.ix.keys
    ensures j' < j && Walked(used, t.ix.hdrs, t.ix.keys, i, j', visited, dies)
  {
    var a := s.ix.keys[i] * BOTTOM_SZ + j;
    if a in s.ix.hdrs && !s.ix.hdrs[a].free {
      t, owner', lists' := Visit(s, i, j, before, dies, used, owner, lists);
      return t, j - 1, before + [a], owner', lists';
    }
    var d := if a in s.ix.hdrs || a !in s.ix.fwd then 1 else s.ix.fwd[a];
    NoStartSkipped(s.ix, owner, a);
    WalkSkips(used, s.ix.hdrs, s.ix.keys, i, j, d, before, dies);
    return s, j - d, before, owner, lists;
  }

  method Visit(s: Heap, i: nat, j: nat, ghost visited: seq<nat>, dies: nat -> bool, ghost used: map<nat, nat>,
      ghost owner: Owner, ghost lists: seq<seq<nat>>)
    returns (t: Heap, ghost owner': Owner, ghost lists': seq<seq<nat>>)
    requires Ok(s, owner, lists) && i < |s.ix.keys| && j < BOTTOM_SZ
      && Walked(used, s.ix.hdrs, s.ix.keys, i, j, visited, dies)
    requires s.ix.keys[i] * BOTTOM_SZ + j in InUse(s.ix.hdrs)
    ensures Ok(t, owner', lists') && owner'.Keys == owner.Keys && t.ix.keys == s.ix.keys
    ensures Walked(used, t.ix.hdrs, t.ix.keys, i, j - 1, visited + [s.ix.keys[i] * BOTTOM_SZ + j], dies)
  {
    WalkVisits(used, s.ix.hdrs, s.ix.keys, i, j, visited, dies);
    t, owner', lists' := s, owner, lists;
    if dies(s.ix.keys[i] * BOTTOM_SZ + j) {
      t, owner', lists' := Free(s, s.ix.keys[i] * BOTTOM_SZ + j, owner, lists);
    }
  }

  lemma NoStartSkipped(ix: Index, owner: Owner, a: nat)
    requires ix.Sound(owner, 0) && !(a in ix.hdrs && !ix.hdrs[a].free)
    ensures var d := if a in ix.hdrs || a !in ix.fwd then 1 else ix.fwd[a];
            d > 0 && forall b :: b in InUse(ix.hdrs) && b <= a ==> b <= a - d
  {
    if a !in ix.hdrs && a in ix.fwd { JumpIsSafe(ix.hdrs, ix.fwd, owner, 0, a); }
  }

  /** Positions the walk steps over hold no block in use. */
  lemma WalkSkips(used: map<nat, nat>, hdrs: Headers, keys: seq<nat>, i: nat, j: nat, d: nat, visited: seq<nat>,
      dies: nat -> bool)
    requires Ascending(keys) && i < |keys| && j < BOTTOM_SZ && d > 0 && Walked(used, hdrs, keys, i, j, visited, dies)
    requires forall b :: b in InUse(hdrs) && b <= keys[i] * BOTTOM_SZ + j ==> b <= keys[i] * BOTTOM_SZ + j - d
    ensures Walked(used, hdrs, keys, i, j - d, visited, dies)
  {
    forall b | b in used ensures Passed(keys, i, j - d, b) <==> Passed(keys, i, j, b) {
      if Passed(keys, i, j - d, b) {
        var m :| 0 <= m <= i && m < |keys| && keys[m] == b / BOTTOM_SZ && (m < i || b % BOTTOM_SZ > j - d);
        assert b in visited || b in InUse(hdrs);
        assert m < i || b % BOTTOM_SZ > j || b in visited;
      }
      if Passed(keys, i, j, b) {
        var m :| 0 <= m <= i && m < |keys| && keys[m] == b / BOTTOM_SZ && (m < i || b % BOTTOM_SZ > j);
        assert m < i || b % BOTTOM_SZ > j - d;
      }
    }
  }

  lemma WalkVisits(used: map<nat, nat>, hdrs: Headers, keys: seq<nat>, i: nat, j: nat, visited: seq<nat>,
      dies: nat -> bool)
    requires Ascending(keys) && i < |keys| && j < BOTTOM_SZ && Walked(used, hdrs, keys, i, j, visited, dies)
    requires keys[i] * BOTTOM_SZ + j in InUse(hdrs)
    ensures var a := keys[i] * BOTTOM_SZ + j;
            forall hdrs' :: InUse(hdrs') == (if dies(a) then InUse(hdrs) - {a} else InUse(hdrs)) ==>
              Walked(used, hdrs', keys, i, j - 1, visited + [a], dies)
  {
  }

  lemma WalkTurns(used: map<nat, nat>, hdrs: Headers, keys: seq<nat>, i: nat, j: int, visited: seq<nat>,
      dies: nat -> bool)
    requires i < |keys| && j < 0 && Walked(used, hdrs, keys, i, j, visited, dies)
    ensures Walked(used, hdrs, keys, i + 1, BOTTOM_SZ - 1, visited, dies)
  {
  }

  lemma WalkDone(used: map<nat, nat>, ix: Index, hdrs: Headers, visited: seq<nat>, dies: nat -> bool)
    requires KeysOk(ix.hdrs, ix.fwd, ix.keys) && used == InUse(ix.hdrs)
    requires Walked(used, hdrs, ix.keys, |ix.keys|, BOTTOM_SZ - 1, visited, dies)
    ensures forall b :: b in visited <==> b in used
    ensures InUse(hdrs) == map b | b in used && !dies(b) :: used[b]
  {
    forall b | b in used ensures Passed(ix.keys, |ix.keys|, BOTTOM_SZ - 1, b) {
      assert HasKey(ix.keys, b);
    }
  }

  /** GC_freehblk on values. `h` is in use, or a region just added, which has no forwarding counts yet. */
  method Free(s: Heap, h: nat, ghost owner: Owner, ghost lists: seq<seq<nat>>)
    returns (t: Heap, ghost owner': Owner, ghost lists': seq<seq<nat>>)
    requires s.Partial(owner, lists, {}, h) && s.largeFree == Total(s.counts) && h in s.ix.hdrs && !s.ix.hdrs[h].free
    ensures Ok(t, owner', lists') && owner'.Keys == owner.Keys
    ensures InUse(t.ix.hdrs) == InUse(s.ix.hdrs) - {h}
    ensures t.largeFree == s.largeFree + Blocks(s.ix.hdrs[h].sz) * HBLKSIZE
    ensures t == s.(ix := t.ix, heads := t.heads, counts := t.counts, largeFree := t.largeFree)
      && t.ix.keys == s.ix.keys
  {
    var size;
    t, size := Open(s, h, owner, lists);
    t, owner', lists' := Coalesce(t, h, owner, lists);
    t := t.(largeFree := t.largeFree + size);
  }

  method Grow(s: Heap, p: nat, n: nat, ghost owner: Owner, ghost lists: seq<seq<nat>>)
    returns (t: Heap, ghost owner': Owner, ghost lists': seq<seq<nat>>)
    requires Ok(s, owner, lists) && p > 0 && n > 0 && forall a :: p <= a < p + n ==> a !in owner
    ensures Ok(t, owner', lists') && forall a :: a in owner' <==> a in owner || p <= a < p + n
    ensures InUse(t.ix.hdrs) == InUse(s.ix.hdrs) && t.largeFree == s.largeFree + n * HBLKSIZE
    ensures t.black == s.black && t.spacing == s.spacing
  {
    t, owner' := Extend(s, p, n, owner, lists);
    ghost var o := owner';
    t, owner', lists' := Free(t, p, owner', lists);
    assert forall a :: a in owner' <==> a in o;
  }

  method Extend(s: Heap, p: nat, n: nat, ghost owner: Owner, ghost lists: seq<seq<nat>>)
      returns (t: Heap, ghost owner': Owner)
    requires Ok(s, owner, lists) && p > 0 && n > 0 && forall a :: p <= a < p + n ==> a !in owner
    ensures t.Partial(owner', lists, {}, p) && forall a :: a in owner' <==> a in owner || p <= a < p + n
    ensures p in t.ix.hdrs && !t.ix.hdrs[p].free && Blocks(t.ix.hdrs[p].sz) == n
    ensures InUse(t.ix.hdrs) - {p} == InUse(s.ix.hdrs) && t == s.(ix := t.ix)
  {
    var hdr := Hdr(n * HBLKSIZE, false, 0, 0);
    var ix := s.ix.GetIndex(p);
    assert Blocks(hdr.sz) == n;
    ExtendKeepsPartial(s, owner, lists, p, hdr, ix.keys);
    t := s.(ix := ix.(hdrs := ix.hdrs[p := hdr]));
    owner' := Extended(owner, p, n);
  }

  /** The start of GC_freehblk: the block loses its forwarding counts and becomes loose. */
  method Open(s: Heap, h: nat, ghost owner: Owner, ghost lists: seq<seq<nat>>) returns (t: Heap, size: nat)
    requires s.Partial(owner, lists, {}, h) && h in s.ix.hdrs && !s.ix.hdrs[h].free
    ensures size == Blocks(s.ix.hdrs[h].sz) * HBLKSIZE
    ensures Loose(t, owner, lists, {h}) && t.ix.hdrs[h].sz == size
    ensures InUse(t.ix.hdrs) == InUse(s.ix.hdrs) - {h}
    ensures t == s.(ix := t.ix) && t.ix.keys == s.ix.keys
  {
    size := Blocks(s.ix.hdrs[h].sz) * HBLKSIZE;
    var ix := s.ix.RemoveCounts(h, Blocks(s.ix.hdrs[h].sz));
    InsideIsOwned(s.ix.hdrs, owner, h);
    OpenKeepsPartial(s, owner, lists, h, ix.fwd);
    t := s.(ix := ix.(hdrs := ix.hdrs[h := ix.hdrs[h].(sz := size, free := true)]));
  }

  /** One coalescing step: `x`, which is `b` or `e`, is taken off its list and `b` absorbs `e`. */
  method Absorb(s: Heap, b: nat, e: nat, x: nat, ghost y: nat, ghost owner: Owner, ghost lists: seq<seq<nat>>)
    returns (t: Heap, ghost owner': Owner, ghost lists': seq<seq<nat>>)
    requires FreeAt(s.ix.hdrs, x) && e == End(s.ix.hdrs, b) && x != y && {y, x} == {b, e}
    requires Loose(s, owner, lists, {y})
    ensures Loose(t, owner', lists', {b})
    ensures Absorbed(s.ix.hdrs, t.ix.hdrs, b, e) && owner'.Keys == owner.Keys
    ensures t == s.(ix := s.ix.(hdrs := t.ix.hdrs), heads := t.heads, counts := t.counts)
    ensures Total(t.counts) + t.ix.hdrs[b].sz == Total(s.counts) + s.ix.hdrs[y].sz
  {
    ghost var u;
    u, lists' := TakeListed(s, owner, lists, {y}, x);
    t := TakenOff(s, x, ListFor(Blocks(s.ix.hdrs[x].sz)));
    assert {y} + {x} == {b, e};
    u := MergeLoose(t, owner, lists', b, e);
    t := t.(ix := t.ix.(hdrs := Merged(t.ix.hdrs, b, e)));
    owner' := Relabel(owner, e, b);
  }

  /** Coalescing with the successor. */
  method MergeNext(s: Heap, h: nat, ghost owner: Owner, ghost lists: seq<seq<nat>>)
    returns (t: Heap, ghost owner': Owner, ghost lists': seq<seq<nat>>)
    requires Loose(s, owner, lists, {h})
    ensures Loose(t, owner', lists', {h}) && NoFreeAfter(t.ix.hdrs, h)
    ensures t == s.(ix := s.ix.(hdrs := t.ix.hdrs), heads := t.heads, counts := t.counts)
    ensures Total(t.counts) + t.ix.hdrs[h].sz == Total(s.counts) + s.ix.hdrs[h].sz
    ensures InUse(t.ix.hdrs) == InUse(s.ix.hdrs) && owner'.Keys == owner.Keys
    ensures KeptBelow(s.ix.hdrs, t.ix.hdrs, h)
  {
    t, owner', lists' := s, owner, lists;
    var next := End(s.ix.hdrs, h);
    if FreeAt(s.ix.hdrs, next) {
      CoalescedFacts(s.ix.hdrs, owner, h, next);
      t, owner', lists' := Absorb(s, h, next, next, h, owner, lists);
    }
  }

  /** Coalescing with the predecessor, found before the successor was merged. */
  method MergePrev(s: Heap, h: nat, prev: nat, ghost owner: Owner, ghost lists: seq<seq<nat>>)
    returns (t: Heap, b: nat, ghost owner': Owner, ghost lists': seq<seq<nat>>)
    requires Loose(s, owner, lists, {h}) && NoFreeAfter(s.ix.hdrs, h)
    requires if prev == 0 then NoFreeBefore(s.ix.hdrs, h) else FreeAt(s.ix.hdrs, prev) && End(s.ix.hdrs, prev) == h
    ensures Loose(t, owner', lists', {b}) && NoFreeAfter(t.ix.hdrs, b) && NoFreeBefore(t.ix.hdrs, b)
    ensures t == s.(ix := s.ix.(hdrs := t.ix.hdrs), heads := t.heads, counts := t.counts)
    ensures Total(t.counts) + t.ix.hdrs[b].sz == Total(s.counts) + s.ix.hdrs[h].sz
    ensures InUse(t.ix.hdrs) == InUse(s.ix.hdrs) && owner'.Keys == owner.Keys
  {
    t, b, owner', lists' := s, h, owner, lists;
    if prev != 0 {
      CoalescedFacts(s.ix.hdrs, owner, h, prev);
      t, owner', lists' := Absorb(s, prev, h, prev, h, owner, lists);
      b := prev;
    }
  }

  /** The rest of GC_freehblk: merge with free neighbours and add the result to its list. */
  method Coalesce(s: Heap, h: nat, ghost owner: Owner, ghost lists: seq<seq<nat>>)
    returns (t: Heap, ghost owner': Owner, ghost lists': seq<seq<nat>>)
    requires Loose(s, owner, lists, {h})
    ensures t.Partial(owner', lists', {}, 0)
    ensures t == s.(ix := s.ix.(hdrs := t.ix.hdrs), heads := t.heads, counts := t.counts)
    ensures h in s.ix.hdrs && Total(t.counts) == Total(s.counts) + s.ix.hdrs[h].sz
    ensures InUse(t.ix.hdrs) == InUse(s.ix.hdrs) && owner'.Keys == owner.Keys
  {
    assert h in {h};
    var prev := s.ix.FreeBlockEndingAt(h, owner, 0);
    t, owner', lists' := MergeNext(s, h, owner, lists);
    KeptBelowFacts(s.ix.hdrs, t.ix.hdrs, h, prev);
    var b;
    t, b, owner', lists' := MergePrev(t, h, prev, owner', lists');
    t, lists' := Close(t, b, owner', lists');
  }

  method Close(s: Heap, b: nat, ghost owner: Owner, ghost lists: seq<seq<nat>>)
      returns (t: Heap, ghost lists': seq<seq<nat>>)
    requires Loose(s, owner, lists, {b}) && NoFreeAfter(s.ix.hdrs, b) && NoFreeBefore(s.ix.hdrs, b)
    ensures t.Partial(owner, lists', {}, 0)
    ensures t == s.(ix := s.ix.(hdrs := t.ix.hdrs), heads := t.heads, counts := t.counts)
    ensures b in s.ix.hdrs && Total(t.counts) == Total(s.counts) + s.ix.hdrs[b].sz
    ensures InUse(t.ix.hdrs) == InUse(s.ix.hdrs)
  {
    LooseIsFreeable(s, owner, lists, b);
    assert {} + {b} == {b};
    t, lists' := AddToList(s, b, owner, lists, {});
    OnlyFreedInUse(s.ix.hdrs, t.ix.hdrs, b);
  }

  /** GC_add_to_fl. */
  method AddToList(s: Heap, b: nat, ghost owner: Owner, ghost lists: seq<seq<nat>>, ghost odd: set<nat>)
    returns (t: Heap, ghost lists': seq<seq<nat>>)
    requires s.Partial(owner, lists, odd + {b}, 0) && OnNoList(lists, b) && b != 0 && Freeable(s.ix, owner, b, odd)
    ensures t.Partial(owner, lists', odd, 0)
    ensures lists' == var n := ListFor(Blocks(s.ix.hdrs[b].sz)); lists[n := [b] + lists[n]]
    ensures OnlyFreed(s.ix.hdrs, t.ix.hdrs, b)
    ensures t == s.(ix := s.ix.(hdrs := t.ix.hdrs), heads := t.heads, counts := t.counts)
    ensures Total(t.counts) == Total(s.counts) + s.ix.hdrs[b].sz
  {
    PutOnKeepsPartial(s, owner, lists, odd, 0, b);
    PutOnTotal(s, b);
    t := PutOn(s, b);
    lists' := var n := ListFor(Blocks(s.ix.hdrs[b].sz)); lists[n := [b] + lists[n]];
  }

  // ---- Allocation steps ----

  /** GC_remove_from_fl with a known list. */
  method RemoveFromList(s: Heap, b: nat, n: nat, ghost k: nat, ghost owner: Owner, ghost lists: seq<seq<nat>>,
      ghost odd: set<nat>)
    returns (t: Heap, ghost lists': seq<seq<nat>>)
    requires s.Partial(owner, lists, odd, 0) && At(lists, n, k, b)
    ensures t.Partial(owner, lists', odd + {b}, 0) && OnNoList(lists', b)
    ensures lists' == lists[n := Drop(lists[n], k)]
    ensures SameBlocks(s.ix.hdrs, t.ix.hdrs)
    ensures t == s.(ix := s.ix.(hdrs := t.ix.hdrs), heads := t.heads, counts := t.counts)
    ensures b in s.ix.hdrs && Total(t.counts) == Total(s.counts) - s.ix.hdrs[b].sz
  {
    TakeOffKeepsPartial(s, owner, lists, odd, 0, n, k);
    TotalUpdate(s.counts, n, s.counts[n] - s.ix.hdrs[b].sz);
    t, lists' := TakenOff(s, b, n), lists[n := Drop(lists[n], k)];
  }

  /** The first half of GC_split_block: `c` takes the place of `h` on list `n`. */
  method CutOff(s: Heap, h: nat, bytes: nat, n: nat, ghost k: nat, ghost owner: Owner, ghost lists: seq<seq<nat>>)
    returns (t: Heap, ghost lists': seq<seq<nat>>)
    requires s.Partial(owner, lists, {}, 0) && At(lists, n, k, h) && FreeAt(s.ix.hdrs, h)
    requires 0 < bytes < s.ix.hdrs[h].sz && bytes % HBLKSIZE == 0
    ensures h + Blocks(bytes) !in s.ix.hdrs && At(lists', n, k, h + Blocks(bytes)) && OnNoList(lists', h)
    ensures t.Partial(SplitOwner(owner, h, h + Blocks(bytes)), lists', {h + Blocks(bytes)} + {h}, 0)
    ensures SameBlocks(Cut(s.ix.hdrs, h, bytes), t.ix.hdrs)
    ensures t == s.(ix := s.ix.(hdrs := t.ix.hdrs, keys := t.ix.keys), heads := t.heads, counts := t.counts)
    ensures Total(t.counts) == Total(s.counts) - bytes
  {
    var ix := s.ix.GetIndex(h + Blocks(bytes));
    ghost var u;
    u, lists' := SplitKeepsPartial(s, owner, lists, n, k, h, bytes, ix.keys);
    t := SplitOff(s, h, bytes, n, ix.keys);
  }

  /**
    GC_split_block: cut `bytes` bytes off the front of block `h`; the rest stays on list `n`, right
    or wrong for its size.
   */
  method SplitBlock(s: Heap, h: nat, bytes: nat, n: nat, ghost k: nat, ghost owner: Owner, ghost lists: seq<seq<nat>>)
    returns (t: Heap, ghost k': nat, ghost owner': Owner, ghost lists': seq<seq<nat>>)
    requires s.Partial(owner, lists, {}, 0) && At(lists, n, k, h) && FreeAt(s.ix.hdrs, h)
    requires 0 < bytes < s.ix.hdrs[h].sz && bytes % HBLKSIZE == 0
    ensures t.Partial(owner', lists', {h + Blocks(bytes)}, 0) && At(lists', n, k', h + Blocks(bytes))
    ensures SplitDone(s.ix.hdrs, t.ix.hdrs, h, bytes) && owner'.Keys == owner.Keys
    ensures t == s.(ix := s.ix.(hdrs := t.ix.hdrs, keys := t.ix.keys), heads := t.heads, counts := t.counts)
    ensures Total(t.counts) == Total(s.counts)
  {
    owner' := SplitOwner(owner, h, h + Blocks(bytes));
    t, lists' := CutOff(s, h, bytes, n, k, owner, lists);
    SplitFreeable(t, owner', lists', s.ix.hdrs, h, bytes);
    ghost var lists1, hdrs1 := lists', t.ix.hdrs;
    t, lists' := AddToList(t, h, owner', lists', {h + Blocks(bytes)});
    SplitFacts(s.ix.hdrs, hdrs1, t.ix.hdrs, h, bytes);
    k' := AddedPosition(lists1, ListFor(Blocks(hdrs1[h].sz)), h, n, k);
  }

  /** GC_get_first_part: take block `b` off list `n` and return what it has too much to the free lists. */
  method GetFirstPart(s: Heap, b: nat, bytes: nat, n: nat, ghost k: nat, ghost owner: Owner,
      ghost lists: seq<seq<nat>>, ghost odd: set<nat>)
    returns (t: Heap, ghost owner': Owner, ghost lists': seq<seq<nat>>)
    requires s.Partial(owner, lists, odd, 0) && odd <= {b} && At(lists, n, k, b) && FreeAt(s.ix.hdrs, b)
      && NoFreeAfter(s.ix.hdrs, b)
    requires 0 < bytes <= s.ix.hdrs[b].sz && bytes % HBLKSIZE == 0
    ensures Loose(t, owner', lists', {b}) && t.ix.hdrs[b].sz == bytes
    ensures InUse(t.ix.hdrs) == InUse(s.ix.hdrs) && owner'.Keys == owner.Keys
    ensures t == s.(ix := s.ix.(hdrs := t.ix.hdrs, keys := t.ix.keys), heads := t.heads, counts := t.counts)
    ensures Total(t.counts) == Total(s.counts) - bytes
  {
    owner' := owner;
    t, lists' := RemoveFromList(s, b, n, k, owner, lists, odd);
    SameBlocksFacts(s.ix.hdrs, t.ix.hdrs);
    assert odd + {b} == {b};
    if t.ix.hdrs[b].sz != bytes {
      t, owner', lists' := ReturnRest(t, b, bytes, owner, lists');
    }
  }

  method ReturnRest(s: Heap, b: nat, bytes: nat, ghost owner: Owner, ghost lists: seq<seq<nat>>)
    returns (t: Heap, ghost owner': Owner, ghost lists': seq<seq<nat>>)
    requires Loose(s, owner, lists, {b}) && NoFreeAfter(s.ix.hdrs, b) && 0 < bytes < s.ix.hdrs[b].sz
      && bytes % HBLKSIZE == 0
    ensures Loose(t, owner', lists', {b}) && t.ix.hdrs[b].sz == bytes
    ensures InUse(t.ix.hdrs) == InUse(s.ix.hdrs) && owner'.Keys == owner.Keys
    ensures t == s.(ix := s.ix.(hdrs := t.ix.hdrs, keys := t.ix.keys), heads := t.heads, counts := t.counts)
    ensures Total(t.counts) == Total(s.counts) + s.ix.hdrs[b].sz - bytes
  {
    var rest := b + Blocks(bytes);
    var ix := s.ix.GetIndex(rest);
    ghost var u := CutLoose(s, owner, lists, b, bytes, ix.keys);
    owner' := SplitOwner(owner, b, rest);
    t := s.(ix := ix.(hdrs := Cut(ix.hdrs, b, bytes)));
    RestFreeable(s.ix.hdrs, t, owner', lists, b, bytes);
    ghost var hdrs1 := t.ix.hdrs;
    t, lists' := AddToList(t, rest, owner', lists, {b});
    AddedOnNoList(lists, ListFor(Blocks(hdrs1[rest].sz)), rest, b);
    RestFacts(s.ix.hdrs, t.ix.hdrs, b, bytes);
  }

  /** The end of GC_allochblk_nth: forwarding counts and header for the chosen block. */
  method Seal(s: Heap, b: nat, sz: nat, ghost owner: Owner, ghost lists: seq<seq<nat>>) returns (t: Heap)
    requires Loose(s, owner, lists, {b}) && b in s.ix.hdrs && sz > 0 && s.ix.hdrs[b].sz == Blocks(sz) * HBLKSIZE
    ensures t.Partial(owner, lists, {}, 0)
    ensures InUse(t.ix.hdrs) == InUse(s.ix.hdrs)[b := sz]
    ensures t == s.(ix := t.ix)
  {
    var ix := s.ix.InstallCounts(b, Blocks(sz));
    SealKeepsPartial(s, owner, lists, b, Hdr(sz, false, 0, 0), ix);
    t := s.(ix := ix.(hdrs := ix.hdrs[b := Hdr(sz, false, 0, 0)]));
  }

  /** Allocating and dropping a completely black-listed block, in single-block pieces. */
  method DropBlock(s: Heap, b: nat, n: nat, ghost k: nat, ghost owner: Owner, ghost lists: seq<seq<nat>>)
    returns (t: Heap, ghost lists': seq<seq<nat>>)
    requires s.Partial(owner, lists, {}, 0) && At(lists, n, k, b) && FreeAt(s.ix.hdrs, b)
    ensures t.Partial(ChoppedOwner(owner, b), lists', {}, 0) && lists' == lists[n := Drop(lists[n], k)]
    ensures Dropped(s.ix.hdrs, t.ix.hdrs, b)
    ensures t == s.(ix := s.ix.(hdrs := t.ix.hdrs, keys := t.ix.keys), heads := t.heads, counts := t.counts)
    ensures Total(t.counts) == Total(s.counts) - s.ix.hdrs[b].sz
  {
    t, lists' := RemoveFromList(s, b, n, k, owner, lists, {});
    assert {} + {b} == {b};
    var ix := Chop(t.ix, b);
    ChopKeepsPartial(t, ix.hdrs, owner, lists', b, ix.keys);
    ChopDropped(s.ix.hdrs, t.ix.hdrs, ix.hdrs, owner, b);
    t := t.(ix := ix);
  }

  method Chop(ix: Index, b: nat) returns (r: Index)
    requires KeysOk(ix.hdrs, ix.fwd, ix.keys) && b in ix.hdrs
    ensures r == ix.(hdrs := r.hdrs, keys := r.keys)
    ensures Chopped(ix.hdrs, r.hdrs, b, Blocks(ix.hdrs[b].sz)) && KeysOk(r.hdrs, ix.fwd, r.keys)
  {
    r := ix;
    var limit := b + Blocks(ix.hdrs[b].sz);
    var h := b;
    while h < limit
      invariant b <= h <= limit
      invariant r == ix.(hdrs := r.hdrs, keys := r.keys)
      invariant Chopped(ix.hdrs, r.hdrs, b, h - b) && KeysOk(r.hdrs, ix.fwd, r.keys)
    {
      r := r.GetIndex(h);
      r := r.(hdrs := r.hdrs[h := Hdr(HBLKSIZE, false, 0, 0)]);
      h := h + 1;
    }
  }

  /** The heap is in order and the total of free bytes is right. */
  ghost predicate Ok(s: Heap, owner: Owner, lists: seq<seq<nat>>) {
    s.Partial(owner, lists, {}, 0) && s.largeFree == Total(s.counts)
  }

  /** What a search may do besides finding a block: drop black-listed blocks. */
  ghost predicate OnlyDrops(s: Heap, t: Heap, r: Request) {
    && (forall b :: b in InUse(s.ix.hdrs) ==> b in InUse(t.ix.hdrs) && InUse(t.ix.hdrs)[b] == InUse(s.ix.hdrs)[b])
    && (forall b :: b in InUse(t.ix.hdrs) && b !in InUse(s.ix.hdrs) ==>
        InUse(t.ix.hdrs)[b] == HBLKSIZE && s.black.BlackListed(b, 1))
    && (forall b :: FreeAt(t.ix.hdrs, b) ==> FreeAt(s.ix.hdrs, b) && t.ix.hdrs[b].sz == s.ix.hdrs[b].sz)
    && (forall b :: FreeAt(s.ix.hdrs, b) && !FreeAt(t.ix.hdrs, b) ==> !Suits(s, b, r, true))
    && t.black == s.black && t.spacing == s.spacing
  }

  /** Block `res` was free, is now in use for objects of `sz` bytes, and nothing else changed but drops. */
  ghost predicate Allocated(s: Heap, t: Heap, res: nat, sz: nat) {
    && res in InUse(t.ix.hdrs) && InUse(t.ix.hdrs)[res] == sz && res !in InUse(s.ix.hdrs)
    && (forall b :: b in InUse(s.ix.hdrs) ==> b in InUse(t.ix.hdrs) && InUse(t.ix.hdrs)[b] == InUse(s.ix.hdrs)[b])
    && (forall b :: b in InUse(t.ix.hdrs) && b !in InUse(s.ix.hdrs) && b != res ==>
          InUse(t.ix.hdrs)[b] == HBLKSIZE && s.black.BlackListed(b, 1))
    && t.black == s.black && t.spacing == s.spacing
  }

  lemma DropIsOnlyDrops(s: Heap, t: Heap, u: Heap, b: nat, r: Request)
    requires OnlyDrops(s, t, r) && FreeAt(t.ix.hdrs, b) && Dropped(t.ix.hdrs, u.ix.hdrs, b) && u.black == t.black
      && u.spacing == t.spacing && t.ix.hdrs[b].sz > 0
    requires forall a :: b <= a < End(t.ix.hdrs, b) ==> t.black.BlackListed(a, 1)
    requires !Suits(t, b, r, true)
    ensures OnlyDrops(s, u, r)
  {
  }

  /** Taking the chosen start out of block `b`, at position `k` of list `n`. */
  method TakeBlock(s: Heap, b: nat, at: nat, r: Request, n: nat, ghost k: nat, ghost owner: Owner,
      ghost lists: seq<seq<nat>>)
    returns (t: Heap, ghost owner': Owner, ghost lists': seq<seq<nat>>)
    requires Ok(s, owner, lists) && At(lists, n, k, b) && FreeAt(s.ix.hdrs, b) && r.sz > 0
    requires b <= at && at + r.Need() <= End(s.ix.hdrs, b)
    ensures Ok(t, owner', lists') && owner'.Keys == owner.Keys
    ensures InUse(t.ix.hdrs) == InUse(s.ix.hdrs)[at := r.sz]
    ensures t == s.(ix := t.ix, heads := t.heads, counts := t.counts, largeFree := t.largeFree)
  {
    FitsInBytes(s.ix.hdrs, owner, b, at, r.Need());
    if at == b {
      assert NoFreeAfter(s.ix.hdrs, b);
      t, owner', lists' := TakeFront(s, b, r, n, k, owner, lists, {});
    } else {
      t, owner', lists' := TakeMiddle(s, b, (at - b) * HBLKSIZE, r, n, k, owner, lists);
    }
  }

  lemma FitsInBytes(hdrs: Headers, owner: Owner, b: nat, at: nat, need: nat)
    requires Tiled(hdrs, owner) && FreeAt(hdrs, b) && b <= at && at + need <= End(hdrs, b)
    ensures (at - b) * HBLKSIZE + need * HBLKSIZE <= hdrs[b].sz && Blocks((at - b) * HBLKSIZE) == at - b
  {
  }

  /** Taking a part that does not start the block: the black-listed front goes back to the free lists. */
  method TakeMiddle(s: Heap, b: nat, bytes: nat, r: Request, n: nat, ghost k: nat, ghost owner: Owner,
      ghost lists: seq<seq<nat>>)
    returns (t: Heap, ghost owner': Owner, ghost lists': seq<seq<nat>>)
    requires Ok(s, owner, lists) && At(lists, n, k, b) && FreeAt(s.ix.hdrs, b) && r.sz > 0
    requires 0 < bytes && bytes % HBLKSIZE == 0 && bytes + r.Need() * HBLKSIZE <= s.ix.hdrs[b].sz
    ensures Ok(t, owner', lists') && owner'.Keys == owner.Keys
    ensures InUse(t.ix.hdrs) == InUse(s.ix.hdrs)[b + Blocks(bytes) := r.sz]
    ensures t == s.(ix := t.ix, heads := t.heads, counts := t.counts, largeFree := t.largeFree)
  {
    ghost var k';
    t, k', owner', lists' := SplitBlock(s, b, bytes, n, k, owner, lists);
    t, owner', lists' := TakeFront(t, b + Blocks(bytes), r, n, k', owner', lists', {b + Blocks(bytes)});
  }

  /** Taking the first part of block `b`, which may be on a list that is wrong for its size. */
  method TakeFront(s: Heap, b: nat, r: Request, n: nat, ghost k: nat, ghost owner: Owner, ghost lists: seq<seq<nat>>,
      ghost odd: set<nat>)
    returns (t: Heap, ghost owner': Owner, ghost lists': seq<seq<nat>>)
    requires s.Partial(owner, lists, odd, 0) && odd <= {b} && At(lists, n, k, b) && FreeAt(s.ix.hdrs, b)
      && NoFreeAfter(s.ix.hdrs, b)
    requires s.largeFree == Total(s.counts) && r.sz > 0 && r.Need() * HBLKSIZE <= s.ix.hdrs[b].sz
    ensures Ok(t, owner', lists') && owner'.Keys == owner.Keys
    ensures InUse(t.ix.hdrs) == InUse(s.ix.hdrs)[b := r.sz]
    ensures t == s.(ix := t.ix, heads := t.heads, counts := t.counts, largeFree := t.largeFree)
  {
    t, owner', lists' := GetFirstPart(s, b, r.Need() * HBLKSIZE, n, k, owner, lists, odd);
    t := Seal(t, b, r.sz, owner', lists');
    t := t.(largeFree := t.largeFree - r.Need() * HBLKSIZE);
  }

  /** No free block on the list can serve the request. */
  ghost predicate NoneSuits(s: Heap, l: seq<nat>, r: Request, maySplit: bool) {
    forall k :: 0 <= k < |l| ==> !Suits(s, l[k], r, maySplit)
  }

  /** Free block `b` is on list `n` and can serve the request. */
  ghost predicate Served(s: Heap, b: nat, n: nat, r: Request, maySplit: bool) {
    FreeAt(s.ix.hdrs, b) && ListFor(Blocks(s.ix.hdrs[b].sz)) == n && Suits(s, b, r, maySplit)
  }

  /** The state of a search at position `k`: if an earlier block suits, so does the one at `k`. */
  ghost predicate Searched(s: Heap, l: seq<nat>, k: nat, r: Request, maySplit: bool) {
    forall j :: 0 <= j < k <= |l| && Suits(s, l[j], r, maySplit) ==> k < |l| && Suits(s, l[k], r, maySplit)
  }

  /** GC_allochblk_nth. */
  method AllochblkNth(s: Heap, r: Request, n: nat, maySplit: bool, ghost owner: Owner, ghost lists: seq<seq<nat>>)
    returns (t: Heap, res: nat, ghost owner': Owner, ghost lists': seq<seq<nat>>)
    requires Ok(s, owner, lists) && r.sz > 0 && n <= N_HBLK_FLS
    ensures Ok(t, owner', lists') && owner'.Keys == owner.Keys
    ensures res == 0 ==> OnlyDrops(s, t, r) && NoneSuits(t, lists'[n], r, maySplit)
    ensures res != 0 ==> Allocated(s, t, res, r.sz) && exists b :: Served(s, b, n, r, maySplit)
    ensures res != 0 ==> r.Exempt() || !s.black.BlackListed(res, r.Clean()) || r.Need() * HBLKSIZE > s.spacing
    decreases |lists[n]|
  {
    t, owner', lists' := s, owner, lists;
    res := t.heads[n];
    ghost var k: nat := 0;
    assert Chain(t.ix.hdrs, t.heads[n], lists'[n]);
    while res != 0
      invariant Ok(t, owner', lists') && owner'.Keys == owner.Keys && OnlyDrops(s, t, r)
      invariant k <= |lists'[n]| <= |lists[n]| && res == (if k < |lists'[n]| then lists'[n][k] else 0)
      invariant Searched(t, lists'[n], k, r, maySplit)
      decreases |lists'[n]| - k
    {
      var p;
      t, res, p, k, owner', lists' := SearchStep(s, t, res, r, maySplit, n, k, owner', lists');
      if p == Found { return; }
      if p == Restart {
        ghost var t0 := t;
        t, res, owner', lists' := AllochblkNth(t, r, n, maySplit, owner', lists');
        AfterDrops(s, t0, t, r, n, maySplit, res);
        return;
      }
    }
  }

  datatype Progress = Onward | Found | Restart

  /** One round of the search loop, at the block in position `k`. */
  method SearchStep(ghost s: Heap, t: Heap, b: nat, r: Request, maySplit: bool, n: nat, ghost k: nat,
      ghost owner: Owner, ghost lists: seq<seq<nat>>)
    returns (u: Heap, next: nat, p: Progress, ghost k': nat, ghost owner': Owner, ghost lists': seq<seq<nat>>)
    requires Ok(t, owner, lists) && OnlyDrops(s, t, r) && At(lists, n, k, b) && Searched(t, lists[n], k, r, maySplit)
      && r.sz > 0
    ensures Ok(u, owner', lists') && owner'.Keys == owner.Keys
    ensures p != Found ==> OnlyDrops(s, u, r) && Searched(u, lists'[n], k', r, maySplit)
    ensures p != Found ==> k' <= |lists'[n]| <= |lists[n]| && |lists'[n]| - k' < |lists[n]| - k
    ensures p == Onward ==> next == if k' < |lists'[n]| then lists'[n][k'] else 0
    ensures p == Restart ==> |lists'[n]| < |lists[n]|
    ensures p == Found ==> next != 0 && Allocated(s, u, next, r.sz) && Served(s, b, n, r, maySplit)
    ensures p == Found ==> r.Exempt() || !s.black.BlackListed(next, r.Clean()) || r.Need() * HBLKSIZE > s.spacing
  {
    u, k', owner', lists' := t, k, owner, lists;
    ListNeighbours(t, owner, lists, n, k);
    var v := Consider(t, b, r, maySplit);
    if v.Take? {
      u, owner', lists' := TakeFound(s, t, b, v.at, r, maySplit, n, k, owner, lists);
      return u, v.at, Found, k, owner', lists';
    }
    if v == Discard {
      u, next, p, k', owner', lists' := DiscardStep(s, t, b, r, maySplit, n, k, owner, lists);
      return;
    }
    SearchOn(u, lists[n], k, r, maySplit);
    return u, u.ix.hdrs[b].next, Onward, k + 1, owner', lists';
  }

  /** The round for a completely black-listed block: every fourth is dropped. */
  method DiscardStep(ghost s: Heap, t: Heap, b: nat, ghost r: Request, ghost maySplit: bool, n: nat, ghost k: nat,
      ghost owner: Owner, ghost lists: seq<seq<nat>>)
    returns (u: Heap, next: nat, p: Progress, ghost k': nat, ghost owner': Owner, ghost lists': seq<seq<nat>>)
    requires Ok(t, owner, lists) && OnlyDrops(s, t, r) && At(lists, n, k, b) && Searched(t, lists[n], k, r, maySplit)
    requires !Suits(t, b, r, true) && !Suits(t, b, r, maySplit)
      && forall a :: b <= a < End(t.ix.hdrs, b) ==> t.black.BlackListed(a, 1)
    ensures Ok(u, owner', lists') && owner'.Keys == owner.Keys
    ensures p != Found && OnlyDrops(s, u, r) && Searched(u, lists'[n], k', r, maySplit)
    ensures k' <= |lists'[n]| <= |lists[n]| && |lists'[n]| - k' < |lists[n]| - k
    ensures p == Onward ==> next == if k' < |lists'[n]| then lists'[n][k'] else 0
    ensures p == Restart ==> |lists'[n]| < |lists[n]|
  {
    ListNeighbours(t, owner, lists, n, k);
    u := CountDrop(s, t, r, maySplit, n, k, owner, lists);
    if u.drops % 4 == 0 {
      var prev;
      u, prev, owner', lists' := DiscardBlock(s, u, b, r, maySplit, n, k, owner, lists);
      if prev == 0 { return u, 0, Restart, k, owner', lists'; }
      return u, u.ix.hdrs[prev].next, Onward, k, owner', lists';
    }
    SearchOn(u, lists[n], k, r, maySplit);
    return u, u.ix.hdrs[b].next, Onward, k + 1, owner, lists;
  }

  lemma SearchOn(s: Heap, l: seq<nat>, k: nat, r: Request, maySplit: bool)
    requires Searched(s, l, k, r, maySplit) && k < |l|
    requires Suits(s, l[k], r, maySplit) ==> k + 1 < |l| && Suits(s, l[k + 1], r, maySplit)
    ensures Searched(s, l, k + 1, r, maySplit)
  {
  }

  /** A completely black-listed block was met; only every fourth is dropped. */
  method CountDrop(ghost s: Heap, t: Heap, ghost r: Request, ghost maySplit: bool, ghost n: nat, ghost k: nat,
      ghost owner: Owner, ghost lists: seq<seq<nat>>)
    returns (u: Heap)
    requires Ok(t, owner, lists) && OnlyDrops(s, t, r) && n <= N_HBLK_FLS && k < |lists[n]|
    requires !Suits(t, lists[n][k], r, true) && Searched(t, lists[n], k, r, maySplit)
    ensures u == t.(drops := t.drops + 1) && Ok(u, owner, lists) && OnlyDrops(s, u, r)
    ensures !Suits(u, lists[n][k], r, true) && Searched(u, lists[n], k, r, maySplit)
  {
    u := t.(drops := t.drops + 1);
    SuitsSame(t, u, lists[n][k], r, true);
    forall j | 0 <= j <= k ensures Suits(u, lists[n][j], r, maySplit) <==> Suits(t, lists[n][j], r, maySplit) {
      SuitsSame(t, u, lists[n][j], r, maySplit);
    }
  }

  /** Dropping the completely black-listed block at position `k`, and where the search goes on. */
  method DiscardBlock(ghost s: Heap, t: Heap, b: nat, ghost r: Request, ghost maySplit: bool, n: nat, ghost k: nat,
      ghost owner: Owner, ghost lists: seq<seq<nat>>)
    returns (u: Heap, prev: nat, ghost owner': Owner, ghost lists': seq<seq<nat>>)
    requires Ok(t, owner, lists) && OnlyDrops(s, t, r) && At(lists, n, k, b)
    requires !Suits(t, b, r, true) && Searched(t, lists[n], k, r, maySplit)
    requires forall a :: b <= a < End(t.ix.hdrs, b) ==> t.black.BlackListed(a, 1)
    ensures Ok(u, owner', lists') && owner'.Keys == owner.Keys && OnlyDrops(s, u, r)
    ensures lists' == lists[n := Drop(lists[n], k)] && Searched(u, lists'[n], k, r, maySplit)
    ensures prev != 0 ==> prev in u.ix.hdrs && u.ix.hdrs[prev].next == if k < |lists'[n]| then lists'[n][k] else 0
  {
    ListNeighbours(t, owner, lists, n, k);
    var size;
    prev, size := t.ix.hdrs[b].prev, t.ix.hdrs[b].sz;
    u, lists' := DropBlock(t, b, n, k, owner, lists);
    owner' := ChoppedOwner(owner, b);
    u := u.(largeFree := u.largeFree - size);
    AfterDrop(s, t, u, b, lists, n, k, r, maySplit);
    if k > 0 { ListNeighbours(u, owner', lists', n, k - 1); }
  }

  lemma AfterDrop(s: Heap, t: Heap, u: Heap, b: nat, lists: seq<seq<nat>>, n: nat, k: nat, r: Request, maySplit: bool)
    requires OnlyDrops(s, t, r) && At(lists, n, k, b) && Distinct(lists) && Searched(t, lists[n], k, r, maySplit)
    requires FreeAt(t.ix.hdrs, b) && t.ix.hdrs[b].sz > 0 && !Suits(t, b, r, true) && !Suits(t, b, r, maySplit)
    requires Dropped(t.ix.hdrs, u.ix.hdrs, b) && u.black == t.black && u.spacing == t.spacing
    requires forall i, m :: 0 <= i < |lists| && 0 <= m < |lists[i]| ==> lists[i][m] in t.ix.hdrs
    requires forall a :: b <= a < End(t.ix.hdrs, b) ==> t.black.BlackListed(a, 1)
    ensures OnlyDrops(s, u, r) && Searched(u, Drop(lists[n], k), k, r, maySplit)
  {
    DropIsOnlyDrops(s, t, u, b, r);
    DropSearched(t, u, b, lists, n, k, r, maySplit);
  }

  method TakeFound(ghost s: Heap, t: Heap, b: nat, at: nat, r: Request, ghost maySplit: bool, n: nat, ghost k: nat,
      ghost owner: Owner, ghost lists: seq<seq<nat>>)
    returns (u: Heap, ghost owner': Owner, ghost lists': seq<seq<nat>>)
    requires Ok(t, owner, lists) && OnlyDrops(s, t, r) && At(lists, n, k, b) && FreeAt(t.ix.hdrs, b) && r.sz > 0
    requires Suits(t, b, r, maySplit) && b <= at && at + r.Need() <= End(t.ix.hdrs, b)
    ensures Ok(u, owner', lists') && owner'.Keys == owner.Keys && Allocated(s, u, at, r.sz)
    ensures Served(s, b, n, r, maySplit)
  {
    FreeInside(t.ix.hdrs, owner, b, at);
    u, owner', lists' := TakeBlock(t, b, at, r, n, k, owner, lists);
    TakenIsAllocated(s, t, u, b, at, r, maySplit);
  }

  lemma FreeInside(hdrs: Headers, owner: Owner, b: nat, a: nat)
    requires Tiled(hdrs, owner) && FreeAt(hdrs, b) && b <= a < End(hdrs, b)
    ensures a !in InUse(hdrs)
  {
    assert Inside(hdrs, b, a);
    if a in hdrs { HeaderOwnsItself(hdrs, owner, a); }
  }

  /** Whether a free block suits depends only on its size. */
  lemma SuitsSame(s: Heap, t: Heap, b: nat, r: Request, maySplit: bool)
    requires b in s.ix.hdrs && b in t.ix.hdrs && t.ix.hdrs[b].sz == s.ix.hdrs[b].sz && t.black == s.black
      && t.spacing == s.spacing
    ensures Suits(t, b, r, maySplit) <==> Suits(s, b, r, maySplit)
  {
  }

  lemma DropSearched(t: Heap, u: Heap, b: nat, lists: seq<seq<nat>>, n: nat, k: nat, r: Request, maySplit: bool)
    requires At(lists, n, k, b) && Distinct(lists) && Searched(t, lists[n], k, r, maySplit) && !Suits(t, b, r, maySplit)
    requires Dropped(t.ix.hdrs, u.ix.hdrs, b) && u.black == t.black && u.spacing == t.spacing
    requires forall i, m :: 0 <= i < |lists| && 0 <= m < |lists[i]| ==> lists[i][m] in t.ix.hdrs
    ensures Searched(u, Drop(lists[n], k), k, r, maySplit)
  {
    forall j | 0 <= j < k ensures !Suits(u, Drop(lists[n], k)[j], r, maySplit) {
      var c := lists[n][j];
      assert Drop(lists[n], k)[j] == c;
      Apart(lists, n, j, n, k);
      SuitsSame(t, u, c, r, maySplit);
    }
  }

  lemma AfterDrops(s: Heap, t: Heap, u: Heap, r: Request, n: nat, maySplit: bool, res: nat)
    requires OnlyDrops(s, t, r)
    ensures OnlyDrops(t, u, r) ==> OnlyDrops(s, u, r)
    ensures Allocated(t, u, res, r.sz) ==> Allocated(s, u, res, r.sz)
    ensures (exists b :: Served(t, b, n, r, maySplit)) ==> (exists b :: Served(s, b, n, r, maySplit))
  {
    forall b | FreeAt(t.ix.hdrs, b)
        ensures (Suits(t, b, r, maySplit) <==> Suits(s, b, r, maySplit))
        && (Suits(t, b, r, true) <==> Suits(s, b, r, true)) {
      SuitsSame(s, t, b, r, maySplit);
      SuitsSame(s, t, b, r, true);
    }
    if b :| Served(t, b, n, r, maySplit) {
      assert Served(s, b, n, r, maySplit);
    }
  }

  /** The links of the block at position `k` of a list lead to its neighbours there, which are free. */
  lemma ListNeighbours(s: Heap, owner: Owner, lists: seq<seq<nat>>, n: nat, k: nat)
    requires s.Partial(owner, lists, {}, 0) && n < |lists| && k < |lists[n]|
    ensures FreeAt(s.ix.hdrs, lists[n][k])
    ensures s.ix.hdrs[lists[n][k]].next == (if k + 1 < |lists[n]| then lists[n][k + 1] else 0)
    ensures s.ix.hdrs[lists[n][k]].prev == (if k > 0 then lists[n][k - 1] else 0)
    ensures k > 0 ==> lists[n][k - 1] != 0
    ensures k + 1 < |lists[n]| ==> FreeAt(s.ix.hdrs, lists[n][k + 1])
  {
    assert Chain(s.ix.hdrs, s.heads[n], lists[n]);
    assert s.ix.hdrs[lists[n][k]].next == NextIn(lists[n], k) && s.ix.hdrs[lists[n][k]].prev == PrevIn(lists[n], k);
  }

  lemma TakenIsAllocated(s: Heap, t0: Heap, t: Heap, b: nat, at: nat, r: Request, maySplit: bool)
    requires OnlyDrops(s, t0, r) && FreeAt(t0.ix.hdrs, b) && Suits(t0, b, r, maySplit)
    requires InUse(t.ix.hdrs) == InUse(t0.ix.hdrs)[at := r.sz] && at !in InUse(t0.ix.hdrs)
    requires t.black == t0.black && t.spacing == t0.spacing
    ensures Allocated(s, t, at, r.sz) && FreeAt(s.ix.hdrs, b) && Suits(s, b, r, maySplit)
  {
  }

  /** A free block of this size has been looked at once the lists before `i` and the exact fits have been. */
  predicate Tried(blocks: nat, r: Request, i: nat) {
    blocks == r.Need() || ListFor(blocks) < i
  }

  /** No free block of a size that has been tried suits. */
  ghost predicate NoneLeft(s: Heap, r: Request, i: nat) {
    forall b :: FreeAt(s.ix.hdrs, b) && Tried(Blocks(s.ix.hdrs[b].sz), r, i) ==> !Suits(s, b, r, true)
  }

  lemma ListExhausted(s: Heap, owner: Owner, lists: seq<seq<nat>>, n: nat, r: Request, maySplit: bool)
    requires s.Partial(owner, lists, {}, 0) && n <= N_HBLK_FLS && NoneSuits(s, lists[n], r, maySplit)
    ensures forall b :: !Served(s, b, n, r, maySplit)
  {
    forall b ensures !Served(s, b, n, r, maySplit) {
      if Served(s, b, n, r, maySplit) {
        var k := Listed(s.ix.hdrs, lists, {}, b);
      }
    }
  }

  /** After the exact pass: smaller blocks are on earlier lists, and small sizes have lists of their own. */
  lemma ExactPassDone(s: Heap, r: Request)
    requires forall b :: !Served(s, b, ListFor(r.Need()), r, false)
    ensures NoneLeft(s, r, if ListFor(r.Need()) < UNIQUE_THRESHOLD then ListFor(r.Need()) + 1 else ListFor(r.Need()))
  {
    forall b | FreeAt(s.ix.hdrs, b) && Suits(s, b, r, true)
        ensures Blocks(s.ix.hdrs[b].sz) != r.Need() && ListFor(Blocks(s.ix.hdrs[b].sz)) >= ListFor(r.Need())
      ensures ListFor(r.Need()) < UNIQUE_THRESHOLD ==> ListFor(Blocks(s.ix.hdrs[b].sz)) > ListFor(r.Need())
    {
      assert !Served(s, b, ListFor(r.Need()), r, false);
      ListForMonotone(r.Need(), Blocks(s.ix.hdrs[b].sz));
    }
  }

  lemma NextListDone(s: Heap, t: Heap, r: Request, i: nat)
    requires NoneLeft(s, r, i) && OnlyDrops(s, t, r) && (forall b :: !Served(t, b, i, r, true))
    ensures NoneLeft(t, r, i + 1)
  {
    forall b | FreeAt(t.ix.hdrs, b) && Tried(Blocks(t.ix.hdrs[b].sz), r, i + 1) ensures !Suits(t, b, r, true) {
      SuitsSame(s, t, b, r, true);
      assert !Served(t, b, i, r, true);
    }
  }

  /** Dropped blocks did not suit either. */
  lemma NoneLeftBefore(s: Heap, t: Heap, r: Request, i: nat)
    requires OnlyDrops(s, t, r) && NoneLeft(t, r, i)
    ensures NoneLeft(s, r, i)
  {
  }

  /** For requests that ignore black lists, with splitting allowed everywhere, only size decides. */
  lemma CompleteForExempt(s: Heap, r: Request)
    requires r.Exempt()
    ensures NoneLeft(s, r, N_HBLK_FLS + 1) <==> forall b :: FreeAt(s.ix.hdrs, b) ==> Blocks(s.ix.hdrs[b].sz) < r.Need()
  {
  }

  /** GC_allochblk on values. */
  method Allocate(s: Heap, r: Request, splitLimit: nat, ghost owner: Owner, ghost lists: seq<seq<nat>>)
    returns (t: Heap, res: nat, ghost owner': Owner, ghost lists': seq<seq<nat>>)
    requires Ok(s, owner, lists) && r.sz > 0 && splitLimit <= N_HBLK_FLS
    ensures Ok(t, owner', lists') && owner'.Keys == owner.Keys
    ensures res == 0 ==> OnlyDrops(s, t, r) && NoneLeft(t, r, splitLimit + 1)
    ensures res != 0 ==> Allocated(s, t, res, r.sz) && !NoneLeft(s, r, splitLimit + 1)
    ensures res != 0 ==> r.Exempt() || !s.black.BlackListed(res, r.Clean()) || r.Need() * HBLKSIZE > s.spacing
  {
    var i := ListFor(r.Need());
    t, res, owner', lists' := AllochblkNth(s, r, i, false, owner, lists);
    if res != 0 {
      ghost var b :| Served(s, b, i, r, false);
      assert Tried(Blocks(s.ix.hdrs[b].sz), r, splitLimit + 1);
      return;
    }
    ListExhausted(t, owner', lists', i, r, false);
    ExactPassDone(t, r);
    if i < UNIQUE_THRESHOLD { i := i + 1; }
    while i <= splitLimit
      invariant Ok(t, owner', lists') && owner'.Keys == owner.Keys && OnlyDrops(s, t, r) && NoneLeft(t, r, i)
    {
      ghost var t0 := t;
      t, res, owner', lists' := AllochblkNth(t, r, i, true, owner', lists');
      AfterDrops(s, t0, t, r, i, true, res);
      if res != 0 {
        ghost var b :| Served(s, b, i, r, true);
        assert Tried(Blocks(s.ix.hdrs[b].sz), r, splitLimit + 1);
        return;
      }
      ListExhausted(t, owner', lists', i, r, true);
      NextListDone(t0, t, r, i);
      i := i + 1;
    }
    res := 0;
    assert forall n :: Tried(n, r, splitLimit + 1) ==> Tried(n, r, i);
  }

  lemma ZeroTotal(n: nat)
    ensures Total(seq(n, i => 0)) == 0
  {
    if n > 0 {
      assert seq(n, i => 0)[1..] == seq(n - 1, i => 0);
      ZeroTotal(n - 1);
    }
  }

  // ---- Whole runs ----

  datatype Op = OpGrow(p: nat, n: nat) | OpAllocate(r: Request, splitLimit: nat) | OpFree(b: nat)

  /** Memory region `(p, n)` does not meet any of those obtained before. */
  predicate FreshRegion(sections: seq<(nat, nat)>, p: nat, n: nat) {
    n > 0 && forall i :: 0 <= i < |sections| ==> p + n <= sections[i].0 || sections[i].0 + sections[i].1 <= p
  }

  ghost predicate CoveredBy(owner: Owner, sections: seq<(nat, nat)>) {
    forall a :: a in owner ==> exists i :: 0 <= i < |sections| && sections[i].0 <= a < sections[i].0 + sections[i].1
  }

  lemma FreshIsOutside(owner: Owner, sections: seq<(nat, nat)>, p: nat, n: nat)
    requires CoveredBy(owner, sections) && FreshRegion(sections, p, n)
    ensures forall a :: p <= a < p + n ==> a !in owner
    ensures forall owner': Owner :: (forall a :: a in owner' ==> a in owner || p <= a < p + n) ==>
      CoveredBy(owner', sections + [(p, n)])
  {
    var more := sections + [(p, n)];
    forall owner': Owner | forall a :: a in owner' ==> a in owner || p <= a < p + n ensures CoveredBy(owner', more) {
      forall a | a in owner' ensures exists i :: 0 <= i < |more| && more[i].0 <= a < more[i].0 + more[i].1 {
        if p <= a < p + n {
          assert more[|sections|] == (p, n);
        } else {
          var i :| 0 <= i < |sections| && sections[i].0 <= a < sections[i].0 + sections[i].1;
          assert more[i] == sections[i];
        }
      }
    }
  }

  /** Blocks in use do not overlap. */
  lemma InUseDisjoint(s: Heap, owner: Owner, lists: seq<seq<nat>>, b: nat, c: nat)
    requires Ok(s, owner, lists) && b in InUse(s.ix.hdrs) && c in InUse(s.ix.hdrs) && b < c
    ensures b + Blocks(InUse(s.ix.hdrs)[b]) <= c
  {
    if Inside(s.ix.hdrs, b, c) {
      HeaderOwnsItself(s.ix.hdrs, owner, c);
    }
  }

  /** What an operation led to: nothing because the client may not ask for it, or its result (0 for no block). */
  datatype Outcome = Skipped | Grown | Got(block: nat) | Freed

  /**
    The allocator, the blocks in use as the client knows them, which are those it got and those
    dropped meanwhile, and the memory obtained so far.
   */
  datatype View = View(s: Heap, owner: Owner, lists: seq<seq<nat>>, live: map<nat, nat>, sections: seq<(nat, nat)>)

  /** A region joins the heap; nothing in use changes. */
  ghost predicate GrowDid(p: View, start: nat, n: nat, q: View) {
    && InUse(q.s.ix.hdrs) == InUse(p.s.ix.hdrs) && q.live == p.live
    && (forall a :: a in q.owner <==> a in p.owner || (2 <= a && start <= a < start + n))
    && q.s.largeFree == p.s.largeFree + BlocksGained(start, n) * HBLKSIZE
    && q.s.black == p.s.black && q.s.spacing == p.s.spacing
    && q.sections == p.sections + [(start, n)]
  }

  /** The blocks of a region that join the heap: not those next to address zero. */
  function BlocksGained(start: nat, n: nat): nat {
    if start >= 2 then n else if start + n > 2 then start + n - 2 else 0
  }

  /** The blocks dropped by an allocation that returned `b`. */
  function DroppedBlocks(p: View, q: View, b: nat): set<nat> {
    q.live.Keys - p.live.Keys - {b}
  }

  /**
    Exactly if a block the request may use suits it, a new block is in use. Besides, black-listed
    blocks may be dropped: each is in use at the size of one block from now on. What is in use
    otherwise stays so, and free bytes shrink by exactly what has come into use.
   */
  ghost predicate AllocateDid(p: View, r: Request, splitLimit: nat, q: View, b: nat) {
    && (b == 0 <==> NoneLeft(p.s, r, splitLimit + 1))
    && (b == 0 ==> OnlyDrops(p.s, q.s, r))
    && (b != 0 ==> Allocated(p.s, q.s, b, r.sz) && b !in p.live && b in q.live && q.live[b] == r.sz)
    && (forall x :: x in p.live ==> x in q.live && q.live[x] == p.live[x])
    && (forall x :: x in DroppedBlocks(p, q, b) ==> q.live[x] == HBLKSIZE && p.s.black.BlackListed(x, 1))
    && q.s.largeFree == p.s.largeFree - Extents(q.live, q.live.Keys - p.live.Keys)
    && (b != 0 ==> r.Exempt() || !p.s.black.BlackListed(b, r.Clean()) || r.Need() * HBLKSIZE > p.s.spacing)
    && q.owner.Keys == p.owner.Keys && q.sections == p.sections
  }

  /** Exactly block `b` leaves, and its extent becomes free. */
  ghost predicate FreeDid(p: View, b: nat, q: View) {
    && b in p.s.ix.hdrs
    && InUse(q.s.ix.hdrs) == InUse(p.s.ix.hdrs) - {b} && q.live == p.live - {b}
    && q.s.largeFree == p.s.largeFree + Blocks(p.s.ix.hdrs[b].sz) * HBLKSIZE
    && q.owner.Keys == p.owner.Keys && q.s.black == p.s.black && q.s.spacing == p.s.spacing && q.sections == p.sections
  }

  /** What each operation does. Regions must be new, sizes positive, and the client frees only what it holds. */
  ghost predicate OpDid(p: View, op: Op, q: View, res: Outcome) {
    match op
    case OpGrow(start, n) =>
      if FreshRegion(p.sections, start, n) then res == Grown && GrowDid(p, start, n, q) else res == Skipped && q == p
    case OpAllocate(r, splitLimit) =>
      if r.sz > 0 && splitLimit <= N_HBLK_FLS
      then res.Got? && AllocateDid(p, r, splitLimit, q, res.block)
      else res == Skipped && q == p
    case OpFree(b) =>
      if b in p.live then res == Freed && FreeDid(p, b, q) else res == Skipped && q == p
  }

  /** Blocks of these sizes do not overlap. */
  ghost predicate Separate(live: map<nat, nat>) {
    forall b, c :: b in live && c in live && b < c ==> b + Blocks(live[b]) <= c
  }

  /** The heap is in order; the client knows what is in use, at which size, and it does not overlap. */
  ghost predicate InOrder(v: View) {
    && Ok(v.s, v.owner, v.lists) && CoveredBy(v.owner, v.sections)
    && v.live == InUse(v.s.ix.hdrs) && Separate(v.live)
  }

  lemma OkBytes(s: Heap, owner: Owner, lists: seq<seq<nat>>)
    requires Ok(s, owner, lists)
    ensures s.largeFree + Extents(InUse(s.ix.hdrs), InUse(s.ix.hdrs).Keys) == |owner.Keys| * HBLKSIZE
  {
    BytesConserved(s, owner, lists);
    assert |owner.Keys| == |owner|;
  }

  /** All memory is on the free lists or in a block in use. */
  lemma MemoryConserved(v: View)
    requires InOrder(v)
    ensures v.s.largeFree + Extents(v.live, v.live.Keys) == |v.owner.Keys| * HBLKSIZE
  {
    OkBytes(v.s, v.owner, v.lists);
  }

  /** So free bytes shrink by exactly what comes into use. */
  lemma BytesTaken(p: View, q: View)
    requires InOrder(p) && InOrder(q) && q.owner.Keys == p.owner.Keys
    requires forall x :: x in p.live ==> x in q.live && q.live[x] == p.live[x]
    ensures q.s.largeFree == p.s.largeFree - Extents(q.live, q.live.Keys - p.live.Keys)
  {
    MemoryConserved(p);
    MemoryConserved(q);
    ExtentsGrown(p.live, q.live);
  }

  /** A client of the allocator, which learns of dropped blocks from their headers. */
  class Client {
    const h: BlockHeap
    var live: map<nat, nat>
    var sections: seq<(nat, nat)>

    ghost function Now(): View
      reads this, h
    {
      View(h.s, h.owner, h.lists, live, sections)
    }

    ghost predicate Valid()
      reads this, h
    {
      Ok(h.s, h.owner, h.lists) && CoveredBy(h.owner, sections) && live == InUse(h.s.ix.hdrs)
    }

    constructor (black: Lists, spacing: nat)
      ensures Valid() && fresh(h) && live == map[] && sections == [] && InUse(h.s.ix.hdrs) == map[] && h.owner == map[]
      ensures h.s.black == black && h.s.spacing == spacing
    {
      h := new BlockHeap(black, spacing);
      live, sections := map[], [];
    }

    method Grow(start: nat, n: nat)
      requires Valid() && FreshRegion(sections, start, n)
      modifies this, h
      ensures Valid() && GrowDid(old(Now()), start, n, Now())
    {
      FreshIsOutside(h.owner, sections, start, n);
      h.AddToHeap(start, n);
      sections := sections + [(start, n)];
    }

    method Allocate(r: Request, splitLimit: nat) returns (b: nat)
      requires Valid() && r.sz > 0 && splitLimit <= N_HBLK_FLS
      modifies this, h
      ensures Valid() && AllocateDid(old(Now()), r, splitLimit, Now(), b)
    {
      ghost var v := Now();
      HeldInOrder();
      b := h.Allochblk(r, splitLimit);
      live := InUse(h.s.ix.hdrs);
      HeldInOrder();
      BytesTaken(v, Now());
    }

    method Free(b: nat)
      requires Valid() && b in live
      modifies this, h
      ensures Valid() && FreeDid(old(Now()), b, Now())
    {
      var ok := h.Freehblk(b);
      live := live - {b};
    }

    method Step(op: Op) returns (res: Outcome)
      requires Valid()
      modifies this, h
      ensures Valid() && OpDid(old(Now()), op, Now(), res)
    {
      res := Skipped;
      match op {
        case OpGrow(start, n) =>
          if FreshRegion(sections, start, n) {
            Grow(start, n);
            res := Grown;
          }
        case OpAllocate(r, splitLimit) =>
          if r.sz > 0 && splitLimit <= N_HBLK_FLS {
            var b := Allocate(r, splitLimit);
            res := Got(b);
          }
        case OpFree(b) =>
          if b in live {
            Free(b);
            res := Freed;
          }
      }
    }

    lemma NoBlockZero()
      requires Valid()
      ensures 0 !in live
    {
    }

    lemma HeldInOrder()
      requires Valid()
      ensures InOrder(Now())
    {
      forall b, c | b in live && c in live && b < c ensures b + Blocks(live[b]) <= c {
        InUseDisjoint(h.s, h.owner, h.lists, b, c);
      }
    }
  }

  /** No memory has been obtained. */
  ghost predicate Initial(v: View, black: Lists, spacing: nat) {
    && InUse(v.s.ix.hdrs) == map[] && v.owner == map[] && v.live == map[] && v.sections == []
    && v.s.black == black && v.s.spacing == spacing
  }

  /**
    Any run of heap growth, allocation and freeing, by a client that frees only blocks in use, those
    dropped as black-listed among them: the states follow each other as the operations describe, an
    allocation failing exactly when nothing suits; and in each of them the heap is in order, the
    client knows exactly what is in use, at which size, and no two blocks in use overlap.
   */
  method Run(black: Lists, spacing: nat, ops: seq<Op>) returns (results: seq<Outcome>)
    ensures exists trace :: Follows(trace, ops, results, OpDid, InOrder) && Initial(trace[0], black, spacing)
  {
    var c := new Client(black, spacing);
    c.HeldInOrder();
    results := [];
    ghost var trace := [c.Now()];
    NoEvents(c.Now(), OpDid, InOrder);
    for n := 0 to |ops|
      invariant c.Valid() && fresh(c) && fresh(c.h)
      invariant Follows(trace, ops[..n], results, OpDid, InOrder) && trace[n] == c.Now()
        && Initial(trace[0], black, spacing)
    {
      var res := c.Step(ops[n]);
      c.HeldInOrder();
      OneMore(trace, ops[..n], results, OpDid, InOrder, ops[n], c.Now(), res);
      Prefix(ops, n);
      results, trace := results + [res], trace + [c.Now()];
    }
    assert ops[..|ops|] == ops;
  }
}
