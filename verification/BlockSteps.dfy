/**
  The steps of the heap block allocator (gc/allchblk.c) and of heap growth (gc/alloc.c), as
  changes of a heap value: taking a block off its list, opening, merging, splitting, sealing.

  Main results: every step keeps the heap tiled, the index exact, each free block on exactly its
  size-class list with right links and byte counts, and no two free blocks adjacent, apart from
  the one block a step is in the middle of. The operations made of them are in BlockAlloc.
 */
module BlockSteps {
  import opened FreeLists
  import opened BlockIndex
  import opened BlackList

  // ---- Invariant ----

  /** Each free block is on the list for its size, and lists hold nothing else; blocks in `odd` are exempt. */
  ghost predicate Classified(hdrs: Headers, lists: seq<seq<nat>>, odd: set<nat>) {
    && |lists| == N_HBLK_FLS + 1
    && (forall i, k :: 0 <= i < |lists| && 0 <= k < |lists[i]| ==> lists[i][k] in hdrs)
    && (forall i, k :: 0 <= i < |lists| && 0 <= k < |lists[i]| && lists[i][k] !in odd ==>
          hdrs[lists[i][k]].free && ListFor(Blocks(hdrs[lists[i][k]].sz)) == i)
    && (forall b {:trigger OnItsList(hdrs, lists, b)} :: FreeAt(hdrs, b) && b !in odd ==> OnItsList(hdrs, lists, b))
  }

  ghost predicate OnItsList(hdrs: Headers, lists: seq<seq<nat>>, b: nat) {
    b in hdrs && var n := ListFor(Blocks(hdrs[b].sz)); n < |lists| && b in lists[n]
  }

  /** No two free blocks touch, except possibly one in `odd`. */
  ghost predicate Coalesced(hdrs: Headers, odd: set<nat>) {
    forall b {:trigger End(hdrs, b)} :: FreeAt(hdrs, b) && b !in odd && FreeAt(hdrs, End(hdrs, b)) ==>
        End(hdrs, b) in odd
  }

  datatype Heap = Heap(
    ix: Index,
    heads: seq<nat>,
    counts: seq<int>,
    largeFree: int,
    black: Lists,
    spacing: nat,
    drops: nat)
  {
    /**
      Everything is in order, except that the blocks in `odd` need not be on their list and block
      `but` may lack its counts.
     */
    ghost predicate Partial(owner: Owner, lists: seq<seq<nat>>, odd: set<nat>, but: nat) {
      && ix.Sound(owner, but)
      && Chains(ix.hdrs, heads, lists)
      && Counted(ix.hdrs, lists, counts)
      && Classified(ix.hdrs, lists, odd)
      && Coalesced(ix.hdrs, odd)
    }
  }

  /** In order except for the free blocks `loose`, which are on no list. */
  ghost predicate Loose(s: Heap, owner: Owner, lists: seq<seq<nat>>, loose: set<nat>) {
    && s.Partial(owner, lists, loose, 0)
    && (forall b :: b in loose ==> FreeAt(s.ix.hdrs, b) && OnNoList(lists, b))
  }

  // ---- Changing the tiling ----

  lemma BlocksAdd(x: nat, y: nat)
    requires x % HBLKSIZE == 0
    ensures Blocks(x + y) == Blocks(x) + Blocks(y) && Blocks(x) * HBLKSIZE == x
  {
  }

  function Relabel(owner: Owner, from: nat, to: nat): Owner {
    map a | a in owner :: if owner[a] == from then to else owner[a]
  }

  /** Block `e`, which follows `b`, becomes part of `b`. */
  function Merged(hdrs: Headers, b: nat, e: nat): Headers
    requires b in hdrs && e in hdrs
  {
    hdrs[b := hdrs[b].(sz := hdrs[b].sz + hdrs[e].sz)] - {e}
  }

  lemma MergeTiled(hdrs: Headers, owner: Owner, b: nat, e: nat)
    requires Tiled(hdrs, owner) && b in hdrs && e in hdrs && e == End(hdrs, b)
    requires hdrs[b].sz % HBLKSIZE == 0 && hdrs[e].sz % HBLKSIZE == 0
    ensures b != e && Tiled(Merged(hdrs, b, e), Relabel(owner, e, b))
  {
    var h, o := Merged(hdrs, b, e), Relabel(owner, e, b);
    BlocksAdd(hdrs[b].sz, hdrs[e].sz);
    forall c, a | Inside(h, c, a) ensures a in o && o[a] == c {
      if c == b {
        assert Inside(hdrs, b, a) || Inside(hdrs, e, a);
      } else {
        assert Inside(hdrs, c, a);
      }
    }
    forall a | a in o ensures Inside(h, o[a], a) {
      assert Inside(hdrs, owner[a], a);
    }
  }

  /** The last part of `b`, from `c` on, becomes a block of its own. */
  function SplitOwner(owner: Owner, b: nat, c: nat): Owner {
    map a | a in owner :: if owner[a] == b && a >= c then c else owner[a]
  }

  lemma SplitTiled(hdrs: Headers, owner: Owner, b: nat, first: Hdr, c: nat, rest: Hdr)
    requires Tiled(hdrs, owner) && b in hdrs && c == b + Blocks(first.sz)
    requires first.sz > 0 && rest.sz > 0 && Blocks(first.sz) + Blocks(rest.sz) == Blocks(hdrs[b].sz)
    requires (first.free ==> first.sz % HBLKSIZE == 0) && (rest.free ==> rest.sz % HBLKSIZE == 0)
    ensures c !in hdrs && Tiled(hdrs[b := first][c := rest], SplitOwner(owner, b, c))
  {
    assert Inside(hdrs, b, c);
    if c in hdrs { HeaderOwnsItself(hdrs, owner, c); }
    var h, o := hdrs[b := first][c := rest], SplitOwner(owner, b, c);
    forall d, a | Inside(h, d, a) ensures a in o && o[a] == d {
      if d == b || d == c {
        assert Inside(hdrs, b, a);
      } else {
        assert Inside(hdrs, d, a);
      }
    }
    forall a | a in o ensures Inside(h, o[a], a) {
      assert Inside(hdrs, owner[a], a);
    }
  }

  /** A region outside the heap becomes a block. */
  function Extended(owner: Owner, p: nat, n: nat): (r: Owner)
    ensures forall a :: a in r <==> a in owner || p <= a < p + n
    ensures forall a :: a in r ==> r[a] == if p <= a < p + n then p else owner[a]
  {
    if n == 0 then owner else Extended(owner, p, n - 1)[p + n - 1 := p]
  }

  lemma ExtendTiled(hdrs: Headers, owner: Owner, p: nat, hdr: Hdr)
    requires Tiled(hdrs, owner) && p > 0 && hdr.sz > 0 && (hdr.free ==> hdr.sz % HBLKSIZE == 0)
    requires forall a :: p <= a < p + Blocks(hdr.sz) ==> a !in owner
    ensures p !in hdrs && Tiled(hdrs[p := hdr], Extended(owner, p, Blocks(hdr.sz)))
  {
    if p in hdrs { HeaderOwnsItself(hdrs, owner, p); }
    var h, o := hdrs[p := hdr], Extended(owner, p, Blocks(hdr.sz));
    forall d, a | Inside(h, d, a) ensures a in o && o[a] == d {
      if d != p { assert Inside(hdrs, d, a); }
    }
    forall a | a in o ensures Inside(h, o[a], a) {
      if a in owner { assert Inside(hdrs, owner[a], a); }
    }
  }

  // ---- Taking blocks off lists and putting them on ----

  /** GC_remove_from_fl for block `b` on list `n`. */
  function TakenOff(s: Heap, b: nat, n: nat): Heap
    requires b in s.ix.hdrs && n < |s.heads| && n < |s.counts|
    requires s.ix.hdrs[b].prev != 0 ==> s.ix.hdrs[b].prev in s.ix.hdrs
    requires s.ix.hdrs[b].next != 0 ==> s.ix.hdrs[b].next in s.ix.hdrs
  {
    s.(ix := s.ix.(hdrs := Unlinked(s.ix.hdrs, b)),
       heads := HeadsWithout(s.ix.hdrs, s.heads, b, n),
       counts := s.counts[n := s.counts[n] - s.ix.hdrs[b].sz])
  }

  /** Changing links only affects neither the tiling nor the index. */
  lemma SameBlocksSound(ix: Index, hdrs: Headers, owner: Owner, but: nat)
    requires ix.Sound(owner, but) && SameBlocks(ix.hdrs, hdrs)
    ensures ix.(hdrs := hdrs).Sound(owner, but)
  {
    forall b, a | Inside(hdrs, b, a) ensures a in owner && owner[a] == b {
      assert Inside(ix.hdrs, b, a);
    }
    forall a | a in owner ensures Inside(hdrs, owner[a], a) {
      assert Inside(ix.hdrs, owner[a], a);
    }
    forall a ensures Interior(hdrs, owner, a) <==> Interior(ix.hdrs, owner, a) {
    }
  }

  lemma SameBlocksCounted(hdrs: Headers, hdrs': Headers, lists: seq<seq<nat>>, counts: seq<int>)
    requires Counted(hdrs, lists, counts)
    requires forall i, k :: 0 <= i < |lists| && 0 <= k < |lists[i]| ==>
               lists[i][k] in hdrs && lists[i][k] in hdrs' && hdrs'[lists[i][k]].sz == hdrs[lists[i][k]].sz
    ensures Counted(hdrs', lists, counts)
  {
    forall i | 0 <= i < |lists| ensures counts[i] == ListBytes(hdrs', lists[i]) {
      ListBytesSame(hdrs, hdrs', lists[i]);
    }
  }

  /** Coalescing depends on block sizes only, and only of blocks outside `odd`. */
  lemma CoalescedSame(hdrs: Headers, hdrs': Headers, odd: set<nat>, odd': set<nat>)
    requires Coalesced(hdrs, odd) && odd <= odd' && hdrs'.Keys == hdrs.Keys
    requires forall c :: c in hdrs && c !in odd' ==> hdrs'[c].sz == hdrs[c].sz && hdrs'[c].free == hdrs[c].free
    ensures Coalesced(hdrs', odd')
  {
    forall c | FreeAt(hdrs', c) && c !in odd' && FreeAt(hdrs', End(hdrs', c)) ensures End(hdrs', c) in odd' {
      assert End(hdrs, c) == End(hdrs', c);
    }
  }

  lemma ClassifiedSame(hdrs: Headers, hdrs': Headers, lists: seq<seq<nat>>, odd: set<nat>, odd': set<nat>)
    requires Classified(hdrs, lists, odd)
    requires forall i, k :: 0 <= i < |lists| && 0 <= k < |lists[i]| ==> lists[i][k] in hdrs'
    requires forall c :: c in hdrs' && c !in odd' ==>
      c in hdrs && hdrs'[c].sz == hdrs[c].sz && hdrs'[c].free == hdrs[c].free
    requires forall c :: c in odd && c !in odd' ==> c !in hdrs'
    ensures Classified(hdrs', lists, odd')
  {
    forall c | FreeAt(hdrs', c) && c !in odd' ensures OnItsList(hdrs', lists, c) {
      assert OnItsList(hdrs, lists, c);
    }
  }

  lemma DropClassified(hdrs: Headers, lists: seq<seq<nat>>, odd: set<nat>, n: nat, k: nat)
    requires Classified(hdrs, lists, odd) && Distinct(lists) && n < |lists| && k < |lists[n]|
    ensures var lists' := lists[n := Drop(lists[n], k)];
            Classified(hdrs, lists', odd + {lists[n][k]}) && OnNoList(lists', lists[n][k])
  {
    var b := lists[n][k];
    var l, l' := lists[n], Drop(lists[n], k);
    var lists' := lists[n := l'];
    forall i, m | 0 <= i < |lists'| && 0 <= m < |lists'[i]|
      ensures lists'[i][m] != b && lists'[i][m] in lists[i]
    {
      if i == n {
        var j := if m < k then m else m + 1;
        assert l'[m] == l[j];
        Apart(lists, n, k, n, j);
      } else {
        Apart(lists, n, k, i, m);
        assert lists'[i][m] == lists[i][m];
      }
    }
    forall c | FreeAt(hdrs, c) && c !in odd + {b} ensures OnItsList(hdrs, lists', c) {
      var i := ListFor(Blocks(hdrs[c].sz));
      assert OnItsList(hdrs, lists, c);
      var m :| 0 <= m < |lists[i]| && lists[i][m] == c;
      if i == n {
        var j := if m < k then m else m - 1;
        assert l'[j] == c;
      }
    }
  }

  lemma TakeOffKeepsPartial(s: Heap, owner: Owner, lists: seq<seq<nat>>, odd: set<nat>, but: nat, n: nat, k: nat)
    requires s.Partial(owner, lists, odd, but) && n < |lists| && k < |lists[n]|
    ensures var b := lists[n][k];
            && b in s.ix.hdrs
            && (s.ix.hdrs[b].prev != 0 ==> s.ix.hdrs[b].prev in s.ix.hdrs)
            && (s.ix.hdrs[b].next != 0 ==> s.ix.hdrs[b].next in s.ix.hdrs)
            && n < |s.heads| && n < |s.counts|
            && TakenOff(s, b, n).Partial(owner, lists[n := Drop(lists[n], k)], odd + {b}, but)
            && OnNoList(lists[n := Drop(lists[n], k)], b)
            && SameBlocks(s.ix.hdrs, TakenOff(s, b, n).ix.hdrs)
  {
    var b := lists[n][k];
    UnlinkKeepsChains(s.ix.hdrs, s.heads, lists, n, k);
    var s' := TakenOff(s, b, n);
    var lists' := lists[n := Drop(lists[n], k)];
    SameBlocksSound(s.ix, s'.ix.hdrs, owner, but);
    CoalescedSame(s.ix.hdrs, s'.ix.hdrs, odd, odd + {b});
    DropClassified(s.ix.hdrs, lists, odd, n, k);
    ClassifiedSame(s.ix.hdrs, s'.ix.hdrs, lists', odd + {b}, odd + {b});
    assert Counted(s.ix.hdrs, lists', s'.counts) by {
      ListBytesDrop(s.ix.hdrs, lists[n], k);
    }
    SameBlocksCounted(s.ix.hdrs, s'.ix.hdrs, lists', s'.counts);
  }

  /** GC_add_to_fl. */
  function PutOn(s: Heap, b: nat): Heap
    requires b in s.ix.hdrs && |s.heads| == |s.counts| == N_HBLK_FLS + 1
    requires var second := s.heads[ListFor(Blocks(s.ix.hdrs[b].sz))]; second != 0 ==> second in s.ix.hdrs
  {
    var n := ListFor(Blocks(s.ix.hdrs[b].sz));
    s.(ix := s.ix.(hdrs := LinkedBefore(s.ix.hdrs, b, s.heads[n])),
       heads := s.heads[n := b],
       counts := s.counts[n := s.counts[n] + s.ix.hdrs[b].sz])
  }

  lemma PutOnTotal(s: Heap, b: nat)
    requires b in s.ix.hdrs && |s.heads| == |s.counts| == N_HBLK_FLS + 1
    requires var second := s.heads[ListFor(Blocks(s.ix.hdrs[b].sz))]; second != 0 ==> second in s.ix.hdrs
    ensures Total(PutOn(s, b).counts) == Total(s.counts) + s.ix.hdrs[b].sz
  {
    var n := ListFor(Blocks(s.ix.hdrs[b].sz));
    TotalUpdate(s.counts, n, s.counts[n] + s.ix.hdrs[b].sz);
  }

  /** Block `b` may become free: whole blocks, no forwarding counts, no free neighbour. */
  ghost predicate Freeable(ix: Index, owner: Owner, b: nat, odd: set<nat>) {
    && b in ix.hdrs && ix.hdrs[b].sz % HBLKSIZE == 0
    && (forall a :: a in ix.fwd ==> a in owner && owner[a] != b)
    && (FreeAt(ix.hdrs, End(ix.hdrs, b)) ==> End(ix.hdrs, b) in odd)
    && (forall c {:trigger End(ix.hdrs, c)} :: FreeAt(ix.hdrs, c) && c !in odd ==> End(ix.hdrs, c) != b)
  }

  /** The same headers except that `b` is now free. */
  ghost predicate OnlyFreed(hdrs: Headers, hdrs': Headers, b: nat) {
    hdrs'.Keys == hdrs.Keys
        && forall c :: c in hdrs ==> hdrs'[c].sz == hdrs[c].sz && hdrs'[c].free == (hdrs[c].free || c == b)
  }

  lemma FreedSound(ix: Index, hdrs: Headers, owner: Owner, but: nat, odd: set<nat>, b: nat)
    requires ix.Sound(owner, but) && Freeable(ix, owner, b, odd) && OnlyFreed(ix.hdrs, hdrs, b)
      && (but == 0 || but == b)
    ensures ix.(hdrs := hdrs).Sound(owner, 0)
  {
    forall c, a | Inside(hdrs, c, a) ensures a in owner && owner[a] == c {
      assert Inside(ix.hdrs, c, a);
    }
    forall a | a in owner ensures Inside(hdrs, owner[a], a) {
      assert Inside(ix.hdrs, owner[a], a);
    }
    forall a | a in owner ensures a in ix.fwd <==> Interior(hdrs, owner, a) {
      if owner[a] != b {
        assert Interior(hdrs, owner, a) <==> Interior(ix.hdrs, owner, a);
        if but == 0 { assert owner[a] in ix.hdrs; }
      }
    }
  }

  lemma AddClassified(hdrs: Headers, hdrs': Headers, lists: seq<seq<nat>>, odd: set<nat>, b: nat)
    requires Classified(hdrs, lists, odd + {b}) && b in hdrs && OnNoList(lists, b) && OnlyFreed(hdrs, hdrs', b)
    ensures var n := ListFor(Blocks(hdrs[b].sz)); Classified(hdrs', lists[n := [b] + lists[n]], odd)
  {
    var n := ListFor(Blocks(hdrs[b].sz));
    var l' := [b] + lists[n];
    var lists' := lists[n := l'];
    forall i, m | 0 <= i < |lists'| && 0 <= m < |lists'[i]|
      ensures (lists'[i][m] == b && i == n) || lists'[i][m] in lists[i]
    {
      if i == n && m > 0 { assert l'[m] == lists[n][m - 1]; }
    }
    forall c | FreeAt(hdrs', c) && c !in odd ensures OnItsList(hdrs', lists', c) {
      if c == b { assert l'[0] == b; }
      else {
        assert OnItsList(hdrs, lists, c);
      }
    }
  }

  lemma LinkedOnlyFrees(hdrs: Headers, b: nat, second: nat)
    requires b in hdrs && (second != 0 ==> second in hdrs) && second != b
    ensures OnlyFreed(hdrs, LinkedBefore(hdrs, b, second), b)
  {
  }

  lemma FreedCoalesced(ix: Index, hdrs: Headers, owner: Owner, odd: set<nat>, b: nat)
    requires Coalesced(ix.hdrs, odd + {b}) && Freeable(ix, owner, b, odd) && OnlyFreed(ix.hdrs, hdrs, b)
    requires ix.hdrs[b].sz > 0
    ensures Coalesced(hdrs, odd)
  {
    forall c | FreeAt(hdrs, c) && c !in odd && FreeAt(hdrs, End(hdrs, c)) ensures End(hdrs, c) in odd {
      assert End(ix.hdrs, c) == End(hdrs, c);
    }
  }

  lemma AddCounted(hdrs: Headers, hdrs': Headers, lists: seq<seq<nat>>, counts: seq<int>, n: nat, b: nat)
    requires Counted(hdrs, lists, counts) && n < |lists| && b in hdrs
    requires forall i, k :: 0 <= i < |lists| && 0 <= k < |lists[i]| ==> lists[i][k] in hdrs
    requires OnlyFreed(hdrs, hdrs', b)
    ensures Counted(hdrs', lists[n := [b] + lists[n]], counts[n := counts[n] + hdrs[b].sz])
  {
    SameBlocksCounted(hdrs, hdrs', lists, counts);
    assert ([b] + lists[n])[1..] == lists[n];
  }

  lemma PutOnKeepsPartial(s: Heap, owner: Owner, lists: seq<seq<nat>>, odd: set<nat>, but: nat, b: nat)
    requires s.Partial(owner, lists, odd + {b}, but) && OnNoList(lists, b) && b != 0 && Freeable(s.ix, owner, b, odd)
    requires but == 0 || but == b
    ensures var n := ListFor(Blocks(s.ix.hdrs[b].sz));
            && |s.heads| == |s.counts| == N_HBLK_FLS + 1
            && (s.heads[n] != 0 ==> s.heads[n] in s.ix.hdrs)
            && PutOn(s, b).Partial(owner, lists[n := [b] + lists[n]], odd, 0)
            && OnlyFreed(s.ix.hdrs, PutOn(s, b).ix.hdrs, b)
  {
    var n := ListFor(Blocks(s.ix.hdrs[b].sz));
    LinkKeepsChains(s.ix.hdrs, s.heads, lists, n, b);
    assert s.heads[n] != b by {
      assert Chain(s.ix.hdrs, s.heads[n], lists[n]);
    }
    var hdrs := LinkedBefore(s.ix.hdrs, b, s.heads[n]);
    LinkedOnlyFrees(s.ix.hdrs, b, s.heads[n]);
    FreedSound(s.ix, hdrs, owner, but, odd, b);
    AddClassified(s.ix.hdrs, hdrs, lists, odd, b);
    FreedCoalesced(s.ix, hdrs, owner, odd, b);
    AddCounted(s.ix.hdrs, hdrs, lists, s.counts, n, b);
  }

  // ---- Freeing ----

  /** The blocks in use, with the object size of each. */
  function InUse(hdrs: Headers): map<nat, nat> {
    map b | b in hdrs && !hdrs[b].free :: hdrs[b].sz
  }

  /** GC_freehblk up to the coalescing: counts removed, size rounded up, marked free, on no list. */
  function Opened(s: Heap, b: nat, fwd: map<nat, nat>): Heap
    requires b in s.ix.hdrs
  {
    var hdr := s.ix.hdrs[b];
    s.(ix := s.ix.(hdrs := s.ix.hdrs[b := hdr.(sz := Blocks(hdr.sz) * HBLKSIZE, free := true)], fwd := fwd))
  }

  lemma ResizeTiled(hdrs: Headers, owner: Owner, b: nat, hdr: Hdr)
    requires Tiled(hdrs, owner) && b in hdrs && hdr.sz > 0 && Blocks(hdr.sz) == Blocks(hdrs[b].sz)
    requires hdr.free ==> hdr.sz % HBLKSIZE == 0
    ensures Tiled(hdrs[b := hdr], owner)
  {
    var hdrs' := hdrs[b := hdr];
    forall c, a | Inside(hdrs', c, a) ensures a in owner && owner[a] == c {
      assert Inside(hdrs, c, a);
    }
    forall a | a in owner ensures Inside(hdrs', owner[a], a) {
      assert Inside(hdrs, owner[a], a);
    }
  }

  lemma OpenForwarded(hdrs: Headers, fwd0: map<nat, nat>, owner: Owner, b: nat, hdr: Hdr, fwd: map<nat, nat>)
    requires Forwarded(hdrs, fwd0, owner, b) && b in hdrs && hdr.free && owner.Values <= hdrs.Keys
    requires forall a :: a in fwd <==> a in fwd0 && a in owner && owner[a] != b
    requires forall a :: a in fwd ==> fwd[a] == fwd0[a]
    ensures Forwarded(hdrs[b := hdr], fwd, owner, 0)
  {
  }

  lemma OwnersHaveHeaders(hdrs: Headers, owner: Owner)
    requires Tiled(hdrs, owner)
    ensures owner.Values <= hdrs.Keys
  {
  }

  lemma InsideIsOwned(hdrs: Headers, owner: Owner, b: nat)
    requires Tiled(hdrs, owner) && b in hdrs
    ensures forall a :: b <= a < b + Blocks(hdrs[b].sz) <==> a in owner && owner[a] == b
  {
    forall a ensures Inside(hdrs, b, a) <==> a in owner && owner[a] == b {
    }
  }

  lemma OpenKeepsPartial(s: Heap, owner: Owner, lists: seq<seq<nat>>, b: nat, fwd: map<nat, nat>)
    requires s.Partial(owner, lists, {}, b) && b in s.ix.hdrs && !s.ix.hdrs[b].free
    requires forall a :: a in fwd <==> a in s.ix.fwd && a in owner && owner[a] != b
    requires forall a :: a in fwd ==> fwd[a] == s.ix.fwd[a]
    ensures Opened(s, b, fwd).Partial(owner, lists, {b}, 0) && OnNoList(lists, b)
  {
    var s' := Opened(s, b, fwd);
    ResizeTiled(s.ix.hdrs, owner, b, s'.ix.hdrs[b]);
    OwnersHaveHeaders(s.ix.hdrs, owner);
    CoalescedSame(s.ix.hdrs, s'.ix.hdrs, {}, {b});
    ClassifiedSame(s.ix.hdrs, s'.ix.hdrs, lists, {}, {b});
    OpenForwarded(s.ix.hdrs, s.ix.fwd, owner, b, s'.ix.hdrs[b], fwd);
    SameBlocksCounted(s.ix.hdrs, s'.ix.hdrs, lists, s.counts);
    ChainsOfLists(s.ix.hdrs, s'.ix.hdrs, s.heads, lists);
  }

  ghost predicate NoFreeAfter(hdrs: Headers, b: nat) {
    !FreeAt(hdrs, End(hdrs, b))
  }

  lemma MergeForwarded(hdrs: Headers, fwd: map<nat, nat>, owner: Owner, b: nat, e: nat)
    requires Forwarded(hdrs, fwd, owner, 0) && b in hdrs && e in hdrs && b < e && hdrs[b].free && hdrs[e].free
    requires owner.Values <= hdrs.Keys && 0 !in hdrs
    ensures Forwarded(Merged(hdrs, b, e), fwd, Relabel(owner, e, b), 0)
  {
  }

  lemma MergeCoalesced(hdrs: Headers, b: nat, e: nat)
    requires Coalesced(hdrs, {b, e}) && b in hdrs && e in hdrs && b != e
    ensures Coalesced(Merged(hdrs, b, e), {b})
  {
    var h := Merged(hdrs, b, e);
    forall c | FreeAt(h, c) && c !in {b} && FreeAt(h, End(h, c)) ensures End(h, c) in {b} {
      assert End(hdrs, c) == End(h, c);
    }
  }

  lemma MergeClassified(hdrs: Headers, lists: seq<seq<nat>>, b: nat, e: nat)
    requires Classified(hdrs, lists, {b, e}) && b in hdrs && e in hdrs && b != e && OnNoList(lists, b)
      && OnNoList(lists, e)
    ensures Classified(Merged(hdrs, b, e), lists, {b})
  {
    var h := Merged(hdrs, b, e);
    ClassifiedSame(hdrs, h, lists, {b, e}, {b});
  }

  /** Blocks below `h` are the same, links apart. */
  ghost predicate KeptBelow(hdrs: Headers, hdrs': Headers, h: nat) {
    forall p :: p < h ==>
        (p in hdrs <==> p in hdrs') && (p in hdrs ==> hdrs'[p].sz == hdrs[p].sz && hdrs'[p].free == hdrs[p].free)
  }

  lemma KeptBelowFacts(hdrs: Headers, hdrs': Headers, h: nat, p: nat)
    requires KeptBelow(hdrs, hdrs', h) && (forall b :: b in hdrs' ==> hdrs'[b].sz > 0)
    ensures NoFreeBefore(hdrs, h) ==> NoFreeBefore(hdrs', h)
    ensures p < h && FreeAt(hdrs, p) ==> FreeAt(hdrs', p) && End(hdrs', p) == End(hdrs, p)
  {
    if NoFreeBefore(hdrs, h) {
      forall c: nat | FreeAt(hdrs', c) ensures End(hdrs', c) != h {
        assert c < h ==> End(hdrs, c) == End(hdrs', c);
      }
    }
  }

  /** A loose block without free neighbours may go on its list. */
  lemma LooseIsFreeable(s: Heap, owner: Owner, lists: seq<seq<nat>>, b: nat)
    requires Loose(s, owner, lists, {b}) && NoFreeAfter(s.ix.hdrs, b) && NoFreeBefore(s.ix.hdrs, b)
    ensures Freeable(s.ix, owner, b, {}) && b != 0
  {
  }

  lemma OnlyFreedInUse(hdrs: Headers, hdrs': Headers, b: nat)
    requires OnlyFreed(hdrs, hdrs', b)
    ensures InUse(hdrs') == InUse(hdrs) - {b}
  {
  }

  /** What absorbing `e` into `b` does to the neighbours and to the blocks in use: nothing. */
  ghost predicate Absorbed(hdrs: Headers, hdrs': Headers, b: nat, e: nat) {
    && FreeAt(hdrs', b)
    && (NoFreeAfter(hdrs, e) ==> NoFreeAfter(hdrs', b))
    && (NoFreeBefore(hdrs, b) ==> NoFreeBefore(hdrs', b))
    && InUse(hdrs') == InUse(hdrs)
    && KeptBelow(hdrs, hdrs', b)
  }

  lemma MergedIsAbsorbed(hdrs0: Headers, hdrs: Headers, b: nat, e: nat)
    requires SameBlocks(hdrs0, hdrs)
    requires FreeAt(hdrs, b) && FreeAt(hdrs, e) && e == End(hdrs, b) && b < e && 0 < hdrs[e].sz
      && hdrs[b].sz % HBLKSIZE == 0
    ensures Absorbed(hdrs0, Merged(hdrs, b, e), b, e)
  {
    SameBlocksFacts(hdrs0, hdrs);
    BlocksAdd(hdrs[b].sz, hdrs[e].sz);
    var h := Merged(hdrs, b, e);
    if NoFreeBefore(hdrs, b) {
      forall c | FreeAt(h, c) ensures End(h, c) != b {
        assert c != b ==> End(hdrs, c) == End(h, c);
      }
    }
  }

  lemma SameBlocksFacts(hdrs: Headers, hdrs': Headers)
    requires SameBlocks(hdrs, hdrs')
    ensures InUse(hdrs') == InUse(hdrs)
    ensures forall b :: NoFreeAfter(hdrs', b) <==> NoFreeAfter(hdrs, b)
    ensures forall b :: NoFreeBefore(hdrs', b) <==> NoFreeBefore(hdrs, b)
  {
    assert forall c :: End(hdrs, c) == End(hdrs', c) && (FreeAt(hdrs, c) <==> FreeAt(hdrs', c));
  }

  /** Free blocks other than an odd one have no free neighbours, the odd one apart. */
  lemma CoalescedFacts(hdrs: Headers, owner: Owner, b: nat, e: nat)
    requires Tiled(hdrs, owner) && Coalesced(hdrs, {b}) && e in hdrs && hdrs[e].free && e != b
    ensures e > b ==> NoFreeAfter(hdrs, e)
    ensures e < b ==> NoFreeBefore(hdrs, e)
  {
  }

  /** Two adjacent free blocks on no list become one. */
  lemma MergeKeepsPartial(s: Heap, owner: Owner, lists: seq<seq<nat>>, b: nat, e: nat)
    requires s.Partial(owner, lists, {b, e}, 0) && OnNoList(lists, b) && OnNoList(lists, e)
    requires b in s.ix.hdrs && e in s.ix.hdrs && s.ix.hdrs[b].free && s.ix.hdrs[e].free
    requires e == End(s.ix.hdrs, b)
    ensures s.(ix := s.ix.(hdrs := Merged(s.ix.hdrs, b, e))).Partial(Relabel(owner, e, b), lists, {b}, 0)
  {
    var hdrs := Merged(s.ix.hdrs, b, e);
    MergeTiled(s.ix.hdrs, owner, b, e);
    OwnersHaveHeaders(s.ix.hdrs, owner);
    MergeForwarded(s.ix.hdrs, s.ix.fwd, owner, b, e);
    MergeCoalesced(s.ix.hdrs, b, e);
    MergeClassified(s.ix.hdrs, lists, b, e);
    ChainsOfLists(s.ix.hdrs, hdrs, s.heads, lists);
    SameBlocksCounted(s.ix.hdrs, hdrs, lists, s.counts);
  }

  /** The position of a free block on the list for its size. */
  lemma Listed(hdrs: Headers, lists: seq<seq<nat>>, odd: set<nat>, b: nat) returns (k: nat)
    requires Classified(hdrs, lists, odd) && FreeAt(hdrs, b) && b !in odd
    ensures var n := ListFor(Blocks(hdrs[b].sz)); k < |lists[n]| && lists[n][k] == b
  {
    assert OnItsList(hdrs, lists, b);
    k :| 0 <= k < |lists[ListFor(Blocks(hdrs[b].sz))]| && lists[ListFor(Blocks(hdrs[b].sz))][k] == b;
  }

  lemma DropLoose(s: Heap, lists: seq<seq<nat>>, loose: set<nat>, n: nat, k: nat)
    requires forall b :: b in loose ==> FreeAt(s.ix.hdrs, b) && OnNoList(lists, b)
    requires n < |lists| && k < |lists[n]|
    ensures forall b :: b in loose ==> OnNoList(lists[n := Drop(lists[n], k)], b)
  {
  }

  /** Taking block `x` off the list for its size leaves it loose. */
  lemma TakeListed(s: Heap, owner: Owner, lists: seq<seq<nat>>, loose: set<nat>, x: nat)
      returns (t: Heap, lists': seq<seq<nat>>)
    requires Loose(s, owner, lists, loose) && FreeAt(s.ix.hdrs, x) && x !in loose
    ensures (s.ix.hdrs[x].prev != 0 ==> s.ix.hdrs[x].prev in s.ix.hdrs)
      && (s.ix.hdrs[x].next != 0 ==> s.ix.hdrs[x].next in s.ix.hdrs)
    ensures |s.heads| == |s.counts| == N_HBLK_FLS + 1 && t == TakenOff(s, x, ListFor(Blocks(s.ix.hdrs[x].sz)))
    ensures Loose(t, owner, lists', loose + {x})
    ensures SameBlocks(s.ix.hdrs, t.ix.hdrs)
    ensures Total(t.counts) == Total(s.counts) - s.ix.hdrs[x].sz
  {
    var n := ListFor(Blocks(s.ix.hdrs[x].sz));
    var k := Listed(s.ix.hdrs, lists, loose, x);
    TakeOffKeepsPartial(s, owner, lists, loose, 0, n, k);
    TotalUpdate(s.counts, n, s.counts[n] - s.ix.hdrs[x].sz);
    DropLoose(s, lists, loose, n, k);
    t, lists' := TakenOff(s, x, n), lists[n := Drop(lists[n], k)];
  }

  /** Two adjacent loose blocks become one. */
  lemma MergeLoose(s: Heap, owner: Owner, lists: seq<seq<nat>>, b: nat, e: nat) returns (t: Heap)
    requires Loose(s, owner, lists, {b, e}) && e == End(s.ix.hdrs, b)
    ensures t == s.(ix := s.ix.(hdrs := Merged(s.ix.hdrs, b, e))) && Loose(t, Relabel(owner, e, b), lists, {b})
    ensures forall hdrs0 :: SameBlocks(hdrs0, s.ix.hdrs) ==> Absorbed(hdrs0, t.ix.hdrs, b, e)
  {
    t := s.(ix := s.ix.(hdrs := Merged(s.ix.hdrs, b, e)));
    MergeKeepsPartial(s, owner, lists, b, e);
    forall hdrs0 | SameBlocks(hdrs0, s.ix.hdrs) ensures Absorbed(hdrs0, t.ix.hdrs, b, e) {
      MergedIsAbsorbed(hdrs0, s.ix.hdrs, b, e);
    }
  }

  // ---- Splitting ----

  /** Block `b` is cut so that its first part has `bytes` bytes; both parts are free. */
  function Cut(hdrs: Headers, b: nat, bytes: nat): Headers
    requires b in hdrs && bytes < hdrs[b].sz
  {
    hdrs[b := hdrs[b].(sz := bytes)][b + Blocks(bytes) := Hdr(hdrs[b].sz - bytes, true, 0, 0)]
  }

  lemma CutForwarded(hdrs: Headers, fwd: map<nat, nat>, owner: Owner, b: nat, bytes: nat)
    requires Forwarded(hdrs, fwd, owner, 0) && FreeAt(hdrs, b) && bytes < hdrs[b].sz && b + Blocks(bytes) !in hdrs
    requires owner.Values <= hdrs.Keys && 0 !in hdrs
    ensures Forwarded(Cut(hdrs, b, bytes), fwd, SplitOwner(owner, b, b + Blocks(bytes)), 0)
  {
  }

  lemma CutSound(ix: Index, owner: Owner, b: nat, bytes: nat, keys: seq<nat>)
    requires ix.Sound(owner, 0) && FreeAt(ix.hdrs, b) && 0 < bytes < ix.hdrs[b].sz && bytes % HBLKSIZE == 0
    requires Grown(ix.keys, keys, b + Blocks(bytes))
    ensures b + Blocks(bytes) !in ix.hdrs
    ensures ix.(hdrs := Cut(ix.hdrs, b, bytes), keys := keys).Sound(SplitOwner(owner, b, b + Blocks(bytes)), 0)
  {
    var h := Cut(ix.hdrs, b, bytes);
    var c := b + Blocks(bytes);
    BlocksAdd(bytes, ix.hdrs[b].sz - bytes);
    OwnersHaveHeaders(ix.hdrs, owner);
    SplitTiled(ix.hdrs, owner, b, h[b], c, h[c]);
    CutForwarded(ix.hdrs, ix.fwd, owner, b, bytes);
  }

  lemma CutCoalesced(hdrs: Headers, b: nat, bytes: nat, odd: set<nat>)
    requires Coalesced(hdrs, odd) && FreeAt(hdrs, b) && bytes < hdrs[b].sz
    ensures Coalesced(Cut(hdrs, b, bytes), odd + {b, b + Blocks(bytes)})
  {
    var h := Cut(hdrs, b, bytes);
    var odd' := odd + {b, b + Blocks(bytes)};
    forall c | FreeAt(h, c) && c !in odd' && FreeAt(h, End(h, c)) ensures End(h, c) in odd' {
      assert End(hdrs, c) == End(h, c);
    }
  }

  /** Cutting a loose block gives two loose blocks. */
  lemma CutLoose(s: Heap, owner: Owner, lists: seq<seq<nat>>, b: nat, bytes: nat, keys: seq<nat>) returns (t: Heap)
    requires Loose(s, owner, lists, {b}) && 0 < bytes < s.ix.hdrs[b].sz && bytes % HBLKSIZE == 0
    requires Grown(s.ix.keys, keys, b + Blocks(bytes))
    ensures b + Blocks(bytes) !in s.ix.hdrs
    ensures t == s.(ix := s.ix.(hdrs := Cut(s.ix.hdrs, b, bytes), keys := keys))
    ensures Loose(t, SplitOwner(owner, b, b + Blocks(bytes)), lists, {b} + {b + Blocks(bytes)})
  {
    assert b in {b};
    var c := b + Blocks(bytes);
    CutSound(s.ix, owner, b, bytes, keys);
    t := s.(ix := s.ix.(hdrs := Cut(s.ix.hdrs, b, bytes), keys := keys));
    CutCoalesced(s.ix.hdrs, b, bytes, {b});
    assert {b} + {b, c} == {b, c} == {b} + {c};
    ChainsOfLists(s.ix.hdrs, t.ix.hdrs, s.heads, lists);
    SameBlocksCounted(s.ix.hdrs, t.ix.hdrs, lists, s.counts);
    ClassifiedSame(s.ix.hdrs, t.ix.hdrs, lists, {b}, {b, c});
  }

  /** The list update of GC_split_block: on list `n`, the cut-off part takes the place of the block. */
  lemma ReplaceCounted(hdrs: Headers, hdrs': Headers, lists: seq<seq<nat>>, counts: seq<int>, n: nat, k: nat, c: nat)
    requires Counted(hdrs, lists, counts) && Distinct(lists) && n < |lists| && k < |lists[n]| && c in hdrs'
    requires forall i, m :: 0 <= i < |lists| && 0 <= m < |lists[i]| ==> lists[i][m] in hdrs && lists[i][m] in hdrs'
    requires forall i, m :: 0 <= i < |lists| && 0 <= m < |lists[i]| && lists[i][m] != lists[n][k] ==>
      hdrs'[lists[i][m]].sz == hdrs[lists[i][m]].sz
    ensures Counted(hdrs', lists[n := Put(lists[n], k, c)], counts[n := counts[n] - hdrs[lists[n][k]].sz + hdrs'[c].sz])
  {
    var l := lists[n];
    var l' := Put(l, k, c);
    ListBytesDrop(hdrs, l, k);
    ListBytesDrop(hdrs', l', k);
    assert Drop(l', k) == Drop(l, k);
    forall m | 0 <= m < |Drop(l, k)|
        ensures Drop(l, k)[m] in hdrs && Drop(l, k)[m] in hdrs' && hdrs'[Drop(l, k)[m]].sz == hdrs[Drop(l, k)[m]].sz {
      var j := if m < k then m else m + 1;
      assert Drop(l, k)[m] == l[j];
      Apart(lists, n, j, n, k);
    }
    ListBytesSame(hdrs, hdrs', Drop(l, k));
    forall i | 0 <= i < |lists| && i != n ensures ListBytes(hdrs', lists[i]) == ListBytes(hdrs, lists[i]) {
      forall m | 0 <= m < |lists[i]| ensures lists[i][m] != l[k] {
        Apart(lists, i, m, n, k);
      }
      ListBytesSame(hdrs, hdrs', lists[i]);
    }
  }

  lemma ReplaceClassified(hdrs: Headers, lists: seq<seq<nat>>, hdrs': Headers, n: nat, k: nat, c: nat)
    requires Classified(hdrs, lists, {}) && Distinct(lists) && n < |lists| && k < |lists[n]| && c !in hdrs
    requires hdrs'.Keys == hdrs.Keys + {c}
    requires forall b :: b in hdrs && b != lists[n][k] ==> hdrs'[b].sz == hdrs[b].sz && hdrs'[b].free == hdrs[b].free
    ensures Classified(hdrs', lists[n := Put(lists[n], k, c)], {lists[n][k], c})
    ensures OnNoList(lists[n := Put(lists[n], k, c)], lists[n][k])
  {
    var b := lists[n][k];
    var l' := Put(lists[n], k, c);
    var lists' := lists[n := l'];
    forall i, m | 0 <= i < |lists'| && 0 <= m < |lists'[i]|
      ensures lists'[i][m] == c || (lists'[i][m] == lists[i][m] && lists[i][m] != b)
    {
      Apart(lists, i, m, n, k);
    }
    forall x | FreeAt(hdrs', x) && x !in {b, c} ensures OnItsList(hdrs', lists', x) {
      assert OnItsList(hdrs, lists, x);
      var i := ListFor(Blocks(hdrs[x].sz));
      var m :| 0 <= m < |lists[i]| && lists[i][m] == x;
      assert lists'[i][m] == x;
    }
  }

  /** GC_split_block before the first part goes to its own list: the rest, `c`, is now on list `n`. */
  function SplitOff(s: Heap, b: nat, bytes: nat, n: nat, keys: seq<nat>): Heap
    requires b in s.ix.hdrs && 0 < bytes < s.ix.hdrs[b].sz && n < |s.heads| && n < |s.counts|
    requires s.ix.hdrs[b].prev != 0 ==> s.ix.hdrs[b].prev in s.ix.hdrs
    requires s.ix.hdrs[b].next != 0 ==> s.ix.hdrs[b].next in s.ix.hdrs
  {
    var hdrs := Cut(s.ix.hdrs, b, bytes);
    s.(ix := s.ix.(hdrs := Replaced(hdrs, b, b + Blocks(bytes)), keys := keys),
       heads := HeadsReplaced(hdrs, s.heads, b, n, b + Blocks(bytes)),
       counts := s.counts[n := s.counts[n] - bytes])
  }

  lemma SplitLinks(hdrs: Headers, heads: seq<nat>, lists: seq<seq<nat>>, n: nat, k: nat, bytes: nat)
    requires Chains(hdrs, heads, lists) && n < |lists| && k < |lists[n]|
    requires lists[n][k] in hdrs && 0 < bytes < hdrs[lists[n][k]].sz
    requires lists[n][k] + Blocks(bytes) !in hdrs
    requires forall i, m :: 0 <= i < |lists| && 0 <= m < |lists[i]| ==> lists[i][m] in hdrs
    ensures var b, c := lists[n][k], lists[n][k] + Blocks(bytes);
            var h := Cut(hdrs, b, bytes);
            && (hdrs[b].prev != 0 ==> hdrs[b].prev in hdrs)
            && (hdrs[b].next != 0 ==> hdrs[b].next in hdrs)
            && Chains(Replaced(h, b, c), HeadsReplaced(h, heads, b, n, c), lists[n := Put(lists[n], k, c)])
            && SameBlocks(h, Replaced(h, b, c))
  {
    var b, c := lists[n][k], lists[n][k] + Blocks(bytes);
    var h := Cut(hdrs, b, bytes);
    LinksInTable(hdrs, heads, lists, n, k);
    ChainsOfLists(hdrs, h, heads, lists);
    ReplaceKeepsChains(h, heads, lists, n, k, c);
  }

  /** GC_split_block: block `b`, at position `k` of list `n`, is cut and its rest takes its place. */
  lemma SplitKeepsPartial(s: Heap, owner: Owner, lists: seq<seq<nat>>, n: nat, k: nat, b: nat, bytes: nat,
      keys: seq<nat>)
    returns (t: Heap, lists': seq<seq<nat>>)
    requires s.Partial(owner, lists, {}, 0) && At(lists, n, k, b) && Grown(s.ix.keys, keys, b + Blocks(bytes))
    requires b in s.ix.hdrs && 0 < bytes < s.ix.hdrs[b].sz && bytes % HBLKSIZE == 0
    ensures var hdr := s.ix.hdrs[b];
            n < |s.heads| && n < |s.counts| && (hdr.prev != 0 ==> hdr.prev in s.ix.hdrs)
                && (hdr.next != 0 ==> hdr.next in s.ix.hdrs)
    ensures t == SplitOff(s, b, bytes, n, keys) && b + Blocks(bytes) !in s.ix.hdrs
    ensures lists' == lists[n := Put(lists[n], k, b + Blocks(bytes))] && OnNoList(lists', b)
    ensures SameBlocks(Cut(s.ix.hdrs, b, bytes), t.ix.hdrs)
    ensures t.Partial(SplitOwner(owner, b, b + Blocks(bytes)), lists', {b + Blocks(bytes)} + {b}, 0)
    ensures Total(t.counts) == Total(s.counts) - bytes
  {
    var c := b + Blocks(bytes);
    CutFresh(s.ix.hdrs, owner, b, bytes);
    SplitLinks(s.ix.hdrs, s.heads, lists, n, k, bytes);
    t, lists' := SplitOff(s, b, bytes, n, keys), lists[n := Put(lists[n], k, c)];
    SplitSound(s.ix, t.ix.hdrs, owner, b, bytes, keys);
    SplitLists(s.ix.hdrs, t.ix.hdrs, lists, s.counts, n, k, bytes);
    SplitTotal(s, b, bytes, n, keys);
    assert {c} + {b} == {b, c};
  }

  lemma CutFresh(hdrs: Headers, owner: Owner, b: nat, bytes: nat)
    requires Tiled(hdrs, owner) && b in hdrs && 0 < bytes < hdrs[b].sz && bytes % HBLKSIZE == 0
    ensures b + Blocks(bytes) !in hdrs
  {
    var c := b + Blocks(bytes);
    assert Inside(hdrs, b, c);
    if c in hdrs { HeaderOwnsItself(hdrs, owner, c); }
  }

  lemma SplitTotal(s: Heap, b: nat, bytes: nat, n: nat, keys: seq<nat>)
    requires b in s.ix.hdrs && 0 < bytes < s.ix.hdrs[b].sz && n < |s.heads| && n < |s.counts|
    requires s.ix.hdrs[b].prev != 0 ==> s.ix.hdrs[b].prev in s.ix.hdrs
    requires s.ix.hdrs[b].next != 0 ==> s.ix.hdrs[b].next in s.ix.hdrs
    ensures Total(SplitOff(s, b, bytes, n, keys).counts) == Total(s.counts) - bytes
  {
    TotalUpdate(s.counts, n, s.counts[n] - bytes);
  }

  lemma SplitSound(ix: Index, hdrs: Headers, owner: Owner, b: nat, bytes: nat, keys: seq<nat>)
    requires ix.Sound(owner, 0) && FreeAt(ix.hdrs, b) && 0 < bytes < ix.hdrs[b].sz && bytes % HBLKSIZE == 0
      && Coalesced(ix.hdrs, {})
    requires Grown(ix.keys, keys, b + Blocks(bytes))
    requires SameBlocks(Cut(ix.hdrs, b, bytes), hdrs)
    ensures ix.(hdrs := hdrs, keys := keys).Sound(SplitOwner(owner, b, b + Blocks(bytes)), 0)
    ensures Coalesced(hdrs, {b, b + Blocks(bytes)})
  {
    var c := b + Blocks(bytes);
    var h := Cut(ix.hdrs, b, bytes);
    CutSound(ix, owner, b, bytes, keys);
    SameBlocksSound(ix.(hdrs := h, keys := keys), hdrs, SplitOwner(owner, b, c), 0);
    CutCoalesced(ix.hdrs, b, bytes, {});
    assert {} + {b, c} == {b, c};
    CoalescedSame(h, hdrs, {b, c}, {b, c});
  }

  lemma SplitLists(hdrs: Headers, hdrs': Headers, lists: seq<seq<nat>>, counts: seq<int>, n: nat, k: nat, bytes: nat)
    requires Classified(hdrs, lists, {}) && Distinct(lists) && Counted(hdrs, lists, counts)
    requires n < |lists| && k < |lists[n]| && 0 < bytes < hdrs[lists[n][k]].sz && lists[n][k] + Blocks(bytes) !in hdrs
    requires SameBlocks(Cut(hdrs, lists[n][k], bytes), hdrs')
    ensures var b, c := lists[n][k], lists[n][k] + Blocks(bytes);
            && Classified(hdrs', lists[n := Put(lists[n], k, c)], {b, c})
            && Counted(hdrs', lists[n := Put(lists[n], k, c)], counts[n := counts[n] - bytes])
            && OnNoList(lists[n := Put(lists[n], k, c)], b)
  {
    var c := lists[n][k] + Blocks(bytes);
    ReplaceCounted(hdrs, hdrs', lists, counts, n, k, c);
    ReplaceClassified(hdrs, lists, hdrs', n, k, c);
  }

  /** After the split the first part has no free neighbour other than the rest. */
  lemma SplitFreeable(s: Heap, owner: Owner, lists: seq<seq<nat>>, hdrs: Headers, b: nat, bytes: nat)
    requires s.Partial(owner, lists, {b + Blocks(bytes)} + {b}, 0)
    requires FreeAt(hdrs, b) && 0 < bytes < hdrs[b].sz && bytes % HBLKSIZE == 0 && Coalesced(hdrs, {})
      && b + Blocks(bytes) !in hdrs
    requires SameBlocks(Cut(hdrs, b, bytes), s.ix.hdrs)
    ensures b != 0 && Freeable(s.ix, owner, b, {b + Blocks(bytes)})
  {
    var c := b + Blocks(bytes);
    assert End(s.ix.hdrs, b) == c;
    forall a | a in s.ix.fwd ensures a in owner && owner[a] != b {
      assert Interior(s.ix.hdrs, owner, a);
    }
    forall x | FreeAt(s.ix.hdrs, x) && x !in {c} ensures End(s.ix.hdrs, x) != b {
      assert x != b ==> End(hdrs, x) == End(s.ix.hdrs, x);
    }
  }

  /** The rest of a split block holds what remains, and the blocks in use are the same. */
  ghost predicate SplitDone(hdrs: Headers, hdrs': Headers, b: nat, bytes: nat) {
    var c := b + Blocks(bytes);
    && InUse(hdrs') == InUse(hdrs) && NoFreeAfter(hdrs', c)
    && b in hdrs && FreeAt(hdrs', c) && hdrs'[c].sz == hdrs[b].sz - bytes
  }

  lemma SplitFacts(hdrs: Headers, hdrs1: Headers, hdrs2: Headers, b: nat, bytes: nat)
    requires FreeAt(hdrs, b) && Coalesced(hdrs, {}) && 0 < bytes < hdrs[b].sz && hdrs[b].sz % HBLKSIZE == 0
      && bytes % HBLKSIZE == 0
    requires b + Blocks(bytes) !in hdrs && SameBlocks(Cut(hdrs, b, bytes), hdrs1) && OnlyFreed(hdrs1, hdrs2, b)
    ensures SplitDone(hdrs, hdrs2, b, bytes)
  {
    BlocksAdd(bytes, hdrs[b].sz - bytes);
    assert End(hdrs2, b + Blocks(bytes)) == End(hdrs, b);
  }

  lemma RestFacts(hdrs: Headers, hdrs': Headers, b: nat, bytes: nat)
    requires FreeAt(hdrs, b) && 0 < bytes < hdrs[b].sz && b + Blocks(bytes) !in hdrs
    requires OnlyFreed(Cut(hdrs, b, bytes), hdrs', b + Blocks(bytes))
    ensures InUse(hdrs') == InUse(hdrs) && FreeAt(hdrs', b) && hdrs'[b].sz == bytes
  {
  }

  lemma RestFreeable(hdrs: Headers, t: Heap, owner: Owner, lists: seq<seq<nat>>, b: nat, bytes: nat)
    requires FreeAt(hdrs, b) && NoFreeAfter(hdrs, b) && 0 < bytes < hdrs[b].sz && hdrs[b].sz % HBLKSIZE == 0
      && bytes % HBLKSIZE == 0
    requires b + Blocks(bytes) !in hdrs && t.ix.hdrs == Cut(hdrs, b, bytes)
    requires Loose(t, owner, lists, {b} + {b + Blocks(bytes)})
    ensures Freeable(t.ix, owner, b + Blocks(bytes), {b}) && b + Blocks(bytes) != 0
  {
    var c := b + Blocks(bytes);
    BlocksAdd(bytes, hdrs[b].sz - bytes);
    assert End(t.ix.hdrs, c) == End(hdrs, b) && End(t.ix.hdrs, b) == c;
    forall a | a in t.ix.fwd ensures a in owner && owner[a] != c {
      assert Interior(t.ix.hdrs, owner, a);
    }
    EndsAt(t.ix.hdrs, owner, c);
  }

  lemma AddedOnNoList(lists: seq<seq<nat>>, i: nat, c: nat, b: nat)
    requires i < |lists| && OnNoList(lists, b) && b != c
    ensures OnNoList(lists[i := [c] + lists[i]], b)
  {
  }

  /** Where a block ends up when another is added in front of some list. */
  lemma AddedPosition(lists: seq<seq<nat>>, i: nat, b: nat, n: nat, k: nat) returns (k': nat)
    requires i < |lists| && n < |lists| && k < |lists[n]|
    ensures At(lists[i := [b] + lists[i]], n, k', lists[n][k])
  {
    k' := if i == n then k + 1 else k;
  }

  // ---- Putting a block to use ----

  lemma SealForwarded(hdrs: Headers, fwd: map<nat, nat>, owner: Owner, b: nat, hdr: Hdr, fwd': map<nat, nat>)
    requires Forwarded(hdrs, fwd, owner, 0) && Tiled(hdrs, owner) && FreeAt(hdrs, b) && !hdr.free
    requires forall a :: a in fwd' <==> a in fwd || b < a < b + Blocks(hdrs[b].sz)
    requires forall a :: a in fwd' ==> fwd'[a] == if b < a < b + Blocks(hdrs[b].sz) then Jump(a - b) else fwd[a]
    ensures Forwarded(hdrs[b := hdr], fwd', owner, 0)
  {
    InsideIsOwned(hdrs, owner, b);
    OwnersHaveHeaders(hdrs, owner);
    var h := hdrs[b := hdr];
    forall a | a in owner ensures a in fwd' <==> Interior(h, owner, a) {
      assert owner[a] in hdrs;
      assert owner[a] != b ==> (Interior(h, owner, a) <==> Interior(hdrs, owner, a));
      assert owner[a] == b ==> a !in fwd;
    }
  }

  /** A loose block is given its header and forwarding counts. */
  lemma SealKeepsPartial(s: Heap, owner: Owner, lists: seq<seq<nat>>, b: nat, hdr: Hdr, ix: Index)
    requires Loose(s, owner, lists, {b}) && !hdr.free && hdr.sz > 0 && s.ix.hdrs[b].sz == Blocks(hdr.sz) * HBLKSIZE
    requires ix.hdrs == s.ix.hdrs && KeysOk(ix.hdrs, ix.fwd, ix.keys)
    requires forall a :: a in ix.fwd <==> a in s.ix.fwd || b < a < b + Blocks(hdr.sz)
    requires forall a :: a in ix.fwd ==> ix.fwd[a] == if b < a < b + Blocks(hdr.sz) then Jump(a - b) else s.ix.fwd[a]
    ensures s.(ix := ix.(hdrs := ix.hdrs[b := hdr])).Partial(owner, lists, {}, 0)
    ensures InUse(ix.hdrs[b := hdr]) == InUse(s.ix.hdrs)[b := hdr.sz]
  {
    assert b in {b};
    var h := s.ix.hdrs[b := hdr];
    assert Blocks(s.ix.hdrs[b].sz) == Blocks(hdr.sz);
    ResizeTiled(s.ix.hdrs, owner, b, hdr);
    SealForwarded(s.ix.hdrs, s.ix.fwd, owner, b, hdr, ix.fwd);
    ChainsOfLists(s.ix.hdrs, h, s.heads, lists);
    SameBlocksCounted(s.ix.hdrs, h, lists, s.counts);
    SealLists(s.ix.hdrs, h, lists, b);
  }

  lemma SealLists(hdrs: Headers, hdrs': Headers, lists: seq<seq<nat>>, b: nat)
    requires Classified(hdrs, lists, {b}) && Coalesced(hdrs, {b}) && OnNoList(lists, b)
    requires hdrs'.Keys == hdrs.Keys && b in hdrs && !hdrs'[b].free
    requires forall c :: c in hdrs && c != b ==> hdrs'[c] == hdrs[c]
    ensures Classified(hdrs', lists, {}) && Coalesced(hdrs', {})
  {
    forall c | FreeAt(hdrs', c) ensures OnItsList(hdrs', lists, c) {
      assert OnItsList(hdrs, lists, c);
    }
    forall c | FreeAt(hdrs', c) ensures !FreeAt(hdrs', End(hdrs', c)) {
      assert End(hdrs, c) == End(hdrs', c);
    }
  }

  // ---- Dropping a block in single-block pieces ----

  /** The first `m` blocks of `b` are blocks in use of their own. */
  ghost predicate Chopped(hdrs: Headers, h: Headers, b: nat, m: nat) {
    && (forall a :: a in h <==> a in hdrs || b <= a < b + m)
    && (forall a :: a in h ==> if b <= a < b + m then h[a].sz == HBLKSIZE && !h[a].free else h[a] == hdrs[a])
  }

  function ChoppedOwner(owner: Owner, b: nat): Owner {
    map a | a in owner :: if owner[a] == b then a else owner[a]
  }

  lemma ChopTiled(hdrs: Headers, h: Headers, owner: Owner, b: nat, m: nat)
    requires Tiled(hdrs, owner) && b in hdrs && m == Blocks(hdrs[b].sz) && Chopped(hdrs, h, b, m)
    ensures Tiled(h, ChoppedOwner(owner, b))
  {
    InsideIsOwned(hdrs, owner, b);
    var o := ChoppedOwner(owner, b);
    assert Blocks(HBLKSIZE) == 1;
    forall c: nat, a: nat | Inside(h, c, a) ensures a in o && o[a] == c {
      if !(b <= c < b + m) { assert Inside(hdrs, c, a); }
    }
    forall a | a in o ensures Inside(h, o[a], a) {
      assert Inside(hdrs, owner[a], a);
      if owner[a] != b { HeaderOwnsItself(hdrs, owner, owner[a]); }
    }
  }

  lemma ChopForwarded(hdrs: Headers, h: Headers, fwd: map<nat, nat>, owner: Owner, b: nat, m: nat)
    requires Forwarded(hdrs, fwd, owner, 0) && Tiled(hdrs, owner) && FreeAt(hdrs, b)
    requires m == Blocks(hdrs[b].sz) && Chopped(hdrs, h, b, m)
    ensures Forwarded(h, fwd, ChoppedOwner(owner, b), 0)
  {
    InsideIsOwned(hdrs, owner, b);
    OwnersHaveHeaders(hdrs, owner);
    var o := ChoppedOwner(owner, b);
    forall a | a in o ensures a in fwd <==> Interior(h, o, a) {
      assert owner[a] in hdrs;
      if owner[a] != b {
        HeaderOwnsItself(hdrs, owner, owner[a]);
        assert Interior(h, o, a) <==> Interior(hdrs, owner, a);
      }
    }
    forall a | a in fwd ensures o[a] == owner[a] {
      assert Interior(hdrs, owner, a);
    }
  }

  lemma ChopKeeps(hdrs: Headers, h: Headers, owner: Owner, b: nat, m: nat)
    requires Tiled(hdrs, owner) && b in hdrs && m == Blocks(hdrs[b].sz) && Chopped(hdrs, h, b, m)
    ensures !FreeAt(h, b) && forall c :: c in hdrs && c != b ==> c in h && h[c] == hdrs[c]
  {
    InsideIsOwned(hdrs, owner, b);
    forall c | c in hdrs && c != b ensures h[c] == hdrs[c] {
      HeaderOwnsItself(hdrs, owner, c);
    }
  }

  lemma ChopLists(hdrs: Headers, h: Headers, lists: seq<seq<nat>>, b: nat, m: nat)
    requires Classified(hdrs, lists, {b}) && Coalesced(hdrs, {b}) && OnNoList(lists, b)
    requires Chopped(hdrs, h, b, m) && !FreeAt(h, b) && forall c :: c in hdrs && c != b ==> c in h && h[c] == hdrs[c]
    ensures Classified(h, lists, {}) && Coalesced(h, {})
  {
    forall c | FreeAt(h, c) ensures OnItsList(h, lists, c) {
      assert OnItsList(hdrs, lists, c);
    }
    forall c | FreeAt(h, c) ensures !FreeAt(h, End(h, c)) {
      assert End(hdrs, c) == End(h, c);
    }
  }

  lemma ChopKeepsPartial(s: Heap, h: Headers, owner: Owner, lists: seq<seq<nat>>, b: nat, keys: seq<nat>)
    requires Loose(s, owner, lists, {b}) && b in s.ix.hdrs && Chopped(s.ix.hdrs, h, b, Blocks(s.ix.hdrs[b].sz))
    requires KeysOk(h, s.ix.fwd, keys)
    ensures s.(ix := s.ix.(hdrs := h, keys := keys)).Partial(ChoppedOwner(owner, b), lists, {}, 0)
  {
    assert b in {b};
    var m := Blocks(s.ix.hdrs[b].sz);
    ChopTiled(s.ix.hdrs, h, owner, b, m);
    ChopForwarded(s.ix.hdrs, h, s.ix.fwd, owner, b, m);
    ChopKeeps(s.ix.hdrs, h, owner, b, m);
    ChopLists(s.ix.hdrs, h, lists, b, m);
    ChainsOfLists(s.ix.hdrs, h, s.heads, lists);
    SameBlocksCounted(s.ix.hdrs, h, lists, s.counts);
  }

  /** Block `b` has become blocks in use of one block each; the others are the same, links apart. */
  ghost predicate Dropped(hdrs: Headers, hdrs': Headers, b: nat) {
    && (forall a :: a in hdrs' <==> a in hdrs || b <= a < End(hdrs, b))
    && (forall a :: b <= a < End(hdrs, b) ==> a in hdrs' && hdrs'[a].sz == HBLKSIZE && !hdrs'[a].free)
    && (forall a :: a in hdrs && a != b ==>
        a in hdrs' && hdrs'[a].sz == hdrs[a].sz && hdrs'[a].free == hdrs[a].free && !(b <= a < End(hdrs, b)))
  }

  lemma ChopDropped(hdrs0: Headers, hdrs: Headers, h: Headers, owner: Owner, b: nat)
    requires SameBlocks(hdrs0, hdrs) && Tiled(hdrs, owner) && b in hdrs && Chopped(hdrs, h, b, Blocks(hdrs[b].sz))
    ensures Dropped(hdrs0, h, b)
  {
    InsideIsOwned(hdrs, owner, b);
    forall a | a in hdrs && a != b ensures !(b <= a < End(hdrs, b)) {
      HeaderOwnsItself(hdrs, owner, a);
    }
  }

  // ---- Heap growth ----

  lemma ExtendForwarded(hdrs: Headers, fwd: map<nat, nat>, owner: Owner, p: nat, hdr: Hdr, n: nat)
    requires Forwarded(hdrs, fwd, owner, 0) && Tiled(hdrs, owner) && p !in hdrs && n == Blocks(hdr.sz)
    requires forall a :: p <= a < p + n ==> a !in owner
    ensures Forwarded(hdrs[p := hdr], fwd, Extended(owner, p, n), p)
  {
  }

  /** A new region becomes one block, not free yet and without forwarding counts. */
  lemma ExtendKeepsPartial(s: Heap, owner: Owner, lists: seq<seq<nat>>, p: nat, hdr: Hdr, keys: seq<nat>)
    requires s.Partial(owner, lists, {}, 0) && p > 0 && hdr.sz > 0 && !hdr.free
    requires forall a :: p <= a < p + Blocks(hdr.sz) ==> a !in owner
    requires Grown(s.ix.keys, keys, p)
    ensures p !in s.ix.hdrs
    ensures s.(ix := s.ix.(hdrs := s.ix.hdrs[p := hdr], keys := keys)).Partial(Extended(owner, p, Blocks(hdr.sz)),
      lists, {}, p)
    ensures InUse(s.ix.hdrs[p := hdr]) == InUse(s.ix.hdrs)[p := hdr.sz]
  {
    var h := s.ix.hdrs[p := hdr];
    ExtendTiled(s.ix.hdrs, owner, p, hdr);
    ExtendForwarded(s.ix.hdrs, s.ix.fwd, owner, p, hdr, Blocks(hdr.sz));
    ChainsOfLists(s.ix.hdrs, h, s.heads, lists);
    SameBlocksCounted(s.ix.hdrs, h, lists, s.counts);
    ExtendLists(s.ix.hdrs, h, lists, p);
  }

  lemma ExtendLists(hdrs: Headers, h: Headers, lists: seq<seq<nat>>, p: nat)
    requires Classified(hdrs, lists, {}) && Coalesced(hdrs, {}) && p !in hdrs && h.Keys == hdrs.Keys + {p} && !h[p].free
    requires forall c :: c in hdrs ==> h[c] == hdrs[c]
    ensures Classified(h, lists, {}) && Coalesced(h, {})
  {
    forall c | FreeAt(h, c) ensures OnItsList(h, lists, c) {
      assert OnItsList(hdrs, lists, c);
    }
    forall c | FreeAt(h, c) ensures !FreeAt(h, End(h, c)) {
      assert End(hdrs, c) == End(h, c);
    }
  }
}
