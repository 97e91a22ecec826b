/**
  Where all the bytes of the heap are: what is on the free lists and what blocks in use occupy
  together is the heap.
 */
module BlockBytes {
  import opened FreeLists
  import opened BlockIndex
  import opened BlockSteps

  /** The bytes that blocks of these sizes occupy. */
  ghost function Extents(sizes: map<nat, nat>, bs: set<nat>): nat
    requires bs <= sizes.Keys
    decreases |bs|
  {
    if bs == {} then 0
    else
      var b :| b in bs;
      Blocks(sizes[b]) * HBLKSIZE + Extents(sizes, bs - {b})
  }

  lemma {:induction false} ExtentsWithout(sizes: map<nat, nat>, bs: set<nat>, b: nat)
    requires bs <= sizes.Keys && b in bs
    ensures Extents(sizes, bs) == Blocks(sizes[b]) * HBLKSIZE + Extents(sizes, bs - {b})
    decreases |bs|
  {
    var c :| c in bs && Extents(sizes, bs) == Blocks(sizes[c]) * HBLKSIZE + Extents(sizes, bs - {c});
    if c != b {
      ExtentsWithout(sizes, bs - {c}, b);
      ExtentsWithout(sizes, bs - {b}, c);
      assert bs - {c} - {b} == bs - {b} - {c};
    }
  }

  lemma {:induction false} ExtentsSame(sizes: map<nat, nat>, sizes': map<nat, nat>, bs: set<nat>)
    requires bs <= sizes.Keys && bs <= sizes'.Keys && forall b :: b in bs ==> sizes'[b] == sizes[b]
    ensures Extents(sizes', bs) == Extents(sizes, bs)
    decreases |bs|
  {
    if bs != {} {
      var b :| b in bs;
      ExtentsWithout(sizes, bs, b);
      ExtentsWithout(sizes', bs, b);
      ExtentsSame(sizes, sizes', bs - {b});
    }
  }

  lemma {:induction false} ExtentsUnion(sizes: map<nat, nat>, bs: set<nat>, cs: set<nat>)
    requires bs <= sizes.Keys && cs <= sizes.Keys && bs !! cs
    ensures Extents(sizes, bs + cs) == Extents(sizes, bs) + Extents(sizes, cs)
    decreases |bs|
  {
    if bs == {} {
      assert bs + cs == cs;
    } else {
      var b :| b in bs;
      ExtentsWithout(sizes, bs, b);
      ExtentsWithout(sizes, bs + cs, b);
      assert bs + cs - {b} == (bs - {b}) + cs;
      ExtentsUnion(sizes, bs - {b}, cs);
    }
  }

  lemma ExtentsGrown(sizes: map<nat, nat>, sizes': map<nat, nat>)
    requires forall b :: b in sizes ==> b in sizes' && sizes'[b] == sizes[b]
    ensures Extents(sizes', sizes'.Keys) == Extents(sizes', sizes'.Keys - sizes.Keys) + Extents(sizes, sizes.Keys)
  {
    ExtentsUnion(sizes', sizes'.Keys - sizes.Keys, sizes.Keys);
    assert sizes'.Keys - sizes.Keys + sizes.Keys == sizes'.Keys;
    ExtentsSame(sizes, sizes', sizes.Keys);
  }

  function Sizes(hdrs: Headers): map<nat, nat> {
    map b | b in hdrs :: hdrs[b].sz
  }

  // ---- The tiling ----

  /** The addresses from `b` on. */
  ghost function Interval(b: nat, n: nat): (r: set<nat>)
    ensures |r| == n && forall a :: a in r <==> b <= a < b + n
  {
    if n == 0 then {} else Interval(b, n - 1) + {b + n - 1}
  }

  /** The addresses that belong to some blocks. */
  ghost function OwnedBy(owner: Owner, bs: set<nat>): set<nat> {
    set a | a in owner && owner[a] in bs
  }

  lemma {:induction false} OwnedBytes(hdrs: Headers, owner: Owner, bs: set<nat>)
    requires Tiled(hdrs, owner) && bs <= hdrs.Keys
    ensures |OwnedBy(owner, bs)| * HBLKSIZE == Extents(Sizes(hdrs), bs)
    decreases |bs|
  {
    if bs == {} {
      assert OwnedBy(owner, bs) == {};
    } else {
      var b :| b in bs;
      ExtentsWithout(Sizes(hdrs), bs, b);
      OwnedBytes(hdrs, owner, bs - {b});
      OwnedByOne(hdrs, owner, b);
      assert OwnedBy(owner, bs) == OwnedBy(owner, bs - {b}) + OwnedBy(owner, {b});
    }
  }

  lemma OwnedByOne(hdrs: Headers, owner: Owner, b: nat)
    requires Tiled(hdrs, owner) && b in hdrs
    ensures |OwnedBy(owner, {b})| == Blocks(hdrs[b].sz)
  {
    forall a ensures a in OwnedBy(owner, {b}) <==> a in Interval(b, Blocks(hdrs[b].sz)) {
      if a in OwnedBy(owner, {b}) { assert Inside(hdrs, owner[a], a); }
      if a in Interval(b, Blocks(hdrs[b].sz)) { assert Inside(hdrs, b, a); }
    }
    assert OwnedBy(owner, {b}) == Interval(b, Blocks(hdrs[b].sz));
  }

  // ---- The free lists ----

  ghost function Elements(l: seq<nat>): set<nat> {
    set b | b in l
  }

  ghost function AllListed(lists: seq<seq<nat>>): set<nat> {
    if lists == [] then {} else Elements(lists[0]) + AllListed(lists[1..])
  }

  /** Blocks of whole units, each once. */
  ghost predicate WholeBlocks(hdrs: Headers, l: seq<nat>) {
    && (forall k :: 0 <= k < |l| ==> l[k] in hdrs && hdrs[l[k]].sz % HBLKSIZE == 0)
    && (forall j, k :: 0 <= j < k < |l| ==> l[j] != l[k])
  }

  lemma {:induction false} ListExtents(hdrs: Headers, l: seq<nat>)
    requires WholeBlocks(hdrs, l)
    ensures Elements(l) <= hdrs.Keys && ListBytes(hdrs, l) == Extents(Sizes(hdrs), Elements(l))
  {
    if l != [] {
      assert l[0] in l && forall k :: 0 <= k < |l| - 1 ==> l[1..][k] == l[k + 1];
      ListExtents(hdrs, l[1..]);
      assert Elements(l) == Elements(l[1..]) + {l[0]};
      assert l[0] !in l[1..];
      assert Elements(l) - {l[0]} == Elements(l[1..]);
      ExtentsWithout(Sizes(hdrs), Elements(l), l[0]);
    }
  }

  lemma {:induction false} ListedExtents(hdrs: Headers, lists: seq<seq<nat>>, counts: seq<int>)
    requires Counted(hdrs, lists, counts) && (forall i :: 0 <= i < |lists| ==> WholeBlocks(hdrs, lists[i]))
    requires forall i, j :: 0 <= i < j < |lists| ==> Elements(lists[i]) !! Elements(lists[j])
    ensures AllListed(lists) <= hdrs.Keys && Total(counts) == Extents(Sizes(hdrs), AllListed(lists))
    ensures forall b :: b in AllListed(lists) <==> exists i :: 0 <= i < |lists| && b in lists[i]
    decreases |lists|
  {
    if lists != [] {
      var rest := lists[1..];
      assert forall i :: 0 <= i < |rest| ==> rest[i] == lists[i + 1];
      ListedExtents(hdrs, rest, counts[1..]);
      ListExtents(hdrs, lists[0]);
      forall b | b in AllListed(rest) ensures b !in Elements(lists[0]) {
        var i :| 0 <= i < |rest| && b in rest[i];
        assert b in Elements(lists[i + 1]);
      }
      ExtentsUnion(Sizes(hdrs), Elements(lists[0]), AllListed(rest));
      forall b ensures b in AllListed(lists) <==> exists i :: 0 <= i < |lists| && b in lists[i] {
        if b in AllListed(rest) {
          var i :| 0 <= i < |rest| && b in rest[i];
          assert b in lists[i + 1];
        }
        if i :| 0 <= i < |lists| && b in lists[i] {
          if i > 0 { assert b in rest[i - 1]; }
        }
      }
    }
  }

  lemma FreeIsListed(s: Heap, owner: Owner, lists: seq<seq<nat>>)
    requires s.Partial(owner, lists, {}, 0)
    ensures AllListed(lists) <= s.ix.hdrs.Keys && Total(s.counts) == Extents(Sizes(s.ix.hdrs), AllListed(lists))
    ensures forall b :: b in AllListed(lists) <==> FreeAt(s.ix.hdrs, b)
  {
    var hdrs := s.ix.hdrs;
    forall i, j | 0 <= i < j < |lists| ensures Elements(lists[i]) !! Elements(lists[j]) {
      forall b | b in lists[i] && b in lists[j] ensures false {
        var k, m :| 0 <= k < |lists[i]| && lists[i][k] == b && 0 <= m < |lists[j]| && lists[j][m] == b;
        Apart(lists, i, k, j, m);
      }
    }
    forall i | 0 <= i < |lists| ensures WholeBlocks(hdrs, lists[i]) {
      forall j, k | 0 <= j < k < |lists[i]| ensures lists[i][j] != lists[i][k] {
        Apart(lists, i, j, i, k);
      }
    }
    ListedExtents(hdrs, lists, s.counts);
    forall b ensures b in AllListed(lists) <==> FreeAt(hdrs, b) {
      if FreeAt(hdrs, b) { assert OnItsList(hdrs, lists, b); }
    }
  }

  /** Free bytes and the bytes of blocks in use are the heap. */
  lemma BytesConserved(s: Heap, owner: Owner, lists: seq<seq<nat>>)
    requires s.Partial(owner, lists, {}, 0)
    ensures Total(s.counts) + Extents(InUse(s.ix.hdrs), InUse(s.ix.hdrs).Keys) == |owner| * HBLKSIZE
  {
    var hdrs, used := s.ix.hdrs, InUse(s.ix.hdrs).Keys;
    FreeIsListed(s, owner, lists);
    ExtentsUnion(Sizes(hdrs), AllListed(lists), used);
    assert AllListed(lists) + used == hdrs.Keys;
    OwnedBytes(hdrs, owner, hdrs.Keys);
    forall a | a in owner ensures owner[a] in hdrs {
      assert Inside(hdrs, owner[a], a);
    }
    assert OwnedBy(owner, hdrs.Keys) == owner.Keys;
    ExtentsSame(Sizes(hdrs), InUse(hdrs), used);
  }
}
