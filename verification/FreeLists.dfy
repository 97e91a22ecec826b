/**
  The segregated, doubly linked free lists of heap blocks (gc/allchblk.c): headers of free
  blocks linked through `next` and `prev`, one list head and one byte count per size class.
 */
module FreeLists {

  const HBLKSIZE := 4096
  const UNIQUE_THRESHOLD := 32
  const HUGE_THRESHOLD := 256
  const FL_COMPRESSION := 8
  const N_HBLK_FLS := (HUGE_THRESHOLD - UNIQUE_THRESHOLD) / FL_COMPRESSION + UNIQUE_THRESHOLD

  /** A block header. Sizes are in bytes: of the object for a block in use, of the block for a free one. */
  datatype Hdr = Hdr(sz: nat, free: bool, next: nat, prev: nat)

  /** Headers by block number; number 0 stands for the null pointer. */
  type Headers = map<nat, Hdr>

  /** GC_hblk_fl_from_blocks. */
  function ListFor(blocks: nat): (i: nat)
    ensures i <= N_HBLK_FLS
  {
    if blocks <= UNIQUE_THRESHOLD then blocks
    else if blocks >= HUGE_THRESHOLD then N_HBLK_FLS
    else (blocks - UNIQUE_THRESHOLD) / FL_COMPRESSION + UNIQUE_THRESHOLD
  }

  /** Larger blocks are on later lists, and below the threshold each size has a list of its own. */
  lemma ListForMonotone(a: nat, b: nat)
    ensures a <= b ==> ListFor(a) <= ListFor(b)
    ensures ListFor(a) == ListFor(b) && ListFor(a) < UNIQUE_THRESHOLD ==> a == b
  {
  }

  // ---- Chains ----

  function NextIn(l: seq<nat>, k: nat): nat {
    if k + 1 < |l| then l[k + 1] else 0
  }

  function PrevIn(l: seq<nat>, k: nat): nat {
    if 0 < k <= |l| then l[k - 1] else 0
  }

  /** `l` is what one finds by following `next` from `head`, and `prev` leads back. */
  ghost predicate Chain(hdrs: Headers, head: nat, l: seq<nat>) {
    && head == (if |l| == 0 then 0 else l[0])
    && (forall k :: 0 <= k < |l| ==> l[k] in hdrs && l[k] != 0)
    && (forall k {:trigger NextIn(l, k)} :: 0 <= k < |l| ==> hdrs[l[k]].next == NextIn(l, k))
    && (forall k {:trigger PrevIn(l, k)} :: 0 <= k < |l| ==> hdrs[l[k]].prev == PrevIn(l, k))
  }

  /** No block occurs twice, on one list or on two. */
  ghost predicate Distinct(lists: seq<seq<nat>>) {
    forall i, j, k, m, b :: At(lists, i, k, b) && At(lists, j, m, b) ==> i == j && k == m
  }

  predicate At(lists: seq<seq<nat>>, i: nat, k: nat, b: nat) {
    i < |lists| && k < |lists[i]| && lists[i][k] == b
  }

  lemma Apart(lists: seq<seq<nat>>, i: nat, k: nat, j: nat, m: nat)
    requires Distinct(lists) && i < |lists| && k < |lists[i]| && j < |lists| && m < |lists[j]|
    ensures lists[i][k] == lists[j][m] <==> i == j && k == m
  {
    assert At(lists, i, k, lists[i][k]) && At(lists, j, m, lists[j][m]);
  }

  ghost predicate Chains(hdrs: Headers, heads: seq<nat>, lists: seq<seq<nat>>) {
    && |heads| == |lists|
    && (forall i :: 0 <= i < |lists| ==> Chain(hdrs, heads[i], lists[i]))
    && Distinct(lists)
  }

  /** Two header tables that differ at most in their links. */
  ghost predicate SameBlocks(a: Headers, b: Headers) {
    a.Keys == b.Keys && forall h :: h in a ==> a[h].sz == b[h].sz && a[h].free == b[h].free
  }

  function Drop(l: seq<nat>, k: nat): seq<nat>
    requires k < |l|
  {
    l[..k] + l[k + 1..]
  }

  function Put(l: seq<nat>, k: nat, c: nat): seq<nat>
    requires k < |l|
  {
    l[k := c]
  }

  /** The link updates of GC_remove_from_fl. */
  function Unlinked(hdrs: Headers, b: nat): Headers
    requires b in hdrs
    requires hdrs[b].prev != 0 ==> hdrs[b].prev in hdrs
    requires hdrs[b].next != 0 ==> hdrs[b].next in hdrs
  {
    var prev, next := hdrs[b].prev, hdrs[b].next;
    var h1 := if prev == 0 then hdrs else hdrs[prev := hdrs[prev].(next := next)];
    if next == 0 then h1 else h1[next := h1[next].(prev := prev)]
  }

  function HeadsWithout(hdrs: Headers, heads: seq<nat>, b: nat, n: nat): seq<nat>
    requires b in hdrs && n < |heads|
  {
    if hdrs[b].prev == 0 then heads[n := hdrs[b].next] else heads
  }

  lemma LinksInTable(hdrs: Headers, heads: seq<nat>, lists: seq<seq<nat>>, n: nat, k: nat)
    requires Chains(hdrs, heads, lists) && n < |lists| && k < |lists[n]|
    ensures var b := lists[n][k];
            && b in hdrs
            && (hdrs[b].prev != 0 ==> hdrs[b].prev in hdrs)
            && (hdrs[b].next != 0 ==> hdrs[b].next in hdrs)
  {
    var l := lists[n];
    assert Chain(hdrs, heads[n], l);
    assert hdrs[l[k]].prev == PrevIn(l, k) && hdrs[l[k]].next == NextIn(l, k);
    assert k > 0 ==> l[k - 1] in hdrs;
    assert k + 1 < |l| ==> l[k + 1] in hdrs;
  }

  lemma UnlinkedBlocks(hdrs: Headers, b: nat)
    requires b in hdrs
    requires hdrs[b].prev != 0 ==> hdrs[b].prev in hdrs
    requires hdrs[b].next != 0 ==> hdrs[b].next in hdrs
    ensures SameBlocks(hdrs, Unlinked(hdrs, b))
  {
  }

  lemma DropDistinct(lists: seq<seq<nat>>, n: nat, k: nat)
    requires Distinct(lists) && n < |lists| && k < |lists[n]|
    ensures Distinct(lists[n := Drop(lists[n], k)])
  {
    var lists' := lists[n := Drop(lists[n], k)];
    forall i: nat, j: nat, p: nat, m: nat, x: nat | At(lists', i, p, x) && At(lists', j, m, x)
      ensures i == j && p == m
    {
      var p', m' := if i == n && p >= k then p + 1 else p, if j == n && m >= k then m + 1 else m;
      assert At(lists, i, p', x) && At(lists, j, m', x);
    }
  }

  /** A listed block is next to position `k` of list `n` only if it is at `k - 1` or `k + 1` there. */
  lemma NotNeighbour(lists: seq<seq<nat>>, n: nat, k: nat, i: nat, m: nat)
    requires Distinct(lists) && n < |lists| && k < |lists[n]| && i < |lists| && m < |lists[i]| && lists[i][m] != 0
    ensures lists[i][m] == PrevIn(lists[n], k) <==> i == n && m == k - 1
    ensures lists[i][m] == NextIn(lists[n], k) <==> i == n && m == k + 1
  {
    if k > 0 { Apart(lists, n, k - 1, i, m); }
    if k + 1 < |lists[n]| { Apart(lists, n, k + 1, i, m); }
  }

  lemma UnlinkOther(hdrs: Headers, heads: seq<nat>, lists: seq<seq<nat>>, n: nat, k: nat, i: nat)
    requires Chains(hdrs, heads, lists) && n < |lists| && k < |lists[n]| && i < |lists| && i != n
    ensures lists[n][k] in hdrs
    ensures var b := lists[n][k];
            && (hdrs[b].prev != 0 ==> hdrs[b].prev in hdrs)
            && (hdrs[b].next != 0 ==> hdrs[b].next in hdrs)
            && Chain(Unlinked(hdrs, b), HeadsWithout(hdrs, heads, b, n)[i], lists[i])
  {
    LinksInTable(hdrs, heads, lists, n, k);
    var l, b := lists[n], lists[n][k];
    assert Chain(hdrs, heads[n], l) && Chain(hdrs, heads[i], lists[i]);
    assert hdrs[b].prev == PrevIn(l, k) && hdrs[b].next == NextIn(l, k);
    var h := Unlinked(hdrs, b);
    forall m | 0 <= m < |lists[i]| ensures h[lists[i][m]] == hdrs[lists[i][m]] {
      NotNeighbour(lists, n, k, i, m);
    }
  }

  lemma UnlinkThis(hdrs: Headers, heads: seq<nat>, lists: seq<seq<nat>>, n: nat, k: nat)
    requires Chains(hdrs, heads, lists) && n < |lists| && k < |lists[n]|
    ensures lists[n][k] in hdrs
    ensures var b := lists[n][k];
            && (hdrs[b].prev != 0 ==> hdrs[b].prev in hdrs)
            && (hdrs[b].next != 0 ==> hdrs[b].next in hdrs)
            && Chain(Unlinked(hdrs, b), HeadsWithout(hdrs, heads, b, n)[n], Drop(lists[n], k))
  {
    LinksInTable(hdrs, heads, lists, n, k);
    var l, b := lists[n], lists[n][k];
    var l' := Drop(l, k);
    assert Chain(hdrs, heads[n], l);
    assert hdrs[b].prev == PrevIn(l, k) && hdrs[b].next == NextIn(l, k);
    var h := Unlinked(hdrs, b);
    forall m | 0 <= m < |l'|
      ensures l'[m] in h && h[l'[m]].next == NextIn(l', m) && h[l'[m]].prev == PrevIn(l', m)
    {
      var j := if m < k then m else m + 1;
      assert l'[m] == l[j] && l[j] in hdrs && l[j] != 0;
      assert hdrs[l[j]].next == NextIn(l, j) && hdrs[l[j]].prev == PrevIn(l, j);
      NotNeighbour(lists, n, k, n, j);
    }
  }

  /** Taking the block at position `k` off list `n`. */
  lemma UnlinkKeepsChains(hdrs: Headers, heads: seq<nat>, lists: seq<seq<nat>>, n: nat, k: nat)
    requires Chains(hdrs, heads, lists) && n < |lists| && k < |lists[n]|
    ensures lists[n][k] in hdrs
    ensures var b := lists[n][k];
            && (hdrs[b].prev != 0 ==> hdrs[b].prev in hdrs)
            && (hdrs[b].next != 0 ==> hdrs[b].next in hdrs)
            && Chains(Unlinked(hdrs, b), HeadsWithout(hdrs, heads, b, n), lists[n := Drop(lists[n], k)])
            && SameBlocks(hdrs, Unlinked(hdrs, b))
  {
    LinksInTable(hdrs, heads, lists, n, k);
    var b := lists[n][k];
    UnlinkedBlocks(hdrs, b);
    DropDistinct(lists, n, k);
    UnlinkThis(hdrs, heads, lists, n, k);
    forall i | 0 <= i < |lists|
        ensures Chain(Unlinked(hdrs, b), HeadsWithout(hdrs, heads, b, n)[i], lists[n := Drop(lists[n], k)][i]) {
      if i != n { UnlinkOther(hdrs, heads, lists, n, k, i); }
    }
  }

  ghost predicate OnNoList(lists: seq<seq<nat>>, b: nat) {
    forall i, k :: 0 <= i < |lists| && 0 <= k < |lists[i]| ==> lists[i][k] != b
  }

  /** The link updates of GC_add_to_fl, which puts `b` in front of `second`. */
  function LinkedBefore(hdrs: Headers, b: nat, second: nat): Headers
    requires b in hdrs && (second != 0 ==> second in hdrs)
  {
    var h1 := hdrs[b := hdrs[b].(next := second, prev := 0, free := true)];
    if second == 0 then h1 else h1[second := h1[second].(prev := b)]
  }

  lemma AddDistinct(lists: seq<seq<nat>>, n: nat, b: nat)
    requires Distinct(lists) && n < |lists| && OnNoList(lists, b)
    ensures Distinct(lists[n := [b] + lists[n]])
  {
    var lists' := lists[n := [b] + lists[n]];
    forall i: nat, j: nat, p: nat, m: nat, x: nat | At(lists', i, p, x) && At(lists', j, m, x)
      ensures i == j && p == m
    {
      var p': int, m': int := if i == n then p - 1 else p, if j == n then m - 1 else m;
      assert p' >= 0 ==> At(lists, i, p', x);
      assert m' >= 0 ==> At(lists, j, m', x);
    }
  }

  /** Adding a block to the front of list `n`. */
  lemma LinkKeepsChains(hdrs: Headers, heads: seq<nat>, lists: seq<seq<nat>>, n: nat, b: nat)
    requires Chains(hdrs, heads, lists) && n < |lists| && b in hdrs && b != 0 && OnNoList(lists, b)
    ensures heads[n] != 0 ==> heads[n] in hdrs
    ensures Chains(LinkedBefore(hdrs, b, heads[n]), heads[n := b], lists[n := [b] + lists[n]])
  {
    assert Chain(hdrs, heads[n], lists[n]);
    AddDistinct(lists, n, b);
    var h := LinkedBefore(hdrs, b, heads[n]);
    var l, l' := lists[n], [b] + lists[n];
    forall i | 0 <= i < |lists| && i != n ensures Chain(h, heads[i], lists[i]) {
      assert Chain(hdrs, heads[i], lists[i]);
      forall m | 0 <= m < |lists[i]| ensures h[lists[i][m]] == hdrs[lists[i][m]] {
        if |lists[n]| > 0 { Apart(lists, n, 0, i, m); }
      }
    }
    forall m | 0 <= m < |l'|
        ensures l'[m] in h && l'[m] != 0 && h[l'[m]].next == NextIn(l', m) && h[l'[m]].prev == PrevIn(l', m) {
      if m > 0 {
        assert l'[m] == l[m - 1] && l[m - 1] in hdrs && l[m - 1] != b;
        assert hdrs[l[m - 1]].next == NextIn(l, m - 1) && hdrs[l[m - 1]].prev == PrevIn(l, m - 1);
        Apart(lists, n, m - 1, n, 0);
      }
    }
    assert Chain(h, b, l');
  }

  /** The link updates of GC_split_block: `c` takes the place of `b` on its list. */
  function Replaced(hdrs: Headers, b: nat, c: nat): Headers
    requires b in hdrs && c in hdrs
    requires hdrs[b].prev != 0 ==> hdrs[b].prev in hdrs
    requires hdrs[b].next != 0 ==> hdrs[b].next in hdrs
  {
    var prev, next := hdrs[b].prev, hdrs[b].next;
    var h0 := hdrs[c := hdrs[c].(next := next, prev := prev)];
    var h1 := if prev == 0 then h0 else h0[prev := h0[prev].(next := c)];
    if next == 0 then h1 else h1[next := h1[next].(prev := c)]
  }

  lemma ReplaceDistinct(lists: seq<seq<nat>>, n: nat, k: nat, c: nat)
    requires Distinct(lists) && n < |lists| && k < |lists[n]| && OnNoList(lists, c)
    ensures Distinct(lists[n := Put(lists[n], k, c)])
  {
    var lists' := lists[n := Put(lists[n], k, c)];
    forall i: nat, j: nat, p: nat, m: nat, x: nat | At(lists', i, p, x) && At(lists', j, m, x)
      ensures i == j && p == m
    {
      assert !(i == n && p == k) ==> At(lists, i, p, x);
      assert !(j == n && m == k) ==> At(lists, j, m, x);
    }
  }

  lemma ReplaceThis(hdrs: Headers, heads: seq<nat>, lists: seq<seq<nat>>, n: nat, k: nat, c: nat)
    requires Chains(hdrs, heads, lists) && n < |lists| && k < |lists[n]| && c in hdrs && c != 0 && OnNoList(lists, c)
    ensures var b := lists[n][k];
            && b in hdrs
            && (hdrs[b].prev != 0 ==> hdrs[b].prev in hdrs)
            && (hdrs[b].next != 0 ==> hdrs[b].next in hdrs)
            && Chain(Replaced(hdrs, b, c), if hdrs[b].prev == 0 then c else heads[n], Put(lists[n], k, c))
  {
    LinksInTable(hdrs, heads, lists, n, k);
    var l, b := lists[n], lists[n][k];
    var l' := Put(l, k, c);
    assert Chain(hdrs, heads[n], l);
    assert hdrs[b].prev == PrevIn(l, k) && hdrs[b].next == NextIn(l, k);
    var h := Replaced(hdrs, b, c);
    forall m | 0 <= m < |l'|
      ensures l'[m] in h && l'[m] != 0 && h[l'[m]].next == NextIn(l', m) && h[l'[m]].prev == PrevIn(l', m)
    {
      assert l[m] in hdrs && l[m] != 0 && l[m] != c;
      assert hdrs[l[m]].next == NextIn(l, m) && hdrs[l[m]].prev == PrevIn(l, m);
      NotNeighbour(lists, n, k, n, m);
    }
  }

  function HeadsReplaced(hdrs: Headers, heads: seq<nat>, b: nat, n: nat, c: nat): seq<nat>
    requires b in hdrs && n < |heads|
  {
    if hdrs[b].prev == 0 then heads[n := c] else heads
  }

  lemma ReplacedBlocks(hdrs: Headers, b: nat, c: nat)
    requires b in hdrs && c in hdrs
    requires hdrs[b].prev != 0 ==> hdrs[b].prev in hdrs
    requires hdrs[b].next != 0 ==> hdrs[b].next in hdrs
    ensures SameBlocks(hdrs, Replaced(hdrs, b, c))
  {
  }

  lemma ReplaceOther(hdrs: Headers, heads: seq<nat>, lists: seq<seq<nat>>, n: nat, k: nat, c: nat, i: nat)
    requires Chains(hdrs, heads, lists) && n < |lists| && k < |lists[n]| && c in hdrs && OnNoList(lists, c)
    requires i < |lists| && i != n
    ensures var b := lists[n][k];
            && b in hdrs
            && (hdrs[b].prev != 0 ==> hdrs[b].prev in hdrs)
            && (hdrs[b].next != 0 ==> hdrs[b].next in hdrs)
            && Chain(Replaced(hdrs, b, c), heads[i], lists[i])
  {
    LinksInTable(hdrs, heads, lists, n, k);
    var l, b := lists[n], lists[n][k];
    assert Chain(hdrs, heads[n], l) && Chain(hdrs, heads[i], lists[i]);
    assert hdrs[b].prev == PrevIn(l, k) && hdrs[b].next == NextIn(l, k);
    var h := Replaced(hdrs, b, c);
    forall m | 0 <= m < |lists[i]| ensures h[lists[i][m]] == hdrs[lists[i][m]] {
      NotNeighbour(lists, n, k, i, m);
    }
  }

  /** Putting `c` in the place of the block at position `k` of list `n`. */
  lemma ReplaceKeepsChains(hdrs: Headers, heads: seq<nat>, lists: seq<seq<nat>>, n: nat, k: nat, c: nat)
    requires Chains(hdrs, heads, lists) && n < |lists| && k < |lists[n]| && c in hdrs && c != 0 && OnNoList(lists, c)
    ensures var b := lists[n][k];
            && b in hdrs
            && (hdrs[b].prev != 0 ==> hdrs[b].prev in hdrs)
            && (hdrs[b].next != 0 ==> hdrs[b].next in hdrs)
            && Chains(Replaced(hdrs, b, c), HeadsReplaced(hdrs, heads, b, n, c), lists[n := Put(lists[n], k, c)])
            && SameBlocks(hdrs, Replaced(hdrs, b, c))
  {
    LinksInTable(hdrs, heads, lists, n, k);
    var b := lists[n][k];
    ReplacedBlocks(hdrs, b, c);
    ReplaceThis(hdrs, heads, lists, n, k, c);
    ReplaceDistinct(lists, n, k, c);
    forall i | 0 <= i < |lists|
      ensures Chain(Replaced(hdrs, b, c), HeadsReplaced(hdrs, heads, b, n, c)[i], lists[n := Put(lists[n], k, c)][i])
    {
      if i != n { ReplaceOther(hdrs, heads, lists, n, k, c, i); }
    }
  }

  /** Headers of blocks on no list may come and go. */
  lemma ChainsOfLists(hdrs: Headers, hdrs': Headers, heads: seq<nat>, lists: seq<seq<nat>>)
    requires Chains(hdrs, heads, lists)
    requires forall i, k :: 0 <= i < |lists| && 0 <= k < |lists[i]| ==>
               lists[i][k] in hdrs' && (lists[i][k] in hdrs ==>
                   hdrs'[lists[i][k]].next == hdrs[lists[i][k]].next
                   && hdrs'[lists[i][k]].prev == hdrs[lists[i][k]].prev)
    ensures Chains(hdrs', heads, lists)
  {
  }

  // ---- Byte counts ----

  function ListBytes(hdrs: Headers, l: seq<nat>): nat {
    if l == [] then 0
    else (if l[0] in hdrs then hdrs[l[0]].sz else 0) + ListBytes(hdrs, l[1..])
  }

  lemma {:induction false} ListBytesSame(hdrs: Headers, hdrs': Headers, l: seq<nat>)
    requires forall k :: 0 <= k < |l| ==> l[k] in hdrs && l[k] in hdrs' && hdrs'[l[k]].sz == hdrs[l[k]].sz
    ensures ListBytes(hdrs', l) == ListBytes(hdrs, l)
  {
    if l != [] {
      ListBytesSame(hdrs, hdrs', l[1..]);
    }
  }

  lemma {:induction false} ListBytesDrop(hdrs: Headers, l: seq<nat>, k: nat)
    requires k < |l| && l[k] in hdrs
    ensures ListBytes(hdrs, l) == ListBytes(hdrs, Drop(l, k)) + hdrs[l[k]].sz
  {
    if k == 0 {
      assert Drop(l, 0) == l[1..];
    } else {
      ListBytesDrop(hdrs, l[1..], k - 1);
      assert Drop(l, k)[0] == l[0] && Drop(l, k)[1..] == Drop(l[1..], k - 1);
    }
  }

  function Total(counts: seq<int>): int {
    if counts == [] then 0 else counts[0] + Total(counts[1..])
  }

  lemma {:induction false} TotalUpdate(counts: seq<int>, n: nat, v: int)
    requires n < |counts|
    ensures Total(counts[n := v]) == Total(counts) - counts[n] + v
  {
    if n == 0 {
      assert counts[0 := v][1..] == counts[1..];
    } else {
      TotalUpdate(counts[1..], n - 1, v);
      assert counts[n := v][1..] == counts[1..][n - 1 := v];
    }
  }

  /** Each list's byte count is the sum of the sizes on it. */
  ghost predicate Counted(hdrs: Headers, lists: seq<seq<nat>>, counts: seq<int>) {
    |counts| == |lists| && forall i :: 0 <= i < |lists| ==> counts[i] == ListBytes(hdrs, lists[i])
  }
}
