/**
  The map from addresses to block headers (gc/headers.c) and GC_base (gc/misc.c).

  An index entry is a header, for the first block of an allocated or free block; a forwarding
  count, for a later block of an allocated one; or nil. Entries live in bottom indices of
  BOTTOM_SZ entries each, linked in address order. A walk that leaves a bottom index restarts
  at the near end of the next one, wherever a forwarding count would have led.

  Block numbers stand for addresses divided by HBLKSIZE; 0 is the null pointer. `owner` gives
  the plain picture the index must agree with: which block each heap address belongs to.
 */
module BlockIndex {
  import opened FreeLists

  const BOTTOM_SZ := 1024
  const MAX_JUMP := HBLKSIZE - 1
  const WORD_BYTES := 8

  type Owner = map<nat, nat>

  /** OBJ_SZ_TO_BLOCKS. */
  function Blocks(sz: nat): nat {
    (sz + HBLKSIZE - 1) / HBLKSIZE
  }

  function Jump(distance: nat): nat {
    if distance > MAX_JUMP then MAX_JUMP else distance
  }

  predicate Inside(hdrs: Headers, b: nat, a: nat) {
    b in hdrs && b <= a < b + Blocks(hdrs[b].sz)
  }

  /** Where a block ends: the number of the block after it. */
  function End(hdrs: Headers, b: nat): nat {
    if b in hdrs then b + Blocks(hdrs[b].sz) else b
  }

  predicate FreeAt(hdrs: Headers, a: nat) {
    a in hdrs && hdrs[a].free
  }

  ghost predicate NoFreeBefore(hdrs: Headers, a: nat) {
    forall c {:trigger End(hdrs, c)} :: FreeAt(hdrs, c) ==> End(hdrs, c) != a
  }

  /** The heap addresses are tiled by the blocks: each belongs to exactly one. */
  ghost predicate Tiled(hdrs: Headers, owner: Owner) {
    && (forall b :: b in hdrs ==> b > 0 && hdrs[b].sz > 0 && (hdrs[b].free ==> hdrs[b].sz % HBLKSIZE == 0))
    && (forall b, a :: Inside(hdrs, b, a) ==> a in owner && owner[a] == b)
    && (forall a :: a in owner ==> Inside(hdrs, owner[a], a))
  }

  /** A block after the first of an allocated one. */
  predicate Interior(hdrs: Headers, owner: Owner, a: nat) {
    a in owner && owner[a] != a && owner[a] in hdrs && !hdrs[owner[a]].free
  }

  /** Forwarding counts are right, except possibly inside block `but`. */
  ghost predicate Forwarded(hdrs: Headers, fwd: map<nat, nat>, owner: Owner, but: nat) {
    && (forall a :: a in fwd ==> a in owner && owner[a] < a)
    && (forall a :: a in owner && owner[a] != but ==> (a in fwd <==> Interior(hdrs, owner, a)))
    && (forall a :: a in fwd && owner[a] != but ==> fwd[a] == Jump(a - owner[a]))
  }

  /** The linked bottom indices are in ascending order and every entry has one. */
  ghost predicate KeysOk(hdrs: Headers, fwd: map<nat, nat>, keys: seq<nat>) {
    && Ascending(keys)
    && (forall a {:trigger HasKey(keys, a)} :: a in hdrs || a in fwd ==> HasKey(keys, a))
  }

  ghost predicate Ascending(keys: seq<nat>) {
    forall i, j :: 0 <= i < j < |keys| ==> keys[i] < keys[j]
  }

  /** There is a bottom index for address `a`. */
  ghost predicate HasKey(keys: seq<nat>, a: nat) {
    a / BOTTOM_SZ in keys
  }

  /** The bottom indices `keys'` serve all addresses `keys` did, and `a`. */
  ghost predicate Grown(keys: seq<nat>, keys': seq<nat>, a: nat) {
    Ascending(keys') && HasKey(keys', a) && forall b {:trigger HasKey(keys', b)} :: HasKey(keys, b) ==> HasKey(keys', b)
  }

  function Inserted(keys: seq<nat>, i: nat, hi: nat): seq<nat>
    requires i <= |keys|
  {
    keys[..i] + [hi] + keys[i..]
  }

  lemma InsertAscending(keys: seq<nat>, i: nat, hi: nat)
    requires Ascending(keys) && i <= |keys|
    requires (forall k :: 0 <= k < i ==> keys[k] < hi) && (i < |keys| ==> hi < keys[i])
    ensures Ascending(Inserted(keys, i, hi))
  {
  }

  lemma InsertMembers(keys: seq<nat>, i: nat, hi: nat)
    requires i <= |keys|
    ensures forall k :: k in Inserted(keys, i, hi) <==> k in keys || k == hi
  {
  }

  /** An interior block is not the start of any block. */
  lemma HeaderOwnsItself(hdrs: Headers, owner: Owner, b: nat)
    requires Tiled(hdrs, owner) && b in hdrs
    ensures b in owner && owner[b] == b
  {
    assert Inside(hdrs, b, b);
  }

  /** Following a forwarding count from `a` skips no block start and does not pass the owner. */
  lemma JumpIsSafe(hdrs: Headers, fwd: map<nat, nat>, owner: Owner, but: nat, a: nat)
    requires Tiled(hdrs, owner) && Forwarded(hdrs, fwd, owner, but)
    requires a in fwd && owner[a] != but
    ensures 0 < fwd[a] <= a - owner[a]
    ensures forall b :: b in hdrs && b <= a ==> b <= a - fwd[a]
  {
    assert Inside(hdrs, owner[a], a);
    forall b | b in hdrs && b <= a ensures b <= owner[a] {
      if b > owner[a] {
        assert Inside(hdrs, owner[a], b);
        HeaderOwnsItself(hdrs, owner, b);
      }
    }
  }

  // ---- Objects ----

  /** Byte address of the `k`th object of block `b`. */
  function ObjectStart(hdrs: Headers, b: nat, k: nat): nat
    requires b in hdrs
  {
    b * HBLKSIZE + k * hdrs[b].sz
  }

  /** Block `b` in use holds a `k`th object: the first, or a later one that still fits its block. */
  ghost predicate IsObject(hdrs: Headers, b: nat, k: nat) {
    b in hdrs && !hdrs[b].free && (k == 0 || ObjectStart(hdrs, b, k) + hdrs[b].sz <= (b + 1) * HBLKSIZE)
  }

  ghost predicate InObject(hdrs: Headers, b: nat, k: nat, p: nat) {
    IsObject(hdrs, b, k) && ObjectStart(hdrs, b, k) <= p < ObjectStart(hdrs, b, k) + hdrs[b].sz
  }

  lemma QuotientUnique(x: nat, d: nat, k: nat)
    requires d > 0 && k * d <= x < k * d + d
    ensures k == x / d && x % d == x - k * d
  {
    var q, m := x / d, x % d;
    assert x == q * d + m;
    assert q < k ==> (q + 1) * d <= k * d;
    assert k < q ==> (k + 1) * d <= q * d;
  }

  /** Rounding an address down to a word stays within the block. */
  lemma RoundedInBlock(p: nat)
    ensures var t := p % WORD_BYTES;
            (p - t) % HBLKSIZE == p % HBLKSIZE - t && p - t == (p / HBLKSIZE) * HBLKSIZE + (p % HBLKSIZE - t)
                && (p % HBLKSIZE - t) % WORD_BYTES == 0
  {
  }

  /** The remainder of whole words by a whole number of words is whole words. */
  lemma WordRemainder(offset: nat, sz: nat)
    requires sz > 0 && sz % WORD_BYTES == 0 && offset % WORD_BYTES == 0
    ensures (offset % sz) % WORD_BYTES == 0 && offset == (offset / sz) * sz + offset % sz
      && offset % sz + WORD_BYTES <= sz
  {
    var u, v := sz / WORD_BYTES, offset / WORD_BYTES;
    var k := v / u;
    assert v == k * u + v % u;
    assert k * sz == WORD_BYTES * (k * u);
    QuotientUnique(offset, sz, k);
    assert offset % sz == WORD_BYTES * (v % u);
  }

  /** Rounding an address down to a word does not change the object it falls into. */
  lemma BaseInBlock(p: nat, sz: nat)
    requires sz > 0 && sz % WORD_BYTES == 0
    ensures var offset := (p - p % WORD_BYTES) % HBLKSIZE;
            var k := offset / sz;
            && (p - p % WORD_BYTES) - offset % sz == (p / HBLKSIZE) * HBLKSIZE + k * sz
            && (p / HBLKSIZE) * HBLKSIZE + k * sz <= p
            && (p % HBLKSIZE) / sz == k
  {
    var t := p % WORD_BYTES;
    var offset := (p - t) % HBLKSIZE;
    RoundedInBlock(p);
    WordRemainder(offset, sz);
    QuotientUnique(offset + t, sz, offset / sz);
  }

  /** At most one object of a block can contain a given byte. */
  lemma SameObject(hdrs: Headers, h: nat, m: nat, p: nat)
    requires InObject(hdrs, h, m, p) && hdrs[h].sz > 0
    ensures h == p / HBLKSIZE ==> m == (p % HBLKSIZE) / hdrs[h].sz
    ensures h != p / HBLKSIZE ==> m == 0
  {
    var sz := hdrs[h].sz;
    if h == p / HBLKSIZE {
      assert p == h * HBLKSIZE + p % HBLKSIZE;
      QuotientUnique(p % HBLKSIZE, sz, m);
    }
  }

  /** An object lies within the extent of its block. */
  lemma ObjectInExtent(hdrs: Headers, owner: Owner, b: nat, k: nat, p: nat)
    requires Tiled(hdrs, owner) && InObject(hdrs, b, k, p)
    ensures p / HBLKSIZE in owner && owner[p / HBLKSIZE] == b
  {
    assert k > 0 ==> k * hdrs[b].sz >= 0;
    assert b * HBLKSIZE <= p;
    assert p < (b + Blocks(hdrs[b].sz)) * HBLKSIZE;
    assert Inside(hdrs, b, p / HBLKSIZE);
  }

  datatype Index = Index(hdrs: Headers, fwd: map<nat, nat>, keys: seq<nat>) {

    ghost predicate Sound(owner: Owner, but: nat) {
      Tiled(hdrs, owner) && Forwarded(hdrs, fwd, owner, but) && KeysOk(hdrs, fwd, keys)
    }

    /** GET_BI: the position of a bottom index, or `|keys|` for GC_all_nils. */
    method FindKey(hi: nat) returns (i: nat)
      ensures i <= |keys| && (i < |keys| ==> keys[i] == hi) && (i == |keys| ==> hi !in keys)
    {
      i := 0;
      while i < |keys| && keys[i] != hi
        invariant i <= |keys| && hi !in keys[..i]
      {
        i := i + 1;
      }
    }

    /** get_index: make sure there is a bottom index for an address, keeping them in order. */
    method GetIndex(a: nat) returns (ix: Index)
      requires Ascending(keys)
      ensures ix == this.(keys := ix.keys) && Grown(keys, ix.keys, a)
      ensures forall k :: k in ix.keys <==> k in keys || k == a / BOTTOM_SZ
    {
      var hi := a / BOTTOM_SZ;
      var found := FindKey(hi);
      if found < |keys| {
        return this;
      }
      var i := 0;
      while i < |keys| && keys[i] < hi
        invariant i <= |keys| && forall k :: 0 <= k < i ==> keys[k] < hi
      {
        i := i + 1;
      }
      InsertAscending(keys, i, hi);
      InsertMembers(keys, i, hi);
      ix := this.(keys := Inserted(keys, i, hi));
    }

    /** GC_install_counts: bottom indices and forwarding counts for the `n` blocks from `h` on. */
    method InstallCounts(h: nat, n: nat) returns (ix: Index)
      requires n > 0 && KeysOk(hdrs, fwd, keys)
      ensures ix == this.(fwd := ix.fwd, keys := ix.keys) && KeysOk(ix.hdrs, ix.fwd, ix.keys)
      ensures forall a :: a in ix.fwd <==> a in fwd || h < a < h + n
      ensures forall a :: a in ix.fwd ==> ix.fwd[a] == if h < a < h + n then Jump(a - h) else fwd[a]
    {
      ix := this;
      var a := h;
      ghost var j := 0;
      while a < h + n
        invariant a == h + j * BOTTOM_SZ < h + n + BOTTOM_SZ
        invariant ix == this.(keys := ix.keys) && KeysOk(hdrs, fwd, ix.keys)
        invariant forall q :: h / BOTTOM_SZ <= q < h / BOTTOM_SZ + j ==> q in ix.keys
      {
        ix := ix.GetIndex(a);
        a, j := a + BOTTOM_SZ, j + 1;
      }
      ix := ix.GetIndex(h + n - 1);
      forall b | h <= b < h + n ensures b / BOTTOM_SZ in ix.keys {
        assert h / BOTTOM_SZ <= b / BOTTOM_SZ <= (h + n - 1) / BOTTOM_SZ <= h / BOTTOM_SZ + j;
      }
      ghost var keys' := ix.keys;
      a := h + 1;
      while a < h + n
        invariant h < a <= h + n && ix.keys == keys'
        invariant ix == this.(fwd := ix.fwd, keys := ix.keys) && KeysOk(ix.hdrs, ix.fwd, ix.keys)
        invariant forall b :: b in ix.fwd <==> b in fwd || h < b < a
        invariant forall b :: b in ix.fwd ==> ix.fwd[b] == if h < b < a then Jump(b - h) else fwd[b]
      {
        ix := ix.(fwd := ix.fwd[a := Jump(a - h)]);
        a := a + 1;
      }
    }

    /** GC_remove_counts. */
    method RemoveCounts(h: nat, n: nat) returns (ix: Index)
      requires n > 0
      ensures ix == this.(fwd := ix.fwd)
      ensures forall a :: a in ix.fwd <==> a in fwd && !(h < a < h + n)
      ensures forall a :: a in ix.fwd ==> ix.fwd[a] == fwd[a]
    {
      ix := this;
      var a := h + 1;
      while a < h + n
        invariant h < a <= h + n
        invariant ix == this.(fwd := ix.fwd)
        invariant forall b :: b in ix.fwd <==> b in fwd && !(h < b < a)
        invariant forall b :: b in ix.fwd ==> ix.fwd[b] == fwd[b]
      {
        ix := ix.(fwd := ix.fwd - {a});
        a := a + 1;
      }
    }

    /** GC_prev_block: the last block starting at or before `h`, in use or free; 0 if there is none. */
    method PrevBlock(h: nat, ghost owner: Owner, ghost but: nat) returns (r: nat)
      requires Sound(owner, but) && (but in hdrs ==> but > h)
      ensures r == 0 ==> forall b :: b in hdrs ==> b > h
      ensures r != 0 ==> r in hdrs && r <= h && forall b :: b in hdrs && b <= h ==> b <= r
    {
      var i: int := FindKey(h / BOTTOM_SZ);
      var j: int := h % BOTTOM_SZ;
      if i == |keys| {
        i := |keys| - 1;
        while i >= 0 && keys[i] > h / BOTTOM_SZ
          invariant -1 <= i < |keys|
          invariant forall k :: i < k < |keys| ==> keys[k] > h / BOTTOM_SZ
        {
          i := i - 1;
        }
        j := BOTTOM_SZ - 1;
      }
      assert forall b :: b in hdrs ==> HasKey(keys, b);
      while i >= 0
        invariant -1 <= i < |keys| && j < BOTTOM_SZ
        invariant i >= 0 ==> forall b :: b in hdrs && b <= h ==> b <= keys[i] * BOTTOM_SZ + j
        invariant i >= 0 ==> j >= 0 && keys[i] * BOTTOM_SZ + j <= h
        invariant i < 0 ==> forall b :: b in hdrs ==> b > h
        decreases i
      {
        r, j := LastIn(i, j, h, owner, but);
        if r != 0 { return; }
        LowerKey(i, keys[i] * BOTTOM_SZ + j, h);
        j := BOTTOM_SZ - 1;
        i := i - 1;
      }
      r := 0;
    }

    /**
      The last block starting in one bottom index, from offset `from` down; 0, with an offset below
      the first, if there is none.
     */
    method LastIn(i: nat, from: int, h: nat, ghost owner: Owner, ghost but: nat) returns (r: nat, j: int)
      requires Sound(owner, but) && (but in hdrs ==> but > h) && i < |keys| && -1 <= from < BOTTOM_SZ
        && keys[i] * BOTTOM_SZ + from <= h
      requires forall b :: b in hdrs && b <= h ==> b <= keys[i] * BOTTOM_SZ + from
      ensures r != 0 ==> r in hdrs && r <= h && forall b :: b in hdrs && b <= h ==> b <= r
      ensures r == 0 ==> j < 0 && forall b :: b in hdrs && b <= h ==> b <= keys[i] * BOTTOM_SZ + j
    {
      j := from;
      while j >= 0
        invariant j < BOTTOM_SZ && keys[i] * BOTTOM_SZ + j <= h
        invariant forall b :: b in hdrs && b <= h ==> b <= keys[i] * BOTTOM_SZ + j
        decreases j
      {
        var a := keys[i] * BOTTOM_SZ + j;
        if a in hdrs {
          return a, j;
        } else if a in fwd {
          JumpIsSafe(hdrs, fwd, owner, but, a);
          j := j - fwd[a];
        } else {
          j := j - 1;
        }
      }
      r := 0;
    }

    lemma Ordered(i: int, j: int)
      requires KeysOk(hdrs, fwd, keys)
      ensures 0 <= i < j < |keys| ==> keys[i] < keys[j]
    {
    }

    /** No block starts between the end of one bottom index and the start of the next. */
    lemma LowerKey(i: nat, limit: int, h: nat)
      requires KeysOk(hdrs, fwd, keys) && i < |keys|
      requires limit < keys[i] * BOTTOM_SZ <= h + BOTTOM_SZ
      requires forall b :: b in hdrs && b <= h ==> b <= limit
      ensures i > 0 ==> forall b :: b in hdrs && b <= h ==> b <= keys[i - 1] * BOTTOM_SZ + BOTTOM_SZ - 1
      ensures i == 0 ==> forall b :: b in hdrs ==> b > h
      ensures i > 0 ==> keys[i - 1] * BOTTOM_SZ + BOTTOM_SZ - 1 < keys[i] * BOTTOM_SZ
    {
      forall b | b in hdrs && b <= h ensures i > 0 && b <= keys[i - 1] * BOTTOM_SZ + BOTTOM_SZ - 1 {
        assert HasKey(keys, b);
        var k :| 0 <= k < |keys| && keys[k] == b / BOTTOM_SZ;
        Ordered(i, k);
        Ordered(k, i - 1);
      }
    }

    /** GC_next_used_block: the first allocated block starting at or after `h`; 0 if there is none. */
    method NextUsedBlock(h: nat, ghost owner: Owner) returns (r: nat)
      requires Sound(owner, 0)
      ensures r == 0 ==> forall b :: b in hdrs && !hdrs[b].free ==> b < h
      ensures r != 0 ==>
          r in hdrs && !hdrs[r].free && h <= r && forall b :: b in hdrs && !hdrs[b].free && h <= b ==> r <= b
    {
      var i := FindKey(h / BOTTOM_SZ);
      var j := h % BOTTOM_SZ;
      if i == |keys| {
        i := 0;
        while i < |keys| && keys[i] < h / BOTTOM_SZ
          invariant i <= |keys| && forall k :: 0 <= k < i ==> keys[k] < h / BOTTOM_SZ
        {
          i := i + 1;
        }
        j := 0;
      }
      assert forall b :: b in hdrs ==> HasKey(keys, b);
      while i < |keys|
        invariant i <= |keys|
        invariant forall b :: b in hdrs && !hdrs[b].free && h <= b ==> i < |keys| && keys[i] * BOTTOM_SZ + j <= b
        invariant i < |keys| ==> h <= keys[i] * BOTTOM_SZ + j && (j < BOTTOM_SZ || j == 0)
        decreases |keys| - i
      {
        while j < BOTTOM_SZ
          invariant forall b :: b in hdrs && !hdrs[b].free && h <= b ==> keys[i] * BOTTOM_SZ + j <= b
          invariant h <= keys[i] * BOTTOM_SZ + j
          decreases BOTTOM_SZ - j
        {
          var a := keys[i] * BOTTOM_SZ + j;
          if a !in hdrs {
            j := j + 1;
          } else if !hdrs[a].free {
            return a;
          } else {
            FreeBlockHoldsNoStart(hdrs, owner, a);
            j := j + hdrs[a].sz / HBLKSIZE;
          }
        }
        HigherKey(i, keys[i] * BOTTOM_SZ + j, h);
        j := 0;
        i := i + 1;
      }
      r := 0;
    }

    lemma HigherKey(i: nat, limit: nat, h: nat)
      requires KeysOk(hdrs, fwd, keys) && i < |keys|
      requires limit >= (keys[i] + 1) * BOTTOM_SZ
      requires forall b :: b in hdrs && !hdrs[b].free && h <= b ==> limit <= b
      ensures forall b :: b in hdrs && !hdrs[b].free && h <= b ==> i + 1 < |keys| && keys[i + 1] * BOTTOM_SZ <= b
    {
      forall b | b in hdrs && !hdrs[b].free && h <= b ensures i + 1 < |keys| && keys[i + 1] * BOTTOM_SZ <= b {
        assert HasKey(keys, b);
        var k :| 0 <= k < |keys| && keys[k] == b / BOTTOM_SZ;
        Ordered(k, i);
        Ordered(i + 1, k);
      }
    }

    /** GC_free_block_ending_at: the free block that ends just before `h`, if there is one. */
    method FreeBlockEndingAt(h: nat, ghost owner: Owner, ghost but: nat) returns (r: nat)
      requires Sound(owner, but) && h > 0 && (but in hdrs ==> but >= h)
      requires h in hdrs || h !in owner
      ensures r != 0 ==> FreeAt(hdrs, r) && End(hdrs, r) == h
      ensures r == 0 ==> NoFreeBefore(hdrs, h)
    {
      var p := h - 1;
      while p in fwd
        invariant p < h && (p < h - 1 ==> p in owner && Interior(hdrs, owner, h - 1) && owner[h - 1] == owner[p])
        decreases p
      {
        assert Inside(hdrs, owner[p], p);
        JumpIsSafe(hdrs, fwd, owner, but, p);
        assert Inside(hdrs, owner[p], p - fwd[p]);
        p := p - fwd[p];
      }
      EndsAt(hdrs, owner, h);
      if p in hdrs {
        HeaderOwnsItself(hdrs, owner, p);
        r := if hdrs[p].free then p else 0;
      } else {
        var q := PrevBlock(h - 1, owner, but);
        r := if q != 0 && hdrs[q].free && q + Blocks(hdrs[q].sz) == h then q else 0;
        if h - 1 in owner && q != 0 {
          OnlyStartInside(hdrs, owner, owner[h - 1], q, h - 1);
        }
      }
    }

    /** The header entry for an address, found by following forwarding counts. */
    method FindOwner(a: nat, ghost owner: Owner) returns (h: nat)
      requires Sound(owner, 0) && (a in hdrs || a in fwd)
      ensures h in hdrs && a in owner && owner[a] == h
    {
      h := a;
      if a in hdrs { HeaderOwnsItself(hdrs, owner, a); }
      while h in fwd
        invariant h in hdrs || h in fwd
        invariant h in owner && a in owner && owner[h] == owner[a]
        decreases h
      {
        assert Inside(hdrs, owner[h], h);
        JumpIsSafe(hdrs, fwd, owner, 0, h);
        assert Inside(hdrs, owner[h], h - fwd[h]);
        h := h - fwd[h];
      }
      HeaderOwnsItself(hdrs, owner, h);
    }

    /** GC_base: the start of the object containing byte `p`; 0 if no object contains it. */
    method Base(p: nat, ghost owner: Owner) returns (r: nat)
      requires Sound(owner, 0)
      requires forall b :: b in hdrs && !hdrs[b].free ==> hdrs[b].sz % WORD_BYTES == 0
      ensures r != 0 ==> exists b, k :: InObject(hdrs, b, k, p) && r == ObjectStart(hdrs, b, k)
      ensures r == 0 ==> forall b, k :: !InObject(hdrs, b, k, p)
    {
      var a := p / HBLKSIZE;
      if a !in hdrs && a !in fwd {
        NoObjectThere(owner, p);
        return 0;
      }
      var h := FindOwner(a, owner);
      if hdrs[h].free {
        NoObjectThere(owner, p);
        return 0;
      }
      r := Candidate(p, h, hdrs[h].sz);
      ghost var k := CandidateIsStart(owner, p, h);
      var limit := r + hdrs[h].sz;
      if (limit > (h + 1) * HBLKSIZE && hdrs[h].sz <= HBLKSIZE) || p >= limit {
        return 0;
      }
      assert InObject(hdrs, h, k, p);
    }

    lemma NoObjectThere(owner: Owner, p: nat)
      requires Sound(owner, 0)
      requires var a := p / HBLKSIZE;
               (a !in hdrs && a !in fwd) || (a in owner && owner[a] in hdrs && hdrs[owner[a]].free)
      ensures forall b, k :: !InObject(hdrs, b, k, p)
    {
      forall b, k ensures !InObject(hdrs, b, k, p) {
        if InObject(hdrs, b, k, p) {
          ObjectInExtent(hdrs, owner, b, k, p);
        }
      }
    }

    /** The candidate is the start of the only object that can contain `p`. */
    lemma CandidateIsStart(owner: Owner, p: nat, h: nat) returns (k: nat)
      requires Tiled(hdrs, owner)
      requires p / HBLKSIZE in owner && owner[p / HBLKSIZE] == h && h in hdrs && !hdrs[h].free
      requires hdrs[h].sz > 0 && hdrs[h].sz % WORD_BYTES == 0
      ensures Candidate(p, h, hdrs[h].sz) == ObjectStart(hdrs, h, k) <= p
      ensures hdrs[h].sz > HBLKSIZE ==> k == 0
      ensures forall b, m :: InObject(hdrs, b, m, p) ==> b == h && m == k
    {
      assert Inside(hdrs, h, p / HBLKSIZE);
      if h == p / HBLKSIZE {
        CandidateInBlock(p, hdrs[h].sz);
        k := Position(p, hdrs[h].sz);
      } else {
        CandidateFromBack(p, h, hdrs[h].sz);
        k := 0;
      }
      OnlyObject(hdrs, owner, h, k, p);
    }
  }

  function Position(p: nat, sz: nat): nat
    requires sz > 0
  {
    (p % HBLKSIZE) / sz
  }

  lemma OnlyObject(hdrs: Headers, owner: Owner, h: nat, k: nat, p: nat)
    requires Tiled(hdrs, owner) && p / HBLKSIZE in owner && owner[p / HBLKSIZE] == h && h in hdrs && hdrs[h].sz > 0
    requires if h == p / HBLKSIZE then k == Position(p, hdrs[h].sz) else k == 0
    ensures forall b, m :: InObject(hdrs, b, m, p) ==> b == h && m == k
  {
    forall b, m | InObject(hdrs, b, m, p) ensures b == h && m == k {
      ObjectInExtent(hdrs, owner, b, m, p);
      SameObject(hdrs, h, m, p);
    }
  }

  function Remainder(a: nat, n: nat): (r: nat)
    requires n > 0
    ensures r < n && r <= a
  {
    a % n
  }

  /** The address arithmetic of GC_base: round down to a word, then to a multiple of the object size. */
  function Candidate(p: nat, h: nat, sz: nat): nat
    requires sz > 0
  {
    var q := if h == p / HBLKSIZE then p else h * HBLKSIZE;
    var r := q - q % WORD_BYTES;
    r - Remainder(r % HBLKSIZE, sz)
  }

  /** From a later block of a large object the candidate is its first byte. */
  lemma CandidateFromBack(p: nat, h: nat, sz: nat)
    requires sz > 0 && h < p / HBLKSIZE
    ensures Candidate(p, h, sz) == h * HBLKSIZE <= p
  {
    var q := h * HBLKSIZE;
    assert q % WORD_BYTES == 0 && q % HBLKSIZE == 0;
    assert 0 % sz == 0;
  }

  lemma CandidateInBlock(p: nat, sz: nat)
    requires sz > 0 && sz % WORD_BYTES == 0
    ensures var h := p / HBLKSIZE; Candidate(p, h, sz) == h * HBLKSIZE + ((p % HBLKSIZE) / sz) * sz <= p
    ensures sz > HBLKSIZE ==> (p % HBLKSIZE) / sz == 0
  {
    BaseInBlock(p, sz);
    if sz > HBLKSIZE {
      QuotientUnique(p % HBLKSIZE, sz, 0);
    }
  }

  lemma OnlyStartInside(hdrs: Headers, owner: Owner, b: nat, q: nat, a: nat)
    requires Tiled(hdrs, owner) && a in owner && owner[a] == b && q in hdrs && b <= q <= a
    ensures q == b
  {
    assert Inside(hdrs, b, a);
    assert Inside(hdrs, b, q);
    HeaderOwnsItself(hdrs, owner, q);
  }

  /** A block that ends at `h` is the one owning the address before it. */
  lemma EndsAt(hdrs: Headers, owner: Owner, h: nat)
    requires Tiled(hdrs, owner) && h > 0 && (h in hdrs || h !in owner)
    ensures forall b :: b in hdrs && b + Blocks(hdrs[b].sz) == h ==> h - 1 in owner && owner[h - 1] == b
    ensures h - 1 in owner ==> owner[h - 1] in hdrs && owner[h - 1] + Blocks(hdrs[owner[h - 1]].sz) == h
  {
    forall b | b in hdrs && b + Blocks(hdrs[b].sz) == h ensures h - 1 in owner && owner[h - 1] == b {
      assert Inside(hdrs, b, h - 1);
    }
    if h - 1 in owner {
      var b := owner[h - 1];
      assert Inside(hdrs, b, h - 1);
      if Inside(hdrs, b, h) {
        assert owner[h] == b;
        HeaderOwnsItself(hdrs, owner, h);
      }
    }
  }

  lemma FreeBlockHoldsNoStart(hdrs: Headers, owner: Owner, a: nat)
    requires Tiled(hdrs, owner) && a in hdrs
    ensures forall b :: b in hdrs && a < b ==> a + hdrs[a].sz / HBLKSIZE <= b
  {
    forall b | b in hdrs && a < b ensures a + hdrs[a].sz / HBLKSIZE <= b {
      if b < a + Blocks(hdrs[a].sz) {
        assert Inside(hdrs, a, b);
        HeaderOwnsItself(hdrs, owner, b);
      }
    }
  }
}