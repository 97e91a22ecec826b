/**
  The map from request sizes in bytes to object sizes in granules (gc/misc.c), filled on demand.

  Main result: whatever extensions are made, a filled entry is large enough for its request and
  the extra byte at the end of objects, and never larger than the largest small object; an
  extension fills the entry asked for, and its searches for a free entry stop there at the latest.
 */
module SizeMap {

  const GRANULE_BYTES := 16
  const TINY_FREELISTS := 25
  const MAXOBJBYTES := 2048
  const MAXOBJGRANULES := 128
  const HBLK_GRANULES := 256

  /** ROUNDED_UP_GRANULES; `extra` is 1 if interior pointers past the end must be kept out, else 0. */
  function RoundedUp(n: nat, extra: nat): nat {
    (n + GRANULE_BYTES - 1 + extra) / GRANULE_BYTES
  }

  function Even(n: nat): nat {
    n - n % 2
  }

  /** The size chosen for a run of entries: even, and the largest of which as many fit in a block. */
  function Chosen(granules: nat): (g: nat)
    requires granules > 0
  {
    var even := Even(granules + 1);
    var capped := if even > MAXOBJGRANULES then MAXOBJGRANULES else even;
    Even(HBLK_GRANULES / (HBLK_GRANULES / capped))
  }

  lemma ChosenBounds(granules: nat)
    requires 0 < granules
    ensures Chosen(granules) <= MAXOBJGRANULES && Chosen(granules) > 0
    ensures granules <= MAXOBJGRANULES ==> granules <= Chosen(granules)
  {
    var even := Even(granules + 1);
    var capped := if even > MAXOBJGRANULES then MAXOBJGRANULES else even;
    var objs := HBLK_GRANULES / capped;
    assert 2 <= capped <= MAXOBJGRANULES && capped % 2 == 0;
    QuotientAtLeast(HBLK_GRANULES, capped, 2);
    assert objs * capped <= HBLK_GRANULES;
    QuotientAtLeast(HBLK_GRANULES, objs, capped);
    QuotientAtMost(HBLK_GRANULES, objs, 2, MAXOBJGRANULES);
  }

  lemma QuotientAtLeast(n: nat, d: nat, q: nat)
    requires d > 0 && q * d <= n
    ensures n / d >= q
  {
    var m := n / d;
    assert n == m * d + n % d;
    assert m < q ==> (m + 1) * d <= q * d;
  }

  lemma QuotientAtMost(n: nat, d: nat, least: nat, q: nat)
    requires 0 < least <= d && n <= least * q
    ensures n / d <= q
  {
  }

  class Map {
    const extra: nat
    const granules: array<nat>

    /** Filled entries are right, and the small ones are filled. */
    ghost predicate Valid()
      reads this, granules
    {
      && extra <= 1 && granules.Length == MAXOBJBYTES + 1
      && (forall j :: 0 <= j <= MAXOBJBYTES && granules[j] != 0 ==>
          j + extra <= granules[j] * GRANULE_BYTES && granules[j] <= MAXOBJGRANULES)
      && (forall j :: 0 <= j <= (TINY_FREELISTS - 1) * GRANULE_BYTES - extra ==> granules[j] != 0)
    }

    /** GC_init_size_map. */
    constructor (extra: nat)
      requires extra <= 1
      ensures Valid() && this.extra == extra && fresh(granules)
      ensures forall j :: 0 < j <= (TINY_FREELISTS - 1) * GRANULE_BYTES - extra ==> granules[j] == RoundedUp(j, extra)
    {
      this.extra := extra;
      granules := new nat[MAXOBJBYTES + 1](i => 0);
      new;
      granules[0] := 1;
      var i := 1;
      while i <= (TINY_FREELISTS - 1) * GRANULE_BYTES - extra
        invariant 1 <= i <= (TINY_FREELISTS - 1) * GRANULE_BYTES - extra + 1
        invariant granules[0] == 1
        invariant forall j :: 0 < j < i ==> granules[j] == RoundedUp(j, extra)
        invariant forall j :: i <= j < granules.Length ==> granules[j] == 0
      {
        granules[i] := RoundedUp(i, extra);
        i := i + 1;
      }
    }

    /** The first empty entry from `low` on, found at `i` at the latest. */
    method FirstEmpty(low: nat, i: nat) returns (j: nat)
      requires Valid() && low <= i <= MAXOBJBYTES && granules[i] == 0
      ensures low <= j <= i && granules[j] == 0 && forall k :: low <= k < j ==> granules[k] != 0
    {
      j := low;
      while granules[j] != 0
        invariant low <= j <= i && forall k :: low <= k < j ==> granules[k] != 0
        decreases i - j
      {
        j := j + 1;
      }
    }

    /** GC_extend_size_map, for the size of a small object whose entry is empty. */
    method Extend(i: nat)
      requires Valid() && i + extra <= MAXOBJBYTES && granules[i] == 0
      modifies granules
      ensures Valid() && granules[i] != 0
      ensures forall j :: 0 <= j <= MAXOBJBYTES && old(granules[j]) != 0 ==> granules[j] != 0
    {
      var orig := RoundedUp(i, extra);
      var size := orig;
      var bytes := size * GRANULE_BYTES;
      var smaller, muchSmaller := bytes - bytes / 8, bytes - bytes / 4;
      assert i + extra <= bytes <= i + extra + GRANULE_BYTES - 1;
      var low;
      if granules[smaller] == 0 {
        low := FirstEmpty(muchSmaller, i);
      } else {
        low := FirstEmpty(smaller + 1, i);
        size := RoundedUp(low, extra);
        size := size + size / 8;
        if size < orig { size := orig; }
      }
      ChosenBounds(size);
      ChosenBounds(orig);
      size := Chosen(size);
      bytes := size * GRANULE_BYTES - extra;
      var j := low;
      while j <= bytes
        invariant low <= j && bytes <= MAXOBJBYTES && (j <= bytes + 1 || j == low)
        invariant Valid()
        invariant forall k :: 0 <= k <= MAXOBJBYTES && (old(granules[k]) != 0 || low <= k < j) ==> granules[k] != 0
      {
        granules[j] := size;
        j := j + 1;
      }
    }
  }
}
