/**
  Black lists (gc/blacklst.c): blocks that false pointers seem to refer to, kept as hashed
  bit tables, and the query the block allocator uses to step over them.

  Blocks are named by their number (address divided by HBLKSIZE).
 */
module BlackList {

  const WORDSZ := 64
  const PHT_ENTRIES := 0x40000

  type Table = t: seq<bool> | |t| == PHT_ENTRIES witness seq(PHT_ENTRIES, i => false)

  /** PHT_HASH of a block number. */
  function Hash(h: nat): (i: nat)
    ensures i < PHT_ENTRIES
  {
    h % PHT_ENTRIES
  }

  /** The table word holding entry `index` is zero. */
  predicate WordIsZero(t: Table, index: nat)
    requires index < PHT_ENTRIES
  {
    var w := index / WORDSZ;
    forall b :: w * WORDSZ <= b < (w + 1) * WORDSZ && b < PHT_ENTRIES ==> !t[b]
  }

  /** The scan always looks at the first block, even for a length below one block. */
  function AtLeastOne(n: nat): nat {
    if n == 0 then 1 else n
  }

  datatype Lists = Lists(
    allInteriorPointers: bool,
    oldNormal: Table,
    incompleteNormal: Table,
    oldStack: Table,
    incompleteStack: Table)
  {
    predicate NormalListed(h: nat) {
      !allInteriorPointers && (oldNormal[Hash(h)] || incompleteNormal[Hash(h)])
    }

    predicate StackListed(h: nat) {
      oldStack[Hash(h)] || incompleteStack[Hash(h)]
    }

    /** The naive definition: the first block is on a normal list, or one of the blocks on a stack list. */
    predicate BlackListed(h: nat, nblocks: nat) {
      NormalListed(h) || exists b :: h <= b < h + AtLeastOne(nblocks) && StackListed(b)
    }

    /**
      GC_is_black_listed, skipping a table word at a time. The result is 0 exactly when the
      blocks are not black-listed; otherwise every later start before it is black-listed too.
     */
    method IsBlackListed(h: nat, nblocks: nat) returns (r: nat)
      ensures r == 0 <==> !BlackListed(h, nblocks)
      ensures r != 0 ==> h < r <= h + AtLeastOne(nblocks)
      ensures forall q :: h < q < r ==> BlackListed(q, nblocks)
    {
      var index := Hash(h);
      if NormalListed(h) {
        return h + 1;
      }
      var i := 0;
      while true
        invariant (i == 0 || i < nblocks) && index == Hash(h + i)
        invariant forall b :: h <= b < h + i ==> !StackListed(b)
        decreases nblocks - i
      {
        if WordIsZero(oldStack, index) && WordIsZero(incompleteStack, index) {
          WordSkip(h, i);
          i := i + (WORDSZ - index % WORDSZ);
        } else {
          if oldStack[index] || incompleteStack[index] {
            assert StackListed(h + i);
            return h + i + 1;
          }
          i := i + 1;
        }
        if i >= nblocks { break; }
        index := Hash(h + i);
      }
      r := 0;
    }

    /** A zero word clears all blocks up to the next word boundary. */
    lemma WordSkip(h: nat, i: nat)
      requires var index := Hash(h + i); WordIsZero(oldStack, index) && WordIsZero(incompleteStack, index)
      ensures forall b :: h + i <= b < h + i + (WORDSZ - Hash(h + i) % WORDSZ) ==> !StackListed(b)
    {
      var index := Hash(h + i);
      forall b | h + i <= b < h + i + (WORDSZ - index % WORDSZ) ensures !StackListed(b) {
        HashRun(h + i, b - (h + i));
      }
    }

    /**
      The allocator's search: the least start from `from` to `last` at which `nblocks` blocks
      are not black-listed, or a start past `last` if there is none.
     */
    method FirstUsable(from: nat, last: nat, nblocks: nat) returns (r: nat)
      requires from <= last
      ensures from <= r <= last + AtLeastOne(nblocks)
      ensures r <= last ==> !BlackListed(r, nblocks)
      ensures forall q :: from <= q < r && q <= last ==> BlackListed(q, nblocks)
    {
      r := from;
      while r <= last
        invariant from <= r <= last + AtLeastOne(nblocks)
        invariant forall q :: from <= q < r && q <= last ==> BlackListed(q, nblocks)
        decreases last - r
      {
        var next := IsBlackListed(r, nblocks);
        if next == 0 { break; }
        r := next;
      }
    }
  }

  /** Within a table word, consecutive blocks have consecutive hashes. */
  lemma HashRun(h: nat, d: nat)
    requires d < WORDSZ - Hash(h) % WORDSZ
    ensures Hash(h + d) == Hash(h) + d
  {
  }
}
