/**
  Excluded static roots (gc/mark_rts.c): a sorted table of address ranges that are not scanned,
  searched by bisection and updated in place.

  Main results: for ranges given in order, every accepted call adds exactly its range to the
  excluded addresses and keeps the table sorted and disjoint, and it does so only for those; and
  what is pushed for a root segment is the segment minus all exclusions.
 */
module Exclusions {

  const MAX_EXCLUSIONS := 512

  /** Addresses from `start` up to but not including `end`. */
  datatype Range = Range(start: nat, end: nat)

  /** Ascending and not overlapping. */
  ghost predicate Sorted(t: seq<Range>) {
    && (forall i :: 0 <= i < |t| ==> t[i].start <= t[i].end)
    && (forall i, j :: 0 <= i < j < |t| ==> t[i].end <= t[j].start)
  }

  ghost predicate Excluded(t: seq<Range>, a: nat) {
    exists i :: 0 <= i < |t| && t[i].start <= a < t[i].end
  }

  datatype Outcome = Inserted | ExtendedBack | Overlap | TooMany | Overrun

  /** What an accepted call should do. */
  ghost predicate Adds(t: seq<Range>, t': seq<Range>, start: nat, finish: nat) {
    Sorted(t') && forall a: nat :: Excluded(t', a) <==> Excluded(t, a) || start <= a < finish
  }

  function InsertedAt(t: seq<Range>, k: nat, r: Range): seq<Range>
    requires k <= |t|
  {
    t[..k] + [r] + t[k..]
  }

  lemma InsertSorted(t: seq<Range>, k: nat, r: Range)
    requires Sorted(t) && k <= |t| && r.start <= r.end
    requires forall i :: 0 <= i < k ==> t[i].end <= r.start
    requires k < |t| ==> r.end <= t[k].start
    ensures Sorted(InsertedAt(t, k, r))
  {
  }

  lemma InsertExcluded(t: seq<Range>, k: nat, r: Range, a: nat)
    requires k <= |t|
    ensures Excluded(InsertedAt(t, k, r), a) <==> Excluded(t, a) || r.start <= a < r.end
  {
    var t' := InsertedAt(t, k, r);
    if r.start <= a < r.end { assert t'[k] == r; }
    if Excluded(t, a) {
      var i :| 0 <= i < |t| && t[i].start <= a < t[i].end;
      if i < k { assert t'[i] == t[i]; } else { assert t'[i + 1] == t[i]; }
    }
    if Excluded(t', a) {
      var i :| 0 <= i < |t'| && t'[i].start <= a < t'[i].end;
      if i < k { assert t'[i] == t[i]; } else if i > k { assert t'[i] == t[i - 1]; } else { assert t'[i] == r; }
    }
  }

  lemma InsertAdds(t: seq<Range>, k: nat, start: nat, finish: nat)
    requires Sorted(t) && k <= |t|
    requires forall i :: 0 <= i < k ==> t[i].end <= start
    requires k < |t| ==> finish < t[k].start
    ensures Adds(t, InsertedAt(t, k, Range(start, finish)), start, finish) <==> start <= finish
  {
    var r := Range(start, finish);
    assert InsertedAt(t, k, r)[k] == r;
    if start <= finish {
      InsertSorted(t, k, r);
      forall a: nat ensures Excluded(InsertedAt(t, k, r), a) <==> Excluded(t, a) || start <= a < finish {
        InsertExcluded(t, k, r, a);
      }
    }
  }

  lemma ExtendAdds(t: seq<Range>, k: nat, start: nat, finish: nat)
    requires Sorted(t) && k < |t| && t[k].start == finish && start < t[k].end
    requires forall i :: 0 <= i < k ==> t[i].end <= start
    ensures Adds(t, t[k := t[k].(start := start)], start, finish) <==> start <= finish
  {
    var t' := t[k := t[k].(start := start)];
    if start <= finish {
      forall a: nat ensures Excluded(t', a) <==> Excluded(t, a) || start <= a < finish {
        if start <= a < t[k].end { assert t'[k].start <= a < t'[k].end; }
        if Excluded(t, a) {
          var i :| 0 <= i < |t| && t[i].start <= a < t[i].end;
          assert i != k ==> t'[i].start <= a < t'[i].end;
        }
        if Excluded(t', a) {
          var i :| 0 <= i < |t'| && t'[i].start <= a < t'[i].end;
          assert i != k ==> t[i].start <= a < t[i].end;
          assert i == k && a >= finish ==> t[k].start <= a < t[k].end;
        }
      }
    } else {
      assert t[k].start <= finish < t[k].end;
      assert Excluded(t, finish);
      forall i | 0 <= i < |t'| ensures !(t'[i].start <= finish < t'[i].end) {
        if i > k { assert t[k].end <= t[i].start; }
      }
    }
  }

  class Table {
    const ranges: array<Range>
    var entries: nat

    ghost predicate Valid()
      reads this
    {
      ranges.Length == MAX_EXCLUSIONS && entries <= MAX_EXCLUSIONS
    }

    ghost function Contents(): seq<Range>
      requires Valid()
      reads this, ranges
    {
      ranges[..entries]
    }

    constructor ()
      ensures Valid() && Contents() == [] && Sorted(Contents()) && fresh(ranges)
    {
      ranges := new Range[MAX_EXCLUSIONS](i => Range(0, 0));
      entries := 0;
    }

    /** GC_next_exclusion: by bisection, the first range that ends after `a`; `entries` if there is none. */
    method NextExclusion(a: nat) returns (k: nat)
      requires Valid() && entries > 0 && Sorted(Contents())
      ensures k <= entries && (k < entries ==> a < ranges[k].end)
      ensures forall i :: 0 <= i < k ==> ranges[i].end <= a
    {
      var low, high := 0, entries - 1;
      while high > low
        invariant 0 <= low <= high < entries
        invariant forall i :: 0 <= i < low ==> ranges[i].end <= a
        invariant high < entries - 1 ==> a < ranges[high].end
      {
        var mid := (low + high) / 2;
        if ranges[mid].end <= a {
          forall i | 0 <= i < mid ensures ranges[i].end <= a {
            assert Contents()[i].end <= Contents()[mid].start <= Contents()[mid].end;
          }
          low := mid + 1;
        } else {
          high := mid;
        }
      }
      if ranges[low].end <= a { return entries; }
      return low;
    }

    /**
      GC_exclude_static_roots. An accepted call does what it should exactly if its range is given in
      order; the code checks neither that nor, before it shifts entries, that the table has room.
     */
    method Exclude(start: nat, finish: nat) returns (r: Outcome)
      requires Valid() && Sorted(Contents())
      modifies this, ranges
      ensures Valid()
      ensures r == Inserted || r == ExtendedBack ==>
        (Adds(old(Contents()), Contents(), start, finish) <==> start <= finish)
      ensures r != Inserted && r != ExtendedBack ==> Contents() == old(Contents())
      ensures r == Overlap ==>
        exists i :: 0 <= i < |old(Contents())|
          && start < old(Contents())[i].end && old(Contents())[i].start < finish
      ensures r == TooMany || r == Overrun ==> |old(Contents())| == MAX_EXCLUSIONS
      ensures r == Overrun <==> |old(Contents())| == MAX_EXCLUSIONS && Shifts(old(Contents()), start, finish)
    {
      ghost var before := Contents();
      var k := entries;
      if entries > 0 {
        k := NextExclusion(start);
      }
      if k < entries {
        assert before[k] == ranges[k];
        NextIsFirst(before, start, k);
        if ranges[k].start < finish { return Overlap; }
        if ranges[k].start == finish {
          ExtendAdds(before, k, start, finish);
          ranges[k] := ranges[k].(start := start);
          assert Contents() == before[k := before[k].(start := start)];
          return ExtendedBack;
        }
        if entries == MAX_EXCLUSIONS { return Overrun; }
      } else {
        assert !Shifts(before, start, finish);
        if entries == MAX_EXCLUSIONS { return TooMany; }
      }
      InsertAdds(before, k, start, finish);
      InsertAt(k, Range(start, finish));
      return Inserted;
    }

    method InsertAt(k: nat, r: Range)
      requires Valid() && k <= entries < MAX_EXCLUSIONS
      modifies this, ranges
      ensures Valid() && Contents() == InsertedAt(old(Contents()), k, r)
    {
      ShiftUp(k);
      ranges[k] := r;
      entries := entries + 1;
    }

    /** Make a gap at position `k`, from the end down. */
    method ShiftUp(k: nat)
      requires Valid() && k <= entries < MAX_EXCLUSIONS
      modifies ranges
      ensures ranges[..k] == old(ranges[..k]) && ranges[k + 1..entries + 1] == old(ranges[k..entries])
    {
      var i := entries;
      while i > k
        invariant k <= i <= entries
        invariant forall j :: 0 <= j <= i && j < ranges.Length ==> ranges[j] == old(ranges[j])
        invariant forall j :: i < j <= entries ==> ranges[j] == old(ranges[j - 1])
      {
        ranges[i] := ranges[i - 1];
        i := i - 1;
      }
    }

    /** GC_push_conditional_with_exclusions: the ranges pushed for the segment from `bottom` to `top`. */
    method PushWithExclusions(bottom: nat, top: nat) returns (pushed: seq<Range>)
      requires Valid() && entries > 0 && Sorted(Contents())
      ensures forall a: nat :: Excluded(pushed, a) <==> bottom <= a < top && !Excluded(Contents(), a)
      ensures Sorted(pushed) && forall i :: 0 <= i < |pushed| ==> pushed[i].start < pushed[i].end
    {
      pushed := [];
      var b := bottom;
      while b < top
        invariant bottom <= b
        invariant forall a: nat :: Excluded(pushed, a) <==> bottom <= a < b && a < top && !Excluded(Contents(), a)
        invariant Sorted(pushed) && forall i :: 0 <= i < |pushed| ==> pushed[i].start < pushed[i].end <= b
        decreases top - b
      {
        var k := NextExclusion(b);
        var limit := if k == entries || ranges[k].start >= top then top else ranges[k].start;
        Gap(Contents(), k, b, limit);
        ghost var before := pushed;
        if limit > b {
          pushed := pushed + [Range(b, limit)];
          PushedMore(before, b, limit);
        }
        if k == entries || ranges[k].start >= top { return; }
        InRange(Contents(), k, b);
        b := ranges[k].end;
      }
    }
  }

  /** The range found is after `start`, in the middle of the table. */
  ghost predicate Shifts(t: seq<Range>, start: nat, finish: nat) {
    exists k :: 0 <= k < |t| && start < t[k].end && finish < t[k].start && forall i :: 0 <= i < k ==> t[i].end <= start
  }

  lemma NextIsFirst(t: seq<Range>, start: nat, k: nat)
    requires k < |t| && start < t[k].end && forall i :: 0 <= i < k ==> t[i].end <= start
    ensures forall finish: nat :: Shifts(t, start, finish) <==> finish < t[k].start
  {
  }

  /** Between an address and the next exclusion nothing is excluded. */
  lemma Gap(t: seq<Range>, k: nat, b: nat, limit: nat)
    requires Sorted(t) && k <= |t|
      && (forall i :: 0 <= i < k ==> t[i].end <= b) && (k < |t| ==> limit <= t[k].start || limit <= b)
    ensures forall a: nat :: b <= a < limit ==> !Excluded(t, a)
  {
  }

  lemma InRange(t: seq<Range>, k: nat, b: nat)
    requires k < |t|
    ensures forall a: nat :: b <= a < t[k].end && t[k].start <= a ==> Excluded(t, a)
  {
  }

  lemma PushedMore(p: seq<Range>, b: nat, limit: nat)
    requires b < limit
    ensures forall a: nat :: Excluded(p + [Range(b, limit)], a) <==> Excluded(p, a) || b <= a < limit
  {
    var q := p + [Range(b, limit)];
    forall a: nat ensures Excluded(q, a) <==> Excluded(p, a) || b <= a < limit {
      if Excluded(p, a) {
        var i :| 0 <= i < |p| && p[i].start <= a < p[i].end;
        assert q[i] == p[i];
      }
      if b <= a < limit { assert q[|p|].start <= a < q[|p|].end; }
    }
  }
}
