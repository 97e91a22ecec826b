/**
  The chained hash tables of gc/finalize.c, which map disappearing links and finalizable objects
  to what is known about them. Keys are stored hidden, so that the collector does not take a table
  for a reference to the object. A table starts with no buckets and doubles as it fills.

  Main result: whatever is registered, removed, grown or filtered, the table represents a finite
  map: every entry sits in the bucket of its revealed key at the current size, no key occurs
  twice, and the count is the size of the map.
 */
module HashTable {

  const WORD_LIMIT := 0x1_0000_0000_0000_0000

  type Address = a: nat | a < WORD_LIMIT

  /** HIDE_POINTER, the complement of a 64-bit word; REVEAL_POINTER is the same operation. */
  function Hide(a: Address): (h: Address)
    ensures WORD_LIMIT - 1 - h == a
  {
    WORD_LIMIT - 1 - a
  }

  function Pow2(n: nat): (p: nat)
    ensures p > 0
  {
    if n == 0 then 1 else 2 * Pow2(n - 1)
  }

  function Xor(a: nat, b: nat): nat {
    if a == 0 && b == 0 then 0 else (if a % 2 == b % 2 then 0 else 1) + 2 * Xor(a / 2, b / 2)
  }

  function ShiftRight(a: nat, n: nat): nat
  {
    if n == 0 then a else ShiftRight(a / 2, n - 1)
  }

  function Mod(a: nat, n: nat): (r: nat)
    requires n > 0
    ensures r < n
  {
    a % n
  }

  /** HASH3 for a table of `Pow2(log)` buckets; masking with the size minus one is the remainder. */
  function Hash(a: Address, log: nat): (i: nat)
    ensures i < Pow2(log)
  {
    Mod(Xor(ShiftRight(a, 3), ShiftRight(a, 3 + log)), Pow2(log))
  }

  datatype Entry<V> = Entry(hidden: Address, value: V) {
    function Key(): Address { Hide(hidden) }
  }

  /** `log` is the binary logarithm of the number of buckets, -1 for a table not allocated yet. */
  datatype Table<V> = Table(log: int, buckets: seq<seq<Entry<V>>>, entries: int)

  function Empty<V>(): Table<V> { Table(-1, [], 0) }

  ghost predicate InChain<V>(chain: seq<Entry<V>>, a: Address) {
    exists j :: 0 <= j < |chain| && chain[j].Key() == a
  }

  /** Chain `i` holds exactly the map's entries that belong there, each once. */
  ghost predicate Holds<V>(chain: seq<Entry<V>>, m: map<Address, V>, log: nat, i: nat) {
    && (forall j :: 0 <= j < |chain| ==>
        chain[j].Key() in m && m[chain[j].Key()] == chain[j].value && Hash(chain[j].Key(), log) == i)
    && (forall j, k :: 0 <= j < k < |chain| ==> chain[j].Key() != chain[k].Key())
    && (forall a {:trigger InChain(chain, a)} :: a in m && Hash(a, log) == i ==> InChain(chain, a))
  }

  ghost predicate Represents<V>(t: Table<V>, m: map<Address, V>) {
    && t.entries == |m|
    && (if t.log == -1 then t.buckets == [] && m == map[]
        else
          && t.log >= 0 && |t.buckets| == Pow2(t.log)
          && forall i :: 0 <= i < |t.buckets| ==> Holds(t.buckets[i], m, t.log, i))
  }

  /** A new entry goes to the front of its chain. */
  function WithEntry<V>(t: Table<V>, a: Address, v: V): Table<V>
    requires t.log >= 0 && |t.buckets| == Pow2(t.log)
  {
    var i := Hash(a, t.log);
    t.(buckets := t.buckets[i := [Entry(Hide(a), v)] + t.buckets[i]], entries := t.entries + 1)
  }

  lemma WithEntryRepresents<V>(t: Table<V>, m: map<Address, V>, a: Address, v: V)
    requires Represents(t, m) && t.log >= 0 && a !in m
    ensures Represents(WithEntry(t, a, v), m[a := v])
  {
    var t', m' := WithEntry(t, a, v), m[a := v];
    forall i | 0 <= i < |t'.buckets| ensures Holds(t'.buckets[i], m', t.log, i) {
      WithEntryHolds(t.buckets[i], m, t.log, i, a, v);
    }
    assert m'.Keys == m.Keys + {a};
  }

  lemma WithEntryHolds<V>(chain: seq<Entry<V>>, m: map<Address, V>, log: nat, i: nat, a: Address, v: V)
    requires Holds(chain, m, log, i) && a !in m
    ensures Hash(a, log) == i ==> Holds([Entry(Hide(a), v)] + chain, m[a := v], log, i)
    ensures Hash(a, log) != i ==> Holds(chain, m[a := v], log, i)
  {
    if Hash(a, log) == i {
      var c := [Entry(Hide(a), v)] + chain;
      assert c[0].Key() == a;
      assert forall j :: 0 < j < |c| ==> c[j] == chain[j - 1];
      forall b | b in m[a := v] && Hash(b, log) == i ensures InChain(c, b) {
        if b != a {
          assert InChain(chain, b);
          var j :| 0 <= j < |chain| && chain[j].Key() == b;
          assert c[j + 1].Key() == b;
        }
      }
    }
  }

  /** Looking a key up: the position of its entry in its chain, or the length of the chain. */
  method Find<V>(t: Table<V>, a: Address, ghost m: map<Address, V>) returns (j: nat)
    requires Represents(t, m) && t.log >= 0
    ensures j <= |t.buckets[Hash(a, t.log)]| && (j < |t.buckets[Hash(a, t.log)]| <==> a in m)
    ensures a in m ==> t.buckets[Hash(a, t.log)][j] == Entry(Hide(a), m[a])
  {
    var chain := t.buckets[Hash(a, t.log)];
    assert Holds(chain, m, t.log, Hash(a, t.log));
    j := 0;
    while j < |chain| && chain[j].hidden != Hide(a)
      invariant j <= |chain| && forall k :: 0 <= k < j ==> chain[k].Key() != a
    {
      j := j + 1;
    }
    assert a in m ==> InChain(chain, a);
  }

  /** Changing the value of an entry in place. */
  function WithValue<V>(t: Table<V>, i: nat, j: nat, v: V): Table<V>
    requires i < |t.buckets| && j < |t.buckets[i]|
  {
    t.(buckets := t.buckets[i := t.buckets[i][j := t.buckets[i][j].(value := v)]])
  }

  lemma WithValueRepresents<V>(t: Table<V>, m: map<Address, V>, a: Address, j: nat, v: V)
    requires Represents(t, m) && t.log >= 0 && a in m && j < |t.buckets[Hash(a, t.log)]|
      && t.buckets[Hash(a, t.log)][j].Key() == a
    ensures Represents(WithValue(t, Hash(a, t.log), j, v), m[a := v])
  {
    var t', m' := WithValue(t, Hash(a, t.log), j, v), m[a := v];
    assert m'.Keys == m.Keys;
    forall i | 0 <= i < |t'.buckets| ensures Holds(t'.buckets[i], m', t.log, i) {
      var chain, chain' := t.buckets[i], t'.buckets[i];
      assert Holds(chain, m, t.log, i);
      assert forall k :: 0 <= k < |chain| ==> chain'[k].Key() == chain[k].Key();
      forall b | b in m' && Hash(b, t.log) == i ensures InChain(chain', b) {
        assert InChain(chain, b);
        var k :| 0 <= k < |chain| && chain[k].Key() == b;
        assert chain'[k].Key() == b;
      }
    }
  }

  /** Unlinking an entry from its chain. */
  function Without<V>(t: Table<V>, i: nat, j: nat): Table<V>
    requires i < |t.buckets| && j < |t.buckets[i]|
  {
    t.(buckets := t.buckets[i := t.buckets[i][..j] + t.buckets[i][j + 1..]], entries := t.entries - 1)
  }

  lemma WithoutRepresents<V>(t: Table<V>, m: map<Address, V>, a: Address, j: nat)
    requires Represents(t, m) && t.log >= 0 && a in m && j < |t.buckets[Hash(a, t.log)]|
      && t.buckets[Hash(a, t.log)][j].Key() == a
    ensures Represents(Without(t, Hash(a, t.log), j), m - {a})
  {
    var t', m' := Without(t, Hash(a, t.log), j), m - {a};
    assert m'.Keys == m.Keys - {a};
    forall i | 0 <= i < |t'.buckets| ensures Holds(t'.buckets[i], m', t.log, i) {
      assert Holds(t.buckets[i], m, t.log, i);
      if i == Hash(a, t.log) {
        WithoutHolds(t.buckets[i], m, t.log, i, a, j);
      }
    }
  }

  lemma WithoutHolds<V>(chain: seq<Entry<V>>, m: map<Address, V>, log: nat, i: nat, a: Address, j: nat)
    requires Holds(chain, m, log, i) && j < |chain| && chain[j].Key() == a
    ensures Holds(chain[..j] + chain[j + 1..], m - {a}, log, i)
  {
    var c := chain[..j] + chain[j + 1..];
    assert forall k :: 0 <= k < |c| ==> c[k] == chain[if k < j then k else k + 1];
    forall b | b in m - {a} && Hash(b, log) == i ensures InChain(c, b) {
      assert InChain(chain, b);
      var k :| 0 <= k < |chain| && chain[k].Key() == b;
      assert c[if k < j then k else k - 1].Key() == b;
    }
  }

  // ---- Growth ----

  function EmptyTable<V>(log: nat): Table<V> {
    Table(log, seq(Pow2(log), i => []), 0)
  }

  lemma EmptyRepresents<V>(log: nat)
    ensures Represents(EmptyTable<V>(log), map[])
  {
  }

  /** The first `j` entries of chain `i` and all entries of earlier chains are in `done`, and nothing else. */
  ghost predicate Moved<V>(t: Table<V>, m: map<Address, V>, done: map<Address, V>, i: nat, j: nat)
    requires t.log >= 0
  {
    && (forall a :: a in done ==> a in m && done[a] == m[a])
    && (forall a :: a in m ==> (a in done <==>
        Hash(a, t.log) < i || (Hash(a, t.log) == i < |t.buckets| && InPrefix(t.buckets[i], j, a))))
  }

  ghost predicate InPrefix<V>(chain: seq<Entry<V>>, j: nat, a: Address) {
    exists k :: 0 <= k < j && k < |chain| && chain[k].Key() == a
  }

  /** GC_grow_table: every entry moves to the front of its chain in a table of twice the size. */
  method Grow<V>(t: Table<V>, ghost m: map<Address, V>) returns (t': Table<V>)
    requires Represents(t, m)
    ensures Represents(t', m) && t'.log == t.log + 1
  {
    t' := EmptyTable(t.log + 1);
    EmptyRepresents<V>(t.log + 1);
    ghost var done: map<Address, V> := map[];
    var i := 0;
    if t.log == -1 { return; }
    while i < |t.buckets|
      invariant i <= |t.buckets| && t'.log == t.log + 1 && Represents(t', done) && Moved(t, m, done, i, 0)
    {
      t', done := MoveChain(t, i, t', m, done);
      i := i + 1;
    }
    assert done == m;
    t' := t'.(entries := t.entries);
  }

  method MoveChain<V>(t: Table<V>, i: nat, into: Table<V>, ghost m: map<Address, V>, ghost done: map<Address, V>)
    returns (t': Table<V>, ghost done': map<Address, V>)
    requires Represents(t, m) && i < |t.buckets| && t.log >= 0 && into.log == t.log + 1 && Represents(into, done)
      && Moved(t, m, done, i, 0)
    ensures t'.log == into.log && Represents(t', done') && Moved(t, m, done', i + 1, 0)
  {
    t', done' := into, done;
    var chain := t.buckets[i];
    assert Holds(chain, m, t.log, i);
    var j := 0;
    while j < |chain|
      invariant j <= |chain| && t'.log == into.log && Represents(t', done') && Moved(t, m, done', i, j)
    {
      var a := chain[j].Key();
      MoveStep(t, m, done', i, j);
      WithEntryRepresents(t', done', a, chain[j].value);
      t' := WithEntry(t', a, chain[j].value);
      done' := done'[a := chain[j].value];
      j := j + 1;
    }
    ChainMoved(t, m, done', i);
  }

  lemma MoveStep<V>(t: Table<V>, m: map<Address, V>, done: map<Address, V>, i: nat, j: nat)
    requires t.log >= 0 && i < |t.buckets| && Holds(t.buckets[i], m, t.log, i) && j < |t.buckets[i]|
      && Moved(t, m, done, i, j)
    ensures var e := t.buckets[i][j]; e.Key() !in done && Moved(t, m, done[e.Key() := e.value], i, j + 1)
  {
  }

  lemma ChainMoved<V>(t: Table<V>, m: map<Address, V>, done: map<Address, V>, i: nat)
    requires t.log >= 0 && i < |t.buckets| && Holds(t.buckets[i], m, t.log, i) && Moved(t, m, done, i, |t.buckets[i]|)
    ensures Moved(t, m, done, i + 1, 0)
  {
    forall a | a in m && Hash(a, t.log) == i ensures InPrefix(t.buckets[i], |t.buckets[i]|, a) {
      assert InChain(t.buckets[i], a);
    }
  }

  // ---- Registration and removal ----

  /**
    Grow when there are no buckets yet or more entries than buckets. Memory for a bigger table may
    not be available.
   */
  method MakeRoom<V>(t: Table<V>, canGrow: bool, ghost m: map<Address, V>) returns (t': Table<V>)
    requires Represents(t, m)
    ensures Represents(t', m) && (t'.log == -1 <==> t.log == -1 && !canGrow)
    ensures t'.log == (if canGrow && (t.log == -1 || t.entries > Pow2(t.log)) then t.log + 1 else t.log)
  {
    t' := t;
    if canGrow && (t.log == -1 || t.entries > Pow2(t.log)) {
      t' := Grow(t, m);
    }
  }

  /** Add an entry, or replace the value of the one there is. */
  method Put<V>(t: Table<V>, a: Address, v: V, ghost m: map<Address, V>) returns (t': Table<V>)
    requires Represents(t, m) && t.log >= 0
    ensures Represents(t', m[a := v]) && t'.log == t.log
  {
    var j := Find(t, a, m);
    var i := Hash(a, t.log);
    if j < |t.buckets[i]| {
      WithValueRepresents(t, m, a, j, v);
      t' := WithValue(t, i, j, v);
    } else {
      WithEntryRepresents(t, m, a, v);
      t' := WithEntry(t, a, v);
    }
  }

  /** Remove an entry, if there is one. */
  method Remove<V>(t: Table<V>, a: Address, ghost m: map<Address, V>) returns (t': Table<V>, found: bool)
    requires Represents(t, m) && t.log >= 0
    ensures Represents(t', m - {a}) && t'.log == t.log && (found <==> a in m)
  {
    var j := Find(t, a, m);
    var i := Hash(a, t.log);
    found := j < |t.buckets[i]|;
    if found {
      WithoutRepresents(t, m, a, j);
      t' := Without(t, i, j);
    } else {
      assert m - {a} == m;
      t' := t;
    }
  }

  // ---- Walking the whole table ----

  /** The part of the map that `keep` picks. */
  function Kept<V>(m: map<Address, V>, keep: (Address, V) -> bool): map<Address, V> {
    map a | a in m && keep(a, m[a]) :: m[a]
  }

  /** The map after the walk has passed the first `j` entries of chain `i`: of those, only kept ones remain. */
  ghost predicate Filtered<V>(m: map<Address, V>, now: map<Address, V>, log: nat, i: nat, keep: (Address, V) -> bool) {
    && (forall a :: a in now ==> a in m && now[a] == m[a])
    && (forall a :: a in m ==> (a in now <==> Hash(a, log) >= i || keep(a, m[a])))
  }

  /** A loop over all chains that unlinks the entries `keep` rejects, in the order met. */
  method Filter<V>(t: Table<V>, keep: (Address, V) -> bool, ghost m: map<Address, V>)
      returns (t': Table<V>, removed: seq<Address>)
    requires Represents(t, m)
    ensures Represents(t', Kept(m, keep)) && t'.log == t.log
    ensures forall a :: a in removed <==> a in m && !keep(a, m[a])
    ensures forall j, k :: 0 <= j < k < |removed| ==> removed[j] != removed[k]
  {
    t', removed := t, [];
    ghost var now := m;
    if t.log == -1 {
      assert Kept(m, keep) == m;
      return;
    }
    var i := 0;
    while i < |t.buckets|
      invariant i <= |t.buckets| && t'.log == t.log && |t'.buckets| == |t.buckets| && Represents(t', now)
        && Filtered(m, now, t.log, i, keep)
      invariant Rejected(m, now, removed)
    {
      t', removed, now := FilterChain(t', i, removed, keep, m, now);
      i := i + 1;
    }
    assert now == Kept(m, keep);
  }

  /** The removed keys, each listed once. */
  ghost predicate Rejected<V>(m: map<Address, V>, now: map<Address, V>, removed: seq<Address>) {
    && (forall a :: a in removed <==> a in m && a !in now)
    && (forall j, k :: 0 <= j < k < |removed| ==> removed[j] != removed[k])
  }

  method FilterChain<V>(t: Table<V>, i: nat, before: seq<Address>, keep: (Address, V) -> bool, ghost m: map<Address,
      V>, ghost m1: map<Address, V>)
    returns (t': Table<V>, removed: seq<Address>, ghost now: map<Address, V>)
    requires Represents(t, m1) && t.log >= 0 && i < |t.buckets| && Filtered(m, m1, t.log, i, keep)
      && Rejected(m, m1, before)
    ensures t'.log == t.log && |t'.buckets| == |t.buckets| && Represents(t', now)
      && Filtered(m, now, t.log, i + 1, keep) && Rejected(m, now, removed)
  {
    t', removed, now := t, before, m1;
    var j := 0;
    while j < |t'.buckets[i]|
      invariant t'.log == t.log && |t'.buckets| == |t.buckets| && j <= |t'.buckets[i]| && Represents(t', now)
      invariant forall a :: a in now ==> a in m && now[a] == m[a]
      invariant forall a :: a in m && Hash(a, t.log) != i ==> (a in now <==> a in m1)
      invariant forall a :: a in m && Hash(a, t.log) == i && keep(a, m[a]) ==> a in now
      invariant forall k :: 0 <= k < j ==> keep(t'.buckets[i][k].Key(), t'.buckets[i][k].value)
      invariant Rejected(m, now, removed)
      decreases |t'.buckets[i]| - j
    {
      var e := t'.buckets[i][j];
      assert Holds(t'.buckets[i], now, t.log, i);
      if keep(e.Key(), e.value) {
        j := j + 1;
      } else {
        WithoutRepresents(t', now, e.Key(), j);
        RejectStep(m, now, removed, e.Key());
        t', removed, now := Without(t', i, j), removed + [e.Key()], now - {e.Key()};
      }
    }
    assert Holds(t'.buckets[i], now, t.log, i);
    forall a | a in m && Hash(a, t.log) == i && a in now ensures keep(a, m[a]) {
      assert InChain(t'.buckets[i], a);
    }
  }

  lemma RejectStep<V>(m: map<Address, V>, now: map<Address, V>, removed: seq<Address>, a: Address)
    requires Rejected(m, now, removed) && a in m && a in now
    ensures Rejected(m, now - {a}, removed + [a])
  {
  }

  /** The keys of the table in the order a loop over all chains meets them. */
  method KeysInOrder<V>(t: Table<V>, ghost m: map<Address, V>) returns (keys: seq<Address>)
    requires Represents(t, m)
    ensures forall a :: a in keys <==> a in m
  {
    keys := [];
    if t.log == -1 { return; }
    var i := 0;
    while i < |t.buckets|
      invariant i <= |t.buckets| && forall a :: a in keys <==> a in m && Hash(a, t.log) < i
    {
      var chain := t.buckets[i];
      assert Holds(chain, m, t.log, i);
      ghost var old' := keys;
      var j := 0;
      while j < |chain|
        invariant j <= |chain| && forall a :: a in keys <==> a in old' || InPrefix(chain, j, a)
      {
        PrefixStep(chain, j);
        keys := keys + [chain[j].Key()];
        j := j + 1;
      }
      forall a ensures InPrefix(chain, |chain|, a) <==> a in m && Hash(a, t.log) == i {
        if a in m && Hash(a, t.log) == i { assert InChain(chain, a); }
      }
      i := i + 1;
    }
  }

  lemma PrefixStep<V>(chain: seq<Entry<V>>, j: nat)
    requires j < |chain|
    ensures forall b :: InPrefix(chain, j + 1, b) <==> InPrefix(chain, j, b) || b == chain[j].Key()
  {
  }
}
