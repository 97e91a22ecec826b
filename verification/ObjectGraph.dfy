/**
  The heap as the collector sees it: objects named by the address of their
  base, each holding a sequence of words.

  A word is a genuine reference (`Ptr`) or an ordinary integer (`Int`). A
  conservative scanner cannot tell the two apart and works on `Value()`;
  reachability, what the client may still use, follows `Ptr` only.
 */
module ObjectGraph {

  type Obj = nat

  datatype Word = Ptr(target: Obj) | Int(bits: nat) {
    function Value(): nat {
      if Ptr? then target else bits
    }
  }

  type Fields = map<Obj, seq<Word>>

  /** `path` starts in `start`, stays inside the allocated objects and follows genuine references. */
  ghost predicate IsPath(fields: Fields, start: set<Obj>, path: seq<Obj>) {
    && |path| > 0
    && path[0] in start
    && (forall k :: 0 <= k < |path| ==> path[k] in fields)
    && (forall k :: 0 < k < |path| ==> Ptr(path[k]) in fields[path[k - 1]])
  }

  ghost predicate Reachable(fields: Fields, start: set<Obj>, o: Obj) {
    exists path :: IsPath(fields, start, path) && path[|path| - 1] == o
  }

  /** No marked object refers to an unmarked one. */
  ghost predicate Closed(fields: Fields, marks: set<Obj>) {
    forall o, q :: o in fields && o in marks && Ptr(q) in fields[o] && q in fields ==> q in marks
  }

  lemma {:induction false} PathStaysMarked(fields: Fields, marks: set<Obj>, start: set<Obj>, path: seq<Obj>)
    requires Closed(fields, marks)
    requires forall o :: o in start && o in fields ==> o in marks
    requires IsPath(fields, start, path)
    ensures path[|path| - 1] in marks
  {
    if |path| > 1 {
      var front := path[..|path| - 1];
      assert IsPath(fields, start, front);
      PathStaysMarked(fields, marks, start, front);
      assert Ptr(path[|path| - 1]) in fields[front[|front| - 1]];
    }
  }

  /** A closed mark set that contains the start objects contains everything reachable from them. */
  lemma ClosedContainsReachable(fields: Fields, marks: set<Obj>, start: set<Obj>)
    requires Closed(fields, marks)
    requires forall o :: o in start && o in fields ==> o in marks
    ensures forall o :: Reachable(fields, start, o) ==> o in marks
  {
    forall o | Reachable(fields, start, o)
      ensures o in marks
    {
      var path :| IsPath(fields, start, path) && path[|path| - 1] == o;
      PathStaysMarked(fields, marks, start, path);
    }
  }

  /** One more edge keeps an object reachable. */
  lemma ReachableStep(fields: Fields, start: set<Obj>, o: Obj, q: Obj)
    requires Reachable(fields, start, o)
    requires o in fields && q in fields && Ptr(q) in fields[o]
    ensures Reachable(fields, start, q)
  {
    var path :| IsPath(fields, start, path) && path[|path| - 1] == o;
    var longer := path + [q];
    assert IsPath(fields, start, longer);
    assert longer[|longer| - 1] == q;
  }

  lemma ReachableTwice(fields: Fields, start: set<Obj>, o: Obj, q: Obj)
    requires Reachable(fields, start, o) && Reachable(fields, {o}, q)
    ensures Reachable(fields, start, q)
  {
    var first :| IsPath(fields, start, first) && first[|first| - 1] == o;
    var second :| IsPath(fields, {o}, second) && second[|second| - 1] == q;
    var path := first[..|first| - 1] + second;
    forall k | 0 < k < |path| ensures Ptr(path[k]) in fields[path[k - 1]] {
      if k == |first| - 1 { assert path[k] == first[k] && path[k - 1] == first[k - 1]; }
      if k >= |first| { assert path[k] == second[k - |first| + 1] && path[k - 1] == second[k - |first|]; }
    }
    assert IsPath(fields, start, path) && path[|path| - 1] == q;
  }

  /** The heap as a conservative scanner reads it: every word that could be a reference is one. */
  function AsPointers(fields: Fields): Fields {
    map o | o in fields :: seq(|fields[o]|, i requires 0 <= i < |fields[o]| => Ptr(fields[o][i].Value()))
  }

  /** A word of object `o` names `q`. */
  predicate Names(fields: Fields, o: Obj, q: Obj) {
    o in fields && exists i :: 0 <= i < |fields[o]| && fields[o][i].Value() == q
  }

  lemma NamesIsPointer(fields: Fields, o: Obj, q: Obj)
    requires o in fields
    ensures Names(fields, o, q) <==> Ptr(q) in AsPointers(fields)[o]
    ensures Ptr(q) in fields[o] ==> Names(fields, o, q)
  {
    var ptrs := AsPointers(fields);
    if i :| 0 <= i < |fields[o]| && fields[o][i].Value() == q {
      assert ptrs[o][i] == Ptr(q);
    }
    if Ptr(q) in fields[o] {
      var i :| 0 <= i < |fields[o]| && fields[o][i] == Ptr(q);
      assert fields[o][i].Value() == q;
    }
  }
}
