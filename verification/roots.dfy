/** `findRoot`: following `linkedId` from a contact to the root of its cluster.
    The service's loop has no bound; the model stops after as many hops as
    the table has rows, and the lemmas below show that this cuts short only
    walks the unbounded loop would never finish. */
module Roots {
  import opened Contacts

  /** The walk stops at `id`: the row is missing, is primary, or has no link. */
  predicate Terminal(db: Table, id: Id) {
    id !in db || db[id].linkPrecedence == Primary || db[id].linkedId.None?
  }

  /** Where the walk from `id` stands after at most `hops` iterations. */
  function Walk(db: Table, id: Id, hops: nat): Id
    decreases hops
  {
    if Terminal(db, id) || hops == 0 then id
    else Walk(db, db[id].linkedId.value, hops - 1)
  }

  /** The id `findRoot` returns, with the hop bound set to the table size. */
  function RootOf(db: Table, id: Id): Id {
    Walk(db, id, |db|)
  }

  lemma {:induction false} WalkAdd(db: Table, id: Id, a: nat, b: nat)
    ensures Walk(db, id, a + b) == Walk(db, Walk(db, id, a), b)
    decreases a
  {
    if a > 0 && !Terminal(db, id) {
      WalkAdd(db, db[id].linkedId.value, a - 1, b);
    } else if a > 0 {
      assert Walk(db, id, a) == id;
      assert b > 0 ==> Walk(db, id, b) == id;
    }
  }

  /** Once the walk reaches a terminal node it stays there. */
  lemma WalkStays(db: Table, id: Id, a: nat, k: nat)
    requires Terminal(db, Walk(db, id, a)) && a <= k
    ensures Walk(db, id, k) == Walk(db, id, a)
  {
    WalkAdd(db, id, a, k - a);
    var w := Walk(db, id, a);
    assert Walk(db, w, k - a) == w;
  }

  function Visited(db: Table, id: Id, n: nat): set<Id> {
    set k | 0 <= k <= n :: Walk(db, id, k)
  }

  lemma {:induction false} VisitedCount(db: Table, id: Id, n: nat)
    requires forall i, j :: 0 <= i < j <= n ==> Walk(db, id, i) != Walk(db, id, j)
    ensures |Visited(db, id, n)| == n + 1
  {
    if n > 0 {
      VisitedCount(db, id, n - 1);
      assert Visited(db, id, n) == Visited(db, id, n - 1) + {Walk(db, id, n)};
      assert Walk(db, id, n) !in Visited(db, id, n - 1);
    } else {
      assert Visited(db, id, 0) == {id};
    }
  }

  /** A walk that is not over after |db| hops has visited some row twice. */
  lemma Pigeonhole(db: Table, id: Id)
    requires !Terminal(db, RootOf(db, id))
    ensures exists i, j :: 0 <= i < j <= |db| && Walk(db, id, i) == Walk(db, id, j) && !Terminal(db, Walk(db, id, j))
  {
    var n := |db|;
    forall k | 0 <= k <= n
      ensures !Terminal(db, Walk(db, id, k))
    {
      if Terminal(db, Walk(db, id, k)) {
        WalkStays(db, id, k, n);
      }
    }
    assert Visited(db, id, n) <= db.Keys;
    if forall i, j :: 0 <= i < j <= n ==> Walk(db, id, i) != Walk(db, id, j) {
      VisitedCount(db, id, n);
      SubsetSize(Visited(db, id, n), db.Keys);
      assert false;
    }
  }

  lemma {:induction false} SubsetSize<T>(a: set<T>, b: set<T>)
    requires a <= b
    ensures |a| <= |b|
    decreases |b|
  {
    if a != {} {
      var x :| x in a;
      SubsetSize(a - {x}, b - {x});
    }
  }

  /** A walk that revisits a non-terminal row goes round forever. */
  lemma {:induction false} CycleNeverEnds(db: Table, id: Id, i: nat, j: nat, k: nat)
    requires i < j && Walk(db, id, i) == Walk(db, id, j) && !Terminal(db, Walk(db, id, j))
    ensures !Terminal(db, Walk(db, id, k))
    decreases k
  {
    if k <= j {
      if Terminal(db, Walk(db, id, k)) {
        WalkStays(db, id, k, j);
      }
    } else {
      WalkAdd(db, id, j, k - j);
      WalkAdd(db, id, i, k - j);
      CycleNeverEnds(db, id, i, j, i + (k - j));
    }
  }

  /** The hop bound is sound: either the bounded walk ends on a missing,
      primary or unlinked row, as the service's loop does, or the service's
      loop never ends. */
  lemma RootOfEndsOrCycles(db: Table, id: Id)
    ensures Terminal(db, RootOf(db, id)) || forall k: nat :: !Terminal(db, Walk(db, id, k))
  {
    if !Terminal(db, RootOf(db, id)) {
      Pigeonhole(db, id);
      var i, j :| 0 <= i < j <= |db| && Walk(db, id, i) == Walk(db, id, j) && !Terminal(db, Walk(db, id, j));
      forall k: nat
        ensures !Terminal(db, Walk(db, id, k))
      {
        CycleNeverEnds(db, id, i, j, k);
      }
    }
  }

  /** Wherever the service's loop stops, the bounded walk returns that id. */
  lemma RootOfAgrees(db: Table, id: Id, k: nat)
    requires Terminal(db, Walk(db, id, k))
    ensures RootOf(db, id) == Walk(db, id, k)
  {
    RootOfEndsOrCycles(db, id);
    if !Terminal(db, RootOf(db, id)) {
      assert !Terminal(db, Walk(db, id, k));
    }
    if k <= |db| {
      WalkStays(db, id, k, |db|);
    } else {
      WalkStays(db, id, |db|, k);
    }
  }

  /** In a well-linked table the walk takes at most one hop and ends on a
      stored primary: the contact itself or the primary it links to. */
  lemma RootOfWellLinked(db: Table, id: Id)
    requires WellLinked(db) && id in db
    ensures RootOf(db, id) == if db[id].linkPrecedence == Primary then id else db[id].linkedId.value
    ensures RootOf(db, id) in db && db[RootOf(db, id)].linkPrecedence == Primary
  {
    assert LinkOk(db, db[id]);
    if db[id].linkPrecedence != Primary {
      var q := db[id].linkedId.value;
      assert Walk(db, id, 1) == q;
      RootOfAgrees(db, id, 1);
    }
  }
}
