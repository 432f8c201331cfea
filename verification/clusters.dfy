/** One reconciliation request as a function of the table: the matching
    query, the roots, the cluster load, the election, the demotions, the
    extension and the response. `IdentityService.ContactStore.Reconcile`
    computes the same thing step by step. */
module Clusters {
  import opened Contacts
  import opened Roots
  import opened ResponseFormat

  /** The locked lookup: a contact matches when a present request identifier
      equals its column. An omitted identifier matches nothing. */
  predicate Matches(c: Contact, email: Option<string>, phone: Option<string>) {
    (Present(email) && c.email == email) || (Present(phone) && c.phoneNumber == phone)
  }

  function MatchIds(db: Table, email: Option<string>, phone: Option<string>): set<Id> {
    set id | id in db && Matches(db[id], email, phone)
  }

  /** `value || ''`: the parameter the raw query binds. */
  function OrEmpty(s: Option<string>): string {
    if Present(s) then s.value else ""
  }

  /** The raw query's condition as written: a column equals the bound
      parameter; a NULL column equals nothing. */
  predicate QueryMatches(c: Contact, email: Option<string>, phone: Option<string>) {
    || (c.email.Some? && c.email.value == OrEmpty(email))
    || (c.phoneNumber.Some? && c.phoneNumber.value == OrEmpty(phone))
  }

  /** The rows the raw query returns. */
  function QueryIds(db: Table, email: Option<string>, phone: Option<string>): set<Id> {
    set id | id in db && QueryMatches(db[id], email, phone)
  }

  /** On a table without empty-string columns the `''` bound for an omitted
      identifier matches no row, so the query returns exactly the contacts
      sharing a present identifier with the request. */
  lemma QueryAgrees(db: Table, email: Option<string>, phone: Option<string>)
    requires NoBlank(db)
    ensures QueryIds(db, email, phone) == MatchIds(db, email, phone)
  {
    forall id | id in db
      ensures QueryMatches(db[id], email, phone) <==> Matches(db[id], email, phone)
    {
      assert db[id].email != Some("") && db[id].phoneNumber != Some("");
    }
  }

  /** `rootPrimaryIds`: the roots of the given contacts. */
  function RootIds(db: Table, ids: set<Id>): set<Id> {
    set id | id in ids :: RootOf(db, id)
  }

  /** The cluster load: every row that is a root or links to one. */
  function ClusterIds(db: Table, roots: set<Id>): set<Id> {
    set id | id in db && (id in roots || (db[id].linkedId.Some? && db[id].linkedId.value in roots))
  }

  /** The contacts touched by a request that matched `matches`. */
  function Touched(db: Table, matches: set<Id>): set<Id> {
    ClusterIds(db, RootIds(db, matches))
  }

  /** The bounded walk from a stored contact ends on a stored row or on an id
      some stored row links to. */
  lemma {:induction false} WalkLandsNearTable(db: Table, id: Id, n: nat)
    requires id in db
    ensures Walk(db, id, n) in db ||
            exists y :: y in db && db[y].linkedId == Some(Walk(db, id, n))
    decreases n
  {
    if !Terminal(db, id) && n > 0 {
      var next := db[id].linkedId.value;
      if next in db {
        WalkLandsNearTable(db, next, n - 1);
      } else {
        assert Terminal(db, next);
        assert Walk(db, id, n) == next;
      }
    }
  }

  /** A request that matched something loads at least one contact, so the
      election always has a candidate. */
  lemma ClusterNonEmpty(db: Table, matches: set<Id>)
    requires matches != {} && matches <= db.Keys
    ensures Touched(db, matches) != {}
  {
    var m :| m in matches;
    var r := RootOf(db, m);
    assert r in RootIds(db, matches);
    WalkLandsNearTable(db, m, |db|);
    if r in db {
      assert r in Touched(db, matches);
    } else {
      var y :| y in db && db[y].linkedId == Some(r);
      assert y in Touched(db, matches);
    }
  }

  /** Creation order is a strict total order on a keyed table, so every
      non-empty set of stored ids has a first-created member. */
  lemma {:induction false} OldestOf(db: Table, k: set<Id>) returns (p: Id)
    requires Keyed(db) && k != {} && k <= db.Keys
    ensures p in k && forall q :: q in k && q != p ==> Before(db[p], db[q])
    decreases |k|
  {
    var x :| x in k;
    if k == {x} {
      p := x;
    } else {
      var y := OldestOf(db, k - {x});
      if Before(db[y], db[x]) {
        p := y;
      } else {
        assert db[y].id == y && db[x].id == x;
        assert Before(db[x], db[y]);
        p := x;
        forall q | q in k && q != x
          ensures Before(db[x], db[q])
        {
          if q != y {
            assert Before(db[y], db[q]);
          }
        }
      }
    }
  }

  lemma OldestExists(db: Table, k: set<Id>)
    requires Keyed(db) && k != {} && k <= db.Keys
    ensures exists p :: p in k && forall q :: q in k && q != p ==> Before(db[p], db[q])
  {
    var p := OldestOf(db, k);
  }

  /** The contact of `k` created first (lowest id on a `createdAt` tie). */
  function Oldest(db: Table, k: set<Id>): (p: Id)
    requires Keyed(db) && k != {} && k <= db.Keys
    ensures p in k && forall q :: q in k && q != p ==> Before(db[p], db[q])
  {
    OldestExists(db, k);
    var p :| p in k && forall q :: q in k && q != p ==> Before(db[p], db[q]);
    p
  }

  /** Ids listed in creation order, each row stored. */
  predicate AgeOrdered(db: Table, s: seq<Id>) {
    && (forall i :: 0 <= i < |s| ==> s[i] in db)
    && (forall i, j :: 0 <= i < j < |s| ==> Before(db[s[i]], db[s[j]]))
  }

  /** `findMany(... orderBy createdAt)` followed by the sort on `createdAt`:
      the ids of `k`, each once, oldest first. */
  function AgeSorted(db: Table, k: set<Id>): (r: seq<Id>)
    requires Keyed(db) && k <= db.Keys
    ensures |r| == |k| && AgeOrdered(db, r)
    ensures forall i :: 0 <= i < |r| ==> r[i] in k
    ensures forall x :: x in k ==> x in r
    decreases k
  {
    if k == {} then []
    else
      var p := Oldest(db, k);
      var rest := AgeSorted(db, k - {p});
      OlderFirst(db, p, rest);
      [p] + rest
  }

  lemma OlderFirst(db: Table, p: Id, rest: seq<Id>)
    requires p in db && AgeOrdered(db, rest)
    requires forall i :: 0 <= i < |rest| ==> Before(db[p], db[rest[i]])
    ensures AgeOrdered(db, [p] + rest)
  {
    var s := [p] + rest;
    forall i, j | 0 <= i < j < |s|
      ensures Before(db[s[i]], db[s[j]])
    {
      if i > 0 {
        assert s[i] == rest[i - 1] && s[j] == rest[j - 1];
      } else {
        assert s[j] == rest[j - 1];
      }
    }
  }

  /** Creation order is total on a keyed table: two ordered listings of the
      same ids are the same listing. */
  lemma {:induction false} AgeOrderedUnique(db: Table, s: seq<Id>, t: seq<Id>)
    requires Keyed(db) && AgeOrdered(db, s) && AgeOrdered(db, t)
    requires forall x :: x in s <==> x in t
    ensures s == t
    decreases |s|
  {
    assert s != [] ==> s[0] in t;
    assert t != [] ==> t[0] in s;
    if s != [] && t != [] {
      assert t[0] in s && s[0] in t;
      assert s[0] == t[0];
      forall x
        ensures x in s[1..] <==> x in t[1..]
      {
        if x in s[1..] {
          var i :| 0 <= i < |s| - 1 && s[1..][i] == x;
          assert Before(db[s[0]], db[s[i + 1]]);
          assert s[i + 1] in s;
          var j :| 0 <= j < |t| && t[j] == x;
          assert j != 0;
          assert t[1..][j - 1] == x;
        }
        if x in t[1..] {
          var j :| 0 <= j < |t| - 1 && t[1..][j] == x;
          assert Before(db[t[0]], db[t[j + 1]]);
          assert t[j + 1] in t;
          var i :| 0 <= i < |s| && s[i] == x;
          assert i != 0;
          assert s[1..][i - 1] == x;
        }
      }
      AgeOrderedUnique(db, s[1..], t[1..]);
    }
  }

  /** The demotion test of the loop: a contact other than the primary that is
      still primary, or links elsewhere. */
  predicate NeedsRepoint(c: Contact, p: Id) {
    c.id != p && (c.linkPrecedence == Primary || c.linkedId != Some(p))
  }

  function Repointed(c: Contact, p: Id, now: nat): Contact {
    c.(linkPrecedence := Secondary, linkedId := Some(p), updatedAt := now)
  }

  /** The table after the demotion loop over the contacts `k` with primary `p`. */
  function Demoted(db: Table, p: Id, k: set<Id>, now: nat): Table {
    map id | id in db :: if id in k && NeedsRepoint(db[id], p) then Repointed(db[id], p, now) else db[id]
  }

  /** Demoting one more contact updates at most that contact's row. */
  lemma DemotedStep(db: Table, p: Id, done: set<Id>, id: Id, now: nat)
    requires id in db && id !in done
    ensures Demoted(db, p, done + {id}, now) ==
            if NeedsRepoint(db[id], p) then Demoted(db, p, done, now)[id := Repointed(db[id], p, now)]
            else Demoted(db, p, done, now)
  {
  }

  /** `isNewEmail || isNewPhone`: the request carries a present value that no
      loaded contact holds. */
  predicate NeedsNew(loaded: seq<Contact>, email: Option<string>, phone: Option<string>) {
    || (Present(email) && email.value !in Values(loaded, Email))
    || (Present(phone) && phone.value !in Values(loaded, Phone))
  }

  /** The rows of the listed ids, in list order. */
  function Rows(db: Table, ids: seq<Id>): (r: seq<Contact>)
    requires forall i :: 0 <= i < |ids| ==> ids[i] in db
  {
    seq(|ids|, i requires 0 <= i < |ids| => db[ids[i]])
  }

  /** The row `create` inserts: nullable columns get `value || null`. */
  function NewContact(id: Id, email: Option<string>, phone: Option<string>,
                      linkedId: Option<Id>, precedence: Precedence, now: nat): Contact
  {
    Contact(id, Stored(email), Stored(phone), linkedId, precedence, now, now)
  }

  /** The table, the id counter and the response after one request. */
  datatype Outcome = Outcome(db: Table, nextId: Id, response: Response)

  /** One request at time `now`, as a single atomic step on the table. */
  function Resolve(db: Table, nextId: Id, now: nat, email: Option<string>, phone: Option<string>): Outcome
    requires StoreOk(db, nextId, now)
  {
    var matches := MatchIds(db, email, phone);
    if matches == {} then
      var c := NewContact(nextId, email, phone, None, Primary, now);
      Outcome(db[nextId := c], nextId + 1, Formatted(nextId, [c]))
    else
      Merge(db, nextId, now, email, phone)
  }

  /** A request that matched: elect, demote, extend, answer. */
  function Merge(db: Table, nextId: Id, now: nat, email: Option<string>, phone: Option<string>): Outcome
    requires StoreOk(db, nextId, now) && MatchIds(db, email, phone) != {}
  {
    var matches := MatchIds(db, email, phone);
    var k := Touched(db, matches);
    ClusterNonEmpty(db, matches);
    var order := AgeSorted(db, k);
    var p := order[0];
    var db1 := Demoted(db, p, k, now);
    var loaded := Rows(db1, order);
    if NeedsNew(loaded, email, phone) then
      var c := NewContact(nextId, email, phone, Some(p), Secondary, now);
      Outcome(db1[nextId := c], nextId + 1, Formatted(p, loaded + [c]))
    else
      Outcome(db1, nextId, Formatted(p, loaded))
  }
}
