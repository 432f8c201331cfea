/** What one reconciliation request guarantees, stated over `Clusters.Resolve`
    (and so over `IdentityService.ContactStore.Reconcile`, which computes it). */
module Properties {
  import opened Contacts
  import opened Roots
  import opened ResponseFormat
  import opened Clusters

  /** The contacts a request touches: the clusters of every matched contact. */
  function Cluster(db: Table, email: Option<string>, phone: Option<string>): set<Id> {
    Touched(db, MatchIds(db, email, phone))
  }

  /** The contact a matched request elects: the one it touches that was
      created first (an equal `createdAt` goes to the lower id). */
  function Elected(db: Table, email: Option<string>, phone: Option<string>): (p: Id)
    requires Keyed(db) && MatchIds(db, email, phone) != {}
    ensures p in Cluster(db, email, phone) && p in db
    ensures forall q :: q in Cluster(db, email, phone) && q != p ==> Before(db[p], db[q])
  {
    ClusterNonEmpty(db, MatchIds(db, email, phone));
    var order := AgeSorted(db, Cluster(db, email, phone));
    assert forall q :: q in Cluster(db, email, phone) && q != order[0] ==> Before(db[order[0]], db[q]) by {
      forall q | q in Cluster(db, email, phone) && q != order[0]
        ensures Before(db[order[0]], db[q])
      {
        var j :| 0 <= j < |order| && order[j] == q;
      }
    }
    order[0]
  }

  /** The present values of column `f` among the contacts `k`. */
  function ColumnValues(db: Table, k: set<Id>, f: Field): set<string> {
    set id | id in k && id in db && Present(Get(db[id], f)) :: Get(db[id], f).value
  }

  // ---------------------------------------------------------------------
  // No match: a fresh primary

  /** A request that matches no stored contact inserts exactly one row, a
      primary without link carrying the request's identifiers, and answers
      with that contact alone. */
  lemma FreshRequestCreatesPrimary(db: Table, nextId: Id, now: nat, email: Option<string>, phone: Option<string>)
    requires StoreOk(db, nextId, now)
    requires MatchIds(db, email, phone) == {}
    ensures var o := Resolve(db, nextId, now, email, phone);
      && nextId !in db
      && o.nextId == nextId + 1
      && o.db == db[nextId := Contact(nextId, Stored(email), Stored(phone), None, Primary, now, now)]
      && o.response == Response(nextId,
                                if Present(email) then [email.value] else [],
                                if Present(phone) then [phone.value] else [],
                                [])
  {
    var c := NewContact(nextId, email, phone, None, Primary, now);
    var cs := [c];
    assert FindContact(cs, nextId) == Some(c);
    assert cs[..|cs| - 1] == [];
    assert Collect(Seed(cs, nextId, Email), cs, Email) == AddValue(Seed(cs, nextId, Email), c.email);
    assert Collect(Seed(cs, nextId, Phone), cs, Phone) == AddValue(Seed(cs, nextId, Phone), c.phoneNumber);
    assert OthersThan(cs, nextId) == [];
  }

  // ---------------------------------------------------------------------
  // Election

  /** The response names the elected contact, the oldest touched one, as
      primary: its `createdAt` is no later than that of any touched contact. */
  lemma ElectsOldest(db: Table, nextId: Id, now: nat, email: Option<string>, phone: Option<string>)
    requires StoreOk(db, nextId, now)
    requires MatchIds(db, email, phone) != {}
    ensures var p := Resolve(db, nextId, now, email, phone).response.primaryContactId;
      && p == Elected(db, email, phone)
      && forall q :: q in Cluster(db, email, phone) ==> db[p].createdAt <= db[q].createdAt
  {
  }

  // ---------------------------------------------------------------------
  // Demotion

  /** After a matched request every touched contact other than the elected
      one is a secondary linked straight to it; the elected contact is left
      as it was; a row is rewritten only when it was touched and was primary
      or linked elsewhere, and then only its link, precedence and update
      time change. */
  lemma DemotionLinksCluster(db: Table, nextId: Id, now: nat, email: Option<string>, phone: Option<string>)
    requires StoreOk(db, nextId, now)
    requires MatchIds(db, email, phone) != {}
    ensures var o := Resolve(db, nextId, now, email, phone);
            var p := Elected(db, email, phone);
            var k := Cluster(db, email, phone);
      && db.Keys <= o.db.Keys
      && (forall q :: q in k && q != p ==> o.db[q].linkPrecedence == Secondary && o.db[q].linkedId == Some(p))
      && o.db[p] == db[p]
      && (forall q :: q in db && !(q in k && NeedsRepoint(db[q], p)) ==> o.db[q] == db[q])
      && (forall q :: q in db && q in k && NeedsRepoint(db[q], p) ==> o.db[q] == Repointed(db[q], p, now))
  {
    var k := Cluster(db, email, phone);
    ClusterNonEmpty(db, MatchIds(db, email, phone));
    var p := Elected(db, email, phone);
    var o := Resolve(db, nextId, now, email, phone);
    MatchedShape(db, nextId, now, email, phone);
    var db1 := Demoted(db, p, k, now);
    DemotedSpec(db, p, k, now);
    assert nextId !in db;
    assert forall q :: q in db ==> q in o.db && o.db[q] == db1[q];
  }

  /** A matched request leaves the demoted table, possibly with one row added
      under the next id. */
  lemma MatchedShape(db: Table, nextId: Id, now: nat, email: Option<string>, phone: Option<string>)
    requires StoreOk(db, nextId, now)
    requires MatchIds(db, email, phone) != {}
    ensures var o := Resolve(db, nextId, now, email, phone);
            var db1 := Demoted(db, Elected(db, email, phone), Cluster(db, email, phone), now);
      && (o.db == db1 || (o.db == db1[nextId := o.db[nextId]] && nextId in o.db))
  {
  }

  lemma DemotedSpec(db: Table, p: Id, k: set<Id>, now: nat)
    requires Keyed(db) && p in k && k <= db.Keys
    ensures var db1 := Demoted(db, p, k, now);
      && db1.Keys == db.Keys
      && (forall q :: q in k && q != p ==> db1[q].linkPrecedence == Secondary && db1[q].linkedId == Some(p))
      && db1[p] == db[p]
      && (forall q :: q in db && !(q in k && NeedsRepoint(db[q], p)) ==> db1[q] == db[q])
      && (forall q :: q in db && q in k && NeedsRepoint(db[q], p) ==> db1[q] == Repointed(db[q], p, now))
  {
  }


  /** The election order of a matched request starts with the elected
      contact and lists stored rows only. */
  lemma ElectionOrder(db: Table, email: Option<string>, phone: Option<string>, now: nat)
    requires Keyed(db) && MatchIds(db, email, phone) != {}
    ensures var k := Cluster(db, email, phone);
            var order := AgeSorted(db, k);
      && |order| > 0 && order[0] == Elected(db, email, phone)
      && (forall i :: 0 <= i < |order| ==> order[i] in Demoted(db, order[0], k, now))
  {
    ClusterNonEmpty(db, MatchIds(db, email, phone));
  }

  /** The first request's outcome on a matched table, spelled out over the
      election order. */
  lemma MatchedOutcome(db: Table, nextId: Id, now: nat, email: Option<string>, phone: Option<string>)
    requires StoreOk(db, nextId, now) && MatchIds(db, email, phone) != {}
    ensures var o := Resolve(db, nextId, now, email, phone);
            var k := Cluster(db, email, phone);
            var order := AgeSorted(db, k);
            var p := Elected(db, email, phone);
            var db1 := Demoted(db, p, k, now);
            var c := NewContact(nextId, email, phone, Some(p), Secondary, now);
      && (forall i :: 0 <= i < |order| ==> order[i] in db1)
      && (o.nextId == nextId ==> o.db == db1 && o.response == Formatted(p, Rows(db1, order)))
      && (o.nextId != nextId ==> o.db == db1[nextId := c] && o.response == Formatted(p, Rows(db1, order) + [c]))
      && (o.nextId != nextId <==> NeedsNew(Rows(db1, order), email, phone))
  {
    ElectionOrder(db, email, phone, now);
    var k := Cluster(db, email, phone);
    var order := AgeSorted(db, k);
    var db1 := Demoted(db, order[0], k, now);
    var o := Resolve(db, nextId, now, email, phone);
    if NeedsNew(Rows(db1, order), email, phone) {
      assert o.nextId == nextId + 1;
    } else {
      assert o.nextId == nextId;
    }
  }

  /** Demotion rewrites only links, precedence and update time. */
  lemma DemotedKeepsColumns(db: Table, p: Id, k: set<Id>, now: nat)
    requires Keyed(db) && p in k && k <= db.Keys
    ensures var db1 := Demoted(db, p, k, now);
      forall q :: q in db ==> && db1[q].id == db[q].id && db1[q].createdAt == db[q].createdAt
                              && db1[q].email == db[q].email && db1[q].phoneNumber == db[q].phoneNumber
  {
  }

  /** Demotion keeps creation order. */
  lemma DemotedOrder(db: Table, p: Id, k: set<Id>, now: nat, order: seq<Id>)
    requires Keyed(db) && p in k && k <= db.Keys && AgeOrdered(db, order)
    ensures AgeOrdered(Demoted(db, p, k, now), order)
  {
    DemotedKeepsColumns(db, p, k, now);
  }

  // ---------------------------------------------------------------------
  // Extension

  lemma LoadedValues(db: Table, p: Id, k: set<Id>, now: nat, order: seq<Id>, f: Field)
    requires k <= db.Keys && Elems(order) == k
    ensures forall i :: 0 <= i < |order| ==> order[i] in Demoted(db, p, k, now)
    ensures Values(Rows(Demoted(db, p, k, now), order), f) == ColumnValues(db, k, f)
  {
    var db1 := Demoted(db, p, k, now);
    var loaded := Rows(db1, order);
    forall x
      ensures x in Values(loaded, f) <==> x in ColumnValues(db, k, f)
    {
      if x in Values(loaded, f) {
        var i :| 0 <= i < |loaded| && Present(Get(loaded[i], f)) && Get(loaded[i], f).value == x;
        assert Get(loaded[i], f) == Get(db[order[i]], f);
        assert order[i] in Elems(order);
      }
      if x in ColumnValues(db, k, f) {
        var id :| id in k && id in db && Present(Get(db[id], f)) && Get(db[id], f).value == x;
        assert id in Elems(order);
        var i :| 0 <= i < |order| && order[i] == id;
        assert Get(loaded[i], f) == Get(db[id], f);
      }
    }
  }

  /** A matched request inserts a contact exactly when its email or its phone
      is present and missing from the touched contacts; the inserted contact
      is a secondary of the elected primary carrying both request values as
      given. Otherwise no row is inserted. */
  lemma ExtensionRule(db: Table, nextId: Id, now: nat, email: Option<string>, phone: Option<string>)
    requires StoreOk(db, nextId, now)
    requires MatchIds(db, email, phone) != {}
    ensures var o := Resolve(db, nextId, now, email, phone);
            var p := Elected(db, email, phone);
            var k := Cluster(db, email, phone);
      && (o.nextId == nextId + 1 <==>
            || (Present(email) && email.value !in ColumnValues(db, k, Email))
            || (Present(phone) && phone.value !in ColumnValues(db, k, Phone)))
      && (o.nextId == nextId + 1 ==>
            && o.db.Keys == db.Keys + {nextId}
            && o.db[nextId] == Contact(nextId, Stored(email), Stored(phone), Some(p), Secondary, now, now))
      && (o.nextId != nextId + 1 ==> o.nextId == nextId && o.db.Keys == db.Keys)
  {
    var k := Cluster(db, email, phone);
    var order := AgeSorted(db, k);
    ElectionOrder(db, email, phone, now);
    MatchedOutcome(db, nextId, now, email, phone);
    assert Elems(order) == k;
    LoadedValues(db, order[0], k, now, order, Email);
    LoadedValues(db, order[0], k, now, order, Phone);
    var db1 := Demoted(db, order[0], k, now);
    assert db1.Keys == db.Keys;
    if Resolve(db, nextId, now, email, phone).nextId != nextId {
      assert nextId !in db;
    }
  }

  /** Whatever it matches, one request inserts at most one row, under the
      next id, and never removes one. */
  lemma AtMostOneInsert(db: Table, nextId: Id, now: nat, email: Option<string>, phone: Option<string>)
    requires StoreOk(db, nextId, now)
    ensures var o := Resolve(db, nextId, now, email, phone);
      && db.Keys <= o.db.Keys
      && o.db.Keys - db.Keys <= {nextId}
      && (o.nextId == nextId + 1 <==> nextId in o.db)
      && (o.nextId == nextId || o.nextId == nextId + 1)
  {
    if MatchIds(db, email, phone) != {} {
      ExtensionRule(db, nextId, now, email, phone);
    }
  }
}
