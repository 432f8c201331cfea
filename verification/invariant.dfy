/** The cluster invariant is kept: a request on a well-linked table (every
    contact primary and unlinked, or a secondary linked straight to an older
    stored primary) leaves a well-linked table. */
module ClusterInvariant {
  import opened Contacts
  import opened Roots
  import opened ResponseFormat
  import opened Clusters
  import opened Properties

  /** In a well-linked table every matched contact is in the cluster loaded
      for the match. */
  lemma MatchedInCluster(db: Table, email: Option<string>, phone: Option<string>)
    requires WellLinked(db)
    ensures MatchIds(db, email, phone) <= Cluster(db, email, phone)
  {
    var matches := MatchIds(db, email, phone);
    forall m | m in matches
      ensures m in Cluster(db, email, phone)
    {
      RootOfWellLinked(db, m);
      assert RootOf(db, m) in RootIds(db, matches);
    }
  }

  lemma RootsArePrimary(db: Table, matches: set<Id>)
    requires WellLinked(db) && matches <= db.Keys
    ensures forall r :: r in RootIds(db, matches) ==> r in db && db[r].linkPrecedence == Primary
  {
    forall r | r in RootIds(db, matches)
      ensures r in db && db[r].linkPrecedence == Primary
    {
      var m :| m in matches && RootOf(db, m) == r;
      RootOfWellLinked(db, m);
    }
  }

  /** A primary in a loaded cluster is one of its roots. */
  lemma PrimaryMembersAreRoots(db: Table, matches: set<Id>)
    requires WellLinked(db)
    ensures forall q :: q in Touched(db, matches) && db[q].linkPrecedence == Primary ==> q in RootIds(db, matches)
  {
    forall q | q in Touched(db, matches) && db[q].linkPrecedence == Primary
      ensures q in RootIds(db, matches)
    {
      assert LinkOk(db, db[q]);
    }
  }

  /** In a well-linked table the elected contact is already a primary. */
  lemma ElectedIsPrimary(db: Table, email: Option<string>, phone: Option<string>)
    requires Keyed(db) && WellLinked(db) && MatchIds(db, email, phone) != {}
    ensures var p := Elected(db, email, phone);
      db[p].linkPrecedence == Primary && db[p].linkedId == None
  {
    var matches := MatchIds(db, email, phone);
    var p := Elected(db, email, phone);
    RootsArePrimary(db, matches);
    assert LinkOk(db, db[p]);
  }

  /** The demotions of a matched request keep the table well linked. */
  lemma DemotedWellLinked(db: Table, email: Option<string>, phone: Option<string>, now: nat)
    requires Keyed(db) && WellLinked(db) && MatchIds(db, email, phone) != {}
    ensures WellLinked(Demoted(db, Elected(db, email, phone), Cluster(db, email, phone), now))
  {
    var matches := MatchIds(db, email, phone);
    var k := Cluster(db, email, phone);
    var p := Elected(db, email, phone);
    var db1 := Demoted(db, p, k, now);
    ElectedIsPrimary(db, email, phone);
    PrimaryMembersAreRoots(db, matches);
    DemotedSpec(db, p, k, now);
    forall id | id in db1
      ensures LinkOk(db1, db1[id])
    {
      assert LinkOk(db, db[id]);
      if id in k && NeedsRepoint(db[id], p) {
        assert Before(db[p], db[id]);
      } else if id !in k && db[id].linkedId.Some? {
        var q := db[id].linkedId.value;
        assert q !in k;
      }
    }
  }

  /** Adding a contact whose own link is sound keeps the table well linked. */
  lemma InsertKeepsWellLinked(db: Table, c: Contact)
    requires WellLinked(db) && c.id !in db && LinkOk(db, c)
    ensures WellLinked(db[c.id := c])
  {
    var db2 := db[c.id := c];
    forall id | id in db2
      ensures LinkOk(db2, db2[id])
    {
      if id != c.id {
        assert LinkOk(db, db[id]);
      }
    }
  }

  /** One request keeps the table consistent with the id counter and the
      advanced clock, and keeps a well-linked table well linked. */
  lemma ResolveKeepsInvariants(db: Table, nextId: Id, now: nat, email: Option<string>, phone: Option<string>)
    requires StoreOk(db, nextId, now)
    ensures var o := Resolve(db, nextId, now, email, phone);
      && StoreOk(o.db, o.nextId, now + 1)
      && (WellLinked(db) ==> WellLinked(o.db))
      && (NoBlank(db) ==> NoBlank(o.db))
  {
    if MatchIds(db, email, phone) == {} {
      var o := Resolve(db, nextId, now, email, phone);
      FreshRequestCreatesPrimary(db, nextId, now, email, phone);
      if WellLinked(db) {
        InsertKeepsWellLinked(db, o.db[nextId]);
      }
      if NoBlank(db) {
        InsertKeepsNoBlank(db, o.db[nextId], email, phone);
      }
    } else {
      MatchedKeepsInvariants(db, nextId, now, email, phone);
    }
  }

  lemma MatchedKeepsInvariants(db: Table, nextId: Id, now: nat, email: Option<string>, phone: Option<string>)
    requires StoreOk(db, nextId, now) && MatchIds(db, email, phone) != {}
    ensures var o := Resolve(db, nextId, now, email, phone);
      && StoreOk(o.db, o.nextId, now + 1)
      && (WellLinked(db) ==> WellLinked(o.db))
      && (NoBlank(db) ==> NoBlank(o.db))
  {
    var o := Resolve(db, nextId, now, email, phone);
    var p := Elected(db, email, phone);
    var k := Cluster(db, email, phone);
    var db1 := Demoted(db, p, k, now);
    MatchedOutcome(db, nextId, now, email, phone);
    DemotedKeepsStore(db, nextId, now, email, phone);
    if WellLinked(db) {
      DemotedWellLinked(db, email, phone, now);
      ElectedIsPrimary(db, email, phone);
    }
    if NoBlank(db) {
      DemotedSpec(db, p, k, now);
      DemotedKeepsColumns(db, p, k, now);
      assert NoBlank(db1);
    }
    if o.nextId != nextId {
      var c := NewContact(nextId, email, phone, Some(p), Secondary, now);
      assert o.db == db1[nextId := c];
      ExtendKeeps(db1, nextId, now, c);
      if NoBlank(db1) {
        InsertKeepsNoBlank(db1, c, email, phone);
      }
    }
  }

  /** A row written as `value || null` holds no empty string. */
  lemma InsertKeepsNoBlank(db: Table, c: Contact, email: Option<string>, phone: Option<string>)
    requires NoBlank(db) && c.email == Stored(email) && c.phoneNumber == Stored(phone)
    ensures NoBlank(db[c.id := c])
  {
  }

  lemma DemotedKeepsStore(db: Table, nextId: Id, now: nat, email: Option<string>, phone: Option<string>)
    requires StoreOk(db, nextId, now) && MatchIds(db, email, phone) != {}
    ensures StoreOk(Demoted(db, Elected(db, email, phone), Cluster(db, email, phone), now), nextId, now + 1)
  {
    DemotedSpec(db, Elected(db, email, phone), Cluster(db, email, phone), now);
  }

  /** Inserting a contact stamped `now` under the next id keeps the store
      consistent, and keeps the table well linked when its link is sound. */
  lemma ExtendKeeps(db: Table, nextId: Id, now: nat, c: Contact)
    requires StoreOk(db, nextId, now + 1)
    requires c.id == nextId && c.createdAt == now && c.updatedAt == now
    ensures StoreOk(db[nextId := c], nextId + 1, now + 1)
    ensures WellLinked(db) && LinkOk(db, c) ==> WellLinked(db[nextId := c])
  {
    if WellLinked(db) && LinkOk(db, c) {
      InsertKeepsWellLinked(db, c);
    }
  }
}
