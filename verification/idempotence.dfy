/** Repeating a request is harmless: on a well-linked table, the second of two
    identical requests finds its cluster already merged and extended, writes
    nothing, and answers exactly as the first did. */
module Idempotence {
  import opened Contacts
  import opened Roots
  import opened ResponseFormat
  import opened Clusters
  import opened Properties
  import opened ClusterInvariant

  /** The contacts `k` form one merged cluster under the primary `p`: every
      other member is a secondary linked straight to `p`, and every row that
      links to `p` is a member. */
  predicate Settled(db: Table, p: Id, k: set<Id>) {
    && p in k && k <= db.Keys
    && db[p].linkPrecedence == Primary
    && (forall q :: q in k && q != p ==> db[q].linkPrecedence == Secondary && db[q].linkedId == Some(p))
    && (forall q :: q in db && db[q].linkedId == Some(p) ==> q in k)
  }

  /** Any matches inside a settled cluster lead back to its primary and load
      the whole cluster, and nothing more. */
  lemma SettledRoots(db: Table, p: Id, k: set<Id>, matches: set<Id>)
    requires Settled(db, p, k) && matches != {} && matches <= k
    ensures RootIds(db, matches) == {p}
    ensures Touched(db, matches) == k
  {
    forall m | m in matches
      ensures RootOf(db, m) == p
    {
      if m == p {
        RootOfAgrees(db, m, 0);
      } else {
        assert Walk(db, m, 1) == Walk(db, p, 0);
        RootOfAgrees(db, m, 1);
      }
    }
    var m :| m in matches;
    assert RootOf(db, m) in RootIds(db, matches);
  }

  /** The outcome `o` holds a cluster settled on `p` whose members, listed
      oldest first as `order`, contain every match of the request and every
      value it carries, and `o` answers with those rows. */
  predicate SettledOutcome(o: Outcome, now: nat, email: Option<string>, phone: Option<string>,
                           p: Id, k: set<Id>, order: seq<Id>)
  {
    && StoreOk(o.db, o.nextId, now) && Settled(o.db, p, k)
    && MatchIds(o.db, email, phone) != {} && MatchIds(o.db, email, phone) <= k
    && AgeOrdered(o.db, order) && Elems(order) == k && |order| > 0 && order[0] == p
    && !NeedsNew(Rows(o.db, order), email, phone)
    && o.response == Formatted(p, Rows(o.db, order))
  }

  /** A request whose matches lie in a settled cluster, listed oldest first
      with the primary at the head, and which brings no new value, changes
      nothing and answers with the cluster's rows in that order. */
  lemma SettledResolve(db: Table, nextId: Id, now: nat, email: Option<string>, phone: Option<string>,
                       p: Id, k: set<Id>, order: seq<Id>)
    requires StoreOk(db, nextId, now) && Settled(db, p, k)
    requires MatchIds(db, email, phone) != {} && MatchIds(db, email, phone) <= k
    requires AgeOrdered(db, order) && Elems(order) == k && |order| > 0 && order[0] == p
    requires !NeedsNew(Rows(db, order), email, phone)
    ensures Resolve(db, nextId, now, email, phone) == Outcome(db, nextId, Formatted(p, Rows(db, order)))
  {
    var matches := MatchIds(db, email, phone);
    SettledRoots(db, p, k, matches);
    var sorted := AgeSorted(db, k);
    AgeOrderedUnique(db, sorted, order);
    SettledNoDemotion(db, p, k, now);
    assert Merge(db, nextId, now, email, phone) == Outcome(db, nextId, Formatted(p, Rows(db, order)));
  }

  /** Demotion finds nothing to rewrite in a settled cluster. */
  lemma SettledNoDemotion(db: Table, p: Id, k: set<Id>, now: nat)
    requires Keyed(db) && Settled(db, p, k)
    ensures Demoted(db, p, k, now) == db
  {
    forall q | q in db
      ensures Demoted(db, p, k, now)[q] == db[q]
    {
      assert !(q in k && NeedsRepoint(db[q], p));
    }
  }

  /** On a settled outcome the request changes nothing and answers the same. */
  lemma SettledRepeats(o: Outcome, now: nat, email: Option<string>, phone: Option<string>,
                       p: Id, k: set<Id>, order: seq<Id>)
    requires SettledOutcome(o, now, email, phone, p, k, order)
    ensures Resolve(o.db, o.nextId, now, email, phone) == o
  {
    SettledResolve(o.db, o.nextId, now, email, phone, p, k, order);
  }

  /** A fresh request repeated: the new primary alone is matched, it is its
      own cluster, and it already holds the request's values. */
  lemma FreshSettled(db: Table, nextId: Id, now: nat, email: Option<string>, phone: Option<string>)
    requires StoreOk(db, nextId, now) && WellLinked(db)
    requires Present(email) || Present(phone)
    requires MatchIds(db, email, phone) == {}
    ensures SettledOutcome(Resolve(db, nextId, now, email, phone), now + 1, email, phone, nextId, {nextId}, [nextId])
  {
    var c := NewContact(nextId, email, phone, None, Primary, now);
    var d := db[nextId := c];
    ResolveKeepsInvariants(db, nextId, now, email, phone);
    FreshRequestCreatesPrimary(db, nextId, now, email, phone);
    InsertMatches(db, c, email, phone);
    NoLinksTo(db, nextId);
    assert Settled(d, nextId, {nextId});
    assert Rows(d, [nextId]) == [c];
    assert Get([c][0], Email) == Stored(email) && Get([c][0], Phone) == Stored(phone);
    assert Present(email) ==> email.value in Values([c], Email);
    assert Present(phone) ==> phone.value in Values([c], Phone);
  }

  /** Inserting a contact adds it to the matches of a request exactly when it
      matches, and leaves the other matches as they were. */
  lemma InsertMatches(db: Table, c: Contact, email: Option<string>, phone: Option<string>)
    requires c.id !in db
    ensures MatchIds(db[c.id := c], email, phone) ==
            MatchIds(db, email, phone) + (if Matches(c, email, phone) then {c.id} else {})
  {
  }

  /** In a well-linked table no row links to an id that is not stored. */
  lemma NoLinksTo(db: Table, x: Id)
    requires WellLinked(db) && x !in db
    ensures forall q :: q in db ==> db[q].linkedId != Some(x)
  {
    forall q | q in db
      ensures db[q].linkedId != Some(x)
    {
      assert LinkOk(db, db[q]);
    }
  }

  /** A matched request on a well-linked table leaves its cluster settled on
      the elected primary. */
  lemma DemotedSettled(db: Table, email: Option<string>, phone: Option<string>, now: nat)
    requires Keyed(db) && WellLinked(db) && MatchIds(db, email, phone) != {}
    ensures Settled(Demoted(db, Elected(db, email, phone), Cluster(db, email, phone), now),
                    Elected(db, email, phone), Cluster(db, email, phone))
  {
    var k := Cluster(db, email, phone);
    var p := Elected(db, email, phone);
    var db1 := Demoted(db, p, k, now);
    DemotedSpec(db, p, k, now);
    ElectedIsPrimary(db, email, phone);
    PrimaryMembersAreRoots(db, MatchIds(db, email, phone));
    forall q | q in db1 && db1[q].linkedId == Some(p)
      ensures q in k
    {
    }
  }

  /** Demotion leaves every identifier column, and so every match, as it was. */
  lemma DemotedMatches(db: Table, p: Id, k: set<Id>, now: nat, email: Option<string>, phone: Option<string>)
    requires Keyed(db) && p in k && k <= db.Keys
    ensures MatchIds(Demoted(db, p, k, now), email, phone) == MatchIds(db, email, phone)
  {
    DemotedKeepsColumns(db, p, k, now);
  }

  /** A contact created after every listed one goes last in creation order. */
  lemma AgeOrderedSnoc(db: Table, order: seq<Id>, c: Contact)
    requires AgeOrdered(db, order) && c.id !in db
    requires forall i :: 0 <= i < |order| ==> Before(db[order[i]], c)
    ensures AgeOrdered(db[c.id := c], order + [c.id])
  {
    var s := order + [c.id];
    var d := db[c.id := c];
    forall i, j | 0 <= i < j < |s|
      ensures Before(d[s[i]], d[s[j]])
    {
      assert s[i] == order[i];
    }
  }

  /** A secondary linked to the primary joins its settled cluster. */
  lemma SettledExtend(db: Table, p: Id, k: set<Id>, c: Contact)
    requires Settled(db, p, k) && c.id !in db
    requires c.linkPrecedence == Secondary && c.linkedId == Some(p)
    ensures Settled(db[c.id := c], p, k + {c.id})
  {
  }

  /** The rows of a list with one id appended. */
  lemma RowsSnoc(db: Table, order: seq<Id>, c: Contact)
    requires forall i :: 0 <= i < |order| ==> order[i] in db
    requires c.id !in db
    ensures Rows(db[c.id := c], order + [c.id]) == Rows(db, order) + [c]
  {
  }

  /** After a matched request the cluster is settled, the matches stay inside
      it, and its rows keep creation order. */
  lemma MergedFacts(db: Table, nextId: Id, now: nat, email: Option<string>, phone: Option<string>)
    requires StoreOk(db, nextId, now) && WellLinked(db)
    requires MatchIds(db, email, phone) != {}
    ensures var k := Cluster(db, email, phone);
            var p := Elected(db, email, phone);
            var order := AgeSorted(db, k);
            var db1 := Demoted(db, p, k, now);
      && StoreOk(db1, nextId, now + 1)
      && Settled(db1, p, k)
      && MatchIds(db1, email, phone) == MatchIds(db, email, phone)
      && MatchIds(db, email, phone) <= k
      && AgeOrdered(db1, order) && Elems(order) == k && |order| > 0 && order[0] == p
  {
    var k := Cluster(db, email, phone);
    var p := Elected(db, email, phone);
    var order := AgeSorted(db, k);
    DemotedKeepsStore(db, nextId, now, email, phone);
    ElectionOrder(db, email, phone, now);
    DemotedSettled(db, email, phone, now);
    DemotedMatches(db, p, k, now, email, phone);
    MatchedInCluster(db, email, phone);
    DemotedOrder(db, p, k, now, order);
  }

  /** After a request that only merged, the cluster is settled under the
      elected primary in its election order. */
  lemma KeptSettled(db: Table, nextId: Id, now: nat, email: Option<string>, phone: Option<string>)
    requires StoreOk(db, nextId, now) && WellLinked(db)
    requires MatchIds(db, email, phone) != {}
    requires Resolve(db, nextId, now, email, phone).nextId == nextId
    ensures SettledOutcome(Resolve(db, nextId, now, email, phone), now + 1, email, phone,
                           Elected(db, email, phone), Cluster(db, email, phone), AgeSorted(db, Cluster(db, email, phone)))
  {
    ExtensionRule(db, nextId, now, email, phone);
    MatchedOutcome(db, nextId, now, email, phone);
    MergedFacts(db, nextId, now, email, phone);
    KeptNoNew(db, nextId, now, email, phone);
  }

  lemma KeptNoNew(db: Table, nextId: Id, now: nat, email: Option<string>, phone: Option<string>)
    requires StoreOk(db, nextId, now)
    requires MatchIds(db, email, phone) != {}
    requires var k := Cluster(db, email, phone);
      && !(Present(email) && email.value !in ColumnValues(db, k, Email))
      && !(Present(phone) && phone.value !in ColumnValues(db, k, Phone))
    ensures var k := Cluster(db, email, phone);
            var p := Elected(db, email, phone);
            var order := AgeSorted(db, k);
            var db1 := Demoted(db, p, k, now);
      && (forall i :: 0 <= i < |order| ==> order[i] in db1)
      && !NeedsNew(Rows(db1, order), email, phone)
  {
    var k := Cluster(db, email, phone);
    var p := Elected(db, email, phone);
    var order := AgeSorted(db, k);
    assert Elems(order) == k;
    LoadedValues(db, p, k, now, order, Email);
    LoadedValues(db, p, k, now, order, Phone);
  }

  /** After a request that merged and inserted a secondary, the cluster with
      the new row is settled under the elected primary, the new row last. */
  lemma ExtendedSettled(db: Table, nextId: Id, now: nat, email: Option<string>, phone: Option<string>)
    requires StoreOk(db, nextId, now) && WellLinked(db)
    requires MatchIds(db, email, phone) != {}
    requires Resolve(db, nextId, now, email, phone).nextId != nextId
    ensures SettledOutcome(Resolve(db, nextId, now, email, phone), now + 1, email, phone,
                           Elected(db, email, phone), Cluster(db, email, phone) + {nextId},
                           AgeSorted(db, Cluster(db, email, phone)) + [nextId])
  {
    ExtensionRule(db, nextId, now, email, phone);
    MatchedOutcome(db, nextId, now, email, phone);
    ExtendedReady(db, nextId, now, email, phone,
                  NewContact(nextId, email, phone, Some(Elected(db, email, phone)), Secondary, now));
  }

  lemma ExtendedReady(db: Table, nextId: Id, now: nat, email: Option<string>, phone: Option<string>, c: Contact)
    requires StoreOk(db, nextId, now) && WellLinked(db)
    requires MatchIds(db, email, phone) != {}
    requires Present(email) || Present(phone)
    requires c == NewContact(nextId, email, phone, Some(Elected(db, email, phone)), Secondary, now)
    ensures var k := Cluster(db, email, phone);
            var p := Elected(db, email, phone);
            var order := AgeSorted(db, k);
            var db1 := Demoted(db, p, k, now);
            var d := db1[nextId := c];
      && (forall i :: 0 <= i < |order| ==> order[i] in db1)
      && StoreOk(d, nextId + 1, now + 1) && Settled(d, p, k + {nextId})
      && MatchIds(d, email, phone) != {} && MatchIds(d, email, phone) <= k + {nextId}
      && AgeOrdered(d, order + [nextId]) && Elems(order + [nextId]) == k + {nextId}
      && |order| > 0 && order[0] == p
      && Rows(d, order + [nextId]) == Rows(db1, order) + [c]
      && !NeedsNew(Rows(d, order + [nextId]), email, phone)
  {
    var k := Cluster(db, email, phone);
    var p := Elected(db, email, phone);
    var order := AgeSorted(db, k);
    MergedFacts(db, nextId, now, email, phone);
    SettledInsert(Demoted(db, p, k, now), nextId, now, email, phone, p, k, order, c);
  }

  /** Inserting under the next id a secondary of the primary that carries the
      request's values keeps a settled cluster settled, with the new row last. */
  lemma SettledInsert(db: Table, nextId: Id, now: nat, email: Option<string>, phone: Option<string>,
                      p: Id, k: set<Id>, order: seq<Id>, c: Contact)
    requires StoreOk(db, nextId, now + 1) && Settled(db, p, k)
    requires MatchIds(db, email, phone) <= k
    requires AgeOrdered(db, order) && Elems(order) == k
    requires Present(email) || Present(phone)
    requires c == NewContact(nextId, email, phone, Some(p), Secondary, now)
    ensures var d := db[nextId := c];
      && StoreOk(d, nextId + 1, now + 1) && Settled(d, p, k + {nextId})
      && MatchIds(d, email, phone) != {} && MatchIds(d, email, phone) <= k + {nextId}
      && AgeOrdered(d, order + [nextId]) && Elems(order + [nextId]) == k + {nextId}
      && Rows(d, order + [nextId]) == Rows(db, order) + [c]
      && !NeedsNew(Rows(d, order + [nextId]), email, phone)
  {
    ExtendKeeps(db, nextId, now, c);
    SettledExtend(db, p, k, c);
    InsertMatches(db, c, email, phone);
    AgeOrderedSnoc(db, order, c);
    RowsSnoc(db, order, c);
    ElemsSnoc(order + [nextId], |order|);
    assert (order + [nextId])[..|order|] == order;
    assert (order + [nextId])[..|order| + 1] == order + [nextId];
    var rows := Rows(db, order) + [c];
    assert Get(rows[|rows| - 1], Email) == Stored(email) && Get(rows[|rows| - 1], Phone) == Stored(phone);
    assert Present(email) ==> email.value in Values(rows, Email);
    assert Present(phone) ==> phone.value in Values(rows, Phone);
  }

  /** Idempotence: on a well-linked table, repeating a request that carries an
      email or a phone number (one tick later) changes nothing and gives the
      same response. */
  lemma ResolveIdempotent(db: Table, nextId: Id, now: nat, email: Option<string>, phone: Option<string>)
    requires StoreOk(db, nextId, now) && WellLinked(db)
    requires Present(email) || Present(phone)
    ensures var o1 := Resolve(db, nextId, now, email, phone);
      && StoreOk(o1.db, o1.nextId, now + 1)
      && Resolve(o1.db, o1.nextId, now + 1, email, phone) == o1
  {
    var o1 := Resolve(db, nextId, now, email, phone);
    ResolveKeepsInvariants(db, nextId, now, email, phone);
    if MatchIds(db, email, phone) == {} {
      FreshSettled(db, nextId, now, email, phone);
      SettledRepeats(o1, now + 1, email, phone, nextId, {nextId}, [nextId]);
    } else if o1.nextId == nextId {
      var k := Cluster(db, email, phone);
      KeptSettled(db, nextId, now, email, phone);
      SettledRepeats(o1, now + 1, email, phone, Elected(db, email, phone), k, AgeSorted(db, k));
    } else {
      var k := Cluster(db, email, phone);
      ExtendedSettled(db, nextId, now, email, phone);
      SettledRepeats(o1, now + 1, email, phone, Elected(db, email, phone), k + {nextId}, AgeSorted(db, k) + [nextId]);
    }
  }
}
