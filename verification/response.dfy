/** The response to a request that matched, stated over the table it was
    sent to: who is primary, which values are listed, and in which order the
    secondaries come. */
module Answers {
  import opened Contacts
  import opened ResponseFormat
  import opened Clusters
  import opened Properties

  /** The present values of two lists joined. */
  lemma ValuesAppend(a: seq<Contact>, b: seq<Contact>, f: Field)
    ensures Values(a + b, f) == Values(a, f) + Values(b, f)
  {
    var s := a + b;
    forall x | x in Values(s, f)
      ensures x in Values(a, f) + Values(b, f)
    {
      var i :| 0 <= i < |s| && Present(Get(s[i], f)) && Get(s[i], f).value == x;
      if i < |a| {
        assert s[i] == a[i];
      } else {
        assert s[i] == b[i - |a|];
      }
    }
    forall x | x in Values(a, f) + Values(b, f)
      ensures x in Values(s, f)
    {
      if x in Values(a, f) {
        var i :| 0 <= i < |a| && Present(Get(a[i], f)) && Get(a[i], f).value == x;
        assert s[i] == a[i];
      } else {
        var i :| 0 <= i < |b| && Present(Get(b[i], f)) && Get(b[i], f).value == x;
        assert s[|a| + i] == b[i];
      }
    }
  }

  /** The response to the rows of a cluster listed oldest first from its
      primary, followed by contacts other than the primary. */
  lemma ListedResponse(db: Table, p: Id, order: seq<Id>, tail: seq<Contact>, tailIds: seq<Id>)
    requires Keyed(db) && AgeOrdered(db, order) && |order| > 0 && order[0] == p
    requires |tail| == |tailIds|
    requires forall i :: 0 <= i < |tail| ==> tail[i].id == tailIds[i] && tailIds[i] != p
    ensures var rows := Rows(db, order) + tail;
            var r := Formatted(p, rows);
      && r.secondaryContactIds == order[1..] + tailIds
      && (Present(db[p].email) ==> |r.emails| > 0 && r.emails[0] == db[p].email.value)
      && (Present(db[p].phoneNumber) ==> |r.phoneNumbers| > 0 && r.phoneNumbers[0] == db[p].phoneNumber.value)
  {
    var rows := Rows(db, order) + tail;
    assert rows[0] == db[p];
    forall i | 1 <= i < |rows|
      ensures rows[i].id != p
    {
      if i < |order| {
        assert Before(db[order[0]], db[order[i]]);
      }
    }
    OthersAfterPrimary(rows, p);
    FormattedSpec(p, rows);
    assert FindContact(rows, p) == Some(rows[0]);
    var ids := seq(|rows| - 1, i requires 0 <= i < |rows| - 1 => rows[i + 1].id);
    forall i | 0 <= i < |ids|
      ensures ids[i] == (order[1..] + tailIds)[i]
    {
      if i + 1 < |order| {
        assert rows[i + 1] == db[order[i + 1]];
      } else {
        assert rows[i + 1] == tail[i + 1 - |order|];
      }
    }
  }

  /** The whole response to a cluster listed oldest first from its primary,
      followed by contacts other than the primary. */
  lemma ClusterAnswer(db: Table, p: Id, order: seq<Id>, tail: seq<Contact>, tailIds: seq<Id>)
    requires Keyed(db) && AgeOrdered(db, order) && |order| > 0 && order[0] == p
    requires |tail| == |tailIds|
    requires forall i :: 0 <= i < |tail| ==> tail[i].id == tailIds[i] && tailIds[i] != p
    ensures var r := Formatted(p, Rows(db, order) + tail);
      && r.primaryContactId == p
      && r.secondaryContactIds == order[1..] + tailIds
      && NoDup(r.emails) && NoDup(r.phoneNumbers)
      && (forall x :: x in r.emails <==> x in Values(Rows(db, order), Email) || x in Values(tail, Email))
      && (forall x :: x in r.phoneNumbers <==> x in Values(Rows(db, order), Phone) || x in Values(tail, Phone))
      && (Present(db[p].email) ==> |r.emails| > 0 && r.emails[0] == db[p].email.value)
      && (Present(db[p].phoneNumber) ==> |r.phoneNumbers| > 0 && r.phoneNumbers[0] == db[p].phoneNumber.value)
  {
    ListedResponse(db, p, order, tail, tailIds);
    FormattedSpec(p, Rows(db, order) + tail);
    ValuesAppend(Rows(db, order), tail, Email);
    ValuesAppend(Rows(db, order), tail, Phone);
  }

  /** A matched request answers with the elected primary, whose own email and
      phone lead their lists; the lists hold each present value of the
      touched contacts, and of the new contact when one is inserted, exactly
      once; the secondary ids are the other touched contacts, oldest first,
      followed by the new contact. */
  lemma MatchedResponse(db: Table, nextId: Id, now: nat, email: Option<string>, phone: Option<string>)
    requires StoreOk(db, nextId, now) && MatchIds(db, email, phone) != {}
    ensures var o := Resolve(db, nextId, now, email, phone);
            var k := Cluster(db, email, phone);
            var p := Elected(db, email, phone);
            var order := AgeSorted(db, k);
            var added := o.nextId != nextId;
            var r := o.response;
      && |order| > 0
      && r.primaryContactId == p
      && r.secondaryContactIds == order[1..] + (if added then [nextId] else [])
      && NoDup(r.emails) && NoDup(r.phoneNumbers)
      && (forall x :: x in r.emails <==>
            x in ColumnValues(db, k, Email) || (added && Present(email) && x == email.value))
      && (forall x :: x in r.phoneNumbers <==>
            x in ColumnValues(db, k, Phone) || (added && Present(phone) && x == phone.value))
      && (Present(db[p].email) ==> |r.emails| > 0 && r.emails[0] == db[p].email.value)
      && (Present(db[p].phoneNumber) ==> |r.phoneNumbers| > 0 && r.phoneNumbers[0] == db[p].phoneNumber.value)
  {
    var k := Cluster(db, email, phone);
    var p := Elected(db, email, phone);
    var order := AgeSorted(db, k);
    var db1 := Demoted(db, p, k, now);
    var c := NewContact(nextId, email, phone, Some(p), Secondary, now);
    var o := Resolve(db, nextId, now, email, phone);
    MatchedOutcome(db, nextId, now, email, phone);
    if o.nextId == nextId {
      LoadedAnswer(db, nextId, now, email, phone, [], []);
      assert Rows(db1, order) + [] == Rows(db1, order);
      assert o.response == Formatted(p, Rows(db1, order) + []);
    } else {
      LoadedAnswer(db, nextId, now, email, phone, [c], [nextId]);
      NewValues(c, email, phone);
      assert o.response == Formatted(p, Rows(db1, order) + [c]);
    }
  }

  /** The values a new contact contributes are the request's present ones. */
  lemma NewValues(c: Contact, email: Option<string>, phone: Option<string>)
    requires c.email == Stored(email) && c.phoneNumber == Stored(phone)
    ensures forall x :: x in Values([c], Email) <==> Present(email) && x == email.value
    ensures forall x :: x in Values([c], Phone) <==> Present(phone) && x == phone.value
  {
    assert [c][0] == c;
  }

  /** The answer built from the touched rows after demotion, oldest first,
      followed by contacts other than the elected primary. */
  lemma LoadedAnswer(db: Table, nextId: Id, now: nat, email: Option<string>, phone: Option<string>,
                     tail: seq<Contact>, tailIds: seq<Id>)
    requires StoreOk(db, nextId, now) && MatchIds(db, email, phone) != {}
    requires |tail| == |tailIds|
    requires forall i :: 0 <= i < |tail| ==> tail[i].id == tailIds[i] && tailIds[i] != Elected(db, email, phone)
    ensures var k := Cluster(db, email, phone);
            var p := Elected(db, email, phone);
            var order := AgeSorted(db, k);
            var db1 := Demoted(db, p, k, now);
      && |order| > 0
      && (forall i :: 0 <= i < |order| ==> order[i] in db1)
      && var r := Formatted(p, Rows(db1, order) + tail);
      && r.primaryContactId == p
      && r.secondaryContactIds == order[1..] + tailIds
      && NoDup(r.emails) && NoDup(r.phoneNumbers)
      && (forall x :: x in r.emails <==> x in ColumnValues(db, k, Email) || x in Values(tail, Email))
      && (forall x :: x in r.phoneNumbers <==> x in ColumnValues(db, k, Phone) || x in Values(tail, Phone))
      && (Present(db[p].email) ==> |r.emails| > 0 && r.emails[0] == db[p].email.value)
      && (Present(db[p].phoneNumber) ==> |r.phoneNumbers| > 0 && r.phoneNumbers[0] == db[p].phoneNumber.value)
  {
    var k := Cluster(db, email, phone);
    var p := Elected(db, email, phone);
    var order := AgeSorted(db, k);
    var db1 := Demoted(db, p, k, now);
    ElectionOrder(db, email, phone, now);
    DemotedSpec(db, p, k, now);
    DemotedOrder(db, p, k, now, order);
    assert Elems(order) == k;
    LoadedValues(db, p, k, now, order, Email);
    LoadedValues(db, p, k, now, order, Phone);
    ClusterAnswer(db1, p, order, tail, tailIds);
  }
}
