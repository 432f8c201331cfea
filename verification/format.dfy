/** `formatResponse`: reduces the final contact list of a request to the
    response body (primary id, emails, phone numbers, secondary ids). */
module ResponseFormat {
  import opened Contacts

  datatype Response = Response(
    primaryContactId: Id,
    emails: seq<string>,
    phoneNumbers: seq<string>,
    secondaryContactIds: seq<Id>)

  /** The two identifier columns, so that emails and phones share one definition. */
  datatype Field = Email | Phone

  function Get(c: Contact, f: Field): Option<string> {
    match f
    case Email => c.email
    case Phone => c.phoneNumber
  }

  predicate NoDup<T(==)>(s: seq<T>) {
    forall i, j :: 0 <= i < j < |s| ==> s[i] != s[j]
  }

  /** The present values of column `f` among `cs`. */
  function Values(cs: seq<Contact>, f: Field): set<string> {
    set i | 0 <= i < |cs| && Present(Get(cs[i], f)) :: Get(cs[i], f).value
  }

  /** `if (v) set.add(v)` on an insertion-ordered set, the set held as the
      sequence of its elements in insertion order. */
  function AddValue(acc: seq<string>, v: Option<string>): seq<string> {
    if Present(v) && v.value !in acc then acc + [v.value] else acc
  }

  /** The set after adding column `f` of every contact of `cs`, in order. */
  function Collect(acc: seq<string>, cs: seq<Contact>, f: Field): seq<string>
    decreases |cs|
  {
    if cs == [] then acc
    else AddValue(Collect(acc, cs[..|cs| - 1], f), Get(cs[|cs| - 1], f))
  }

  /** The ids of the contacts other than `p`, in list order. */
  function OthersThan(cs: seq<Contact>, p: Id): seq<Id>
    decreases |cs|
  {
    if cs == [] then []
    else OthersThan(cs[..|cs| - 1], p) + (if cs[|cs| - 1].id != p then [cs[|cs| - 1].id] else [])
  }

  /** `Array.find`: the first contact with id `id`, if any. */
  function FindContact(cs: seq<Contact>, id: Id): (r: Option<Contact>)
    ensures r.Some? ==> r.value in cs && r.value.id == id
    ensures r.None? ==> forall i :: 0 <= i < |cs| ==> cs[i].id != id
    ensures r.Some? ==> exists i :: 0 <= i < |cs| && cs[i] == r.value && forall j :: 0 <= j < i ==> cs[j].id != id
  {
    if cs == [] then None
    else if cs[0].id == id then Some(cs[0])
    else FindContact(cs[1..], id)
  }

  /** What the set of column `f` holds before the contacts are walked: the
      primary contact's value, when the primary is listed and has one. */
  function Seed(cs: seq<Contact>, p: Id, f: Field): seq<string> {
    var primary := FindContact(cs, p);
    if primary.Some? then AddValue([], Get(primary.value, f)) else []
  }

  /** The response `formatResponse` builds for primary `p` and contacts `cs`. */
  function Formatted(p: Id, cs: seq<Contact>): Response {
    Response(p,
             Collect(Seed(cs, p, Email), cs, Email),
             Collect(Seed(cs, p, Phone), cs, Phone),
             OthersThan(cs, p))
  }

  /** The imperative routine: two insertion-ordered sets and a list filled in
      one pass over the contacts. */
  method FormatResponse(primaryId: Id, contacts: seq<Contact>) returns (r: Response)
    ensures r == Formatted(primaryId, contacts)
  {
    var emails: seq<string> := [];
    var phoneNumbers: seq<string> := [];
    var secondaryContactIds: seq<Id> := [];
    var primaryContact := FindContact(contacts, primaryId);
    if primaryContact.Some? && Present(primaryContact.value.email) {
      emails := [primaryContact.value.email.value];
    }
    if primaryContact.Some? && Present(primaryContact.value.phoneNumber) {
      phoneNumbers := [primaryContact.value.phoneNumber.value];
    }
    for i := 0 to |contacts|
      invariant emails == Collect(Seed(contacts, primaryId, Email), contacts[..i], Email)
      invariant phoneNumbers == Collect(Seed(contacts, primaryId, Phone), contacts[..i], Phone)
      invariant secondaryContactIds == OthersThan(contacts[..i], primaryId)
    {
      var c := contacts[i];
      assert contacts[..i + 1][..i] == contacts[..i];
      if Present(c.email) && c.email.value !in emails {
        emails := emails + [c.email.value];
      }
      if Present(c.phoneNumber) && c.phoneNumber.value !in phoneNumbers {
        phoneNumbers := phoneNumbers + [c.phoneNumber.value];
      }
      if c.id != primaryId {
        secondaryContactIds := secondaryContactIds + [c.id];
      }
    }
    assert contacts[..|contacts|] == contacts;
    r := Response(primaryId, emails, phoneNumbers, secondaryContactIds);
  }

  /** Adding values never disturbs what the set already holds, keeps it free
      of duplicates, and leaves it holding exactly the old values and the
      present values of the walked contacts. */
  lemma {:induction false} CollectSpec(acc: seq<string>, cs: seq<Contact>, f: Field)
    requires NoDup(acc)
    ensures var r := Collect(acc, cs, f);
      && NoDup(r)
      && |acc| <= |r| && r[..|acc|] == acc
      && forall x :: x in r <==> x in acc || x in Values(cs, f)
    decreases |cs|
  {
    if cs != [] {
      var front := cs[..|cs| - 1];
      var last := cs[|cs| - 1];
      CollectSpec(acc, front, f);
      var r0 := Collect(acc, front, f);
      var r := Collect(acc, cs, f);
      assert r == AddValue(r0, Get(last, f));
      assert r[..|r0|] == r0;
      assert r[..|acc|] == r0[..|acc|];
      forall x
        ensures x in Values(cs, f) <==> x in Values(front, f) || (Present(Get(last, f)) && x == Get(last, f).value)
      {
        if x in Values(cs, f) {
          var i :| 0 <= i < |cs| && Present(Get(cs[i], f)) && Get(cs[i], f).value == x;
          if i < |cs| - 1 {
            assert cs[i] == front[i];
          }
        }
        if x in Values(front, f) {
          var i :| 0 <= i < |front| && Present(Get(front[i], f)) && Get(front[i], f).value == x;
          assert front[i] == cs[i];
        }
      }
    }
  }

  lemma {:induction false} OthersThanSpec(cs: seq<Contact>, p: Id)
    ensures forall x :: x in OthersThan(cs, p) <==> x != p && exists i :: 0 <= i < |cs| && cs[i].id == x
    decreases |cs|
  {
    if cs != [] {
      var front := cs[..|cs| - 1];
      OthersThanSpec(front, p);
      forall x | x != p && exists i :: 0 <= i < |cs| && cs[i].id == x
        ensures x in OthersThan(cs, p)
      {
        var i :| 0 <= i < |cs| && cs[i].id == x;
        if i < |cs| - 1 {
          assert front[i] == cs[i];
        }
      }
      forall x | x in OthersThan(front, p)
        ensures exists i :: 0 <= i < |cs| && cs[i].id == x
      {
        var i :| 0 <= i < |front| && front[i].id == x;
        assert cs[i] == front[i];
      }
    }
  }

  /** When the primary heads the list and no other contact carries its id, the
      secondary ids are the ids of the rest of the list, in list order. */
  lemma {:induction false} OthersAfterPrimary(cs: seq<Contact>, p: Id)
    requires |cs| > 0 && cs[0].id == p
    requires forall i :: 1 <= i < |cs| ==> cs[i].id != p
    ensures OthersThan(cs, p) == seq(|cs| - 1, i requires 0 <= i < |cs| - 1 => cs[i + 1].id)
    decreases |cs|
  {
    if |cs| > 1 {
      var front := cs[..|cs| - 1];
      OthersAfterPrimary(front, p);
    }
  }

  /** What the response promises: emails and phone numbers are free of
      duplicates, hold exactly the present values of the listed contacts and
      start with the primary's own value; the secondary ids are the listed ids
      other than the primary's. */
  lemma FormattedSpec(p: Id, cs: seq<Contact>)
    ensures var r := Formatted(p, cs);
      && r.primaryContactId == p
      && NoDup(r.emails) && NoDup(r.phoneNumbers)
      && (forall x :: x in r.emails <==> x in Values(cs, Email))
      && (forall x :: x in r.phoneNumbers <==> x in Values(cs, Phone))
      && (FindContact(cs, p).Some? && Present(FindContact(cs, p).value.email) ==>
            |r.emails| > 0 && r.emails[0] == FindContact(cs, p).value.email.value)
      && (FindContact(cs, p).Some? && Present(FindContact(cs, p).value.phoneNumber) ==>
            |r.phoneNumbers| > 0 && r.phoneNumbers[0] == FindContact(cs, p).value.phoneNumber.value)
      && (forall x :: x in r.secondaryContactIds <==> x != p && exists i :: 0 <= i < |cs| && cs[i].id == x)
  {
    SeedSpec(cs, p, Email);
    SeedSpec(cs, p, Phone);
    CollectSpec(Seed(cs, p, Email), cs, Email);
    CollectSpec(Seed(cs, p, Phone), cs, Phone);
    OthersThanSpec(cs, p);
  }

  lemma SeedSpec(cs: seq<Contact>, p: Id, f: Field)
    ensures NoDup(Seed(cs, p, f))
    ensures forall x :: x in Seed(cs, p, f) ==> x in Values(cs, f)
  {
    var primary := FindContact(cs, p);
    if primary.Some? && Present(Get(primary.value, f)) {
      var i :| 0 <= i < |cs| && cs[i] == primary.value;
      assert Get(cs[i], f).value in Values(cs, f);
    }
  }
}
