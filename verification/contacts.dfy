/** The Contact table: the one entity of the identity service, and the
    well-formedness conditions a table of contacts can satisfy. */
module Contacts {

  datatype Option<+T> = None | Some(value: T)

  /** Contact ids are the table's auto-increment keys, which start at 1; a
      link is therefore never the falsy id 0. */
  type Id = n: nat | n > 0 witness 1

  datatype Precedence = Primary | Secondary

  /** One row of the Contact table. Timestamps are ticks of a logical clock. */
  datatype Contact = Contact(
    id: Id,
    email: Option<string>,
    phoneNumber: Option<string>,
    linkedId: Option<Id>,
    linkPrecedence: Precedence,
    createdAt: nat,
    updatedAt: nat)

  /** The table, keyed by contact id. */
  type Table = map<Id, Contact>

  /** JavaScript truthiness of an optional string: present and non-empty. */
  predicate Present(s: Option<string>) {
    s.Some? && s.value != ""
  }

  /** `s || null`: the value written to a nullable column. */
  function Stored(s: Option<string>): (r: Option<string>)
    ensures r.Some? <==> Present(s)
    ensures Present(r) <==> Present(s)
    ensures r.Some? ==> r == s
  {
    if Present(s) then s else None
  }

  /** `a` was created before `b`: earlier `createdAt`, ties broken by the
      lower id. On contacts with distinct ids this is a strict total order. */
  predicate Before(a: Contact, b: Contact) {
    a.createdAt < b.createdAt || (a.createdAt == b.createdAt && a.id < b.id)
  }

  /** The elements of a list, as a set. */
  function Elems<T>(s: seq<T>): set<T> {
    set x | x in s
  }

  lemma ElemsSnoc<T>(s: seq<T>, i: nat)
    requires i < |s|
    ensures Elems(s[..i + 1]) == Elems(s[..i]) + {s[i]}
  {
    assert s[..i + 1] == s[..i] + [s[i]];
  }

  /** Every row is stored under its own id. */
  predicate Keyed(db: Table) {
    forall id :: id in db ==> db[id].id == id
  }

  /** The table is consistent with the id counter and the clock: ids already
      handed out are below `nextId`, timestamps already written are below `clock`. */
  predicate StoreOk(db: Table, nextId: Id, clock: nat) {
    && Keyed(db)
    && (forall id :: id in db ==> id < nextId)
    && (forall id :: id in db ==> db[id].createdAt < clock && db[id].updatedAt < clock)
  }

  /** No identifier column holds the empty string: every write stores
      `value || null`, so an empty value is written as NULL. */
  predicate NoBlank(db: Table) {
    forall id :: id in db ==> db[id].email != Some("") && db[id].phoneNumber != Some("")
  }

  /** The cluster invariant the service maintains: a contact is primary exactly
      when it has no link; a link points at a stored primary created before it. */
  predicate WellLinked(db: Table) {
    forall id :: id in db ==> LinkOk(db, db[id])
  }

  predicate LinkOk(db: Table, c: Contact) {
    && (c.linkPrecedence == Primary <==> c.linkedId == None)
    && (c.linkedId.Some? ==>
          && c.linkedId.value in db
          && db[c.linkedId.value].linkPrecedence == Primary
          && Before(db[c.linkedId.value], c))
  }
}
