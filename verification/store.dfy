/** `reconcileIdentity` over a Contact table held in memory: the table, the
    id sequence and a logical clock are the fields of one object, and each
    store operation the routine calls is a method on it. */
module IdentityService {
  import opened Contacts
  import opened Roots
  import opened ResponseFormat
  import opened Clusters
  import opened ClusterInvariant

  class ContactStore {
    var contacts: Table
    /** The next value of the id sequence. */
    var nextId: Id
    /** The next tick of the clock that stamps `createdAt` and `updatedAt`. */
    var clock: nat

    /** The table agrees with the id sequence and the clock, and no column
        holds an empty string. This holds between any two writes. */
    ghost predicate Consistent()
      reads this
    {
      StoreOk(contacts, nextId, clock) && NoBlank(contacts)
    }

    /** Between requests the table is also well linked: one primary per
        cluster, every secondary linked straight to an older primary. */
    ghost predicate Valid()
      reads this
    {
      Consistent() && WellLinked(contacts)
    }

    constructor ()
      ensures Valid()
      ensures contacts == map[] && nextId == 1 && clock == 0
    {
      contacts := map[];
      nextId := 1;
      clock := 0;
    }

    /** `tx.contact.create`: inserts a row under the next id, stamped `now`. */
    method Create(email: Option<string>, phone: Option<string>, linkedId: Option<Id>,
                  precedence: Precedence, now: nat) returns (c: Contact)
      requires Consistent() && now < clock
      modifies this
      ensures Consistent()
      ensures c == NewContact(old(nextId), email, phone, linkedId, precedence, now)
      ensures c.id !in old(contacts)
      ensures contacts == old(contacts)[c.id := c]
      ensures nextId == old(nextId) + 1 && clock == old(clock)
    {
      c := NewContact(nextId, email, phone, linkedId, precedence, now);
      contacts := contacts[nextId := c];
      nextId := nextId + 1;
    }

    /** `tx.contact.update`: makes row `id` a secondary of `primaryId`. */
    method Update(id: Id, primaryId: Id, now: nat)
      requires Consistent() && id in contacts && now < clock
      modifies this
      ensures Consistent()
      ensures contacts == old(contacts)[id := Repointed(old(contacts)[id], primaryId, now)]
      ensures nextId == old(nextId) && clock == old(clock)
    {
      contacts := contacts[id := Repointed(contacts[id], primaryId, now)];
    }

    /** `findRoot`: follows `linkedId` until a missing, primary or unlinked
        row, giving up after as many hops as the table has rows. */
    method FindRoot(contactId: Id) returns (root: Id)
      ensures root == RootOf(contacts, contactId)
    {
      var currentId := contactId;
      var hops: nat := |contacts|;
      while true
        invariant Walk(contacts, currentId, hops) == RootOf(contacts, contactId)
        decreases hops
      {
        if currentId !in contacts || contacts[currentId].linkPrecedence == Primary {
          return currentId;
        }
        if contacts[currentId].linkedId.None? {
          return currentId;
        }
        if hops == 0 {
          return currentId;
        }
        currentId := contacts[currentId].linkedId.value;
        hops := hops - 1;
      }
    }

    /** The loop that fills `rootPrimaryIds` from the matched contacts. */
    method CollectRoots(matching: seq<Id>) returns (roots: set<Id>)
      ensures roots == RootIds(contacts, Elems(matching))
    {
      roots := {};
      for i := 0 to |matching|
        invariant roots == RootIds(contacts, Elems(matching[..i]))
      {
        var rootId := FindRoot(matching[i]);
        ElemsSnoc(matching, i);
        roots := roots + {rootId};
      }
      assert matching[..|matching|] == matching;
    }

    /** The demotion loop: every listed contact other than `primaryId` that is
        primary or links elsewhere is repointed to `primaryId`. */
    method DemoteAll(related: seq<Id>, primaryId: Id, now: nat)
      requires Consistent() && now < clock
      requires forall i :: 0 <= i < |related| ==> related[i] in contacts
      requires forall i, j :: 0 <= i < j < |related| ==> related[i] != related[j]
      modifies this
      ensures Consistent() && nextId == old(nextId) && clock == old(clock)
      ensures contacts == Demoted(old(contacts), primaryId, Elems(related), now)
    {
      for i := 0 to |related|
        invariant Consistent() && nextId == old(nextId) && clock == old(clock)
        invariant contacts == Demoted(old(contacts), primaryId, Elems(related[..i]), now)
      {
        var id := related[i];
        ElemsSnoc(related, i);
        DemotedStep(old(contacts), primaryId, Elems(related[..i]), id, now);
        var contact := contacts[id];
        if contact.id != primaryId {
          if contact.linkPrecedence == Primary || contact.linkedId != Some(primaryId) {
            Update(id, primaryId, now);
          }
        }
      }
      assert related[..|related|] == related;
    }

    /** `reconcileIdentity`: one request, as one atomic step at time `clock`. */
    method Reconcile(email: Option<string>, phone: Option<string>) returns (response: Response)
      requires Valid()
      modifies this
      ensures Valid() && clock == old(clock) + 1
      ensures Outcome(contacts, nextId, response) == Resolve(old(contacts), old(nextId), old(clock), email, phone)
    {
      ghost var before, firstId := contacts, nextId;
      var now := clock;
      clock := clock + 1;
      var matches := QueryIds(contacts, email, phone);
      QueryAgrees(contacts, email, phone);
      var matchingContacts := AgeSorted(contacts, matches);
      if |matchingContacts| == 0 {
        // The re-check filters on the truthy identifiers only, which is
        // `Matches`; with no concurrent writer it finds nothing either.
        var raceCheck := MatchIds(contacts, email, phone);
        assert raceCheck == {};
        var newContact := Create(email, phone, None, Primary, now);
        response := FormatResponse(newContact.id, [newContact]);
      } else {
        assert Elems(matchingContacts) == matches;
        response := MergeCluster(email, phone, matchingContacts, now);
      }
      ResolveKeepsInvariants(before, firstId, now, email, phone);
    }

    /** The part of `reconcileIdentity` after a match: collect the roots, load
        the cluster, elect, demote, extend and answer. */
    method MergeCluster(email: Option<string>, phone: Option<string>, matchingContacts: seq<Id>, now: nat)
      returns (response: Response)
      requires Consistent() && now < clock && StoreOk(contacts, nextId, now)
      requires MatchIds(contacts, email, phone) != {} && Elems(matchingContacts) == MatchIds(contacts, email, phone)
      modifies this
      ensures Consistent() && clock == old(clock)
      ensures Outcome(contacts, nextId, response) == Merge(old(contacts), old(nextId), now, email, phone)
    {
      ghost var matches := MatchIds(contacts, email, phone);
      var rootPrimaryIds := CollectRoots(matchingContacts);
      var related := ClusterIds(contacts, rootPrimaryIds);
      ClusterNonEmpty(contacts, matches);
      var sortedRelated := AgeSorted(contacts, related);
      var primaryId := sortedRelated[0];
      assert Elems(sortedRelated) == related;
      DemoteAll(sortedRelated, primaryId, now);
      var loaded := Rows(contacts, sortedRelated);
      var isNewEmail := Present(email) && email.value !in Values(loaded, Email);
      var isNewPhone := Present(phone) && phone.value !in Values(loaded, Phone);
      if isNewEmail || isNewPhone {
        var newSecondary := Create(email, phone, Some(primaryId), Secondary, now);
        response := FormatResponse(primaryId, loaded + [newSecondary]);
      } else {
        response := FormatResponse(primaryId, loaded);
      }
    }
  }
}
