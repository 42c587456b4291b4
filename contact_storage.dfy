/** The Realm contact table (`ContactDBModel`) and the operations of `ContactStorageManager`. */
module ContactStorage {
  import opened Wrappers
  import opened Text
  import opened Entities

  /** A row of the contact table; `subscription` is the stored raw string. */
  datatype ContactRecord = ContactRecord(jid: string, name: Option<string>, avatar: Option<Bytes>, subscription: string)
  {
    /** The `subscriptionType` getter: unknown raw strings read as `.none`. */
    function SubscriptionType(): (s: ContactSubscription)
      ensures SubscriptionFromRaw(subscription).Some? ==> SubscriptionRaw(s) == subscription
      ensures SubscriptionFromRaw(subscription).None? ==> s == NoSubscription
    {
      match SubscriptionFromRaw(subscription)
      case Some(s) => s
      case None => NoSubscription
    }

    /** The `subscriptionType` setter: stores the raw string of the new value. */
    function WithSubscriptionType(s: ContactSubscription): (r: ContactRecord)
      ensures r.jid == jid && r.name == name && r.avatar == avatar
    {
      this.(subscription := SubscriptionRaw(s))
    }
  }

  /** `ContactDBModel()`: empty jid, no name, no avatar, subscription "". */
  const NewContactRecord := ContactRecord("", None, None, "")

  /** A fresh record reads as `.none`. */
  lemma NewRecordReadsNone()
    ensures NewContactRecord.SubscriptionType() == NoSubscription
  {
  }

  /** Any raw string that is not a case name reads as `.none`. */
  lemma UnknownRawReadsNone(r: ContactRecord)
    requires forall s: ContactSubscription :: SubscriptionRaw(s) != r.subscription
    ensures r.SubscriptionType() == NoSubscription
  {
  }

  /** Setting `subscriptionType` and reading it back gives the value set. */
  lemma SubscriptionSetGet(r: ContactRecord, s: ContactSubscription)
    ensures r.WithSubscriptionType(s).SubscriptionType() == s
  {
    SubscriptionRawRoundTrip(s);
  }

  /** The contact value built from a row, as `loadContacts` and `acceptSubscription` build it. */
  function ContactOf(r: ContactRecord): ChateeContact
  {
    NewContact(r.jid, r.name, r.avatar, r.SubscriptionType())
  }

  /** The query `subscription = '<raw>'` compares the stored raw string. */
  predicate Listed(r: ContactRecord, sub: ContactSubscription)
  {
    r.subscription == SubscriptionRaw(sub)
  }

  /**
   * A bare record, as `saveAvatar` creates for an unknown jid, reads as
   * `.none` but is not returned by `loadContacts` for any subscription,
   * `.none` included, because its raw string is "".
   */
  lemma BareRecordNeverListed(jid: string, sub: ContactSubscription)
    ensures NewContactRecord.(jid := jid).SubscriptionType() == NoSubscription
    ensures !Listed(NewContactRecord.(jid := jid), sub)
  {
  }

  /** The contact table of one account, keyed by its primary key `jid`. */
  class ContactStorageManager {
    var contacts: map<string, ContactRecord>

    /** Every row is stored under its own primary key. */
    ghost predicate Valid()
      reads this
    {
      forall j :: j in contacts ==> contacts[j].jid == j
    }

    constructor ()
      ensures Valid() && contacts == map[]
    {
      contacts := map[];
    }

    /**
     * `addContact`: writes when the jid is unknown or its stored subscription
     * differs; the row's name, avatar and subscription are all replaced.
     * Returns the completion's contact, or `None` when no completion is made.
     */
    method AddContact(contact: ChateeContact) returns (completion: Option<ChateeContact>)
      requires Valid()
      modifies this
      ensures Valid()
      ensures var writes := contact.jid !in old(contacts) || old(contacts)[contact.jid].SubscriptionType() != contact.subscription;
        if writes then
          completion == Some(contact) &&
          contacts == old(contacts)[contact.jid := ContactRecord(contact.jid, contact.name, contact.avatar, SubscriptionRaw(contact.subscription))]
        else
          completion.None? && contacts == old(contacts)
    {
      if contact.jid !in contacts || contacts[contact.jid].SubscriptionType() != contact.subscription {
        var row := NewContactRecord.(jid := contact.jid, name := contact.name, avatar := contact.avatar).WithSubscriptionType(contact.subscription);
        contacts := contacts[contact.jid := row];
        completion := Some(contact);
      } else {
        completion := None;
      }
    }

    /** `removeContact`: deletes the row, or reports `noContactWithJid` and changes nothing. */
    method RemoveContact(contact: ChateeContact) returns (r: Result<ChateeContact, DatabaseError>)
      requires Valid()
      modifies this
      ensures Valid()
      ensures contact.jid in old(contacts) ==> r == Success(contact) && contacts == old(contacts) - {contact.jid}
      ensures contact.jid !in old(contacts) ==> r == Failure(NoContactWithJid) && contacts == old(contacts)
    {
      if contact.jid !in contacts {
        return Failure(NoContactWithJid);
      }
      contacts := contacts - {contact.jid};
      r := Success(contact);
    }

    /**
     * `loadContacts(subscriptionType:)`: one contact per row whose raw
     * subscription string is that of the requested case, in the table's
     * (unspecified) iteration order.
     */
    method LoadContacts(sub: ContactSubscription) returns (cs: seq<ChateeContact>)
      requires Valid()
      ensures forall i :: 0 <= i < |cs| ==> cs[i].jid in contacts && Listed(contacts[cs[i].jid], sub) && cs[i] == ContactOf(contacts[cs[i].jid])
      ensures forall j :: j in contacts && Listed(contacts[j], sub) ==> exists i :: 0 <= i < |cs| && cs[i].jid == j
      ensures forall i, k :: 0 <= i < k < |cs| ==> cs[i].jid != cs[k].jid
    {
      cs := [];
      var rest := contacts.Keys;
      while rest != {}
        invariant rest <= contacts.Keys
        invariant forall i :: 0 <= i < |cs| ==> cs[i].jid in contacts && cs[i].jid !in rest && Listed(contacts[cs[i].jid], sub) && cs[i] == ContactOf(contacts[cs[i].jid])
        invariant forall j :: j in contacts && j !in rest && Listed(contacts[j], sub) ==> exists i :: 0 <= i < |cs| && cs[i].jid == j
        invariant forall i, k :: 0 <= i < k < |cs| ==> cs[i].jid != cs[k].jid
        decreases rest
      {
        var j :| j in rest;
        if Listed(contacts[j], sub) {
          var before := cs;
          cs := cs + [ContactOf(contacts[j])];
          assert forall i :: 0 <= i < |before| ==> cs[i] == before[i];
          assert cs[|cs| - 1].jid == j;
        }
        rest := rest - {j};
      }
    }

    /** `acceptSubscription`: the row's subscription becomes `.both`; name and avatar are kept. */
    method AcceptSubscription(jid: string) returns (r: Result<ChateeContact, DatabaseError>)
      requires Valid()
      modifies this
      ensures Valid()
      ensures jid !in old(contacts) ==> r == Failure(NoContactWithJid) && contacts == old(contacts)
      ensures jid in old(contacts) ==>
        contacts == old(contacts)[jid := old(contacts)[jid].(subscription := "both")] &&
        r == Success(NewContact(jid, old(contacts)[jid].name, old(contacts)[jid].avatar, Both))
    {
      if jid !in contacts {
        return Failure(NoContactWithJid);
      }
      var row := contacts[jid].WithSubscriptionType(Both);
      contacts := contacts[jid := row];
      SubscriptionSetGet(row, Both);
      r := Success(ContactOf(row));
    }

    /** `rejectSubscription`: deletes the row and reports true, or (false, `noContactWithJid`). */
    method RejectSubscription(jid: string) returns (ok: bool, err: Option<DatabaseError>)
      requires Valid()
      modifies this
      ensures Valid()
      ensures jid in old(contacts) ==> ok && err.None? && contacts == old(contacts) - {jid}
      ensures jid !in old(contacts) ==> !ok && err == Some(NoContactWithJid) && contacts == old(contacts)
    {
      if jid !in contacts {
        return false, Some(NoContactWithJid);
      }
      contacts := contacts - {jid};
      ok, err := true, None;
    }

    /**
     * `saveAvatar`: sets the avatar of a known row and reports it; for an
     * unknown jid it adds a bare row without the avatar and reports nil.
     */
    method SaveAvatar(avatar: Bytes, jid: string) returns (reported: Option<Bytes>)
      requires Valid()
      modifies this
      ensures Valid()
      ensures jid in old(contacts) ==> contacts == old(contacts)[jid := old(contacts)[jid].(avatar := Some(avatar))] && reported == Some(avatar)
      ensures jid !in old(contacts) ==> contacts == old(contacts)[jid := NewContactRecord.(jid := jid)] && reported.None?
    {
      if jid in contacts {
        contacts := contacts[jid := contacts[jid].(avatar := Some(avatar))];
        reported := Some(avatar);
      } else {
        contacts := contacts[jid := NewContactRecord.(jid := jid)];
        reported := None;
      }
    }

    /** `getName`: the stored name, nil when the jid has no row (or the row has no name). */
    function GetName(jid: string): (r: Option<string>)
      reads this
      ensures jid !in contacts ==> r.None?
      ensures jid in contacts ==> r == contacts[jid].name
    {
      if jid in contacts then contacts[jid].name else None
    }

    /** `getAvatar`: the stored avatar, nil when the jid has no row (or the row has no avatar). */
    function GetAvatar(jid: string): (r: Option<Bytes>)
      reads this
      ensures jid !in contacts ==> r.None?
      ensures jid in contacts ==> r == contacts[jid].avatar
    {
      if jid in contacts then contacts[jid].avatar else None
    }
  }
}
