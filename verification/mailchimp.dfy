/**
 * The remote audience on the email-marketing service, as far as this program
 * sees it: the calls it sends. A contact is addressed by the MD5 hex digest of
 * its lower-cased email; the digest is the client's `md5` function, of which
 * nothing is assumed.
 */
module Mailchimp {
  import opened Wrappers
  import Text

  /**
   * `hashlib.md5(email.lower().encode()).hexdigest()`: the digest of the
   * lower-cased email, which every spelling of the email in another letter case
   * shares.
   */
  function SubscriberHash(md5: string -> string, email: string): (h: string)
    ensures forall e :: Text.EqualIgnoringCase(e, email) ==> md5(Text.Lower(e)) == h
  {
    Text.CaseVariantsLowerAlike(email);
    md5(Text.Lower(email))
  }

  /** Emails that differ only in letter case address the same remote contact, for any digest. */
  lemma SameContactIgnoringCase(md5: string -> string, a: string, b: string)
    requires Text.EqualIgnoringCase(a, b)
    ensures SubscriberHash(md5, a) == SubscriberHash(md5, b)
  {
    Text.LowerEqualIff(a, b);
  }

  /** An email and its lower-cased form address the same remote contact. */
  lemma LoweredEmailSameContact(md5: string -> string, email: string)
    ensures SubscriberHash(md5, Text.Lower(email)) == SubscriberHash(md5, email)
  {
    Text.LowerIdempotent(email);
  }

  /**
   * Two rows of the local table, whose email key is case-sensitive, can share one
   * remote contact: "Ana@x.io" and "ana@x.io" are different keys with one hash.
   */
  lemma CaseVariantsShareContact(md5: string -> string)
    ensures "Ana@x.io" != "ana@x.io"
    ensures SubscriberHash(md5, "Ana@x.io") == SubscriberHash(md5, "ana@x.io")
  {
    assert "Ana@x.io"[0] != "ana@x.io"[0];
    assert Text.EqualIgnoringCase("Ana@x.io", "ana@x.io");
    SameContactIgnoringCase(md5, "Ana@x.io", "ana@x.io");
  }

  /** The `merge_fields` of a subscribe call. */
  datatype MergeFields = MergeFields(fname: string, vehicle: string, serviceDate: string)

  /** One request sent to the service. */
  datatype Call =
    | SetListMember(listId: string, subscriberHash: string, emailAddress: string,
                    statusIfNew: string, status: string, mergeFields: MergeFields, tags: seq<string>)
    | UpdateListMember(listId: string, subscriberHash: string, status: string)

  const OffersTag := "OFFERS"

  /** The `set_list_member` request `subscribe_mailchimp` builds. */
  function SubscribeCall(listId: string, md5: string -> string, email: string, firstName: string,
                         vehicle: string, serviceDate: string): (c: Call)
    ensures c.SetListMember? && c.listId == listId
    ensures c.emailAddress == email && c.subscriberHash == md5(Text.Lower(c.emailAddress))
    ensures c.status == "subscribed" && c.statusIfNew == "subscribed" && c.tags == [OffersTag]
    ensures c.mergeFields == MergeFields(firstName, vehicle, serviceDate)
  {
    SetListMember(listId, SubscriberHash(md5, email), email, "subscribed", "subscribed",
                  MergeFields(firstName, vehicle, serviceDate), [OffersTag])
  }

  /** The `update_list_member` request `unsubscribe_mailchimp` builds. */
  function UnsubscribeCall(listId: string, md5: string -> string, email: string): (c: Call)
    ensures c.UpdateListMember? && c.listId == listId && c.status == "unsubscribed"
    ensures forall firstName, vehicle, serviceDate ::
      SubscribeCall(listId, md5, email, firstName, vehicle, serviceDate).subscriberHash == c.subscriberHash
  {
    UpdateListMember(listId, SubscriberHash(md5, email), "unsubscribed")
  }

  /**
   * A subscribe and a later unsubscribe for the same address, typed with different
   * letter case, reach the same remote contact.
   */
  lemma SubscribeAndUnsubscribeMeet(listId: string, md5: string -> string, a: string, b: string,
                                    firstName: string, vehicle: string, serviceDate: string)
    requires Text.EqualIgnoringCase(a, b)
    ensures SubscribeCall(listId, md5, a, firstName, vehicle, serviceDate).subscriberHash
         == UnsubscribeCall(listId, md5, b).subscriberHash
  {
    SameContactIgnoringCase(md5, a, b);
  }

  /** The client, configured once at start-up, and the calls it has sent so far. */
  class Client {
    const md5: string -> string
    const listId: string
    var sent: seq<Call>

    constructor (md5: string -> string, listId: string)
      ensures this.md5 == md5 && this.listId == listId && sent == []
    {
      this.md5 := md5;
      this.listId := listId;
      sent := [];
    }

    /**
     * `subscribe_mailchimp`: create or update the contact as subscribed, with its
     * three merge fields and the offers tag. `fault` is the service's answer: an
     * error text, re-raised to the caller, or none.
     */
    method Subscribe(email: string, firstName: string, vehicle: string, serviceDate: string,
                     fault: Option<string>) returns (err: Option<string>)
      modifies this
      ensures sent == old(sent) + [SubscribeCall(listId, md5, email, firstName, vehicle, serviceDate)]
      ensures err == fault
    {
      sent := sent + [SubscribeCall(listId, md5, email, firstName, vehicle, serviceDate)];
      err := fault;
    }

    /** `unsubscribe_mailchimp`: set the contact's status to unsubscribed, nothing else. */
    method Unsubscribe(email: string, fault: Option<string>) returns (err: Option<string>)
      modifies this
      ensures sent == old(sent) + [UnsubscribeCall(listId, md5, email)]
      ensures err == fault
    {
      sent := sent + [UnsubscribeCall(listId, md5, email)];
      err := fault;
    }
  }
}
