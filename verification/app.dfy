/**
 * The two HTTP handlers, `POST /subscribe` and `POST /unsubscribe`. The JSON
 * body is the map `data` (a JSON null or other falsy body is the
 * empty map; a missing or non-JSON body is not modelled); the reply
 * is a status code with the `success` and `message` fields of the JSON
 * envelope. `storeFault` and `remoteFault` say whether the local statement or
 * the remote call raises, and with what text.
 */
module App {
  import opened Wrappers
  import Store
  import Text
  import Mailchimp

  datatype Response = Response(status: int, success: bool, message: string)

  /** The fields `/subscribe` requires, in the order it checks them. */
  const SubscribeFields: seq<string> := ["email", "first_name", "vehicle", "service_date"]

  /**
   * The first of `required` that `data` lacks, if any: every field before it is
   * present, and none is missing exactly when all are present.
   */
  function FirstMissing(required: seq<string>, data: map<string, string>): (r: Option<nat>)
    ensures r.None? <==> forall i :: 0 <= i < |required| ==> required[i] in data
    ensures r.Some? ==> r.value < |required| && required[r.value] !in data
    ensures r.Some? ==> forall i :: 0 <= i < r.value ==> required[i] in data
  {
    if required == [] then None
    else if required[0] !in data then Some(0)
    else match FirstMissing(required[1..], data)
      case None => None
      case Some(k) => Some(k + 1)
  }

  /** The 400 reply naming a missing field. */
  function MissingField(field: string): (r: Response)
    ensures r.status == 400 && !r.success
    ensures |field| < |r.message| && r.message[|r.message| - |field|..] == field
    ensures r.message[..|r.message| - |field|] == "Falta campo: "
  {
    Response(400, false, "Falta campo: " + field)
  }

  /**
   * The check `/subscribe` runs before touching anything: the reply for the first
   * missing field, if one is missing.
   */
  function CheckSubscribeFields(data: map<string, string>): (r: Option<Response>)
    ensures r.None? <==> forall f :: f in SubscribeFields ==> f in data
    ensures r.Some? ==> exists i :: 0 <= i < |SubscribeFields| && SubscribeFields[i] !in data
                                    && r.value == MissingField(SubscribeFields[i])
                                    && forall j :: 0 <= j < i ==> SubscribeFields[j] in data
  {
    match FirstMissing(SubscribeFields, data)
    case None => None
    case Some(k) => Some(MissingField(SubscribeFields[k]))
  }

  /** With `email` present and `first_name` absent, the reply names `first_name`, whatever else is sent. */
  lemma MissingFirstNameReported(data: map<string, string>)
    requires "email" in data && "first_name" !in data
    ensures CheckSubscribeFields(data) == Some(Response(400, false, "Falta campo: first_name"))
  {
    var r := FirstMissing(SubscribeFields, data);
    assert SubscribeFields[0] == "email" && SubscribeFields[1] == "first_name";
    assert r.Some?;
    assert r.value == 1;
    assert "Falta campo: " + "first_name" == "Falta campo: first_name";
  }

  /**
   * The local key is case-sensitive and the remote key is not: subscribing `a`
   * and then unsubscribing `b`, which differs from `a` only in letter case,
   * leaves the local row of `a` subscribed and touches no row of `b`, while the
   * unsubscribe call addresses the very contact the subscribe created.
   */
  lemma UnsubscribeInOtherCaseMissesLocalRow(t: Store.Table, listId: string, md5: string -> string,
                                             a: string, b: string,
                                             firstName: string, vehicle: string, serviceDate: string,
                                             now: Store.Timestamp, later: Store.Timestamp)
    requires a != b && Text.EqualIgnoringCase(a, b) && b !in t.rows
    ensures var after := Store.AfterUnsubscribe(
              Store.AfterUpsert(t, a, firstName, vehicle, serviceDate, now), b, later);
      && a in after.rows && after.rows[a].subscribed
      && b !in after.rows
      && Mailchimp.UnsubscribeCall(listId, md5, b).subscriberHash
         == Mailchimp.SubscribeCall(listId, md5, a, firstName, vehicle, serviceDate).subscriberHash
  {
    Mailchimp.SameContactIgnoringCase(md5, a, b);
    Store.UpsertSubscribes(t, a, firstName, vehicle, serviceDate, now);
  }

  /**
   * `subscribe`: check the fields; then write locally, then push to the remote
   * list. A remote failure gives 500 and the local write stays; a local failure
   * gives 500 before anything is pushed.
   */
  method Subscribe(db: Store.SubscriptionTable, mc: Mailchimp.Client, data: map<string, string>,
                   now: Store.Timestamp, storeFault: Option<string>, remoteFault: Option<string>)
    returns (resp: Response)
    requires db.Valid()
    modifies db, mc
    ensures db.Valid()
    ensures resp.success <==> resp.status == 200
    ensures CheckSubscribeFields(data).Some? ==>
      resp == CheckSubscribeFields(data).value && db.State() == old(db.State()) && mc.sent == old(mc.sent)
    ensures CheckSubscribeFields(data).None? && storeFault.Some? ==>
      resp == Response(500, false, storeFault.value) && db.State() == old(db.State()) && mc.sent == old(mc.sent)
    ensures CheckSubscribeFields(data).None? && storeFault.None? ==>
      && db.State() == Store.AfterUpsert(old(db.State()), data["email"], data["first_name"], data["vehicle"],
                                         data["service_date"], now)
      && mc.sent == old(mc.sent) + [Mailchimp.SubscribeCall(mc.listId, mc.md5, data["email"], data["first_name"],
                                                            data["vehicle"], data["service_date"])]
      && resp == (if remoteFault.Some? then Response(500, false, remoteFault.value)
                  else Response(200, true, "Subscribed"))
  {
    var missing := CheckSubscribeFields(data);
    if missing.Some? {
      return missing.value;
    }
    var email, firstName, vehicle, serviceDate := data["email"], data["first_name"], data["vehicle"], data["service_date"];
    if storeFault.Some? {
      return Response(500, false, storeFault.value);
    }
    db.Upsert(email, firstName, vehicle, serviceDate, now);
    var err := mc.Subscribe(email, firstName, vehicle, serviceDate, remoteFault);
    if err.Some? {
      return Response(500, false, err.value);
    }
    return Response(200, true, "Subscribed");
  }

  /**
   * `unsubscribe`: require `email`; then flag the local row, then push the
   * unsubscribe. The remote call is made even when no local row matched.
   */
  method Unsubscribe(db: Store.SubscriptionTable, mc: Mailchimp.Client, data: map<string, string>,
                     now: Store.Timestamp, storeFault: Option<string>, remoteFault: Option<string>)
    returns (resp: Response)
    requires db.Valid()
    modifies db, mc
    ensures db.Valid()
    ensures resp.success <==> resp.status == 200
    ensures "email" !in data ==>
      resp == MissingField("email") && db.State() == old(db.State()) && mc.sent == old(mc.sent)
    ensures "email" in data && storeFault.Some? ==>
      resp == Response(500, false, storeFault.value) && db.State() == old(db.State()) && mc.sent == old(mc.sent)
    ensures "email" in data && storeFault.None? ==>
      && db.State() == Store.AfterUnsubscribe(old(db.State()), data["email"], now)
      && mc.sent == old(mc.sent) + [Mailchimp.UnsubscribeCall(mc.listId, mc.md5, data["email"])]
      && resp == (if remoteFault.Some? then Response(500, false, remoteFault.value)
                  else Response(200, true, "Unsubscribed"))
  {
    if "email" !in data {
      return MissingField("email");
    }
    var email := data["email"];
    if storeFault.Some? {
      return Response(500, false, storeFault.value);
    }
    db.Unsubscribe(email, now);
    var err := mc.Unsubscribe(email, remoteFault);
    if err.Some? {
      return Response(500, false, err.value);
    }
    return Response(200, true, "Unsubscribed");
  }
}
