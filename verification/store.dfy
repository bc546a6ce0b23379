/**
 * The local `subscriptions` table: one row per email, written only by the
 * insert-or-update statement and the unsubscribe statement. `Table` is the
 * table as a value, the functions `AfterUpsert` and `AfterUnsubscribe` say what
 * each statement does to it, and the class `SubscriptionTable` is the table
 * the program updates in place.
 */
module Store {
  import opened Wrappers

  /** Timestamps are the ISO-8601 text the program stores. */
  type Timestamp = string

  /**
   * One row. The column `subscribed` is an INTEGER holding 1 or 0, here `true`
   * or `false`; `unsubscribedAt == None` is SQL NULL.
   */
  datatype Subscription = Subscription(
    id: nat,
    email: string,
    firstName: string,
    vehicle: string,
    serviceDate: string,
    subscribed: bool,
    createdAt: Timestamp,
    unsubscribedAt: Option<Timestamp>)

  /**
   * The rows keyed by their UNIQUE email, and the next AUTOINCREMENT id: one more
   * than the largest id `sqlite_sequence` has handed out.
   */
  datatype Table = Table(rows: map<string, Subscription>, nextId: nat)

  /** A row is subscribed exactly when it carries no unsubscribe timestamp. */
  predicate StatusConsistent(r: Subscription) {
    r.subscribed <==> r.unsubscribedAt.None?
  }

  /**
   * What the program keeps true of the table: each row is filed under its own
   * email, its status agrees with its timestamp, and ids are distinct and below
   * the counter.
   */
  ghost predicate Consistent(t: Table) {
    && 1 <= t.nextId
    && (forall e :: e in t.rows ==>
          && t.rows[e].email == e
          && StatusConsistent(t.rows[e])
          && 1 <= t.rows[e].id < t.nextId)
    && (forall e, f :: e in t.rows && f in t.rows && t.rows[e].id == t.rows[f].id ==> e == f)
  }

  /** The table `CREATE TABLE IF NOT EXISTS` leaves behind on a fresh database. */
  const EmptyTable := Table(map[], 1)

  /**
   * `INSERT ... VALUES (?, ?, ?, ?, 1, ?) ON CONFLICT(email) DO UPDATE SET ...`:
   * a new email gets a fresh row; an existing one keeps its id and creation time,
   * has its three data fields replaced and is subscribed again. The statement
   * allocates an id before it meets the conflict on `email`, so the counter
   * advances on both paths and the update path leaves a gap in the ids.
   */
  function AfterUpsert(t: Table, email: string, firstName: string, vehicle: string,
                       serviceDate: string, now: Timestamp): (t': Table)
    ensures t'.rows.Keys == t.rows.Keys + {email}
    ensures forall e :: e in t.rows && e != email ==> e in t'.rows && t'.rows[e] == t.rows[e]
  {
    if email in t.rows then
      var prior := t.rows[email];
      Table(t.rows[email := prior.(firstName := firstName, vehicle := vehicle, serviceDate := serviceDate,
                                   subscribed := true, unsubscribedAt := None)],
            t.nextId + 1)
    else
      Table(t.rows[email := Subscription(t.nextId, email, firstName, vehicle, serviceDate, true, now, None)],
            t.nextId + 1)
  }

  /**
   * `UPDATE subscriptions SET subscribed = 0, unsubscribed_at = ? WHERE email = ?`:
   * marks the matching row, if there is one; no row is ever created or removed.
   */
  function AfterUnsubscribe(t: Table, email: string, now: Timestamp): (t': Table)
    ensures t'.rows.Keys == t.rows.Keys && t'.nextId == t.nextId
    ensures forall e :: e in t.rows && e != email ==> t'.rows[e] == t.rows[e]
  {
    if email in t.rows then
      Table(t.rows[email := t.rows[email].(subscribed := false, unsubscribedAt := Some(now))], t.nextId)
    else
      t
  }

  /** A new email adds exactly one row, subscribed, created now, with an id no other row has. */
  lemma UpsertInsertsRow(t: Table, email: string, firstName: string, vehicle: string,
                         serviceDate: string, now: Timestamp)
    requires Consistent(t) && email !in t.rows
    ensures var t' := AfterUpsert(t, email, firstName, vehicle, serviceDate, now);
      && |t'.rows| == |t.rows| + 1 && t'.nextId == t.nextId + 1
      && t'.rows[email] == Subscription(t.nextId, email, firstName, vehicle, serviceDate, true, now, None)
      && forall e :: e in t.rows ==> t.rows[e].id < t'.rows[email].id
  {
  }

  /**
   * An existing email keeps its row, id and creation time; the data fields are
   * replaced wholesale and the row is subscribed with no unsubscribe timestamp.
   * The id allocated for the insert that did not happen is spent all the same.
   */
  lemma UpsertUpdatesRow(t: Table, email: string, firstName: string, vehicle: string,
                         serviceDate: string, now: Timestamp)
    requires email in t.rows
    ensures var t' := AfterUpsert(t, email, firstName, vehicle, serviceDate, now);
      && |t'.rows| == |t.rows| && t'.nextId == t.nextId + 1
      && t'.rows[email].id == t.rows[email].id
      && t'.rows[email].createdAt == t.rows[email].createdAt
      && t'.rows[email].firstName == firstName
      && t'.rows[email].vehicle == vehicle
      && t'.rows[email].serviceDate == serviceDate
      && t'.rows[email].subscribed && t'.rows[email].unsubscribedAt == None
  {
    var t' := AfterUpsert(t, email, firstName, vehicle, serviceDate, now);
    assert t'.rows.Keys == t.rows.Keys;
  }

  /** Whatever the row was before, after an upsert it is subscribed with NULL `unsubscribed_at`. */
  lemma UpsertSubscribes(t: Table, email: string, firstName: string, vehicle: string,
                         serviceDate: string, now: Timestamp)
    ensures var r := AfterUpsert(t, email, firstName, vehicle, serviceDate, now).rows[email];
      r.subscribed && r.unsubscribedAt == None && r.email == (if email in t.rows then t.rows[email].email else email)
  {
  }

  lemma UpsertPreservesConsistency(t: Table, email: string, firstName: string, vehicle: string,
                                   serviceDate: string, now: Timestamp)
    requires Consistent(t)
    ensures Consistent(AfterUpsert(t, email, firstName, vehicle, serviceDate, now))
  {
    var t' := AfterUpsert(t, email, firstName, vehicle, serviceDate, now);
    if email in t.rows {
      assert forall e :: e in t'.rows ==> t'.rows[e].id == t.rows[e].id && t'.rows[e].email == e;
    } else {
      assert forall e :: e in t.rows ==> t'.rows[e] == t.rows[e];
      assert forall e :: e in t.rows ==> t'.rows[e].id < t'.rows[email].id;
    }
  }

  /**
   * Repeating an upsert with the same data leaves every row as the first left it,
   * whatever the clock says; only the id counter moves on.
   */
  lemma UpsertIdempotent(t: Table, email: string, firstName: string, vehicle: string,
                         serviceDate: string, now: Timestamp, later: Timestamp)
    ensures var once := AfterUpsert(t, email, firstName, vehicle, serviceDate, now);
      AfterUpsert(once, email, firstName, vehicle, serviceDate, later).rows == once.rows
  {
  }

  /** Unsubscribing a present email flips that row alone, stamping it with `now`. */
  lemma UnsubscribeMarksRow(t: Table, email: string, now: Timestamp)
    requires email in t.rows
    ensures var t' := AfterUnsubscribe(t, email, now);
      && t'.rows[email].subscribed == false
      && t'.rows[email].unsubscribedAt == Some(now)
      && t'.rows[email].(subscribed := t.rows[email].subscribed,
                         unsubscribedAt := t.rows[email].unsubscribedAt) == t.rows[email]
      && |t'.rows| == |t.rows|
  {
  }

  /** Unsubscribing an email with no row leaves the table exactly as it was. */
  lemma UnsubscribeAbsentIsNoOp(t: Table, email: string, now: Timestamp)
    requires email !in t.rows
    ensures AfterUnsubscribe(t, email, now) == t
  {
  }

  lemma UnsubscribePreservesConsistency(t: Table, email: string, now: Timestamp)
    requires Consistent(t)
    ensures Consistent(AfterUnsubscribe(t, email, now))
  {
  }

  /**
   * Subscribing again after an unsubscribe clears the unsubscribe: the row is
   * subscribed, has no unsubscribe timestamp, and is still the original row.
   */
  lemma ResubscribeClearsUnsubscribe(t: Table, email: string, firstName: string, vehicle: string,
                                     serviceDate: string, left: Timestamp, back: Timestamp)
    requires email in t.rows
    ensures var r := AfterUpsert(AfterUnsubscribe(t, email, left), email, firstName, vehicle, serviceDate, back).rows[email];
      && r.subscribed && r.unsubscribedAt == None
      && r.id == t.rows[email].id && r.createdAt == t.rows[email].createdAt
  {
  }

  /** One write statement issued against the table. */
  datatype Write =
    | Upsert(email: string, firstName: string, vehicle: string, serviceDate: string, now: Timestamp)
    | Unsubscribe(email: string, now: Timestamp)

  function Apply(t: Table, w: Write): (t': Table)
    ensures t.rows.Keys <= t'.rows.Keys
    ensures forall e :: e in t.rows ==>
      t'.rows[e].id == t.rows[e].id && t'.rows[e].createdAt == t.rows[e].createdAt
  {
    match w
    case Upsert(email, firstName, vehicle, serviceDate, now) =>
      AfterUpsert(t, email, firstName, vehicle, serviceDate, now)
    case Unsubscribe(email, now) =>
      AfterUnsubscribe(t, email, now)
  }

  /**
   * Any history of writes, applied in order. No row is ever deleted, and a row's
   * id and creation time are written once and never change.
   */
  function ApplyAll(t: Table, ws: seq<Write>): (t': Table)
    ensures t.rows.Keys <= t'.rows.Keys
    ensures forall e :: e in t.rows ==>
      t'.rows[e].id == t.rows[e].id && t'.rows[e].createdAt == t.rows[e].createdAt
    decreases |ws|
  {
    if ws == [] then t else ApplyAll(Apply(t, ws[0]), ws[1..])
  }

  /** Every history of writes keeps the table consistent. */
  lemma {:induction false} ApplyAllPreservesConsistency(t: Table, ws: seq<Write>)
    requires Consistent(t)
    ensures Consistent(ApplyAll(t, ws))
    decreases |ws|
  {
    if ws != [] {
      match ws[0] {
        case Upsert(email, firstName, vehicle, serviceDate, now) =>
          UpsertPreservesConsistency(t, email, firstName, vehicle, serviceDate, now);
        case Unsubscribe(email, now) =>
          UnsubscribePreservesConsistency(t, email, now);
      }
      ApplyAllPreservesConsistency(Apply(t, ws[0]), ws[1..]);
    }
  }

  /**
   * The last write to an email decides its status: after an upsert the row is
   * subscribed until an unsubscribe for that same email comes later.
   */
  lemma {:induction false} LastWriteDecidesStatus(t: Table, ws: seq<Write>, k: nat,
                                                  email: string, firstName: string, vehicle: string,
                                                  serviceDate: string, now: Timestamp)
    requires k < |ws| && ws[k] == Upsert(email, firstName, vehicle, serviceDate, now)
    requires forall i :: k < i < |ws| ==> ws[i].email != email
    ensures email in ApplyAll(t, ws).rows
    ensures var r := ApplyAll(t, ws).rows[email];
      r.subscribed && r.unsubscribedAt == None
      && r.firstName == firstName && r.vehicle == vehicle && r.serviceDate == serviceDate
    decreases |ws|
  {
    if k == 0 {
      UntouchedRowSurvives(Apply(t, ws[0]), ws[1..], email);
    } else {
      LastWriteDecidesStatus(Apply(t, ws[0]), ws[1..], k - 1, email, firstName, vehicle, serviceDate, now);
    }
  }

  /** Writes to other emails leave a row exactly as it is. */
  lemma {:induction false} UntouchedRowSurvives(t: Table, ws: seq<Write>, email: string)
    requires email in t.rows
    requires forall i :: 0 <= i < |ws| ==> ws[i].email != email
    ensures ApplyAll(t, ws).rows[email] == t.rows[email]
    decreases |ws|
  {
    if ws != [] {
      UntouchedRowSurvives(Apply(t, ws[0]), ws[1..], email);
    }
  }

  /** The subscriptions table as the program holds it, updated in place. */
  class SubscriptionTable {
    var rows: map<string, Subscription>
    var nextId: nat

    function State(): Table
      reads this
    {
      Table(rows, nextId)
    }

    ghost predicate Valid()
      reads this
    {
      Consistent(State())
    }

    /** `init_db` on a new database file: the table exists and is empty. */
    constructor ()
      ensures Valid() && State() == EmptyTable
    {
      rows := map[];
      nextId := 1;
    }

    /** `upsert_subscription`: one atomic insert-or-update keyed by email. */
    method Upsert(email: string, firstName: string, vehicle: string, serviceDate: string, now: Timestamp)
      requires Valid()
      modifies this
      ensures Valid()
      ensures State() == AfterUpsert(old(State()), email, firstName, vehicle, serviceDate, now)
    {
      UpsertPreservesConsistency(State(), email, firstName, vehicle, serviceDate, now);
      if email in rows {
        var row := rows[email];
        row := row.(firstName := firstName, vehicle := vehicle, serviceDate := serviceDate);
        row := row.(subscribed := true, unsubscribedAt := None);
        rows := rows[email := row];
      } else {
        rows := rows[email := Subscription(nextId, email, firstName, vehicle, serviceDate, true, now, None)];
      }
      nextId := nextId + 1;
    }

    /** `unsubscribe_db`: flags the row for `email` as unsubscribed at `now`, if it exists. */
    method Unsubscribe(email: string, now: Timestamp)
      requires Valid()
      modifies this
      ensures Valid()
      ensures State() == AfterUnsubscribe(old(State()), email, now)
    {
      UnsubscribePreservesConsistency(State(), email, now);
      if email in rows {
        var row := rows[email];
        rows := rows[email := row.(subscribed := false, unsubscribedAt := Some(now))];
      }
    }
  }
}
