# Subscription sync: local table and remote list

A Dafny model of a small integration utility. It keeps customer subscriptions in a
local SQLite table called `subscriptions`, with one row per email, and mirrors them to
a Mailchimp audience. It has two entry points:

- a Flask app (`app.py`) with `POST /subscribe` and `POST /unsubscribe`;
- a command-line script (`suscripcion.py`) that checks its settings, prompts for one
  customer and subscribes them.

The files:

- `wrappers.dfy`: `Option`, used for SQL NULL, unset settings and an error that may
  occur.
- `text.dfy`: Python's `str.strip()`, `str.lower()` and `str.startswith`.
  `strip()` is characterised by the one whitespace-bounded window it keeps
  (`StripUnique`).
- `store.dfy`: the `subscriptions` table.
  - `Table` is the table as a value: rows keyed by the UNIQUE email, plus the
    AUTOINCREMENT counter.
  - `AfterUpsert` and `AfterUnsubscribe` say what each of the two SQL statements does
    to it.
  - `Consistent` is the invariant: one row per email, distinct ids, and
    `subscribed` holds exactly when `unsubscribed_at` is NULL.
  - `SubscriptionTable` is the class holding the map and the counter. Its methods
    update them in place and are proved against the two functions.
- `mailchimp.dfy`: the subscriber hash, which is `md5(email.lower())`, and the client.
  The client records each request it sends. Each call may fail, and the caller
  supplies the failure.
- `app.dfy`: the two HTTP handlers. Each checks the required fields in a fixed order,
  then writes locally, then pushes to the remote list. Nothing is rolled back.
- `cli.dfy`: the start-up settings gate, the vehicle string `make - model - year`
  with its inverse `SplitVehicle`, and `main`.

The clock, the MD5 digest and the outcome of each database statement and remote call
are parameters. The `md5` function is a constant of the client, and nothing about it
is assumed. A database failure is `storeFault`, a remote failure is `remoteFault`, and
a failure of the script's `init_db` is `initFault`. Each is either no error or the
error text that is reported.

## Model

| member | source | states |
|---|---|---|
| `Text.Strip` | suscripcion.py:101-110 | the stripped answer is no longer than the input and starts and ends with a non-space character (or is empty) |
| `Text.SkipSpace` | suscripcion.py:101 | the scan from the left stops at the first non-space character, and everything it passed is whitespace |
| `Text.SkipSpaceBack` | suscripcion.py:101 | the scan from the right stops after the last non-space character, and everything it passed is whitespace |
| `Text.StripUnique` | suscripcion.py:101-110 | any slice with only whitespace outside it and non-space ends is exactly what `strip()` returns |
| `Text.StripIdempotent` | suscripcion.py:101-110 | stripping an already stripped answer changes nothing |
| `Text.StripIgnoresPadding` | suscripcion.py:101-110 | whitespace typed around an answer does not change the stripped value |
| `Text.LowerChar` | app.py:82 | one character of `lower()`: it changes exactly when it is an ASCII or Latin-1 capital, is then moved up by 32, and the result is never one of those capitals |
| `Text.Lower` | app.py:82 | `lower()` keeps the length and folds each character on its own |
| `Text.LowerEqualIff` | app.py:82 | two strings lower-case to the same string if and only if they differ only in letter case |
| `Text.CaseVariantsLowerAlike` | app.py:82 | every spelling of an email in another letter case lower-cases to the same string |
| `Text.StartsWith` | suscripcion.py:27 | `startswith` holds exactly when the prefix is no longer than the string and agrees with it position by position |
| `Text.LowerIdempotent` | suscripcion.py:79 | lower-casing an already lower-cased string changes nothing |
| `Store.AfterUpsert` | app.py:49-65 | the upsert's rows are the old rows plus the given email; every other row is unchanged |
| `Store.AfterUnsubscribe` | app.py:67-78 | the unsubscribe creates and removes no row and leaves every other row and the counter unchanged |
| `Store.UpsertInsertsRow` | app.py:53-56 | a new email adds exactly one row, holding the given data, `subscribed=1`, `created_at=now`, NULL `unsubscribed_at` and an id above every existing id, and the id counter advances by one |
| `Store.UpsertUpdatesRow` | suscripcion.py:63-73 | an existing email keeps the row count, its id and its `created_at`; the three data fields are replaced, `subscribed=1` and `unsubscribed_at` is NULL; the id the statement allocated before meeting the conflict is spent, so the counter still advances by one |
| `Store.UpsertSubscribes` | app.py:57-62 | after any upsert the row is subscribed with NULL `unsubscribed_at`, whatever it was before |
| `Store.UpsertPreservesConsistency` | app.py:53-63 | the upsert keeps one row per email, distinct ids and the subscribed/`unsubscribed_at` agreement |
| `Store.UpsertIdempotent` | suscripcion.py:63-73 | repeating an upsert with the same data, at any later time, leaves every row as the first upsert left it |
| `Store.UnsubscribeMarksRow` | app.py:71-76 | on a present email the row gets `subscribed=0` and `unsubscribed_at=now`, every other field is kept, and the row count is unchanged |
| `Store.UnsubscribeAbsentIsNoOp` | app.py:72-75 | on an absent email the table is unchanged and no row is created |
| `Store.UnsubscribePreservesConsistency` | app.py:72-74 | the unsubscribe keeps one row per email, distinct ids and the subscribed/`unsubscribed_at` agreement |
| `Store.ResubscribeClearsUnsubscribe` | app.py:57-62 | unsubscribe followed by upsert leaves the original row (same id and `created_at`) subscribed with NULL `unsubscribed_at` |
| `Store.Apply` | app.py:49-76 | no single write removes a row or changes a row's id or `created_at` |
| `Store.ApplyAll` | app.py:49-76 | over any history of writes no row is deleted, and each row's id and `created_at` never change |
| `Store.ApplyAllPreservesConsistency` | app.py:35-44 | every history of upserts and unsubscribes keeps the table consistent |
| `Store.LastWriteDecidesStatus` | app.py:57-62 | after an upsert with no later write to that email, the row holds that upsert's data and is subscribed |
| `Store.UntouchedRowSurvives` | app.py:75 | writes keyed by other emails leave a row exactly as it is |
| `Store.SubscriptionTable.constructor` | app.py:31-47 | a fresh table is empty and consistent, and its counter starts at 1 |
| `Store.SubscriptionTable.Upsert` | app.py:49-65 | the table after `upsert_subscription` is `AfterUpsert` of the table before, and it stays consistent |
| `Store.SubscriptionTable.Unsubscribe` | app.py:67-78 | the table after `unsubscribe_db` is `AfterUnsubscribe` of the table before, and it stays consistent |
| `Mailchimp.SubscriberHash` | app.py:82 | the remote contact key is the digest of the lower-cased email, so every spelling of the email in another letter case yields the same key (partner: `SameContactIgnoringCase`) |
| `Mailchimp.SubscribeCall` | app.py:82-95 | the `set_list_member` request: the list id, the email address as typed with the hash of its lower-cased form, status and status_if_new "subscribed", the FNAME/VEHICLE/SERVICE_DATE merge fields and the single OFFERS tag |
| `Mailchimp.UnsubscribeCall` | app.py:102-105 | the `update_list_member` request with status "unsubscribed", addressed to the same contact any subscribe request for that email addresses, whatever its merge fields |
| `Mailchimp.SameContactIgnoringCase` | app.py:102 | emails that differ only in letter case get the same subscriber hash, for any digest function |
| `Mailchimp.LoweredEmailSameContact` | suscripcion.py:79 | an email and its lower-cased form get the same subscriber hash |
| `Mailchimp.CaseVariantsShareContact` | app.py:82 | two distinct local keys ("Ana@x.io", "ana@x.io") map to one remote contact |
| `Mailchimp.SubscribeAndUnsubscribeMeet` | app.py:80-105 | a subscribe and an unsubscribe for the same address in different letter case address the same remote contact |
| `Mailchimp.Client.constructor` | app.py:22-26 | the client holds the given digest and list id and has sent nothing |
| `Mailchimp.Client.Subscribe` | app.py:80-98 | one `set_list_member` call is sent: the hash of the lower-cased email, status and status_if_new "subscribed", the three merge fields and the OFFERS tag; the service's error, if any, is raised |
| `Mailchimp.Client.Unsubscribe` | app.py:100-108 | one `update_list_member` call is sent with status "unsubscribed" to the hash of the lower-cased email; the service's error, if any, is raised |
| `App.MissingField` | app.py:122-125 | the reply for a missing field is a 400 with `success` false whose message is `Falta campo: ` followed by the field's name (also the `/unsubscribe` reply at app.py:145) |
| `App.FirstMissing` | app.py:120-121 | returns the first required field absent from the request, with every earlier field present; returns none exactly when all are present |
| `App.CheckSubscribeFields` | app.py:118-125 | `/subscribe` answers 400 "Falta campo: <field>" for the first missing field in the order email, first_name, vehicle, service_date, and passes only when all four are present |
| `App.MissingFirstNameReported` | app.py:120-125 | with `email` sent and `first_name` missing, the reply is 400 "Falta campo: first_name", whatever else is sent |
| `App.UnsubscribeInOtherCaseMissesLocalRow` | app.py:72-75 | for any two distinct emails equal up to letter case, subscribing the first and unsubscribing the second (with no row of its own) leaves the first row subscribed and creates no row for the second, while the remote unsubscribe reaches the contact the subscribe created |
| `App.Subscribe` | app.py:116-139 | a missing field gives its 400 and touches nothing; a local failure gives 500 and nothing is pushed; otherwise the row is upserted, then the subscribe call is sent, and a remote failure gives 500 with the local row kept; success gives 200 "Subscribed" |
| `App.Unsubscribe` | app.py:141-155 | a missing email gives 400 "Falta campo: email" and touches nothing; otherwise the local unsubscribe happens first, then the remote call is sent (even when no local row matched); a failure gives 500, and success gives 200 "Unsubscribed" |
| `Cli.CheckConfig` | suscripcion.py:17-30 | the script proceeds if and only if API key, server and list id are all non-empty and the server starts with "us" or "eu"; otherwise it exits with status 1, reporting missing settings before a bad server |
| `Cli.RegionPrefixIsExact` | suscripcion.py:27-30 | "us15" is accepted and "US15" is rejected: the prefix check is case-sensitive |
| `Cli.Vehicle` | suscripcion.py:108 | the vehicle string holds make, a " - " separator, model, another separator and year, in that order and at those positions (partner: `VehicleSplitsBack`, which reads it back) |
| `Cli.CustomerOf` | suscripcion.py:101-110 | the customer data `main` passes on: email, name and service date are the stripped answers and the vehicle is the `make - model - year` text of the stripped make, model and year; the stripped fields are already stripped (stripping again changes nothing) and no longer than typed, and the vehicle splits back into the stripped make, model and year when those are separator-free (partner: `PaddingIgnored`) |
| `Cli.VehicleSplitsBack` | suscripcion.py:105-108 | the vehicle string `make - model - year` splits back at its first two " - " into the same make, model and year whenever make and model hold no " - " and do not end in " -" (a plain '-', as in "Mercedes-Benz", is fine) |
| `Cli.PaddingIgnored` | suscripcion.py:100-110 | whitespace typed before and after any of the six answers, different at each prompt, changes none of the stored or pushed customer data |
| `Cli.SubscribeCustomer` | suscripcion.py:98-119 | `main` strips the answers and joins make, model and year with " - ". On a local failure it reports the error and writes nothing. Otherwise it upserts locally, then sends the subscribe call; a remote failure is reported and the local row is kept |
| `Cli.Run` | suscripcion.py:17-123 | a bad configuration exits with status 1 before the table or the remote list is touched; so does a failing `init_db` (suscripcion.py:122), whose error nothing catches, and `main` then never runs; otherwise `main` runs with the effect above, sending to the list id the gate checked, and the exit status is 0 |

`suscripcion.py` issues the same insert-or-update statement as `app.py`
(suscripcion.py:60-75 and app.py:49-65). Both are modelled once, by
`Store.AfterUpsert` and `Store.SubscriptionTable.Upsert`.

## Left out

- `consultar_usuarios.py` is not part of this model. It is read-only reporting
  (menus, `input()` loops, printing). It also reads a `rating` column that neither
  `CREATE TABLE` statement creates, so rating is not modelled.
- `suscripcion.py` has no format validators, no re-prompting, no confirmation step and
  no rating step: `main` reads each answer once with `.strip()` only
  (suscripcion.py:101-110), and the model does the same.
- The SQLite engine is not modelled: connect, commit, close and the `CREATE TABLE`
  text. The table is a map. A failing statement is `storeFault`. It is treated as
  having no effect and as raising to the caller.
- `Store.SubscriptionTable.constructor` models `init_db` on a new database file. On an
  existing file, `CREATE TABLE IF NOT EXISTS` keeps the table, which here is the
  existing object passed to the handlers.
- AUTOINCREMENT: the counter stands for `sqlite_sequence`. Every upsert statement
  allocates an id before it meets the conflict on `email`, so the counter advances on
  the update path too and ids have gaps. The unsubscribe statement allocates none.
  Ids that SQLite spends on statements outside the two modelled ones are not modelled.
- Timestamps are opaque text passed in as `now`. `datetime.utcnow().isoformat()` and
  `datetime.now(timezone.utc).isoformat()` differ in their offset suffix, and that
  difference is not modelled.
- `subscribed` is an INTEGER column holding 1 or 0. It is modelled as a boolean.
- Flask plumbing is not modelled. The JSON body is a map from field name to string.
  A JSON `null` body, or any other falsy JSON value, is the empty map (the `or {}` at
  app.py:118 and app.py:143). A missing or non-JSON body is rejected by Flask before
  the handler's own check and is not modelled. Non-string JSON values and truthy bodies
  that are not JSON objects are not modelled either.
- The remote service is modelled as the list of requests the client sends, not as
  the state of the audience on the service.
  - `ApiClientError`, the client library and `logging.error` are outside the model.
  - A failing call is `remoteFault`, whose text is the error the caller reports.
  - An unset `MAILCHIMP_LIST_ID` in `app.py` only makes the calls fail, which is also
    `remoteFault`.
- `hashlib.md5(...).hexdigest()` is the client's `md5` function. Nothing about it is
  assumed, so the model does not capture what the hash values are.
- `print`, `exit`, `input` and `load_dotenv` are not modelled. `Cli.Run` returns the
  exit status and the outcome that `main` prints.
- `Text.Lower`: folds only ASCII capitals and the Latin-1 capitals (U+00C0 to U+00DE,
  except U+00D7). Python's `str.lower()` folds all of Unicode.
- Concurrent requests racing on the same email are not modelled. The model is
  sequential.
