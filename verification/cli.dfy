/**
 * The command-line entry point: the start-up check of the three settings, the
 * customer record built from the prompt answers (the vehicle is make, model and
 * year joined by " - "), and `main`, which writes locally and then subscribes
 * remotely.
 */
module Cli {
  import opened Wrappers
  import Text
  import Store
  import Mailchimp

  /** The three settings as `os.getenv` returns them: `None` when unset. */
  datatype Env = Env(apiKey: Option<string>, server: Option<string>, listId: Option<string>)

  /** Python truthiness of an optional string: set and not empty. */
  predicate Present(v: Option<string>) {
    v.Some? && v.value != ""
  }

  /** The server names a region the service knows: it begins with "us" or "eu". */
  predicate KnownRegion(server: string) {
    Text.StartsWith(server, "us") || Text.StartsWith(server, "eu")
  }

  datatype StartupError = MissingSettings | InvalidServer(server: string)

  /** Carry on with the settings, or stop the process with an exit status. */
  datatype Startup =
    | Proceed(apiKey: string, server: string, listId: string)
    | Exit(status: int, error: StartupError)

  /**
   * The start-up gate: the program goes on only when all three settings are set
   * and the server begins with a known region; otherwise it exits with status 1,
   * reporting missing settings first and a bad server second.
   */
  function CheckConfig(env: Env): (r: Startup)
    ensures r.Proceed? <==>
      Present(env.apiKey) && Present(env.server) && Present(env.listId) && KnownRegion(env.server.value)
    ensures r.Proceed? ==> r == Proceed(env.apiKey.value, env.server.value, env.listId.value)
    ensures r.Exit? ==> r.status == 1
    ensures r.Exit? ==>
      (r.error == MissingSettings <==> !(Present(env.apiKey) && Present(env.server) && Present(env.listId)))
    ensures r.Exit? && r.error.InvalidServer? ==> r.error.server == env.server.value
  {
    if !Present(env.apiKey) || !Present(env.server) || !Present(env.listId) then
      Exit(1, MissingSettings)
    else if !Text.StartsWith(env.server.value, "us") && !Text.StartsWith(env.server.value, "eu") then
      Exit(1, InvalidServer(env.server.value))
    else
      Proceed(env.apiKey.value, env.server.value, env.listId.value)
  }

  /** The region check is case-sensitive and looks only at the start: "us15" passes, "US15" does not. */
  lemma RegionPrefixIsExact(key: string, list: string)
    requires key != "" && list != ""
    ensures CheckConfig(Env(Some(key), Some("us15"), Some(list))).Proceed?
    ensures CheckConfig(Env(Some(key), Some("US15"), Some(list))) == Exit(1, InvalidServer("US15"))
  {
    assert "us" <= "us15";
    assert "US15"[0] != "us"[0] && "US15"[0] != "eu"[0];
  }

  const Separator := " - "

  /**
   * The f-string `f"{marca} - {modelo} - {anno}"`: make, model and year in that
   * order, a separator after the make and another after the model.
   */
  function Vehicle(make: string, model: string, year: string): (v: string)
    ensures var i, j := |make|, |make| + 3 + |model|;
      && j + 3 <= |v|
      && (forall y :: 0 <= y < |make| ==> v[y] == make[y])
      && (forall y :: 0 <= y < |model| ==> v[i + 3 + y] == model[y])
      && SeparatorAt(v, i) && SeparatorAt(v, j)
      && v[..i] == make && v[i + 3..j] == model && v[j + 3..] == year
  {
    var rest := model + Separator + year;
    var v := make + Separator + rest;
    assert v[..|make|] == make && v[|make| + 3..] == rest;
    assert rest[..|model|] == model && rest[|model| + 3..] == year;
    v
  }

  /** `v` holds the separator " - " at position `i`. */
  predicate SeparatorAt(v: string, i: nat) {
    i + 3 <= |v| && v[i] == ' ' && v[i + 1] == '-' && v[i + 2] == ' '
  }

  /** The first " - " in `v` at or after `from`, if any. */
  function FindSeparator(v: string, from: nat): (r: Option<nat>)
    ensures r.Some? ==> from <= r.value && SeparatorAt(v, r.value)
    ensures r.Some? ==> forall i :: from <= i < r.value ==> !SeparatorAt(v, i)
    ensures r.None? ==> forall i :: from <= i ==> !SeparatorAt(v, i)
    decreases |v| - from
  {
    if from + 3 > |v| then None
    else if SeparatorAt(v, from) then Some(from)
    else FindSeparator(v, from + 1)
  }

  /** Reading a vehicle string back into make, model and year, at its first two separators. */
  function SplitVehicle(v: string): Option<(string, string, string)> {
    match FindSeparator(v, 0)
    case None => None
    case Some(i) =>
      match FindSeparator(v, i + 3)
      case None => None
      case Some(j) => Some((v[..i], v[i + 3..j], v[j + 3..]))
  }

  /**
   * `s` can stand before a separator without making an earlier one: it holds no
   * " - " of its own and does not end in " -". A '-' alone, as in
   * "Mercedes-Benz", is harmless.
   */
  predicate SeparatorFree(s: string) {
    && (forall i :: 0 <= i < |s| ==> !SeparatorAt(s, i))
    && !(|s| >= 2 && s[|s| - 2] == ' ' && s[|s| - 1] == '-')
  }

  /**
   * Searching from the start of a separator-free `part` that a separator follows
   * finds that separator and nothing before it.
   */
  lemma SeparatorAfter(v: string, part: string, from: nat)
    requires SeparatorFree(part)
    requires from + |part| + 3 <= |v|
    requires forall y :: 0 <= y < |part| ==> v[from + y] == part[y]
    requires SeparatorAt(v, from + |part|)
    ensures FindSeparator(v, from) == Some(from + |part|)
  {
    forall x | from <= x < from + |part| ensures !SeparatorAt(v, x) {
      var y := x - from;
      if y + 3 <= |part| {
        assert v[x] == part[y] && v[x + 1] == part[y + 1] && v[x + 2] == part[y + 2];
        assert !SeparatorAt(part, y);
      } else if y + 2 == |part| {
        assert v[x] == part[y] && v[x + 1] == part[y + 1];
      } else {
        assert v[x + 1] == ' ';
      }
    }
  }

  /**
   * A separator-free make and model come back out of the vehicle string
   * unchanged, and so does the year, whatever it holds.
   */
  lemma VehicleSplitsBack(make: string, model: string, year: string)
    ensures SeparatorFree(make) && SeparatorFree(model) ==>
      SplitVehicle(Vehicle(make, model, year)) == Some((make, model, year))
  {
    if SeparatorFree(make) && SeparatorFree(model) {
      SplitsInto(Vehicle(make, model, year), make, model, year);
    }
  }

  /** A string laid out as make, separator, model, separator, year splits back into those parts. */
  lemma SplitsInto(v: string, make: string, model: string, year: string)
    requires SeparatorFree(make) && SeparatorFree(model)
    requires var i, j := |make|, |make| + 3 + |model|;
      && j + 3 <= |v|
      && (forall y :: 0 <= y < |make| ==> v[y] == make[y])
      && (forall y :: 0 <= y < |model| ==> v[i + 3 + y] == model[y])
      && SeparatorAt(v, i) && SeparatorAt(v, j)
      && v[..i] == make && v[i + 3..j] == model && v[j + 3..] == year
    ensures SplitVehicle(v) == Some((make, model, year))
  {
    var i, j := |make|, |make| + 3 + |model|;
    SeparatorAfter(v, make, 0);
    SeparatorAfter(v, model, i + 3);
    SplitAt(v, i, j);
  }

  /** Where the search finds the two separators, there the string is cut. */
  lemma SplitAt(v: string, i: nat, j: nat)
    requires FindSeparator(v, 0) == Some(i) && FindSeparator(v, i + 3) == Some(j)
    ensures i + 3 <= j && j + 3 <= |v|
    ensures SplitVehicle(v) == Some((v[..i], v[i + 3..j], v[j + 3..]))
  {
  }

  /** The answers typed at the prompts, as read, before `strip()`. */
  datatype Answers = Answers(email: string, firstName: string, make: string, model: string,
                             year: string, serviceDate: string)

  /** The customer data `main` passes on: every answer stripped, the vehicle composed. */
  datatype Customer = Customer(email: string, firstName: string, vehicle: string, serviceDate: string)

  function CustomerOf(a: Answers): (c: Customer)
    ensures c.email == Text.Strip(a.email) && c.firstName == Text.Strip(a.firstName)
    ensures c.serviceDate == Text.Strip(a.serviceDate)
    ensures c.vehicle == Vehicle(Text.Strip(a.make), Text.Strip(a.model), Text.Strip(a.year))
    ensures Text.Strip(c.email) == c.email && Text.Strip(c.firstName) == c.firstName
    ensures Text.Strip(c.serviceDate) == c.serviceDate
    ensures |c.email| <= |a.email| && |c.firstName| <= |a.firstName| && |c.serviceDate| <= |a.serviceDate|
    ensures SeparatorFree(Text.Strip(a.make)) && SeparatorFree(Text.Strip(a.model)) ==>
      SplitVehicle(c.vehicle) == Some((Text.Strip(a.make), Text.Strip(a.model), Text.Strip(a.year)))
  {
    var make, model, year := Text.Strip(a.make), Text.Strip(a.model), Text.Strip(a.year);
    Text.StripIdempotent(a.email);
    Text.StripIdempotent(a.firstName);
    Text.StripIdempotent(a.serviceDate);
    VehicleSplitsBack(make, model, year);
    Customer(Text.Strip(a.email), Text.Strip(a.firstName), Vehicle(make, model, year), Text.Strip(a.serviceDate))
  }

  /**
   * Every answer with whitespace typed around it, each its own: `before` and
   * `after` hold, prompt by prompt, what was typed before and after the answer.
   */
  function Padded(a: Answers, before: Answers, after: Answers): Answers {
    Answers(before.email + a.email + after.email,
            before.firstName + a.firstName + after.firstName,
            before.make + a.make + after.make,
            before.model + a.model + after.model,
            before.year + a.year + after.year,
            before.serviceDate + a.serviceDate + after.serviceDate)
  }

  /** Every one of the six answers is whitespace only. */
  ghost predicate Blank(w: Answers) {
    && Text.AllSpace(w.email) && Text.AllSpace(w.firstName)
    && Text.AllSpace(w.make) && Text.AllSpace(w.model)
    && Text.AllSpace(w.year) && Text.AllSpace(w.serviceDate)
  }

  /** Whitespace typed around any of the answers changes neither the stored nor the pushed data. */
  lemma PaddingIgnored(a: Answers, before: Answers, after: Answers)
    requires Blank(before) && Blank(after)
    ensures CustomerOf(Padded(a, before, after)) == CustomerOf(a)
  {
    Text.StripIgnoresPadding(before.email, a.email, after.email);
    Text.StripIgnoresPadding(before.firstName, a.firstName, after.firstName);
    Text.StripIgnoresPadding(before.make, a.make, after.make);
    Text.StripIgnoresPadding(before.model, a.model, after.model);
    Text.StripIgnoresPadding(before.year, a.year, after.year);
    Text.StripIgnoresPadding(before.serviceDate, a.serviceDate, after.serviceDate);
  }

  /** What `main` reports once it has run. */
  datatype Outcome = Registered | Failed(error: string)

  /**
   * The effect of `main` on the table and the remote list: a local failure stops
   * everything; otherwise the row is upserted, the subscribe call is sent, and a
   * remote failure is reported while the local row stays.
   */
  ghost predicate MainEffect(before: Store.Table, after: Store.Table, sentBefore: seq<Mailchimp.Call>,
                             sentAfter: seq<Mailchimp.Call>, listId: string, md5: string -> string,
                             c: Customer, now: Store.Timestamp, storeFault: Option<string>,
                             remoteFault: Option<string>, outcome: Outcome)
  {
    if storeFault.Some? then
      outcome == Failed(storeFault.value) && after == before && sentAfter == sentBefore
    else
      && after == Store.AfterUpsert(before, c.email, c.firstName, c.vehicle, c.serviceDate, now)
      && sentAfter == sentBefore + [Mailchimp.SubscribeCall(listId, md5, c.email, c.firstName, c.vehicle, c.serviceDate)]
      && outcome == (if remoteFault.Some? then Failed(remoteFault.value) else Registered)
  }

  /** `main`: strip the answers, upsert locally, then subscribe remotely; errors are reported, not raised. */
  method SubscribeCustomer(db: Store.SubscriptionTable, mc: Mailchimp.Client, a: Answers,
                           now: Store.Timestamp, storeFault: Option<string>, remoteFault: Option<string>)
    returns (outcome: Outcome)
    requires db.Valid()
    modifies db, mc
    ensures db.Valid()
    ensures MainEffect(old(db.State()), db.State(), old(mc.sent), mc.sent, mc.listId, mc.md5, CustomerOf(a),
                       now, storeFault, remoteFault, outcome)
  {
    var email := Text.Strip(a.email);
    var firstName := Text.Strip(a.firstName);
    var make, model, year := Text.Strip(a.make), Text.Strip(a.model), Text.Strip(a.year);
    var vehicle := Vehicle(make, model, year);
    var serviceDate := Text.Strip(a.serviceDate);
    if storeFault.Some? {
      return Failed(storeFault.value);
    }
    db.Upsert(email, firstName, vehicle, serviceDate, now);
    var err := mc.Subscribe(email, firstName, vehicle, serviceDate, remoteFault);
    if err.Some? {
      return Failed(err.value);
    }
    return Registered;
  }

  /**
   * Running the script: the settings are checked before anything else, and a bad
   * configuration exits with status 1 having touched nothing. Then `init_db`
   * runs outside any handler: when it fails (`initFault`) the error escapes, the
   * process exits with status 1 and `main` never runs. Otherwise `main` runs and
   * the process ends with status 0 whatever `main` reported.
   */
  method Run(env: Env, db: Store.SubscriptionTable, mc: Mailchimp.Client, a: Answers,
             now: Store.Timestamp, initFault: Option<string>, storeFault: Option<string>,
             remoteFault: Option<string>)
    returns (exitStatus: int, outcome: Option<Outcome>)
    requires db.Valid()
    // the script's client sends to the very `MAILCHIMP_LIST_ID` the gate checked
    requires CheckConfig(env).Proceed? ==> mc.listId == CheckConfig(env).listId
    modifies db, mc
    ensures db.Valid()
    ensures CheckConfig(env).Exit? || initFault.Some? ==>
      exitStatus == 1 && outcome == None && db.State() == old(db.State()) && mc.sent == old(mc.sent)
    ensures CheckConfig(env).Proceed? && initFault.None? ==>
      && exitStatus == 0 && outcome.Some? && mc.listId == env.listId.value
      && MainEffect(old(db.State()), db.State(), old(mc.sent), mc.sent, mc.listId, mc.md5, CustomerOf(a),
                    now, storeFault, remoteFault, outcome.value)
  {
    var startup := CheckConfig(env);
    if startup.Exit? {
      return startup.status, None;
    }
    if initFault.Some? {
      return 1, None;
    }
    var o := SubscribeCustomer(db, mc, a, now, storeFault, remoteFault);
    return 0, Some(o);
  }
}
