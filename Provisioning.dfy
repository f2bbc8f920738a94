/**
 * Account provisioning and environment hand-off (sdios_lti/models.py):
 * `UserMap.get` finds or creates the backing account of an LMS user,
 * `UserMap.login` prepares that user's copy of a template environment and
 * returns a one-time login address, and `Setting.get` is get-or-create.
 *
 * Each operation is a function from the database and the service's state
 * to its outcome and the new states (the specification), and a method of
 * `Store` that performs it step by step against a `Service`, proved to
 * agree with the function.
 */
module Provisioning {
  import opened Base
  import opened Sequences
  import opened Records
  import opened Backing

  /** The local database: the four tables. */
  datatype Db = Db(consumers: seq<Consumer>, envMaps: seq<EnvironmentMap>, userMaps: seq<UserMap>, settings: seq<Setting>)

  /** The unique constraints of the tables, and every user map's consumer exists. */
  ghost predicate DbValid(db: Db) {
    && ConsumersUnique(db.consumers)
    && EnvironmentMapsUnique(db.envMaps)
    && UserMapsUnique(db.userMaps)
    && (forall i :: 0 <= i < |db.userMaps| ==> GetConsumer(db.consumers, db.userMaps[i].consumer).Some?)
  }

  /** Why an operation raised. */
  datatype Fault =
    | NoSuchConsumer  // Consumer.DoesNotExist
    | RemoteError     // a call to the service failed
    | NoAccount       // the user's account is not listed
    | TemplateGone    // the template environment is not listed
    | CopyMissing     // no environment of the template's name for the user after the copy
    | IntegrityError  // saving a user map broke a unique constraint
    | UrlMismatch     // the settings URL is empty or absent from the environment's URL

  /** An operation's result, or what it raised. */
  datatype Outcome<T> = Ok(value: T) | Raised(fault: Fault)

  /** An outcome with the database and the service's state after the operation. */
  datatype Step<T> = Step(out: Outcome<T>, db: Db, remote: Remote)

  /** The random input of account creation: 8 bytes for the name, and the password draw. */
  datatype Draw = Draw(random: Bytes, password: PasswordDraw)

  predicate DrawWellFormed(d: Draw) {
    |d.random| == 8 && WellFormedDraw(d.password)
  }

  /** The first account with username `username`. */
  function FindByUsername(accounts: seq<Account>, username: string): (r: Option<Account>)
    ensures r.None? <==> forall i :: 0 <= i < |accounts| ==> accounts[i].params.username != username
    ensures r.Some? ==> r.value in accounts && r.value.params.username == username
    decreases |accounts|
  {
    if accounts == [] then None
    else if accounts[0].params.username == username then Some(accounts[0])
    else FindByUsername(accounts[1..], username)
  }

  /** The first user map of the consumer with key `consumer` for the LMS user `ltiUserId`. */
  function FindUserMap(userMaps: seq<UserMap>, consumer: string, ltiUserId: string): (r: Option<UserMap>)
    ensures r.None? <==> forall i :: 0 <= i < |userMaps| ==>
      userMaps[i].consumer != consumer || userMaps[i].ltiUserId != ltiUserId
    ensures r.Some? ==> r.value in userMaps && r.value.consumer == consumer && r.value.ltiUserId == ltiUserId
    decreases |userMaps|
  {
    if userMaps == [] then None
    else if userMaps[0].consumer == consumer && userMaps[0].ltiUserId == ltiUserId then Some(userMaps[0])
    else FindUserMap(userMaps[1..], consumer, ltiUserId)
  }

  /** `row.delete()` on a table: every row equal to `x` is gone, every other row stays. */
  function Delete<T(==, !new)>(rows: seq<T>, x: T): (r: seq<T>)
    ensures forall m :: m in r <==> m in rows && m != x
    decreases |rows|
  {
    if rows == [] then []
    else (if rows[0] == x then [] else [rows[0]]) + Delete(rows[1..], x)
  }

  /** Whether adding `um` would break a unique constraint of the user map table. */
  predicate Clashes(userMaps: seq<UserMap>, um: UserMap) {
    exists i :: 0 <= i < |userMaps| &&
      ((userMaps[i].consumer == um.consumer && userMaps[i].ltiUserId == um.ltiUserId) || userMaps[i].username == um.username)
  }

  /** `usermap.save()` of a new row: refused with an integrity error on a clash. */
  function SaveUserMap(userMaps: seq<UserMap>, um: UserMap): (r: Option<seq<UserMap>>)
    ensures r.None? <==> Clashes(userMaps, um)
    ensures r.Some? ==> r.value == userMaps + [um]
  {
    if Clashes(userMaps, um) then None else Some(userMaps + [um])
  }

  /**
   * `Setting.get()`: the first settings row; when there is none, a new
   * row with the field defaults is saved and returned.
   */
  function SettingGet(db: Db): (Setting, Db) {
    if db.settings == [] then (DEFAULT_SETTING, db.(settings := [DEFAULT_SETTING]))
    else (db.settings[0], db)
  }

  /**
   * The repair at the end of `UserMap.get`: the account of `um` is looked
   * up again and its parameters are PUT back in the fixed shape.
   */
  function RepairAccount(db: Db, r: Remote, um: UserMap, tenancy: int): Step<UserMap> {
    var (listed, r1) := Serve(r, ListAccounts);
    if !listed.Accounts? then Step(Raised(RemoteError), db, r1)
    else
      match FindByUsername(listed.accounts, um.username)
      case None => Step(Raised(NoAccount), db, r1)
      case Some(a) =>
        var (updated, r2) := Serve(r1, UpdateAccount(a.pk, UserParamsFor(um.username, um.password, tenancy)));
        if updated.Done? then Step(Ok(um), db, r2) else Step(Raised(RemoteError), db, r2)
  }

  /** The new user map the draw `d` gives for `ltiUserId` of consumer `consumer`. */
  function FreshUserMap(consumer: string, ltiUserId: string, d: Draw): UserMap
    requires DrawWellFormed(d)
  {
    UserMap(consumer, ltiUserId, GeneratedUsername(d.random), GeneratedPassword(d.password))
  }

  /**
   * The creation branch of `UserMap.get` for the new user map `um`: the
   * account is POSTed first and the user map is saved only once that
   * succeeded; then the account is repaired.
   */
  function CreateUserMap(db: Db, r: Remote, um: UserMap, tenancy: int): Step<UserMap> {
    var (created, r1) := Serve(r, CreateAccount(UserParamsFor(um.username, um.password, tenancy)));
    if !created.Done? then Step(Raised(RemoteError), db, r1)
    else
      match SaveUserMap(db.userMaps, um)
      case None => Step(Raised(IntegrityError), db, r1)
      case Some(userMaps) => RepairAccount(db.(userMaps := userMaps), r1, um, tenancy)
  }

  /**
   * `UserMap.get(api, consumer_key, lti_user_id)`: the consumer must
   * exist and the default tenancy is fetched; the rest is `GetOrCreate`.
   */
  function UserMapGet(db: Db, r: Remote, consumerKey: string, ltiUserId: string, d: Draw): Step<UserMap>
    requires DrawWellFormed(d)
  {
    if GetConsumer(db.consumers, consumerKey).None? then Step(Raised(NoSuchConsumer), db, r)
    else
      var (settings, r1) := Serve(r, GetSettings);
      if !settings.DefaultTenancy? then Step(Raised(RemoteError), db, r1)
      else GetOrCreate(db, r1, consumerKey, ltiUserId, settings.tenancy, d)
  }

  /**
   * The body of `UserMap.get` once the tenancy is known: an existing user
   * map is kept if its account is listed and otherwise deleted and
   * replaced; a missing one is created.
   */
  function GetOrCreate(db: Db, r: Remote, consumerKey: string, ltiUserId: string, tenancy: int, d: Draw): Step<UserMap>
    requires DrawWellFormed(d)
  {
    match FindUserMap(db.userMaps, consumerKey, ltiUserId)
    case None => CreateUserMap(db, r, FreshUserMap(consumerKey, ltiUserId, d), tenancy)
    case Some(um) =>
      var (listed, r1) := Serve(r, ListAccounts);
      if !listed.Accounts? then Step(Raised(RemoteError), db, r1)
      else if FindByUsername(listed.accounts, um.username).Some? then RepairAccount(db, r1, um, tenancy)
      else
        var healed := db.(userMaps := Delete(db.userMaps, um));
        CreateUserMap(healed, r1, FreshUserMap(consumerKey, ltiUserId, d), tenancy)
  }

  /** The first environment called `name` owned by `user`. */
  function FindOwned(envs: seq<Environment>, name: string, user: nat): (r: Option<Environment>)
    ensures r.None? <==> forall i :: 0 <= i < |envs| ==> envs[i].name != name || envs[i].user != user
    ensures r.Some? ==> r.value in envs && r.value.name == name && r.value.user == user
    decreases |envs|
  {
    if envs == [] then None
    else if envs[0].name == name && envs[0].user == user then Some(envs[0])
    else FindOwned(envs[1..], name, user)
  }

  /** The environments of `user` not called `name`, in listing order. */
  function Others(envs: seq<Environment>, name: string, user: nat): (r: seq<Environment>)
    ensures forall e :: e in r <==> e in envs && e.user == user && e.name != name
    decreases |envs|
  {
    if envs == [] then []
    else (if envs[0].user == user && envs[0].name != name then [envs[0]] else []) + Others(envs[1..], name, user)
  }

  /** The stop calls for `envs`, in order. */
  function StopCalls(envs: seq<Environment>): (r: seq<Call>)
    ensures |r| == |envs| && forall i :: 0 <= i < |r| ==> r[i] == StopEnvironment(envs[i].id)
    decreases |envs|
  {
    if envs == [] then [] else [StopEnvironment(envs[0].id)] + StopCalls(envs[1..])
  }

  /** The stop loop: each environment is stopped in turn, and the first failure ends it. */
  function StopAll(r: Remote, envs: seq<Environment>): (bool, Remote)
    decreases |envs|
  {
    if envs == [] then (true, r)
    else
      var (reply, r1) := RequestStop(r, envs[0].id);
      if reply.Failed? then (false, r1) else StopAll(r1, envs[1..])
  }

  /**
   * The second half of `UserMap.login`, after the copy: the environments
   * are listed again, the user's copy must be there, the user's other
   * environments are stopped, a login token is requested, and the copy's
   * address relative to the settings URL is appended to it.
   */
  function HandOff(db: Db, r: Remote, name: string, user: nat): Step<string> {
    var (listed, r1) := FetchEnvironments(r);
    if !listed.Environments? then Step(Raised(RemoteError), db, r1)
    else
      match FindOwned(listed.envs, name, user)
      case None => Step(Raised(CopyMissing), db, r1)
      case Some(target) =>
        var (stopped, r2) := StopAll(r1, Others(listed.envs, name, user));
        if !stopped then Step(Raised(RemoteError), db, r2)
        else
          var (token, r3) := RequestToken(r2, user);
          if !token.TokenUrl? then Step(Raised(RemoteError), db, r3)
          else
            var (setting, db1) := SettingGet(db);
            match SecondField(target.url, setting.url)
            case None => Step(Raised(UrlMismatch), db1, r3)
            case Some(next) => Step(Ok(token.url + "?next=" + next), db1, r3)
  }

  /**
   * `UserMap.login(api, usermap, source_environment)`: the account and the
   * environments are listed; a missing account raises; a vanished template
   * raises after its environment map is deleted; an old copy is deleted
   * and a new one made, both without regard to failure; then `HandOff`.
   */
  function UserMapLogin(db: Db, r: Remote, um: UserMap, template: EnvironmentMap): Step<string> {
    var (accounts, r1) := Serve(r, ListAccounts);
    if !accounts.Accounts? then Step(Raised(RemoteError), db, r1)
    else
      var user := FindByUsername(accounts.accounts, um.username);
      var (listed, r2) := Serve(r1, ListEnvironments);
      if !listed.Environments? then Step(Raised(RemoteError), db, r2)
      else if user.None? then Step(Raised(NoAccount), db, r2)
      else if FindEnvironment(listed.envs, template.uuid).None? then
        Step(Raised(TemplateGone), db.(envMaps := Delete(db.envMaps, template)), r2)
      else
        var pk := user.value.pk;
        HandOff(db, CopyTemplate(r2, listed.envs, template, pk), template.name, pk)
  }

  /**
   * The middle of `UserMap.login`: the user's environment of the
   * template's name in the listing `listed`, if any, is deleted, and the
   * template is copied under that name into the user's account; the
   * replies are ignored.
   */
  function CopyTemplate(r: Remote, listed: seq<Environment>, template: EnvironmentMap, pk: nat): Remote {
    var r1 := match FindOwned(listed, template.name, pk)
      case None => r
      case Some(previous) => Serve(r, DeleteEnvironment(previous.id)).1;
    Serve(r1, CopyEnvironment(template.uuid, template.name, pk)).1
  }

  /** The next `k` calls the service receives succeed as far as the failure set goes. */
  predicate Answers(r: Remote, k: nat) {
    forall m :: r.served <= m < r.served + k ==> m !in r.failing
  }

  // ---------------------------------------------------------------------
  // Setting.get

  /**
   * `Setting.get` returns the first row, or saves and returns one default
   * row when the table is empty; a second call returns the same row and
   * changes nothing.
   */
  lemma SettingGetIdempotent(db: Db)
    ensures var (s, db1) := SettingGet(db);
      && s == (if db.settings == [] then DEFAULT_SETTING else db.settings[0])
      && db1 == db.(settings := if db.settings == [] then [DEFAULT_SETTING] else db.settings)
      && SettingGet(db1) == (s, db1)
  {
  }

  /** The default row points at `127.0.0.1:8000` with blank credentials. */
  lemma DefaultSettingBlank()
    ensures DEFAULT_SETTING.url == "127.0.0.1:8000"
    ensures DEFAULT_SETTING.username == "" && DEFAULT_SETTING.password == ""
    ensures DEFAULT_SETTING.clientId == "" && DEFAULT_SETTING.clientSecret == ""
  {
  }

  // ---------------------------------------------------------------------
  // UserMap.get

  /**
   * A user map whose account is listed is kept: nothing is created or
   * deleted, the calls are the tenancy, two account listings and one PUT
   * of the fixed parameters, and the map itself is returned.
   */
  lemma GetReusesMapping(db: Db, r: Remote, consumerKey: string, ltiUserId: string, d: Draw, um: UserMap)
    requires DrawWellFormed(d)
    requires GetConsumer(db.consumers, consumerKey).Some?
    requires FindUserMap(db.userMaps, consumerKey, ltiUserId) == Some(um)
    requires FindByUsername(r.accounts, um.username).Some?
    requires Answers(r, 3)
    ensures var s := UserMapGet(db, r, consumerKey, ltiUserId, d);
      var a := FindByUsername(r.accounts, um.username).value;
      && s.db == db
      && s.remote.log == r.log + [GetSettings, ListAccounts] + [ListAccounts, UpdateAccount(a.pk, UserParamsFor(um.username, um.password, r.tenancy))]
      && (s.out.Ok? ==> s.out.value == um)
  {
    var r1 := Counted(r, GetSettings);
    var r2 := Counted(r1, ListAccounts);
    UserMapGetTenancy(db, r, consumerKey, ltiUserId, d);
    GetOrCreateRepairs(db, r1, consumerKey, ltiUserId, r.tenancy, d, um);
    RepairAfterListing(db, r2, um, r.tenancy);
    assert r2.log == r.log + [GetSettings, ListAccounts];
  }

  /**
   * A user map whose account is not listed is deleted, and a new account
   * and map are made for the same consumer and LMS user: the table ends
   * without the stale map, with the new one at the end if it was saved,
   * and the new one is what is returned.
   */
  lemma GetReplacesStaleMapping(db: Db, r: Remote, consumerKey: string, ltiUserId: string, d: Draw, um: UserMap)
    requires DrawWellFormed(d)
    requires GetConsumer(db.consumers, consumerKey).Some?
    requires FindUserMap(db.userMaps, consumerKey, ltiUserId) == Some(um)
    requires FindByUsername(r.accounts, um.username).None?
    requires Answers(r, 2)
    ensures var s := UserMapGet(db, r, consumerKey, ltiUserId, d);
      var made := FreshUserMap(consumerKey, ltiUserId, d);
      var kept := Delete(db.userMaps, um);
      && (s.db.userMaps == kept || s.db.userMaps == kept + [made])
      && (s.out.Ok? ==> s.out.value == made && s.db.userMaps == kept + [made])
      && |s.remote.log| > |r.log| + 2
      && s.remote.log[|r.log| + 2] == CreateAccount(UserParamsFor(made.username, made.password, r.tenancy))
  {
    var r1 := Counted(r, GetSettings);
    var r2 := Counted(r1, ListAccounts);
    UserMapGetTenancy(db, r, consumerKey, ltiUserId, d);
    GetOrCreateReplaces(db, r1, consumerKey, ltiUserId, r.tenancy, d, um);
    var made := FreshUserMap(consumerKey, ltiUserId, d);
    var healed := db.(userMaps := Delete(db.userMaps, um));
    CreateUserMapShape(healed, r2, made, r.tenancy);
    var s := CreateUserMap(healed, r2, made, r.tenancy);
    assert s.remote.log[..|r2.log| + 1][|r.log| + 2] == s.remote.log[|r.log| + 2];
  }

  /** With the consumer present and the tenancy answered, `UserMap.get` continues as `GetOrCreate`. */
  lemma UserMapGetTenancy(db: Db, r: Remote, consumerKey: string, ltiUserId: string, d: Draw)
    requires DrawWellFormed(d)
    requires GetConsumer(db.consumers, consumerKey).Some? && r.served !in r.failing
    ensures UserMapGet(db, r, consumerKey, ltiUserId, d) == GetOrCreate(db, Counted(r, GetSettings), consumerKey, ltiUserId, r.tenancy, d)
  {
    ServeQuery(r, GetSettings);
  }

  /** A user map whose account is listed goes on to the repair. */
  lemma GetOrCreateRepairs(db: Db, r: Remote, consumerKey: string, ltiUserId: string, tenancy: int, d: Draw, um: UserMap)
    requires DrawWellFormed(d)
    requires FindUserMap(db.userMaps, consumerKey, ltiUserId) == Some(um) && r.served !in r.failing
    requires FindByUsername(r.accounts, um.username).Some?
    ensures GetOrCreate(db, r, consumerKey, ltiUserId, tenancy, d) == RepairAccount(db, Counted(r, ListAccounts), um, tenancy)
  {
    ServeQuery(r, ListAccounts);
  }

  /** A user map whose account is not listed is removed and a new one created. */
  lemma GetOrCreateReplaces(db: Db, r: Remote, consumerKey: string, ltiUserId: string, tenancy: int, d: Draw, um: UserMap)
    requires DrawWellFormed(d)
    requires FindUserMap(db.userMaps, consumerKey, ltiUserId) == Some(um) && r.served !in r.failing
    requires FindByUsername(r.accounts, um.username).None?
    ensures GetOrCreate(db, r, consumerKey, ltiUserId, tenancy, d) ==
      CreateUserMap(db.(userMaps := Delete(db.userMaps, um)), Counted(r, ListAccounts), FreshUserMap(consumerKey, ltiUserId, d), tenancy)
  {
    ServeQuery(r, ListAccounts);
  }

  /** The creation branch: its first call is the POST, and the table only gains the new map. */
  lemma CreateUserMapShape(db: Db, r: Remote, um: UserMap, tenancy: int)
    ensures var s := CreateUserMap(db, r, um, tenancy);
      && (s.db.userMaps == db.userMaps || s.db.userMaps == db.userMaps + [um])
      && (s.out.Ok? ==> s.out.value == um && s.db.userMaps == db.userMaps + [um])
      && |s.remote.log| > |r.log|
      && s.remote.log[..|r.log| + 1] == r.log + [CreateAccount(UserParamsFor(um.username, um.password, tenancy))]
  {
    var r1 := Serve(r, CreateAccount(UserParamsFor(um.username, um.password, tenancy))).1;
    RepairAccountLog(db.(userMaps := db.userMaps + [um]), r1, um, tenancy);
  }

  /** The repair when the listing succeeds and shows the account: one PUT of the fixed parameters. */
  lemma RepairAfterListing(db: Db, r: Remote, um: UserMap, tenancy: int)
    requires r.served !in r.failing
    requires FindByUsername(r.accounts, um.username).Some?
    ensures var s := RepairAccount(db, r, um, tenancy);
      var a := FindByUsername(r.accounts, um.username).value;
      && s.db == db
      && s.remote.log == r.log + [ListAccounts, UpdateAccount(a.pk, UserParamsFor(um.username, um.password, tenancy))]
      && (s.out.Ok? ==> s.out.value == um)
  {
    var r1 := Counted(r, ListAccounts);
    ServeQuery(r, ListAccounts);
    var a := FindByUsername(r.accounts, um.username).value;
    ServeFrame(r1, UpdateAccount(a.pk, UserParamsFor(um.username, um.password, tenancy)));
  }

  /** The repair only appends to the log and leaves the database alone. */
  lemma RepairAccountLog(db: Db, r: Remote, um: UserMap, tenancy: int)
    ensures var s := RepairAccount(db, r, um, tenancy);
      s.db == db && |s.remote.log| > |r.log| && s.remote.log[..|r.log|] == r.log
      && (s.out.Ok? ==> s.out.value == um)
  {
  }

  /** The repair keeps the account of `um` listed: a PUT only rewrites the parameters of an account of that username. */
  lemma RepairKeepsAccount(db: Db, r: Remote, um: UserMap, tenancy: int)
    requires FindByUsername(r.accounts, um.username).Some?
    ensures FindByUsername(RepairAccount(db, r, um, tenancy).remote.accounts, um.username).Some?
  {
    ServeQuery(r, ListAccounts);
    var r1 := Counted(r, ListAccounts);
    var a := FindByUsername(r.accounts, um.username).value;
    var p := UserParamsFor(um.username, um.password, tenancy);
    var (reply, r2) := Serve(r1, UpdateAccount(a.pk, p));
    if r.served !in r.failing && reply.Done? {
      var acc := FindAccount(r1.accounts, a.pk).value;
      var k :| 0 <= k < |r1.accounts| && r1.accounts[k] == acc;
      assert r2.accounts[k].params.username == um.username;
    }
  }

  /** A successful repair ends with the PUT of the fixed parameters, which the account then carries. */
  lemma RepairPuts(db: Db, r: Remote, um: UserMap, tenancy: int)
    ensures var s := RepairAccount(db, r, um, tenancy);
      s.out.Ok? ==>
        && |s.remote.log| > 0
        && var c := s.remote.log[|s.remote.log| - 1];
        && c.UpdateAccount? && c.params == UserParamsFor(um.username, um.password, tenancy)
        && FindAccount(s.remote.accounts, c.pk) == Some(Account(c.pk, c.params))
  {
    ServeQuery(r, ListAccounts);
    var r1 := Counted(r, ListAccounts);
    var found := FindByUsername(r.accounts, um.username);
    if r.served !in r.failing && found.Some? {
      var p := UserParamsFor(um.username, um.password, tenancy);
      var c := UpdateAccount(found.value.pk, p);
      var (reply, r2) := Serve(r1, c);
      assert RepairAccount(db, r, um, tenancy) == if reply.Done? then Step(Ok(um), db, r2) else Step(Raised(RemoteError), db, r2);
      if reply.Done? {
        UpdateLands(r1, found.value.pk, p);
        assert r2.log[|r2.log| - 1] == c;
      }
    }
  }

  /** An update that goes through is the last call logged, and the account then carries the new parameters. */
  lemma UpdateLands(r: Remote, pk: nat, p: UserParams)
    requires Serve(r, UpdateAccount(pk, p)).0.Done?
    ensures var r' := Serve(r, UpdateAccount(pk, p)).1;
      r'.log == r.log + [UpdateAccount(pk, p)] && FindAccount(r'.accounts, pk) == Some(Account(pk, p))
  {
    SetParamsFind(r.accounts, pk, p);
  }

  /** The repair leaves the service valid. */
  lemma RepairValid(db: Db, r: Remote, um: UserMap, tenancy: int)
    requires Valid(r)
    ensures Valid(RepairAccount(db, r, um, tenancy).remote)
  {
    ServeQuery(r, ListAccounts);
    ServeValid(r, ListAccounts);
    var r1 := Counted(r, ListAccounts);
    var found := FindByUsername(r.accounts, um.username);
    if r.served !in r.failing && found.Some? {
      ServeValid(r1, UpdateAccount(found.value.pk, UserParamsFor(um.username, um.password, tenancy)));
    }
  }

  /**
   * The creation branch saves the user map only after the POST created its
   * account: a changed table means the key counter moved on by one and
   * the account is listed at the end.
   */
  lemma CreateSavesAfterPost(db: Db, r: Remote, um: UserMap, tenancy: int)
    ensures var s := CreateUserMap(db, r, um, tenancy);
      s.db.userMaps != db.userMaps ==>
        && r.served !in r.failing
        && s.remote.nextPk == r.nextPk + 1
        && FindByUsername(s.remote.accounts, um.username).Some?
  {
    var p := UserParamsFor(um.username, um.password, tenancy);
    var (created, r1) := Serve(r, CreateAccount(p));
    if created.Done? && !Clashes(db.userMaps, um) {
      var db1 := db.(userMaps := db.userMaps + [um]);
      assert r1.accounts[|r1.accounts| - 1].params.username == um.username;
      RepairKeepsAccount(db1, r1, um, tenancy);
      RepairAccountLog(db1, r1, um, tenancy);
      RepairNextPk(db1, r1, um, tenancy);
    }
  }

  /** The repair never creates an account. */
  lemma RepairNextPk(db: Db, r: Remote, um: UserMap, tenancy: int)
    ensures RepairAccount(db, r, um, tenancy).remote.nextPk == r.nextPk
  {
    ServeQuery(r, ListAccounts);
  }

  /**
   * `UserMap.get` saves a user map only after POSTing its account: every
   * map it adds is the one drawn for this user, an account was created
   * for it, and that account is listed at the end.
   */
  lemma UserMapGetSavesAfterPost(db: Db, r: Remote, consumerKey: string, ltiUserId: string, d: Draw)
    requires DrawWellFormed(d)
    ensures var s := UserMapGet(db, r, consumerKey, ltiUserId, d);
      forall m :: m in s.db.userMaps && m !in db.userMaps ==>
        && m == FreshUserMap(consumerKey, ltiUserId, d)
        && s.remote.nextPk == r.nextPk + 1
        && FindByUsername(s.remote.accounts, m.username).Some?
  {
    if GetConsumer(db.consumers, consumerKey).Some? && r.served !in r.failing {
      UserMapGetTenancy(db, r, consumerKey, ltiUserId, d);
      GetOrCreateSavesAfterPost(db, Counted(r, GetSettings), consumerKey, ltiUserId, r.tenancy, d);
    }
  }

  lemma GetOrCreateSavesAfterPost(db: Db, r: Remote, consumerKey: string, ltiUserId: string, tenancy: int, d: Draw)
    requires DrawWellFormed(d)
    ensures var s := GetOrCreate(db, r, consumerKey, ltiUserId, tenancy, d);
      forall m :: m in s.db.userMaps && m !in db.userMaps ==>
        && m == FreshUserMap(consumerKey, ltiUserId, d)
        && s.remote.nextPk == r.nextPk + 1
        && FindByUsername(s.remote.accounts, m.username).Some?
  {
    var made := FreshUserMap(consumerKey, ltiUserId, d);
    match FindUserMap(db.userMaps, consumerKey, ltiUserId)
    case None =>
      CreateSavesAfterPost(db, r, made, tenancy);
      CreateUserMapShape(db, r, made, tenancy);
    case Some(um) =>
      ServeQuery(r, ListAccounts);
      var r1 := Counted(r, ListAccounts);
      if r.served !in r.failing {
        if FindByUsername(r.accounts, um.username).Some? {
          RepairAccountLog(db, r1, um, tenancy);
        } else {
          var healed := db.(userMaps := Delete(db.userMaps, um));
          CreateSavesAfterPost(healed, r1, made, tenancy);
          CreateUserMapShape(healed, r1, made, tenancy);
        }
      }
  }

  /**
   * Every successful `UserMap.get` ends with the PUT of the fixed
   * parameters of the returned map under the service's default tenancy,
   * and the account then carries them.
   */
  lemma UserMapGetPuts(db: Db, r: Remote, consumerKey: string, ltiUserId: string, d: Draw)
    requires DrawWellFormed(d)
    ensures var s := UserMapGet(db, r, consumerKey, ltiUserId, d);
      s.out.Ok? ==>
        && |s.remote.log| > 0
        && var c := s.remote.log[|s.remote.log| - 1];
        && c.UpdateAccount? && c.params == UserParamsFor(s.out.value.username, s.out.value.password, r.tenancy)
        && FindAccount(s.remote.accounts, c.pk) == Some(Account(c.pk, c.params))
  {
    ServeQuery(r, GetSettings);
    if GetConsumer(db.consumers, consumerKey).Some? && r.served !in r.failing {
      UserMapGetTenancy(db, r, consumerKey, ltiUserId, d);
      GetOrCreatePuts(db, Counted(r, GetSettings), consumerKey, ltiUserId, r.tenancy, d);
    }
  }

  lemma GetOrCreatePuts(db: Db, r: Remote, consumerKey: string, ltiUserId: string, tenancy: int, d: Draw)
    requires DrawWellFormed(d)
    ensures var s := GetOrCreate(db, r, consumerKey, ltiUserId, tenancy, d);
      s.out.Ok? ==>
        && |s.remote.log| > 0
        && var c := s.remote.log[|s.remote.log| - 1];
        && c.UpdateAccount? && c.params == UserParamsFor(s.out.value.username, s.out.value.password, tenancy)
        && FindAccount(s.remote.accounts, c.pk) == Some(Account(c.pk, c.params))
  {
    var made := FreshUserMap(consumerKey, ltiUserId, d);
    match FindUserMap(db.userMaps, consumerKey, ltiUserId)
    case None =>
      CreatePuts(db, r, made, tenancy);
    case Some(um) =>
      ServeQuery(r, ListAccounts);
      var r1 := Counted(r, ListAccounts);
      if r.served !in r.failing {
        if FindByUsername(r.accounts, um.username).Some? {
          RepairPuts(db, r1, um, tenancy);
          RepairAccountLog(db, r1, um, tenancy);
        } else {
          CreatePuts(db.(userMaps := Delete(db.userMaps, um)), r1, made, tenancy);
        }
      }
  }

  lemma CreatePuts(db: Db, r: Remote, um: UserMap, tenancy: int)
    ensures var s := CreateUserMap(db, r, um, tenancy);
      s.out.Ok? ==>
        && s.out.value == um
        && |s.remote.log| > 0
        && var c := s.remote.log[|s.remote.log| - 1];
        && c.UpdateAccount? && c.params == UserParamsFor(um.username, um.password, tenancy)
        && FindAccount(s.remote.accounts, c.pk) == Some(Account(c.pk, c.params))
  {
    var (created, r1) := Serve(r, CreateAccount(UserParamsFor(um.username, um.password, tenancy)));
    if created.Done? && !Clashes(db.userMaps, um) {
      RepairPuts(db.(userMaps := db.userMaps + [um]), r1, um, tenancy);
      RepairAccountLog(db.(userMaps := db.userMaps + [um]), r1, um, tenancy);
    }
  }

  // ---------------------------------------------------------------------
  // Unique constraints

  /** Deleting a user map keeps the table's unique constraints. */
  lemma {:induction false} DeleteUserMapUnique(us: seq<UserMap>, um: UserMap)
    requires UserMapsUnique(us)
    ensures UserMapsUnique(Delete(us, um))
    decreases |us|
  {
    if us != [] {
      DeleteUserMapUnique(us[1..], um);
      var rest := Delete(us[1..], um);
      var r := Delete(us, um);
      if us[0] != um {
        assert r == [us[0]] + rest;
        forall j | 0 < j < |r|
          ensures (r[0].consumer != r[j].consumer || r[0].ltiUserId != r[j].ltiUserId) && r[0].username != r[j].username
        {
          assert r[j] in us[1..];
          var k :| 0 <= k < |us[1..]| && us[1..][k] == r[j];
          assert us[k + 1] == r[j];
        }
      } else {
        assert r == rest;
      }
    }
  }

  /** Deleting an environment map keeps the table's unique constraints. */
  lemma {:induction false} DeleteEnvironmentMapUnique(es: seq<EnvironmentMap>, em: EnvironmentMap)
    requires EnvironmentMapsUnique(es)
    ensures EnvironmentMapsUnique(Delete(es, em))
    decreases |es|
  {
    if es != [] {
      DeleteEnvironmentMapUnique(es[1..], em);
      var rest := Delete(es[1..], em);
      var r := Delete(es, em);
      if es[0] != em {
        assert r == [es[0]] + rest;
        forall j | 0 < j < |r|
          ensures r[0].name != r[j].name && r[0].uuid != r[j].uuid && r[0].key != r[j].key
        {
          assert r[j] in es[1..];
          var k :| 0 <= k < |es[1..]| && es[1..][k] == r[j];
          assert es[k + 1] == r[j];
        }
      } else {
        assert r == rest;
      }
    }
  }

  /** Saving a map that does not clash keeps the table's unique constraints. */
  lemma SaveUserMapUnique(us: seq<UserMap>, um: UserMap)
    requires UserMapsUnique(us) && SaveUserMap(us, um).Some?
    ensures UserMapsUnique(SaveUserMap(us, um).value)
  {
    var r := us + [um];
    forall i, j | 0 <= i < j < |r|
      ensures (r[i].consumer != r[j].consumer || r[i].ltiUserId != r[j].ltiUserId) && r[i].username != r[j].username
    {
      if j == |us| {
        assert r[i] == us[i];
      }
    }
  }

  /** The database stays valid when user maps are only deleted, or only a map of a known consumer is saved. */
  lemma UserMapsValid(db: Db, userMaps: seq<UserMap>)
    requires DbValid(db) && UserMapsUnique(userMaps)
    requires forall m :: m in userMaps ==> m in db.userMaps || GetConsumer(db.consumers, m.consumer).Some?
    ensures DbValid(db.(userMaps := userMaps))
  {
    forall i | 0 <= i < |userMaps| ensures GetConsumer(db.consumers, userMaps[i].consumer).Some? {
      if userMaps[i] in db.userMaps {
        var k :| 0 <= k < |db.userMaps| && db.userMaps[k] == userMaps[i];
      }
    }
  }

  /** The creation branch keeps the database and the service valid when the map's consumer exists. */
  lemma CreateValid(db: Db, r: Remote, um: UserMap, tenancy: int)
    requires DbValid(db) && Valid(r) && GetConsumer(db.consumers, um.consumer).Some?
    ensures var s := CreateUserMap(db, r, um, tenancy);
      DbValid(s.db) && Valid(s.remote)
  {
    var c := CreateAccount(UserParamsFor(um.username, um.password, tenancy));
    ServeValid(r, c);
    var (created, r1) := Serve(r, c);
    if created.Done? && SaveUserMap(db.userMaps, um).Some? {
      SaveUserMapUnique(db.userMaps, um);
      UserMapsValid(db, db.userMaps + [um]);
      RepairValid(db.(userMaps := db.userMaps + [um]), r1, um, tenancy);
      RepairAccountLog(db.(userMaps := db.userMaps + [um]), r1, um, tenancy);
    }
  }

  /** `UserMap.get` keeps the unique constraints of the database and of the service. */
  lemma UserMapGetValid(db: Db, r: Remote, consumerKey: string, ltiUserId: string, d: Draw)
    requires DrawWellFormed(d) && DbValid(db) && Valid(r)
    ensures var s := UserMapGet(db, r, consumerKey, ltiUserId, d);
      DbValid(s.db) && Valid(s.remote)
  {
    ServeValid(r, GetSettings);
    if GetConsumer(db.consumers, consumerKey).Some? && r.served !in r.failing {
      UserMapGetTenancy(db, r, consumerKey, ltiUserId, d);
      ServeQuery(r, GetSettings);
      GetOrCreateValid(db, Counted(r, GetSettings), consumerKey, ltiUserId, r.tenancy, d);
    }
  }

  lemma GetOrCreateValid(db: Db, r: Remote, consumerKey: string, ltiUserId: string, tenancy: int, d: Draw)
    requires DrawWellFormed(d) && DbValid(db) && Valid(r) && GetConsumer(db.consumers, consumerKey).Some?
    ensures var s := GetOrCreate(db, r, consumerKey, ltiUserId, tenancy, d);
      DbValid(s.db) && Valid(s.remote)
  {
    var made := FreshUserMap(consumerKey, ltiUserId, d);
    match FindUserMap(db.userMaps, consumerKey, ltiUserId)
    case None =>
      CreateValid(db, r, made, tenancy);
    case Some(um) =>
      ServeQuery(r, ListAccounts);
      ServeValid(r, ListAccounts);
      var r1 := Counted(r, ListAccounts);
      if r.served !in r.failing {
        if FindByUsername(r.accounts, um.username).Some? {
          RepairValid(db, r1, um, tenancy);
          RepairAccountLog(db, r1, um, tenancy);
        } else {
          var kept := Delete(db.userMaps, um);
          DeleteUserMapUnique(db.userMaps, um);
          UserMapsValid(db, kept);
          CreateValid(db.(userMaps := kept), r1, made, tenancy);
        }
      }
  }

  // ---------------------------------------------------------------------
  // When UserMap.get succeeds, and calling it twice

  /** In valid accounts the account at `k` is the only one with its username. */
  lemma UsernameOwner(accounts: seq<Account>, nextPk: nat, k: int)
    requires AccountsValid(accounts, nextPk) && 0 <= k < |accounts|
    ensures !UsernameTaken(accounts, accounts[k].params.username, accounts[k].pk)
    ensures FindByUsername(accounts, accounts[k].params.username) == Some(accounts[k])
  {
    var found := FindByUsername(accounts, accounts[k].params.username);
    var j :| 0 <= j < |accounts| && accounts[j] == found.value;
    assert j == k;
  }

  /**
   * The repair succeeds when its two calls are answered and the account
   * is listed: the PUT goes to the listed account, whose username no
   * other account holds, and rewrites that account's parameters.
   */
  lemma RepairSucceeds(db: Db, r: Remote, um: UserMap, tenancy: int)
    requires Valid(r) && Answers(r, 2)
    requires FindByUsername(r.accounts, um.username).Some?
    ensures var s := RepairAccount(db, r, um, tenancy);
      var a := FindByUsername(r.accounts, um.username).value;
      && s.out == Ok(um) && s.db == db
      && s.remote.accounts == SetParams(r.accounts, a.pk, UserParamsFor(um.username, um.password, tenancy))
  {
    ServeQuery(r, ListAccounts);
    var r1 := Counted(r, ListAccounts);
    var a := FindByUsername(r.accounts, um.username).value;
    var k :| 0 <= k < |r.accounts| && r.accounts[k] == a;
    UsernameOwner(r.accounts, r.nextPk, k);
    assert FindAccount(r1.accounts, a.pk).Some?;
    assert r1.served !in r1.failing;
    var p := UserParamsFor(um.username, um.password, tenancy);
    assert Serve(r1, UpdateAccount(a.pk, p)).0 == Done;
  }

  /**
   * The creation branch succeeds when its three calls are answered, the
   * new username is free on the service and the map clashes with no row:
   * the map is saved at the end of the table and returned.
   */
  lemma CreateSucceeds(db: Db, r: Remote, um: UserMap, tenancy: int)
    requires Valid(r) && Answers(r, 3)
    requires FindByUsername(r.accounts, um.username).None? && !Clashes(db.userMaps, um)
    ensures var s := CreateUserMap(db, r, um, tenancy);
      s.out == Ok(um) && s.db.userMaps == db.userMaps + [um]
  {
    var p := UserParamsFor(um.username, um.password, tenancy);
    assert r.served !in r.failing;
    assert !UsernameTaken(r.accounts, p.username, r.nextPk);
    var r1 := Serve(r, CreateAccount(p)).1;
    ServeValid(r, CreateAccount(p));
    assert r1.accounts[|r.accounts|].params.username == um.username;
    assert Answers(r1, 2);
    RepairSucceeds(db.(userMaps := db.userMaps + [um]), r1, um, tenancy);
  }

  /**
   * A user map whose account is listed is returned when the four calls
   * are answered: the PUT rewrites the listed account's parameters and
   * the database is unchanged.
   */
  lemma GetReusesSucceeds(db: Db, r: Remote, consumerKey: string, ltiUserId: string, d: Draw, um: UserMap)
    requires DrawWellFormed(d) && Valid(r) && Answers(r, 4)
    requires GetConsumer(db.consumers, consumerKey).Some?
    requires FindUserMap(db.userMaps, consumerKey, ltiUserId) == Some(um)
    requires FindByUsername(r.accounts, um.username).Some?
    ensures var s := UserMapGet(db, r, consumerKey, ltiUserId, d);
      var a := FindByUsername(r.accounts, um.username).value;
      && s.out == Ok(um) && s.db == db
      && s.remote.accounts == SetParams(r.accounts, a.pk, UserParamsFor(um.username, um.password, r.tenancy))
  {
    var r1 := Counted(r, GetSettings);
    var r2 := Counted(r1, ListAccounts);
    assert r.served !in r.failing && r1.served !in r1.failing;
    UserMapGetTenancy(db, r, consumerKey, ltiUserId, d);
    GetOrCreateRepairs(db, r1, consumerKey, ltiUserId, r.tenancy, d, um);
    CountedValid(r, GetSettings);
    CountedValid(r1, ListAccounts);
    assert Answers(r2, 2);
    RepairSucceeds(db, r2, um, r.tenancy);
  }

  /**
   * After deleting the stale map, the new map for the same consumer and
   * LMS user clashes with no row, provided its username is new.
   */
  lemma NoClashAfterDelete(us: seq<UserMap>, um: UserMap, made: UserMap)
    requires UserMapsUnique(us) && um in us
    requires made.consumer == um.consumer && made.ltiUserId == um.ltiUserId
    requires forall m :: m in us ==> m.username != made.username
    ensures !Clashes(Delete(us, um), made)
  {
    var rest := Delete(us, um);
    var q :| 0 <= q < |us| && us[q] == um;
    forall i | 0 <= i < |rest|
      ensures rest[i].consumer != made.consumer || rest[i].ltiUserId != made.ltiUserId
      ensures rest[i].username != made.username
    {
      assert rest[i] in rest;
      var p :| 0 <= p < |us| && us[p] == rest[i];
      assert p != q;
    }
  }

  /**
   * A user map whose account is not listed is replaced, and the new map
   * returned, when the five calls are answered and the drawn username is
   * free both on the service and in the table.
   */
  lemma GetReplacesSucceeds(db: Db, r: Remote, consumerKey: string, ltiUserId: string, d: Draw, um: UserMap)
    requires DrawWellFormed(d) && UserMapsUnique(db.userMaps) && Valid(r) && Answers(r, 5)
    requires GetConsumer(db.consumers, consumerKey).Some?
    requires FindUserMap(db.userMaps, consumerKey, ltiUserId) == Some(um)
    requires FindByUsername(r.accounts, um.username).None?
    requires FindByUsername(r.accounts, FreshUserMap(consumerKey, ltiUserId, d).username).None?
    requires forall m :: m in db.userMaps ==> m.username != FreshUserMap(consumerKey, ltiUserId, d).username
    ensures var s := UserMapGet(db, r, consumerKey, ltiUserId, d);
      var made := FreshUserMap(consumerKey, ltiUserId, d);
      s.out == Ok(made) && s.db.userMaps == Delete(db.userMaps, um) + [made]
  {
    var r1 := Counted(r, GetSettings);
    var r2 := Counted(r1, ListAccounts);
    assert r.served !in r.failing && r1.served !in r1.failing;
    var made := FreshUserMap(consumerKey, ltiUserId, d);
    UserMapGetTenancy(db, r, consumerKey, ltiUserId, d);
    GetOrCreateReplaces(db, r1, consumerKey, ltiUserId, r.tenancy, d, um);
    CountedValid(r, GetSettings);
    CountedValid(r1, ListAccounts);
    assert Answers(r2, 3);
    NoClashAfterDelete(db.userMaps, um, made);
    CreateSucceeds(db.(userMaps := Delete(db.userMaps, um)), r2, made, r.tenancy);
  }

  /** The repair and the creation branch keep the tenancy and the consumers table. */
  lemma RepairTenancy(db: Db, r: Remote, um: UserMap, tenancy: int)
    ensures RepairAccount(db, r, um, tenancy).remote.tenancy == r.tenancy
  {
    ServeFrame(r, ListAccounts);
    var (listed, r1) := Serve(r, ListAccounts);
    if listed.Accounts? && FindByUsername(listed.accounts, um.username).Some? {
      ServeFrame(r1, UpdateAccount(FindByUsername(listed.accounts, um.username).value.pk, UserParamsFor(um.username, um.password, tenancy)));
    }
  }

  lemma CreateTenancy(db: Db, r: Remote, um: UserMap, tenancy: int)
    ensures var s := CreateUserMap(db, r, um, tenancy);
      s.remote.tenancy == r.tenancy && s.db.consumers == db.consumers
  {
    var p := UserParamsFor(um.username, um.password, tenancy);
    ServeFrame(r, CreateAccount(p));
    var r1 := Serve(r, CreateAccount(p)).1;
    RepairTenancy(db.(userMaps := db.userMaps + [um]), r1, um, tenancy);
    RepairAccountLog(db.(userMaps := db.userMaps + [um]), r1, um, tenancy);
  }

  /**
   * What a successful `GetOrCreate` returns is a row of the new table for
   * the requested consumer and LMS user; the tenancy and the consumers
   * table are kept.
   */
  lemma GetOrCreateStores(db: Db, r: Remote, consumerKey: string, ltiUserId: string, tenancy: int, d: Draw)
    requires DrawWellFormed(d)
    ensures var s := GetOrCreate(db, r, consumerKey, ltiUserId, tenancy, d);
      && s.remote.tenancy == r.tenancy && s.db.consumers == db.consumers
      && (s.out.Ok? ==>
            s.out.value in s.db.userMaps && s.out.value.consumer == consumerKey && s.out.value.ltiUserId == ltiUserId)
  {
    var made := FreshUserMap(consumerKey, ltiUserId, d);
    match FindUserMap(db.userMaps, consumerKey, ltiUserId)
    case None =>
      CreateTenancy(db, r, made, tenancy);
      CreateUserMapShape(db, r, made, tenancy);
    case Some(um) =>
      ServeFrame(r, ListAccounts);
      var (listed, r1) := Serve(r, ListAccounts);
      if listed.Accounts? {
        if FindByUsername(listed.accounts, um.username).Some? {
          RepairTenancy(db, r1, um, tenancy);
          RepairAccountLog(db, r1, um, tenancy);
        } else {
          var healed := db.(userMaps := Delete(db.userMaps, um));
          CreateTenancy(healed, r1, made, tenancy);
          CreateUserMapShape(healed, r1, made, tenancy);
        }
      }
  }

  /**
   * What a successful `UserMap.get` returns is a row of the new table for
   * the requested consumer and LMS user, whose consumer exists; the
   * tenancy and the consumers table are kept.
   */
  lemma UserMapGetStores(db: Db, r: Remote, consumerKey: string, ltiUserId: string, d: Draw)
    requires DrawWellFormed(d)
    ensures var s := UserMapGet(db, r, consumerKey, ltiUserId, d);
      && s.remote.tenancy == r.tenancy && s.db.consumers == db.consumers
      && (s.out.Ok? ==>
            && GetConsumer(db.consumers, consumerKey).Some?
            && s.out.value in s.db.userMaps && s.out.value.consumer == consumerKey && s.out.value.ltiUserId == ltiUserId)
  {
    ServeFrame(r, GetSettings);
    var (settings, r1) := Serve(r, GetSettings);
    if GetConsumer(db.consumers, consumerKey).Some? && settings.DefaultTenancy? {
      GetOrCreateStores(db, r1, consumerKey, ltiUserId, settings.tenancy, d);
    }
  }

  /** In a table that keeps its unique constraints, a row is what the lookup of its own pair finds. */
  lemma StoredFound(us: seq<UserMap>, um: UserMap)
    requires UserMapsUnique(us) && um in us
    ensures FindUserMap(us, um.consumer, um.ltiUserId) == Some(um)
  {
    var q :| 0 <= q < |us| && us[q] == um;
    var found := FindUserMap(us, um.consumer, um.ltiUserId);
    var p :| 0 <= p < |us| && us[p] == found.value;
    assert p == q;
  }

  /** Rewriting an account with the parameters it already has changes nothing. */
  lemma SetParamsSame(accounts: seq<Account>, nextPk: nat, pk: nat, p: UserParams)
    requires AccountsValid(accounts, nextPk)
    requires FindAccount(accounts, pk) == Some(Account(pk, p))
    ensures SetParams(accounts, pk, p) == accounts
  {
    var k :| 0 <= k < |accounts| && accounts[k] == Account(pk, p);
    forall i | 0 <= i < |accounts| && accounts[i].pk == pk ensures accounts[i] == Account(pk, p) {
      assert i == k;
    }
  }

  /**
   * `UserMap.get` is idempotent once it has succeeded: asked again for the
   * same consumer and LMS user, with its four calls answered, it returns
   * the same map, leaves the database as it is and leaves every account
   * as it is (the PUT writes back what the first call wrote), whatever
   * the second draw.
   */
  lemma UserMapGetIdempotent(db: Db, r: Remote, consumerKey: string, ltiUserId: string, d: Draw, d': Draw)
    requires DrawWellFormed(d) && DrawWellFormed(d') && DbValid(db) && Valid(r)
    requires UserMapGet(db, r, consumerKey, ltiUserId, d).out.Ok?
    requires Answers(UserMapGet(db, r, consumerKey, ltiUserId, d).remote, 4)
    ensures var s := UserMapGet(db, r, consumerKey, ltiUserId, d);
      var s' := UserMapGet(s.db, s.remote, consumerKey, ltiUserId, d');
      s'.out == s.out && s'.db == s.db && s'.remote.accounts == s.remote.accounts
  {
    var s := UserMapGet(db, r, consumerKey, ltiUserId, d);
    var um := s.out.value;
    UserMapGetValid(db, r, consumerKey, ltiUserId, d);
    UserMapGetStores(db, r, consumerKey, ltiUserId, d);
    UserMapGetPuts(db, r, consumerKey, ltiUserId, d);
    var c := s.remote.log[|s.remote.log| - 1];
    StoredFound(s.db.userMaps, um);
    var k :| 0 <= k < |s.remote.accounts| && s.remote.accounts[k] == Account(c.pk, c.params);
    UsernameOwner(s.remote.accounts, s.remote.nextPk, k);
    GetReusesSucceeds(s.db, s.remote, consumerKey, ltiUserId, d', um);
    SetParamsSame(s.remote.accounts, s.remote.nextPk, c.pk, c.params);
  }

  // ---------------------------------------------------------------------
  // The stop loop of UserMap.login

  /** The identifiers of `envs`. */
  function Ids(envs: seq<Environment>): (r: set<Uuid>)
    ensures forall id :: id in r <==> exists i :: 0 <= i < |envs| && envs[i].id == id
    decreases |envs|
  {
    if envs == [] then {}
    else
      var rest := Ids(envs[1..]);
      assert forall i :: 1 <= i < |envs| ==> envs[i] == envs[1..][i - 1];
      {envs[0].id} + rest
  }

  /** Stopping `id` and then the identifiers in `ids` stops the identifiers of both. */
  lemma StopThenStop(e: Environment, id: Uuid, ids: set<Uuid>)
    ensures var e1 := if e.id == id then e.(running := false) else e;
      (if e1.id in ids then e1.(running := false) else e1) ==
        if e.id in {id} + ids then e.(running := false) else e
  {
  }

  /** One turn of the stop loop. */
  lemma StopAllStep(r: Remote, envs: seq<Environment>)
    requires envs != []
    ensures var c := StopEnvironment(envs[0].id);
      StopAll(r, envs) ==
        if r.served in r.failing || FindEnvironment(r.envs, envs[0].id).None? then (false, Counted(r, c))
        else StopAll(Counted(r, c).(envs := StopIn(r.envs, envs[0].id)), envs[1..])
  {
  }

  /** The stop loop only touches the environments and the call count and log. */
  lemma {:induction false} StopAllFrame(r: Remote, envs: seq<Environment>)
    ensures var r' := StopAll(r, envs).1;
      && r'.accounts == r.accounts && r'.nextPk == r.nextPk && r'.nextId == r.nextId
      && r'.tenancy == r.tenancy && r'.origin == r.origin && r'.failing == r.failing
      && |r'.envs| == |r.envs|
      && forall j :: 0 <= j < |r.envs| ==> r'.envs[j] == r.envs[j].(running := r'.envs[j].running)
    decreases |envs|
  {
    if envs != [] {
      StopAllStep(r, envs);
      var r1 := Counted(r, StopEnvironment(envs[0].id)).(envs := StopIn(r.envs, envs[0].id));
      StopAllFrame(r1, envs[1..]);
    }
  }

  /** A successful stop loop logs one stop per environment, in order. */
  lemma {:induction false} StopAllLog(r: Remote, envs: seq<Environment>)
    ensures var (ok, r') := StopAll(r, envs);
      ok ==> r'.log == r.log + StopCalls(envs) && r'.served == r.served + |envs|
    decreases |envs|
  {
    if envs != [] && StopAll(r, envs).0 {
      StopAllStep(r, envs);
      var c := StopEnvironment(envs[0].id);
      var r1 := Counted(r, c).(envs := StopIn(r.envs, envs[0].id));
      assert StopAll(r, envs) == StopAll(r1, envs[1..]);
      StopAllLog(r1, envs[1..]);
      assert StopCalls(envs) == [c] + StopCalls(envs[1..]);
      assert r.log + [c] + StopCalls(envs[1..]) == r.log + ([c] + StopCalls(envs[1..]));
    }
  }

  /** A successful stop loop stops exactly the listed environments. */
  lemma {:induction false} StopAllStops(r: Remote, envs: seq<Environment>)
    ensures var (ok, r') := StopAll(r, envs);
      ok ==> |r'.envs| == |r.envs| && forall j :: 0 <= j < |r.envs| ==>
        r'.envs[j] == if r.envs[j].id in Ids(envs) then r.envs[j].(running := false) else r.envs[j]
    decreases |envs|
  {
    if envs != [] {
      StopAllStep(r, envs);
      var r1 := Counted(r, StopEnvironment(envs[0].id)).(envs := StopIn(r.envs, envs[0].id));
      StopAllStops(r1, envs[1..]);
      var (ok, r') := StopAll(r, envs);
      if ok {
        forall j | 0 <= j < |r.envs|
          ensures r'.envs[j] == if r.envs[j].id in Ids(envs) then r.envs[j].(running := false) else r.envs[j]
        {
          StopThenStop(r.envs[j], envs[0].id, Ids(envs[1..]));
        }
      }
    }
  }

  /** Stopping keeps the identifiers, so the same environments are found. */
  lemma StopInFinds(envs: seq<Environment>, stopped: Uuid, id: Uuid)
    ensures FindEnvironment(StopIn(envs, stopped), id).Some? <==> FindEnvironment(envs, id).Some?
  {
    var r := StopIn(envs, stopped);
    if FindEnvironment(envs, id).Some? {
      var k :| 0 <= k < |envs| && envs[k] == FindEnvironment(envs, id).value;
      assert r[k].id == id;
    }
    if FindEnvironment(r, id).Some? {
      var k :| 0 <= k < |r| && r[k] == FindEnvironment(r, id).value;
      assert envs[k].id == id;
    }
  }

  /** None of the next stop calls fails, and each of `envs` is listed in `r`. */
  predicate StopsAnswered(r: Remote, envs: seq<Environment>) {
    Answers(r, |envs|) && forall e :: e in envs ==> FindEnvironment(r.envs, e.id).Some?
  }

  lemma StopsAnsweredStep(r: Remote, envs: seq<Environment>, r1: Remote)
    requires envs != []
    requires r1.served == r.served + 1 && r1.failing == r.failing && r1.envs == StopIn(r.envs, envs[0].id)
    ensures StopsAnswered(r, envs) <==>
      r.served !in r.failing && FindEnvironment(r.envs, envs[0].id).Some? && StopsAnswered(r1, envs[1..])
  {
    AnswersStep(r, |envs|, r1);
    assert envs == [envs[0]] + envs[1..];
    forall e | e in envs ensures FindEnvironment(r1.envs, e.id).Some? <==> FindEnvironment(r.envs, e.id).Some? {
      StopInFinds(r.envs, envs[0].id, e.id);
    }
  }

  /** The next `k` calls succeed exactly when this one does and the `k - 1` after it. */
  lemma AnswersStep(r: Remote, k: nat, r1: Remote)
    requires k > 0 && r1.served == r.served + 1 && r1.failing == r.failing
    ensures Answers(r, k) <==> r.served !in r.failing && Answers(r1, k - 1)
  {
  }

  /** The stop loop succeeds exactly when none of its calls fails and every environment is still listed. */
  lemma {:induction false} StopAllSucceeds(r: Remote, envs: seq<Environment>)
    ensures StopAll(r, envs).0 <==> StopsAnswered(r, envs)
    decreases |envs|
  {
    if envs != [] {
      StopAllStep(r, envs);
      var r1 := Counted(r, StopEnvironment(envs[0].id)).(envs := StopIn(r.envs, envs[0].id));
      StopsAnsweredStep(r, envs, r1);
      StopAllSucceeds(r1, envs[1..]);
    }
  }

  // ---------------------------------------------------------------------
  // The hand-off at the end of UserMap.login

  /** The hand-off once the environments are listed and the user's copy is found. */
  lemma HandOffFound(db: Db, r: Remote, name: string, user: nat)
    requires r.served !in r.failing && FindOwned(r.envs, name, user).Some?
    ensures var others := Others(r.envs, name, user);
      var (stopped, r2) := StopAll(Counted(r, ListEnvironments), others);
      var (token, r3) := RequestToken(r2, user);
      var (setting, db1) := SettingGet(db);
      var next := SecondField(FindOwned(r.envs, name, user).value.url, setting.url);
      HandOff(db, r, name, user) ==
        if !stopped then Step(Raised(RemoteError), db, r2)
        else if !token.TokenUrl? then Step(Raised(RemoteError), db, r3)
        else if next.None? then Step(Raised(UrlMismatch), db1, r3)
        else Step(Ok(token.url + "?next=" + next.value), db1, r3)
  {
  }

  /** The hand-off raises `CopyMissing` exactly when the listing shows no environment of that name for the user. */
  lemma HandOffCopyMissing(db: Db, r: Remote, name: string, user: nat)
    ensures HandOff(db, r, name, user).out == Raised(CopyMissing) <==>
      r.served !in r.failing && FindOwned(r.envs, name, user).None?
  {
    if r.served !in r.failing && FindOwned(r.envs, name, user).Some? {
      HandOffFound(db, r, name, user);
    }
  }

  /**
   * The hand-off succeeds exactly when the listing, each of the stops and
   * the token request go through, the user's copy is listed, the user's
   * account exists, and the settings URL occurs in the copy's URL.
   */
  lemma HandOffSucceeds(db: Db, r: Remote, name: string, user: nat)
    ensures var others := Others(r.envs, name, user);
      HandOff(db, r, name, user).out.Ok? <==>
        && r.served !in r.failing
        && Answers(Counted(r, ListEnvironments), |others|)
        && r.served + 1 + |others| !in r.failing
        && FindOwned(r.envs, name, user).Some?
        && FindAccount(r.accounts, user).Some?
        && SecondField(FindOwned(r.envs, name, user).value.url, SettingGet(db).0.url).Some?
  {
    if r.served !in r.failing && FindOwned(r.envs, name, user).Some? {
      HandOffFound(db, r, name, user);
      var (stopped, r2) := StopAll(Counted(r, ListEnvironments), Others(r.envs, name, user));
      var token := RequestToken(r2, user).0;
      var next := SecondField(FindOwned(r.envs, name, user).value.url, SettingGet(db).0.url);
      HandOffStops(r, name, user, stopped, r2);
      var others := Others(r.envs, name, user);
      OkAfterStops(HandOff(db, r, name, user).out.Ok?, stopped, r2, token.TokenUrl?, next.Some?,
        r, |others|, user, Answers(Counted(r, ListEnvironments), |others|));
    } else {
      HandOffEarly(db, r, name, user);
    }
  }

  /** Without the listing or the user's copy, the hand-off raises. */
  lemma HandOffEarly(db: Db, r: Remote, name: string, user: nat)
    requires r.served in r.failing || FindOwned(r.envs, name, user).None?
    ensures HandOff(db, r, name, user).out.Raised?
  {
  }

  /** The user's other environments come straight from the listing, so stopping them fails only on a failing call. */
  lemma OthersStop(r: Remote, name: string, user: nat)
    ensures StopAll(r, Others(r.envs, name, user)).0 <==> Answers(r, |Others(r.envs, name, user)|)
  {
    var others := Others(r.envs, name, user);
    StopAllSucceeds(r, others);
    forall e | e in others ensures FindEnvironment(r.envs, e.id).Some? {
      var k :| 0 <= k < |r.envs| && r.envs[k] == e;
    }
  }

  /** After a successful stop loop, the next call is numbered past the stops and the accounts are as before. */
  lemma StopAllDone(r: Remote, envs: seq<Environment>)
    requires StopAll(r, envs).0
    ensures var r' := StopAll(r, envs).1;
      r'.served == r.served + |envs| && r'.failing == r.failing && r'.accounts == r.accounts && r'.origin == r.origin
  {
    StopAllLog(r, envs);
    StopAllFrame(r, envs);
  }

  /** After the listing, the stop loop goes through exactly when its calls do, and then the next call is numbered past them. */
  lemma HandOffStops(r: Remote, name: string, user: nat, stopped: bool, r2: Remote)
    requires (stopped, r2) == StopAll(Counted(r, ListEnvironments), Others(r.envs, name, user))
    ensures var k := |Others(r.envs, name, user)|;
      && (stopped <==> Answers(Counted(r, ListEnvironments), k))
      && (stopped ==> r2.served == r.served + 1 + k && r2.failing == r.failing && r2.accounts == r.accounts)
  {
    var r1 := Counted(r, ListEnvironments);
    var others := Others(r.envs, name, user);
    assert Others(r1.envs, name, user) == others;
    OthersStop(r1, name, user);
    if stopped {
      StopAllDone(r1, others);
    }
  }

  /**
   * The hand-off's success in terms of its parts: the stops, the token
   * request and the URL match, once the stops are known to go through
   * exactly when their calls do.
   */
  lemma OkAfterStops(ok: bool, stopped: bool, r2: Remote, granted: bool, matched: bool,
                     r: Remote, k: nat, user: nat, answered: bool)
    requires ok <==> stopped && granted && matched
    requires granted <==> r2.served !in r2.failing && FindAccount(r2.accounts, user).Some?
    requires stopped <==> answered
    requires stopped ==> r2.served == r.served + 1 + k && r2.failing == r.failing && r2.accounts == r.accounts
    ensures ok <==> answered && r.served + 1 + k !in r.failing && FindAccount(r.accounts, user).Some? && matched
  {
  }

  /**
   * A successful hand-off lists the environments, stops each of the user's
   * other environments in listing order, and requests one token; exactly
   * those environments end up stopped; the address is the token URL with
   * the copy's address after the settings URL as `next`.
   */
  lemma HandOffResult(db: Db, r: Remote, name: string, user: nat)
    ensures var s := HandOff(db, r, name, user);
      var others := Others(r.envs, name, user);
      s.out.Ok? ==>
        && FindOwned(r.envs, name, user).Some?
        && s.remote.log == r.log + [ListEnvironments] + StopCalls(others) + [IssueToken(user)]
        && s.out.value == LoginUrl(r.origin, r.served + 1 + |others|) + "?next=" +
             SecondField(FindOwned(r.envs, name, user).value.url, SettingGet(db).0.url).value
        && s.db == SettingGet(db).1
        && s.remote.accounts == r.accounts
        && |s.remote.envs| == |r.envs|
        && forall j :: 0 <= j < |r.envs| ==>
             s.remote.envs[j] == if r.envs[j].id in Ids(others) then r.envs[j].(running := false) else r.envs[j]
  {
    if r.served !in r.failing && FindOwned(r.envs, name, user).Some? {
      var r1 := Counted(r, ListEnvironments);
      var others := Others(r.envs, name, user);
      HandOffFound(db, r, name, user);
      StopAllLog(r1, others);
      StopAllFrame(r1, others);
      StopAllStops(r1, others);
    }
  }

  // ---------------------------------------------------------------------
  // UserMap.login

  /** Once both listings go through, login raises on a missing account or template and otherwise copies and hands off. */
  lemma LoginListed(db: Db, r: Remote, um: UserMap, template: EnvironmentMap)
    requires r.served !in r.failing && r.served + 1 !in r.failing
    ensures var r2 := Counted(Counted(r, ListAccounts), ListEnvironments);
      var user := FindByUsername(r.accounts, um.username);
      UserMapLogin(db, r, um, template) ==
        if user.None? then Step(Raised(NoAccount), db, r2)
        else if FindEnvironment(r.envs, template.uuid).None? then
          Step(Raised(TemplateGone), db.(envMaps := Delete(db.envMaps, template)), r2)
        else HandOff(db, CopyTemplate(r2, r.envs, template, user.value.pk), template.name, user.value.pk)
  {
    ServeQuery(r, ListAccounts);
    ServeQuery(Counted(r, ListAccounts), ListEnvironments);
  }

  /**
   * With the account and the template listed, login is the copy step
   * after the two listings followed by the hand-off for the user's key.
   */
  lemma LoginHandsOff(db: Db, r: Remote, um: UserMap, template: EnvironmentMap)
    requires r.served !in r.failing && r.served + 1 !in r.failing
    requires FindByUsername(r.accounts, um.username).Some?
    requires FindEnvironment(r.envs, template.uuid).Some?
    ensures var pk := FindByUsername(r.accounts, um.username).value.pk;
      UserMapLogin(db, r, um, template) ==
        HandOff(db, CopyTemplate(Counted(Counted(r, ListAccounts), ListEnvironments), r.envs, template, pk), template.name, pk)
  {
    LoginListed(db, r, um, template);
  }

  /** The hand-off only raises a failed call, a missing copy or a URL mismatch. */
  lemma HandOffFaults(db: Db, r: Remote, name: string, user: nat)
    ensures var out := HandOff(db, r, name, user).out;
      out.Raised? ==> out.fault in {RemoteError, CopyMissing, UrlMismatch}
  {
    if r.served !in r.failing && FindOwned(r.envs, name, user).Some? {
      HandOffFound(db, r, name, user);
    }
  }

  /** A failed listing raises and changes neither the database nor the accounts and environments. */
  lemma LoginListingFails(db: Db, r: Remote, um: UserMap, template: EnvironmentMap)
    requires r.served in r.failing || r.served + 1 in r.failing
    ensures var s := UserMapLogin(db, r, um, template);
      && s.out == Raised(RemoteError) && s.db == db
      && s.remote.accounts == r.accounts && s.remote.envs == r.envs
      && s.remote.nextPk == r.nextPk && s.remote.nextId == r.nextId
  {
    ServeQuery(r, ListAccounts);
    if r.served !in r.failing {
      var r1 := Counted(r, ListAccounts);
      ServeQuery(r1, ListEnvironments);
      assert Serve(r1, ListEnvironments) == (Failed, Counted(r1, ListEnvironments));
    }
  }

  /** Login raises for a missing account exactly when the username is not listed, and then changes nothing but the log. */
  lemma LoginNoAccount(db: Db, r: Remote, um: UserMap, template: EnvironmentMap)
    requires r.served !in r.failing && r.served + 1 !in r.failing
    ensures var s := UserMapLogin(db, r, um, template);
      && (s.out == Raised(NoAccount) <==> FindByUsername(r.accounts, um.username).None?)
      && (s.out == Raised(NoAccount) ==>
            s.db == db && s.remote.log == r.log + [ListAccounts, ListEnvironments]
            && s.remote.accounts == r.accounts && s.remote.envs == r.envs)
  {
    LoginListed(db, r, um, template);
    var user := FindByUsername(r.accounts, um.username);
    if user.Some? && FindEnvironment(r.envs, template.uuid).Some? {
      var r2 := Counted(Counted(r, ListAccounts), ListEnvironments);
      HandOffFaults(db, CopyTemplate(r2, r.envs, template, user.value.pk), template.name, user.value.pk);
    }
  }

  /**
   * With the account listed, login raises for a vanished template exactly
   * when its environment is not listed, and then its environment map is
   * deleted and nothing else changes.
   */
  lemma LoginTemplateGone(db: Db, r: Remote, um: UserMap, template: EnvironmentMap)
    requires r.served !in r.failing && r.served + 1 !in r.failing
    requires FindByUsername(r.accounts, um.username).Some?
    ensures var s := UserMapLogin(db, r, um, template);
      && (s.out == Raised(TemplateGone) <==> FindEnvironment(r.envs, template.uuid).None?)
      && (s.out == Raised(TemplateGone) ==>
            && s.db == db.(envMaps := Delete(db.envMaps, template))
            && template !in s.db.envMaps
            && s.remote.accounts == r.accounts && s.remote.envs == r.envs)
  {
    LoginListed(db, r, um, template);
    var user := FindByUsername(r.accounts, um.username);
    if FindEnvironment(r.envs, template.uuid).Some? {
      var r2 := Counted(Counted(r, ListAccounts), ListEnvironments);
      HandOffFaults(db, CopyTemplate(r2, r.envs, template, user.value.pk), template.name, user.value.pk);
    }
  }

  /** The copy step deletes the user's old environment of that name, if listed, then requests the copy; the accounts stay. */
  lemma CopyTemplateLog(r: Remote, listed: seq<Environment>, template: EnvironmentMap, pk: nat)
    ensures var r' := CopyTemplate(r, listed, template, pk);
      var previous := FindOwned(listed, template.name, pk);
      && r'.log == r.log + (if previous.Some? then [DeleteEnvironment(previous.value.id)] else [])
                         + [CopyEnvironment(template.uuid, template.name, pk)]
      && r'.served == r.served + (if previous.Some? then 2 else 1)
      && r'.accounts == r.accounts && r'.failing == r.failing && r'.origin == r.origin
  {
    var previous := FindOwned(listed, template.name, pk);
    var r1 := if previous.Some? then Serve(r, DeleteEnvironment(previous.value.id)).1 else r;
    if previous.Some? {
      ServeFrame(r, DeleteEnvironment(previous.value.id));
    }
    ServeFrame(r1, CopyEnvironment(template.uuid, template.name, pk));
  }

  /** Deleting one environment keeps every other one listed. */
  lemma DeleteKeeps(r: Remote, id: Uuid, e: Environment)
    requires e in r.envs && e.id != id
    ensures var r' := Serve(r, DeleteEnvironment(id)).1;
      e in r'.envs && r'.accounts == r.accounts && r'.served == r.served + 1 && r'.failing == r.failing
  {
  }

  /** The environment listed with a given identifier is the one of them that has it. */
  lemma FindEnvironmentUnique(envs: seq<Environment>, nextId: nat, e: Environment)
    requires EnvironmentsValid(envs, nextId) && e in envs
    ensures FindEnvironment(envs, e.id) == Some(e)
  {
    var f := FindEnvironment(envs, e.id).value;
    var i :| 0 <= i < |envs| && envs[i] == e;
    var j :| 0 <= j < |envs| && envs[j] == f;
  }

  /**
   * When the calls go through, the account exists, and the template's
   * environment is stopped and is not itself the user's environment of
   * that name, the user owns an environment of the template's name after
   * the copy step: the fresh copy, or an old one that could not be deleted.
   */
  lemma CopyLands(r: Remote, template: EnvironmentMap, pk: nat, e: Environment)
    requires Valid(r)
    requires r.served !in r.failing && r.served + 1 !in r.failing
    requires FindAccount(r.accounts, pk).Some?
    requires FindEnvironment(r.envs, template.uuid) == Some(e) && !e.running
    requires !(e.user == pk && e.name == template.name)
    ensures Owns(CopyTemplate(r, r.envs, template, pk).envs, template.name, pk)
  {
    var previous := FindOwned(r.envs, template.name, pk);
    var r1 := if previous.Some? then Serve(r, DeleteEnvironment(previous.value.id)).1 else r;
    if previous.Some? {
      var p := previous.value;
      DistinctIds(r.envs, r.nextId, p, e);
      DeleteKeeps(r, p.id, e);
      ServeValid(r, DeleteEnvironment(p.id));
    }
    assert e in r1.envs && Valid(r1) && r1.served in {r.served, r.served + 1} && r1.failing == r.failing;
    FindEnvironmentUnique(r1.envs, r1.nextId, e);
    CopyOwns(r1, template, pk, e);
  }

  /** Two different environments of a valid listing have different identifiers. */
  lemma DistinctIds(envs: seq<Environment>, nextId: nat, p: Environment, e: Environment)
    requires EnvironmentsValid(envs, nextId) && p in envs && e in envs && p != e
    ensures p.id != e.id
  {
    var i :| 0 <= i < |envs| && envs[i] == e;
    var j :| 0 <= j < |envs| && envs[j] == p;
    if i < j { assert envs[i].id != envs[j].id; }
    if j < i { assert envs[j].id != envs[i].id; }
  }

  /** A copy request that goes through for a stopped template leaves the user owning an environment of that name. */
  lemma CopyOwns(r: Remote, template: EnvironmentMap, pk: nat, e: Environment)
    requires r.served !in r.failing && FindAccount(r.accounts, pk).Some?
    requires FindEnvironment(r.envs, template.uuid) == Some(e) && !e.running
    ensures Owns(Serve(r, CopyEnvironment(template.uuid, template.name, pk)).1.envs, template.name, pk)
  {
    var r2 := Serve(r, CopyEnvironment(template.uuid, template.name, pk)).1;
    if !Owns(r.envs, template.name, pk) {
      var copy := Environment(r.nextId, template.name, pk, EnvironmentUrl(r.origin, r.nextId), false);
      assert r2.envs == r.envs + [copy];
      assert r2.envs[|r.envs|] == copy;
    } else {
      var k :| 0 <= k < |r.envs| && r.envs[k].name == template.name && r.envs[k].user == pk;
      assert r2.envs[k] == r.envs[k];
    }
  }

  /**
   * With the first four calls going through, a listed account, and a
   * stopped template that is not itself the user's environment of that
   * name, login never raises for a missing copy.
   */
  lemma LoginCopyLands(db: Db, r: Remote, um: UserMap, template: EnvironmentMap, e: Environment)
    requires Valid(r)
    requires r.served !in r.failing && r.served + 1 !in r.failing
    requires r.served + 2 !in r.failing && r.served + 3 !in r.failing
    requires FindByUsername(r.accounts, um.username).Some?
    requires FindEnvironment(r.envs, template.uuid) == Some(e) && !e.running
    requires !(e.user == FindByUsername(r.accounts, um.username).value.pk && e.name == template.name)
    ensures UserMapLogin(db, r, um, template).out != Raised(CopyMissing)
  {
    var a := FindByUsername(r.accounts, um.username).value;
    assert FindAccount(r.accounts, a.pk).Some? by {
      var k :| 0 <= k < |r.accounts| && r.accounts[k] == a;
    }
    var r2 := Counted(Counted(r, ListAccounts), ListEnvironments);
    ListingCounted(r);
    CopyHandOffFinds(db, r2, template, a.pk, e);
    LoginHandsOff(db, r, um, template);
  }

  /** The two listing calls that open login keep the state valid and change only the count and the log. */
  lemma ListingCounted(r: Remote)
    requires Valid(r)
    ensures var r2 := Counted(Counted(r, ListAccounts), ListEnvironments);
      && Valid(r2) && r2.served == r.served + 2 && r2.failing == r.failing
      && r2.envs == r.envs && r2.accounts == r.accounts
  {
    CountedValid(r, ListAccounts);
    CountedValid(Counted(r, ListAccounts), ListEnvironments);
  }

  /** After a copy that lands, the hand-off finds the user's environment of the template's name. */
  lemma CopyHandOffFinds(db: Db, r: Remote, template: EnvironmentMap, pk: nat, e: Environment)
    requires Valid(r)
    requires r.served !in r.failing && r.served + 1 !in r.failing
    requires FindAccount(r.accounts, pk).Some?
    requires FindEnvironment(r.envs, template.uuid) == Some(e) && !e.running
    requires !(e.user == pk && e.name == template.name)
    ensures HandOff(db, CopyTemplate(r, r.envs, template, pk), template.name, pk).out != Raised(CopyMissing)
  {
    CopyLands(r, template, pk, e);
    var r4 := CopyTemplate(r, r.envs, template, pk);
    HandOffCopyMissing(db, r4, template.name, pk);
  }

  /**
   * A copy's address is the service's origin, `/sdis/` and its
   * identifier; with a settings URL equal to an origin that holds a
   * port separator, the `next` part of the login address is the path.
   */
  lemma CopyUrlNext(origin: string, id: Uuid)
    requires ':' in origin
    ensures SecondField(EnvironmentUrl(origin, id), origin) == Some("/sdis/" + Decimal(id))
  {
    var t := "/sdis/" + Decimal(id);
    assert forall i :: 0 <= i < |t| ==> t[i] != ':';
    assert forall m :: !OccursAt(t, origin, m);
    assert EnvironmentUrl(origin, id) == origin + t;
    SecondFieldAfterSeparator(origin, t);
  }

  // ---------------------------------------------------------------------
  // Validity of login

  lemma {:induction false} StopAllValid(r: Remote, envs: seq<Environment>)
    requires Valid(r)
    ensures Valid(StopAll(r, envs).1)
    decreases |envs|
  {
    if envs != [] {
      var c := StopEnvironment(envs[0].id);
      StopAllStep(r, envs);
      ServeStop(r, envs[0].id);
      ServeValid(r, c);
      if r.served !in r.failing && FindEnvironment(r.envs, envs[0].id).Some? {
        StopAllValid(Counted(r, c).(envs := StopIn(r.envs, envs[0].id)), envs[1..]);
      }
    }
  }

  /** The hand-off keeps the service valid and changes at most the settings table. */
  lemma HandOffValid(db: Db, r: Remote, name: string, user: nat)
    requires Valid(r)
    ensures var s := HandOff(db, r, name, user);
      Valid(s.remote) && (s.db == db || s.db == SettingGet(db).1)
  {
    CountedValid(r, ListEnvironments);
    if r.served !in r.failing && FindOwned(r.envs, name, user).Some? {
      HandOffFound(db, r, name, user);
      var r1 := Counted(r, ListEnvironments);
      var others := Others(r.envs, name, user);
      StopAllValid(r1, others);
      CountedValid(StopAll(r1, others).1, IssueToken(user));
    }
  }

  lemma CopyTemplateValid(r: Remote, listed: seq<Environment>, template: EnvironmentMap, pk: nat)
    requires Valid(r)
    ensures Valid(CopyTemplate(r, listed, template, pk))
  {
    var previous := FindOwned(listed, template.name, pk);
    var r1 := if previous.Some? then Serve(r, DeleteEnvironment(previous.value.id)).1 else r;
    if previous.Some? {
      ServeValid(r, DeleteEnvironment(previous.value.id));
    }
    ServeValid(r1, CopyEnvironment(template.uuid, template.name, pk));
  }

  lemma CopyHandOffValid(db: Db, r: Remote, listed: seq<Environment>, template: EnvironmentMap, pk: nat)
    requires DbValid(db) && Valid(r)
    ensures var s := HandOff(db, CopyTemplate(r, listed, template, pk), template.name, pk);
      DbValid(s.db) && Valid(s.remote)
  {
    CopyTemplateValid(r, listed, template, pk);
    HandOffValid(db, CopyTemplate(r, listed, template, pk), template.name, pk);
  }

  /** Login keeps the unique constraints of the database and the service valid. */
  lemma UserMapLoginValid(db: Db, r: Remote, um: UserMap, template: EnvironmentMap)
    requires DbValid(db) && Valid(r)
    ensures var s := UserMapLogin(db, r, um, template);
      DbValid(s.db) && Valid(s.remote)
  {
    if r.served in r.failing || r.served + 1 in r.failing {
      LoginListingFails(db, r, um, template);
    } else {
      var r2 := Counted(Counted(r, ListAccounts), ListEnvironments);
      CountedValid(r, ListAccounts);
      CountedValid(Counted(r, ListAccounts), ListEnvironments);
      var user := FindByUsername(r.accounts, um.username);
      if user.Some? && FindEnvironment(r.envs, template.uuid).Some? {
        CopyHandOffValid(db, r2, r.envs, template, user.value.pk);
        LoginHandsOff(db, r, um, template);
      } else {
        DeleteEnvironmentMapUnique(db.envMaps, template);
        LoginListed(db, r, um, template);
      }
    }
  }

  // ---------------------------------------------------------------------
  // The database as an object

  /**
   * The four tables as fields that the operations update in place; each
   * method talks to the service one request at a time and is proved to
   * agree with the function of the same operation above.
   */
  class Store {
    var consumers: seq<Consumer>
    var envMaps: seq<EnvironmentMap>
    var userMaps: seq<UserMap>
    var settings: seq<Setting>

    /** The tables as a value. */
    function Abs(): Db
      reads this
    {
      Db(consumers, envMaps, userMaps, settings)
    }

    constructor (initial: Db)
      ensures Abs() == initial
    {
      consumers := initial.consumers;
      envMaps := initial.envMaps;
      userMaps := initial.userMaps;
      settings := initial.settings;
    }

    /** `Setting.get()`. */
    method GetSetting() returns (s: Setting)
      modifies this
      ensures (s, Abs()) == SettingGet(old(Abs()))
    {
      if settings == [] {
        s := DEFAULT_SETTING;
        settings := [s];
      } else {
        s := settings[0];
      }
    }

    /** The repair at the end of `UserMap.get`. */
    method Repair(svc: Service, um: UserMap, tenancy: int) returns (out: Outcome<UserMap>)
      modifies svc
      ensures Step(out, Abs(), svc.Abs()) == RepairAccount(Abs(), old(svc.Abs()), um, tenancy)
    {
      var listed := svc.Request(ListAccounts);
      if !listed.Accounts? {
        return Raised(RemoteError);
      }
      var found := FindByUsername(listed.accounts, um.username);
      if found.None? {
        return Raised(NoAccount);
      }
      var updated := svc.Request(UpdateAccount(found.value.pk, UserParamsFor(um.username, um.password, tenancy)));
      out := if updated.Done? then Ok(um) else Raised(RemoteError);
    }

    /** The creation branch of `UserMap.get`: POST the account, save the map, repair. */
    method Create(svc: Service, um: UserMap, tenancy: int) returns (out: Outcome<UserMap>)
      modifies this, svc
      ensures Step(out, Abs(), svc.Abs()) == CreateUserMap(old(Abs()), old(svc.Abs()), um, tenancy)
    {
      var created := svc.Request(CreateAccount(UserParamsFor(um.username, um.password, tenancy)));
      if !created.Done? {
        return Raised(RemoteError);
      }
      var saved := SaveUserMap(userMaps, um);
      if saved.None? {
        return Raised(IntegrityError);
      }
      userMaps := saved.value;
      out := Repair(svc, um, tenancy);
    }

    /** `UserMap.get(api, consumer_key, lti_user_id)`. */
    method GetUserMap(svc: Service, consumerKey: string, ltiUserId: string, d: Draw) returns (out: Outcome<UserMap>)
      requires DrawWellFormed(d)
      modifies this, svc
      ensures Step(out, Abs(), svc.Abs()) == UserMapGet(old(Abs()), old(svc.Abs()), consumerKey, ltiUserId, d)
    {
      if GetConsumer(consumers, consumerKey).None? {
        return Raised(NoSuchConsumer);
      }
      var settingsReply := svc.Request(GetSettings);
      if !settingsReply.DefaultTenancy? {
        return Raised(RemoteError);
      }
      out := GetOrCreateMap(svc, consumerKey, ltiUserId, settingsReply.tenancy, d);
    }

    /** The body of `UserMap.get` once the tenancy is known. */
    method GetOrCreateMap(svc: Service, consumerKey: string, ltiUserId: string, tenancy: int, d: Draw)
      returns (out: Outcome<UserMap>)
      requires DrawWellFormed(d)
      modifies this, svc
      ensures Step(out, Abs(), svc.Abs()) == GetOrCreate(old(Abs()), old(svc.Abs()), consumerKey, ltiUserId, tenancy, d)
    {
      var existing := FindUserMap(userMaps, consumerKey, ltiUserId);
      if existing.None? {
        out := Create(svc, FreshUserMap(consumerKey, ltiUserId, d), tenancy);
        return;
      }
      var um := existing.value;
      var listed := svc.Request(ListAccounts);
      if !listed.Accounts? {
        return Raised(RemoteError);
      }
      if FindByUsername(listed.accounts, um.username).Some? {
        out := Repair(svc, um, tenancy);
        return;
      }
      userMaps := Delete(userMaps, um);
      out := Create(svc, FreshUserMap(consumerKey, ltiUserId, d), tenancy);
    }

    /** `UserMap.login(api, usermap, source_environment)`. */
    method Login(svc: Service, um: UserMap, template: EnvironmentMap) returns (out: Outcome<string>)
      modifies this, svc
      ensures Step(out, Abs(), svc.Abs()) == UserMapLogin(old(Abs()), old(svc.Abs()), um, template)
    {
      var accountsReply := svc.Request(ListAccounts);
      if !accountsReply.Accounts? {
        return Raised(RemoteError);
      }
      var user := FindByUsername(accountsReply.accounts, um.username);
      var listed := svc.Request(ListEnvironments);
      if !listed.Environments? {
        return Raised(RemoteError);
      }
      if user.None? {
        return Raised(NoAccount);
      }
      if FindEnvironment(listed.envs, template.uuid).None? {
        envMaps := Delete(envMaps, template);
        return Raised(TemplateGone);
      }
      var pk := user.value.pk;
      Copy(svc, listed.envs, template, pk);
      out := HandOffTo(svc, template.name, pk);
    }

    /** Deletes the user's old environment of the template's name, if listed, and requests the copy. */
    method Copy(svc: Service, listed: seq<Environment>, template: EnvironmentMap, pk: nat)
      modifies svc
      ensures svc.Abs() == CopyTemplate(old(svc.Abs()), listed, template, pk)
    {
      var previous := FindOwned(listed, template.name, pk);
      if previous.Some? {
        var _ := svc.Request(DeleteEnvironment(previous.value.id));
      }
      var _ := svc.Request(CopyEnvironment(template.uuid, template.name, pk));
    }

    /** The end of `UserMap.login`: find the copy, stop the others, get the token, build the address. */
    method HandOffTo(svc: Service, name: string, user: nat) returns (out: Outcome<string>)
      modifies this, svc
      ensures Step(out, Abs(), svc.Abs()) == HandOff(old(Abs()), old(svc.Abs()), name, user)
    {
      ServeFetches(svc.Abs(), user);
      var listed := svc.Request(ListEnvironments);
      if !listed.Environments? {
        return Raised(RemoteError);
      }
      var target := FindOwned(listed.envs, name, user);
      if target.None? {
        return Raised(CopyMissing);
      }
      var stopped := StopOthers(svc, Others(listed.envs, name, user));
      if !stopped {
        return Raised(RemoteError);
      }
      ServeToken(svc.Abs(), user);
      var token := svc.Request(IssueToken(user));
      if !token.TokenUrl? {
        return Raised(RemoteError);
      }
      var setting := GetSetting();
      var next := SecondField(target.value.url, setting.url);
      if next.None? {
        return Raised(UrlMismatch);
      }
      out := Ok(token.url + "?next=" + next.value);
    }
  }

  /** The loop that stops the user's other environments, one request each, until one fails. */
  method StopOthers(svc: Service, envs: seq<Environment>) returns (ok: bool)
    modifies svc
    ensures (ok, svc.Abs()) == StopAll(old(svc.Abs()), envs)
  {
    var i := 0;
    while i < |envs|
      invariant 0 <= i <= |envs|
      invariant StopAll(old(svc.Abs()), envs) == StopAll(svc.Abs(), envs[i..])
    {
      assert envs[i..][1..] == envs[i + 1..];
      ServeStop(svc.Abs(), envs[i].id);
      var reply := svc.Request(StopEnvironment(envs[i].id));
      if reply.Failed? {
        return false;
      }
      i := i + 1;
    }
    return true;
  }
}

