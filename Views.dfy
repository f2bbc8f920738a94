/**
 * The two views of sdios_lti/views.py that carry logic.  The LTI launch
 * (`lti`) runs the stages in order and maps each stage's failure to one
 * response.  The environment listing (`view_environments`) annotates each
 * environment with its owner's account, fetched once per owner, and its
 * export; it sorts by owner and name and hides the environments of the
 * accounts made for LMS users.
 */
module Views {
  import opened Base
  import opened Records
  import opened Ordering
  import opened LtiSignature
  import opened Backing
  import opened Provisioning

  // ---------------------------------------------------------------------
  // The LTI launch

  /** A response of the launch view; `Uncaught` is an exception that escapes it (Django answers 500). */
  datatype Response =
    | Plain(status: nat, body: string)
    | Redirect(location: string)
    | Uncaught

  /** The launch request: the HTTP method, the POST values, the metadata and the raw body. */
  datatype Launch = Launch(httpMethod: string, post: Post, meta: Meta, body: Bytes)

  /** The response and the database and service afterwards. */
  datatype Launched = Launched(response: Response, db: Db, remote: Remote)

  /** The environment map exported under LTI key `key`. */
  function FindByKey(envMaps: seq<EnvironmentMap>, key: string): (r: Option<EnvironmentMap>)
    ensures r.None? <==> forall i :: 0 <= i < |envMaps| ==> envMaps[i].key != key
    ensures r.Some? ==> r.value in envMaps && r.value.key == key
    decreases |envMaps|
  {
    if envMaps == [] then None
    else if envMaps[0].key == key then Some(envMaps[0])
    else FindByKey(envMaps[1..], key)
  }

  /** The launch parameters the view reads after validation. */
  predicate HasLaunchParameters(post: Post) {
    "custom_sdi" in post && "oauth_consumer_key" in post && "user_id" in post
  }

  /**
   * `lti(request)`: `path` is what `reverse("lti")` gives, `connected`
   * whether the API client obtained its access token (its constructor
   * reads the settings row first), and `d` the random draw of a new
   * account.
   */
  function Lti(req: Launch, path: string, db: Db, r: Remote, prims: Primitives, connected: bool, d: Draw): Launched
    requires DrawWellFormed(d)
  {
    if req.httpMethod != "POST" then Launched(Plain(400, "POST data only"), db, r)
    else Answer(ValidateSignature(req.post, req.meta, req.body, path, db.consumers, prims), req.post, db, r, connected, d)
  }

  /**
   * The launch after the signature check with verdict `v`: a bad request
   * answers 400 and an unauthorized one 401, each with the exception's
   * text; any other exception escapes; a valid launch goes on.
   */
  function Answer(v: Verdict, post: Post, db: Db, r: Remote, connected: bool, d: Draw): Launched
    requires Reportable(v) && DrawWellFormed(d)
  {
    match v
    case BadRequest(p) => Launched(Plain(400, ProblemMessage(p)), db, r)
    case Unauthorized(why) => Launched(Plain(401, RejectionMessage(why)), db, r)
    case Failure => Launched(Uncaught, db, r)
    case Valid => Provision(post, db, r, connected, d)
  }

  /** A verdict whose problem names one of the fixed-value rules, as the signature check's do. */
  predicate Reportable(v: Verdict) {
    v.BadRequest? && v.problem.WrongValue? ==> v.problem.index < |FIXED_VALUES|
  }

  /** The stages after a valid signature: parameters, client, environment map, user map, login. */
  function Provision(post: Post, db: Db, r: Remote, connected: bool, d: Draw): Launched
    requires DrawWellFormed(d)
  {
    if !HasLaunchParameters(post) then Launched(Plain(400, "missing parameters"), db, r)
    else
      var db1 := SettingGet(db).1;
      if !connected then Launched(Plain(400, "unable to connect to SDI OS"), db1, r)
      else
        match FindByKey(db1.envMaps, post["custom_sdi"])
        case None => Launched(Plain(400, "cannot look up information"), db1, r)
        case Some(template) =>
          var got := UserMapGet(db1, r, post["oauth_consumer_key"], post["user_id"], d);
          if got.out.Raised? then Launched(Plain(400, "cannot look up information"), got.db, got.remote)
          else
            var s := UserMapLogin(got.db, got.remote, got.out.value, template);
            if s.out.Raised? then Launched(Plain(400, "cannot log in"), s.db, s.remote)
            else Launched(Redirect(s.out.value), s.db, s.remote)
  }

  /** A launch that is not a POST is refused before anything is looked at. */
  lemma LtiNotPost(req: Launch, path: string, db: Db, r: Remote, prims: Primitives, connected: bool, d: Draw)
    requires DrawWellFormed(d)
    requires req.httpMethod != "POST"
    ensures Lti(req, path, db, r, prims, connected, d) == Launched(Plain(400, "POST data only"), db, r)
  {
  }

  /**
   * A launch is answered 401 exactly when it is a POST whose signature
   * check found the consumer unknown or the signature wrong.
   */
  lemma LtiUnauthorized(req: Launch, path: string, db: Db, r: Remote, prims: Primitives, connected: bool, d: Draw)
    requires DrawWellFormed(d)
    ensures var l := Lti(req, path, db, r, prims, connected, d);
      (l.response.Plain? && l.response.status == 401) <==>
      (req.httpMethod == "POST" && ValidateSignature(req.post, req.meta, req.body, path, db.consumers, prims).Unauthorized?)
  {
    if req.httpMethod == "POST" {
      var v := ValidateSignature(req.post, req.meta, req.body, path, db.consumers, prims);
      AnswerRejected(v, req.post, db, r, connected, d);
    }
  }

  /**
   * A rejected signature check answers 400 with the text of a bad request
   * and 401 with the text of an unauthorized one, and changes nothing;
   * only an unauthorized verdict gives a 401.
   */
  lemma AnswerRejected(v: Verdict, post: Post, db: Db, r: Remote, connected: bool, d: Draw)
    requires Reportable(v) && DrawWellFormed(d)
    ensures var l := Answer(v, post, db, r, connected, d);
      && (v.BadRequest? ==> l == Launched(Plain(400, ProblemMessage(v.problem)), db, r))
      && (v.Unauthorized? ==> l == Launched(Plain(401, RejectionMessage(v.reason)), db, r))
      && (v.Failure? ==> l == Launched(Uncaught, db, r))
      && ((l.response.Plain? && l.response.status == 401) <==> v.Unauthorized?)
  {
    if v.Valid? {
      ProvisionAnswers(post, db, r, connected, d);
    }
  }

  /** After validation every response is a 400 or the redirect. */
  lemma ProvisionAnswers(post: Post, db: Db, r: Remote, connected: bool, d: Draw)
    requires DrawWellFormed(d)
    ensures var l := Provision(post, db, r, connected, d);
      l.response.Redirect? || (l.response.Plain? && l.response.status == 400)
  {
  }

  /**
   * After validation: missing parameters and a failed client answer
   * before the service is called; an unknown environment key answers
   * before `UserMap.get`, so the service is untouched.
   */
  lemma ProvisionEarlyStages(post: Post, db: Db, r: Remote, connected: bool, d: Draw)
    requires DrawWellFormed(d)
    ensures var l := Provision(post, db, r, connected, d);
      && (!HasLaunchParameters(post) ==> l == Launched(Plain(400, "missing parameters"), db, r))
      && (HasLaunchParameters(post) && !connected ==>
            l == Launched(Plain(400, "unable to connect to SDI OS"), SettingGet(db).1, r))
      && (HasLaunchParameters(post) && connected && FindByKey(db.envMaps, post["custom_sdi"]).None? ==>
            l == Launched(Plain(400, "cannot look up information"), SettingGet(db).1, r))
  {
  }

  /**
   * The launch redirects exactly when every stage succeeds, and then to
   * the address `UserMap.login` produced; a failed `UserMap.get` answers
   * "cannot look up information" and a failed login "cannot log in".
   */
  lemma ProvisionRedirects(post: Post, db: Db, r: Remote, d: Draw)
    requires DrawWellFormed(d)
    requires HasLaunchParameters(post)
    requires FindByKey(db.envMaps, post["custom_sdi"]).Some?
    ensures var db1 := SettingGet(db).1;
      var template := FindByKey(db.envMaps, post["custom_sdi"]).value;
      var got := UserMapGet(db1, r, post["oauth_consumer_key"], post["user_id"], d);
      var l := Provision(post, db, r, true, d);
      && (got.out.Raised? ==> l == Launched(Plain(400, "cannot look up information"), got.db, got.remote))
      && (got.out.Ok? ==>
            var s := UserMapLogin(got.db, got.remote, got.out.value, template);
            && (s.out.Raised? ==> l == Launched(Plain(400, "cannot log in"), s.db, s.remote))
            && (s.out.Ok? ==> l == Launched(Redirect(s.out.value), s.db, s.remote)))
  {
    assert SettingGet(db).1.envMaps == db.envMaps;
  }

  // ---------------------------------------------------------------------
  // The environment listing

  /** One listed environment: the environment, its owner's account and the map exporting it, if any. */
  datatype Row = Row(env: Environment, owner: Account, exported: Option<EnvironmentMap>)

  /** The listing and the database and service afterwards; `None` is an exception that escapes the view. */
  datatype Viewed = Viewed(listing: Option<seq<Row>>, db: Db, remote: Remote)

  /** The environment map of the environment `id` (`EnvironmentMap.objects.get`; `None` for `DoesNotExist`). */
  function ExportOf(envMaps: seq<EnvironmentMap>, id: Uuid): (r: Option<EnvironmentMap>)
    ensures r.None? <==> forall i :: 0 <= i < |envMaps| ==> envMaps[i].uuid != id
    ensures r.Some? ==> r.value in envMaps && r.value.uuid == id
    decreases |envMaps|
  {
    if envMaps == [] then None
    else if envMaps[0].uuid == id then Some(envMaps[0])
    else ExportOf(envMaps[1..], id)
  }

  /** `rows` in front of the rows of `a`, if it has any. */
  function Extend(rows: seq<Row>, a: (Option<seq<Row>>, Remote)): (Option<seq<Row>>, Remote) {
    (if a.0.Some? then Some(rows + a.0.value) else None, a.1)
  }

  /**
   * The loop of `view_environments` over `envs`, with the owners fetched
   * so far in `cache`: an owner not yet cached is fetched from the service
   * (a failed fetch raises), and each environment is paired with its owner
   * and its export.
   */
  function Annotate(r: Remote, envs: seq<Environment>, cache: map<nat, Account>, envMaps: seq<EnvironmentMap>): (Option<seq<Row>>, Remote)
    decreases |envs|
  {
    if envs == [] then (Some([]), r)
    else
      var e := envs[0];
      if e.user in cache then
        Extend([Row(e, cache[e.user], ExportOf(envMaps, e.id))], Annotate(r, envs[1..], cache, envMaps))
      else
        var (reply, r1) := FetchAccount(r, e.user);
        if !reply.AccountRecord? then (None, r1)
        else
          Extend([Row(e, reply.account, ExportOf(envMaps, e.id))],
            Annotate(r1, envs[1..], cache[e.user := reply.account], envMaps))
  }

  /** The username of a row's owner: the first key of the listing order. */
  function OwnerName(row: Row): string {
    row.owner.params.username
  }

  /**
   * `compare(a, b) <= 0` in `view_environments`: rows of one owner by
   * environment name, rows of different owners by the owners' usernames.
   */
  predicate RowLe(a: Row, b: Row) {
    if a.owner == b.owner then LexLe(a.env.name, b.env.name) else LexLe(OwnerName(a), OwnerName(b))
  }

  /** The order the listing promises: by owner's username, then by environment name. */
  predicate KeyLe(a: Row, b: Row) {
    LexLe(OwnerName(a), OwnerName(b)) && (OwnerName(a) == OwnerName(b) ==> LexLe(a.env.name, b.env.name))
  }

  /** Every pair of elements, not only neighbours, is in order. */
  predicate Pairwise<T>(s: seq<T>, le: (T, T) -> bool) {
    forall i, j :: 0 <= i < j < |s| ==> le(s[i], s[j])
  }

  /** Rows whose owners share a username have the same owner. */
  ghost predicate OwnersKeyed(rows: seq<Row>) {
    forall x, y :: x in rows && y in rows && OwnerName(x) == OwnerName(y) ==> x.owner == y.owner
  }

  /** The row's owner is an account made for an LMS user. */
  predicate LtiOwned(row: Row, userMaps: seq<UserMap>) {
    exists k :: 0 <= k < |userMaps| && userMaps[k].username == OwnerName(row)
  }

  /** The final filter of `view_environments`: the rows of accounts made for LMS users are dropped. */
  function DropLtiUsers(rows: seq<Row>, userMaps: seq<UserMap>): (r: seq<Row>)
    ensures forall x :: multiset(r)[x] == if LtiOwned(x, userMaps) then 0 else multiset(rows)[x]
    ensures forall i :: 0 <= i < |r| ==> !LtiOwned(r[i], userMaps)
    decreases |rows|
  {
    if rows == [] then []
    else
      assert rows == [rows[0]] + rows[1..];
      (if LtiOwned(rows[0], userMaps) then [] else [rows[0]]) + DropLtiUsers(rows[1..], userMaps)
  }

  /**
   * `view_environments` after the API client is set up (`connected`):
   * list the environments, annotate them, sort them and drop those of LMS
   * users.
   */
  function Listing(db: Db, r: Remote, connected: bool): Viewed {
    var db1 := SettingGet(db).1;
    if !connected then Viewed(None, db1, r)
    else
      var (reply, r1) := FetchEnvironments(r);
      if !reply.Environments? then Viewed(None, db1, r1)
      else
        var (rows, r2) := Annotate(r1, reply.envs, map[], db1.envMaps);
        if rows.None? then Viewed(None, db1, r2)
        else Viewed(Some(DropLtiUsers(Sort(rows.value, RowLe), db1.userMaps)), db1, r2)
  }

  /** The fetches of the owners `pks`, in order. */
  function Fetches(pks: seq<nat>): (r: seq<Call>)
    ensures |r| == |pks| && forall i :: 0 <= i < |r| ==> r[i] == GetAccount(pks[i])
  {
    seq(|pks|, i requires 0 <= i < |pks| => GetAccount(pks[i]))
  }

  /** The owners of `envs` outside `known`, each once, in order of first appearance. */
  function NewOwners(envs: seq<Environment>, known: set<nat>): seq<nat>
    decreases |envs|
  {
    if envs == [] then []
    else if envs[0].user in known then NewOwners(envs[1..], known)
    else [envs[0].user] + NewOwners(envs[1..], known + {envs[0].user})
  }

  /** The cached owners are the service's accounts under those keys. */
  ghost predicate CacheAgrees(cache: map<nat, Account>, accounts: seq<Account>) {
    forall k :: k in cache ==> FindAccount(accounts, k) == Some(cache[k])
  }

  /** `compare` never leaves two rows unordered. */
  lemma RowLeTotal()
    ensures Total(RowLe)
  {
    forall x: Row, y: Row ensures RowLe(x, y) || RowLe(y, x) {
      LexLeTotal(x.env.name, y.env.name);
      LexLeTotal(OwnerName(x), OwnerName(y));
    }
  }

  /** The promised order is transitive. */
  lemma KeyLeTransitive()
    ensures Transitive(KeyLe)
  {
    forall x: Row, y: Row, z: Row | KeyLe(x, y) && KeyLe(y, z) ensures KeyLe(x, z) {
      LexLeTransitive(OwnerName(x), OwnerName(y), OwnerName(z));
      if OwnerName(x) == OwnerName(z) {
        LexLeAntisymmetric(OwnerName(x), OwnerName(y));
        LexLeTransitive(x.env.name, y.env.name, z.env.name);
      }
    }
  }

  /** Between rows whose owners are keyed by username, `compare`'s order is the promised one. */
  lemma KeyedRowLe(a: Row, b: Row, rows: seq<Row>)
    requires OwnersKeyed(rows) && a in rows && b in rows
    requires RowLe(a, b)
    ensures KeyLe(a, b)
  {
    if a.owner == b.owner {
      LexLeTotal(OwnerName(a), OwnerName(a));
    } else {
      assert OwnerName(a) != OwnerName(b);
    }
  }

  /**
   * When owners with one username are one owner, `compare` sorts the rows
   * by owner's username and then by environment name, every pair of them.
   */
  lemma SortedByOwner(rows: seq<Row>)
    requires OwnersKeyed(rows)
    ensures Pairwise(Sort(rows, RowLe), KeyLe)
  {
    var s := Sort(rows, RowLe);
    RowLeTotal();
    SortSorted(rows, RowLe);
    forall i | 0 < i < |s| ensures KeyLe(s[i - 1], s[i]) {
      assert s[i - 1] in multiset(rows) && s[i] in multiset(rows);
      KeyedRowLe(s[i - 1], s[i], rows);
    }
    KeyLeTransitive();
    forall i, j | 0 <= i < j < |s| ensures KeyLe(s[i], s[j]) {
      SortedPairs(s, KeyLe, i, j);
    }
  }

  /** Dropping rows keeps the others in their order. */
  lemma {:induction false} DropKeepsOrder(rows: seq<Row>, userMaps: seq<UserMap>, le: (Row, Row) -> bool)
    requires Pairwise(rows, le)
    ensures Pairwise(DropLtiUsers(rows, userMaps), le)
    decreases |rows|
  {
    if rows != [] {
      var tail := rows[1..];
      assert Pairwise(tail, le) by {
        forall i, j | 0 <= i < j < |tail| ensures le(tail[i], tail[j]) {
          assert tail[i] == rows[i + 1] && tail[j] == rows[j + 1];
        }
      }
      DropKeepsOrder(tail, userMaps, le);
      var rest := DropLtiUsers(tail, userMaps);
      if !LtiOwned(rows[0], userMaps) {
        forall x | x in rest ensures le(rows[0], x) {
          assert multiset(rest)[x] > 0;
          var j :| 0 <= j < |tail| && tail[j] == x;
          assert rows[j + 1] == x;
        }
        assert DropLtiUsers(rows, userMaps) == [rows[0]] + rest;
        ConsPairwise(rows[0], rest, le);
      } else {
        assert DropLtiUsers(rows, userMaps) == [] + rest == rest;
      }
    }
  }

  /** A row put in front of rows in order, and in order with each of them, keeps them in order. */
  lemma ConsPairwise<T>(h: T, rest: seq<T>, le: (T, T) -> bool)
    requires Pairwise(rest, le) && forall x :: x in rest ==> le(h, x)
    ensures Pairwise([h] + rest, le)
  {
    var s := [h] + rest;
    forall i, j | 0 <= i < j < |s| ensures le(s[i], s[j]) {
      assert s[j] == rest[j - 1];
      if i == 0 {
        assert rest[j - 1] in rest;
      } else {
        assert s[i] == rest[i - 1];
      }
    }
  }

  /** The account of every owner of the listed accounts is keyed by its username. */
  lemma AccountsKeyed(accounts: seq<Account>, nextPk: nat, a: Account, b: Account)
    requires AccountsValid(accounts, nextPk)
    requires a in accounts && b in accounts && a.params.username == b.params.username
    ensures a == b
  {
    var i :| 0 <= i < |accounts| && accounts[i] == a;
    var j :| 0 <= j < |accounts| && accounts[j] == b;
    assert !(i < j) && !(j < i);
  }

  /** The service's state after the loop: only the fetches are counted and logged. */
  lemma {:induction false} AnnotateFrame(r: Remote, envs: seq<Environment>, cache: map<nat, Account>, envMaps: seq<EnvironmentMap>)
    ensures var r' := Annotate(r, envs, cache, envMaps).1;
      && r'.accounts == r.accounts && r'.envs == r.envs && r'.nextPk == r.nextPk && r'.nextId == r.nextId
      && r'.failing == r.failing && r'.origin == r.origin && r'.tenancy == r.tenancy
    decreases |envs|
  {
    if envs != [] {
      var e := envs[0];
      if e.user in cache {
        AnnotateFrame(r, envs[1..], cache, envMaps);
      } else {
        var a := FindAccount(r.accounts, e.user);
        if r.served !in r.failing && a.Some? {
          AnnotateFrame(Counted(r, GetAccount(e.user)), envs[1..], cache[e.user := a.value], envMaps);
        }
      }
    }
  }

  /**
   * A completed loop pairs every environment, in order, with its owner's
   * account as the service holds it and with its export.
   */
  lemma {:induction false} AnnotateRows(r: Remote, envs: seq<Environment>, cache: map<nat, Account>, envMaps: seq<EnvironmentMap>)
    requires CacheAgrees(cache, r.accounts)
    requires Annotate(r, envs, cache, envMaps).0.Some?
    ensures var rows := Annotate(r, envs, cache, envMaps).0.value;
      && |rows| == |envs|
      && forall i :: 0 <= i < |envs| ==>
           && rows[i].env == envs[i]
           && FindAccount(r.accounts, envs[i].user) == Some(rows[i].owner)
           && rows[i].exported == ExportOf(envMaps, envs[i].id)
    decreases |envs|
  {
    if envs != [] {
      var e := envs[0];
      var rows := Annotate(r, envs, cache, envMaps).0.value;
      if e.user in cache {
        AnnotateRows(r, envs[1..], cache, envMaps);
        var rest := Annotate(r, envs[1..], cache, envMaps).0.value;
        assert rows == [Row(e, cache[e.user], ExportOf(envMaps, e.id))] + rest;
      } else {
        var a := FindAccount(r.accounts, e.user).value;
        var r1 := Counted(r, GetAccount(e.user));
        AnnotateRows(r1, envs[1..], cache[e.user := a], envMaps);
        var rest := Annotate(r1, envs[1..], cache[e.user := a], envMaps).0.value;
        assert rows == [Row(e, a, ExportOf(envMaps, e.id))] + rest;
      }
    }
  }

  /** The owners outside `known` are listed once each, and they are all the owners outside `known`. */
  lemma {:induction false} NewOwnersOnce(envs: seq<Environment>, known: set<nat>)
    ensures var ns := NewOwners(envs, known);
      && (forall i, j :: 0 <= i < j < |ns| ==> ns[i] != ns[j])
      && (forall p :: p in ns <==> p !in known && exists i :: 0 <= i < |envs| && envs[i].user == p)
    decreases |envs|
  {
    if envs != [] {
      var u := envs[0].user;
      if u in known {
        NewOwnersOnce(envs[1..], known);
      } else {
        NewOwnersOnce(envs[1..], known + {u});
      }
      forall p | p !in known && (exists i :: 0 <= i < |envs| && envs[i].user == p) && p != u
        ensures exists i :: 0 <= i < |envs[1..]| && envs[1..][i].user == p
      {
        var i :| 0 <= i < |envs| && envs[i].user == p;
        assert envs[1..][i - 1].user == p;
      }
    }
  }

  /**
   * A completed loop fetched the owners outside the cache, each once, in
   * order of first appearance, and made no other call.
   */
  lemma {:induction false} AnnotateCalls(r: Remote, envs: seq<Environment>, cache: map<nat, Account>, envMaps: seq<EnvironmentMap>)
    requires Annotate(r, envs, cache, envMaps).0.Some?
    ensures var r' := Annotate(r, envs, cache, envMaps).1;
      var ns := NewOwners(envs, cache.Keys);
      r'.served == r.served + |ns| && r'.log == r.log + Fetches(ns)
    decreases |envs|
  {
    if envs != [] {
      var e := envs[0];
      if e.user in cache {
        AnnotateCalls(r, envs[1..], cache, envMaps);
      } else {
        var a := FindAccount(r.accounts, e.user).value;
        var r1 := Counted(r, GetAccount(e.user));
        AnnotateCalls(r1, envs[1..], cache[e.user := a], envMaps);
        assert cache[e.user := a].Keys == cache.Keys + {e.user};
        FetchesCons(r.log, e.user, NewOwners(envs[1..], cache.Keys + {e.user}));
      }
    }
  }

  /** Fetching `pk` and then `pks` logs the fetches of `[pk] + pks`. */
  lemma FetchesCons(log: seq<Call>, pk: nat, pks: seq<nat>)
    ensures log + [GetAccount(pk)] + Fetches(pks) == log + Fetches([pk] + pks)
  {
    assert Fetches([pk] + pks) == [GetAccount(pk)] + Fetches(pks);
  }

  /** With no failing call among the next ones and every owner on the service, the loop completes. */
  lemma {:induction false} AnnotateSucceeds(r: Remote, envs: seq<Environment>, cache: map<nat, Account>, envMaps: seq<EnvironmentMap>)
    requires forall n :: r.served <= n < r.served + |envs| ==> n !in r.failing
    requires forall i :: 0 <= i < |envs| ==> FindAccount(r.accounts, envs[i].user).Some?
    ensures Annotate(r, envs, cache, envMaps).0.Some?
    decreases |envs|
  {
    if envs != [] {
      var e := envs[0];
      if e.user in cache {
        AnnotateSucceeds(r, envs[1..], cache, envMaps);
      } else {
        var a := FindAccount(r.accounts, e.user).value;
        AnnotateSucceeds(Counted(r, GetAccount(e.user)), envs[1..], cache[e.user := a], envMaps);
      }
    }
  }

  /** An owner that is neither cached nor on the service makes the loop raise. */
  lemma {:induction false} AnnotateMissingOwner(r: Remote, envs: seq<Environment>, cache: map<nat, Account>, envMaps: seq<EnvironmentMap>, i: nat)
    requires i < |envs| && envs[i].user !in cache && FindAccount(r.accounts, envs[i].user).None?
    ensures Annotate(r, envs, cache, envMaps).0.None?
    decreases |envs|
  {
    var e := envs[0];
    if e.user in cache {
      AnnotateMissingOwner(r, envs[1..], cache, envMaps, i - 1);
    } else {
      var a := FindAccount(r.accounts, e.user);
      if r.served !in r.failing && a.Some? {
        AnnotateMissingOwner(Counted(r, GetAccount(e.user)), envs[1..], cache[e.user := a.value], envMaps, i - 1);
      }
    }
  }

  /** The listing changes no account or environment, and of the database only the settings row `Setting.get` may create. */
  lemma ListingFrame(db: Db, r: Remote, connected: bool)
    ensures var v := Listing(db, r, connected);
      && v.db == SettingGet(db).1
      && v.remote.accounts == r.accounts && v.remote.envs == r.envs
      && v.remote.nextPk == r.nextPk && v.remote.nextId == r.nextId && v.remote.failing == r.failing
  {
    AnnotateFrame(Counted(r, ListEnvironments), r.envs, map[], SettingGet(db).1.envMaps);
  }

  /** The rows of a listed environment: its owner from the service and its export from the database. */
  ghost predicate Describes(x: Row, r: Remote, envMaps: seq<EnvironmentMap>) {
    x.env in r.envs && FindAccount(r.accounts, x.env.user) == Some(x.owner) && x.exported == ExportOf(envMaps, x.env.id)
  }

  /** The rows before sorting, when the loop completes. */
  lemma ListingAnnotated(db: Db, r: Remote, rows: seq<Row>)
    requires Listing(db, r, true).listing == Some(rows)
    ensures r.served !in r.failing
    ensures var a := Annotate(Counted(r, ListEnvironments), r.envs, map[], db.envMaps);
      && a.0.Some?
      && rows == DropLtiUsers(Sort(a.0.value, RowLe), db.userMaps)
      && Listing(db, r, true).remote == a.1
      && |a.0.value| == |r.envs|
      && forall i :: 0 <= i < |r.envs| ==>
           a.0.value[i].env == r.envs[i] && Describes(a.0.value[i], r, db.envMaps)
  {
    var r1 := Counted(r, ListEnvironments);
    assert SettingGet(db).1.envMaps == db.envMaps && SettingGet(db).1.userMaps == db.userMaps;
    AnnotateRows(r1, r.envs, map[], db.envMaps);
  }

  /** The owners of rows that describe the service's environments are keyed by username. */
  lemma DescribedKeyed(r: Remote, envMaps: seq<EnvironmentMap>, annotated: seq<Row>)
    requires AccountsValid(r.accounts, r.nextPk)
    requires forall i :: 0 <= i < |annotated| ==> Describes(annotated[i], r, envMaps)
    ensures OwnersKeyed(annotated)
  {
    forall x, y | x in annotated && y in annotated && OwnerName(x) == OwnerName(y) ensures x.owner == y.owner {
      AccountsKeyed(r.accounts, r.nextPk, x.owner, y.owner);
    }
  }

  /** Sorting and filtering keeps exactly the rows not owned by LMS users' accounts. */
  lemma ShownMembers(annotated: seq<Row>, userMaps: seq<UserMap>, x: Row)
    ensures x in DropLtiUsers(Sort(annotated, RowLe), userMaps) <==> !LtiOwned(x, userMaps) && x in annotated
  {
    var rows := DropLtiUsers(Sort(annotated, RowLe), userMaps);
    assert x in rows <==> multiset(rows)[x] > 0;
    assert x in annotated <==> multiset(Sort(annotated, RowLe))[x] > 0;
  }

  /** The rows of all environments are exactly the rows that describe one. */
  lemma DescribedIn(r: Remote, envMaps: seq<EnvironmentMap>, annotated: seq<Row>, x: Row)
    requires |annotated| == |r.envs|
    requires forall i :: 0 <= i < |r.envs| ==> annotated[i].env == r.envs[i] && Describes(annotated[i], r, envMaps)
    ensures x in annotated <==> Describes(x, r, envMaps)
  {
    if Describes(x, r, envMaps) {
      var i :| 0 <= i < |r.envs| && r.envs[i] == x.env;
      assert annotated[i] == x;
    }
  }

  /**
   * Sorting and filtering the rows of all environments keeps each row
   * whose owner is not an LMS user's account, ordered by owner's username
   * and then by environment name.
   */
  lemma ShownRows(r: Remote, envMaps: seq<EnvironmentMap>, userMaps: seq<UserMap>, annotated: seq<Row>)
    requires AccountsValid(r.accounts, r.nextPk)
    requires |annotated| == |r.envs|
    requires forall i :: 0 <= i < |r.envs| ==> annotated[i].env == r.envs[i] && Describes(annotated[i], r, envMaps)
    ensures var rows := DropLtiUsers(Sort(annotated, RowLe), userMaps);
      && Pairwise(rows, KeyLe)
      && forall x :: x in rows <==> !LtiOwned(x, userMaps) && Describes(x, r, envMaps)
  {
    DescribedKeyed(r, envMaps, annotated);
    SortedByOwner(annotated);
    DropKeepsOrder(Sort(annotated, RowLe), userMaps, KeyLe);
    forall x ensures x in DropLtiUsers(Sort(annotated, RowLe), userMaps) <==> !LtiOwned(x, userMaps) && Describes(x, r, envMaps) {
      ShownMembers(annotated, userMaps, x);
      DescribedIn(r, envMaps, annotated, x);
    }
  }

  /**
   * A completed listing shows each environment of the service whose owner
   * is not an account made for an LMS user, with its owner and export,
   * ordered by owner's username and then by environment name.
   */
  lemma ListingShows(db: Db, r: Remote, rows: seq<Row>)
    requires AccountsValid(r.accounts, r.nextPk)
    requires Listing(db, r, true).listing == Some(rows)
    ensures Pairwise(rows, KeyLe)
    ensures forall x :: x in rows <==> !LtiOwned(x, db.userMaps) && Describes(x, r, db.envMaps)
  {
    ListingAnnotated(db, r, rows);
    ShownRows(r, db.envMaps, db.userMaps, Annotate(Counted(r, ListEnvironments), r.envs, map[], db.envMaps).0.value);
  }

  /** A loop started with an empty cache fetches each owner once, in order of first appearance. */
  lemma AnnotateFromEmpty(r: Remote, envs: seq<Environment>, envMaps: seq<EnvironmentMap>)
    requires Annotate(r, envs, map[], envMaps).0.Some?
    ensures var ns := NewOwners(envs, {});
      && Annotate(r, envs, map[], envMaps).1.log == r.log + Fetches(ns)
      && (forall i, j :: 0 <= i < j < |ns| ==> ns[i] != ns[j])
      && (forall p :: p in ns <==> exists i :: 0 <= i < |envs| && envs[i].user == p)
  {
    var empty: map<nat, Account> := map[];
    AnnotateCalls(r, envs, empty, envMaps);
    assert empty.Keys == {};
    NewOwnersOnce(envs, {});
  }

  /** The listing fetches each owner once, in order of first appearance, after the one listing call. */
  lemma ListingCalls(db: Db, r: Remote, rows: seq<Row>)
    requires Listing(db, r, true).listing == Some(rows)
    ensures var ns := NewOwners(r.envs, {});
      && Listing(db, r, true).remote.log == r.log + [ListEnvironments] + Fetches(ns)
      && (forall i, j :: 0 <= i < j < |ns| ==> ns[i] != ns[j])
      && (forall p :: p in ns <==> exists i :: 0 <= i < |r.envs| && r.envs[i].user == p)
  {
    ListingAnnotated(db, r, rows);
    AnnotateFromEmpty(Counted(r, ListEnvironments), r.envs, db.envMaps);
  }

  /** With no failing call and every owner on the service, the listing completes. */
  lemma ListingSucceeds(db: Db, r: Remote)
    requires forall n :: r.served <= n <= r.served + |r.envs| ==> n !in r.failing
    requires forall i :: 0 <= i < |r.envs| ==> FindAccount(r.accounts, r.envs[i].user).Some?
    ensures Listing(db, r, true).listing.Some?
  {
    AnnotateSucceeds(Counted(r, ListEnvironments), r.envs, map[], SettingGet(db).1.envMaps);
  }

  /** An environment whose owner is not on the service makes the view raise. */
  lemma ListingMissingOwner(db: Db, r: Remote, connected: bool, i: nat)
    requires i < |r.envs| && FindAccount(r.accounts, r.envs[i].user).None?
    ensures Listing(db, r, connected).listing.None?
  {
    if connected && r.served !in r.failing {
      AnnotateMissingOwner(Counted(r, ListEnvironments), r.envs, map[], SettingGet(db).1.envMaps, i);
    }
  }

  /** The loop of `view_environments`, fetching each owner once through the cache. */
  method AnnotateAll(svc: Service, envs: seq<Environment>, envMaps: seq<EnvironmentMap>) returns (rows: Option<seq<Row>>)
    modifies svc
    ensures (rows, svc.Abs()) == Annotate(old(svc.Abs()), envs, map[], envMaps)
  {
    var cache: map<nat, Account> := map[];
    var done: seq<Row> := [];
    var i := 0;
    assert envs[0..] == envs;
    ExtendNothing(Annotate(svc.Abs(), envs, cache, envMaps));
    while i < |envs|
      invariant 0 <= i <= |envs|
      invariant Annotate(old(svc.Abs()), envs, map[], envMaps) == Extend(done, Annotate(svc.Abs(), envs[i..], cache, envMaps))
    {
      var e := envs[i];
      assert envs[i..][1..] == envs[i + 1..];
      var owner: Account;
      if e.user in cache {
        owner := cache[e.user];
      } else {
        ServeFetches(svc.Abs(), e.user);
        var got := svc.Request(GetAccount(e.user));
        if !got.AccountRecord? {
          return None;
        }
        owner := got.account;
        cache := cache[e.user := owner];
      }
      var row := Row(e, owner, ExportOf(envMaps, e.id));
      ExtendTwice(done, [row], Annotate(svc.Abs(), envs[i + 1..], cache, envMaps));
      done := done + [row];
      i := i + 1;
    }
    assert envs[i..] == [] && done + [] == done;
    rows := Some(done);
  }

  /**
   * `view_environments`: the settings row is read when the API client is
   * made, the environments are listed and annotated, and the rows are
   * sorted and filtered.
   */
  method ViewEnvironments(store: Store, svc: Service, connected: bool) returns (listing: Option<seq<Row>>)
    modifies store, svc
    ensures Viewed(listing, store.Abs(), svc.Abs()) == Listing(old(store.Abs()), old(svc.Abs()), connected)
  {
    var _ := store.GetSetting();
    if !connected {
      return None;
    }
    ServeFetches(svc.Abs(), 0);
    var reply := svc.Request(ListEnvironments);
    if !reply.Environments? {
      return None;
    }
    var rows := AnnotateAll(svc, reply.envs, store.envMaps);
    if rows.None? {
      return None;
    }
    listing := Some(DropLtiUsers(Sort(rows.value, RowLe), store.userMaps));
  }

  /** Extending by nothing changes nothing. */
  lemma ExtendNothing(x: (Option<seq<Row>>, Remote))
    ensures Extend([], x) == x
  {
    if x.0.Some? {
      assert [] + x.0.value == x.0.value;
    }
  }

  /** Extending twice is extending once by both. */
  lemma ExtendTwice(a: seq<Row>, b: seq<Row>, x: (Option<seq<Row>>, Remote))
    ensures Extend(a, Extend(b, x)) == Extend(a + b, x)
  {
    if x.0.Some? {
      assert a + (b + x.0.value) == (a + b) + x.0.value;
    }
  }
}
