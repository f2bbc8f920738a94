/**
 * An in-memory stand-in for the backing service (SDI OS) that the
 * provisioning code reaches over HTTP: its accounts, its environments
 * ("SDIs") and the calls the code makes.  Any call may fail: the service
 * carries the set of call numbers that fail, so every outcome the code
 * must survive is an explicit part of the state.
 */
module Backing {
  import opened Base
  import opened Records

  /** An account as listed under `accounts/users`; its username is `params.username`. */
  datatype Account = Account(pk: nat, params: UserParams)

  /** An environment as listed under `sdis`: `user` is the owner's primary key. */
  datatype Environment = Environment(id: Uuid, name: string, user: nat, url: string, running: bool)

  /** The calls the code makes, with the arguments it sends. */
  datatype Call =
    | ListAccounts                                       // GET accounts/users
    | GetAccount(pk: nat)                                // GET accounts/users/{pk}
    | CreateAccount(params: UserParams)                  // POST accounts/users
    | UpdateAccount(pk: nat, params: UserParams)         // PUT accounts/users/{pk}
    | GetSettings                                        // GET system/settings/
    | ListEnvironments                                   // GET sdis
    | DeleteEnvironment(id: Uuid)                        // DELETE sdis/{id}
    | CopyEnvironment(id: Uuid, name: string, user: nat) // POST sdis/{id}/copy, remove_persistence set
    | StopEnvironment(id: Uuid)                          // POST sdis/{id}/stop
    | IssueToken(user: nat)                              // POST accounts/login/token

  /** What a call returns; `Failed` is an error response, raised by the client. */
  datatype Reply =
    | Failed
    | Accounts(accounts: seq<Account>)
    | AccountRecord(account: Account)
    | DefaultTenancy(tenancy: int)
    | Environments(envs: seq<Environment>)
    | Done
    | TokenUrl(url: string)

  /**
   * The service's state: accounts and environments, the default tenancy,
   * the address it serves under, the numbers of the calls that fail, how
   * many calls it has served, the next fresh key and identifier, and every
   * call received, in order.
   */
  datatype Remote = Remote(
    accounts: seq<Account>, envs: seq<Environment>, tenancy: int, origin: string,
    failing: set<nat>, served: nat, nextPk: nat, nextId: nat, log: seq<Call>)

  /** Account keys and usernames are unique, and keys lie below the next fresh one. */
  ghost predicate AccountsValid(accounts: seq<Account>, nextPk: nat) {
    && (forall i, j :: 0 <= i < j < |accounts| ==>
          accounts[i].pk != accounts[j].pk && accounts[i].params.username != accounts[j].params.username)
    && (forall i :: 0 <= i < |accounts| ==> accounts[i].pk < nextPk)
  }

  /** Environment identifiers are unique and lie below the next fresh one. */
  ghost predicate EnvironmentsValid(envs: seq<Environment>, nextId: nat) {
    && (forall i, j :: 0 <= i < j < |envs| ==> envs[i].id != envs[j].id)
    && (forall i :: 0 <= i < |envs| ==> envs[i].id < nextId)
  }

  ghost predicate Valid(r: Remote) {
    AccountsValid(r.accounts, r.nextPk) && EnvironmentsValid(r.envs, r.nextId)
  }

  /** The decimal digits of `n`. */
  function Decimal(n: nat): (r: string)
    ensures r != [] && forall i :: 0 <= i < |r| ==> '0' <= r[i] <= '9'
  {
    var d := ('0' as int + n % 10) as char;
    if n < 10 then [d] else Decimal(n / 10) + [d]
  }

  /** The address of the environment `id` on the service at `origin`. */
  function EnvironmentUrl(origin: string, id: Uuid): string {
    origin + "/sdis/" + Decimal(id)
  }

  /** The one-time login address handed out as the `n`-th call. */
  function LoginUrl(origin: string, n: nat): string {
    origin + "/accounts/login/token/" + Decimal(n)
  }

  /** The first account with key `pk`. */
  function FindAccount(accounts: seq<Account>, pk: nat): (r: Option<Account>)
    ensures r.None? <==> forall i :: 0 <= i < |accounts| ==> accounts[i].pk != pk
    ensures r.Some? ==> r.value in accounts && r.value.pk == pk
    decreases |accounts|
  {
    if accounts == [] then None
    else if accounts[0].pk == pk then Some(accounts[0])
    else FindAccount(accounts[1..], pk)
  }

  /** The first environment with identifier `id`. */
  function FindEnvironment(envs: seq<Environment>, id: Uuid): (r: Option<Environment>)
    ensures r.None? <==> forall i :: 0 <= i < |envs| ==> envs[i].id != id
    ensures r.Some? ==> r.value in envs && r.value.id == id
    decreases |envs|
  {
    if envs == [] then None
    else if envs[0].id == id then Some(envs[0])
    else FindEnvironment(envs[1..], id)
  }

  /** Whether an account other than `pk` has the username `name`. */
  predicate UsernameTaken(accounts: seq<Account>, name: string, pk: nat) {
    exists i :: 0 <= i < |accounts| && accounts[i].params.username == name && accounts[i].pk != pk
  }

  /** Whether `user` already owns an environment called `name`. */
  predicate Owns(envs: seq<Environment>, name: string, user: nat) {
    exists i :: 0 <= i < |envs| && envs[i].name == name && envs[i].user == user
  }

  /** The accounts with the parameters of account `pk` replaced. */
  function SetParams(accounts: seq<Account>, pk: nat, p: UserParams): (r: seq<Account>)
    ensures |r| == |accounts|
    ensures forall i :: 0 <= i < |r| ==>
      r[i] == if accounts[i].pk == pk then Account(pk, p) else accounts[i]
  {
    seq(|accounts|, i requires 0 <= i < |accounts| =>
      if accounts[i].pk == pk then Account(pk, p) else accounts[i])
  }

  /** The environments without the one identified by `id`. */
  function RemoveEnvironment(envs: seq<Environment>, id: Uuid): (r: seq<Environment>)
    ensures forall e :: e in r <==> e in envs && e.id != id
    ensures |r| <= |envs|
    decreases |envs|
  {
    if envs == [] then []
    else (if envs[0].id == id then [] else [envs[0]]) + RemoveEnvironment(envs[1..], id)
  }

  /** The environments with the one identified by `id` stopped. */
  function StopIn(envs: seq<Environment>, id: Uuid): (r: seq<Environment>)
    ensures |r| == |envs|
    ensures forall i :: 0 <= i < |r| ==>
      r[i] == if envs[i].id == id then envs[i].(running := false) else envs[i]
  {
    seq(|envs|, i requires 0 <= i < |envs| =>
      if envs[i].id == id then envs[i].(running := false) else envs[i])
  }

  /**
   * The service answering call `c`.  The call is counted and logged; if
   * its number is failing it changes nothing else.  Otherwise:
   * creating fails on a username in use; updating fails on an unknown key
   * or on another account's username; deleting fails on an unknown or
   * running environment; copying fails when the source is unknown or
   * running, the target owner is unknown, or the owner already has an
   * environment of that name, and otherwise adds a stopped copy; stopping
   * and token issue fail on an unknown environment or account.
   */
  function Serve(r: Remote, c: Call): (Reply, Remote) {
    var n := r.served;
    var counted := Counted(r, c);
    if n in r.failing then (Failed, counted)
    else
      match c
      case ListAccounts => (Accounts(r.accounts), counted)
      case GetAccount(pk) =>
        (match FindAccount(r.accounts, pk)
         case None => (Failed, counted)
         case Some(a) => (AccountRecord(a), counted))
      case CreateAccount(p) =>
        if UsernameTaken(r.accounts, p.username, r.nextPk) then (Failed, counted)
        else (Done, counted.(accounts := r.accounts + [Account(r.nextPk, p)], nextPk := r.nextPk + 1))
      case UpdateAccount(pk, p) =>
        if FindAccount(r.accounts, pk).None? || UsernameTaken(r.accounts, p.username, pk) then (Failed, counted)
        else (Done, counted.(accounts := SetParams(r.accounts, pk, p)))
      case GetSettings => (DefaultTenancy(r.tenancy), counted)
      case ListEnvironments => (Environments(r.envs), counted)
      case DeleteEnvironment(id) =>
        (match FindEnvironment(r.envs, id)
         case None => (Failed, counted)
         case Some(e) =>
           if e.running then (Failed, counted)
           else (Done, counted.(envs := RemoveEnvironment(r.envs, id))))
      case CopyEnvironment(id, name, user) =>
        (match FindEnvironment(r.envs, id)
         case None => (Failed, counted)
         case Some(e) =>
           if e.running || FindAccount(r.accounts, user).None? || Owns(r.envs, name, user) then (Failed, counted)
           else
             var copy := Environment(r.nextId, name, user, EnvironmentUrl(r.origin, r.nextId), false);
             (Done, counted.(envs := r.envs + [copy], nextId := r.nextId + 1)))
      case StopEnvironment(id) =>
        if FindEnvironment(r.envs, id).None? then (Failed, counted)
        else (Done, counted.(envs := StopIn(r.envs, id)))
      case IssueToken(user) =>
        if FindAccount(r.accounts, user).None? then (Failed, counted)
        else (TokenUrl(LoginUrl(r.origin, n)), counted)
  }

  /** The state with call `c` counted and logged. */
  function Counted(r: Remote, c: Call): Remote {
    r.(served := r.served + 1, log := r.log + [c])
  }

  /** Counting a call keeps the state valid. */
  lemma CountedValid(r: Remote, c: Call)
    requires Valid(r)
    ensures Valid(Counted(r, c))
  {
  }

  /** Calls that only read. */
  predicate ReadOnly(c: Call) {
    c.ListAccounts? || c.GetAccount? || c.GetSettings? || c.ListEnvironments? || c.IssueToken?
  }

  /**
   * Every call is counted and logged, and the tenancy, the address and
   * the failing calls never change; a failed or read-only call changes
   * nothing else.
   */
  lemma ServeFrame(r: Remote, c: Call)
    ensures var (reply, r') := Serve(r, c);
      && r'.served == r.served + 1 && r'.log == r.log + [c]
      && r'.tenancy == r.tenancy && r'.origin == r.origin && r'.failing == r.failing
      && (r.served in r.failing ==> reply.Failed?)
      && (reply.Failed? || ReadOnly(c) ==>
            r'.accounts == r.accounts && r'.envs == r.envs && r'.nextPk == r.nextPk && r'.nextId == r.nextId)
  {
  }

  /** A listing or the tenancy query: the state is returned as it is, unless the call fails. */
  lemma ServeQuery(r: Remote, c: Call)
    requires c.ListAccounts? || c.GetSettings? || c.ListEnvironments?
    ensures Serve(r, c) == (
      if r.served in r.failing then Failed
      else if c.ListAccounts? then Accounts(r.accounts)
      else if c.GetSettings? then DefaultTenancy(r.tenancy)
      else Environments(r.envs),
      Counted(r, c))
  {
  }

  /** `POST sdis/{id}/stop`: fails on a failing call or an unknown environment, and otherwise marks it stopped. */
  function RequestStop(r: Remote, id: Uuid): (Reply, Remote) {
    if r.served in r.failing || FindEnvironment(r.envs, id).None? then (Failed, Counted(r, StopEnvironment(id)))
    else (Done, Counted(r, StopEnvironment(id)).(envs := StopIn(r.envs, id)))
  }

  /** `POST accounts/login/token`: fails on a failing call or an unknown account, and otherwise hands out the login address. */
  function RequestToken(r: Remote, user: nat): (Reply, Remote) {
    (if r.served in r.failing || FindAccount(r.accounts, user).None? then Failed else TokenUrl(LoginUrl(r.origin, r.served)),
     Counted(r, IssueToken(user)))
  }

  /** The service answers a stop as `RequestStop` says. */
  lemma ServeStop(r: Remote, id: Uuid)
    ensures Serve(r, StopEnvironment(id)) == RequestStop(r, id)
  {
  }

  /** The service answers a token request as `RequestToken` says. */
  lemma ServeToken(r: Remote, user: nat)
    ensures Serve(r, IssueToken(user)) == RequestToken(r, user)
  {
  }

  /** `GET accounts/users/{pk}` as the listing sees it: the account, unless the call fails or the key is unknown. */
  function FetchAccount(r: Remote, pk: nat): (Reply, Remote) {
    (if r.served in r.failing || FindAccount(r.accounts, pk).None? then Failed else AccountRecord(FindAccount(r.accounts, pk).value),
     Counted(r, GetAccount(pk)))
  }

  /** `GET sdis` as the listing sees it: the environments, unless the call fails. */
  function FetchEnvironments(r: Remote): (Reply, Remote) {
    (if r.served in r.failing then Failed else Environments(r.envs), Counted(r, ListEnvironments))
  }

  /** The service answers an account lookup and an environment listing as the two fetches say. */
  lemma ServeFetches(r: Remote, pk: nat)
    ensures Serve(r, GetAccount(pk)) == FetchAccount(r, pk)
    ensures Serve(r, ListEnvironments) == FetchEnvironments(r)
  {
  }

  /** After the update of account `pk`, looking `pk` up finds the new parameters. */
  lemma SetParamsFind(accounts: seq<Account>, pk: nat, p: UserParams)
    requires FindAccount(accounts, pk).Some?
    ensures FindAccount(SetParams(accounts, pk, p), pk) == Some(Account(pk, p))
  {
    var a := SetParams(accounts, pk, p);
    var found := FindAccount(a, pk);
    var k :| 0 <= k < |accounts| && accounts[k] == FindAccount(accounts, pk).value;
    assert a[k].pk == pk;
    var j :| 0 <= j < |a| && a[j] == found.value;
  }

  /** The service keeps its keys, usernames and identifiers unique whatever it is asked. */
  lemma ServeValid(r: Remote, c: Call)
    requires Valid(r)
    ensures Valid(Serve(r, c).1)
  {
    var (reply, r') := Serve(r, c);
    if r.served !in r.failing && !reply.Failed? {
      match c
      case CreateAccount(p) => CreateValid(r.accounts, r.nextPk, p);
      case UpdateAccount(pk, p) => UpdateValid(r.accounts, r.nextPk, pk, p);
      case DeleteEnvironment(id) => RemoveValid(r.envs, r.nextId, id);
      case CopyEnvironment(id, name, user) =>
        AppendValid(r.envs, r.nextId, Environment(r.nextId, name, user, EnvironmentUrl(r.origin, r.nextId), false));
      case StopEnvironment(id) =>
      case _ =>
    }
  }

  lemma CreateValid(accounts: seq<Account>, nextPk: nat, p: UserParams)
    requires AccountsValid(accounts, nextPk) && !UsernameTaken(accounts, p.username, nextPk)
    ensures AccountsValid(accounts + [Account(nextPk, p)], nextPk + 1)
  {
    var a := accounts + [Account(nextPk, p)];
    forall i, j | 0 <= i < j < |a|
      ensures a[i].pk != a[j].pk && a[i].params.username != a[j].params.username
    {
      if j == |accounts| {
        assert a[i] == accounts[i];
      }
    }
  }

  lemma UpdateValid(accounts: seq<Account>, nextPk: nat, pk: nat, p: UserParams)
    requires AccountsValid(accounts, nextPk) && !UsernameTaken(accounts, p.username, pk)
    ensures AccountsValid(SetParams(accounts, pk, p), nextPk)
  {
    var a := SetParams(accounts, pk, p);
    assert forall k :: 0 <= k < |accounts| && accounts[k].pk != pk ==> accounts[k].params.username != p.username;
  }

  lemma AppendValid(envs: seq<Environment>, nextId: nat, e: Environment)
    requires EnvironmentsValid(envs, nextId) && e.id == nextId
    ensures EnvironmentsValid(envs + [e], nextId + 1)
  {
    var es := envs + [e];
    forall i, j | 0 <= i < j < |es| ensures es[i].id != es[j].id {
      if j == |envs| {
        assert es[i] == envs[i];
      }
    }
  }

  /** The first environment's identifier occurs nowhere after it. */
  lemma HeadIdFresh(envs: seq<Environment>, nextId: nat)
    requires EnvironmentsValid(envs, nextId) && envs != []
    ensures forall e :: e in envs[1..] ==> e.id != envs[0].id
  {
    forall e | e in envs[1..] ensures e.id != envs[0].id {
      var k :| 0 <= k < |envs[1..]| && envs[1..][k] == e;
      assert envs[k + 1] == e;
    }
  }

  /** An environment put in front of valid ones keeps them valid when its identifier is new and below the next fresh one. */
  lemma ConsValid(e: Environment, rest: seq<Environment>, nextId: nat)
    requires EnvironmentsValid(rest, nextId) && e.id < nextId
    requires forall x :: x in rest ==> x.id != e.id
    ensures EnvironmentsValid([e] + rest, nextId)
  {
    var es := [e] + rest;
    forall i, j | 0 <= i < j < |es| ensures es[i].id != es[j].id {
      assert es[j] == rest[j - 1];
      if i == 0 {
        assert rest[j - 1] in rest;
      } else {
        assert es[i] == rest[i - 1];
      }
    }
    forall i | 0 < i < |es| ensures es[i].id < nextId {
      assert es[i] == rest[i - 1];
    }
  }

  /** Removing an environment keeps identifiers unique and below the next fresh one. */
  lemma {:induction false} RemoveValid(envs: seq<Environment>, nextId: nat, id: Uuid)
    requires EnvironmentsValid(envs, nextId)
    ensures EnvironmentsValid(RemoveEnvironment(envs, id), nextId)
    decreases |envs|
  {
    if envs != [] {
      var tail := envs[1..];
      assert EnvironmentsValid(tail, nextId) by {
        forall i, j | 0 <= i < j < |tail| ensures tail[i].id != tail[j].id {
          assert tail[i] == envs[i + 1] && tail[j] == envs[j + 1];
        }
      }
      RemoveValid(tail, nextId, id);
      var rest := RemoveEnvironment(tail, id);
      if envs[0].id != id {
        assert RemoveEnvironment(envs, id) == [envs[0]] + rest;
        HeadIdFresh(envs, nextId);
        ConsValid(envs[0], rest, nextId);
      } else {
        assert RemoveEnvironment(envs, id) == [] + rest == rest;
      }
    }
  }

  /**
   * The service as an object: the fields are the parts of `Remote`, and
   * each request moves them exactly as `Serve` says.
   */
  class Service {
    var accounts: seq<Account>
    var envs: seq<Environment>
    var tenancy: int
    var origin: string
    var failing: set<nat>
    var served: nat
    var nextPk: nat
    var nextId: nat
    var log: seq<Call>

    /** The service's state as a value. */
    function Abs(): Remote
      reads this
    {
      Remote(accounts, envs, tenancy, origin, failing, served, nextPk, nextId, log)
    }

    constructor (initial: Remote)
      ensures Abs() == initial
    {
      accounts := initial.accounts;
      envs := initial.envs;
      tenancy := initial.tenancy;
      origin := initial.origin;
      failing := initial.failing;
      served := initial.served;
      nextPk := initial.nextPk;
      nextId := initial.nextId;
      log := initial.log;
    }

    /** Answers one call. */
    method Request(c: Call) returns (reply: Reply)
      modifies this
      ensures (reply, Abs()) == Serve(old(Abs()), c)
    {
      var n := served;
      served := served + 1;
      log := log + [c];
      if n in failing {
        reply := Failed;
      } else {
        match c {
          case ListAccounts =>
            reply := Accounts(accounts);
          case GetAccount(pk) =>
            var a := FindAccount(accounts, pk);
            reply := if a.Some? then AccountRecord(a.value) else Failed;
          case CreateAccount(p) =>
            if UsernameTaken(accounts, p.username, nextPk) {
              reply := Failed;
            } else {
              accounts := accounts + [Account(nextPk, p)];
              nextPk := nextPk + 1;
              reply := Done;
            }
          case UpdateAccount(pk, p) =>
            if FindAccount(accounts, pk).None? || UsernameTaken(accounts, p.username, pk) {
              reply := Failed;
            } else {
              accounts := SetParams(accounts, pk, p);
              reply := Done;
            }
          case GetSettings =>
            reply := DefaultTenancy(tenancy);
          case ListEnvironments =>
            reply := Environments(envs);
          case DeleteEnvironment(id) =>
            var e := FindEnvironment(envs, id);
            if e.None? || e.value.running {
              reply := Failed;
            } else {
              envs := RemoveEnvironment(envs, id);
              reply := Done;
            }
          case CopyEnvironment(id, name, user) =>
            var e := FindEnvironment(envs, id);
            if e.None? || e.value.running || FindAccount(accounts, user).None? || Owns(envs, name, user) {
              reply := Failed;
            } else {
              envs := envs + [Environment(nextId, name, user, EnvironmentUrl(origin, nextId), false)];
              nextId := nextId + 1;
              reply := Done;
            }
          case StopEnvironment(id) =>
            if FindEnvironment(envs, id).None? {
              reply := Failed;
            } else {
              envs := StopIn(envs, id);
              reply := Done;
            }
          case IssueToken(user) =>
            if FindAccount(accounts, user).None? {
              reply := Failed;
            } else {
              reply := TokenUrl(LoginUrl(origin, n));
            }
        }
      }
    }
  }
}
