/** User accounts and sessions: the tables of the store, what the handlers do to them, and what every
    run of the handlers keeps. Handlers are atomic steps; a session is stored under the digest of its
    token, and digests stand for tokens here. */
module Accounts {
  import opened Text

  const SECOND := 1_000_000_000
  const SESSION_LIFE := 12 * 3600 * SECOND

  datatype User = User(hash: string, role: string)

  /** Clock times are in nanoseconds; `expires` is stored in whole seconds. */
  datatype Session = Session(username: string, role: string, expires: int)

  /** What is stored as the end of a session opened now. */
  function ExpiresAt(now: int): int {
    (now + SESSION_LIFE) / SECOND
  }

  datatype Tables = Tables(users: map<string, User>, sessions: map<string, Session>)

  // ----- The store -----

  predicate OtherAdmin(users: map<string, User>, name: string) {
    exists u :: u in users && u != name && users[u].role == "admin"
  }

  predicate MayUpdate(users: map<string, User>, name: string, role: string) {
    role != "admin" && name in users && users[name].role == "admin" ==> OtherAdmin(users, name)
  }

  function Updated(users: map<string, User>, name: string, hash: Option<string>, role: string): map<string, User> {
    if name !in users then users
    else users[name := User(match hash case Some(h) => h case None => users[name].hash, role)]
  }

  function WithoutUser(sessions: map<string, Session>, name: string): map<string, Session> {
    map k | k in sessions && sessions[k].username != name :: sessions[k]
  }

  /** The user and role of a live session, if the token has one. */
  function Lookup(sessions: map<string, Session>, token: string, now: int): Option<Session> {
    if token in sessions && now <= sessions[token].expires * SECOND then Some(sessions[token]) else None
  }

  class Store {
    var users: map<string, User>
    var sessions: map<string, Session>

    /** Opening an empty database seeds the default administrator. */
    constructor (hash: string)
      ensures Contents() == Tables(map["admin" := User(hash, "admin")], map[])
    {
      users := map["admin" := User(hash, "admin")];
      sessions := map[];
    }

    ghost function Contents(): Tables
      reads this
    {
      Tables(users, sessions)
    }

    method CreateUser(name: string, hash: string, role: string) returns (ok: bool)
      modifies this`users
      ensures ok <==> name !in old(users)
      ensures users == if ok then old(users)[name := User(hash, role)] else old(users)
    {
      ok := name !in users;
      if ok {
        users := users[name := User(hash, role)];
      }
    }

    method UpdateUser(name: string, hash: Option<string>, role: string) returns (ok: bool)
      modifies this`users
      ensures ok <==> MayUpdate(old(users), name, role)
      ensures users == if ok then Updated(old(users), name, hash, role) else old(users)
    {
      if role != "admin" {
        var targetRole := if name in users then users[name].role else "";
        if targetRole == "admin" {
          var others := set u | u in users && users[u].role == "admin" && u != name;
          if |others| == 0 {
            assert forall u :: u in users && u != name && users[u].role == "admin" ==> u in others;
            return false;
          }
          ghost var u :| u in others;
        }
      }
      users := Updated(users, name, hash, role);
      return true;
    }

    method DeleteUser(name: string) returns (ok: bool)
      modifies this`users
      ensures ok <==> OtherAdmin(old(users), name)
      ensures users == if ok then old(users) - {name} else old(users)
    {
      var others := set u | u in users && users[u].role == "admin" && u != name;
      if |others| == 0 {
        assert forall u :: u in users && u != name && users[u].role == "admin" ==> u in others;
        return false;
      }
      ghost var u :| u in others;
      users := users - {name};
      return true;
    }

    /** The primary key makes a second session under one digest an error. */
    method CreateSession(token: string, name: string, role: string, now: int) returns (ok: bool)
      modifies this`sessions
      ensures ok <==> token !in old(sessions)
      ensures sessions == if ok then old(sessions)[token := Session(name, role, ExpiresAt(now))] else old(sessions)
    {
      ok := token !in sessions;
      if ok {
        sessions := sessions[token := Session(name, role, ExpiresAt(now))];
      }
    }

    /** An expired session is deleted on the way. */
    method GetSession(token: string, now: int) returns (found: Option<Session>)
      modifies this`sessions
      ensures found == Lookup(old(sessions), token, now)
      ensures sessions == if found.None? then old(sessions) - {token} else old(sessions)
    {
      if token !in sessions {
        return None;
      }
      if now > sessions[token].expires * SECOND {
        sessions := sessions - {token};
        return None;
      }
      return Some(sessions[token]);
    }

    method DeleteSession(token: string)
      modifies this`sessions
      ensures sessions == old(sessions) - {token}
    {
      sessions := sessions - {token};
    }

    method DeleteSessionsForUser(name: string)
      modifies this`sessions
      ensures sessions == WithoutUser(old(sessions), name)
    {
      sessions := WithoutUser(sessions, name);
    }

    method CleanExpiredSessions(now: int)
      modifies this`sessions
      ensures sessions == map k | k in old(sessions) && !(old(sessions)[k].expires < now / SECOND) :: old(sessions)[k]
    {
      sessions := map k | k in sessions && !(sessions[k].expires < now / SECOND) :: sessions[k];
    }
  }

  // ----- The handlers, as steps on the tables -----

  datatype Action =
    | Login(name: string, rehash: Option<string>, token: string, now: int)  // after the password was accepted
    | Logout(token: string)
    | Create(name: string, password: string, hash: string, role: string)
    | Update(name: string, newHash: Option<string>, role: string)
    | Delete(name: string)
    | Visit(token: string, now: int)
    | CleanExpired(now: int)

  function NormalRole(role: string): string {
    if role != "admin" && role != "reader" then "reader" else role
  }

  function Step(t: Tables, a: Action): Tables {
    match a
    case Login(name, rehash, token, now) =>
      if name in t.users && token !in t.sessions then
        Tables(Upgraded(t.users, name, rehash),
               t.sessions[token := Session(name, t.users[name].role, ExpiresAt(now))])
      else t
    case Logout(token) => t.(sessions := t.sessions - {token})
    case Create(name, password, hash, role) =>
      if name == "" || password == "" || name in t.users then t
      else t.(users := t.users[name := User(hash, NormalRole(role))])
    case Update(name, hash, role) =>
      if (role == "admin" || role == "reader") && MayUpdate(t.users, name, role) then
        Tables(Updated(t.users, name, hash, role), WithoutUser(t.sessions, name))
      else t
    case Delete(name) =>
      if OtherAdmin(t.users, name) then Tables(t.users - {name}, WithoutUser(t.sessions, name)) else t
    case Visit(token, now) =>
      (match Lookup(t.sessions, token, now)
       case None => t.(sessions := t.sessions - {token})
       case Some(s) => if s.username in t.users then t else t.(sessions := t.sessions - {token}))
    case CleanExpired(now) =>
      t.(sessions := map k | k in t.sessions && !(t.sessions[k].expires < now / SECOND) :: t.sessions[k])
  }

  /** Who a request with this token is, and with which role: the role comes from the user record. */
  function Identity(t: Tables, token: string, now: int): Option<(string, string)> {
    match Lookup(t.sessions, token, now)
    case None => None
    case Some(s) => if s.username in t.users then Some((s.username, t.users[s.username].role)) else None
  }

  function Upgraded(users: map<string, User>, name: string, rehash: Option<string>): map<string, User>
    requires name in users
  {
    if rehash.Some? then users[name := users[name].(hash := rehash.value)] else users
  }

  // ----- What every run keeps -----

  /** An administrator exists, and every session names an existing user with that user's role. */
  ghost predicate Inv(t: Tables) {
    && (exists u :: u in t.users && t.users[u].role == "admin")
    && (forall k :: k in t.sessions ==>
      t.sessions[k].username in t.users && t.sessions[k].role == t.users[t.sessions[k].username].role)
  }

  lemma InvStep(t: Tables, a: Action)
    requires Inv(t)
    ensures Inv(Step(t, a))
  {
    var u :| u in t.users && t.users[u].role == "admin";
    var t' := Step(t, a);
    match a {
      case Update(name, hash, role) =>
        if t' != t {
          var v := u;
          if u == name && role != "admin" {
            v :| v in t.users && v != name && t.users[v].role == "admin";
          }
          assert v in t'.users && t'.users[v].role == "admin";
        }
      case Delete(name) =>
        if t' != t {
          var v :| v in t.users && v != name && t.users[v].role == "admin";
          assert v in t'.users && t'.users[v].role == "admin";
        }
      case _ => assert u in t'.users && t'.users[u].role == "admin";
    }
  }

  /** The tables together with every token ever issued and to whom. A login whose token was
      issued before does not happen: tokens are 32 random bytes. */
  datatype World = World(t: Tables, issued: map<string, string>)

  function Next(w: World, a: Action): World {
    match a
    case Login(name, rehash, token, now) =>
      if token in w.issued || name !in w.t.users then w
      else World(Step(w.t, a), w.issued[token := name])
    case _ => w.(t := Step(w.t, a))
  }

  function Run(w: World, actions: seq<Action>): World
    decreases |actions|
  {
    if actions == [] then w else Run(Next(w, actions[0]), actions[1..])
  }

  function Start(hash: string): World {
    World(Tables(map["admin" := User(hash, "admin")], map[]), map[])
  }

  /** Sessions are only ever held by issued tokens, for the user they were issued to. */
  ghost predicate Good(w: World) {
    && Inv(w.t)
    && forall k :: k in w.t.sessions ==> k in w.issued && w.issued[k] == w.t.sessions[k].username
  }

  lemma GoodStep(w: World, a: Action)
    requires Good(w)
    ensures Good(Next(w, a))
    ensures forall k :: k in w.issued ==> k in Next(w, a).issued && Next(w, a).issued[k] == w.issued[k]
    ensures forall k :: k in w.issued && k !in w.t.sessions ==> k !in Next(w, a).t.sessions
  {
    InvStep(w.t, a);
  }

  lemma {:induction false} GoodRun(w: World, actions: seq<Action>)
    requires Good(w)
    ensures Good(Run(w, actions))
    ensures forall k :: k in w.issued ==> k in Run(w, actions).issued && Run(w, actions).issued[k] == w.issued[k]
    ensures forall k :: k in w.issued && k !in w.t.sessions ==> k !in Run(w, actions).t.sessions
    decreases |actions|
  {
    if actions != [] {
      GoodStep(w, actions[0]);
      GoodRun(Next(w, actions[0]), actions[1..]);
    }
  }

  /** Over every run from a fresh database, at least one administrator exists and every session
      names an existing user and carries that user's current role. */
  lemma AccountsInvariant(hash: string, actions: seq<Action>)
    ensures Good(Run(Start(hash), actions))
  {
    assert "admin" in Start(hash).t.users;
    GoodRun(Start(hash), actions);
  }

  /** A token issued before its user was deleted, or updated, never identifies anybody again, even
      if the name is created anew. */
  lemma OldTokensAreDead(w: World, a: Action, later: seq<Action>, token: string, now: int)
    requires Good(w) && token in w.issued
    requires (a.Delete? || a.Update?) && w.issued[token] == a.name
    requires a.Delete? ==> OtherAdmin(w.t.users, a.name)
    requires a.Update? ==> (a.role == "admin" || a.role == "reader") && MayUpdate(w.t.users, a.name, a.role)
    ensures Identity(Run(Next(w, a), later).t, token, now).None?
  {
    GoodStep(w, a);
    assert token !in Next(w, a).t.sessions;
    GoodRun(Next(w, a), later);
  }
}
