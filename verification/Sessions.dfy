/** How long a session lives, over whole runs, and what the account handlers leave in the records. */
module Sessions {
  import opened Text
  import opened Accounts
  import opened Auth

  /** Twelve hours after the login, rounded down to the second. */
  function Expiry(login: int): int {
    (login + 43_200_000_000_000) / 1_000_000_000
  }

  /** This handler call ends the session that `token` got for `name` at time `login`. */
  predicate Ends(t: Tables, a: Action, token: string, name: string, login: int) {
    match a
    case Logout(k) => k == token
    case Update(n, _, role) => n == name && (role == "admin" || role == "reader") && MayUpdate(t.users, n, role)
    case Delete(n) => n == name && OtherAdmin(t.users, n)
    case Visit(k, now) => k == token && now > Expiry(login) * 1_000_000_000
    case CleanExpired(now) => now / 1_000_000_000 > Expiry(login)
    case _ => false
  }

  /** Nothing in this stretch of a run ends it. */
  predicate Undisturbed(w: World, actions: seq<Action>, token: string, name: string, login: int)
    decreases |actions|
  {
    actions == []
    || (!Ends(w.t, actions[0], token, name, login)
        && Undisturbed(Next(w, actions[0]), actions[1..], token, name, login))
  }

  /** The session is there, as the login made it. */
  predicate Live(w: World, token: string, name: string, login: int) {
    && token in w.issued && w.issued[token] == name && name in w.t.users
    && token in w.t.sessions
    && w.t.sessions[token].username == name && w.t.sessions[token].expires == Expiry(login)
  }

  predicate Gone(w: World, token: string) {
    token in w.issued && token !in w.t.sessions
  }

  lemma StepKeepsOrEnds(w: World, a: Action, token: string, name: string, login: int)
    requires Good(w) && Live(w, token, name, login)
    ensures if Ends(w.t, a, token, name, login) then Gone(Next(w, a), token) else Live(Next(w, a), token, name, login)
  {
  }

  lemma {:induction false} RunKeepsOrEnds(w: World, actions: seq<Action>, token: string, name: string, login: int)
    requires Good(w) && Live(w, token, name, login)
    ensures if Undisturbed(w, actions, token, name, login) then Live(Run(w, actions), token, name, login)
            else Gone(Run(w, actions), token)
    decreases |actions|
  {
    if actions != [] {
      hide Live, Gone, Ends, Next, Good;
      StepKeepsOrEnds(w, actions[0], token, name, login);
      GoodStep(w, actions[0]);
      if Ends(w.t, actions[0], token, name, login) {
        StaysGone(Next(w, actions[0]), actions[1..], token);
      } else {
        RunKeepsOrEnds(Next(w, actions[0]), actions[1..], token, name, login);
      }
    }
  }

  lemma StaysGone(w: World, actions: seq<Action>, token: string)
    requires Good(w) && Gone(w, token)
    ensures Gone(Run(w, actions), token)
  {
    GoodRun(w, actions);
  }

  lemma LoginStarts(w: World, name: string, rehash: Option<string>, token: string, login: int)
    requires Good(w) && token !in w.issued && name in w.t.users
    ensures var w' := Next(w, Login(name, rehash, token, login)); Good(w') && Live(w', token, name, login)
  {
    GoodStep(w, Login(name, rehash, token, login));
  }

  lemma Answer(w: World, token: string, name: string, login: int, now: int)
    ensures Live(w, token, name, login) ==>
      Identity(w.t, token, now) ==
      if now <= Expiry(login) * 1_000_000_000 then Some((name, w.t.users[name].role)) else None
    ensures Gone(w, token) ==> Identity(w.t, token, now) == None
  {
  }

  /** Over every run from a fresh database: a token issued by a login identifies, up to twelve hours later (rounded
      down to the second), exactly the user it was issued to, with that user's present role, as long as
      no logout of it, no effective update or delete of that user, and no visit or clean-up after its expiry came in
      between; in every other case, and at any later time, it identifies nobody. */
  lemma SessionLife(hash: string, before: seq<Action>, name: string, rehash: Option<string>, token: string, login: int,
                    later: seq<Action>, now: int)
    requires var w := Run(Start(hash), before); token !in w.issued && name in w.t.users
    ensures var w := Next(Run(Start(hash), before), Login(name, rehash, token, login));
      var t := Run(w, later).t;
      if Undisturbed(w, later, token, name, login)
         && now <= (login + 43_200_000_000_000) / 1_000_000_000 * 1_000_000_000
      then name in t.users && Identity(t, token, now) == Some((name, t.users[name].role))
      else Identity(t, token, now) == None
  {
    hide Good, Run, Next, Undisturbed, Identity;
    AccountsInvariant(hash, before);
    var w0 := Run(Start(hash), before);
    LoginStarts(w0, name, rehash, token, login);
    var w := Next(w0, Login(name, rehash, token, login));
    RunKeepsOrEnds(w, later, token, name, login);
    Answer(Run(w, later), token, name, login, now);
  }

  // ----- The records -----

  /** An update stores the new role, a new password hash if one is given and the old one otherwise, ends
      the user's sessions, and touches no other user and no other session. */
  lemma UpdateRecords(t: Tables, name: string, hash: Option<string>, role: string)
    requires name in t.users && (role == "admin" || role == "reader") && MayUpdate(t.users, name, role)
    ensures var t' := Step(t, Update(name, hash, role));
      && t'.users.Keys == t.users.Keys
      && t'.users[name].role == role && t'.users[name].hash == (if hash.Some? then hash.value else t.users[name].hash)
      && (forall n :: n in t.users && n != name ==> t'.users[n] == t.users[n])
      && (forall k :: k in t'.sessions <==> k in t.sessions && t.sessions[k].username != name)
      && (forall k :: k in t'.sessions ==> t'.sessions[k] == t.sessions[k])
  {
  }

  /** A created account has the given hash and, unless the role is admin, the role reader. */
  lemma CreateRecords(t: Tables, name: string, password: string, hash: string, role: string)
    ensures var t' := Step(t, Create(name, password, hash, role));
      && t'.sessions == t.sessions
      && (if name != "" && password != "" && name !in t.users
          then t'.users == t.users[name := User(hash, if role == "admin" then "admin" else "reader")]
          else t' == t)
  {
  }

  /** A delete that leaves an administrator removes the user and exactly that user's sessions. */
  lemma DeleteRecords(t: Tables, name: string)
    ensures var t' := Step(t, Delete(name));
      if exists u :: u in t.users && u != name && t.users[u].role == "admin"
      then (forall n :: n in t'.users <==> n in t.users && n != name)
        && (forall k :: k in t'.sessions <==> k in t.sessions && t.sessions[k].username != name)
      else t' == t
  {
  }

  /** Refused exactly to demote the last administrator. */
  lemma UpdateRefusedIff(users: map<string, User>, name: string, role: string)
    ensures !MayUpdate(users, name, role) <==>
      role != "admin" && name in users && users[name].role == "admin"
      && forall u :: u in users && users[u].role == "admin" ==> u == name
  {
  }

  /** In particular, whatever happens, it identifies nobody more than twelve hours after the login. */
  lemma NeverLonger(hash: string, before: seq<Action>, name: string, rehash: Option<string>, token: string, login: int,
                    later: seq<Action>, now: int)
    requires var w := Run(Start(hash), before); token !in w.issued && name in w.t.users
    requires now > login + 43_200_000_000_000
    ensures var w := Next(Run(Start(hash), before), Login(name, rehash, token, login));
      Identity(Run(w, later).t, token, now) == None
  {
    hide Run, Next, Identity, Undisturbed;
    SessionLife(hash, before, name, rehash, token, login, later, now);
  }

  /** A hash in the old form: not marked as Argon2id, and with a colon between salt and digest. */
  ghost predicate OldForm(stored: string) {
    ':' in stored && !exists rest :: stored == "$argon2id$" + rest
  }

  lemma LegacyIsOldForm(stored: string)
    ensures IsLegacyHash(stored) <==> OldForm(stored)
  {
    if i :| 0 <= i < |stored| && stored[i] == ':' {
      assert OccursAt(stored, ":", i);
    }
    if i :| 0 <= i <= |stored| && OccursAt(stored, ":", i) {
      assert stored[i..i + 1][0] == stored[i];
    }
    if "$argon2id$" <= stored {
      assert stored == "$argon2id$" + stored[|"$argon2id$"|..];
    }
  }

  /** A login replaces the stored hash exactly when it has the old form; the role, every other user and
      every other session stay. */
  lemma LoginRecords(t: Tables, name: string, newHash: string, token: string, now: int)
    requires name in t.users && token !in t.sessions
    ensures var stored := t.users[name].hash;
      var t' := Step(t, Login(name, Rehash(stored, newHash), token, now));
      && t'.users == t.users[name := User(if OldForm(stored) then newHash else stored, t.users[name].role)]
      && t'.sessions.Keys == t.sessions.Keys + {token}
      && forall k :: k in t.sessions ==> t'.sessions[k] == t.sessions[k]
  {
    hide IsLegacyHash, OldForm;
    LegacyIsOldForm(t.users[name].hash);
  }
}
