/** The login and account handlers over the limiter and the store, and what every run of login
    traffic guarantees: how many passwords are checked, and that the replies to failed logins do
    not depend on which accounts exist. */
module Auth {
  import opened Text
  import opened RateLimit
  import opened Accounts

  const IP_LIMIT := 50
  const USER_LIMIT := 20

  function IpKey(ip: string): string {
    "ip:" + ip
  }

  function UserKey(name: string): string {
    "user:" + name
  }

  // ----- One login request -----

  /** `token` is what the random generator yields for this request. */
  datatype Request = Request(ip: string, name: string, password: string, token: string, now: int)

  datatype LoginReply = TooMany | Unauthorized | SessionError | Granted(role: string)

  /** The reply, the limiter calls made on the way, and whether the password was checked. */
  datatype Outcome = Outcome(reply: LoginReply, calls: seq<RateLimit.Action>, checked: bool) {
    predicate Accepted() {
      reply.SessionError? || reply.Granted?
    }
  }

  /** One request, branch by branch. A missing user and an existing one have separate account
      throttles in the source, so they have here. */
  function LoginOutcome(t: Tables, m: map<string, seq<int>>, verify: (string, string) -> bool, r: Request): Outcome {
    var calls := [Try(IpKey(r.ip), IP_LIMIT, r.now)];
    if !Admits(m, IpKey(r.ip), IP_LIMIT, WINDOW, r.now) then Outcome(TooMany, calls, false)
    else
      var m' := Allowed(m, IpKey(r.ip), IP_LIMIT, WINDOW, r.now);
      if r.name !in t.users then MissingUser(m', calls, r) else ExistingUser(t, m', calls, verify, r)
  }

  /** After a dummy verification that only takes time. */
  function MissingUser(m: map<string, seq<int>>, calls: seq<RateLimit.Action>, r: Request): Outcome {
    var calls' := calls + [Try(UserKey(r.name), USER_LIMIT, r.now)];
    if !Admits(m, UserKey(r.name), USER_LIMIT, WINDOW, r.now) then Outcome(TooMany, calls', false)
    else Outcome(Unauthorized, calls', false)
  }

  function ExistingUser(t: Tables, m: map<string, seq<int>>, calls: seq<RateLimit.Action>,
                        verify: (string, string) -> bool, r: Request): Outcome
    requires r.name in t.users
  {
    var calls' := calls + [Try(UserKey(r.name), USER_LIMIT, r.now)];
    if !Admits(m, UserKey(r.name), USER_LIMIT, WINDOW, r.now) then Outcome(TooMany, calls', false)
    else if !verify(r.password, t.users[r.name].hash) then Outcome(Unauthorized, calls', true)
    else Outcome(if r.token in t.sessions then SessionError else Granted(t.users[r.name].role),
                 calls' + [Clear(UserKey(r.name), r.now), Clear(IpKey(r.ip), r.now)], true)
  }

  predicate IsLegacyHash(stored: string) {
    !("$argon2id$" <= stored) && Contains(stored, ":")
  }

  /** A legacy hash is replaced on the first successful login. */
  function Rehash(stored: string, newHash: string): Option<string> {
    if IsLegacyHash(stored) then Some(newHash) else None
  }

  // ----- Login traffic -----

  /** What the limiter sees: requests, each with the database as it is then (other handlers may
      change it in between), and ticks of the evictor. */
  datatype Traffic =
    | Attempt(t: Tables, r: Request)
    | Tick(now: int)
  {
    function At(): int {
      if Tick? then now else r.now
    }
  }

  /** The limiter calls of a stretch of traffic. */
  function Calls(verify: (string, string) -> bool, traffic: seq<Traffic>): seq<RateLimit.Action> {
    if traffic == [] then [] else Extended(verify, Calls(verify, traffic[..|traffic| - 1]), traffic[|traffic| - 1])
  }

  function Extended(verify: (string, string) -> bool, past: seq<RateLimit.Action>,
                    last: Traffic): seq<RateLimit.Action> {
    match last
    case Attempt(t, r) => past + LoginOutcome(t, Table(past), verify, r).calls
    case Tick(now) => past + [Sweep(now)]
  }

  lemma CallsSnoc(verify: (string, string) -> bool, traffic: seq<Traffic>, last: Traffic)
    ensures Calls(verify, traffic + [last]) == Extended(verify, Calls(verify, traffic), last)
  {
    assert (traffic + [last])[..|traffic|] == traffic;
  }

  lemma TableSnoc(past: seq<RateLimit.Action>, a: RateLimit.Action)
    ensures Table(past + [a]) == Effect(Table(past), a)
  {
    assert (past + [a])[..|past|] == past;
  }

  class Server {
    const db: Store
    const limiter: RateLimiter
    const verify: (string, string) -> bool
    ghost var past: seq<RateLimit.Action>  // every call of the limiter so far
    ghost var traffic: seq<Traffic>        // every request and tick so far

    constructor (hash: string, verify: (string, string) -> bool)
      ensures Valid() && traffic == [] && fresh(db) && fresh(limiter) && this.verify == verify
      ensures db.Contents() == Tables(map["admin" := User(hash, "admin")], map[])
    {
      db := new Store(hash);
      limiter := new RateLimiter();
      this.verify := verify;
      past, traffic := [], [];
    }

    ghost predicate InStep()
      reads this, limiter
    {
      limiter.attempts == Table(past)
    }

    /** The limiter has seen exactly the calls of the traffic. */
    ghost predicate Valid()
      reads this, limiter
    {
      InStep() && past == Calls(verify, traffic)
    }

    method Throttle(key: string, limit: nat, now: int) returns (ok: bool)
      requires InStep()
      modifies this`past, limiter
      ensures InStep() && past == old(past) + [Try(key, limit, now)]
      ensures ok == Admits(old(limiter.attempts), key, limit, WINDOW, now)
      ensures limiter.attempts == Allowed(old(limiter.attempts), key, limit, WINDOW, now)
    {
      ok := limiter.Allow(key, limit, WINDOW, now);
      TableSnoc(past, Try(key, limit, now));
      past := past + [Try(key, limit, now)];
    }

    /** A successful login resets both counters. */
    method Unthrottle(ip: string, name: string, now: int)
      requires InStep()
      modifies this`past, limiter
      ensures InStep() && past == old(past) + [Clear(UserKey(name), now), Clear(IpKey(ip), now)]
    {
      limiter.Reset(UserKey(name));
      TableSnoc(past, Clear(UserKey(name), now));
      past := past + [Clear(UserKey(name), now)];
      limiter.Reset(IpKey(ip));
      TableSnoc(past, Clear(IpKey(ip), now));
      past := past + [Clear(IpKey(ip), now)];
    }

    /** The evictor's tick. */
    method Evict(now: int)
      requires Valid()
      modifies this`past, this`traffic, limiter
      ensures Valid() && traffic == old(traffic) + [Tick(now)]
    {
      limiter.Evict(now);
      TableSnoc(past, Sweep(now));
      CallsSnoc(verify, traffic, Tick(now));
      past, traffic := past + [Sweep(now)], traffic + [Tick(now)];
    }

    /** What follows an accepted password: upgrade of a legacy hash, then the session. */
    method OpenSession(name: string, token: string, newHash: string, now: int) returns (ok: bool)
      requires name in db.users
      modifies db
      ensures ok <==> token !in old(db.sessions)
      ensures ok ==>
        db.Contents() == Step(old(db.Contents()), Login(name, Rehash(old(db.users)[name].hash, newHash), token, now))
      ensures !ok ==>
        db.Contents() ==
          Tables(Upgraded(old(db.users), name, Rehash(old(db.users)[name].hash, newHash)), old(db.sessions))
    {
      var user := db.users[name];
      if IsLegacyHash(user.hash) {
        db.users := db.users[name := user.(hash := newHash)];
      }
      ok := db.CreateSession(token, name, user.role, now);
    }

    /** The throttles, the lookup and the password check of one request. */
    method Screen(r: Request) returns (reply: LoginReply)
      requires InStep()
      modifies this`past, limiter
      ensures InStep()
      ensures var o := LoginOutcome(db.Contents(), old(limiter.attempts), verify, r);
        && past == old(past) + o.calls
        && (o.Accepted() ==> reply == Granted(db.users[r.name].role) && r.name in db.users)
        && (!o.Accepted() ==> reply == o.reply)
    {
      hide Admits, Allowed, Table;
      var ok := Throttle(IpKey(r.ip), IP_LIMIT, r.now);
      if !ok {
        return TooMany;
      }
      if r.name !in db.users {
        ok := Throttle(UserKey(r.name), USER_LIMIT, r.now);
        return if ok then Unauthorized else TooMany;
      }
      ok := Throttle(UserKey(r.name), USER_LIMIT, r.now);
      if !ok {
        return TooMany;
      }
      if !verify(r.password, db.users[r.name].hash) {
        return Unauthorized;
      }
      Unthrottle(r.ip, r.name, r.now);
      return Granted(db.users[r.name].role);
    }

    /** One login request; `newHash` is what a re-hash of its password would yield. */
    method HandleLogin(r: Request, newHash: string) returns (reply: LoginReply)
      requires Valid()
      modifies this`past, this`traffic, limiter, db
      ensures Valid() && traffic == old(traffic) + [Attempt(old(db.Contents()), r)]
      ensures reply == LoginOutcome(old(db.Contents()), old(limiter.attempts), verify, r).reply
      ensures past == old(past) + LoginOutcome(old(db.Contents()), old(limiter.attempts), verify, r).calls
      ensures reply.Granted? ==>
        db.Contents() ==
          Step(old(db.Contents()), Login(r.name, Rehash(old(db.users)[r.name].hash, newHash), r.token, r.now))
      ensures reply.SessionError? ==>
        db.Contents() ==
          Tables(Upgraded(old(db.users), r.name, Rehash(old(db.users)[r.name].hash, newHash)), old(db.sessions))
      ensures reply.TooMany? || reply.Unauthorized? ==> db.Contents() == old(db.Contents())
    {
      hide Admits, Allowed, Table, Calls, IsLegacyHash;
      CallsSnoc(verify, traffic, Attempt(db.Contents(), r));
      traffic := traffic + [Attempt(db.Contents(), r)];
      reply := Screen(r);
      if reply.Granted? {
        var ok := OpenSession(r.name, r.token, newHash, r.now);
        if !ok {
          reply := SessionError;
        }
      }
    }

    method HandleLogout(token: string)
      modifies db
      ensures db.Contents() == Step(old(db.Contents()), Logout(token))
    {
      db.DeleteSession(token);
    }

    method HandleCreate(name: string, password: string, hash: string, role: string) returns (ok: bool)
      modifies db
      ensures db.Contents() == Step(old(db.Contents()), Create(name, password, hash, role))
      ensures ok <==> name != "" && password != "" && name !in old(db.users)
    {
      if name == "" || password == "" {
        return false;
      }
      ok := db.CreateUser(name, hash, NormalRole(role));
    }

    method HandleUpdate(name: string, hash: Option<string>, role: string) returns (ok: bool)
      modifies db
      ensures db.Contents() == Step(old(db.Contents()), Update(name, hash, role))
      ensures ok <==> (role == "admin" || role == "reader") && MayUpdate(old(db.users), name, role)
    {
      if role != "admin" && role != "reader" {
        return false;
      }
      ok := db.UpdateUser(name, hash, role);
      if !ok {
        return false;
      }
      db.DeleteSessionsForUser(name);
    }

    method HandleDelete(name: string) returns (ok: bool)
      modifies db
      ensures db.Contents() == Step(old(db.Contents()), Delete(name))
      ensures ok <==> OtherAdmin(old(db.users), name)
    {
      ok := db.DeleteUser(name);
      if !ok {
        return false;
      }
      db.DeleteSessionsForUser(name);
    }

    method SessionFromCookie(token: string, now: int) returns (who: Option<(string, string)>)
      modifies db
      ensures db.Contents() == Step(old(db.Contents()), Visit(token, now))
      ensures who == Identity(old(db.Contents()), token, now)
    {
      var s := db.GetSession(token, now);
      if s.None? {
        return None;
      }
      if s.value.username !in db.users {
        db.DeleteSession(token);
        return None;
      }
      return Some((s.value.username, db.users[s.value.username].role));
    }
  }

  // ----- Failed logins do not tell which accounts exist -----

  /** The password of this request would not be accepted. */
  predicate Wrong(t: Tables, verify: (string, string) -> bool, r: Request) {
    r.name in t.users ==> !verify(r.password, t.users[r.name].hash)
  }

  /** The replies to a series of requests that change no table, and the limiter calls after it. */
  function Replies(t: Tables, verify: (string, string) -> bool, past: seq<RateLimit.Action>,
                   rs: seq<Request>): seq<LoginReply>
    decreases |rs|
  {
    if rs == [] then []
    else
      var o := LoginOutcome(t, Table(past), verify, rs[0]);
      [o.reply] + Replies(t, verify, past + o.calls, rs[1..])
  }

  function CallsAfter(t: Tables, verify: (string, string) -> bool, past: seq<RateLimit.Action>,
                      rs: seq<Request>): seq<RateLimit.Action>
    decreases |rs|
  {
    if rs == [] then past
    else CallsAfter(t, verify, past + LoginOutcome(t, Table(past), verify, rs[0]).calls, rs[1..])
  }

  lemma WrongAlike(t: Tables, t': Tables, m: map<string, seq<int>>, verify: (string, string) -> bool, r: Request)
    requires Wrong(t, verify, r) && Wrong(t', verify, r)
    ensures LoginOutcome(t, m, verify, r).reply == LoginOutcome(t', m, verify, r).reply
    ensures LoginOutcome(t, m, verify, r).calls == LoginOutcome(t', m, verify, r).calls
    ensures !LoginOutcome(t, m, verify, r).Accepted()
  {
    hide Admits, Allowed;
  }

  /** No enumeration: against any two sets of accounts, any series of wrong logins, from any state of
      the limiter, gets the same replies and leaves the limiter with the same calls and table. */
  lemma {:induction false} NoEnumeration(t: Tables, t': Tables, verify: (string, string) -> bool,
                                         past: seq<RateLimit.Action>, rs: seq<Request>)
    requires forall i :: 0 <= i < |rs| ==> Wrong(t, verify, rs[i]) && Wrong(t', verify, rs[i])
    ensures Replies(t, verify, past, rs) == Replies(t', verify, past, rs)
    ensures CallsAfter(t, verify, past, rs) == CallsAfter(t', verify, past, rs)
    ensures Table(CallsAfter(t, verify, past, rs)) == Table(CallsAfter(t', verify, past, rs))
    decreases |rs|
  {
    if rs != [] {
      hide Wrong, LoginOutcome, Table;
      WrongAlike(t, t', Table(past), verify, rs[0]);
      NoEnumeration(t, t', verify, past + LoginOutcome(t, Table(past), verify, rs[0]).calls, rs[1..]);
    }
  }

  // ----- How many passwords are checked -----

  /** The times at which passwords for one account were checked, since the last accepted one. */
  function CheckedForUser(verify: (string, string) -> bool, traffic: seq<Traffic>, name: string): seq<int> {
    if traffic == [] then []
    else
      var init := traffic[..|traffic| - 1];
      var h := CheckedForUser(verify, init, name);
      match traffic[|traffic| - 1]
      case Attempt(t, r) =>
        if r.name == name then Counted(h, LoginOutcome(t, Table(Calls(verify, init)), verify, r), r.now) else h
      case Tick(_) => h
  }

  /** The same for one address. */
  function CheckedFromIp(verify: (string, string) -> bool, traffic: seq<Traffic>, ip: string): seq<int> {
    if traffic == [] then []
    else
      var init := traffic[..|traffic| - 1];
      var h := CheckedFromIp(verify, init, ip);
      match traffic[|traffic| - 1]
      case Attempt(t, r) =>
        if r.ip == ip then Counted(h, LoginOutcome(t, Table(Calls(verify, init)), verify, r), r.now) else h
      case Tick(_) => h
  }

  function Counted(h: seq<int>, o: Outcome, now: int): seq<int> {
    if o.Accepted() then [] else if o.checked then h + [now] else h
  }

  ghost predicate InTimeOrder(traffic: seq<Traffic>) {
    forall i, j :: 0 <= i <= j < |traffic| ==> traffic[i].At() <= traffic[j].At()
  }

  /** Chronological, and over by `now`. */
  ghost predicate UpTo(past: seq<RateLimit.Action>, now: int) {
    Chronological(past) && (past != [] ==> past[|past| - 1].at <= now)
  }

  /** Every account is tried with one limit and every address with the other. */
  ghost predicate WellLimited(past: seq<RateLimit.Action>) {
    forall i :: 0 <= i < |past| && past[i].Try? ==>
      || (past[i].maxAttempts == USER_LIMIT && "user:" <= past[i].key)
      || (past[i].maxAttempts == IP_LIMIT && "ip:" <= past[i].key)
  }

  lemma KeysDiffer(ip: string, name: string)
    ensures IpKey(ip) != UserKey(name) && !("ip:" <= UserKey(name)) && !("user:" <= IpKey(ip))
    ensures "ip:" <= IpKey(ip) && "user:" <= UserKey(name)
  {
    assert IpKey(ip)[0] == 'i' && UserKey(name)[0] == 'u';
  }

  lemma KeysInjective(a: string, b: string)
    ensures IpKey(a) == IpKey(b) ==> a == b
    ensures UserKey(a) == UserKey(b) ==> a == b
  {
    assert IpKey(a)[3..] == a && IpKey(b)[3..] == b;
    assert UserKey(a)[5..] == a && UserKey(b)[5..] == b;
  }

  /** One more call; a try that is admitted is recorded under its own key and no other. */
  lemma OneMoreCall(past: seq<RateLimit.Action>, a: RateLimit.Action, key: string)
    requires UpTo(past, a.at) && WellLimited(past)
    requires a.Try? ==>
      (a.maxAttempts == USER_LIMIT && "user:" <= a.key) || (a.maxAttempts == IP_LIMIT && "ip:" <= a.key)
    ensures UpTo(past + [a], a.at) && WellLimited(past + [a])
    ensures Admitted(past + [a], key) ==
      Remembered(Admitted(past, key), a, key, a.Try? && Admits(Table(past), a.key, a.maxAttempts, WINDOW, a.at))
  {
    hide Table, Admits;
    assert (past + [a])[..|past|] == past;
    if a.Try? {
      AnswersAgree(past, a.key, a.maxAttempts, a.at);
    }
  }

  function First(r: Request): RateLimit.Action {
    Try(IpKey(r.ip), IP_LIMIT, r.now)
  }

  function Second(r: Request): RateLimit.Action {
    Try(UserKey(r.name), USER_LIMIT, r.now)
  }

  /** The three series of calls a request can make. */
  lemma Shapes(t: Tables, verify: (string, string) -> bool, past: seq<RateLimit.Action>, r: Request)
    ensures var o := LoginOutcome(t, Table(past), verify, r);
      || (o.calls == [First(r)] && !o.checked && !o.Accepted())
      || (o.calls == [First(r), Second(r)] && !o.Accepted()
          && Admits(Table(past), IpKey(r.ip), IP_LIMIT, WINDOW, r.now)
          && (o.checked ==> Admits(Table(past + [First(r)]), UserKey(r.name), USER_LIMIT, WINDOW, r.now)))
      || (o.calls == [First(r), Second(r), Clear(UserKey(r.name), r.now), Clear(IpKey(r.ip), r.now)] && o.Accepted())
  {
    hide Admits, Allowed, Table;
    TableSnoc(past, First(r));
  }

  /** What happens to the history of a key: emptied by an accepted login, and longer by a check that
      fails. */
  ghost predicate Covers(h: seq<int>, h': seq<int>, o: Outcome, now: int) {
    if o.Accepted() then h' == [] else h' == h + [now] || (h' == h && !o.checked)
  }

  /** After each of the four calls a request may make. */
  lemma CallByCall(past: seq<RateLimit.Action>, r: Request, key: string)
    requires UpTo(past, r.now) && WellLimited(past)
    ensures var one := past + [First(r)];
      var two := one + [Second(r)];
      var three := two + [Clear(UserKey(r.name), r.now)];
      var four := three + [Clear(IpKey(r.ip), r.now)];
      && UpTo(one, r.now) && WellLimited(one) && UpTo(two, r.now) && WellLimited(two)
      && UpTo(four, r.now) && WellLimited(four)
      && Admitted(one, key) ==
        Remembered(Admitted(past, key), First(r), key, Admits(Table(past), IpKey(r.ip), IP_LIMIT, WINDOW, r.now))
      && Admitted(two, key) ==
        Remembered(Admitted(one, key), Second(r), key, Admits(Table(one), UserKey(r.name), USER_LIMIT, WINDOW, r.now))
      && Admitted(four, key) == if key == UserKey(r.name) || key == IpKey(r.ip) then [] else Admitted(two, key)
  {
    hide Table, Admits, UpTo, WellLimited, Admitted;
    KeysDiffer(r.ip, r.name);
    var one := past + [First(r)];
    var two := one + [Second(r)];
    var three := two + [Clear(UserKey(r.name), r.now)];
    OneMoreCall(past, First(r), key);
    OneMoreCall(one, Second(r), key);
    OneMoreCall(two, Clear(UserKey(r.name), r.now), key);
    OneMoreCall(three, Clear(IpKey(r.ip), r.now), key);
  }

  lemma Chain(past: seq<RateLimit.Action>, a: RateLimit.Action, b: RateLimit.Action, c: RateLimit.Action,
              d: RateLimit.Action)
    ensures past + [a, b] == past + [a] + [b]
    ensures past + [a, b, c, d] == past + [a] + [b] + [c] + [d]
  {
  }

  /** One request: the full histories of its account and of its address cover its check, and those of
      other accounts and addresses stay as they are. */
  lemma RequestCovered(t: Tables, verify: (string, string) -> bool, past: seq<RateLimit.Action>, r: Request,
                       key: string)
    requires UpTo(past, r.now) && WellLimited(past)
    ensures var o := LoginOutcome(t, Table(past), verify, r);
      var past' := past + o.calls;
      && UpTo(past', r.now) && WellLimited(past')
      && (if key == UserKey(r.name) || key == IpKey(r.ip)
          then Covers(Admitted(past, key), Admitted(past', key), o, r.now)
          else Admitted(past', key) == Admitted(past, key))
  {
    hide Table, Admits, UpTo, WellLimited, Admitted, LoginOutcome;
    KeysDiffer(r.ip, r.name);
    Shapes(t, verify, past, r);
    CallByCall(past, r, key);
    Chain(past, First(r), Second(r), Clear(UserKey(r.name), r.now), Clear(IpKey(r.ip), r.now));
  }

  lemma WithinCovered(c: seq<int>, h: seq<int>, h': seq<int>, o: Outcome, now: int, end: int)
    requires Within(c, end) <= Within(h, end) && Covers(h, h', o, now)
    ensures Within(Counted(c, o, now), end) <= Within(h', end)
  {
    hide Within;
    WithinSnoc(c, now, end);
    WithinSnoc(h, now, end);
    NoneWithin(end);
  }

  lemma NoneWithin(end: int)
    ensures Within([], end) == 0
  {
  }

  lemma InTimeOrderInit(traffic: seq<Traffic>)
    requires InTimeOrder(traffic) && traffic != []
    ensures InTimeOrder(traffic[..|traffic| - 1])
    ensures |traffic| > 1 ==> traffic[..|traffic| - 1][|traffic| - 2].At() <= traffic[|traffic| - 1].At()
  {
  }

  lemma Later(past: seq<RateLimit.Action>, now: int, later: int)
    requires UpTo(past, now) && now <= later
    ensures UpTo(past, later)
  {
  }

  lemma NoCalls(now: int)
    ensures UpTo([], now) && WellLimited([])
  {
  }

  /** The limiter's calls of traffic in time order are chronological and well limited, and its full
      histories cover the checked passwords. */
  lemma {:induction false} TrafficCovered(verify: (string, string) -> bool, traffic: seq<Traffic>, name: string,
                                          ip: string, now: int, end: int)
    requires InTimeOrder(traffic) && (traffic != [] ==> traffic[|traffic| - 1].At() <= now)
    ensures var past := Calls(verify, traffic);
      && UpTo(past, now) && WellLimited(past)
      && Within(CheckedForUser(verify, traffic, name), end) <= Within(Admitted(past, UserKey(name)), end)
      && Within(CheckedFromIp(verify, traffic, ip), end) <= Within(Admitted(past, IpKey(ip)), end)
  {
    if traffic == [] {
      NoCalls(now);
    } else {
      hide UpTo, WellLimited, Admitted, LoginOutcome, Table, Within, Counted, Covers, InTimeOrder;
      var init, last := traffic[..|traffic| - 1], traffic[|traffic| - 1];
      InTimeOrderInit(traffic);
      TrafficCovered(verify, init, name, ip, last.At(), end);
      var past := Calls(verify, init);
      match last {
        case Attempt(t, r) =>
          RequestCovered(t, verify, past, r, UserKey(name));
          RequestCovered(t, verify, past, r, IpKey(ip));
          KeysDiffer(r.ip, name);
          KeysDiffer(ip, r.name);
          KeysInjective(r.name, name);
          KeysInjective(r.ip, ip);
          var o, past' := LoginOutcome(t, Table(past), verify, r), Calls(verify, traffic);
          if r.name == name {
            WithinCovered(CheckedForUser(verify, init, name), Admitted(past, UserKey(name)),
              Admitted(past', UserKey(name)), o, r.now, end);
          }
          if r.ip == ip {
            WithinCovered(CheckedFromIp(verify, init, ip), Admitted(past, IpKey(ip)), Admitted(past', IpKey(ip)), o,
              r.now, end);
          }
        case Tick(at) =>
          OneMoreCall(past, Sweep(at), UserKey(name));
          OneMoreCall(past, Sweep(at), IpKey(ip));
      }
      Later(Calls(verify, traffic), last.At(), now);
    }
  }

  lemma LimitOfUser(past: seq<RateLimit.Action>, name: string)
    requires WellLimited(past)
    ensures forall i :: 0 <= i < |past| && past[i].Try? && past[i].key == UserKey(name) ==>
      past[i].maxAttempts == USER_LIMIT
  {
    KeysDiffer("", name);
  }

  lemma LimitOfIp(past: seq<RateLimit.Action>, ip: string)
    requires WellLimited(past)
    ensures forall i :: 0 <= i < |past| && past[i].Try? && past[i].key == IpKey(ip) ==> past[i].maxAttempts == IP_LIMIT
  {
    KeysDiffer(ip, "");
  }

  /** Over every run of login traffic in time order, whatever the evictor and other handlers do in
      between: in any five minutes at most 20 passwords are checked for an account, and 50 from an
      address, without one being accepted. */
  lemma LoginBound(verify: (string, string) -> bool, traffic: seq<Traffic>, name: string, ip: string, end: int)
    requires InTimeOrder(traffic)
    ensures Within(CheckedForUser(verify, traffic, name), end) <= 20
    ensures Within(CheckedFromIp(verify, traffic, ip), end) <= 50
  {
    hide Within, Admitted, CheckedForUser, CheckedFromIp, Calls, InTimeOrder;
    var now := if traffic == [] then 0 else traffic[|traffic| - 1].At();
    TrafficCovered(verify, traffic, name, ip, now, end);
    var past := Calls(verify, traffic);
    LimitOfUser(past, name);
    LimitOfIp(past, ip);
    WindowBound(past, UserKey(name), USER_LIMIT, end);
    WindowBound(past, IpKey(ip), IP_LIMIT, end);
  }
}
