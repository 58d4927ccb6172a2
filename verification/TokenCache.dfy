/** The OAuth2 token cache of the notifier (`getToken`): many goroutines share the token, its
    expiry and the single-flight flag; the HTTP exchange runs outside the lock. Times are in
    nanoseconds. */
module TokenCache {
  import opened Text

  const SECOND := 1_000_000_000
  const MARGIN := 60

  /** The fields under `tokenMu`. */
  datatype Cache = Cache(token: string, expires: int, refreshing: bool)

  /** What the first locked section of getToken decides. */
  datatype Decision = Cached(token: string) | Wait | Refresh

  function Decide(c: Cache, now: int): Decision {
    if c.token != "" && now < c.expires then Cached(c.token)
    else if c.refreshing then Wait
    else Refresh
  }

  function Begin(c: Cache, now: int): Cache {
    c.(refreshing := c.refreshing || Decide(c, now) == Refresh)
  }

  function Abandon(c: Cache): Cache {
    c.(refreshing := false)
  }

  function Store(c: Cache, token: string, expiresIn: int, now: int): Cache {
    Cache(token, now + (expiresIn - MARGIN) * SECOND, false)
  }

  /** How an exchange ends: the request can not be built, sent, or its answer read; or there is an
      answer, with its status and, when its body decodes, the token and its life in seconds. */
  datatype Outcome =
    | NotBuilt
    | NotSent
    | NotRead
    | Response(status: int, body: Option<(string, int)>)

  function Granted(o: Outcome): Option<(string, int)> {
    if o.Response? && o.status < 400 then o.body else None
  }

  /** The fields after an exchange. */
  function Finished(c: Cache, o: Outcome, now: int): Cache {
    match Granted(o)
    case Some((token, expiresIn)) => Store(c, token, expiresIn, now)
    case None => Abandon(c)
  }

  class Tokens {
    var token: string
    var expires: int
    var refreshing: bool

    constructor ()
      ensures Fields() == Cache("", 0, false)
    {
      token, expires, refreshing := "", 0, false;
    }

    ghost function Fields(): Cache
      reads this
    {
      Cache(token, expires, refreshing)
    }

    method Acquire(now: int) returns (d: Decision)
      modifies this
      ensures d == Decide(old(Fields()), now) && Fields() == Begin(old(Fields()), now)
    {
      if token != "" && now < expires {
        return Cached(token);
      }
      if refreshing {
        return Wait;
      }
      refreshing := true;
      return Refresh;
    }

    /** The exchange, exit by exit; each exit takes the lock for itself. */
    method Exchange(outcome: Outcome, now: int) returns (tok: Option<string>)
      modifies this
      ensures Fields() == Finished(old(Fields()), outcome, now) && !Fields().refreshing
      ensures tok == match Granted(outcome) case Some((token, _)) => Some(token) case None => None
    {
      if outcome.NotBuilt? {
        refreshing := false;
        return None;
      }
      if outcome.NotSent? {
        refreshing := false;
        return None;
      }
      if outcome.NotRead? {
        refreshing := false;
        return None;
      }
      if outcome.status >= 400 {
        refreshing := false;
        return None;
      }
      if outcome.body.None? {
        refreshing := false;
        return None;
      }
      var (newToken, expiresIn) := outcome.body.value;
      token := newToken;
      expires := now + (expiresIn - MARGIN) * SECOND;
      refreshing := false;
      return Some(token);
    }
  }

  // ----- Any number of goroutines -----

  datatype Local = Outside | Waiting | Exchanging

  /** A token as the server granted it: its value, when it was received and its life in seconds. */
  datatype Grant = Grant(token: string, received: int, expiresIn: int)

  /** A token handed out of the cache, with the grant it came from. */
  datatype Serving = Serving(token: string, at: int, grant: Grant)

  datatype State = State(c: Cache, threads: seq<Local>, clock: int, grant: Grant, served: seq<Serving>)

  /** `dt` is the time passed since the previous step. */
  datatype Action =
    | Call(t: nat, dt: nat)
    | Exchange(t: nat, dt: nat, outcome: Outcome)

  function Start(threads: nat, clock: int): State {
    State(Cache("", 0, false), seq(threads, _ => Outside), clock, Grant("", clock, 0), [])
  }

  function Next(s: State, a: Action): State {
    match a
    case Call(t, dt) =>
      var now := s.clock + dt;
      if t < |s.threads| && !s.threads[t].Exchanging? then
        (match Decide(s.c, now)
         case Cached(tok) => s.(clock := now, threads := s.threads[t := Outside],
                                served := s.served + [Serving(tok, now, s.grant)])
         case Wait => s.(clock := now, threads := s.threads[t := Waiting])
         case Refresh => s.(clock := now, c := Begin(s.c, now), threads := s.threads[t := Exchanging]))
      else s
    case Exchange(t, dt, outcome) =>
      var now := s.clock + dt;
      if t < |s.threads| && s.threads[t].Exchanging? then
        s.(clock := now, c := Finished(s.c, outcome, now), threads := s.threads[t := Outside],
           grant := match Granted(outcome)
             case Some((token, expiresIn)) => Grant(token, now, expiresIn)
             case None => s.grant)
      else s
  }

  function Run(s: State, actions: seq<Action>): State
    decreases |actions|
  {
    if actions == [] then s else Run(Next(s, actions[0]), actions[1..])
  }

  /** `refreshing` is set exactly when a thread is in the exchange, and never two are. */
  ghost predicate SingleFlight(s: State) {
    && (s.c.refreshing <==> exists t :: 0 <= t < |s.threads| && s.threads[t].Exchanging?)
    && (forall t, u :: 0 <= t < |s.threads| && 0 <= u < |s.threads| ==>
          s.threads[t].Exchanging? && s.threads[u].Exchanging? ==> t == u)
  }

  /** Tokens come out of the cache unchanged and with more than a minute of their granted life left. */
  ghost predicate FreshlyServed(s: State) {
    forall i :: 0 <= i < |s.served| ==>
      var v := s.served[i];
      v.token == v.grant.token && v.grant.received + v.grant.expiresIn * 1_000_000_000 - v.at > 60_000_000_000
  }

  ghost predicate CacheIsGrant(s: State) {
    && s.c.token == s.grant.token
    && (s.c.token != "" ==> s.c.expires == s.grant.received + (s.grant.expiresIn - MARGIN) * SECOND)
  }

  ghost predicate Good(s: State) {
    SingleFlight(s) && FreshlyServed(s) && CacheIsGrant(s)
  }

  lemma GoodStep(s: State, a: Action)
    requires Good(s)
    ensures Good(Next(s, a))
  {
    var s' := Next(s, a);
    if s' != s {
      assert forall u :: 0 <= u < |s.threads| && u != a.t ==> s'.threads[u] == s.threads[u];
      if a.Call? && Decide(s.c, s'.clock) == Refresh {
        assert s'.threads[a.t].Exchanging?;
      }
    }
  }

  /** Over every run of any number of goroutines: at most one is in the exchange, the flag says
      so exactly, and no token served from the cache has a minute or less to live. */
  lemma {:induction false} SingleFlightRun(s: State, actions: seq<Action>)
    requires Good(s)
    ensures Good(Run(s, actions))
    decreases |actions|
  {
    if actions != [] {
      GoodStep(s, actions[0]);
      SingleFlightRun(Next(s, actions[0]), actions[1..]);
    }
  }

  lemma StartIsGood(threads: nat, clock: int, actions: seq<Action>)
    ensures Good(Run(Start(threads, clock), actions))
  {
    SingleFlightRun(Start(threads, clock), actions);
  }

  /** No thread is locked out: when nobody is in the exchange, the next caller is served or starts one. */
  lemma NobodyStuck(s: State, t: nat, dt: nat)
    requires Good(s) && t < |s.threads| && forall u :: 0 <= u < |s.threads| ==> !s.threads[u].Exchanging?
    ensures var s' := Next(s, Call(t, dt));
      s'.threads[t].Exchanging? || (|s'.served| == |s.served| + 1 && s'.served[|s.served|].token == s.c.token)
  {
  }

  ghost predicate SomebodyExchanges(s: State) {
    exists u :: 0 <= u < |s.threads| && s.threads[u].Exchanging?
  }

  /** What a call gets in every reachable state: the last granted token, exactly when more than a minute of
      its life is left; otherwise it waits if somebody is in the exchange, and else enters it. */
  lemma CallOnFacts(threads: nat, clock: int, actions: seq<Action>, t: nat, dt: nat)
    requires var s := Run(Start(threads, clock), actions); t < |s.threads| && !s.threads[t].Exchanging?
    ensures var s := Run(Start(threads, clock), actions);
      var s', g, now := Next(s, Call(t, dt)), s.grant, s.clock + dt;
      && s'.grant == g && s'.clock == now
      && (if g.token != "" && g.received + g.expiresIn * 1_000_000_000 - now > 60_000_000_000
          then s'.served == s.served + [Serving(g.token, now, g)] && s'.threads[t] == Outside
          else s'.served == s.served && s'.threads[t] == if SomebodyExchanges(s) then Waiting else Exchanging)
  {
    hide Run, FreshlyServed;
    StartIsGood(threads, clock, actions);
  }

  /** An exchange replaces the grant exactly when the answer has a status below 400 and a body that decodes;
      however it ends, the next call finds nobody in the exchange. */
  lemma ExchangeOnFacts(threads: nat, clock: int, actions: seq<Action>, t: nat, dt: nat, o: Outcome)
    requires var s := Run(Start(threads, clock), actions); t < |s.threads| && s.threads[t].Exchanging?
    ensures var s := Run(Start(threads, clock), actions);
      var s' := Next(s, Exchange(t, dt, o));
      && s'.grant == (if o.Response? && o.status < 400 && o.body.Some?
                      then Grant(o.body.value.0, s.clock + dt, o.body.value.1) else s.grant)
      && !SomebodyExchanges(s') && !s'.c.refreshing && s'.served == s.served
  {
    hide Run, FreshlyServed;
    StartIsGood(threads, clock, actions);
  }
}
