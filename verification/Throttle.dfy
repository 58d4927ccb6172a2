/** What the login limiter answers, told by its own earlier answers alone: no table, no pruning, no eviction. */
module Throttle {
  import opened RateLimit
  import opened Accounts
  import opened Auth

  /** The attempt with which the history ends was let through. */
  predicate LetThrough(past: seq<RateLimit.Action>)
    requires past != [] && past[|past| - 1].Try?
  {
    var a := past[|past| - 1];
    Admits(Table(past[..|past| - 1]), a.key, a.maxAttempts, WINDOW, a.at)
  }

  /** How many attempts of this key were let through after this time, since the key was last reset. */
  function LetIn(past: seq<RateLimit.Action>, key: string, after: int): nat {
    if past == [] then 0
    else
      var before, a := past[..|past| - 1], past[|past| - 1];
      if a.Clear? && a.key == key then 0
      else LetIn(before, key, after) + (if a.Try? && a.key == key && a.at > after && LetThrough(past) then 1 else 0)
  }

  lemma LetThroughIs(past: seq<RateLimit.Action>)
    requires Chronological(past) && past != [] && past[|past| - 1].Try?
    ensures var a := past[|past| - 1];
      LetThrough(past) <==> |Recent(Admitted(past[..|past| - 1], a.key), a.at - WINDOW)| < a.maxAttempts
  {
    hide Table, Admits, Recent, Admitted;
    var before, a := past[..|past| - 1], past[|past| - 1];
    assert before + [a] == past;
    AnswersAgree(before, a.key, a.maxAttempts, a.at);
  }

  lemma {:induction false} LetInIsAdmitted(past: seq<RateLimit.Action>, key: string, after: int)
    requires Chronological(past)
    ensures LetIn(past, key, after) == |Recent(Admitted(past, key), after)|
  {
    if past != [] {
      hide Chronological, LetThrough, Recent;
      var before, a := past[..|past| - 1], past[|past| - 1];
      ChronologicalInit(past);
      LetInIsAdmitted(before, key, after);
      if a.Try? && a.key == key {
        LetThroughIs(past);
        RecentSnoc(Admitted(before, key), a.at, after);
      }
    }
    NothingRecent(after);
  }

  lemma NothingRecent(after: int)
    ensures Recent([], after) == []
  {
  }

  /** Over every history in time order: an attempt is let through exactly when fewer than the maximum were
      let through in the five minutes before it, since the key was last reset. */
  lemma AnswersOnFacts(past: seq<RateLimit.Action>, key: string, maxAttempts: nat, now: int)
    requires Chronological(past + [Try(key, maxAttempts, now)])
    ensures Admits(Table(past), key, maxAttempts, WINDOW, now)
       <==> LetIn(past, key, now - 300_000_000_000) < maxAttempts
  {
    hide Table, Admits, Recent, Admitted, LetIn;
    var all := past + [Try(key, maxAttempts, now)];
    assert all[..|past|] == past;
    ChronologicalInit(all);
    AnswersAgree(past, key, maxAttempts, now);
    LetInIsAdmitted(past, key, now - 300_000_000_000);
  }

  /** An eviction keeps exactly the keys with an attempt in the last five minutes, untouched. */
  lemma EvictedExactly(m: map<string, seq<int>>, now: int, key: string)
    ensures key in Evicted(m, now) <==>
      key in m && exists i :: 0 <= i < |m[key]| && m[key][i] > now - 300_000_000_000
    ensures key in Evicted(m, now) ==> Evicted(m, now)[key] == m[key]
  {
    if key in m {
      RecentNonEmpty(m[key], now - WINDOW);
    }
  }

  // ----- Logins -----

  lemma OtherKey(past: seq<RateLimit.Action>, a: RateLimit.Action, key: string, after: int)
    requires a.Try? && a.key != key
    ensures LetIn(past + [a], key, after) == LetIn(past, key, after)
  {
    assert (past + [a])[..|past|] == past;
  }

  lemma FirstAndSecond(past: seq<RateLimit.Action>, r: Request)
    requires UpTo(past, r.now)
    ensures Chronological(past + [First(r)]) && Chronological(past + [First(r)] + [Second(r)])
  {
  }

  /** Over every history of the limiter in time order, a login is answered: too many, when 50 attempts from
      the address or 20 on the account were let through in the last five minutes, since the last success
      of either; unauthorized, when the account is missing or the password wrong; and only otherwise
      let in. The password of an existing account is checked exactly when it is not throttled. */
  lemma LoginOnFacts(t: Tables, verify: (string, string) -> bool, past: seq<RateLimit.Action>, r: Request)
    requires UpTo(past, r.now)
    ensures var o := LoginOutcome(t, Table(past), verify, r);
      var throttled := LetIn(past, "ip:" + r.ip, r.now - 300_000_000_000) >= 50
                    || LetIn(past, "user:" + r.name, r.now - 300_000_000_000) >= 20;
      && o.reply == (if throttled then TooMany
                     else if r.name !in t.users || !verify(r.password, t.users[r.name].hash) then Unauthorized
                     else if r.token in t.sessions then SessionError
                     else Granted(t.users[r.name].role))
      && (o.checked <==> !throttled && r.name in t.users)
  {
    hide Table, Admits, Allowed, LetIn, UpTo;
    FirstAndSecond(past, r);
    TableSnoc(past, First(r));
    KeysDiffer(r.ip, r.name);
    AnswersOnFacts(past, IpKey(r.ip), 50, r.now);
    AnswersOnFacts(past + [First(r)], UserKey(r.name), 20, r.now);
    OtherKey(past, First(r), UserKey(r.name), r.now - 300_000_000_000);
  }

  lemma ClearForgets(past: seq<RateLimit.Action>, key: string, at: int, after: int)
    ensures LetIn(past + [Clear(key, at)], key, after) == 0
  {
    assert (past + [Clear(key, at)])[..|past|] == past;
  }

  lemma ClearOther(past: seq<RateLimit.Action>, key: string, other: string, at: int, after: int)
    requires other != key
    ensures LetIn(past + [Clear(other, at)], key, after) == LetIn(past, key, after)
  {
    assert (past + [Clear(other, at)])[..|past|] == past;
  }

  /** A login that is let in starts both counts from nothing. */
  lemma SuccessForgives(t: Tables, verify: (string, string) -> bool, past: seq<RateLimit.Action>, r: Request,
                        after: int)
    requires LoginOutcome(t, Table(past), verify, r).Accepted()
    ensures var past' := past + LoginOutcome(t, Table(past), verify, r).calls;
      LetIn(past', "ip:" + r.ip, after) == 0 && LetIn(past', "user:" + r.name, after) == 0
  {
    hide LoginOutcome, LetIn, Table;
    Shapes(t, verify, past, r);
    Chain(past, First(r), Second(r), Clear(UserKey(r.name), r.now), Clear(IpKey(r.ip), r.now));
    KeysDiffer(r.ip, r.name);
    var three := past + [First(r)] + [Second(r)] + [Clear(UserKey(r.name), r.now)];
    ClearForgets(past + [First(r)] + [Second(r)], UserKey(r.name), r.now, after);
    ClearOther(three, UserKey(r.name), IpKey(r.ip), r.now, after);
    ClearForgets(three, IpKey(r.ip), r.now, after);
  }
}
