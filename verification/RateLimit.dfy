/** The sliding-window limiter for login attempts. It forgets: every call filters the key's
    timestamps and an evictor deletes stale keys. It is proved to answer like a limiter that
    never forgets anything. Times are in nanoseconds. */
module RateLimit {

  const MINUTE := 60_000_000_000
  const WINDOW := 5 * MINUTE
  const MAX_KEYS := 50000

  /** The timestamps strictly after the cutoff, in order. */
  function Recent(times: seq<int>, cutoff: int): seq<int> {
    if times == [] then []
    else Recent(times[..|times| - 1], cutoff) + (if times[|times| - 1] > cutoff then [times[|times| - 1]] else [])
  }

  function Times(m: map<string, seq<int>>, key: string): seq<int> {
    if key in m then m[key] else []
  }

  function Admits(m: map<string, seq<int>>, key: string, maxAttempts: nat, window: int, now: int): bool {
    |Recent(Times(m, key), now - window)| < maxAttempts
  }

  function Allowed(m: map<string, seq<int>>, key: string, maxAttempts: nat, window: int,
                   now: int): map<string, seq<int>> {
    var recent := Recent(Times(m, key), now - window);
    m[key := if |recent| < maxAttempts then recent + [now] else recent]
  }

  function Evicted(m: map<string, seq<int>>, now: int): map<string, seq<int>> {
    map key | key in m && Recent(m[key], now - WINDOW) != [] :: m[key]
  }

  lemma {:induction false} RecentNonEmpty(times: seq<int>, cutoff: int)
    ensures Recent(times, cutoff) != [] <==> exists i :: 0 <= i < |times| && times[i] > cutoff
  {
    if times != [] {
      RecentNonEmpty(times[..|times| - 1], cutoff);
    }
  }

  class RateLimiter {
    var attempts: map<string, seq<int>>

    constructor ()
      ensures attempts == map[]
    {
      attempts := map[];
    }

    method Allow(key: string, maxAttempts: nat, window: int, now: int) returns (ok: bool)
      modifies this
      ensures ok == old(Admits(attempts, key, maxAttempts, window, now))
      ensures attempts == old(Allowed(attempts, key, maxAttempts, window, now))
    {
      var cutoff := now - window;
      var times := if key in attempts then attempts[key] else [];
      var recent := [];
      for i := 0 to |times|
        invariant recent == Recent(times[..i], cutoff)
      {
        assert times[..i + 1][..i] == times[..i];
        if times[i] > cutoff {
          recent := recent + [times[i]];
        }
      }
      assert times[..|times|] == times;
      attempts := attempts[key := recent];
      if |recent| >= maxAttempts {
        return false;
      }
      if key !in attempts && |attempts| >= MAX_KEYS {
        assert false; // the key was stored just above, so the inline prune never runs
      }
      attempts := attempts[key := attempts[key] + [now]];
      return true;
    }

    method Reset(key: string)
      modifies this
      ensures attempts == old(attempts) - {key}
    {
      attempts := attempts - {key};
    }

    method Evict(now: int)
      modifies this
      ensures attempts == old(Evicted(attempts, now))
    {
      var cutoff := now - WINDOW;
      var keys := attempts.Keys;
      while keys != {}
        invariant keys <= old(attempts).Keys
        invariant forall k :: k in attempts <==>
          k in old(attempts) && (k in keys || Recent(old(attempts)[k], cutoff) != [])
        invariant forall k :: k in attempts ==> attempts[k] == old(attempts)[k]
      {
        var key :| key in keys;
        keys := keys - {key};
        var times := attempts[key];
        var hasRecent := false;
        var i := 0;
        while i < |times| && !hasRecent
          invariant 0 <= i <= |times|
          invariant hasRecent <==> exists j :: 0 <= j < i && times[j] > cutoff
        {
          hasRecent := times[i] > cutoff;
          i := i + 1;
        }
        RecentNonEmpty(times, cutoff);
        if !hasRecent {
          attempts := attempts - {key};
        }
      }
    }
  }

  // ----- The limiter refines one that keeps the full history -----

  datatype Action =
    | Try(key: string, maxAttempts: nat, at: int)
    | Clear(key: string, at: int)
    | Sweep(at: int)

  /** The limiter's table after a history of actions. */
  function Table(past: seq<Action>): map<string, seq<int>> {
    if past == [] then map[] else Effect(Table(past[..|past| - 1]), past[|past| - 1])
  }

  function Effect(m: map<string, seq<int>>, a: Action): map<string, seq<int>> {
    match a
    case Try(key, maxAttempts, at) => Allowed(m, key, maxAttempts, WINDOW, at)
    case Clear(key, _) => m - {key}
    case Sweep(at) => Evicted(m, at)
  }

  /** The full history of one key: every attempt admitted since its last reset. Sweeps and the
      actions of other keys do not occur in this definition. */
  function Admitted(past: seq<Action>, key: string): seq<int> {
    if past == [] then []
    else
      var h, a := Admitted(past[..|past| - 1], key), past[|past| - 1];
      Remembered(h, a, key, a.Try? && |Recent(h, a.at - WINDOW)| < a.maxAttempts)
  }

  function Remembered(h: seq<int>, a: Action, key: string, admitted: bool): seq<int> {
    match a
    case Try(k, _, at) => if k == key && admitted then h + [at] else h
    case Clear(k, _) => if k == key then [] else h
    case Sweep(_) => h
  }

  ghost predicate Chronological(past: seq<Action>) {
    forall i, j :: 0 <= i <= j < |past| ==> past[i].at <= past[j].at
  }

  lemma {:induction false} RecentTwice(times: seq<int>, earlier: int, later: int)
    requires earlier <= later
    ensures Recent(Recent(times, earlier), later) == Recent(times, later)
  {
    if times != [] {
      var init, x := times[..|times| - 1], times[|times| - 1];
      RecentTwice(init, earlier, later);
      if x > earlier {
        assert (Recent(init, earlier) + [x])[..|Recent(init, earlier)|] == Recent(init, earlier);
      } else {
        assert Recent(init, earlier) + [] == Recent(init, earlier);
      }
    }
  }

  lemma RecentSnoc(times: seq<int>, x: int, cutoff: int)
    ensures Recent(times + [x], cutoff) == Recent(times, cutoff) + (if x > cutoff then [x] else [])
  {
    assert (times + [x])[..|times|] == times;
  }

  lemma TryStep(m: map<string, seq<int>>, h: seq<int>, key: string, maxAttempts: nat, at: int, cutoff: int)
    requires at - WINDOW <= cutoff
    requires Recent(Times(m, key), cutoff) == Recent(h, cutoff)
    requires Recent(Times(m, key), at - WINDOW) == Recent(h, at - WINDOW)
    ensures Recent(Times(Allowed(m, key, maxAttempts, WINDOW, at), key), cutoff)
         == Recent(if |Recent(h, at - WINDOW)| < maxAttempts then h + [at] else h, cutoff)
  {
    var recent := Recent(h, at - WINDOW);
    RecentTwice(h, at - WINDOW, cutoff);
    RecentSnoc(recent, at, cutoff);
    RecentSnoc(h, at, cutoff);
  }

  lemma SweepStep(m: map<string, seq<int>>, key: string, at: int, cutoff: int)
    requires at - WINDOW <= cutoff
    ensures Recent(Times(Evicted(m, at), key), cutoff) == Recent(Times(m, key), cutoff)
  {
    RecentTwice(Times(m, key), at - WINDOW, cutoff);
  }

  lemma ChronologicalInit(past: seq<Action>)
    requires Chronological(past) && past != []
    ensures Chronological(past[..|past| - 1])
    ensures |past| > 1 ==> past[..|past| - 1][|past| - 2].at <= past[|past| - 1].at
  {
  }

  /** Up to a cutoff that is at least as late as the last one used, the table and the full
      history of every key hold the same timestamps. */
  lemma {:induction false} SameRecent(past: seq<Action>, key: string, cutoff: int)
    requires Chronological(past)
    requires past != [] ==> past[|past| - 1].at - WINDOW <= cutoff
    ensures Recent(Times(Table(past), key), cutoff) == Recent(Admitted(past, key), cutoff)
  {
    hide Recent, Chronological;
    if past != [] {
      var init, a := past[..|past| - 1], past[|past| - 1];
      ChronologicalInit(past);
      SameRecent(init, key, cutoff);
      SameRecent(init, key, a.at - WINDOW);
      match a {
        case Try(k, maxAttempts, at) =>
          if k == key { TryStep(Table(init), Admitted(init, key), key, maxAttempts, at, cutoff); }
        case Clear(k, _) =>
        case Sweep(at) => SweepStep(Table(init), key, at, cutoff);
      }
    }
  }

  /** Every answer equals the answer of the limiter that never discards history, whatever other
      keys do and however often the evictor runs. */
  lemma AnswersAgree(past: seq<Action>, key: string, maxAttempts: nat, now: int)
    requires Chronological(past + [Try(key, maxAttempts, now)])
    ensures Admits(Table(past), key, maxAttempts, WINDOW, now)
       <==> |Recent(Admitted(past, key), now - WINDOW)| < maxAttempts
  {
    hide Table, Admitted;
    assert (past + [Try(key, maxAttempts, now)])[..|past|] == past;
    ChronologicalInit(past + [Try(key, maxAttempts, now)]);
    SameRecent(past, key, now - WINDOW);
  }

  // ----- How many attempts are admitted in one window -----

  ghost predicate Sorted(h: seq<int>) {
    forall i, j :: 0 <= i <= j < |h| ==> h[i] <= h[j]
  }

  /** `limit` more attempts are at least a window later. */
  ghost predicate Spaced(h: seq<int>, limit: nat) {
    forall i :: 0 <= i && i + limit < |h| ==> h[i + limit] - h[i] >= WINDOW
  }

  lemma {:induction false} RecentTail(h: seq<int>, i: nat, cutoff: int)
    requires Sorted(h) && i < |h| && h[i] > cutoff
    ensures |Recent(h, cutoff)| >= |h| - i
  {
    if i < |h| - 1 {
      RecentTail(h[..|h| - 1], i, cutoff);
    }
  }

  lemma FarEnough(h: seq<int>, at: int, limit: nat)
    requires Sorted(h) && |Recent(h, at - WINDOW)| < limit <= |h|
    ensures h[|h| - limit] <= at - WINDOW
  {
    hide Recent;
    if h[|h| - limit] > at - WINDOW {
      RecentTail(h, |h| - limit, at - WINDOW);
    }
  }

  lemma SpacedAppend(h: seq<int>, at: int, limit: nat)
    requires Sorted(h) && Spaced(h, limit) && |Recent(h, at - WINDOW)| < limit
    requires h != [] ==> h[|h| - 1] <= at
    ensures Sorted(h + [at]) && Spaced(h + [at], limit)
  {
    hide Recent;
    if |h| >= limit {
      FarEnough(h, at, limit);
    }
  }

  lemma {:induction false} AdmittedSpaced(past: seq<Action>, key: string, limit: nat)
    requires Chronological(past)
    requires forall i :: 0 <= i < |past| && past[i].Try? && past[i].key == key ==> past[i].maxAttempts == limit
    ensures Sorted(Admitted(past, key)) && Spaced(Admitted(past, key), limit)
    ensures Admitted(past, key) != [] ==>
      past != [] && Admitted(past, key)[|Admitted(past, key)| - 1] <= past[|past| - 1].at
  {
    hide Recent, Sorted, Spaced, Chronological;
    if past == [] {
      assert Sorted([]) && Spaced([], limit) by { EmptySpaced(limit); }
    } else {
      var init, a := past[..|past| - 1], past[|past| - 1];
      ChronologicalInit(past);
      AdmittedSpaced(init, key, limit);
      EmptySpaced(limit);
      var h := Admitted(init, key);
      if a.Try? && a.key == key && |Recent(h, a.at - WINDOW)| < limit {
        SpacedAppend(h, a.at, limit);
      }
    }
  }

  lemma EmptySpaced(limit: nat)
    ensures Sorted([]) && Spaced([], limit)
  {
  }

  lemma SpacedAt(h: seq<int>, limit: nat, i: nat)
    requires Spaced(h, limit)
    ensures i + limit < |h| ==> h[i + limit] - h[i] >= WINDOW
  {
  }

  /** Between two resets of a key, at most `limit` of its attempts are admitted in any interval
      shorter than or equal to the window, open on one side. */
  lemma AdmissionBound(past: seq<Action>, key: string, limit: nat, end: int, a: nat, b: nat)
    requires Chronological(past)
    requires forall i :: 0 <= i < |past| && past[i].Try? && past[i].key == key ==> past[i].maxAttempts == limit
    requires a <= b <= |Admitted(past, key)|
    requires forall i :: a <= i < b ==> end - WINDOW < Admitted(past, key)[i] <= end
    ensures b - a <= limit
  {
    AdmittedSpaced(past, key, limit);
    SpacedAt(Admitted(past, key), limit, a);
  }

  /** The number of timestamps in the window that ends at `end`. */
  function Within(h: seq<int>, end: int): nat {
    if h == [] then 0
    else Within(h[..|h| - 1], end) + (if end - WINDOW < h[|h| - 1] <= end then 1 else 0)
  }

  lemma WithinSnoc(h: seq<int>, x: int, end: int)
    ensures Within(h + [x], end) == Within(h, end) + (if end - WINDOW < x <= end then 1 else 0)
  {
    assert (h + [x])[..|h|] == h;
  }

  lemma {:induction false} WithinAfter(h: seq<int>, k: nat, end: int)
    requires Sorted(h) && k < |h| && h[k] <= end - WINDOW
    ensures Within(h, end) <= |h| - 1 - k
  {
    if k < |h| - 1 {
      WithinAfter(h[..|h| - 1], k, end);
    } else if k > 0 {
      WithinAfter(h[..|h| - 1], k - 1, end);
    }
  }

  lemma {:induction false} WithinLength(h: seq<int>, end: int)
    ensures Within(h, end) <= |h|
  {
    if h != [] {
      WithinLength(h[..|h| - 1], end);
    }
  }

  lemma {:induction false} WithinSpaced(h: seq<int>, limit: nat, end: int)
    requires Sorted(h) && Spaced(h, limit)
    ensures Within(h, end) <= limit
  {
    WithinLength(h, end);
    if |h| > limit {
      if end - WINDOW < h[|h| - 1] <= end {
        SpacedAt(h, limit, |h| - 1 - limit);
        WithinAfter(h, |h| - 1 - limit, end);
      } else {
        WithinSpaced(h[..|h| - 1], limit, end);
      }
    }
  }

  /** Between two resets of a key, at most `limit` of its attempts are admitted in any window. */
  lemma WindowBound(past: seq<Action>, key: string, limit: nat, end: int)
    requires Chronological(past)
    requires forall i :: 0 <= i < |past| && past[i].Try? && past[i].key == key ==> past[i].maxAttempts == limit
    ensures Within(Admitted(past, key), end) <= limit
  {
    AdmittedSpaced(past, key, limit);
    WithinSpaced(Admitted(past, key), limit, end);
  }
}
