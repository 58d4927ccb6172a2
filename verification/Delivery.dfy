/** The CrowdStrike delivery engine as a transition system.

    `Notify`, `flush`, `Close` and `pruneSent` run on different goroutines and share three
    fields under one mutex. Every step below is one locked section of that code (or the
    moment the remote API confirms a batch), and a thread's local variable between two
    locked sections is its `Local` value. The send outcome is chosen by the environment,
    and any number of threads may be flushing at once: `Close` starts a flush while the
    flusher goroutine may still be in the middle of its own. */
module Delivery {

  const MAX_PENDING := 1000
  const PRUNE_ABOVE := 10000

  datatype Indicator = Indicator(
    source: string, action: string, expiration: string, typ: string, value: string,
    description: string, severity: string, platforms: seq<string>, tags: seq<string>)

  /** The deduplication key, "type:value". */
  function Key(ind: Indicator): string {
    ind.typ + ":" + ind.value
  }

  // ----- The fields under the mutex, and what each locked section does to them -----

  datatype Shared = Shared(sent: set<string>, pendingKeys: set<string>, pending: seq<Indicator>)

  function KeySet(xs: seq<Indicator>): set<string> {
    set x | x in xs :: Key(x)
  }

  predicate Known(c: Shared, key: string) {
    key in c.sent || key in c.pendingKeys
  }

  function Reserve(c: Shared, key: string): Shared {
    c.(pendingKeys := c.pendingKeys + {key})
  }

  function Enqueue(c: Shared, ind: Indicator): Shared {
    c.(pending := c.pending + [ind])
  }

  function TakeBatch(c: Shared): Shared {
    c.(pending := [])
  }

  /** The oldest entries of batch ++ pending that do not fit into the bounded queue. */
  function Overflow(c: Shared, batch: seq<Indicator>): (lost: seq<Indicator>)
    ensures lost + Requeue(c, batch).pending == batch + c.pending
    ensures lost != [] ==> |Requeue(c, batch).pending| == 1000
    ensures |Requeue(c, batch).pending| <= 1000
  {
    var queue := batch + c.pending;
    if |queue| > MAX_PENDING then queue[..|queue| - MAX_PENDING] else []
  }

  function Requeue(c: Shared, batch: seq<Indicator>): Shared {
    var queue := batch + c.pending;
    c.(pending := if |queue| > MAX_PENDING then queue[|queue| - MAX_PENDING..] else queue)
  }

  function Commit(c: Shared, batch: seq<Indicator>): Shared {
    c.(sent := c.sent + KeySet(batch), pendingKeys := c.pendingKeys - KeySet(batch))
  }

  function Prune(c: Shared): Shared {
    if |c.sent| > PRUNE_ABOVE then c.(sent := {}) else c
  }

  // ----- Threads, histories and steps -----

  /** What a thread holds between two of its locked sections. `Acked` is a flush whose batch
      the API has confirmed but which has not yet taken the lock to record that. */
  datatype Local = Idle | Reserving(ind: Indicator) | Sending(batch: seq<Indicator>) | Acked(batch: seq<Indicator>)

  /** How an indicator left the queue. */
  datatype Fate = Fate(ind: Indicator, delivered: bool)

  /** The observable order of confirmed deliveries and of resets of the sent set. */
  datatype Entry = Ack(key: string) | Reset

  datatype State = State(
    c: Shared,
    threads: seq<Local>,
    accepted: seq<Indicator>,  // history: every indicator whose key was reserved
    queued: seq<Indicator>,    // history: every indicator appended to pending, in order
    settled: seq<Fate>,        // history: every indicator delivered or dropped, in order
    log: seq<Entry>)           // history: confirmations and resets, in order

  datatype Action =
    | Offer(t: nat, ind: Indicator)
    | Append(t: nat)
    | Take(t: nat)
    | Fail(t: nat)
    | Confirm(t: nat)
    | Record(t: nat)
    | PruneSent

  function Start(threads: nat): State {
    State(Shared({}, {}, []), seq(threads, _ => Idle), [], [], [], [])
  }

  function Settle(xs: seq<Indicator>, delivered: bool): (fates: seq<Fate>)
    ensures |fates| == |xs|
    ensures forall i :: 0 <= i < |xs| ==> fates[i] == Fate(xs[i], delivered)
  {
    seq(|xs|, i requires 0 <= i < |xs| => Fate(xs[i], delivered))
  }

  function Acks(xs: seq<Indicator>): seq<Entry> {
    if xs == [] then [] else [Ack(Key(xs[0]))] + Acks(xs[1..])
  }

  /** One atomic step; an action whose thread is not at the matching point does nothing. */
  function Next(s: State, a: Action): State {
    match a
    case Offer(t, ind) =>
      if t < |s.threads| && s.threads[t].Idle? && !Known(s.c, Key(ind)) then
        s.(c := Reserve(s.c, Key(ind)), threads := s.threads[t := Reserving(ind)], accepted := s.accepted + [ind])
      else s
    case Append(t) =>
      if t < |s.threads| && s.threads[t].Reserving? then
        var ind := s.threads[t].ind;
        s.(c := Enqueue(s.c, ind), threads := s.threads[t := Idle], queued := s.queued + [ind])
      else s
    case Take(t) =>
      if t < |s.threads| && s.threads[t].Idle? && s.c.pending != [] then
        s.(c := TakeBatch(s.c), threads := s.threads[t := Sending(s.c.pending)])
      else s
    case Fail(t) =>
      if t < |s.threads| && s.threads[t].Sending? then
        var batch := s.threads[t].batch;
        s.(c := Requeue(s.c, batch), threads := s.threads[t := Idle],
           settled := s.settled + Settle(Overflow(s.c, batch), false))
      else s
    case Confirm(t) =>
      if t < |s.threads| && s.threads[t].Sending? then
        var batch := s.threads[t].batch;
        s.(threads := s.threads[t := Acked(batch)], log := s.log + Acks(batch))
      else s
    case Record(t) =>
      if t < |s.threads| && s.threads[t].Acked? then
        var batch := s.threads[t].batch;
        s.(c := Commit(s.c, batch), threads := s.threads[t := Idle], settled := s.settled + Settle(batch, true))
      else s
    case PruneSent =>
      if |s.c.sent| > PRUNE_ABOVE then s.(c := Prune(s.c), log := s.log + [Reset]) else s
  }

  function Run(s: State, actions: seq<Action>): State
    decreases |actions|
  {
    if actions == [] then s else Run(Next(s, actions[0]), actions[1..])
  }

  // ----- Who owns what -----

  datatype Stage = Reserve_ | Send_ | Ack_

  function Part(l: Local, g: Stage): seq<Indicator> {
    match (l, g)
    case (Reserving(ind), Reserve_) => [ind]
    case (Sending(batch), Send_) => batch
    case (Acked(batch), Ack_) => batch
    case _ => []
  }

  /** Everything the threads hold at stage g, thread by thread. */
  function Held(ts: seq<Local>, g: Stage): seq<Indicator> {
    if ts == [] then [] else Part(ts[0], g) + Held(ts[1..], g)
  }

  lemma {:induction false} HeldSplit(ts: seq<Local>, t: nat, g: Stage)
    requires t < |ts|
    ensures Held(ts, g) == Held(ts[..t], g) + Part(ts[t], g) + Held(ts[t + 1..], g)
  {
    if t > 0 {
      HeldSplit(ts[1..], t - 1, g);
      assert ts[..t][1..] == ts[1..][..t - 1];
      assert ts[1..][t..] == ts[t + 1..];
    }
  }

  lemma HeldUpdate(ts: seq<Local>, t: nat, l: Local, g: Stage)
    requires t < |ts|
    ensures Held(ts, g) == Held(ts[..t], g) + Part(ts[t], g) + Held(ts[t + 1..], g)
    ensures Held(ts[t := l], g) == Held(ts[..t], g) + Part(l, g) + Held(ts[t + 1..], g)
  {
    HeldSplit(ts, t, g);
    HeldSplit(ts[t := l], t, g);
    assert ts[t := l][..t] == ts[..t] && ts[t := l][t + 1..] == ts[t + 1..];
  }

  function HeldBag(ts: seq<Local>, g: Stage): multiset<Indicator> {
    multiset(Held(ts, g))
  }

  lemma BagSame(ts: seq<Local>, t: nat, l: Local, g: Stage)
    requires t < |ts| && Part(ts[t], g) == Part(l, g)
    ensures HeldBag(ts[t := l], g) == HeldBag(ts, g)
  {
    HeldUpdate(ts, t, l, g);
  }

  lemma BagIn(ts: seq<Local>, t: nat, l: Local, g: Stage)
    requires t < |ts| && Part(ts[t], g) == []
    ensures HeldBag(ts[t := l], g) == HeldBag(ts, g) + multiset(Part(l, g))
  {
    hide Held, Part;
    HeldUpdate(ts, t, l, g);
    BagInsert(Held(ts[..t], g), Part(l, g), Held(ts[t + 1..], g));
    assert Held(ts, g) == Held(ts[..t], g) + Held(ts[t + 1..], g);
  }

  lemma BagInsert(a: seq<Indicator>, b: seq<Indicator>, c: seq<Indicator>)
    ensures multiset(a + b + c) == multiset(a + c) + multiset(b)
  {
  }

  lemma BagOut(ts: seq<Local>, t: nat, l: Local, g: Stage)
    requires t < |ts| && Part(l, g) == []
    ensures HeldBag(ts[t := l], g) + multiset(Part(ts[t], g)) == HeldBag(ts, g)
  {
    BagIn(ts[t := l], t, ts[t], g);
    assert ts[t := l][t := ts[t]] == ts;
  }

  function Delivered(fates: seq<Fate>): seq<Indicator> {
    if fates == [] then []
    else (if fates[0].delivered then [fates[0].ind] else []) + Delivered(fates[1..])
  }

  function Dropped(fates: seq<Fate>): seq<Indicator> {
    if fates == [] then []
    else (if fates[0].delivered then [] else [fates[0].ind]) + Dropped(fates[1..])
  }

  function One(ind: Indicator, present: bool): seq<Indicator> {
    if present then [ind] else []
  }

  lemma FatesCons(f: Fate, rest: seq<Fate>)
    ensures Delivered([f] + rest) == One(f.ind, f.delivered) + Delivered(rest)
    ensures Dropped([f] + rest) == One(f.ind, !f.delivered) + Dropped(rest)
  {
    assert ([f] + rest)[1..] == rest;
  }

  lemma {:induction false} FatesAppend(a: seq<Fate>, b: seq<Fate>)
    ensures Delivered(a + b) == Delivered(a) + Delivered(b)
    ensures Dropped(a + b) == Dropped(a) + Dropped(b)
  {
    if a == [] {
      assert a + b == b;
    } else {
      hide Delivered, Dropped, One;
      var f, rest := a[0], a[1..];
      assert a == [f] + rest && a + b == [f] + (rest + b);
      FatesAppend(rest, b);
      FatesCons(f, rest);
      FatesCons(f, rest + b);
      Regroup3(One(f.ind, f.delivered), Delivered(rest), Delivered(b));
      Regroup3(One(f.ind, !f.delivered), Dropped(rest), Dropped(b));
    }
  }

  lemma Regroup3(a: seq<Indicator>, b: seq<Indicator>, c: seq<Indicator>)
    ensures a + (b + c) == a + b + c
  {
  }

  lemma {:induction false} FatesSettle(xs: seq<Indicator>, delivered: bool)
    ensures Delivered(Settle(xs, delivered)) == if delivered then xs else []
    ensures Dropped(Settle(xs, delivered)) == if delivered then [] else xs
  {
    if xs != [] {
      assert Settle(xs, delivered)[1..] == Settle(xs[1..], delivered);
      FatesSettle(xs[1..], delivered);
    }
  }

  lemma SettledBy(s: State, xs: seq<Indicator>, delivered: bool)
    ensures Delivered(s.settled + Settle(xs, delivered)) ==
      if delivered then Delivered(s.settled) + xs else Delivered(s.settled)
    ensures Dropped(s.settled + Settle(xs, delivered)) ==
      if delivered then Dropped(s.settled) else Dropped(s.settled) + xs
  {
    FatesAppend(s.settled, Settle(xs, delivered));
    FatesSettle(xs, delivered);
  }

  // ----- Conservation and unique ownership, over every interleaving -----

  /** The bags a live indicator can be in: reserved, being sent, confirmed but not recorded,
      waiting, dropped. */
  function Total(reserved: multiset<Indicator>, sending: multiset<Indicator>, confirmed: multiset<Indicator>,
                 waiting: multiset<Indicator>, dropped: multiset<Indicator>): multiset<Indicator> {
    reserved + sending + confirmed + waiting + dropped
  }

  function Live(s: State): multiset<Indicator> {
    Total(HeldBag(s.threads, Reserve_), HeldBag(s.threads, Send_), HeldBag(s.threads, Ack_),
          multiset(s.c.pending), multiset(Dropped(s.settled)))
  }

  lemma TotalMoves(r: multiset<Indicator>, s: multiset<Indicator>, c: multiset<Indicator>,
                   w: multiset<Indicator>, d: multiset<Indicator>, x: multiset<Indicator>)
    ensures Total(r + x, s, c, w, d) == Total(r, s, c, w, d) + x
    ensures Total(r, s, c + x, w, d) == Total(r, s, c, w, d) + x
    ensures Total(r, s, c, w + x, d) == Total(r, s, c, w, d) + x
    ensures Total(r, s + x, c, w, d) == Total(r, s, c, w, d) + x
  {
  }

  lemma TotalFail(r: multiset<Indicator>, s: multiset<Indicator>, c: multiset<Indicator>, w: multiset<Indicator>,
                  d: multiset<Indicator>, x: multiset<Indicator>, w': multiset<Indicator>, lost: multiset<Indicator>)
    requires lost + w' == x + w
    ensures Total(r, s, c, w', d + lost) == Total(r, s + x, c, w, d)
  {
    assert Total(r, s, c, w', d + lost) == (r + s + c + d) + (lost + w');
    assert Total(r, s + x, c, w, d) == (r + s + c + d) + (x + w);
  }

  lemma LiveOffer(s: State, t: nat, ind: Indicator)
    requires t < |s.threads| && s.threads[t].Idle? && !Known(s.c, Key(ind))
    ensures Live(Next(s, Offer(t, ind))) == Live(s) + multiset{ind}
  {
    var l := Reserving(ind);
    BagIn(s.threads, t, l, Reserve_);
    BagSame(s.threads, t, l, Send_);
    BagSame(s.threads, t, l, Ack_);
    TotalMoves(HeldBag(s.threads, Reserve_), HeldBag(s.threads, Send_), HeldBag(s.threads, Ack_),
               multiset(s.c.pending), multiset(Dropped(s.settled)), multiset{ind});
  }

  lemma LiveAppend(s: State, t: nat)
    requires t < |s.threads| && s.threads[t].Reserving?
    ensures Live(Next(s, Append(t))) == Live(s)
  {
    hide Total, Held, HeldBag, Dropped, Delivered;
    var ind := s.threads[t].ind;
    BagOut(s.threads, t, Idle, Reserve_);
    BagSame(s.threads, t, Idle, Send_);
    BagSame(s.threads, t, Idle, Ack_);
    TotalMoves(HeldBag(s.threads[t := Idle], Reserve_), HeldBag(s.threads, Send_), HeldBag(s.threads, Ack_),
               multiset(s.c.pending), multiset(Dropped(s.settled)), multiset{ind});
    assert multiset(s.c.pending + [ind]) == multiset(s.c.pending) + multiset{ind};
  }

  lemma LiveTake(s: State, t: nat)
    requires t < |s.threads| && s.threads[t].Idle? && s.c.pending != []
    ensures Live(Next(s, Take(t))) == Live(s)
  {
    hide Total, Held, HeldBag, Dropped, Delivered;
    var l := Sending(s.c.pending);
    BagSame(s.threads, t, l, Reserve_);
    BagIn(s.threads, t, l, Send_);
    BagSame(s.threads, t, l, Ack_);
    var batch := multiset(s.c.pending);
    TotalMoves(HeldBag(s.threads, Reserve_), HeldBag(s.threads, Send_), HeldBag(s.threads, Ack_),
               multiset{}, multiset(Dropped(s.settled)), batch);
    assert multiset{} + batch == batch;
    assert multiset(TakeBatch(s.c).pending) == multiset{};
  }

  lemma LiveConfirm(s: State, t: nat)
    requires t < |s.threads| && s.threads[t].Sending?
    ensures Live(Next(s, Confirm(t))) == Live(s)
  {
    hide Total, Held, HeldBag, Dropped, Delivered;
    var batch := s.threads[t].batch;
    BagSame(s.threads, t, Acked(batch), Reserve_);
    BagOut(s.threads, t, Acked(batch), Send_);
    BagIn(s.threads, t, Acked(batch), Ack_);
    TotalMoves(HeldBag(s.threads, Reserve_), HeldBag(s.threads[t := Acked(batch)], Send_), HeldBag(s.threads, Ack_),
               multiset(s.c.pending), multiset(Dropped(s.settled)), multiset(batch));
  }

  lemma LiveFail(s: State, t: nat)
    requires t < |s.threads| && s.threads[t].Sending?
    ensures Live(Next(s, Fail(t))) == Live(s)
  {
    hide Total, Held, HeldBag, Dropped, Delivered;
    var batch := s.threads[t].batch;
    var lost, kept := Overflow(s.c, batch), Requeue(s.c, batch).pending;
    BagSame(s.threads, t, Idle, Reserve_);
    BagOut(s.threads, t, Idle, Send_);
    BagSame(s.threads, t, Idle, Ack_);
    SettledBy(s, lost, false);
    assert multiset(lost + kept) == multiset(batch + s.c.pending);
    TotalFail(HeldBag(s.threads, Reserve_), HeldBag(s.threads[t := Idle], Send_), HeldBag(s.threads, Ack_),
              multiset(s.c.pending), multiset(Dropped(s.settled)), multiset(batch), multiset(kept), multiset(lost));
  }

  lemma LiveRecord(s: State, t: nat)
    requires t < |s.threads| && s.threads[t].Acked?
    ensures Live(Next(s, Record(t))) + multiset(s.threads[t].batch) == Live(s)
  {
    hide Total, Held, HeldBag, Dropped, Delivered;
    var batch := s.threads[t].batch;
    BagSame(s.threads, t, Idle, Reserve_);
    BagSame(s.threads, t, Idle, Send_);
    BagOut(s.threads, t, Idle, Ack_);
    SettledBy(s, batch, true);
    TotalMoves(HeldBag(s.threads, Reserve_), HeldBag(s.threads, Send_), HeldBag(s.threads[t := Idle], Ack_),
               multiset(s.c.pending), multiset(Dropped(s.settled)), multiset(batch));
  }

  function KeysOf(m: multiset<Indicator>): set<string> {
    set x | x in m :: Key(x)
  }

  /** No two of these indicators share a deduplication key. */
  ghost predicate DistinctKeys(m: multiset<Indicator>) {
    && (forall x :: m[x] <= 1)
    && (forall x, y :: x in m && y in m && Key(x) == Key(y) ==> x == y)
  }

  lemma KeysJoin(m: multiset<Indicator>, ind: Indicator)
    ensures KeysOf(m + multiset{ind}) == KeysOf(m) + {Key(ind)}
  {
    hide Key;
    forall k | k in KeysOf(m) + {Key(ind)} ensures k in KeysOf(m + multiset{ind}) {
      var x :| (x in m || x == ind) && Key(x) == k;
      assert x in m + multiset{ind};
    }
  }

  lemma KeyWithin(m: multiset<Indicator>, x: Indicator)
    ensures x in m ==> Key(x) in KeysOf(m)
  {
  }

  lemma DistinctJoin(m: multiset<Indicator>, ind: Indicator)
    requires DistinctKeys(m) && Key(ind) !in KeysOf(m)
    ensures DistinctKeys(m + multiset{ind})
    ensures KeysOf(m + multiset{ind}) == KeysOf(m) + {Key(ind)}
  {
    hide Key, KeysOf;
    KeysJoin(m, ind);
    forall x ensures x in m ==> Key(x) in KeysOf(m) {
      KeyWithin(m, x);
    }
  }

  lemma DistinctLeave(m: multiset<Indicator>, batch: seq<Indicator>)
    requires DistinctKeys(m + multiset(batch))
    ensures DistinctKeys(m)
    ensures KeysOf(m) == KeysOf(m + multiset(batch)) - KeySet(batch)
  {
    var all := m + multiset(batch);
    assert forall x :: m[x] <= all[x];
    forall x, y | x in m && y in batch ensures x in all && Key(x) != Key(y) {
      assert y in multiset(batch);
      assert all[y] == m[y] + multiset(batch)[y];
    }
    forall k | k in KeysOf(all) && k !in KeySet(batch) ensures k in KeysOf(m) {
      var x :| x in all && Key(x) == k;
      assert x in batch ==> k in KeySet(batch);
      assert x in m;
    }
  }

  ghost predicate Ownership(s: State) {
    && multiset(s.accepted) == Live(s) + multiset(Delivered(s.settled))
    && DistinctKeys(Live(s))
    && s.c.pendingKeys == KeysOf(Live(s))
    && s.c.sent !! s.c.pendingKeys
  }

  lemma OwnershipOffer(s: State, t: nat, ind: Indicator)
    requires Ownership(s)
    requires t < |s.threads| && s.threads[t].Idle? && !Known(s.c, Key(ind))
    ensures Ownership(Next(s, Offer(t, ind)))
  {
    hide Total, Held, HeldBag, Dropped, Delivered, DistinctKeys, KeysOf;
    LiveOffer(s, t, ind);
    DistinctJoin(Live(s), ind);
    assert multiset(s.accepted + [ind]) == multiset(s.accepted) + multiset{ind};
  }

  lemma BagOfSum(a: seq<Indicator>, b: seq<Indicator>)
    ensures multiset(a + b) == multiset(a) + multiset(b)
  {
  }

  lemma KeysWithin(batch: seq<Indicator>, m: multiset<Indicator>)
    requires multiset(batch) <= m
    ensures KeySet(batch) <= KeysOf(m)
  {
    forall x | x in batch ensures Key(x) in KeysOf(m) {
      assert x in multiset(batch);
      assert x in m;
    }
  }

  lemma OwnershipRecord(s: State, t: nat)
    requires Ownership(s)
    ensures Ownership(Next(s, Record(t)))
  {
    hide Live, Total, Held, HeldBag, Dropped, Delivered, Settle, DistinctKeys, KeysOf, KeySet;
    if t < |s.threads| && s.threads[t].Acked? {
      var batch := s.threads[t].batch;
      LiveRecord(s, t);
      DistinctLeave(Live(Next(s, Record(t))), batch);
      SettledBy(s, batch, true);
      BagOfSum(Delivered(s.settled), batch);
      KeysWithin(batch, Live(s));
    }
  }

  lemma OwnershipStep(s: State, a: Action)
    requires Ownership(s)
    ensures Ownership(Next(s, a))
  {
    hide Total, Held, HeldBag, Dropped, Delivered, DistinctKeys, KeysOf;
    if Next(s, a) != s {
      match a {
        case Offer(t, ind) => OwnershipOffer(s, t, ind);
        case Append(t) => LiveAppend(s, t);
        case Take(t) => LiveTake(s, t);
        case Fail(t) =>
          LiveFail(s, t);
          SettledBy(s, Overflow(s.c, s.threads[t].batch), false);
        case Confirm(t) => LiveConfirm(s, t);
        case Record(t) => OwnershipRecord(s, t);
        case PruneSent =>
      }
    }
  }

  /** In every reachable state of every interleaving, the accepted indicators are exactly the
      disjoint union of reserved, being sent, confirmed, waiting, dropped and delivered ones;
      the keys of all but the delivered are pairwise distinct, are exactly `pendingKeys`, and
      none of them is in `sent`. */
  lemma {:induction false} OwnershipRun(s: State, actions: seq<Action>)
    requires Ownership(s)
    ensures Ownership(Run(s, actions))
    decreases |actions|
  {
    if actions != [] {
      OwnershipStep(s, actions[0]);
      OwnershipRun(Next(s, actions[0]), actions[1..]);
    }
  }

  /** Nothing is owned at the start, so every run keeps the invariant. */
  lemma {:induction false} Conservation(threads: nat, actions: seq<Action>)
    ensures Ownership(Run(Start(threads), actions))
  {
    AllIdle(threads, Reserve_);
    AllIdle(threads, Send_);
    AllIdle(threads, Ack_);
    OwnershipRun(Start(threads), actions);
  }

  lemma DroppedStep(s: State, a: Action, x: Indicator)
    requires x in Dropped(s.settled)
    ensures x in Dropped(Next(s, a).settled)
  {
    hide Dropped, Delivered, Overflow, Requeue, Settle;
    if a.Fail? && a.t < |s.threads| && s.threads[a.t].Sending? {
      SettledBy(s, Overflow(s.c, s.threads[a.t].batch), false);
    } else if a.Record? && a.t < |s.threads| && s.threads[a.t].Acked? {
      SettledBy(s, s.threads[a.t].batch, true);
    }
  }

  lemma DroppedIsKnown(s: State, x: Indicator)
    requires Ownership(s) && x in Dropped(s.settled)
    ensures Known(s.c, Key(x))
  {
    hide Dropped, Held, DistinctKeys;
    assert x in multiset(Dropped(s.settled));
    assert x in Live(s);
    assert Key(x) in KeysOf(Live(s));
  }

  lemma {:induction false} DroppedRun(s: State, actions: seq<Action>, x: Indicator)
    requires x in Dropped(s.settled)
    ensures x in Dropped(Run(s, actions).settled)
    decreases |actions|
  {
    if actions != [] {
      DroppedStep(s, actions[0], x);
      DroppedRun(Next(s, actions[0]), actions[1..], x);
    }
  }

  /** What an overflow drops is lost for good: however the run goes on, no indicator with its key
      is ever accepted again, because the key stays in pendingKeys. */
  lemma DroppedNeverReturns(threads: nat, before: seq<Action>, after: seq<Action>, x: Indicator, t: nat, ind: Indicator)
    requires x in Dropped(Run(Start(threads), before).settled) && Key(ind) == Key(x)
    ensures var s := Run(Run(Start(threads), before), after); Next(s, Offer(t, ind)) == s
  {
    hide Ownership;
    Conservation(threads, before);
    var s := Run(Start(threads), before);
    OwnershipRun(s, after);
    DroppedRun(s, after, x);
    DroppedIsKnown(Run(s, after), x);
  }

  lemma {:induction false} AllIdle(threads: nat, g: Stage)
    ensures Held(Start(threads).threads, g) == []
  {
    if threads > 0 {
      assert Start(threads).threads[1..] == Start(threads - 1).threads;
      AllIdle(threads - 1, g);
    }
  }

  // ----- At-most-once confirmed delivery -----

  /** The keys confirmed since the last reset of the sent set. */
  function Since(log: seq<Entry>): set<string> {
    if log == [] then {}
    else match log[|log| - 1]
      case Reset => {}
      case Ack(k) => Since(log[..|log| - 1]) + {k}
  }

  /** Two confirmations of one key have a reset between them. */
  ghost predicate AtMostOnce(log: seq<Entry>) {
    forall i, j :: 0 <= i < j < |log| && log[i].Ack? && log[i] == log[j] ==> exists r :: i < r < j && log[r].Reset?
  }

  lemma {:induction false} SinceCovers(log: seq<Entry>, i: nat)
    requires i < |log| && log[i].Ack?
    requires forall r :: i < r < |log| ==> !log[r].Reset?
    ensures log[i].key in Since(log)
  {
    var init := log[..|log| - 1];
    if i < |log| - 1 {
      assert init[i] == log[i];
      SinceCovers(init, i);
    }
  }

  lemma OnceAck(log: seq<Entry>, k: string)
    requires AtMostOnce(log) && k !in Since(log)
    ensures AtMostOnce(log + [Ack(k)])
    ensures Since(log + [Ack(k)]) == Since(log) + {k}
  {
    var log' := log + [Ack(k)];
    assert log'[..|log|] == log;
    forall i | 0 <= i < |log| && log[i] == Ack(k) ensures exists r :: i < r < |log| && log'[r].Reset? {
      if forall r :: i < r < |log| ==> !log[r].Reset? { SinceCovers(log, i); }
      var r :| i < r < |log| && log[r].Reset?;
      assert log'[r].Reset?;
    }
    forall i, j | 0 <= i < j < |log| && log'[i].Ack? && log'[i] == log'[j]
      ensures exists r :: i < r < j && log'[r].Reset?
    {
      assert log[i] == log[j];
      var r :| i < r < j && log[r].Reset?;
      assert log'[r].Reset?;
    }
  }

  ghost predicate NoRepeats(batch: seq<Indicator>) {
    forall i, j :: 0 <= i < j < |batch| ==> Key(batch[i]) != Key(batch[j])
  }

  ghost predicate NotSince(log: seq<Entry>, batch: seq<Indicator>) {
    forall i :: 0 <= i < |batch| ==> Key(batch[i]) !in Since(log)
  }

  lemma OnceFirst(log: seq<Entry>, batch: seq<Indicator>)
    requires AtMostOnce(log) && NotSince(log, batch) && NoRepeats(batch) && batch != []
    ensures AtMostOnce(log + [Ack(Key(batch[0]))])
    ensures Since(log + [Ack(Key(batch[0]))]) == Since(log) + {Key(batch[0])}
    ensures NotSince(log + [Ack(Key(batch[0]))], batch[1..]) && NoRepeats(batch[1..])
  {
    OnceAck(log, Key(batch[0]));
  }

  lemma {:induction false} OnceAcks(log: seq<Entry>, batch: seq<Indicator>)
    requires AtMostOnce(log) && NotSince(log, batch) && NoRepeats(batch)
    ensures AtMostOnce(log + Acks(batch))
    ensures Since(log + Acks(batch)) == Since(log) + KeySet(batch)
    decreases |batch|
  {
    if batch == [] {
      assert log + Acks(batch) == log;
    } else {
      hide AtMostOnce, Since, KeySet, NotSince, NoRepeats, Acks;
      OnceFirst(log, batch);
      AcksCons(log, batch);
      OnceAcks(log + [Ack(Key(batch[0]))], batch[1..]);
      KeySetCons(batch);
    }
  }

  lemma AcksCons(log: seq<Entry>, batch: seq<Indicator>)
    requires batch != []
    ensures log + Acks(batch) == log + [Ack(Key(batch[0]))] + Acks(batch[1..])
  {
  }

  lemma KeySetCons(batch: seq<Indicator>)
    requires batch != []
    ensures KeySet(batch) == {Key(batch[0])} + KeySet(batch[1..])
  {
    assert batch == [batch[0]] + batch[1..];
  }

  ghost predicate Confirmed(s: State) {
    && AtMostOnce(s.log)
    && Since(s.log) <= s.c.sent + KeysOf(HeldBag(s.threads, Ack_))
  }

  lemma TotalContains(r: multiset<Indicator>, s: multiset<Indicator>, c: multiset<Indicator>,
                      w: multiset<Indicator>, d: multiset<Indicator>, x: Indicator)
    ensures Total(r, s, c, w, d)[x] >= s[x] + c[x]
  {
  }

  lemma DistinctInBatch(m: multiset<Indicator>, batch: seq<Indicator>)
    requires DistinctKeys(m) && multiset(batch) <= m
    ensures NoRepeats(batch)
  {
    forall i, j | 0 <= i < j < |batch| ensures Key(batch[i]) != Key(batch[j]) {
      assert batch == batch[..j] + [batch[j]] + batch[j + 1..];
      assert multiset(batch)[batch[j]] == multiset(batch[..j])[batch[j]] + 1 + multiset(batch[j + 1..])[batch[j]];
      assert batch[i] in multiset(batch[..j]) by { assert batch[..j][i] == batch[i]; }
      assert batch[i] in multiset(batch) && batch[j] in multiset(batch);
    }
  }

  /** A batch that is being sent shares no key with what was confirmed since the last reset. */
  lemma SendingIsNew(s: State, t: nat)
    requires Ownership(s) && Confirmed(s)
    requires t < |s.threads| && s.threads[t].Sending?
    ensures multiset(s.threads[t].batch) <= Live(s)
    ensures NotSince(s.log, s.threads[t].batch)
  {
    hide Total, Held, Dropped, Delivered;
    var batch := s.threads[t].batch;
    BagOut(s.threads, t, Idle, Send_);
    forall x: Indicator
      ensures Live(s)[x] >= HeldBag(s.threads, Send_)[x] + HeldBag(s.threads, Ack_)[x]
      ensures HeldBag(s.threads, Send_)[x] >= multiset(batch)[x]
    {
      TotalContains(HeldBag(s.threads, Reserve_), HeldBag(s.threads, Send_), HeldBag(s.threads, Ack_),
                    multiset(s.c.pending), multiset(Dropped(s.settled)), x);
    }
    forall x | x in batch ensures Key(x) !in Since(s.log) {
      assert x in multiset(batch);
      assert x in Live(s);
      assert Key(x) in KeysOf(Live(s));
    }
  }

  lemma ConfirmedConfirm(s: State, t: nat)
    requires Ownership(s) && Confirmed(s)
    requires t < |s.threads| && s.threads[t].Sending?
    ensures Confirmed(Next(s, Confirm(t)))
  {
    hide Total, Held, HeldBag, Dropped, Delivered, DistinctKeys, AtMostOnce, Since, Acks, KeySet, KeysOf, NotSince,
      NoRepeats;
    var batch := s.threads[t].batch;
    SendingIsNew(s, t);
    DistinctInBatch(Live(s), batch);
    OnceAcks(s.log, batch);
    AckedKeys(s.threads, t, batch);
  }

  lemma AckedKeys(ts: seq<Local>, t: nat, batch: seq<Indicator>)
    requires t < |ts| && ts[t] == Sending(batch)
    ensures KeysOf(HeldBag(ts[t := Acked(batch)], Ack_)) == KeysOf(HeldBag(ts, Ack_)) + KeySet(batch)
  {
    hide Held;
    BagIn(ts, t, Acked(batch), Ack_);
    KeysOfSum(HeldBag(ts, Ack_), batch);
  }

  lemma KeysOfSum(m: multiset<Indicator>, batch: seq<Indicator>)
    ensures KeysOf(m + multiset(batch)) == KeysOf(m) + KeySet(batch)
  {
    forall k | k in KeysOf(m) + KeySet(batch) ensures k in KeysOf(m + multiset(batch)) {
      var x :| (x in m || x in batch) && Key(x) == k;
      assert x in m + multiset(batch);
    }
    forall k | k in KeysOf(m + multiset(batch)) ensures k in KeysOf(m) + KeySet(batch) {
      var x :| x in m + multiset(batch) && Key(x) == k;
      assert x in m || x in batch;
    }
  }

  /** A step that confirms nothing, resets nothing and leaves the confirmed batches alone. */
  lemma ConfirmedQuiet(s: State, s': State)
    requires Confirmed(s) && s'.log == s.log && s.c.sent <= s'.c.sent
    requires HeldBag(s'.threads, Ack_) == HeldBag(s.threads, Ack_)
    ensures Confirmed(s')
  {
    hide HeldBag, KeysOf, AtMostOnce, Since;
  }

  lemma ConfirmedRecord(s: State, t: nat)
    requires Confirmed(s) && t < |s.threads| && s.threads[t].Acked?
    ensures Confirmed(Next(s, Record(t)))
  {
    hide HeldBag, KeysOf, AtMostOnce, Since, KeySet;
    BagOut(s.threads, t, Idle, Ack_);
    KeysOfSum(HeldBag(s.threads[t := Idle], Ack_), s.threads[t].batch);
  }

  /** What every other step does to the thread it belongs to. */
  lemma QuietStep(s: State, a: Action)
    requires !a.Confirm? && !a.Record? && !a.PruneSent? && Next(s, a) != s
    ensures var s' := Next(s, a);
      && s'.log == s.log && s'.c.sent == s.c.sent && a.t < |s.threads| == |s'.threads|
      && s'.threads == s.threads[a.t := s'.threads[a.t]]
      && Part(s.threads[a.t], Ack_) == Part(s'.threads[a.t], Ack_) == []
  {
  }

  lemma ConfirmedStep(s: State, a: Action)
    requires Ownership(s) && Confirmed(s)
    ensures Confirmed(Next(s, a))
  {
    hide Confirmed, Ownership, HeldBag, Next;
    if Next(s, a) != s {
      match a {
        case Confirm(t) => IsActive(s, a); ConfirmedConfirm(s, t);
        case Record(t) => IsActive(s, a); ConfirmedRecord(s, t);
        case PruneSent => ConfirmedPrune(s);
        case _ =>
          QuietStep(s, a);
          BagSame(s.threads, a.t, Next(s, a).threads[a.t], Ack_);
          ConfirmedQuiet(s, Next(s, a));
      }
    }
  }

  lemma IsActive(s: State, a: Action)
    requires Next(s, a) != s
    ensures a.Confirm? ==> a.t < |s.threads| && s.threads[a.t].Sending?
    ensures a.Record? ==> a.t < |s.threads| && s.threads[a.t].Acked?
  {
  }

  lemma ConfirmedPrune(s: State)
    requires Confirmed(s)
    ensures Confirmed(Next(s, PruneSent))
  {
    hide HeldBag, KeysOf, AtMostOnce, Since;
    ResetLog(s.log);
  }

  lemma ResetLog(log: seq<Entry>)
    requires AtMostOnce(log)
    ensures AtMostOnce(log + [Reset]) && Since(log + [Reset]) == {}
  {
    var log' := log + [Reset];
    forall i, j | 0 <= i < j < |log'| && log'[i].Ack? && log'[i] == log'[j]
      ensures exists r :: i < r < j && log'[r].Reset?
    {
      assert log[i] == log[j];
      var r :| i < r < j && log[r].Reset?;
      assert log'[r].Reset?;
    }
  }

  lemma {:induction false} ConfirmedRun(s: State, actions: seq<Action>)
    requires Ownership(s) && Confirmed(s)
    ensures Confirmed(Run(s, actions))
    decreases |actions|
  {
    if actions != [] {
      OwnershipStep(s, actions[0]);
      ConfirmedStep(s, actions[0]);
      ConfirmedRun(Next(s, actions[0]), actions[1..]);
    }
  }

  /** At-most-once confirmed delivery: over every run, with concurrent flushes and re-queues, two
      confirmed deliveries of one key have a reset of the sent set between them. */
  lemma {:induction false} ConfirmedAtMostOnce(threads: nat, actions: seq<Action>)
    ensures AtMostOnce(Run(Start(threads), actions).log)
  {
    Conservation(threads, []);
    ConfirmedRun(Start(threads), actions);
  }

  // ----- First in, first out -----

  predicate Flushing(l: Local) {
    l.Sending? || l.Acked?
  }

  ghost predicate SingleFlush(s: State) {
    forall t, u :: 0 <= t < |s.threads| && 0 <= u < |s.threads| && Flushing(s.threads[t]) && Flushing(s.threads[u]) ==>
      t == u
  }

  function Items(fates: seq<Fate>): (xs: seq<Indicator>)
    ensures |xs| == |fates| && forall i :: 0 <= i < |fates| ==> xs[i] == fates[i].ind
  {
    seq(|fates|, i requires 0 <= i < |fates| => fates[i].ind)
  }

  /** The batch on its way to the API, when there is at most one. */
  function InFlight(s: State): seq<Indicator> {
    Held(s.threads, Send_) + Held(s.threads, Ack_)
  }

  /** In append order: first what has left the queue, then the batch in flight, then what waits. */
  ghost predicate Fifo(s: State) {
    s.queued == Items(s.settled) + InFlight(s) + s.c.pending
  }

  lemma {:induction false} HeldNothing(ts: seq<Local>, g: Stage)
    requires forall t :: 0 <= t < |ts| ==> Part(ts[t], g) == []
    ensures Held(ts, g) == []
  {
    if ts != [] { HeldNothing(ts[1..], g); }
  }

  lemma HeldOnly(ts: seq<Local>, t: nat, g: Stage)
    requires t < |ts| && forall u :: 0 <= u < |ts| && u != t ==> Part(ts[u], g) == []
    ensures Held(ts, g) == Part(ts[t], g)
  {
    hide Held, Part;
    HeldSplit(ts, t, g);
    HeldNothing(ts[..t], g);
    HeldNothing(ts[t + 1..], g);
  }

  /** If thread t is the only one that may be flushing, it holds all that is in flight. */
  lemma OnlyFlush(s: State, t: nat)
    requires t < |s.threads| && forall u :: 0 <= u < |s.threads| && u != t ==> !Flushing(s.threads[u])
    ensures InFlight(s) == Part(s.threads[t], Send_) + Part(s.threads[t], Ack_)
  {
    HeldOnly(s.threads, t, Send_);
    HeldOnly(s.threads, t, Ack_);
  }

  lemma ItemsSettle(fates: seq<Fate>, xs: seq<Indicator>, delivered: bool)
    ensures Items(fates + Settle(xs, delivered)) == Items(fates) + xs
  {
  }

  lemma OnlyFlushStep(s: State, a: Action)
    requires (a.Take? || a.Fail? || a.Confirm? || a.Record?) && Next(s, a) != s
    requires SingleFlush(s) && SingleFlush(Next(s, a))
    ensures InFlight(s) == Part(s.threads[a.t], Send_) + Part(s.threads[a.t], Ack_)
    ensures InFlight(Next(s, a)) == Part(Next(s, a).threads[a.t], Send_) + Part(Next(s, a).threads[a.t], Ack_)
  {
    var s' := Next(s, a);
    forall u | 0 <= u < |s.threads| && u != a.t ensures !Flushing(s.threads[u]) {
      assert s.threads[u] == s'.threads[u];
      assert Flushing(s.threads[a.t]) || Flushing(s'.threads[a.t]);
    }
    OnlyFlush(s, a.t);
    OnlyFlush(s', a.t);
  }

  lemma Regroup(done: seq<Indicator>, batch: seq<Indicator>, pending: seq<Indicator>, lost: seq<Indicator>,
                kept: seq<Indicator>)
    requires lost + kept == batch + pending
    ensures done + batch + pending == done + lost + [] + kept
  {
    assert done + batch + pending == done + (batch + pending);
    assert done + lost + [] + kept == done + (lost + kept);
  }

  lemma FifoFail(s: State, t: nat)
    requires Fifo(s) && t < |s.threads| && s.threads[t].Sending?
    requires InFlight(s) == s.threads[t].batch && InFlight(Next(s, Fail(t))) == []
    ensures Fifo(Next(s, Fail(t)))
  {
    hide InFlight, Items, Overflow, Requeue, Settle;
    var batch := s.threads[t].batch;
    var lost, kept := Overflow(s.c, batch), Requeue(s.c, batch).pending;
    ItemsSettle(s.settled, lost, false);
    Regroup(Items(s.settled), batch, s.c.pending, lost, kept);
  }

  lemma FifoRecord(s: State, t: nat)
    requires Fifo(s) && t < |s.threads| && s.threads[t].Acked?
    requires InFlight(s) == s.threads[t].batch && InFlight(Next(s, Record(t))) == []
    ensures Fifo(Next(s, Record(t)))
  {
    hide InFlight, Items;
    ItemsSettle(s.settled, s.threads[t].batch, true);
  }

  lemma FifoFlushStep(s: State, a: Action)
    requires (a.Take? || a.Fail? || a.Confirm? || a.Record?) && Next(s, a) != s
    requires Fifo(s) && SingleFlush(s) && SingleFlush(Next(s, a))
    ensures Fifo(Next(s, a))
  {
    hide InFlight, Items, SingleFlush, Settle, Overflow, Requeue;
    OnlyFlushStep(s, a);
    match a {
      case Fail(t) => FifoFail(s, t);
      case Record(t) => FifoRecord(s, t);
      case _ =>
    }
  }

  lemma InFlightSame(s: State, t: nat, l: Local)
    requires t < |s.threads| && !Flushing(s.threads[t]) && !Flushing(l)
    ensures InFlight(s.(threads := s.threads[t := l])) == InFlight(s)
  {
    HeldUpdate(s.threads, t, l, Send_);
    HeldUpdate(s.threads, t, l, Ack_);
  }

  lemma FifoStep(s: State, a: Action)
    requires Fifo(s) && SingleFlush(s) && SingleFlush(Next(s, a))
    ensures Fifo(Next(s, a))
  {
    hide Held, Items, SingleFlush;
    if Next(s, a) != s {
      match a {
        case Offer(t, ind) => InFlightSame(s, t, Reserving(ind));
        case Append(t) =>
          InFlightSame(s, t, Idle);
          assert Items(s.settled) + InFlight(s) + (s.c.pending + [s.threads[t].ind])
              == (Items(s.settled) + InFlight(s) + s.c.pending) + [s.threads[t].ind];
        case PruneSent =>
        case _ => FifoFlushStep(s, a);
      }
    }
  }

  /** At most one flush is in progress at every point of the run. */
  ghost predicate SingleFlushRun(s: State, actions: seq<Action>)
    decreases |actions|
  {
    SingleFlush(s) && (actions != [] ==> SingleFlushRun(Next(s, actions[0]), actions[1..]))
  }

  lemma {:induction false} FifoRun(s: State, actions: seq<Action>)
    requires Fifo(s) && SingleFlushRun(s, actions)
    ensures Fifo(Run(s, actions))
    decreases |actions|
  {
    if actions != [] {
      FifoStep(s, actions[0]);
      FifoRun(Next(s, actions[0]), actions[1..]);
    }
  }

  /** The fates of one run, without the indicators dropped by an overflow, in order. */
  lemma {:induction false} DeliveredInOrder(fates: seq<Fate>)
    requires Dropped(fates) == []
    ensures Items(fates) == Delivered(fates)
  {
    if fates != [] {
      DeliveredInOrder(fates[1..]);
      assert Items(fates) == [fates[0].ind] + Items(fates[1..]);
    }
  }

  /** Refinement of a plain queue: while at most one flush is in progress, and whatever sends
      fail, the indicators leave in the order in which they were appended; without an overflow
      delivered ++ in flight ++ waiting is the append order itself. */
  lemma {:induction false} FirstInFirstOut(threads: nat, actions: seq<Action>)
    requires SingleFlushRun(Start(threads), actions)
    ensures Fifo(Run(Start(threads), actions))
    ensures var s := Run(Start(threads), actions);
      Dropped(s.settled) == [] ==> s.queued == Delivered(s.settled) + InFlight(s) + s.c.pending
  {
    AllIdle(threads, Send_);
    AllIdle(threads, Ack_);
    FifoRun(Start(threads), actions);
    var s := Run(Start(threads), actions);
    if Dropped(s.settled) == [] { DeliveredInOrder(s.settled); }
  }

  /** All flushes of the run are those of thread t. */
  predicate OneFlusher(actions: seq<Action>, t: nat) {
    forall i :: 0 <= i < |actions| && actions[i].Take? ==> actions[i].t == t
  }

  ghost predicate OnlyFlushes(s: State, t: nat) {
    forall u :: 0 <= u < |s.threads| && Flushing(s.threads[u]) ==> u == t
  }

  lemma OnlyFlushesStep(s: State, t: nat, a: Action)
    requires OnlyFlushes(s, t) && (a.Take? ==> a.t == t)
    ensures OnlyFlushes(Next(s, a), t)
  {
    var s' := Next(s, a);
    forall u | 0 <= u < |s'.threads| ensures Flushing(s'.threads[u]) ==> u == t {
      assert u != t ==> !Flushing(s.threads[u]);
    }
  }

  lemma {:induction false} OneFlusherIsSingle(s: State, actions: seq<Action>, t: nat)
    requires OnlyFlushes(s, t) && OneFlusher(actions, t)
    ensures SingleFlushRun(s, actions)
    decreases |actions|
  {
    if actions != [] {
      hide Next;
      OnlyFlushesStep(s, t, actions[0]);
      OneFlusherIsSingle(Next(s, actions[0]), actions[1..], t);
    }
  }

  /** Before Close only the flusher goroutine flushes, and then the queue is first-in first-out. */
  lemma FifoBeforeClose(threads: nat, actions: seq<Action>, t: nat)
    requires OneFlusher(actions, t)
    ensures Fifo(Run(Start(threads), actions))
  {
    hide Fifo;
    OneFlusherIsSingle(Start(threads), actions, t);
    FirstInFirstOut(threads, actions);
  }

  // ----- Exactly when the order is safe -----

  ghost predicate NonEmptyBatches(s: State) {
    forall t :: 0 <= t < |s.threads| && Flushing(s.threads[t]) ==> s.threads[t].batch != []
  }

  lemma {:induction false} BatchesNonEmpty(s: State, actions: seq<Action>)
    requires NonEmptyBatches(s)
    ensures NonEmptyBatches(Run(s, actions))
    decreases |actions|
  {
    if actions != [] {
      BatchesNonEmpty(Next(s, actions[0]), actions[1..]);
    }
  }

  /** Thread t completes its flush successfully, if it has one. */
  function Finish(s: State, t: nat): State {
    Next(Next(s, Confirm(t)), Record(t))
  }

  lemma FinishDelivers(s: State, t: nat)
    requires t < |s.threads| && Flushing(s.threads[t])
    ensures Finish(s, t).settled == s.settled + Settle(s.threads[t].batch, true)
    ensures Finish(s, t).threads == s.threads[t := Idle]
    ensures Finish(s, t).queued == s.queued && Finish(s, t).c.pending == s.c.pending
  {
    var s' := Next(s, Confirm(t));
    assert s'.threads[t := Idle] == s.threads[t := Idle];
  }

  lemma DisjointBatches(s: State, t: nat, u: nat)
    requires Ownership(s) && t < u < |s.threads|
    requires NonEmptyBatches(s) && Flushing(s.threads[t]) && Flushing(s.threads[u])
    ensures s.threads[t].batch[0] != s.threads[u].batch[0]
  {
    hide Total, Dropped, Delivered, Held;
    var g := if s.threads[t].Sending? then Send_ else Ack_;
    var h := if s.threads[u].Sending? then Send_ else Ack_;
    var x, y := s.threads[t].batch[0], s.threads[u].batch[0];
    assert multiset(Part(s.threads[t], g))[x] > 0 && multiset(Part(s.threads[u], h))[y] > 0 by {
      assert x in Part(s.threads[t], g) && y in Part(s.threads[u], h);
    }
    HeldTwice(s.threads, t, u, g, h, x, y);
    TotalContains(HeldBag(s.threads, Reserve_), HeldBag(s.threads, Send_), HeldBag(s.threads, Ack_),
                  multiset(s.c.pending), multiset(Dropped(s.settled)), x);
  }

  /** What two threads hold is counted twice. */
  lemma HeldTwice(ts: seq<Local>, t: nat, u: nat, g: Stage, h: Stage, x: Indicator, y: Indicator)
    requires t < u < |ts| && g != Reserve_ && h != Reserve_
    requires multiset(Part(ts[t], g))[x] > 0 && multiset(Part(ts[u], h))[y] > 0
    ensures x == y ==> HeldBag(ts, Send_)[x] + HeldBag(ts, Ack_)[x] >= 2
  {
    BagOut(ts, t, Idle, g);
    BagOut(ts, u, Idle, h);
    BagOut(ts[t := Idle], u, Idle, h);
  }

  /** Two concurrent flushes, both successful, reorder indicators in one of the two orders of
      completion: the order is kept whatever happens next exactly when at most one flush is in
      progress. */
  lemma OrderKeptIffSingleFlush(s: State)
    requires Ownership(s) && Fifo(s) && NonEmptyBatches(s)
    ensures SingleFlush(s) <==> forall t: nat, u: nat :: Fifo(Finish(Finish(s, t), u))
  {
    if SingleFlush(s) {
      forall t: nat, u: nat ensures Fifo(Finish(Finish(s, t), u)) {
        FinishKeepsOrder(s, t);
        FinishKeepsOrder(Finish(s, t), u);
      }
    } else {
      var t, u :| 0 <= t < u < |s.threads| && Flushing(s.threads[t]) && Flushing(s.threads[u]);
      BothOrders(s, t, u);
    }
  }

  lemma CompletionKeepsSingle(s: State, a: Action)
    requires SingleFlush(s) && (a.Confirm? || a.Record?)
    ensures SingleFlush(Next(s, a))
  {
    var s' := Next(s, a);
    forall u | 0 <= u < |s'.threads| && Flushing(s'.threads[u]) ensures Flushing(s.threads[u]) {
    }
  }

  lemma FinishKeepsOrder(s: State, t: nat)
    requires Fifo(s) && SingleFlush(s)
    ensures Fifo(Finish(s, t)) && SingleFlush(Finish(s, t))
  {
    hide Fifo, SingleFlush, Next;
    CompletionKeepsSingle(s, Confirm(t));
    FifoStep(s, Confirm(t));
    CompletionKeepsSingle(Next(s, Confirm(t)), Record(t));
    FifoStep(Next(s, Confirm(t)), Record(t));
  }

  lemma BothOrders(s: State, t: nat, u: nat)
    requires Ownership(s) && NonEmptyBatches(s)
    requires t < u < |s.threads| && Flushing(s.threads[t]) && Flushing(s.threads[u])
    ensures !Fifo(Finish(Finish(s, t), u)) || !Fifo(Finish(Finish(s, u), t))
  {
    hide Finish, Items, Held;
    FinishTwice(s, t, u);
    FinishTwice(s, u, t);
    DisjointBatches(s, t, u);
    assert s.threads[t := Idle][u := Idle] == s.threads[u := Idle][t := Idle];
    Swapped(Items(s.settled), s.threads[t].batch, s.threads[u].batch, InFlight(Finish(Finish(s, t), u)), s.c.pending);
  }

  lemma Swapped(front: seq<Indicator>, a: seq<Indicator>, b: seq<Indicator>, flight: seq<Indicator>,
                waiting: seq<Indicator>)
    requires a != [] && b != [] && a[0] != b[0]
    ensures front + a + b + flight + waiting != front + b + a + flight + waiting
  {
    assert (front + a + b + flight + waiting)[|front|] == a[0];
    assert (front + b + a + flight + waiting)[|front|] == b[0];
  }

  lemma FinishTwice(s: State, t: nat, u: nat)
    requires t != u && t < |s.threads| && u < |s.threads| && Flushing(s.threads[t]) && Flushing(s.threads[u])
    requires NonEmptyBatches(s)
    ensures var s' := Finish(Finish(s, t), u);
      && s'.threads == s.threads[t := Idle][u := Idle] && s'.queued == s.queued && s'.c.pending == s.c.pending
      && Items(s'.settled) == Items(s.settled) + s.threads[t].batch + s.threads[u].batch
  {
    FinishDelivers(s, t);
    FinishDelivers(Finish(s, t), u);
    ItemsSettle(s.settled, s.threads[t].batch, true);
    ItemsSettle(Finish(s, t).settled, s.threads[u].batch, true);
  }

  lemma {:induction false} RunSnoc(s: State, actions: seq<Action>, a: Action)
    ensures Run(s, actions + [a]) == Next(Run(s, actions), a)
    decreases |actions|
  {
    hide Next;
    if actions == [] {
      assert [] + [a] == [a];
    } else {
      assert (actions + [a])[1..] == actions[1..] + [a];
      RunSnoc(Next(s, actions[0]), actions[1..], a);
    }
  }

  lemma {:induction false} RunAppend(s: State, a: seq<Action>, b: seq<Action>)
    ensures Run(s, a + b) == Run(Run(s, a), b)
    decreases |a|
  {
    hide Next;
    if a == [] {
      assert a + b == b;
    } else {
      assert (a + b)[1..] == a[1..] + b;
      RunAppend(Next(s, a[0]), a[1..], b);
    }
  }

  lemma RunTwo(s: State, a: Action, b: Action)
    ensures Run(s, [a, b]) == Next(Next(s, a), b)
  {
    hide Next;
    assert [a] + [b] == [a, b];
    RunSnoc(s, [a], b);
    RunSnoc(s, [], a);
  }

  /** One indicator is accepted and goes straight into a batch. */
  function Batch(t: nat, ind: Indicator): seq<Action> {
    [Offer(t, ind), Append(t)] + [Take(t)]
  }

  /** A flush that succeeds. */
  function Success(t: nat): seq<Action> {
    [Confirm(t), Record(t)]
  }

  lemma BatchTaken(s: State, t: nat, ind: Indicator)
    requires t < |s.threads| && s.threads[t].Idle? && !Known(s.c, Key(ind)) && s.c.pending == []
    ensures var s' := Run(s, Batch(t, ind));
      && s'.threads == s.threads[t := Sending([ind])] && s'.queued == s.queued + [ind] && s'.settled == s.settled
      && s'.c == Shared(s.c.sent, s.c.pendingKeys + {Key(ind)}, [])
  {
    hide Run;
    RunTwo(s, Offer(t, ind), Append(t));
    RunSnoc(s, [Offer(t, ind), Append(t)], Take(t));
    BatchStates(s, t, ind);
  }

  lemma BatchStates(s: State, t: nat, ind: Indicator)
    requires t < |s.threads| && s.threads[t].Idle? && !Known(s.c, Key(ind)) && s.c.pending == []
    ensures var s' := Next(Next(Next(s, Offer(t, ind)), Append(t)), Take(t));
      && s'.threads == s.threads[t := Sending([ind])] && s'.queued == s.queued + [ind] && s'.settled == s.settled
      && s'.c == Shared(s.c.sent, s.c.pendingKeys + {Key(ind)}, [])
  {
    hide Key;
    var s1 := Next(s, Offer(t, ind));
    var s2 := Next(s1, Append(t));
    assert s2.c.pending == [ind];
    assert s.threads[t := Reserving(ind)][t := Idle][t := Sending([ind])] == s.threads[t := Sending([ind])];
  }

  /** A run from the start in which two flushes overlap, b's batch is recorded first, and so a is
      appended before b and delivered after it. */
  lemma OverlapReorders(a: Indicator, b: Indicator)
    requires Key(a) != Key(b)
    ensures var s := Run(Start(2), Batch(0, a) + Batch(1, b) + Success(1) + Success(0));
      s.queued == [a, b] && Delivered(s.settled) == [b, a] && !Fifo(s)
  {
    hide Run, Key, Next, Batch, Delivered, Fifo;
    var s0 := Start(2);
    var s1 := Run(s0, Batch(0, a));
    var s2 := Run(s1, Batch(1, b));
    var s3 := Run(s2, Success(1));
    RunAppend(s0, Batch(0, a), Batch(1, b));
    RunAppend(s0, Batch(0, a) + Batch(1, b), Success(1));
    RunAppend(s0, Batch(0, a) + Batch(1, b) + Success(1), Success(0));
    BatchTaken(s0, 0, a);
    BatchTaken(s1, 1, b);
    RunTwo(s2, Confirm(1), Record(1));
    FinishDelivers(s2, 1);
    RunTwo(s3, Confirm(0), Record(0));
    FinishDelivers(s3, 0);
    var s := Run(s3, Success(0));
    assert s.queued == [a, b] && s.settled == Settle([b], true) + Settle([a], true) && s.threads == [Idle, Idle];
    Reordered(s, a, b);
  }

  lemma Reordered(s: State, a: Indicator, b: Indicator)
    requires a != b && s.queued == [a, b] && s.settled == Settle([b], true) + Settle([a], true)
    ensures Delivered(s.settled) == [b, a] && !Fifo(s)
  {
    hide InFlight, Delivered;
    FatesAppend(Settle([b], true), Settle([a], true));
    FatesSettle([b], true);
    FatesSettle([a], true);
    assert Items(s.settled)[0] == b;
    assert (Items(s.settled) + InFlight(s) + s.c.pending)[0] == b;
  }
}
