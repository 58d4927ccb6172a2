/** Two balances of the delivery engine over every interleaving: each confirmation belongs to exactly one
    delivered indicator, and resets of the sent set are paid for with deliveries. */
module Ledger {
  import opened Delivery

  /** How many of these indicators have this key. */
  function Times(xs: seq<Indicator>, key: string): nat {
    if xs == [] then 0 else (if Key(xs[0]) == key then 1 else 0) + Times(xs[1..], key)
  }

  /** How often the API confirmed this key. */
  function Confirmations(log: seq<Entry>, key: string): nat {
    if log == [] then 0 else (if log[0] == Ack(key) then 1 else 0) + Confirmations(log[1..], key)
  }

  function Resets(log: seq<Entry>): nat {
    if log == [] then 0 else (if log[0].Reset? then 1 else 0) + Resets(log[1..])
  }

  lemma {:induction false} TimesAppend(a: seq<Indicator>, b: seq<Indicator>, key: string)
    ensures Times(a + b, key) == Times(a, key) + Times(b, key)
    decreases |a|
  {
    if a == [] {
      assert a + b == b;
    } else {
      assert (a + b)[1..] == a[1..] + b;
      TimesAppend(a[1..], b, key);
    }
  }

  lemma {:induction false} LogAppend(a: seq<Entry>, b: seq<Entry>, key: string)
    ensures Confirmations(a + b, key) == Confirmations(a, key) + Confirmations(b, key)
    ensures Resets(a + b) == Resets(a) + Resets(b)
    decreases |a|
  {
    if a == [] {
      assert a + b == b;
    } else {
      assert (a + b)[1..] == a[1..] + b;
      LogAppend(a[1..], b, key);
    }
  }

  lemma {:induction false} AcksCount(xs: seq<Indicator>, key: string)
    ensures Confirmations(Acks(xs), key) == Times(xs, key)
    ensures Resets(Acks(xs)) == 0
  {
    if xs != [] {
      assert Acks(xs)[1..] == Acks(xs[1..]);
      AcksCount(xs[1..], key);
    }
  }

  lemma HeldTimes(ts: seq<Local>, t: nat, l: Local, g: Stage, key: string)
    requires t < |ts|
    ensures Times(Held(ts[t := l], g), key) + Times(Part(ts[t], g), key)
         == Times(Held(ts, g), key) + Times(Part(l, g), key)
  {
    hide Held, Part, Times;
    HeldUpdate(ts, t, l, g);
    TimesThree(Held(ts[..t], g), Part(ts[t], g), Held(ts[t + 1..], g), key);
    TimesThree(Held(ts[..t], g), Part(l, g), Held(ts[t + 1..], g), key);
  }

  lemma TimesThree(a: seq<Indicator>, b: seq<Indicator>, c: seq<Indicator>, key: string)
    ensures Times(a + b + c, key) == Times(a, key) + Times(b, key) + Times(c, key)
  {
    hide Times;
    TimesAppend(a + b, c, key);
    TimesAppend(a, b, key);
  }

  /** The confirmations of a key are those of the delivered indicators and of the batches that are
      confirmed but not yet recorded. */
  ghost predicate Balanced(s: State, key: string) {
    Confirmations(s.log, key) == Times(Delivered(s.settled), key) + Times(Held(s.threads, Ack_), key)
  }

  lemma BalancedConfirm(s: State, t: nat, key: string)
    requires Balanced(s, key) && t < |s.threads| && s.threads[t].Sending?
    ensures Balanced(Next(s, Confirm(t)), key)
  {
    hide Held, Times, Confirmations, Delivered, Acks;
    var batch := s.threads[t].batch;
    HeldTimes(s.threads, t, Acked(batch), Ack_, key);
    LogAppend(s.log, Acks(batch), key);
    AcksCount(batch, key);
    TimesNone(key);
  }

  lemma TimesNone(key: string)
    ensures Times([], key) == 0
  {
  }

  lemma BalancedRecord(s: State, t: nat, key: string)
    requires Balanced(s, key) && t < |s.threads| && s.threads[t].Acked?
    ensures Balanced(Next(s, Record(t)), key)
  {
    hide Held, Times, Confirmations, Delivered, Settle, Commit;
    var batch := s.threads[t].batch;
    HeldTimes(s.threads, t, Idle, Ack_, key);
    SettledBy(s, batch, true);
    TimesAppend(Delivered(s.settled), batch, key);
    TimesNone(key);
  }

  lemma BalancedFail(s: State, t: nat, key: string)
    requires Balanced(s, key) && t < |s.threads| && s.threads[t].Sending?
    ensures Balanced(Next(s, Fail(t)), key)
  {
    hide Held, Times, Confirmations, Delivered, Settle, Requeue, Overflow;
    HeldTimes(s.threads, t, Idle, Ack_, key);
    SettledBy(s, Overflow(s.c, s.threads[t].batch), false);
  }

  lemma BalancedReset(s: State, key: string)
    requires Balanced(s, key)
    ensures Balanced(Next(s, PruneSent), key)
  {
    LogAppend(s.log, [Reset], key);
    hide Held, Times, Delivered;
  }

  lemma BalancedStep(s: State, a: Action, key: string)
    requires Balanced(s, key)
    ensures Balanced(Next(s, a), key)
  {
    hide Held, Times, Confirmations, Delivered, Settle, Requeue, Overflow, Acks, Commit;
    if Next(s, a) != s {
      match a
      case Offer(t, ind) => HeldTimes(s.threads, t, Reserving(ind), Ack_, key);
      case Append(t) => HeldTimes(s.threads, t, Idle, Ack_, key);
      case Take(t) => HeldTimes(s.threads, t, Sending(s.c.pending), Ack_, key);
      case Fail(t) => if t < |s.threads| && s.threads[t].Sending? { BalancedFail(s, t, key); }
      case Confirm(t) => BalancedConfirm(s, t, key);
      case Record(t) => if t < |s.threads| && s.threads[t].Acked? { BalancedRecord(s, t, key); }
      case PruneSent => BalancedReset(s, key);
    }
  }

  lemma {:induction false} BalancedRun(s: State, actions: seq<Action>, key: string)
    requires Balanced(s, key)
    ensures Balanced(Run(s, actions), key)
    decreases |actions|
  {
    if actions != [] {
      hide Next, Balanced;
      BalancedStep(s, actions[0], key);
      BalancedRun(Next(s, actions[0]), actions[1..], key);
    }
  }

  /** In every run, a key is confirmed exactly as often as indicators with it are delivered or in a batch
      that is about to be recorded as sent: no confirmation without a delivery, and none missing. */
  lemma EveryDeliveryConfirmed(threads: nat, actions: seq<Action>, key: string)
    ensures var s := Run(Start(threads), actions);
      Confirmations(s.log, key) == Times(Delivered(s.settled), key) + Times(Held(s.threads, Ack_), key)
  {
    AllIdle(threads, Ack_);
    BalancedRun(Start(threads), actions, key);
  }

  // ----- Resets -----

  /** Every reset and every key still remembered is paid for by deliveries, 10001 to a reset. */
  ghost predicate PaidFor(s: State) {
    10001 * Resets(s.log) + |s.c.sent| <= |Delivered(s.settled)|
  }

  lemma {:induction false} KeySetSize(xs: seq<Indicator>)
    ensures |KeySet(xs)| <= |xs|
  {
    if xs != [] {
      KeySetCons(xs);
      KeySetSize(xs[1..]);
    }
  }

  lemma UnionSize(a: set<string>, b: set<string>)
    ensures |a + b| <= |a| + |b|
  {
    assert |a + b| == |a| + |b| - |a * b|;
  }

  lemma PaidRecord(s: State, t: nat)
    requires PaidFor(s) && t < |s.threads| && s.threads[t].Acked?
    ensures PaidFor(Next(s, Record(t)))
  {
    hide Resets, Delivered, Settle, KeySet;
    var batch := s.threads[t].batch;
    SettledBy(s, batch, true);
    KeySetSize(batch);
    UnionSize(s.c.sent, KeySet(batch));
  }

  lemma PaidStep(s: State, a: Action)
    requires PaidFor(s)
    ensures PaidFor(Next(s, a))
  {
    hide Delivered, Settle, Requeue, Overflow, Acks, Commit, Resets;
    match a
    case Record(t) => if t < |s.threads| && s.threads[t].Acked? { PaidRecord(s, t); }
    case Fail(t) =>
      if t < |s.threads| && s.threads[t].Sending? {
        SettledBy(s, Overflow(s.c, s.threads[t].batch), false);
        RequeueKeepsSent(s.c, s.threads[t].batch);
      }
    case Confirm(t) =>
      if t < |s.threads| && s.threads[t].Sending? {
        AcksCount(s.threads[t].batch, "");
        LogAppend(s.log, Acks(s.threads[t].batch), "");
      }
    case PruneSent =>
      OneReset();
      LogAppend(s.log, [Reset], "");
    case _ =>
  }

  lemma OneReset()
    ensures Resets([Reset]) == 1
  {
  }

  lemma RequeueKeepsSent(c: Shared, batch: seq<Indicator>)
    ensures Requeue(c, batch).sent == c.sent
  {
  }

  lemma {:induction false} PaidRun(s: State, actions: seq<Action>)
    requires PaidFor(s)
    ensures PaidFor(Run(s, actions))
    decreases |actions|
  {
    if actions != [] {
      hide Next, PaidFor;
      PaidStep(s, actions[0]);
      PaidRun(Next(s, actions[0]), actions[1..]);
    }
  }

  /** Resets are rare: in every run, each one needs 10001 deliveries of its own, whatever is in flight.
      A reset that is due is made, so a pruning step never leaves more than 10000 keys. */
  lemma ResetsAreRare(threads: nat, actions: seq<Action>)
    ensures var s := Run(Start(threads), actions);
      && 10001 * Resets(s.log) <= |Delivered(s.settled)|
      && |Next(s, PruneSent).c.sent| <= 10000
      && (|s.c.sent| <= 10000 ==> Next(s, PruneSent) == s)
  {
    hide Run, Resets, Delivered;
    NoResetYet(threads);
    PaidRun(Start(threads), actions);
  }

  lemma NoResetYet(threads: nat)
    ensures PaidFor(Start(threads))
  {
  }
}
