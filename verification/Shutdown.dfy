/** What `Close` leaves behind: its final flush runs beside whatever other threads still do. */
module Shutdown {
  import opened Delivery

  /** This step puts something into the queue: an append, or a failed flush that re-queues. */
  predicate Fills(s: State, a: Action) {
    || (a.Append? && a.t < |s.threads| && s.threads[a.t].Reserving?)
    || (a.Fail? && a.t < |s.threads| && s.threads[a.t].Sending?)
  }

  /** This step takes the whole queue. */
  predicate Empties(s: State, a: Action) {
    a.Take? && a.t < |s.threads| && s.threads[a.t].Idle? && s.c.pending != []
  }

  /** Nothing was put into the queue in this stretch that was not taken again: of the steps that fill
      or empty it, the last one, if any, empties it. */
  predicate Drained(s: State, actions: seq<Action>) {
    actions == []
    || var init, a := actions[..|actions| - 1], actions[|actions| - 1];
       var s' := Run(s, init);
       Empties(s', a) || (!Fills(s', a) && Drained(s, init))
  }

  lemma OneStep(s: State, a: Action)
    requires NonEmptyBatches(s)
    ensures Next(s, a).c.pending == [] <==> Empties(s, a) || (!Fills(s, a) && s.c.pending == [])
  {
    if a.Fail? && a.t < |s.threads| && s.threads[a.t].Sending? {
      assert Flushing(s.threads[a.t]);
    }
  }

  lemma {:induction false} EmptyIffDrained(s: State, actions: seq<Action>)
    requires NonEmptyBatches(s) && s.c.pending == []
    ensures Run(s, actions).c.pending == [] <==> Drained(s, actions)
  {
    if actions != [] {
      hide Next, NonEmptyBatches, Run;
      var init, a := actions[..|actions| - 1], actions[|actions| - 1];
      assert actions == init + [a];
      EmptyIffDrained(s, init);
      RunSnoc(s, init, a);
      BatchesNonEmpty(s, init);
      OneStep(Run(s, init), a);
    } else {
      NoSteps(s);
    }
  }

  lemma NoSteps(s: State)
    ensures Run(s, []) == s
  {
  }

  /** The steps of other threads, and at most the confirmation of t's own batch. */
  predicate Beside(actions: seq<Action>, t: nat) {
    forall i :: 0 <= i < |actions| ==> actions[i].PruneSent? || actions[i].t != t || actions[i].Confirm?
  }

  predicate Holds(s: State, t: nat, batch: seq<Indicator>) {
    t < |s.threads| && (s.threads[t] == Sending(batch) || s.threads[t] == Acked(batch))
  }

  lemma {:induction false} KeepsBatch(s: State, actions: seq<Action>, t: nat, batch: seq<Indicator>)
    requires Holds(s, t, batch) && Beside(actions, t)
    ensures Holds(Run(s, actions), t, batch)
    decreases |actions|
  {
    if actions != [] {
      KeepsBatch(Next(s, actions[0]), actions[1..], t, batch);
    }
  }

  /** The API has confirmed t's batch. */
  predicate Sent(s: State, t: nat) {
    t < |s.threads| && s.threads[t].Acked?
  }

  /** Close's thread ends its flush: it records a confirmed batch and re-queues any other. */
  function EndFlush(s: State, t: nat): State {
    Next(s, if Sent(s, t) then Record(t) else Fail(t))
  }

  /** One step before: thread t closes while something is queued and other threads do what they like in
      between. Its own flush leaves the queue empty exactly when its batch was confirmed and whatever
      others put into the queue meanwhile was taken again; a flush that fails always leaves something. */
  lemma EndFlushEmptyIff(s: State, t: nat, between: seq<Action>)
    requires NonEmptyBatches(s) && t < |s.threads| && s.threads[t].Idle? && s.c.pending != [] && Beside(between, t)
    ensures var taken := Next(s, Take(t));
      var s' := Run(taken, between);
      EndFlush(s', t).c.pending == [] <==> Sent(s', t) && Drained(taken, between)
  {
    hide Run, NonEmptyBatches, Drained;
    var taken := Next(s, Take(t));
    var s' := Run(taken, between);
    TakeKeeps(s, t);
    KeepsBatch(taken, between, t, s.c.pending);
    EmptyIffDrained(taken, between);
    BatchesNonEmpty(taken, between);
    OneStep(s', if Sent(s', t) then Record(t) else Fail(t));
  }

  lemma TakeKeeps(s: State, t: nat)
    requires NonEmptyBatches(s) && t < |s.threads| && s.threads[t].Idle? && s.c.pending != []
    ensures var s' := Next(s, Take(t)); NonEmptyBatches(s') && Holds(s', t, s.c.pending) && s'.c.pending == []
  {
  }

  // ----- When nothing can be left behind -----

  /** No other thread has an indicator on its way into the queue: none between its reservation and its
      append, and none in the middle of sending a batch. */
  ghost predicate Quiet(s: State, t: nat) {
    forall u :: 0 <= u < |s.threads| && u != t ==> !s.threads[u].Reserving? && !s.threads[u].Sending?
  }

  /** Other threads finish what they have begun, and t's own flush, if it has one, succeeds. */
  predicate Succeeds(actions: seq<Action>, t: nat) {
    forall i :: 0 <= i < |actions| ==>
      var a := actions[i];
      a.PruneSent? || (a.t != t && !a.Offer?) || (a.t == t && (a.Confirm? || a.Record?))
  }

  predicate Returned(s: State, t: nat) {
    t < |s.threads| && s.threads[t].Idle?
  }

  ghost predicate StillQuiet(s: State, t: nat) {
    Quiet(s, t) && s.c.pending == [] && t < |s.threads| && !s.threads[t].Reserving?
  }

  lemma QuietStep(s: State, t: nat, a: Action)
    requires StillQuiet(s, t) && Succeeds([a], t)
    ensures StillQuiet(Next(s, a), t)
  {
    assert [a][0] == a;
    var s' := Next(s, a);
    forall u | 0 <= u < |s'.threads| && u != t ensures !s'.threads[u].Reserving? && !s'.threads[u].Sending? {
      assert !s.threads[u].Reserving? && !s.threads[u].Sending?;
    }
  }

  lemma {:induction false} QuietRun(s: State, t: nat, actions: seq<Action>)
    requires StillQuiet(s, t) && Succeeds(actions, t)
    ensures StillQuiet(Run(s, actions), t)
    decreases |actions|
  {
    if actions != [] {
      hide StillQuiet, Next;
      assert [actions[0]][0] == actions[0];
      QuietStep(s, t, actions[0]);
      QuietRun(Next(s, actions[0]), t, actions[1..]);
    }
  }

  lemma TakenIsQuiet(s: State, t: nat)
    requires t < |s.threads| && s.threads[t].Idle? && Quiet(s, t)
    ensures StillQuiet(Next(s, Take(t)), t)
  {
  }

  /** What thread u does to spoil it: it appends, or its send fails. */
  function Spoil(s: State, u: nat): Action {
    if u < |s.threads| && s.threads[u].Reserving? then Append(u) else Fail(u)
  }

  lemma Spoiled(s: State, t: nat, u: nat)
    requires NonEmptyBatches(s) && t < |s.threads| && s.threads[t].Idle?
    requires u < |s.threads| && u != t && (s.threads[u].Reserving? || s.threads[u].Sending?)
    ensures var taken := Next(s, Take(t));
      var s' := Next(Next(Next(taken, Spoil(taken, u)), Confirm(t)), Record(t));
      Returned(s', t) && s'.c.pending != []
  {
    var taken := Next(s, Take(t));
    assert taken.threads[u] == s.threads[u] && taken.c.pending == [];
    if s.threads[u].Sending? {
      assert Flushing(s.threads[u]);
      SpoiledByFail(taken, u);
    } else {
      SpoiledByAppend(taken, u);
    }
    SpoilKeepsOwn(taken, t, u);
    FlushSucceeds(Next(taken, Spoil(taken, u)), t);
  }

  lemma SpoiledByFail(s: State, u: nat)
    requires u < |s.threads| && s.threads[u].Sending? && s.threads[u].batch != []
    ensures Next(s, Fail(u)).c.pending != []
  {
  }

  lemma SpoiledByAppend(s: State, u: nat)
    requires u < |s.threads| && s.threads[u].Reserving?
    ensures Next(s, Append(u)).c.pending != []
  {
  }

  lemma SpoilKeepsOwn(s: State, t: nat, u: nat)
    requires t < |s.threads| && u != t
    ensures |Next(s, Spoil(s, u)).threads| == |s.threads| && Next(s, Spoil(s, u)).threads[t] == s.threads[t]
  {
  }

  lemma FlushSucceeds(s: State, t: nat)
    requires t < |s.threads| && (s.threads[t].Idle? || s.threads[t].Sending?)
    ensures var s' := Next(Next(s, Confirm(t)), Record(t)); Returned(s', t) && s'.c.pending == s.c.pending
  {
  }

  lemma RunThree(s: State, a: Action, b: Action, c: Action)
    ensures Run(s, [a, b, c]) == Next(Next(Next(s, a), b), c)
  {
    hide Run, Next;
    assert [a, b] + [c] == [a, b, c];
    RunSnoc(s, [a, b], c);
    RunTwo(s, a, b);
  }

  /** Thread t calls Close, with something in the queue or not. If nothing more is offered and its own
      flush succeeds, the queue is sure to be empty from its return on exactly when, at the call, no
      other thread was about to append and none was sending. */
  lemma CloseLeavesNothingIff(s: State, t: nat)
    requires NonEmptyBatches(s) && t < |s.threads| && s.threads[t].Idle?
    ensures Quiet(s, t) <==>
      forall actions :: Succeeds(actions, t) && Returned(Run(Next(s, Take(t)), actions), t) ==>
        Run(Next(s, Take(t)), actions).c.pending == []
  {
    hide Run, Next, NonEmptyBatches;
    var taken := Next(s, Take(t));
    if Quiet(s, t) {
      TakenIsQuiet(s, t);
      forall actions | Succeeds(actions, t) && Returned(Run(taken, actions), t)
        ensures Run(taken, actions).c.pending == []
      {
        QuietRun(taken, t, actions);
      }
    } else {
      var u :| 0 <= u < |s.threads| && u != t && (s.threads[u].Reserving? || s.threads[u].Sending?);
      var actions := [Spoil(taken, u), Confirm(t), Record(t)];
      Spoiled(s, t, u);
      RunThree(taken, Spoil(taken, u), Confirm(t), Record(t));
      assert Succeeds(actions, t);
    }
  }

  /** A run from the start: thread 1 is sending b when thread 0 closes and finds the queue empty; the
      send fails, and b stays in the queue. */
  lemma LeftBehindIsReachable(b: Indicator)
    ensures var s := Run(Start(2), Batch(1, b));
      && Next(s, Take(0)) == s && Returned(s, 0) && !Quiet(s, 0)
      && Next(s, Fail(1)).c.pending == [b]
  {
    hide Run, Batch, Key;
    BatchTaken(Start(2), 1, b);
    var s := Run(Start(2), Batch(1, b));
    assert s.threads[1] == Sending([b]) && s.threads[0] == Idle;
  }
}
