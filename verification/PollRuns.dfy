/** Many polls of one server list: when they catch up with it, and which events they lose. */
module PollRuns {
  import opened Text
  import opened Poller

  const BATCH := MAX_PAGES * PAGE

  /** Completed polls, one after another, while the server's list stays the same. */
  function Polls(db: Db, server: seq<Event>, clocks: seq<Clock>): Db
    decreases |clocks|
  {
    if clocks == [] then db else Polls(Completed(db, server, clocks[0]), server, clocks[1..])
  }

  /** Every event at or after the floor is settled. */
  ghost predicate CaughtUp(db: Db, server: seq<Event>, floor: int) {
    forall i :: 0 <= i < |server| && server[i].ts >= floor ==> Settled(db, server[i])
  }

  /** A whole batch of equal stamps from position p on, at or after the cursor, with an event behind it
      that is not settled. */
  ghost predicate Jam(db: Db, server: seq<Event>, floor: int, p: int, q: int) {
    && 0 <= p && p + 500 <= q < |server|
    && server[p].ts == server[p + 499].ts && Changed(server[p], db.cursor)
    && server[q].ts >= floor && !Settled(db, server[q])
  }

  ghost predicate Starves(db: Db, server: seq<Event>, floor: int) {
    exists p, q :: Jam(db, server, floor, p, q)
  }

  // ----- One poll -----

  /** What one completed poll pulls: a slice from the first visible position on. */
  lemma Window(db: Db, server: seq<Event>, clock: Clock)
    requires Stable(server) && !db.coldStart
    ensures var k := FirstVisible(server, db.cursor);
      var n := Min(BATCH, |server| - k);
      var db' := Completed(db, server, clock);
      && Stable(server[k..k + n]) && !db'.coldStart && db'.cursor.Some?
      && db' == HandleAll(db, server[k..k + n]).(cursor := db'.cursor, coldStart := false)
      && (k + n < |server| ==> db'.cursor.value == server[k + n - 1].ts)
  {
    hide Stable, HandleAll, Visible;
    var k := FirstVisible(server, db.cursor);
    VisibleIsSuffix(server, db.cursor);
    var n := Min(BATCH, |server| - k);
    assert Pulled(server[k..]) == server[k..k + n];
    StableSlice(server, k, n);
    if k + n < |server| {
      FullCursor(server, k, server[k..k + n], clock.finish, k + n);
    }
  }

  /** No version of the event with this ID is among these. */
  ghost predicate Without(es: seq<Event>, id: string) {
    forall x :: 0 <= x < |es| ==> es[x].id != id
  }

  lemma OthersDiffer(server: seq<Event>, k: nat, n: nat, i: nat)
    requires Stable(server) && k + n <= |server| && i < |server| && !(k <= i < k + n)
    ensures Without(server[k..k + n], server[i].id)
  {
    var es := server[k..k + n];
    forall x | 0 <= x < |es| ensures es[x].id != server[i].id {
      assert es[x] == server[k + x];
    }
  }

  lemma SettlesSlice(db: Db, server: seq<Event>, k: nat, n: nat, i: nat)
    requires Stable(server) && k + n <= |server| && i < |server| && Stable(server[k..k + n])
    requires Settled(db, server[i]) || k <= i < k + n
    ensures Settled(HandleAll(db, server[k..k + n]), server[i])
  {
    hide HandleAll, Settled, Stable;
    var es := server[k..k + n];
    if k <= i < k + n {
      assert es[i - k] == server[i];
      PulledSettled(db, es, i - k);
    } else {
      OthersDiffer(server, k, n, i);
      OthersStaySettled(db, es, server[i]);
    }
  }

  /** A poll settles what it pulls and unsettles nothing. */
  lemma PollSettles(db: Db, server: seq<Event>, clock: Clock, i: nat)
    requires Stable(server) && !db.coldStart && i < |server|
    ensures var k := FirstVisible(server, db.cursor);
      Settled(db, server[i]) || k <= i < k + BATCH ==> Settled(Completed(db, server, clock), server[i])
  {
    hide HandleAll, Settled, Stable, Completed, Changed;
    Window(db, server, clock);
    var k := FirstVisible(server, db.cursor);
    if Settled(db, server[i]) || k <= i < k + BATCH {
      WindowSettles(db, Completed(db, server, clock), server, k, Min(BATCH, |server| - k), i);
    }
  }

  lemma WindowSettles(db: Db, db': Db, server: seq<Event>, k: nat, n: nat, i: nat)
    requires Stable(server) && k + n <= |server| && i < |server| && Stable(server[k..k + n])
    requires db' == HandleAll(db, server[k..k + n]).(cursor := db'.cursor, coldStart := false)
    requires Settled(db, server[i]) || k <= i < k + n
    ensures Settled(db', server[i])
  {
    hide HandleAll, Settled, Stable;
    SettlesSlice(db, server, k, n, i);
    CursorIrrelevant(HandleAll(db, server[k..k + n]), db'.cursor, false, server[i]);
  }

  /** Handling events that are not newer versions of e does not settle e. */
  lemma {:induction false} StaysUnsettled(db: Db, es: seq<Event>, e: Event)
    requires !Settled(db, e) && forall x :: 0 <= x < |es| && es[x].id == e.id ==> es[x].ts < e.ts
    ensures !Settled(HandleAll(db, es), e)
  {
    if es != [] {
      StaysUnsettled(db, es[..|es| - 1], e);
    }
  }

  /** What a poll does not pull it does not settle. */
  lemma PollLeaves(db: Db, server: seq<Event>, clock: Clock, i: nat)
    requires Stable(server) && !db.coldStart && i < |server| && !Settled(db, server[i])
    requires var k := FirstVisible(server, db.cursor); i < k || k + BATCH <= i
    ensures !Settled(Completed(db, server, clock), server[i])
  {
    hide HandleAll, Settled, Stable, Completed;
    Window(db, server, clock);
    var k := FirstVisible(server, db.cursor);
    var n := Min(BATCH, |server| - k);
    var es, db' := server[k..k + n], Completed(db, server, clock);
    OthersDiffer(server, k, n, i);
    StaysUnsettled(db, es, server[i]);
    CursorIrrelevant(HandleAll(db, es), db'.cursor, false, server[i]);
  }

  // ----- Starvation -----

  lemma Ordered(server: seq<Event>, i: nat, j: nat)
    requires Stable(server) && i <= j < |server|
    ensures server[i].ts <= server[j].ts
  {
  }

  /** A jam outlives every poll. */
  lemma JamStays(db: Db, server: seq<Event>, floor: int, clock: Clock, p: int, q: int)
    requires Stable(server) && !db.coldStart && Jam(db, server, floor, p, q)
    ensures !Completed(db, server, clock).coldStart && Jam(Completed(db, server, clock), server, floor, p, q)
  {
    hide Stable, Settled, Completed;
    var k := FirstVisible(server, db.cursor);
    FirstIsFirst(server, db.cursor, p);
    Window(db, server, clock);
    Ordered(server, k + BATCH - 1, p + BATCH - 1);
    PollLeaves(db, server, clock, q);
  }

  lemma {:induction false} NeverCaughtUp(db: Db, server: seq<Event>, floor: int, clocks: seq<Clock>, p: int, q: int)
    requires Stable(server) && !db.coldStart && Jam(db, server, floor, p, q)
    ensures !CaughtUp(Polls(db, server, clocks), server, floor)
    decreases |clocks|
  {
    hide Stable, Settled, Completed;
    if clocks != [] {
      JamStays(db, server, floor, clocks[0], p, q);
      NeverCaughtUp(Completed(db, server, clocks[0]), server, floor, clocks[1..], p, q);
    }
  }

  /** A poll at the last batch, or in front of settled events only, catches up. */
  lemma LastPoll(db: Db, server: seq<Event>, floor: int, clock: Clock)
    requires Stable(server) && !db.coldStart && NothingLost(db, server, floor)
    requires var k := FirstVisible(server, db.cursor);
      forall i :: k + BATCH <= i < |server| && server[i].ts >= floor ==> Settled(db, server[i])
    ensures CaughtUp(Completed(db, server, clock), server, floor)
  {
    hide Stable, Settled, Completed;
    var k := FirstVisible(server, db.cursor);
    forall i | 0 <= i < |server| && server[i].ts >= floor ensures Settled(Completed(db, server, clock), server[i]) {
      assert i < k ==> !Changed(server[i], db.cursor);
      PollSettles(db, server, clock, i);
    }
  }

  lemma JamWasThere(db: Db, server: seq<Event>, floor: int, clock: Clock, p: int, q: int)
    requires Stable(server) && !db.coldStart && db.cursor.Some?
    requires Completed(db, server, clock).cursor.Some? && Completed(db, server, clock).cursor.value >= db.cursor.value
    ensures Jam(Completed(db, server, clock), server, floor, p, q) ==> Jam(db, server, floor, p, q)
  {
    hide Stable, Settled, Completed;
    if 0 <= q < |server| {
      PollSettles(db, server, clock, q);
    }
  }

  lemma NoNewJam(db: Db, server: seq<Event>, floor: int, clock: Clock)
    requires Stable(server) && !db.coldStart && db.cursor.Some? && !Starves(db, server, floor)
    requires Completed(db, server, clock).cursor.Some? && Completed(db, server, clock).cursor.value >= db.cursor.value
    ensures !Starves(Completed(db, server, clock), server, floor)
  {
    hide Stable, Jam, Completed;
    forall p, q ensures !Jam(Completed(db, server, clock), server, floor, p, q) {
      JamWasThere(db, server, floor, clock, p, q);
    }
  }

  /** A poll that does not catch up moves the window on, and makes no new jam. */
  lemma MovesOn(db: Db, server: seq<Event>, floor: int, clock: Clock)
    requires Stable(server) && !db.coldStart && NothingLost(db, server, floor) && !Starves(db, server, floor)
    ensures var db' := Completed(db, server, clock);
      CaughtUp(db', server, floor)
      || (FirstVisible(server, db'.cursor) > FirstVisible(server, db.cursor) && !db'.coldStart
          && NothingLost(db', server, floor) && !Starves(db', server, floor))
  {
    hide Stable, Settled, Completed, CaughtUp;
    var k, db' := FirstVisible(server, db.cursor), Completed(db, server, clock);
    if k + BATCH >= |server| || server[k].ts == server[k + BATCH - 1].ts {
      forall i | k + BATCH <= i < |server| && server[i].ts >= floor ensures Settled(db, server[i]) {
        assert !Jam(db, server, floor, k, i);
      }
      LastPoll(db, server, floor, clock);
    } else {
      Window(db, server, clock);
      Ordered(server, k, k + BATCH - 1);
      CompletedLosesNothing(db, server, clock, floor);
      NoNewJam(db, server, floor, clock);
      StaysBehind(server, db'.cursor, k);
    }
  }

  lemma StaysBehind(server: seq<Event>, since: Option<int>, k: nat)
    requires Stable(server) && k < |server| && !Changed(server[k], since)
    ensures FirstVisible(server, since) > k
  {
    hide Stable;
    if FirstVisible(server, since) <= k {
      ChangedFrom(server, since, k);
    }
  }

  lemma {:induction false} StaysCaughtUp(db: Db, server: seq<Event>, floor: int, clocks: seq<Clock>)
    requires Stable(server) && !db.coldStart && CaughtUp(db, server, floor)
    ensures CaughtUp(Polls(db, server, clocks), server, floor)
    decreases |clocks|
  {
    hide Stable, Settled;
    if clocks != [] {
      var db' := Completed(db, server, clocks[0]);
      forall i | 0 <= i < |server| && server[i].ts >= floor ensures Settled(db', server[i]) {
        PollSettles(db, server, clocks[0], i);
      }
      StaysCaughtUp(db', server, floor, clocks[1..]);
    }
  }

  lemma {:induction false} CatchesUp(db: Db, server: seq<Event>, floor: int, clocks: seq<Clock>)
    requires Stable(server) && !db.coldStart && NothingLost(db, server, floor) && !Starves(db, server, floor)
    requires |clocks| > |server| - FirstVisible(server, db.cursor)
    ensures CaughtUp(Polls(db, server, clocks), server, floor)
    decreases |clocks|
  {
    hide Stable, Settled, CaughtUp, Starves, NothingLost;
    var db' := Completed(db, server, clocks[0]);
    MovesOn(db, server, floor, clocks[0]);
    if CaughtUp(db', server, floor) {
      StaysCaughtUp(db', server, floor, clocks[1..]);
    } else {
      CatchesUp(db', server, floor, clocks[1..]);
    }
  }

  /** However the clock runs, n polls or more always catch up. */
  ghost predicate CatchesUpWithin(db: Db, server: seq<Event>, floor: int, n: nat) {
    forall clocks: seq<Clock> :: |clocks| >= n ==> CaughtUp(Polls(db, server, clocks), server, floor)
  }

  /** Once the cold start is over, completed polls of a list that stays the same settle every event at
      or after the floor exactly when no 500 events at or after the cursor share a stamp in front of
      an event that is not settled yet. */
  lemma CatchesUpIff(db: Db, server: seq<Event>, floor: int)
    requires Stable(server) && !db.coldStart && NothingLost(db, server, floor)
    ensures (exists n: nat :: CatchesUpWithin(db, server, floor, n)) <==> !Starves(db, server, floor)
  {
    hide Stable, NothingLost, CaughtUp;
    if Starves(db, server, floor) {
      var p, q :| Jam(db, server, floor, p, q);
      forall n: nat ensures !CatchesUpWithin(db, server, floor, n) {
        var clocks := seq(n, _ => Clock(0, 0));
        NeverCaughtUp(db, server, floor, clocks, p, q);
      }
    } else {
      var n := |server| + 1;
      forall clocks: seq<Clock> | |clocks| >= n ensures CaughtUp(Polls(db, server, clocks), server, floor) {
        CatchesUp(db, server, floor, clocks);
      }
      assert CatchesUpWithin(db, server, floor, n);
    }
  }

  /** 500 events with one stamp, and one behind them. */
  function Jammed(): (server: seq<Event>)
    ensures |server| == 501
    ensures forall i :: 0 <= i < |server| ==> server[i] == Event(Id(i), if i < 500 then 1 else 2, true, "")
  {
    seq(501, i requires 0 <= i <= 500 => Event(Id(i), if i < 500 then 1 else 2, true, ""))
  }

  function Id(n: nat): (id: string)
    ensures |id| == n
  {
    seq(n, _ => 'a')
  }

  const FRESH := Db(None, true, map[], [], [])

  /** A jam is reached by the first poll of a fresh database, and then the last event is never handled. */
  lemma JamIsReachable(finish: int, clocks: seq<Clock>)
    ensures Stable(Jammed())
    ensures var db := Completed(FRESH, Jammed(), Clock(WEEK + 1, finish));
      && NothingLost(db, Jammed(), 1) && Starves(db, Jammed(), 1)
      && !CaughtUp(Polls(db, Jammed(), clocks), Jammed(), 1)
  {
    hide Stable, Jammed, Settled, HandleAll, Jam, NothingLost;
    var db := Completed(FRESH, Jammed(), Clock(WEEK + 1, finish));
    JammedIsStable();
    FirstPollJams(finish);
    CompletedLosesNothing(FRESH, Jammed(), Clock(WEEK + 1, finish), 1);
    NeverCaughtUp(db, Jammed(), 1, clocks, 0, BATCH);
  }

  lemma FirstPollJams(finish: int)
    ensures var db := Completed(FRESH, Jammed(), Clock(WEEK + 1, finish));
      !db.coldStart && Jam(db, Jammed(), 1, 0, BATCH)
  {
    hide Stable, Settled, HandleAll, Visible, NewCursor;
    var server := Jammed();
    JammedIsStable();
    AllVisible(server, Some(1));
    var pulled := server[0..BATCH];
    assert Pulled(server) == pulled;
    FullCursor(server, 0, pulled, finish, BATCH);
    NothingSettled(server[BATCH]);
    OthersDiffer(server, 0, BATCH, BATCH);
    StaysUnsettled(FRESH, pulled, server[BATCH]);
    CursorIrrelevant(HandleAll(FRESH, pulled), Some(NewCursor(pulled, finish)), false, server[BATCH]);
  }

  lemma JammedIsStable()
    ensures Stable(Jammed())
    ensures forall i :: 0 <= i < |Jammed()| ==> Changed(Jammed()[i], Some(1))
  {
    forall i, j | 0 <= i < j < |Jammed()| ensures Jammed()[i].id != Jammed()[j].id {
      assert |Jammed()[i].id| == i && |Jammed()[j].id| == j;
    }
  }

  lemma NothingSettled(e: Event)
    ensures !Settled(FRESH, e)
  {
  }

  // ----- Events that appear during a poll -----

  /** Neither settled nor visible to the next poll. */
  ghost predicate Lost(db: Db, e: Event) {
    !Settled(db, e) && db.cursor.Some? && !Changed(e, db.cursor)
  }

  /** An event that appears on the server after the last fetch, stamped no earlier than everything
      fetched, is lost exactly when the poll's last page was short and the stamp is before the
      second reading of the clock. */
  lemma LateEventLostIff(db: Db, server: seq<Event>, clock: Clock, e: Event)
    requires Stable(server) && !Settled(db, e)
    requires forall x :: x in server ==> x.ts <= e.ts && (x.id == e.id ==> x.ts < e.ts)
    ensures Lost(Completed(db, server, clock), e)
       <==> !LastPageFull(Pulled(Visible(server, Since(db, clock.begin)))) && e.ts < clock.finish
  {
    hide Stable, Settled, HandleAll, Visible, Pulled;
    var pulled := Pulled(Visible(server, Since(db, clock.begin)));
    PulledIsStable(server, Since(db, clock.begin));
    CursorOfAscending(pulled, clock.finish);
    assert forall x :: 0 <= x < |pulled| ==> pulled[x] in server;
    StaysUnsettled(db, pulled, e);
    CursorIrrelevant(HandleAll(db, pulled), Some(NewCursor(pulled, clock.finish)), false, e);
  }

  /** New on the server, and stamped no earlier than what is fetched. */
  ghost predicate Late(db: Db, server: seq<Event>, e: Event) {
    e !in server && !Settled(db, e) && forall x :: x in server ==> x.ts <= e.ts && (x.id == e.id ==> x.ts < e.ts)
  }

  /** A poll during which the server's list changes to `server'` loses nothing exactly when no late event
      at or after the floor is stamped before the second reading of the clock behind a short last page. */
  lemma ChangesDuringPollIff(db: Db, server: seq<Event>, server': seq<Event>, clock: Clock, floor: int)
    requires Stable(server) && if db.coldStart then floor == clock.begin - WEEK else NothingLost(db, server, floor)
    requires forall e :: e in server' ==> e in server || Late(db, server, e)
    ensures NothingLost(Completed(db, server, clock), server', floor)
       <==> forall e :: e in server' && e !in server && e.ts >= floor ==>
              LastPageFull(Pulled(Visible(server, Since(db, clock.begin)))) || e.ts >= clock.finish
  {
    hide Stable, Settled, HandleAll, Visible, Pulled, LastPageFull;
    var db' := Completed(db, server, clock);
    CompletedLosesNothing(db, server, clock, floor);
    forall e | e in server' && e.ts >= floor
      ensures (Settled(db', e) || e.ts >= db'.cursor.value)
         <==> e in server || LastPageFull(Pulled(Visible(server, Since(db, clock.begin)))) || e.ts >= clock.finish
    {
      if e in server {
        var i :| 0 <= i < |server| && server[i] == e;
      } else {
        LateEventLostIff(db, server, clock, e);
        LateStaysUnsettled(db, server, clock, e);
      }
    }
    assert forall e :: e in server' <==> exists i :: 0 <= i < |server'| && server'[i] == e;
  }

  lemma LateStaysUnsettled(db: Db, server: seq<Event>, clock: Clock, e: Event)
    requires Stable(server) && Late(db, server, e)
    ensures !Settled(Completed(db, server, clock), e)
  {
    hide Stable, Settled, HandleAll, Visible, Pulled, NewCursor;
    var pulled := Pulled(Visible(server, Since(db, clock.begin)));
    PulledIsStable(server, Since(db, clock.begin));
    assert forall x :: 0 <= x < |pulled| ==> pulled[x] in server;
    StaysUnsettled(db, pulled, e);
    CursorIrrelevant(HandleAll(db, pulled), Some(NewCursor(pulled, clock.finish)), false, e);
  }

  /** And it stays lost: no later poll with a clock that does not fall behind that cursor handles it. */
  lemma {:induction false} LostForGood(db: Db, server: seq<Event>, i: nat, cursor: int, clocks: seq<Clock>)
    requires Stable(server) && i < |server| && !db.coldStart && !Settled(db, server[i])
    requires db.cursor.Some? && server[i].ts < cursor <= db.cursor.value
    requires forall j :: 0 <= j < |clocks| ==> clocks[j].finish >= cursor
    ensures !Settled(Polls(db, server, clocks), server[i])
    decreases |clocks|
  {
    hide Stable, Settled, Completed;
    if clocks != [] {
      var db' := Completed(db, server, clocks[0]);
      StaysBehind(server, db.cursor, i);
      PollLeaves(db, server, clocks[0], i);
      CursorStays(db, server, clocks[0]);
      LostForGood(db', server, i, cursor, clocks[1..]);
    }
  }

  /** The cursor does not fall behind both itself and the clock. */
  lemma CursorStays(db: Db, server: seq<Event>, clock: Clock)
    requires Stable(server) && !db.coldStart && db.cursor.Some?
    ensures var db' := Completed(db, server, clock);
      !db'.coldStart && db'.cursor.Some? && (db'.cursor.value >= db.cursor.value || db'.cursor.value == clock.finish)
  {
    hide Stable, Visible, Pulled;
    var pulled := Pulled(Visible(server, db.cursor));
    PulledIsStable(server, db.cursor);
    CursorOfAscending(pulled, clock.finish);
    assert pulled != [] ==> pulled[|pulled| - 1] in pulled;
  }

  /** The first poll of a fresh database can already lose an event for good: it finds an empty server,
      the event is stamped before the clock is read again, and no later poll asks for it. */
  lemma LossIsReachable(none: seq<Event>, one: seq<Event>, e: Event, begin: int, finish: int, clocks: seq<Clock>)
    requires none == [] && one == [e] && 0 < e.ts && begin <= e.ts < finish
    requires forall j :: 0 <= j < |clocks| ==> clocks[j].finish >= finish
    ensures Lost(Completed(FRESH, none, Clock(begin, finish)), e)
    ensures !Settled(Polls(Completed(FRESH, none, Clock(begin, finish)), one, clocks), e)
  {
    NothingSettled(e);
    LateEventLostIff(FRESH, none, Clock(begin, finish), e);
    LostForGood(Completed(FRESH, none, Clock(begin, finish)), one, 0, finish, clocks);
  }
}
