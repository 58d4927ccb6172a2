/** The MISP poll cycle: paging, storing, publishing and the cursor. Times are Unix seconds.
    The server's list, the clock, and where a fetch fails or the context is cancelled are
    chosen by the environment. */
module Poller {
  import opened Text

  const PAGE := 100
  const MAX_PAGES := 5
  const WEEK := 7 * 24 * 3600

  datatype Event = Event(id: string, ts: int, published: bool, body: string)

  /** What a poll reads and writes. `emitted` is what was sent to the matcher; `retracted` is
      what suppressed the alerts of its event. */
  datatype Db = Db(cursor: Option<int>, coldStart: bool, stored: map<string, Event>, emitted: seq<Event>,
                   retracted: seq<Event>)

  /** One pulled event. */
  function Handle(db: Db, e: Event): Db {
    if e.id in db.stored && !e.published then db.(stored := db.stored[e.id := e], retracted := db.retracted + [e])
    else if e.id in db.stored && db.stored[e.id].ts > e.ts then db
    else db.(stored := db.stored[e.id := e], emitted := db.emitted + [e])
  }

  function HandleAll(db: Db, es: seq<Event>): Db {
    if es == [] then db else Handle(HandleAll(db, es[..|es| - 1]), es[|es| - 1])
  }

  /** The server's answer: events changed at or after `since`, in the server's order. */
  function Visible(server: seq<Event>, since: Option<int>): seq<Event> {
    if server == [] then []
    else (if Changed(server[0], since) then [server[0]] else []) + Visible(server[1..], since)
  }

  predicate Changed(e: Event, since: Option<int>) {
    since.None? || e.ts >= since.value
  }

  function Min(a: nat, b: nat): nat {
    if a < b then a else b
  }

  function Page(visible: seq<Event>, page: nat): seq<Event> {
    visible[Min(page * PAGE, |visible|)..Min((page + 1) * PAGE, |visible|)]
  }

  /** What a poll that is not interrupted pulls. */
  function Pulled(visible: seq<Event>): seq<Event> {
    visible[..Min(MAX_PAGES * PAGE, |visible|)]
  }

  function MaxTs(es: seq<Event>): int {
    if es == [] then 0
    else var m := MaxTs(es[..|es| - 1]); if es[|es| - 1].ts > m then es[|es| - 1].ts else m
  }

  predicate LastPageFull(pulled: seq<Event>) {
    pulled != [] && |pulled| % PAGE == 0
  }

  /** Only a poll whose last page was short may move the cursor to the current time. */
  function NewCursor(pulled: seq<Event>, now: int): int {
    if LastPageFull(pulled) && MaxTs(pulled) > 0 then MaxTs(pulled) else now
  }

  /** The two readings of the clock in one poll: at the cold start's limit and at the cursor. */
  datatype Clock = Clock(begin: int, finish: int)

  function Since(db: Db, begin: int): Option<int> {
    if db.coldStart then Some(begin - WEEK) else db.cursor
  }

  function Completed(db: Db, server: seq<Event>, clock: Clock): Db {
    var pulled := Pulled(Visible(server, Since(db, clock.begin)));
    HandleAll(db, pulled).(cursor := Some(NewCursor(pulled, clock.finish)), coldStart := false)
  }

  ghost predicate StoredOnly(db: Db, e: Event, db': Db) {
    Handle(db, e).emitted != db.emitted && db' == db.(stored := db.stored[e.id := e])
  }

  /** The first n of these events are handled; the next may have been stored without being sent. */
  ghost predicate PartWay(db: Db, db': Db, es: seq<Event>, n: nat) {
    n <= |es| && (db' == HandleAll(db, es[..n]) || (n < |es| && StoredOnly(HandleAll(db, es[..n]), es[n], db')))
  }

  /** An interrupted poll has handled some of what it would have pulled. */
  ghost predicate StoppedIn(db: Db, db': Db, pulled: seq<Event>) {
    exists n: nat :: n <= |pulled| && PartWay(db, db', pulled, n)
  }

  lemma StoppedHere(db: Db, db': Db, pulled: seq<Event>, n: nat)
    requires n <= |pulled| && PartWay(db, db', pulled, n)
    ensures StoppedIn(db, db', pulled)
  {
  }

  // ----- Pages of a list that may change from fetch to fetch -----

  /** The server's list at the time of each fetch of a poll. */
  type Snapshots = s: seq<seq<Event>> | |s| == MAX_PAGES witness [[], [], [], [], []]

  /** What the pages from this one on bring, when the list at the time of each fetch is given. */
  function PulledFrom(lists: Snapshots, since: Option<int>, page: nat): seq<Event>
    decreases MAX_PAGES - page
  {
    if page >= MAX_PAGES then []
    else
      var events := Page(Visible(lists[page], since), page);
      if |events| < PAGE then events else events + PulledFrom(lists, since, page + 1)
  }

  function CompletedOver(db: Db, lists: Snapshots, clock: Clock): Db {
    var pulled := PulledFrom(lists, Since(db, clock.begin), 0);
    HandleAll(db, pulled).(cursor := Some(NewCursor(pulled, clock.finish)), coldStart := false)
  }

  /** The pages of a list that stays the same are consecutive slices of it. */
  lemma {:induction false} SteadyPages(lists: Snapshots, since: Option<int>, page: nat, visible: seq<Event>)
    requires page <= MAX_PAGES && page * PAGE <= |visible|
    requires forall p :: page <= p < MAX_PAGES ==> Visible(lists[p], since) == visible
    ensures PulledFrom(lists, since, page) == visible[page * PAGE..Min(MAX_PAGES * PAGE, |visible|)]
    decreases MAX_PAGES - page
  {
    hide Visible;
    if page < MAX_PAGES && (page + 1) * PAGE <= |visible| {
      SteadyPages(lists, since, page + 1, visible);
      assert visible[page * PAGE..(page + 1) * PAGE] + visible[(page + 1) * PAGE..Min(MAX_PAGES * PAGE, |visible|)]
          == visible[page * PAGE..Min(MAX_PAGES * PAGE, |visible|)];
    }
  }

  lemma CompletedSteady(db: Db, lists: Snapshots, server: seq<Event>, clock: Clock)
    requires forall p :: 0 <= p < MAX_PAGES ==> lists[p] == server
    ensures CompletedOver(db, lists, clock) == Completed(db, server, clock)
  {
    hide Visible, HandleAll, NewCursor;
    SteadyPages(lists, Since(db, clock.begin), 0, Visible(server, Since(db, clock.begin)));
  }

  /** All pages before this one were full and are the first `n` pulled events; the rest is still ahead. */
  ghost predicate Ahead(pulled: seq<Event>, lists: Snapshots, since: Option<int>, page: nat, n: nat) {
    n == page * PAGE && n <= |pulled| && pulled[n..] == PulledFrom(lists, since, page)
  }

  /** The next page among all that is pulled. */
  lemma NextPage(pulled: seq<Event>, lists: Snapshots, since: Option<int>, page: nat, n: nat)
    requires page < MAX_PAGES && Ahead(pulled, lists, since, page, n)
    ensures var events := Page(Visible(lists[page], since), page);
      && |events| <= PAGE && n + |events| <= |pulled| && events == pulled[n..n + |events|]
      && (|events| < PAGE ==> n + |events| == |pulled|)
      && (|events| == PAGE ==> Ahead(pulled, lists, since, page + 1, n + PAGE))
  {
    hide Visible;
    var events, rest := Page(Visible(lists[page], since), page), pulled[n..];
    assert events == rest[..|events|] && rest[..|events|] == pulled[n..n + |events|];
    if |events| == PAGE {
      assert rest[PAGE..] == pulled[n + PAGE..] && rest[PAGE..] == PulledFrom(lists, since, page + 1);
    }
  }

  lemma AheadCount(pulled: seq<Event>, lists: Snapshots, since: Option<int>, page: nat, n: nat)
    requires Ahead(pulled, lists, since, page, n)
    ensures n == page * PAGE && n <= |pulled|
  {
  }

  lemma AtTheStart(lists: Snapshots, since: Option<int>)
    ensures Ahead(PulledFrom(lists, since, 0), lists, since, 0, 0)
  {
    hide PulledFrom;
    assert PulledFrom(lists, since, 0)[0..] == PulledFrom(lists, since, 0);
  }

  /** Everything is pulled, and `full` says whether the last page was full. */
  ghost predicate AllPulled(pulled: seq<Event>, n: nat, full: bool) {
    n == |pulled| && full == LastPageFull(pulled)
  }

  lemma ShortPage(pulled: seq<Event>, page: nat, n: nat, count: nat)
    requires n == page * PAGE && count < PAGE && n + count == |pulled|
    ensures AllPulled(pulled, n + count, count == 0 && page > 0)
  {
  }

  lemma AtTheEnd(pulled: seq<Event>, lists: Snapshots, since: Option<int>, n: nat)
    requires Ahead(pulled, lists, since, MAX_PAGES, n)
    ensures AllPulled(pulled, n, true)
  {
  }

  lemma HandleSnoc(db: Db, es: seq<Event>, n: nat)
    requires n < |es|
    ensures HandleAll(db, es[..n + 1]) == Handle(HandleAll(db, es[..n]), es[n])
    ensures MaxTs(es[..n + 1]) == if es[n].ts > MaxTs(es[..n]) then es[n].ts else MaxTs(es[..n])
  {
    assert es[..n + 1][..n] == es[..n];
  }

  /** The first n pulled events are handled, and `max` is the largest timestamp among them. */
  ghost predicate HandledTo(before: Db, after: Db, pulled: seq<Event>, n: nat, max: int)
    requires n <= |pulled|
  {
    after == HandleAll(before, pulled[..n]) && max == MaxTs(pulled[..n])
  }

  /** Everything pulled is handled, with its largest timestamp and whether the last page was full. */
  ghost predicate PulledAll(before: Db, after: Db, pulled: seq<Event>, max: int, full: bool) {
    after == HandleAll(before, pulled) && max == MaxTs(pulled) && full == LastPageFull(pulled)
  }

  /** The pages before this one were full, and all their events are handled. */
  ghost predicate Going(before: Db, now: Db, pulled: seq<Event>, lists: Snapshots, since: Option<int>, page: nat,
                        n: nat, max: int, full: bool)
  {
    && page <= MAX_PAGES && n <= |pulled| && Ahead(pulled, lists, since, page, n)
    && HandledTo(before, now, pulled, n, max) && full == (page > 0)
  }

  lemma GoingStarts(before: Db, lists: Snapshots, since: Option<int>)
    ensures Going(before, before, PulledFrom(lists, since, 0), lists, since, 0, 0, 0, false)
  {
    AtTheStart(lists, since);
  }

  lemma GoingEnds(before: Db, now: Db, pulled: seq<Event>, lists: Snapshots, since: Option<int>, page: nat,
                  n: nat, max: int, full: bool)
    requires page >= MAX_PAGES && Going(before, now, pulled, lists, since, page, n, max, full)
    ensures PulledAll(before, now, pulled, max, full)
  {
    AtTheEnd(pulled, lists, since, n);
    HandledAll(before, now, pulled, n, max, full);
  }

  lemma HandledAll(before: Db, after: Db, pulled: seq<Event>, n: nat, max: int, full: bool)
    requires n <= |pulled| && HandledTo(before, after, pulled, n, max) && AllPulled(pulled, n, full)
    ensures PulledAll(before, after, pulled, max, full)
  {
    assert pulled[..n] == pulled;
  }

  lemma StoppedAt(before: Db, after: Db, pulled: seq<Event>, n: nat, max: int)
    requires n <= |pulled| && HandledTo(before, after, pulled, n, max)
    ensures StoppedIn(before, after, pulled)
  {
    assert PartWay(before, after, pulled, n);
  }

  /** The environment's choices in one poll: the page whose fetch fails, if any, and whether the context is
      cancelled before, or while sending, the n-th event. */
  datatype Trouble = Trouble(failPage: Option<nat>, cancelled: nat -> bool, cancelledSend: nat -> bool)

  /** The context is never cancelled, neither between events nor during a send. */
  ghost predicate Undisturbed(t: Trouble) {
    forall n :: !t.cancelled(n) && !t.cancelledSend(n)
  }

  class MISPPoller {
    var cursor: Option<int>
    var coldStart: bool
    var stored: map<string, Event>
    var emitted: seq<Event>
    var retracted: seq<Event>

    constructor ()
      ensures Contents() == Db(None, true, map[], [], [])
    {
      cursor, coldStart, stored, emitted, retracted := None, true, map[], [], [];
    }

    ghost function Contents(): Db
      reads this
    {
      Db(cursor, coldStart, stored, emitted, retracted)
    }

    /** Run skips the cold start when a cursor was saved by an earlier run. */
    method Resume()
      modifies this`coldStart
      ensures coldStart == (old(coldStart) && cursor.None?)
    {
      if coldStart && cursor.Some? {
        coldStart := false;
      }
    }

    /** One event; the result is false when the context is cancelled while sending it. */
    method HandleEvent(e: Event, cancelSend: bool) returns (ok: bool)
      modifies this
      ensures ok ==> Contents() == Handle(old(Contents()), e)
      ensures !ok ==> cancelSend && StoredOnly(old(Contents()), e, Contents())
    {
      if e.id in stored && !e.published {
        stored := stored[e.id := e];
        retracted := retracted + [e];
        return true;
      }
      if e.id in stored && stored[e.id].ts > e.ts {
        return true;
      }
      stored := stored[e.id := e];
      if cancelSend {
        assert (old(emitted) + [e])[|old(emitted)|] == e;
        return false;
      }
      emitted := emitted + [e];
      return true;
    }

    /** One page, whose events are pulled[first..]. */
    method HandlePage(ghost before: Db, ghost pulled: seq<Event>, first: nat, events: seq<Event>, maxSoFar: int,
                      trouble: Trouble)
      returns (ok: bool, maxTimestamp: int)
      requires first + |events| <= |pulled| && events == pulled[first..first + |events|]
      requires HandledTo(before, Contents(), pulled, first, maxSoFar)
      modifies this
      ensures ok ==> HandledTo(before, Contents(), pulled, first + |events|, maxTimestamp)
      ensures !ok ==> StoppedIn(before, Contents(), pulled)
      ensures Undisturbed(trouble) ==> ok
    {
      hide HandleAll, MaxTs, StoppedIn, Handle;
      maxTimestamp := maxSoFar;
      var i := 0;
      while i < |events|
        invariant 0 <= i <= |events|
        invariant Contents() == HandleAll(before, pulled[..first + i])
        invariant maxTimestamp == MaxTs(pulled[..first + i])
      {
        assert events[i] == pulled[first + i];
        HandleSnoc(before, pulled, first + i);
        if trouble.cancelled(first + i) {
          StoppedHere(before, Contents(), pulled, first + i);
          return false, maxTimestamp;
        }
        if events[i].ts > maxTimestamp {
          maxTimestamp := events[i].ts;
        }
        var sent := HandleEvent(events[i], trouble.cancelledSend(first + i));
        if !sent {
          StoppedHere(before, Contents(), pulled, first + i);
          return false, maxTimestamp;
        }
        i := i + 1;
      }
      return true, maxTimestamp;
    }

    /** One fetch and its page: the body of the pagination loop. The loop goes on while pages are full. */
    method PullPage(ghost before: Db, ghost pulled: seq<Event>, lists: Snapshots, since: Option<int>, page: nat,
                    ghost first: nat, maxSoFar: int, fullSoFar: bool, trouble: Trouble)
      returns (ok: bool, goOn: bool, ghost next: nat, maxTimestamp: int, lastPageFull: bool)
      requires page < MAX_PAGES && Going(before, Contents(), pulled, lists, since, page, first, maxSoFar, fullSoFar)
      modifies this
      ensures ok && goOn ==>
        Going(before, Contents(), pulled, lists, since, page + 1, next, maxTimestamp, lastPageFull)
      ensures ok && !goOn ==> PulledAll(before, Contents(), pulled, maxTimestamp, lastPageFull)
      ensures !ok ==> StoppedIn(before, Contents(), pulled)
      ensures trouble.failPage != Some(page) && Undisturbed(trouble) ==> ok
    {
      hide HandleAll, MaxTs, StoppedIn, Page, PulledFrom, Undisturbed, HandledTo, Ahead, Visible, AllPulled, PulledAll;
      NextPage(pulled, lists, since, page, first);
      AheadCount(pulled, lists, since, page, first);
      goOn, next, maxTimestamp, lastPageFull := false, first, maxSoFar, fullSoFar;
      if trouble.failPage == Some(page) {
        StoppedAt(before, Contents(), pulled, first, maxSoFar);
        return false, false, first, maxSoFar, fullSoFar;
      }
      var events := Page(Visible(lists[page], since), page);
      next := first + |events|;
      if |events| < PAGE {
        ShortPage(pulled, page, first, |events|);
      }
      if |events| == 0 {
        HandledAll(before, Contents(), pulled, next, maxTimestamp, lastPageFull);
        return true, false, next, maxTimestamp, lastPageFull;
      }
      lastPageFull := |events| == PAGE;
      ok, maxTimestamp := HandlePage(before, pulled, page * PAGE, events, maxTimestamp, trouble);
      goOn := ok && |events| == PAGE;
      if ok && |events| < PAGE {
        HandledAll(before, Contents(), pulled, next, maxTimestamp, lastPageFull);
      }
    }

    /** The pagination loop. `lists` gives the server's list at the time of each fetch. */
    method PullPages(lists: Snapshots, since: Option<int>, trouble: Trouble)
      returns (ok: bool, maxTimestamp: int, lastPageFull: bool)
      modifies this
      ensures ok ==> PulledAll(old(Contents()), Contents(), PulledFrom(lists, since, 0), maxTimestamp, lastPageFull)
      ensures !ok ==> StoppedIn(old(Contents()), Contents(), PulledFrom(lists, since, 0))
      ensures trouble.failPage.None? && Undisturbed(trouble) ==> ok
    {
      hide *;
      ghost var before, pulled, handled: nat := Contents(), PulledFrom(lists, since, 0), 0;
      GoingStarts(before, lists, since);
      ok, maxTimestamp, lastPageFull := true, 0, false;
      var page: nat, goOn := 0, true;
      while page < MAX_PAGES && ok && goOn
        decreases MAX_PAGES - page
        invariant ok && goOn ==>
          Going(before, Contents(), pulled, lists, since, page, handled, maxTimestamp, lastPageFull)
        invariant ok && !goOn ==> PulledAll(before, Contents(), pulled, maxTimestamp, lastPageFull)
        invariant !ok ==> StoppedIn(before, Contents(), pulled)
        invariant trouble.failPage.None? && Undisturbed(trouble) ==> ok
      {
        ok, goOn, handled, maxTimestamp, lastPageFull :=
          PullPage(before, pulled, lists, since, page, handled, maxTimestamp, lastPageFull, trouble);
        page := page + 1;
      }
      if ok && goOn {
        GoingEnds(before, Contents(), pulled, lists, since, page, handled, maxTimestamp, lastPageFull);
      }
    }

    /** One poll; see PullPages for the environment's choices. */
    method Poll(lists: Snapshots, clock: Clock, trouble: Trouble)
      returns (ok: bool)
      modifies this
      ensures ok ==> Contents() == CompletedOver(old(Contents()), lists, clock)
      ensures !ok ==> StoppedIn(old(Contents()), Contents(), PulledFrom(lists, Since(old(Contents()), clock.begin), 0))
      ensures trouble.failPage.None? && Undisturbed(trouble) ==> ok
    {
      hide PulledFrom;
      var since := if coldStart then Some(clock.begin - WEEK) else cursor;
      var maxTimestamp, lastPageFull;
      ok, maxTimestamp, lastPageFull := PullPages(lists, since, trouble);
      if !ok {
        return false;
      }
      cursor := Some(if lastPageFull && maxTimestamp > 0 then maxTimestamp else clock.finish);
      coldStart := false;
    }
  }

  // ----- What one event does -----

  /** An event is settled when it was sent, or retracted its alerts, or a newer version is stored. */
  ghost predicate Settled(db: Db, e: Event) {
    e in db.emitted || e in db.retracted || (e.id in db.stored && db.stored[e.id].ts > e.ts)
  }

  lemma HandleSettles(db: Db, e: Event)
    ensures Settled(Handle(db, e), e)
  {
    assert (db.emitted + [e])[|db.emitted|] == e;
    assert (db.retracted + [e])[|db.retracted|] == e;
  }

  lemma HandleKeepsOthers(db: Db, e: Event, other: Event)
    requires e.id != other.id && Settled(db, other)
    ensures Settled(Handle(db, e), other)
  {
  }

  /** The stored timestamp of an ID falls exactly when an older, unpublished version of it arrives. */
  lemma StoredFallsIff(db: Db, e: Event, id: string)
    requires id in db.stored
    ensures id in Handle(db, e).stored
    ensures Handle(db, e).stored[id].ts < db.stored[id].ts <==> e.id == id && !e.published && e.ts < db.stored[id].ts
  {
  }

  lemma {:induction false} StoredNeverFalls(db: Db, es: seq<Event>, id: string)
    requires id in db.stored && forall i :: 0 <= i < |es| && es[i].id == id ==> es[i].published
    ensures id in HandleAll(db, es).stored && HandleAll(db, es).stored[id].ts >= db.stored[id].ts
  {
    if es != [] {
      StoredNeverFalls(db, es[..|es| - 1], id);
      StoredFallsIff(HandleAll(db, es[..|es| - 1]), es[|es| - 1], id);
    }
  }

  /** An event that is handled, and no other version of it, is settled. */
  lemma {:induction false} AllSettled(db: Db, es: seq<Event>, k: nat)
    requires k < |es| && forall i :: 0 <= i < |es| && i != k ==> es[i].id != es[k].id
    ensures Settled(HandleAll(db, es), es[k])
  {
    var init := es[..|es| - 1];
    if k == |es| - 1 {
      HandleSettles(HandleAll(db, init), es[k]);
    } else {
      AllSettled(db, init, k);
      HandleKeepsOthers(HandleAll(db, init), es[|es| - 1], es[k]);
    }
  }

  lemma {:induction false} OthersStaySettled(db: Db, es: seq<Event>, other: Event)
    requires Settled(db, other) && forall i :: 0 <= i < |es| ==> es[i].id != other.id
    ensures Settled(HandleAll(db, es), other)
  {
    if es != [] {
      OthersStaySettled(db, es[..|es| - 1], other);
      HandleKeepsOthers(HandleAll(db, es[..|es| - 1]), es[|es| - 1], other);
    }
  }

  lemma {:induction false} HandleAllKeepsCursor(db: Db, es: seq<Event>)
    ensures HandleAll(db, es).cursor == db.cursor && HandleAll(db, es).coldStart == db.coldStart
  {
    if es != [] { HandleAllKeepsCursor(db, es[..|es| - 1]); }
  }

  // ----- Nothing is lost once the cold start is over -----

  /** The list the server serves: one entry an event, ascending positive timestamps. */
  ghost predicate Stable(server: seq<Event>) {
    && (forall i :: 0 <= i < |server| ==> server[i].ts > 0)
    && (forall i, j :: 0 <= i < j < |server| ==> server[i].ts <= server[j].ts && server[i].id != server[j].id)
  }

  lemma StableTail(server: seq<Event>)
    requires Stable(server) && server != []
    ensures Stable(server[1..])
  {
  }

  lemma {:induction false} AllVisible(server: seq<Event>, since: Option<int>)
    requires forall i :: 0 <= i < |server| ==> Changed(server[i], since)
    ensures Visible(server, since) == server
  {
    if server != [] {
      AllVisible(server[1..], since);
      assert Changed(server[0], since);
      assert [server[0]] + server[1..] == server;
    }
  }

  function FirstVisible(server: seq<Event>, since: Option<int>): (k: nat)
    ensures k <= |server|
    ensures forall i :: 0 <= i < k ==> !Changed(server[i], since)
    ensures k < |server| ==> Changed(server[k], since)
  {
    if server == [] || Changed(server[0], since) then 0
    else
      var k := FirstVisible(server[1..], since);
      assert forall i :: 0 < i < |server| ==> server[i] == server[1..][i - 1];
      k + 1
  }

  lemma ChangedOnwards(server: seq<Event>, since: Option<int>)
    requires Stable(server) && server != [] && Changed(server[0], since)
    ensures Visible(server, since) == server
  {
    forall i | 0 <= i < |server| ensures Changed(server[i], since) {
      assert i > 0 ==> server[0].ts <= server[i].ts;
    }
    AllVisible(server, since);
  }

  lemma TailOfTail(server: seq<Event>, k: nat)
    requires server != [] && k <= |server| - 1
    ensures server[1..][k..] == server[k + 1..]
  {
  }

  /** The visible events are the tail of the server's list. */
  lemma {:induction false} VisibleIsSuffix(server: seq<Event>, since: Option<int>)
    requires Stable(server)
    ensures Visible(server, since) == server[FirstVisible(server, since)..]
  {
    if server == [] {
    } else if Changed(server[0], since) {
      ChangedOnwards(server, since);
    } else {
      hide Stable, Changed;
      StableTail(server);
      VisibleIsSuffix(server[1..], since);
      TailOfTail(server, FirstVisible(server[1..], since));
    }
  }

  lemma {:induction false} MaxOfAscending(es: seq<Event>)
    requires es != [] && Stable(es)
    ensures MaxTs(es) == es[|es| - 1].ts
  {
    if |es| > 1 { MaxOfAscending(es[..|es| - 1]); }
  }

  /** Every server event not older than the floor is settled, or the next poll will see it again. */
  ghost predicate NothingLost(db: Db, server: seq<Event>, floor: int) {
    db.cursor.Some? && forall i :: 0 <= i < |server| && server[i].ts >= floor ==>
      Settled(db, server[i]) || server[i].ts >= db.cursor.value
  }

  lemma PulledIsSlice(server: seq<Event>, since: Option<int>)
    requires Stable(server)
    ensures var k, pulled := FirstVisible(server, since), Pulled(Visible(server, since));
      && k + |pulled| <= |server| && pulled == server[k..k + |pulled|]
      && (k + |pulled| < |server| ==> |pulled| == MAX_PAGES * PAGE)
  {
    VisibleIsSuffix(server, since);
  }

  lemma StableSlice(server: seq<Event>, k: nat, n: nat)
    requires Stable(server) && k + n <= |server|
    ensures Stable(server[k..k + n])
  {
  }

  /** Of the events a completed poll can see, the pulled ones are settled and the others are not
      older than the new cursor. */
  lemma SeenOrKept(db: Db, server: seq<Event>, clock: Clock, i: nat)
    requires Stable(server) && i < |server| && Changed(server[i], Since(db, clock.begin))
    ensures var db' := Completed(db, server, clock); Settled(db', server[i]) || server[i].ts >= db'.cursor.value
  {
    hide Visible, Pulled, Stable, Settled, HandleAll, NewCursor;
    var since := Since(db, clock.begin);
    var k, pulled := FirstVisible(server, since), Pulled(Visible(server, since));
    PulledIsSlice(server, since);
    FirstIsFirst(server, since, i);
    if i < k + |pulled| {
      StableSlice(server, k, |pulled|);
      assert pulled[i - k] == server[i];
      PulledSettled(db, pulled, i - k);
      CursorIrrelevant(HandleAll(db, pulled), Some(NewCursor(pulled, clock.finish)), false, server[i]);
    } else {
      FullCursor(server, k, pulled, clock.finish, i);
    }
  }

  lemma FirstIsFirst(server: seq<Event>, since: Option<int>, i: nat)
    requires i < |server| && Changed(server[i], since)
    ensures FirstVisible(server, since) <= i
  {
    hide Changed;
  }

  lemma CursorIrrelevant(db: Db, cursor: Option<int>, coldStart: bool, e: Event)
    ensures Settled(db.(cursor := cursor, coldStart := coldStart), e) == Settled(db, e)
  {
  }

  /** When a poll leaves visible events behind, its cursor is the stamp of the last one it pulled. */
  lemma FullCursor(server: seq<Event>, k: nat, pulled: seq<Event>, finish: int, i: nat)
    requires Stable(server) && |pulled| == MAX_PAGES * PAGE && k + |pulled| <= i < |server|
    requires pulled == server[k..k + |pulled|]
    ensures NewCursor(pulled, finish) == server[k + |pulled| - 1].ts <= server[i].ts
  {
    hide Stable;
    StableSlice(server, k, |pulled|);
    MaxOfAscending(pulled);
    Ascending(server, k + |pulled| - 1, i);
  }

  lemma PulledSettled(db: Db, pulled: seq<Event>, k: nat)
    requires Stable(pulled) && k < |pulled|
    ensures Settled(HandleAll(db, pulled), pulled[k])
  {
    AllSettled(db, pulled, k);
  }

  lemma Ascending(server: seq<Event>, i: nat, j: nat)
    requires Stable(server) && i < j < |server|
    ensures 0 < server[i].ts <= server[j].ts
  {
  }

  /** Events a poll cannot see stay settled. */
  lemma UnseenStaySettled(db: Db, server: seq<Event>, since: Option<int>, n: nat, i: nat)
    requires Stable(server) && i < |server| && !Changed(server[i], since)
    requires n <= |Visible(server, since)| && Settled(db, server[i])
    ensures Settled(HandleAll(db, Visible(server, since)[..n]), server[i])
  {
    var k := FirstVisible(server, since);
    VisibleIsSuffix(server, since);
    var es := Visible(server, since)[..n];
    forall x | 0 <= x < |es| ensures es[x].id != server[i].id {
      assert es[x] == server[k + x];
      assert Stable(server);
    }
    OthersStaySettled(db, es, server[i]);
  }

  /** A completed poll loses nothing: the cold start covers the last week, later polls what was
      covered before. */
  lemma CompletedLosesNothing(db: Db, server: seq<Event>, clock: Clock, floor: int)
    requires Stable(server)
    requires if db.coldStart then floor == clock.begin - WEEK else NothingLost(db, server, floor)
    ensures NothingLost(Completed(db, server, clock), server, floor)
  {
    var db' := Completed(db, server, clock);
    forall i | 0 <= i < |server| && server[i].ts >= floor
      ensures Settled(db', server[i]) || server[i].ts >= db'.cursor.value
    {
      if Changed(server[i], Since(db, clock.begin)) {
        SeenOrKept(db, server, clock, i);
      } else {
        var visible := Visible(server, Since(db, clock.begin));
        UnseenStaySettled(db, server, Since(db, clock.begin), |Pulled(visible)|, i);
      }
    }
  }

  /** An interrupted poll keeps the cursor and loses nothing. */
  lemma StoppedLosesNothing(db: Db, db': Db, server: seq<Event>, begin: int, floor: int)
    requires Stable(server) && StoppedIn(db, db', Pulled(Visible(server, Since(db, begin))))
    ensures db'.cursor == db.cursor && db'.coldStart == db.coldStart
    ensures !db.coldStart && NothingLost(db, server, floor) ==> NothingLost(db', server, floor)
  {
    var visible := Visible(server, Since(db, begin));
    var n: nat :| n <= |Pulled(visible)| && PartWay(db, db', Pulled(visible), n);
    assert Pulled(visible)[..n] == visible[..n];
    HandleAllKeepsCursor(db, visible[..n]);
    if !db.coldStart && NothingLost(db, server, floor) {
      forall i | 0 <= i < |server| && floor <= server[i].ts < db.cursor.value ensures Settled(db', server[i]) {
        UnseenStaySettled(db, server, Since(db, begin), n, i);
        if db' != HandleAll(db, visible[..n]) {
          NextIsOther(server, Since(db, begin), n, i);
        }
      }
    }
  }

  lemma NextIsOther(server: seq<Event>, since: Option<int>, n: nat, i: nat)
    requires Stable(server) && n < |Visible(server, since)| && i < |server| && !Changed(server[i], since)
    ensures Visible(server, since)[n].id != server[i].id
  {
    VisibleIsSuffix(server, since);
    assert Visible(server, since)[n] == server[FirstVisible(server, since) + n];
  }

  // ----- Whole runs -----

  /** The poller's database, the server's list, and the age limit the cold start set. */
  datatype World = World(db: Db, server: seq<Event>, floor: int)

  /** A completed poll, an interrupted poll, or a change on the server; what changes on the server
      is stamped no earlier than the cursor of the last completed poll. */
  ghost predicate Step(w: World, w': World) {
    || (exists clock: Clock ::
        w' == World(Completed(w.db, w.server, clock), w.server, if w.db.coldStart then clock.begin - WEEK else w.floor))
    || (w'.server == w.server && w'.floor == w.floor
        && exists begin :: StoppedIn(w.db, w'.db, Pulled(Visible(w.server, Since(w.db, begin)))))
    || (w'.db == w.db && w'.floor == w.floor && Stable(w'.server)
        && forall e :: e in w'.server ==> e in w.server || w.db.cursor.None? || e.ts >= w.db.cursor.value)
  }

  ghost predicate Safe(w: World) {
    Stable(w.server) && (!w.db.coldStart ==> NothingLost(w.db, w.server, w.floor))
  }

  lemma SafeStep(w: World, w': World)
    requires Safe(w) && Step(w, w')
    ensures Safe(w')
  {
    if clock: Clock :|
      w' == World(Completed(w.db, w.server, clock), w.server, if w.db.coldStart then clock.begin - WEEK else w.floor) {
      CompletedLosesNothing(w.db, w.server, clock, w'.floor);
    } else if begin :|
      w'.server == w.server && w'.floor == w.floor
      && StoppedIn(w.db, w'.db, Pulled(Visible(w.server, Since(w.db, begin)))) {
      StoppedLosesNothing(w.db, w'.db, w.server, begin, w.floor);
    } else {
      forall i | 0 <= i < |w'.server| && !w.db.coldStart && w'.server[i].ts >= w.floor
        ensures Settled(w.db, w'.server[i]) || w'.server[i].ts >= w.db.cursor.value
      {
        assert w'.server[i] in w'.server;
      }
    }
  }

  /** Over every run, once the cold start is over, every event the server holds, back to one week
      before the cold start, is settled or will be seen by the next poll. */
  lemma {:induction false} NoEventLost(worlds: seq<World>, k: nat)
    requires k < |worlds| && Safe(worlds[0])
    requires forall i :: 0 <= i < |worlds| - 1 ==> Step(worlds[i], worlds[i + 1])
    ensures Safe(worlds[k])
  {
    if k > 0 {
      NoEventLost(worlds, k - 1);
      SafeStep(worlds[k - 1], worlds[k]);
    }
  }

  // ----- Progress -----

  lemma ChangedFrom(server: seq<Event>, since: Option<int>, i: nat)
    requires Stable(server) && FirstVisible(server, since) <= i < |server|
    ensures Changed(server[i], since)
  {
    assert server[FirstVisible(server, since)].ts <= server[i].ts;
  }

  /** What a poll pulls is ascending, and all of it has changed since the cursor. */
  lemma PulledIsStable(server: seq<Event>, since: Option<int>)
    requires Stable(server)
    ensures Stable(Pulled(Visible(server, since)))
    ensures forall e :: e in Pulled(Visible(server, since)) ==> e in server && Changed(e, since)
  {
    hide Stable, Pulled, Visible, Changed;
    var k, pulled := FirstVisible(server, since), Pulled(Visible(server, since));
    PulledIsSlice(server, since);
    StableSlice(server, k, |pulled|);
    forall e | e in pulled ensures e in server && Changed(e, since) {
      var i :| 0 <= i < |pulled| && pulled[i] == e;
      assert server[k + i] == e;
      ChangedFrom(server, since, k + i);
    }
  }

  lemma CursorOfAscending(pulled: seq<Event>, now: int)
    requires Stable(pulled)
    ensures NewCursor(pulled, now) == if LastPageFull(pulled) then pulled[|pulled| - 1].ts else now
  {
    if pulled != [] {
      MaxOfAscending(pulled);
    }
  }

  /** When the server's clock is not ahead, neither is the cursor. */
  lemma CursorNotAhead(db: Db, server: seq<Event>, clock: Clock)
    requires Stable(server) && forall e :: e in server ==> e.ts <= clock.finish
    ensures Completed(db, server, clock).cursor.value <= clock.finish
  {
    hide Stable, Pulled, Visible;
    var pulled := Pulled(Visible(server, Since(db, clock.begin)));
    PulledIsStable(server, Since(db, clock.begin));
    CursorOfAscending(pulled, clock.finish);
    assert pulled != [] ==> pulled[|pulled| - 1] in pulled;
  }

  /** A completed poll at a later time moves the cursor forward, except exactly when its last page
      was full and everything it pulled carries the cursor's own stamp. */
  lemma ProgressIff(db: Db, server: seq<Event>, clock: Clock)
    requires Stable(server) && !db.coldStart && db.cursor.Some? && db.cursor.value < clock.finish
    ensures var pulled := Pulled(Visible(server, db.cursor));
      Completed(db, server, clock).cursor.value > db.cursor.value
      <==> !(LastPageFull(pulled) && pulled[|pulled| - 1].ts == db.cursor.value)
  {
    hide Stable, Pulled, Visible;
    var pulled := Pulled(Visible(server, db.cursor));
    PulledIsStable(server, db.cursor);
    CursorOfAscending(pulled, clock.finish);
    assert pulled != [] ==> pulled[|pulled| - 1] in pulled;
  }
}
