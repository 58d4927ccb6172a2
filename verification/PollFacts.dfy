/** What a poll does, on the events themselves: which versions are sent to the matcher, which retract their
    alerts, which are passed over, and where the cursor goes. */
module PollFacts {
  import opened Text
  import opened Poller

  /** A version of the event with this ID is stored already or comes before position k. */
  ghost predicate SeenBefore(db: Db, es: seq<Event>, id: string, k: nat)
    requires k <= |es|
  {
    id in db.stored || exists j :: 0 <= j < k && es[j].id == id
  }

  /** No version that is stored already or comes before position k is newer than this time. */
  ghost predicate NoneNewer(db: Db, es: seq<Event>, id: string, k: nat, ts: int)
    requires k <= |es|
  {
    && (id in db.stored ==> db.stored[id].ts <= ts)
    && forall j :: 0 <= j < k && es[j].id == id ==> es[j].ts <= ts
  }

  ghost predicate AllPublished(es: seq<Event>, id: string, k: nat)
    requires k <= |es|
  {
    forall j :: 0 <= j < k && es[j].id == id ==> es[j].published
  }

  lemma StoredByHandle(db: Db, e: Event, id: string)
    ensures id in Handle(db, e).stored <==> id in db.stored || e.id == id
    ensures id in db.stored && id != e.id ==> Handle(db, e).stored[id] == db.stored[id]
    ensures e.published ==>
      Handle(db, e).stored[e.id].ts ==
      if e.id in db.stored && db.stored[e.id].ts > e.ts then db.stored[e.id].ts else e.ts
  {
  }

  lemma {:induction false} StoredIff(db: Db, es: seq<Event>, id: string, k: nat)
    requires k <= |es|
    ensures id in HandleAll(db, es[..k]).stored <==> SeenBefore(db, es, id, k)
  {
    if k > 0 {
      hide Handle;
      StoredIff(db, es, id, k - 1);
      HandleSnoc(db, es, k - 1);
      StoredByHandle(HandleAll(db, es[..k - 1]), es[k - 1], id);
    }
  }

  lemma OneMoreVersion(db: Db, es: seq<Event>, id: string, k: nat, ts: int)
    requires 0 < k <= |es| && AllPublished(es, id, k)
    ensures AllPublished(es, id, k - 1) && (es[k - 1].id == id ==> es[k - 1].published)
    ensures NoneNewer(db, es, id, k, ts) <==>
      NoneNewer(db, es, id, k - 1, ts) && (es[k - 1].id == id ==> es[k - 1].ts <= ts)
  {
  }

  /** While all versions are published, the stored one is not older than any of them, and not newer than all. */
  lemma {:induction false} StoredIsNewest(db: Db, es: seq<Event>, id: string, k: nat, ts: int)
    requires k <= |es| && AllPublished(es, id, k)
    ensures var stored := HandleAll(db, es[..k]).stored;
      NoneNewer(db, es, id, k, ts) <==> (id in stored ==> stored[id].ts <= ts)
  {
    if k == 0 {
      assert es[..0] == [];
    } else {
      hide Handle, HandleAll, AllPublished, NoneNewer;
      OneMoreVersion(db, es, id, k, ts);
      StoredIsNewest(db, es, id, k - 1, ts);
      HandleSnoc(db, es, k - 1);
      var before := HandleAll(db, es[..k - 1]);
      StoredByHandle(before, es[k - 1], id);
    }
  }

  /** What happens to the version at position k of the events a poll handles: unpublished and seen before,
      it retracts its event's alerts; otherwise, if the versions before it are published, it is sent
      exactly when none of them is newer; and nothing else ever happens to it. */
  lemma FateOfVersion(db: Db, es: seq<Event>, k: nat)
    requires k < |es|
    ensures var e, before, after := es[k], HandleAll(db, es[..k]), HandleAll(db, es[..k + 1]);
      if !e.published && SeenBefore(db, es, e.id, k) then
        after.retracted == before.retracted + [e] && after.emitted == before.emitted && after.stored[e.id] == e
      else
        && after.retracted == before.retracted
        && (AllPublished(es, e.id, k) ==>
              if NoneNewer(db, es, e.id, k, e.ts)
              then after.emitted == before.emitted + [e] && after.stored == before.stored[e.id := e]
              else after == before)
  {
    hide HandleAll, AllPublished, NoneNewer, SeenBefore;
    var e := es[k];
    HandleSnoc(db, es, k);
    StoredIff(db, es, e.id, k);
    if AllPublished(es, e.id, k) {
      StoredIsNewest(db, es, e.id, k, e.ts);
    }
  }

  /** The limit a poll asks with: a week back at the cold start, and the cursor afterwards. */
  ghost predicate FirstAsked(db: Db, server: seq<Event>, begin: int, k: nat)
    requires k <= |server|
  {
    var since := if db.coldStart then Some(begin - 604_800) else db.cursor;
    && (forall i :: 0 <= i < k ==> since.Some? && server[i].ts < since.value)
    && (forall i :: k <= i < |server| ==> since.None? || server[i].ts >= since.value)
  }

  lemma AskedAt(db: Db, server: seq<Event>, begin: int, k: nat, i: nat)
    requires k <= |server| && FirstAsked(db, server, begin, k)
    ensures i < |server| ==> (Changed(server[i], Since(db, begin)) <==> k <= i)
  {
  }

  lemma FirstAskedIs(db: Db, server: seq<Event>, begin: int, k: nat)
    requires k <= |server| && FirstAsked(db, server, begin, k)
    ensures FirstVisible(server, Since(db, begin)) == k
  {
    hide FirstVisible, FirstAsked, Changed;
    var since := Since(db, begin);
    var f := FirstVisibleFacts(server, since);
    AskedAt(db, server, begin, k, k);
    AskedAt(db, server, begin, k, f);
  }

  lemma FirstVisibleFacts(server: seq<Event>, since: Option<int>) returns (k: nat)
    ensures k == FirstVisible(server, since) && k <= |server|
    ensures forall i :: 0 <= i < k ==> !Changed(server[i], since)
    ensures k < |server| ==> Changed(server[k], since)
  {
    k := FirstVisible(server, since);
  }

  /** A completed poll of a stable list handles, in order, the first 500 events not older than its limit. The
      cursor goes to the last of them when there are any and they fill whole pages of 100, and to the
      present otherwise. */
  lemma PollOnFacts(db: Db, server: seq<Event>, clock: Clock, k: nat, n: nat)
    requires Stable(server) && k + n <= |server| && FirstAsked(db, server, clock.begin, k)
    requires n == 500 || (n < 500 && k + n == |server|)
    ensures var db', handled := Completed(db, server, clock), HandleAll(db, server[k..k + n]);
      && db'.cursor == Some(if n > 0 && n % 100 == 0 then server[k + n - 1].ts else clock.finish)
      && !db'.coldStart && db'.emitted == handled.emitted && db'.retracted == handled.retracted
      && db'.stored == handled.stored
  {
    hide Stable, HandleAll, Visible, FirstAsked, NewCursor, FirstVisible;
    FirstAskedIs(db, server, clock.begin, k);
    VisibleIsSuffix(server, Since(db, clock.begin));
    assert Pulled(server[k..]) == server[k..k + n];
    StableSlice(server, k, n);
    CursorOfAscending(server[k..k + n], clock.finish);
  }
}
