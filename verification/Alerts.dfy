/** Alert storage and its deduplication window. Times are whole seconds, the resolution of the
    stored timestamps. */
module Alerts {

  datatype Alert = Alert(
    id: string, eventId: string, severity: string, confidence: string, explanation: string, status: string,
    matchedApps: seq<string>, routedTo: seq<string>, action: string, createdAt: int)

  /** The two tables: when each alert ID was last accepted, and the alerts themselves. */
  datatype Tables = Tables(dedup: map<string, int>, alerts: map<string, Alert>)

  predicate Accepts(t: Tables, id: string, ttl: int, now: int) {
    !(id in t.dedup && t.dedup[id] > now - ttl)
  }

  function Saved(t: Tables, a: Alert, ttl: int, now: int): Tables {
    if Accepts(t, a.id, ttl, now) then Tables(t.dedup[a.id := now], t.alerts[a.id := a]) else t
  }

  function Cleaned(t: Tables, ttl: int, now: int): Tables {
    t.(dedup := map id | id in t.dedup && !(t.dedup[id] < now - ttl) :: t.dedup[id])
  }

  function SuppressedFor(t: Tables, eventId: string): Tables {
    t.(alerts := map id | id in t.alerts ::
      if t.alerts[id].eventId == eventId then t.alerts[id].(status := "suppressed") else t.alerts[id])
  }

  function Acked(t: Tables, id: string, status: string): Tables {
    if id !in t.alerts then t
    else t.(alerts := t.alerts[id := t.alerts[id].(status := if status == "" then "acked" else status)])
  }

  class AlertStore {
    var dedup: map<string, int>
    var alerts: map<string, Alert>

    constructor ()
      ensures Contents() == Tables(map[], map[])
    {
      dedup, alerts := map[], map[];
    }

    ghost function Contents(): Tables
      reads this
    {
      Tables(dedup, alerts)
    }

    method SaveAlert(a: Alert, ttl: int, now: int) returns (stored: bool)
      modifies this
      ensures stored <==> Accepts(old(Contents()), a.id, ttl, now)
      ensures Contents() == Saved(old(Contents()), a, ttl, now)
    {
      var cutoff := now - ttl;
      if a.id in dedup && dedup[a.id] > cutoff {
        return false;
      }
      dedup := dedup[a.id := now];
      alerts := alerts[a.id := a];
      return true;
    }

    method CleanDedup(ttl: int, now: int)
      modifies this
      ensures Contents() == Cleaned(old(Contents()), ttl, now)
    {
      var cutoff := now - ttl;
      dedup := map id | id in dedup && !(dedup[id] < cutoff) :: dedup[id];
    }

    method SuppressAlertsForEvent(eventId: string)
      modifies this
      ensures Contents() == SuppressedFor(old(Contents()), eventId)
    {
      alerts := map id | id in alerts ::
        if alerts[id].eventId == eventId then alerts[id].(status := "suppressed") else alerts[id];
    }

    /** The acknowledgement handler's update; an empty status means "acked". */
    method Ack(id: string, status: string)
      modifies this
      ensures Contents() == Acked(old(Contents()), id, status)
    {
      if id in alerts {
        alerts := alerts[id := alerts[id].(status := if status == "" then "acked" else status)];
      }
    }
  }

  // ----- Whole runs -----

  datatype Action =
    | Save(alert: Alert, at: int)
    | Clean(ttl: int, at: int)
    | Suppress(eventId: string, at: int)
    | Acknowledge(id: string, status: string, at: int)

  function Step(t: Tables, a: Action, ttl: int): Tables {
    match a
    case Save(alert, at) => Saved(t, alert, ttl, at)
    case Clean(life, at) => Cleaned(t, life, at)
    case Suppress(eventId, _) => SuppressedFor(t, eventId)
    case Acknowledge(id, status, _) => Acked(t, id, status)
  }

  /** The tables after a history of actions in which every save uses the same ttl. */
  function After(past: seq<Action>, ttl: int): Tables {
    if past == [] then Tables(map[], map[]) else Step(After(past[..|past| - 1], ttl), past[|past| - 1], ttl)
  }

  /** The times at which saves of one alert ID are accepted when nothing is ever cleaned. */
  function AcceptedAt(past: seq<Action>, id: string, ttl: int): seq<int> {
    if past == [] then []
    else
      var h := AcceptedAt(past[..|past| - 1], id, ttl);
      var a := past[|past| - 1];
      if a.Save? && a.alert.id == id && (h == [] || h[|h| - 1] <= a.at - ttl) then h + [a.at] else h
  }

  ghost predicate Chronological(past: seq<Action>) {
    forall i, j :: 0 <= i <= j < |past| ==> past[i].at <= past[j].at
  }

  /** Every clean-up keeps entries for at least the ttl, to within one second. */
  ghost predicate KeepsLongEnough(past: seq<Action>, ttl: int) {
    forall i :: 0 <= i < |past| && past[i].Clean? ==> past[i].ttl + 1 >= ttl
  }

  lemma Shorter(past: seq<Action>, ttl: int)
    requires past != [] && Chronological(past) && KeepsLongEnough(past, ttl)
    ensures Chronological(past[..|past| - 1]) && KeepsLongEnough(past[..|past| - 1], ttl)
    ensures |past| > 1 ==> past[..|past| - 1][|past| - 2].at <= past[|past| - 1].at
  {
  }

  /** The dedup table answers like the uncleaned history from the latest time on, and an entry
      it still has is the last accepted time. */
  lemma {:induction false} SameAnswers(past: seq<Action>, id: string, ttl: int, now: int)
    requires Chronological(past) && KeepsLongEnough(past, ttl)
    requires past != [] ==> past[|past| - 1].at <= now
    ensures var t, h := After(past, ttl), AcceptedAt(past, id, ttl);
      && (Accepts(t, id, ttl, now) <==> h == [] || h[|h| - 1] <= now - ttl)
      && (id in t.dedup ==> h != [] && t.dedup[id] == h[|h| - 1])
  {
    hide Chronological;
    if past != [] {
      var init, a := past[..|past| - 1], past[|past| - 1];
      Shorter(past, ttl);
      SameAnswers(init, id, ttl, now);
      SameAnswers(init, id, ttl, a.at);
      assert a.Clean? ==> a.ttl + 1 >= ttl;
    }
  }

  /** Cleaning with a long enough life, anywhere in the run, changes no later answer of SaveAlert. */
  lemma CleaningIsInvisible(past: seq<Action>, alert: Alert, ttl: int, now: int)
    requires Chronological(past + [Save(alert, now)]) && KeepsLongEnough(past, ttl)
    ensures Accepts(After(past, ttl), alert.id, ttl, now)
       <==> var h := AcceptedAt(past, alert.id, ttl); h == [] || h[|h| - 1] <= now - ttl
  {
    var all := past + [Save(alert, now)];
    assert all[..|past|] == past;
    Shorter(all, ttl);
    SameAnswers(past, alert.id, ttl, now);
  }

  /** Any two accepted saves of one alert ID are at least ttl apart. */
  lemma {:induction false} AcceptedSpaced(past: seq<Action>, id: string, ttl: int, i: nat, j: nat)
    requires ttl >= 0 && i < j < |AcceptedAt(past, id, ttl)|
    ensures AcceptedAt(past, id, ttl)[j] - AcceptedAt(past, id, ttl)[i] >= ttl
  {
    var h := AcceptedAt(past[..|past| - 1], id, ttl);
    if j < |h| {
      AcceptedSpaced(past[..|past| - 1], id, ttl, i, j);
    } else if i + 1 < |h| {
      AcceptedSpaced(past[..|past| - 1], id, ttl, i, |h| - 1);
    }
  }

  lemma Prefix(past: seq<Action>, k: nat, ttl: int)
    requires k <= |past| && Chronological(past) && KeepsLongEnough(past, ttl)
    ensures Chronological(past[..k]) && KeepsLongEnough(past[..k], ttl)
  {
  }

  /** From an accepted save on, the last accepted time is never before it. */
  lemma {:induction false} LastSinceSave(past: seq<Action>, i: nat, ttl: int)
    requires i < |past| && Chronological(past) && KeepsLongEnough(past, ttl)
    requires past[i].Save? && Accepts(After(past[..i], ttl), past[i].alert.id, ttl, past[i].at)
    ensures var h := AcceptedAt(past, past[i].alert.id, ttl); h != [] && h[|h| - 1] >= past[i].at
  {
    hide Chronological, KeepsLongEnough, Accepts, After;
    var init := past[..|past| - 1];
    Shorter(past, ttl);
    if i < |past| - 1 {
      assert init[..i] == past[..i];
      LastSinceSave(init, i, ttl);
      Ordered(past, i, |past| - 1);
    } else {
      NowOrLater(past);
      SameAnswers(init, past[i].alert.id, ttl, past[i].at);
    }
  }

  lemma Ordered(past: seq<Action>, i: nat, j: nat)
    requires i <= j < |past| && Chronological(past)
    ensures past[i].at <= past[j].at
  {
  }

  lemma NowOrLater(past: seq<Action>)
    requires past != [] && Chronological(past)
    ensures var init := past[..|past| - 1]; init != [] ==> init[|init| - 1].at <= past[|past| - 1].at
  {
  }

  /** Any two saves of one alert ID that the table accepts, whatever is cleaned in between, are at least
      ttl apart. */
  lemma SavesSpaced(past: seq<Action>, i: nat, j: nat, ttl: int)
    requires i < j < |past| && Chronological(past) && KeepsLongEnough(past, ttl)
    requires past[i].Save? && past[j].Save? && past[i].alert.id == past[j].alert.id
    requires Accepts(After(past[..i], ttl), past[i].alert.id, ttl, past[i].at)
    requires Accepts(After(past[..j], ttl), past[j].alert.id, ttl, past[j].at)
    ensures past[j].at - past[i].at >= ttl
  {
    hide Chronological, KeepsLongEnough, Accepts, After, AcceptedAt;
    var before := past[..j];
    Prefix(past, j, ttl);
    Ordered(past, j - 1, j);
    assert before[..i] == past[..i] && before[i] == past[i];
    LastSinceSave(before, i, ttl);
    SameAnswers(before, past[j].alert.id, ttl, past[j].at);
  }

  /** A clean-up with life `short` is invisible to later saves with a given ttl, in every table and
      at every later time, exactly when it keeps entries for at least ttl less one second. */
  lemma InvisibleIffLongEnough(short: int, ttl: int)
    ensures short + 1 >= ttl <==>
      forall t: Tables, id, at, now :: at <= now ==>
        (Accepts(Cleaned(t, short, at), id, ttl, now) <==> Accepts(t, id, ttl, now))
  {
    if short + 1 < ttl {
      var t, id := Tables(map["a" := 0], map[]), "a";
      var at := short + 1;
      assert id !in Cleaned(t, short, at).dedup;
      assert Accepts(Cleaned(t, short, at), id, ttl, at) && !Accepts(t, id, ttl, at);
    }
  }

  // ----- A status set by an analyst or a retraction -----

  /** An action that may change the status of this alert: an acknowledgement, a retraction of its
      event, or a save that the dedup window lets through. */
  predicate Touches(t: Tables, a: Action, alert: Alert, ttl: int) {
    match a
    case Save(b, at) => b.id == alert.id && Accepts(t, b.id, ttl, at)
    case Clean(_, _) => false
    case Suppress(eventId, _) => eventId == alert.eventId
    case Acknowledge(id, _, _) => id == alert.id
  }

  ghost predicate Untouched(past: seq<Action>, later: seq<Action>, alert: Alert, ttl: int) {
    forall i :: 0 <= i < |later| ==> !Touches(After(past + later[..i], ttl), later[i], alert, ttl)
  }

  lemma UntouchedKept(t: Tables, a: Action, alert: Alert, ttl: int)
    requires alert.id in t.alerts && t.alerts[alert.id] == alert && !Touches(t, a, alert, ttl)
    ensures alert.id in Step(t, a, ttl).alerts && Step(t, a, ttl).alerts[alert.id] == alert
  {
  }

  lemma AfterSnoc(past: seq<Action>, later: seq<Action>, ttl: int)
    requires later != []
    ensures var n := |later| - 1; After(past + later, ttl) == Step(After(past + later[..n], ttl), later[n], ttl)
  {
    var n := |later| - 1;
    assert (past + later)[..|past + later| - 1] == past + later[..n];
  }

  lemma UntouchedFront(past: seq<Action>, later: seq<Action>, alert: Alert, ttl: int)
    requires later != [] && Untouched(past, later, alert, ttl)
    ensures var n := |later| - 1;
      Untouched(past, later[..n], alert, ttl) && !Touches(After(past + later[..n], ttl), later[n], alert, ttl)
  {
    hide After, Touches;
    var n := |later| - 1;
    forall i | 0 <= i < n ensures !Touches(After(past + later[..n][..i], ttl), later[..n][i], alert, ttl) {
      assert later[..n][..i] == later[..i];
    }
  }

  lemma {:induction false} StatusKept(past: seq<Action>, later: seq<Action>, alert: Alert, ttl: int)
    requires alert.id in After(past, ttl).alerts && After(past, ttl).alerts[alert.id] == alert
    requires Untouched(past, later, alert, ttl)
    ensures alert.id in After(past + later, ttl).alerts && After(past + later, ttl).alerts[alert.id] == alert
    decreases |later|
  {
    hide After, Touches, Untouched, Step;
    if later == [] {
      assert past + later == past;
    } else {
      var n := |later| - 1;
      UntouchedFront(past, later, alert, ttl);
      StatusKept(past, later[..n], alert, ttl);
      AfterSnoc(past, later, ttl);
      UntouchedKept(After(past + later[..n], ttl), later[n], alert, ttl);
    }
  }

  /** Within ttl of the last accepted save of an alert, whatever clean-ups run, repeated saves of it
      are refused, so a status set by an acknowledgement or a retraction survives all of them. */
  lemma RefusedWithinTtl(past: seq<Action>, a: Action, alert: Alert, ttl: int)
    requires Chronological(past + [a]) && KeepsLongEnough(past, ttl)
    requires a.Save? && a.alert.id == alert.id
    requires var h := AcceptedAt(past, alert.id, ttl); h != [] && a.at < h[|h| - 1] + ttl
    ensures !Touches(After(past, ttl), a, alert, ttl)
    ensures Step(After(past, ttl), a, ttl) == After(past, ttl)
  {
    CleaningIsInvisible(past, a.alert, ttl, a.at);
  }

  /** A later save that is let through overwrites the status, so a retraction does not outlive the
      window: after it, the alert carries the status of the saved one exactly when ttl has passed. */
  lemma StatusOverwrittenIff(past: seq<Action>, a: Action, ttl: int)
    requires Chronological(past + [a]) && KeepsLongEnough(past, ttl) && a.Save?
    requires a.alert.id in After(past, ttl).alerts && After(past, ttl).alerts[a.alert.id] != a.alert
    ensures var h := AcceptedAt(past, a.alert.id, ttl);
      Step(After(past, ttl), a, ttl).alerts[a.alert.id] == a.alert <==> h == [] || a.at >= h[|h| - 1] + ttl
  {
    CleaningIsInvisible(past, a.alert, ttl, a.at);
  }

  /** Such a run: an alert is saved and acknowledged, and saved again once ttl has passed. */
  lemma OverwriteIsReachable(alert: Alert, status: string, at: int, ttl: int, now: int)
    requires status != "" && status != alert.status && now >= at + ttl && ttl >= 0
    ensures var past := [Save(alert, at), Acknowledge(alert.id, status, at)];
      && After(past, ttl).alerts == map[alert.id := alert.(status := status)]
      && After(past + [Save(alert, now)], ttl).alerts == map[alert.id := alert]
  {
    var past := [Save(alert, at), Acknowledge(alert.id, status, at)];
    assert past[..1] == [Save(alert, at)] && past[..1][..0] == [];
    assert (past + [Save(alert, now)])[..2] == past;
    assert After(past[..1], ttl) == Tables(map[alert.id := at], map[alert.id := alert]);
    assert After(past, ttl) == Tables(map[alert.id := at], map[alert.id := alert.(status := status)]);
  }

  // ----- Retractions, acknowledgements and clean-ups on the facts -----

  predicate Retracts(a: Action, eventId: string) {
    a.Suppress? && a.eventId == eventId
  }

  /** The action saves or acknowledges this alert ID. */
  predicate Rewrites(a: Action, id: string) {
    (a.Save? && a.alert.id == id) || (a.Acknowledge? && a.id == id)
  }

  /** Some of the actions retracts the event. */
  ghost predicate Retracted(actions: seq<Action>, eventId: string) {
    exists i :: 0 <= i < |actions| && Retracts(actions[i], eventId)
  }

  lemma OneMore(t: Tables, a: Action, id: string, ttl: int)
    requires !Rewrites(a, id)
    ensures id in Step(t, a, ttl).alerts <==> id in t.alerts
    ensures id in t.alerts ==>
      Step(t, a, ttl).alerts[id] ==
      if Retracts(a, t.alerts[id].eventId) then t.alerts[id].(status := "suppressed") else t.alerts[id]
  {
  }

  lemma RetractedFront(later: seq<Action>, eventId: string)
    requires later != []
    ensures var n := |later| - 1;
      Retracted(later, eventId) <==> Retracts(later[n], eventId) || Retracted(later[..n], eventId)
  {
    hide Retracts;
  }

  /** While nobody saves or acknowledges an alert, it keeps every field, except that it carries the
      status "suppressed" exactly from the first retraction of its own event on. No step deletes an alert
      or brings one into being. */
  lemma {:induction false} RetractionHolds(past: seq<Action>, later: seq<Action>, id: string, ttl: int)
    requires forall i :: 0 <= i < |later| ==> !Rewrites(later[i], id)
    ensures var was, now := After(past, ttl).alerts, After(past + later, ttl).alerts;
      && (id in now <==> id in was)
      && (id in was ==>
            now[id] == if Retracted(later, was[id].eventId) then was[id].(status := "suppressed") else was[id])
    decreases |later|
  {
    hide After, Step, Rewrites, Retracts;
    if later == [] {
      assert past + later == past;
    } else {
      var n := |later| - 1;
      RetractionHolds(past, later[..n], id, ttl);
      AfterSnoc(past, later, ttl);
      OneMore(After(past + later[..n], ttl), later[n], id, ttl);
      if id in After(past, ttl).alerts {
        RetractedFront(later, After(past, ttl).alerts[id].eventId);
      }
    }
  }

  /** What the other two steps write: an acknowledgement the status it gives, or "acked"; a clean-up drops
      exactly the entries older than its life and touches no alert. */
  lemma AcknowledgedAndCleaned(past: seq<Action>, id: string, status: string, life: int, at: int, ttl: int)
    requires id in After(past, ttl).alerts
    ensures var was, acked, cleaned := After(past, ttl), After(past + [Acknowledge(id, status, at)], ttl),
        After(past + [Clean(life, at)], ttl);
      && acked.alerts[id] == was.alerts[id].(status := if status != "" then status else "acked")
      && (forall other :: other != id ==>
           (other in acked.alerts <==> other in was.alerts)
           && (other in was.alerts ==> acked.alerts[other] == was.alerts[other]))
      && cleaned.alerts == was.alerts
      && forall k :: (k in cleaned.dedup <==> k in was.dedup && at - was.dedup[k] <= life)
                     && (k in cleaned.dedup ==> cleaned.dedup[k] == was.dedup[k])
  {
    hide After;
    AfterSnoc(past, [Acknowledge(id, status, at)], ttl);
    AfterSnoc(past, [Clean(life, at)], ttl);
    assert past + [Acknowledge(id, status, at)][..0] == past && past + [Clean(life, at)][..0] == past;
  }
}
