/** What may leave the notifier and what must, over whole series of calls, on the plain facts of the
    events: addresses, well-known names, markings and severities. */
module Export {
  import opened Text
  import opened Model
  import opened Indicators
  import opened Delivery
  import opened Notifier

  // ----- The facts -----

  /** Public resolvers and content networks that are never exported. */
  predicate WellKnown(value: string) {
    || value == "1.1.1.1" || value == "1.0.0.1" || value == "8.8.8.8" || value == "8.8.4.4" || value == "9.9.9.9"
    || value == "149.112.112.112" || value == "208.67.222.222" || value == "208.67.220.220"
    || value == "google.com" || value == "cloudflare.com" || value == "akamai.net" || value == "fastly.net"
    || value == "amazonaws.com" || value == "azure.com"
  }

  predicate Level(s: string) {
    s == "red" || s == "amber" || s == "green" || s == "white" || s == "clear"
  }

  /** The tag is the TLP marking of this level, in any letter case. */
  predicate Marks(tag: string, level: string) {
    Level(level) && ToLower(tag) == "tlp:" + level
  }

  /** With this configured limit, indicators of this level may be shared; no limit means green. */
  predicate Shareable(limit: string, level: string) {
    var l := ToLower(limit);
    if l == "red" then true
    else if l == "amber" then level != "red"
    else if l == "green" || limit == "" then level != "red" && level != "amber"
    else if l == "white" || l == "clear" then level == "white" || level == "clear"
    else false
  }

  /** The first marking among the tags, if there is one, has a level that may be shared. */
  ghost predicate MayShare(limit: string, tags: seq<string>) {
    forall k, level ::
      0 <= k < |tags| && Marks(tags[k], level) && (forall j, l :: 0 <= j < k ==> !Marks(tags[j], l)) ==>
      Shareable(limit, level)
  }

  /** The event's severity reaches the configured floor; an unknown floor asks for nothing. */
  predicate Reaches(severity: string, floor: string) {
    if floor == "critical" then severity == "critical"
    else if floor == "high" then severity == "critical" || severity == "high"
    else if floor == "medium" then severity == "critical" || severity == "high" || severity == "medium"
    else if floor == "low" then
      severity == "critical" || severity == "high" || severity == "medium" || severity == "low"
    else true
  }

  /** This indicator of this event may be exported, and this is its clean value. */
  ghost predicate Permitted(cfg: Config, event: ThreatEvent, ioc: IOC, clean: string) {
    && clean == ValidateIOC(cfg.parseIP, ioc.typ, ioc.value) && clean != ""
    && (ioc.typ == "ipv4" || ioc.typ == "ipv6" ==> !cfg.isPrivateIP(clean))
    && !WellKnown(clean)
    && MayShare(cfg.maxTLP, ioc.tags + event.tags)
  }

  // ----- The screen on the facts -----

  lemma MarkingIsMark(tag: string, level: string)
    ensures Marks(tag, level) ==> Marking(tag) == TlpRank(level) && Marking(tag).Some?
  {
    var low := ToLower(tag);
    if Marks(tag, level) {
      assert low[..4] == "tlp:" && low[4..] == level;
      assert ToLower(tag[4..]) == low[4..];
    }
  }

  lemma MarkingHasLevel(tag: string)
    ensures Marking(tag).Some? ==> Marks(tag, ToLower(tag)[4..])
  {
    var low := ToLower(tag);
    if Marking(tag).Some? {
      assert "tlp:" <= low && low == "tlp:" + low[4..];
      assert ToLower(tag[4..]) == low[4..];
    }
  }

  lemma RankIsShareable(limit: string, level: string)
    requires Level(level)
    ensures TlpRank(level).Some? && (TlpRank(level).value <= Threshold(limit) <==> Shareable(limit, level))
  {
    assert "red"[0] == 'r' && "amber"[0] == 'a' && "green"[0] == 'g' && "white"[0] == 'w' && "clear"[0] == 'c';
    assert ToLower("green") == "green";
    assert limit == "" ==> ToLower(limit) == "";
  }

  ghost predicate Unmarked(tags: seq<string>, k: int) {
    forall j :: 0 <= j < |tags| && j < k ==> Marking(tags[j]).None?
  }

  lemma UnmarkedIs(tags: seq<string>, k: nat)
    requires k <= |tags|
    ensures Unmarked(tags, k) <==> forall j, l :: 0 <= j < k ==> !Marks(tags[j], l)
  {
    hide Marking, Marks;
    forall j, l | 0 <= j < k ensures Marks(tags[j], l) ==> Marking(tags[j]).Some? {
      MarkingIsMark(tags[j], l);
    }
    forall j | 0 <= j < k ensures Marking(tags[j]).Some? ==> exists l :: Marks(tags[j], l) {
      MarkingHasLevel(tags[j]);
    }
  }

  lemma {:induction false} NotMarkedNotBlocked(limit: string, tags: seq<string>)
    requires Unmarked(tags, |tags|)
    ensures !BlockedTLP(limit, tags)
  {
    if tags != [] {
      hide Marking;
      assert Marking(tags[0]).None?;
      forall j | 0 <= j < |tags| - 1 ensures Marking(tags[1..][j]).None? {
        assert tags[1..][j] == tags[j + 1];
      }
      NotMarkedNotBlocked(limit, tags[1..]);
    }
  }

  /** The position of the first marking, or the number of tags. */
  function FirstMark(tags: seq<string>): (k: nat)
    ensures k <= |tags| && Unmarked(tags, k)
    ensures k < |tags| ==> Marking(tags[k]).Some?
  {
    if tags == [] || Marking(tags[0]).Some? then 0
    else
      var k := FirstMark(tags[1..]);
      assert forall j :: 0 < j < |tags| ==> tags[j] == tags[1..][j - 1];
      k + 1
  }

  lemma BlockedIffNotShared(limit: string, tags: seq<string>)
    ensures BlockedTLP(limit, tags) <==> !MayShare(limit, tags)
  {
    hide Marking, Marks, BlockedTLP, Threshold, Shareable, FirstMark, TlpRank;
    var k := FirstMarkAt(tags);
    UnmarkedIs(tags, k);
    if k == |tags| {
      NotMarkedNotBlocked(limit, tags);
      assert MayShare(limit, tags);
    } else {
      var level := ToLower(tags[k])[4..];
      FirstMarkingDecides(limit, tags, k);
      MarkingHasLevel(tags[k]);
      MarkingIsMark(tags[k], level);
      OneLevel(tags[k]);
      MarksLevel(tags[k], level);
      RankIsShareable(limit, level);
      forall k', level' |
        0 <= k' < |tags| && Marks(tags[k'], level') && (forall j, l :: 0 <= j < k' ==> !Marks(tags[j], l))
        ensures k' == k && level' == level
      {
        UnmarkedIs(tags, k');
      }
    }
  }

  lemma FirstMarkAt(tags: seq<string>) returns (k: nat)
    ensures k <= |tags| && Unmarked(tags, k) && (k < |tags| ==> Marking(tags[k]).Some? && 4 <= |tags[k]|)
  {
    k := FirstMark(tags);
    if k < |tags| {
      MarkingHasLevel(tags[k]);
    }
  }

  lemma OneLevel(tag: string)
    ensures forall l, l' :: Marks(tag, l) && Marks(tag, l') ==> l == l'
  {
    forall l, l' | Marks(tag, l) && Marks(tag, l') ensures l == l' {
      assert ("tlp:" + l)[4..] == l && ("tlp:" + l')[4..] == l';
    }
  }

  lemma MarksLevel(tag: string, level: string)
    ensures Marks(tag, level) ==> Level(level)
  {
  }

  lemma NeverBlockIsWellKnown(value: string)
    ensures value in NEVER_BLOCK <==> WellKnown(value)
  {
  }

  lemma ScreenIsPermitted(cfg: Config, event: ThreatEvent, ioc: IOC, clean: string)
    ensures Screen(cfg, event, ioc) == Some(clean) <==> Permitted(cfg, event, ioc, clean)
  {
    hide ValidateIOC, BlockedTLP, MayShare, WellKnown;
    NeverBlockIsWellKnown(clean);
    BlockedIffNotShared(cfg.maxTLP, ioc.tags + event.tags);
  }

  lemma RankIsReached(severity: string, floor: string)
    ensures ExportRank(severity) >= ExportRank(floor) <==> Reaches(severity, floor)
  {
    assert "critical"[0] == 'c' && "high"[0] == 'h' && "medium"[0] == 'm' && "low"[0] == 'l';
  }

  // ----- What an exported indicator says -----

  predicate Clear(s: string) {
    forall i :: 0 <= i < |s| ==> s[i] >= ' ' || s[i] == '\n' || s[i] == '\t'
  }

  /** The description: the indicator's own comment, and a generic one when there is none or it only repeats
      the event's title; never more than 256 characters and no control character. */
  ghost predicate Described(desc: string, event: ThreatEvent, ioc: IOC) {
    && |desc| <= 256 && Clear(desc)
    && (ioc.description != "" && ioc.description != event.title
        && |ioc.description| <= 256 && Clear(ioc.description) ==>
          desc == ioc.description)
    && ((ioc.description == "" || ioc.description == event.title) && |ioc.typ| <= 11 && Clear(ioc.typ) ==>
          desc == ioc.typ + " IOC from MISP event")
  }

  /** The indicator is this event's indicator, with every field as it must be. */
  ghost predicate Describes(cfg: Config, call: Call, ioc: IOC, ind: Indicator) {
    && call.Notified? && Reaches(call.severity, cfg.floor) && ioc in call.event.iocs
    && Permitted(cfg, call.event, ioc, ind.value)
    && ind.typ == ioc.typ && ind.source == ioc.source && ind.expiration == call.expiration
    && ind.action == (if cfg.action == "prevent" && cfg.preventTypes != {} && ioc.typ !in cfg.preventTypes
                      then "detect" else cfg.action)
    && ind.severity == (if call.severity == "critical" || call.severity == "high" || call.severity == "medium"
                        then call.severity else "low")
    && ind.platforms == ["windows", "mac", "linux"] && ind.tags == call.event.tags + call.event.cves
    && Described(ind.description, call.event, ioc)
  }

  lemma {:induction false} KeepClears(s: string)
    ensures |Keep(s)| <= |s| && Clear(Keep(s))
    ensures Clear(s) ==> Keep(s) == s
  {
    if s != "" {
      KeepClears(s[1..]);
      assert s == [s[0]] + s[1..];
      assert Clear(s) ==> Clear(s[1..]);
    }
  }

  lemma ClearSum(a: string, b: string)
    requires Clear(a) && Clear(b)
    ensures Clear(a + b)
  {
  }

  lemma DescIsDescribed(event: ThreatEvent, ioc: IOC, desc: string)
    requires desc == CleanDesc(if ioc.description == "" || ioc.description == event.title
                               then ioc.typ + " IOC from MISP event" else ioc.description)
    ensures Described(desc, event, ioc)
  {
    hide Keep, Clear;
    var raw := if ioc.description == "" || ioc.description == event.title then ioc.typ + " IOC from MISP event"
      else ioc.description;
    KeepClears(if |raw| > 256 then raw[..256] else raw);
    GenericIsClear();
    if Clear(ioc.typ) {
      ClearSum(ioc.typ, " IOC from MISP event");
    }
  }

  lemma GenericIsClear()
    ensures Clear(" IOC from MISP event")
  {
  }

  lemma BuildDescribes(cfg: Config, call: Call, ioc: IOC, clean: string)
    requires call.Notified? && Reaches(call.severity, cfg.floor) && ioc in call.event.iocs
    requires Permitted(cfg, call.event, ioc, clean)
    ensures Describes(cfg, call, ioc, Build(cfg, call.event, ioc, clean, call.severity, call.expiration))
  {
    hide Permitted, Described, CleanDesc;
    var ind := Build(cfg, call.event, ioc, clean, call.severity, call.expiration);
    DescIsDescribed(call.event, ioc, ind.description);
    SeverityKept(call.severity);
  }

  lemma SeverityKept(s: string)
    ensures ExportSeverity(s) == if s == "critical" || s == "high" || s == "medium" then s else "low"
  {
    assert "critical"[0] == 'c' && "high"[0] == 'h' && "medium"[0] == 'm' && "low"[0] == 'l';
  }

  // ----- Nothing else leaves -----

  ghost predicate ComesFrom(cfg: Config, calls: seq<Call>, ind: Indicator) {
    exists i, ioc :: 0 <= i < |calls| && Describes(cfg, calls[i], ioc, ind)
  }

  lemma {:induction false} OfferedOrOld(c: Shared, inds: seq<Indicator>, x: Indicator)
    requires x in OfferAll(c, inds).pending
    ensures x in c.pending || x in inds
    decreases |inds|
  {
    if inds != [] {
      OfferedOrOld(if Known(c, Key(inds[0])) then c else Enqueue(Reserve(c, Key(inds[0])), inds[0]), inds[1..], x);
    }
  }

  lemma OneDescribes(cfg: Config, call: Call, ioc: IOC, x: Indicator)
    requires call.Notified? && Reaches(call.severity, cfg.floor) && ioc in call.event.iocs
    requires x in ExportedOne(cfg, call.event, ioc, call.severity, call.expiration)
    ensures Describes(cfg, call, ioc, x)
  {
    hide Describes, Screen, Permitted, Build;
    var clean := Screen(cfg, call.event, ioc).value;
    ScreenIsPermitted(cfg, call.event, ioc, clean);
    BuildDescribes(cfg, call, ioc, clean);
  }

  lemma InSum(a: seq<Indicator>, b: seq<Indicator>, x: Indicator)
    ensures x in a + b <==> x in a || x in b
  {
  }

  lemma SomeExported(cfg: Config, event: ThreatEvent, k: nat, severity: string, expiration: string, x: Indicator)
    requires k <= |event.iocs| && x in Exported(cfg, event, event.iocs[..k], severity, expiration)
    ensures k > 0
  {
    hide ExportedOne;
  }

  /** The indicator of the event that an exported one comes from. */
  lemma {:induction false} ExportedFrom(cfg: Config, event: ThreatEvent, k: nat, severity: string, expiration: string,
                                        x: Indicator)
    returns (i: nat)
    requires k <= |event.iocs| && x in Exported(cfg, event, event.iocs[..k], severity, expiration)
    ensures i < k && x in ExportedOne(cfg, event, event.iocs[i], severity, expiration)
  {
    hide *;
    SomeExported(cfg, event, k, severity, expiration, x);
    i := k - 1;
    ExportedSnoc(cfg, event, i, severity, expiration);
    InSum(Exported(cfg, event, event.iocs[..i], severity, expiration),
          ExportedOne(cfg, event, event.iocs[i], severity, expiration), x);
    if x in Exported(cfg, event, event.iocs[..i], severity, expiration) {
      i := ExportedFrom(cfg, event, i, severity, expiration, x);
    }
  }

  lemma ExportedDescribes(cfg: Config, call: Call, k: nat, x: Indicator)
    requires call.Notified? && Reaches(call.severity, cfg.floor) && k <= |call.event.iocs|
    requires x in Exported(cfg, call.event, call.event.iocs[..k], call.severity, call.expiration)
    ensures exists ioc :: Describes(cfg, call, ioc, x)
  {
    hide Describes, Reaches, Exported, ExportedOne;
    var i := ExportedFrom(cfg, call.event, k, call.severity, call.expiration, x);
    OneDescribes(cfg, call, call.event.iocs[i], x);
  }

  lemma ComesFromMore(cfg: Config, calls: seq<Call>, call: Call, ind: Indicator)
    requires ComesFrom(cfg, calls, ind)
    ensures ComesFrom(cfg, calls + [call], ind)
  {
    hide Describes;
    var i, ioc :| 0 <= i < |calls| && Describes(cfg, calls[i], ioc, ind);
    assert (calls + [call])[i] == calls[i];
  }

  lemma ComesFromLast(cfg: Config, calls: seq<Call>, call: Call, ioc: IOC, ind: Indicator)
    requires Describes(cfg, call, ioc, ind)
    ensures ComesFrom(cfg, calls + [call], ind)
  {
    hide Describes;
    assert (calls + [call])[|calls|] == call;
  }

  lemma NewOnlyByNotify(cfg: Config, c: Shared, call: Call, x: Indicator)
    requires x in Called(cfg, c, call).pending
    ensures x in c.pending || (call.Notified? && Reaches(call.severity, cfg.floor)
      && x in Exported(cfg, call.event, call.event.iocs, call.severity, call.expiration))
  {
    hide Exported, OfferAll, Reaches;
    if call.Notified? {
      RankIsReached(call.severity, cfg.floor);
      if Reaches(call.severity, cfg.floor) {
        OfferedOrOld(c, Exported(cfg, call.event, call.event.iocs, call.severity, call.expiration), x);
      }
    }
  }

  /** Over every series of calls from the constructor: whatever waits in the queue is an indicator of a
      notified event that reached the floor, valid, no private address, not well known, marked for
      sharing by its first marking if it has one, and described by its own fields. */
  lemma {:induction false} NothingElseLeaves(cfg: Config, calls: seq<Call>, ind: Indicator)
    requires ind in After(cfg, calls).pending
    ensures ComesFrom(cfg, calls, ind)
  {
    if calls != [] {
      hide Called, ComesFrom, Describes, Exported;
      var init, call := calls[..|calls| - 1], calls[|calls| - 1];
      assert calls == init + [call];
      NewOnlyByNotify(cfg, After(cfg, init), call, ind);
      if ind in After(cfg, init).pending {
        NothingElseLeaves(cfg, init, ind);
        ComesFromMore(cfg, init, call, ind);
      } else {
        assert call.event.iocs[..|call.event.iocs|] == call.event.iocs;
        ExportedDescribes(cfg, call, |call.event.iocs|, ind);
        var ioc :| Describes(cfg, call, ioc, ind);
        ComesFromLast(cfg, init, call, ioc, ind);
      }
    }
  }

  /** In particular, address by address and name by name. */
  lemma NothingForbiddenLeaves(cfg: Config, calls: seq<Call>, ind: Indicator)
    requires ind in After(cfg, calls).pending
    ensures ind.typ == "ipv4" || ind.typ == "ipv6" ==> !cfg.isPrivateIP(ind.value)
    ensures !WellKnown(ind.value) && ind.value != ""
    ensures exists i, ioc :: (0 <= i < |calls| && calls[i].Notified? && ioc in calls[i].event.iocs
                && MayShare(cfg.maxTLP, ioc.tags + calls[i].event.tags)
                && ind.typ == ioc.typ && ind.value == ValidateIOC(cfg.parseIP, ioc.typ, ioc.value))
  {
    hide ValidateIOC, MayShare, WellKnown;
    NothingElseLeaves(cfg, calls, ind);
  }

  // ----- Everything permitted is taken -----

  lemma {:induction false} OfferedIsKnown(c: Shared, inds: seq<Indicator>, key: string)
    requires key in c.sent + c.pendingKeys || exists x :: x in inds && Key(x) == key
    ensures key in OfferAll(c, inds).sent + OfferAll(c, inds).pendingKeys
    decreases |inds|
  {
    if inds != [] {
      var c' := if Known(c, Key(inds[0])) then c else Enqueue(Reserve(c, Key(inds[0])), inds[0]);
      assert Key(inds[0]) in c'.sent + c'.pendingKeys;
      assert inds == [inds[0]] + inds[1..];
      OfferedIsKnown(c', inds[1..], key);
    }
  }

  lemma {:induction false} PermittedIsExported(cfg: Config, call: Call, k: nat, j: nat, clean: string)
    requires call.Notified? && j < k <= |call.event.iocs| && Permitted(cfg, call.event, call.event.iocs[j], clean)
    ensures exists x :: (x in Exported(cfg, call.event, call.event.iocs[..k], call.severity, call.expiration)
                && x.typ == call.event.iocs[j].typ && x.value == clean)
  {
    hide Permitted, Screen;
    ExportedSnoc(cfg, call.event, k - 1, call.severity, call.expiration);
    if j < k - 1 {
      PermittedIsExported(cfg, call, k - 1, j, clean);
    } else {
      var ioc := call.event.iocs[j];
      ScreenIsPermitted(cfg, call.event, ioc, clean);
      var x := Build(cfg, call.event, ioc, clean, call.severity, call.expiration);
      assert x in ExportedOne(cfg, call.event, ioc, call.severity, call.expiration);
    }
  }

  lemma KnownStays(cfg: Config, c: Shared, call: Call, key: string)
    requires key in c.sent + c.pendingKeys && !call.Pruned?
    ensures key in Called(cfg, c, call).sent + Called(cfg, c, call).pendingKeys
  {
    hide Exported, OfferAll;
    if call.Notified? {
      OfferedIsKnown(c, Exported(cfg, call.event, call.event.iocs, call.severity, call.expiration), key);
    }
  }

  lemma TakenNow(cfg: Config, c: Shared, call: Call, ioc: IOC, clean: string)
    requires call.Notified? && Reaches(call.severity, cfg.floor) && ioc in call.event.iocs
    requires Permitted(cfg, call.event, ioc, clean)
    ensures ioc.typ + ":" + clean in Called(cfg, c, call).sent + Called(cfg, c, call).pendingKeys
  {
    hide Exported, OfferAll, Permitted, Reaches;
    RankIsReached(call.severity, cfg.floor);
    var iocs := call.event.iocs;
    var j :| 0 <= j < |iocs| && iocs[j] == ioc;
    PermittedIsExported(cfg, call, |iocs|, j, clean);
    assert iocs[..|iocs|] == iocs;
    OfferedIsKnown(c, Exported(cfg, call.event, iocs, call.severity, call.expiration), ioc.typ + ":" + clean);
  }

  /** Over every series of calls: an indicator of a notified event that reached the floor and against which
      nothing speaks has its key reserved or sent from then on, until the sent set is pruned. */
  lemma {:induction false} EverythingPermittedIsTaken(cfg: Config, calls: seq<Call>, i: nat, ioc: IOC, clean: string)
    requires i < |calls| && calls[i].Notified? && Reaches(calls[i].severity, cfg.floor) && ioc in calls[i].event.iocs
    requires Permitted(cfg, calls[i].event, ioc, clean)
    requires forall k :: i < k < |calls| ==> !calls[k].Pruned?
    ensures ioc.typ + ":" + clean in After(cfg, calls).sent + After(cfg, calls).pendingKeys
  {
    hide Called, Permitted, Reaches;
    var init, last := calls[..|calls| - 1], calls[|calls| - 1];
    if i < |init| {
      EverythingPermittedIsTaken(cfg, init, i, ioc, clean);
      KnownStays(cfg, After(cfg, init), last, ioc.typ + ":" + clean);
    } else {
      TakenNow(cfg, After(cfg, init), last, ioc, clean);
    }
  }

  // ----- Keys -----

  /** Keys identify the type and the value, for types without a colon. */
  lemma KeyIdentifies(a: Indicator, b: Indicator)
    requires NoneOf(a.typ, ':') && NoneOf(b.typ, ':')
    ensures Key(a) == Key(b) <==> a.typ == b.typ && a.value == b.value
  {
    if Key(a) == Key(b) {
      FirstPart(a.typ, a.value, b.typ, b.value, ':');
    }
  }
}
