/** The CrowdStrike notifier as an object: the fields the goroutines share, updated in place
    by the bodies of `Notify`, `flush` and `pruneSent`. Each method is tied to the functions
    that specify the locked sections, and the sequential methods are runs of the transition
    system in module Delivery. */
module Notifier {
  import opened Text
  import opened Model
  import opened Indicators
  import opened Numbers
  import opened Delivery

  /** Settings, and the parts of the Go library the notifier calls. */
  datatype Config = Config(
    action: string, floor: string, preventTypes: set<string>, maxTLP: string,
    parseIP: string -> Option<string>, isPrivateIP: string -> bool)

  const NEVER_BLOCK: set<string> := {
    "1.1.1.1", "1.0.0.1", "8.8.8.8", "8.8.4.4", "9.9.9.9", "149.112.112.112", "208.67.222.222", "208.67.220.220",
    "google.com", "cloudflare.com", "akamai.net", "fastly.net", "amazonaws.com", "azure.com"}

  function ExportRank(s: string): nat {
    if s == "critical" then 4 else if s == "high" then 3 else if s == "medium" then 2 else if s == "low" then 1 else 0
  }

  function ExportSeverity(s: string): string {
    if ExportRank(s) >= 2 then s else "low"
  }

  function TlpRank(level: string): Option<nat> {
    if level == "red" then Some(4) else if level == "amber" then Some(3) else if level == "green" then Some(2)
    else if level == "white" || level == "clear" then Some(1) else None
  }

  /** The rank of a tag's marking, if the tag is a recognised TLP marking. */
  function Marking(tag: string): Option<nat> {
    if "tlp:" <= ToLower(tag) then TlpRank(ToLower(tag[4..])) else None
  }

  function Threshold(maxTLP: string): nat {
    match TlpRank(ToLower(if maxTLP == "" then "green" else maxTLP)) case Some(r) => r case None => 0
  }

  predicate BlockedTLP(maxTLP: string, tags: seq<string>) {
    if tags == [] then false
    else match Marking(tags[0])
      case Some(level) => level > Threshold(maxTLP)
      case None => BlockedTLP(maxTLP, tags[1..])
  }

  /** The first recognised marking decides: an indicator's own markings come before its event's. */
  lemma {:induction false} FirstMarkingDecides(maxTLP: string, tags: seq<string>, i: nat)
    requires i < |tags| && Marking(tags[i]).Some? && forall j :: 0 <= j < i ==> Marking(tags[j]).None?
    ensures BlockedTLP(maxTLP, tags) <==> Marking(tags[i]).value > Threshold(maxTLP)
  {
    if i > 0 {
      assert Marking(tags[0]).None?;
      FirstMarkingDecides(maxTLP, tags[1..], i - 1);
    }
  }

  /** The cleaned value of an indicator that may be exported, in the order of the source's guards. */
  function Screen(cfg: Config, event: ThreatEvent, ioc: IOC): Option<string> {
    var clean := ValidateIOC(cfg.parseIP, ioc.typ, ioc.value);
    if clean == "" then None
    else if (ioc.typ == "ipv4" || ioc.typ == "ipv6") && cfg.isPrivateIP(clean) then None
    else if BlockedTLP(cfg.maxTLP, ioc.tags + event.tags) then None
    else if clean in NEVER_BLOCK then None
    else Some(clean)
  }

  /** `prevent` is downgraded only when an allowlist is configured and misses the type. */
  function ExportAction(cfg: Config, typ: string): string {
    if cfg.action == "prevent" && |cfg.preventTypes| > 0 && typ !in cfg.preventTypes then "detect" else cfg.action
  }

  predicate Printable(c: char) {
    c >= ' ' || c == '\n' || c == '\t'
  }

  function Keep(s: string): string {
    if s == [] then [] else (if Printable(s[0]) then [s[0]] else []) + Keep(s[1..])
  }

  function CleanDesc(d: string): string {
    Keep(if |d| > 256 then d[..256] else d)
  }

  function Build(cfg: Config, event: ThreatEvent, ioc: IOC, clean: string, severity: string,
                 expiration: string): Indicator {
    var desc := if ioc.description == "" || ioc.description == event.title then ioc.typ + " IOC from MISP event"
      else ioc.description;
    Indicator(ioc.source, ExportAction(cfg, ioc.typ), expiration, ioc.typ, clean, CleanDesc(desc),
              ExportSeverity(severity), ["windows", "mac", "linux"], event.tags + event.cves)
  }

  function ExportedOne(cfg: Config, event: ThreatEvent, ioc: IOC, severity: string,
                       expiration: string): seq<Indicator> {
    match Screen(cfg, event, ioc)
    case Some(clean) => [Build(cfg, event, ioc, clean, severity, expiration)]
    case None => []
  }

  /** The indicators of an event that pass the guards, in order. */
  function Exported(cfg: Config, event: ThreatEvent, iocs: seq<IOC>, severity: string,
                    expiration: string): seq<Indicator> {
    if iocs == [] then [] else
      Exported(cfg, event, iocs[..|iocs| - 1], severity, expiration)
      + ExportedOne(cfg, event, iocs[|iocs| - 1], severity, expiration)
  }

  lemma ExportedSnoc(cfg: Config, event: ThreatEvent, k: nat, severity: string, expiration: string)
    requires k < |event.iocs|
    ensures Exported(cfg, event, event.iocs[..k + 1], severity, expiration)
         == Exported(cfg, event, event.iocs[..k], severity, expiration)
            + ExportedOne(cfg, event, event.iocs[k], severity, expiration)
  {
    hide ExportedOne;
    assert event.iocs[..k + 1][..k] == event.iocs[..k];
  }

  /** One more indicator is offered after those of a prefix. */
  lemma OfferNext(c: Shared, cfg: Config, event: ThreatEvent, i: nat, severity: string, expiration: string)
    requires i < |event.iocs|
    ensures OfferAll(c, Exported(cfg, event, event.iocs[..i + 1], severity, expiration))
         == OfferAll(OfferAll(c, Exported(cfg, event, event.iocs[..i], severity, expiration)),
                     ExportedOne(cfg, event, event.iocs[i], severity, expiration))
  {
    ExportedSnoc(cfg, event, i, severity, expiration);
    OfferAllAppend(c, Exported(cfg, event, event.iocs[..i], severity, expiration),
                   ExportedOne(cfg, event, event.iocs[i], severity, expiration));
  }

  /** The shared fields after the indicators are offered one after the other, undisturbed. */
  function OfferAll(c: Shared, inds: seq<Indicator>): Shared
    decreases |inds|
  {
    if inds == [] then c
    else OfferAll(if Known(c, Key(inds[0])) then c else Enqueue(Reserve(c, Key(inds[0])), inds[0]), inds[1..])
  }

  lemma {:induction false} OfferAllAppend(c: Shared, a: seq<Indicator>, b: seq<Indicator>)
    ensures OfferAll(c, a + b) == OfferAll(OfferAll(c, a), b)
    decreases |a|
  {
    if a == [] {
      assert a + b == b;
    } else {
      assert (a + b)[1..] == a[1..] + b;
      OfferAllAppend(if Known(c, Key(a[0])) then c else Enqueue(Reserve(c, Key(a[0])), a[0]), a[1..], b);
    }
  }

  /** A call on the notifier from outside. */
  datatype Call =
    | Notified(event: ThreatEvent, severity: string, expiration: string)
    | Flushed(sendOk: bool)
    | Pruned

  function Called(cfg: Config, c: Shared, call: Call): Shared {
    match call
    case Notified(event, severity, expiration) =>
      if ExportRank(severity) < ExportRank(cfg.floor) then c
      else OfferAll(c, Exported(cfg, event, event.iocs, severity, expiration))
    case Flushed(sendOk) =>
      if c.pending == [] then c
      else if sendOk then Commit(TakeBatch(c), c.pending)
      else Requeue(TakeBatch(c), c.pending)
    case Pruned => Prune(c)
  }

  /** The shared fields after a series of calls. */
  function After(cfg: Config, calls: seq<Call>): Shared {
    if calls == [] then Shared({}, {}, []) else Called(cfg, After(cfg, calls[..|calls| - 1]), calls[|calls| - 1])
  }

  lemma AfterSnoc(cfg: Config, calls: seq<Call>, call: Call)
    ensures After(cfg, calls + [call]) == Called(cfg, After(cfg, calls), call)
  {
    assert (calls + [call])[..|calls|] == calls;
  }

  lemma NotifiedMeans(cfg: Config, calls: seq<Call>, event: ThreatEvent, severity: string, expiration: string)
    ensures After(cfg, calls + [Notified(event, severity, expiration)]) ==
      if ExportRank(severity) < ExportRank(cfg.floor) then After(cfg, calls)
      else OfferAll(After(cfg, calls), Exported(cfg, event, event.iocs, severity, expiration))
  {
    hide After, Exported, OfferAll, ExportRank;
    AfterSnoc(cfg, calls, Notified(event, severity, expiration));
  }

  lemma NothingOffered(c: Shared, cfg: Config, event: ThreatEvent, severity: string, expiration: string)
    ensures OfferAll(c, Exported(cfg, event, event.iocs[..0], severity, expiration)) == c
    ensures event.iocs == [] ==> OfferAll(c, Exported(cfg, event, event.iocs, severity, expiration)) == c
  {
  }

  class CrowdstrikeNotifier {
    const cfg: Config
    var sent: set<string>
    var pendingKeys: set<string>
    var pending: seq<Indicator>
    ghost var calls: seq<Call>  // every call so far

    constructor (cfg: Config)
      ensures this.cfg == cfg && Fields() == Shared({}, {}, []) && calls == [] && Valid()
    {
      this.cfg := cfg;
      sent, pendingKeys, pending, calls := {}, {}, [], [];
    }

    ghost predicate Valid()
      reads this
    {
      Fields() == After(cfg, calls)
    }

    ghost function Fields(): Shared
      reads this
    {
      Shared(sent, pendingKeys, pending)
    }

    /** The in-flight guard: the key is tested and reserved under the lock. */
    method TryReserve(key: string) returns (ok: bool)
      modifies this`pendingKeys
      ensures ok <==> !Known(old(Fields()), key)
      ensures Fields() == if ok then Delivery.Reserve(old(Fields()), key) else old(Fields())
    {
      if key in sent || key in pendingKeys {
        return false;
      }
      pendingKeys := pendingKeys + {key};
      return true;
    }

    /** The loop of blockedTLP: the first recognised marking decides. */
    method IsBlocked(tags: seq<string>) returns (blocked: bool)
      ensures blocked == BlockedTLP(cfg.maxTLP, tags)
    {
      for i := 0 to |tags|
        invariant BlockedTLP(cfg.maxTLP, tags) == BlockedTLP(cfg.maxTLP, tags[i..])
      {
        var level := Marking(tags[i]);
        assert tags[i..][1..] == tags[i + 1..];
        if level.Some? {
          return level.value > Threshold(cfg.maxTLP);
        }
      }
      return false;
    }

    /** The body of Notify's loop: guards, reservation, and the append under a second lock. */
    method NotifyOne(event: ThreatEvent, ioc: IOC, severity: string, expiration: string) returns (accepted: bool)
      modifies this`pendingKeys, this`pending
      ensures Fields() == OfferAll(old(Fields()), ExportedOne(cfg, event, ioc, severity, expiration))
      ensures |pending| == old(|pending|) + if accepted then 1 else 0
    {
      hide ValidateIOC, BlockedTLP, CleanDesc;
      var clean := ValidateIOC(cfg.parseIP, ioc.typ, ioc.value);
      if clean == "" {
        return false;
      }
      if (ioc.typ == "ipv4" || ioc.typ == "ipv6") && cfg.isPrivateIP(clean) {
        return false;
      }
      var blocked := IsBlocked(ioc.tags + event.tags);
      if blocked {
        return false;
      }
      if clean in NEVER_BLOCK {
        return false;
      }
      accepted := TryReserve(ioc.typ + ":" + clean);
      if accepted {
        pending := pending + [Build(cfg, event, ioc, clean, severity, expiration)];
      }
    }

    /** One call of Notify with no other goroutine in between. */
    method Notify(event: ThreatEvent, severity: string, expiration: string) returns (count: nat)
      modifies this`pendingKeys, this`pending, this`calls
      ensures ExportRank(severity) < ExportRank(cfg.floor) ==> count == 0 && Fields() == old(Fields())
      ensures ExportRank(severity) >= ExportRank(cfg.floor) ==>
        Fields() == OfferAll(old(Fields()), Exported(cfg, event, event.iocs, severity, expiration))
      ensures |pending| == old(|pending|) + count
      ensures calls == old(calls) + [Notified(event, severity, expiration)] && (old(Valid()) ==> Valid())
    {
      hide After, Called, Exported, OfferAll, ExportedOne;
      count := 0;
      NotifiedMeans(cfg, calls, event, severity, expiration);
      calls := calls + [Notified(event, severity, expiration)];
      ghost var before := Fields();
      NothingOffered(before, cfg, event, severity, expiration);
      if |event.iocs| == 0 {
        return;
      }
      if ExportRank(severity) < ExportRank(cfg.floor) {
        return;
      }
      for i := 0 to |event.iocs|
        invariant Fields() == OfferAll(before, Exported(cfg, event, event.iocs[..i], severity, expiration))
        invariant |pending| == |before.pending| + count && calls == old(calls) + [Notified(event, severity, expiration)]
      {
        OfferNext(before, cfg, event, i, severity, expiration);
        var accepted := NotifyOne(event, event.iocs[i], severity, expiration);
        if accepted {
          count := count + 1;
        }
      }
      assert event.iocs[..|event.iocs|] == event.iocs;
    }

    /** Marks every indicator of a confirmed batch as sent and releases its key. */
    method CommitBatch(batch: seq<Indicator>)
      modifies this`sent, this`pendingKeys
      ensures Fields() == Delivery.Commit(old(Fields()), batch)
    {
      ghost var before := Fields();
      for i := 0 to |batch|
        invariant Fields() == Delivery.Commit(before, batch[..i])
      {
        var key := Key(batch[i]);
        sent := sent + {key};
        pendingKeys := pendingKeys - {key};
        assert batch[..i + 1] == batch[..i] + [batch[i]];
        assert KeySet(batch[..i + 1]) == KeySet(batch[..i]) + {key};
      }
      assert batch[..|batch|] == batch;
    }

    /** One flush with no other goroutine in between; the environment says whether the send succeeded. */
    method Flush(sendOk: bool)
      modifies this
      ensures Fields() ==
        var c := old(Fields());
        if c.pending == [] then c
        else if sendOk then Delivery.Commit(TakeBatch(c), c.pending)
        else Delivery.Requeue(TakeBatch(c), c.pending)
      ensures calls == old(calls) + [Flushed(sendOk)] && (old(Valid()) ==> Valid())
    {
      AfterSnoc(cfg, calls, Flushed(sendOk));
      calls := calls + [Flushed(sendOk)];
      if |pending| == 0 {
        return;
      }
      var batch := pending;
      pending := [];
      if !sendOk {
        pending := batch + pending;
        if |pending| > MAX_PENDING {
          pending := pending[|pending| - MAX_PENDING..];
        }
      } else {
        CommitBatch(batch);
      }
    }

    method PruneSent()
      modifies this
      ensures Fields() == Delivery.Prune(old(Fields()))
      ensures calls == old(calls) + [Pruned] && (old(Valid()) ==> Valid())
    {
      AfterSnoc(cfg, calls, Pruned);
      calls := calls + [Pruned];
      if |sent| > PRUNE_ABOVE {
        sent := {};
      }
    }
  }

  // ----- The sequential methods are runs of the transition system -----

  function Offers(t: nat, inds: seq<Indicator>): seq<Action> {
    if inds == [] then [] else [Offer(t, inds[0]), Append(t)] + Offers(t, inds[1..])
  }

  lemma OfferSteps(s: State, t: nat, ind: Indicator)
    requires t < |s.threads| && s.threads[t].Idle?
    ensures var s' := Next(Next(s, Offer(t, ind)), Append(t));
      && s'.threads == s.threads && s'.settled == s.settled
      && s'.c == if Known(s.c, Key(ind)) then s.c else Enqueue(Reserve(s.c, Key(ind)), ind)
  {
  }

  /** What Notify does to the shared fields is what its thread's steps do. */
  lemma {:induction false} NotifyIsRun(s: State, t: nat, inds: seq<Indicator>)
    requires t < |s.threads| && s.threads[t].Idle?
    ensures Run(s, Offers(t, inds)).c == OfferAll(s.c, inds)
    ensures Run(s, Offers(t, inds)).threads == s.threads && Run(s, Offers(t, inds)).settled == s.settled
    decreases |inds|
  {
    if inds != [] {
      hide Next, Run, Known, Reserve, Enqueue;
      OfferSteps(s, t, inds[0]);
      RunTwo(s, Offer(t, inds[0]), Append(t));
      RunAppend(s, [Offer(t, inds[0]), Append(t)], Offers(t, inds[1..]));
      NotifyIsRun(Next(Next(s, Offer(t, inds[0])), Append(t)), t, inds[1..]);
    }
  }

  /** What Flush does to the shared fields is what its thread's steps do. */
  lemma FlushIsRun(s: State, t: nat, sendOk: bool)
    requires t < |s.threads| && s.threads[t].Idle? && s.c.pending != []
    ensures var s' :=
        if sendOk then Next(Next(Next(s, Take(t)), Confirm(t)), Record(t)) else Next(Next(s, Take(t)), Fail(t));
      && s'.threads == s.threads
      && s'.c == if sendOk then Commit(TakeBatch(s.c), s.c.pending) else Requeue(TakeBatch(s.c), s.c.pending)
  {
    var s1 := Next(s, Take(t));
    assert s1.threads[t := Idle] == s.threads;
    assert Next(s1, Confirm(t)).threads[t := Idle] == s.threads;
  }

  // ----- Overflows happen -----

  /** Offering new indicators with distinct keys queues all of them. */
  lemma {:induction false} OfferAllNew(c: Shared, inds: seq<Indicator>)
    requires NoRepeats(inds) && forall i :: 0 <= i < |inds| ==> !Known(c, Key(inds[i]))
    ensures OfferAll(c, inds).pending == c.pending + inds
    decreases |inds|
  {
    if inds != [] {
      var c' := Enqueue(Reserve(c, Key(inds[0])), inds[0]);
      forall i | 0 <= i < |inds| - 1 ensures !Known(c', Key(inds[1..][i])) {
        assert inds[1..][i] == inds[i + 1] && !Known(c, Key(inds[i + 1]));
      }
      OfferAllNew(c', inds[1..]);
      assert c.pending + [inds[0]] + inds[1..] == c.pending + inds;
    }
  }

  /** The first failing flush after more than 1000 new indicators. */
  function FailedFlush(inds: seq<Indicator>): seq<Action> {
    Offers(0, inds) + [Take(0), Fail(0)]
  }

  /** From the start, a flush that fails on more than 1000 indicators with distinct keys drops exactly
      the oldest of them and keeps 1000. */
  lemma OverflowDropsOldest(inds: seq<Indicator>)
    requires NoRepeats(inds) && |inds| > 1000
    ensures var s := Run(Start(1), FailedFlush(inds));
      && Dropped(s.settled) == inds[..|inds| - 1000] && s.c.pending == inds[|inds| - 1000..]
  {
    hide Run, Offers, OfferAll, NoRepeats, Dropped, Settle;
    var s0 := Start(1);
    var s1 := Run(s0, Offers(0, inds));
    NotifyIsRun(s0, 0, inds);
    OfferAllNew(s0.c, inds);
    RunAppend(s0, Offers(0, inds), [Take(0), Fail(0)]);
    RunTwo(s1, Take(0), Fail(0));
    FatesSettle(inds[..|inds| - 1000], false);
    FailDrops(s1, inds);
  }

  lemma FailDrops(s: State, inds: seq<Indicator>)
    requires s.threads == [Idle] && s.settled == [] && s.c.pending == inds && |inds| > 1000
    ensures var s' := Next(Next(s, Take(0)), Fail(0));
      && s'.settled == Settle(inds[..|inds| - 1000], false) && s'.c.pending == inds[|inds| - 1000..]
  {
    var s1 := Next(s, Take(0));
    assert s1.threads[0] == Sending(inds) && s1.c.pending == [] && inds + [] == inds;
    assert [] + Settle(inds[..|inds| - 1000], false) == Settle(inds[..|inds| - 1000], false);
  }

  /** The domains x0, x1, x2, ... */
  function Domain(n: nat): string {
    "x" + Print(n)
  }

  lemma DomainIsValid(parseIP: string -> Option<string>, n: nat)
    requires n < 10000
    ensures ValidateIOC(parseIP, "domain", Domain(n)) == Domain(n) && Domain(n) !in NEVER_BLOCK
  {
    var v := Domain(n);
    ShortNumeral(n);
    DomainLetters(n);
    assert NoneOf(v, '.');
    OneLabel(v);
    CleanFixed(v);
    CleanDomain(parseIP, v);
    NeverBlockHasDots(v);
  }

  lemma ShortNumeral(n: nat)
    requires n < 10000
    ensures 1 <= |Print(n)| <= 4
  {
    PrintLength(n);
    assert Pow10(4) == 10000;
    if |Print(n)| > 4 { PowAtLeast(|Print(n)| - 1, 4); }
  }

  lemma {:induction false} PowAtLeast(k: nat, m: nat)
    requires k >= m
    ensures Pow10(k) >= Pow10(m)
  {
    if k > m { PowAtLeast(k - 1, m); }
  }

  lemma DomainLetters(n: nat)
    ensures var v := Domain(n);
      && v[0] == 'x' && IsDigit(v[|v| - 1])
      && forall k :: 0 <= k < |v| ==> DomainChar(v[k]) && IsAlnum(v[k]) && v[k] != '.'
  {
    var digits := Print(n);
    forall k | 0 <= k < |digits| ensures IsDigit(digits[k]) {
    }
  }

  /** A short word of letters and digits that ends in a digit is a valid domain, and not under .local. */
  lemma OneLabel(v: string)
    requires 0 < |v| <= 63 && IsDigit(v[|v| - 1]) && forall k :: 0 <= k < |v| ==> IsAlnum(v[k]) && v[k] != '.'
    ensures ValidDomain(v) && !HasSuffix(v, ".local")
  {
    SplitNone(v, '.');
    assert Labels([v]) == [v] && ValidLabel(v);
    EndsAlike(v, ".local");
  }

  lemma EndsAlike(v: string, suffix: string)
    requires suffix != "" && v != ""
    ensures HasSuffix(v, suffix) ==> v[|v| - 1] == suffix[|suffix| - 1]
  {
    if HasSuffix(v, suffix) {
      assert v[|v| - |suffix|..][|suffix| - 1] == v[|v| - 1];
    }
  }

  lemma NeverBlockHasDots(v: string)
    requires NoneOf(v, '.')
    ensures v !in NEVER_BLOCK
  {
    assert "1.1.1.1"[1] == '.' && "1.0.0.1"[1] == '.' && "8.8.8.8"[1] == '.' && "8.8.4.4"[1] == '.' &&
      "9.9.9.9"[1] == '.';
    assert "149.112.112.112"[3] == '.' && "208.67.222.222"[3] == '.' && "208.67.220.220"[3] == '.';
    assert "google.com"[6] == '.' && "cloudflare.com"[10] == '.' && "akamai.net"[6] == '.' && "fastly.net"[6] == '.';
    assert "amazonaws.com"[9] == '.' && "azure.com"[5] == '.';
  }

  /** An event with n domains and no markings. */
  function Flood(n: nat): (event: ThreatEvent)
    ensures |event.iocs| == n && event.tags == []
    ensures forall i :: 0 <= i < n ==> event.iocs[i] == IOC("domain", Domain(i), "", "", [])
  {
    var iocs := seq(n, i requires 0 <= i < n => IOC("domain", Domain(i), "", "", []));
    ThreatEvent("t", [], 0.0, [], 0, [], [], iocs, "high")
  }

  lemma FloodScreened(cfg: Config, n: nat, i: nat)
    requires i < n <= 10000
    ensures Screen(cfg, Flood(n), Flood(n).iocs[i]) == Some(Domain(i))
  {
    hide ValidateIOC, Domain;
    DomainIsValid(cfg.parseIP, i);
    assert [] + Flood(n).tags == [];
    DomainNotEmpty(i);
  }

  lemma DomainNotEmpty(n: nat)
    ensures Domain(n) != ""
  {
  }

  /** The indicator that this domain becomes. */
  ghost predicate IsDomain(ind: Indicator, i: nat) {
    ind.typ == "domain" && ind.value == Domain(i)
  }

  /** These are the first k domains, in order. */
  ghost predicate FirstDomains(inds: seq<Indicator>, k: nat) {
    |inds| == k && forall i :: 0 <= i < k ==> IsDomain(inds[i], i)
  }

  lemma OneMoreDomain(inds: seq<Indicator>, one: seq<Indicator>, k: nat)
    requires FirstDomains(inds, k) && |one| == 1 && IsDomain(one[0], k)
    ensures FirstDomains(inds + one, k + 1)
  {
    hide IsDomain;
  }

  lemma FloodOne(cfg: Config, n: nat, i: nat, severity: string, expiration: string)
    requires i < n <= 10000
    ensures var one := ExportedOne(cfg, Flood(n), Flood(n).iocs[i], severity, expiration);
      |one| == 1 && IsDomain(one[0], i)
  {
    hide Screen, Domain, CleanDesc;
    FloodScreened(cfg, n, i);
  }

  /** All n domains pass the screens, whatever the configuration, and are exported in order. */
  lemma {:induction false} FloodExported(cfg: Config, n: nat, k: nat, severity: string, expiration: string)
    requires k <= n <= 10000
    ensures FirstDomains(Exported(cfg, Flood(n), Flood(n).iocs[..k], severity, expiration), k)
  {
    hide Exported, ExportedOne, Flood, IsDomain, FirstDomains;
    FloodSize(n);
    if k == 0 {
      NothingExported(cfg, Flood(n), severity, expiration);
    } else {
      FloodExported(cfg, n, k - 1, severity, expiration);
      FloodOne(cfg, n, k - 1, severity, expiration);
      ExportedSnoc(cfg, Flood(n), k - 1, severity, expiration);
      OneMoreDomain(Exported(cfg, Flood(n), Flood(n).iocs[..k - 1], severity, expiration),
                    ExportedOne(cfg, Flood(n), Flood(n).iocs[k - 1], severity, expiration), k - 1);
    }
  }

  lemma NothingExported(cfg: Config, event: ThreatEvent, severity: string, expiration: string)
    ensures FirstDomains(Exported(cfg, event, event.iocs[..0], severity, expiration), 0)
  {
  }

  lemma FloodSize(n: nat)
    ensures |Flood(n).iocs| == n
  {
  }

  lemma DomainsDiffer(i: nat, j: nat)
    ensures Domain(i) == Domain(j) ==> i == j
  {
    hide Print;
    assert Domain(i)[1..] == Print(i) && Domain(j)[1..] == Print(j);
    assert Val(Print(i)) == i && Val(Print(j)) == j;
  }

  lemma KeysOfDomains(inds: seq<Indicator>)
    requires forall i :: 0 <= i < |inds| ==> IsDomain(inds[i], i)
    ensures NoRepeats(inds)
  {
    hide Domain;
    forall i, j | 0 <= i < j < |inds| ensures Key(inds[i]) != Key(inds[j]) {
      assert IsDomain(inds[i], i) && IsDomain(inds[j], j);
      assert Key(inds[i])[7..] == Domain(i) && Key(inds[j])[7..] == Domain(j);
      DomainsDiffer(i, j);
    }
  }

  /** Events that overflow the queue exist: whatever the configuration, all of 1001 domains are exported,
      a flush that then fails drops the first, and however the run goes on it is never accepted again. */
  lemma LossIsReachable(cfg: Config, severity: string, expiration: string, after: seq<Action>, t: nat)
    ensures var event := Flood(1001);
      var inds := Exported(cfg, event, event.iocs, severity, expiration);
      var s := Run(Start(1), FailedFlush(inds));
      && |inds| == |event.iocs| == 1001
      && Dropped(s.settled) == [inds[0]] && Next(Run(s, after), Offer(t, inds[0])) == Run(s, after)
  {
    hide Run, Dropped, FailedFlush, NoRepeats, Next, Domain, Exported;
    var n := 1001;
    var event := Flood(n);
    assert event.iocs[..n] == event.iocs;
    FloodExported(cfg, n, n, severity, expiration);
    var inds := Exported(cfg, event, event.iocs, severity, expiration);
    KeysOfDomains(inds);
    OverflowDropsOldest(inds);
    assert inds[..1] == [inds[0]];
    DroppedNeverReturns(1, FailedFlush(inds), after, inds[0], t, inds[0]);
  }

  // ----- The approval gate for `prevent` -----

  /** An indicator is exported with action `prevent` exactly when that is configured and the
      allowlist is empty or names its type. */
  lemma PreventGate(cfg: Config, event: ThreatEvent, ioc: IOC, clean: string, severity: string, expiration: string)
    ensures Build(cfg, event, ioc, clean, severity, expiration).action == "prevent"
       <==> cfg.action == "prevent" && (cfg.preventTypes == {} || ioc.typ in cfg.preventTypes)
  {
  }
}
