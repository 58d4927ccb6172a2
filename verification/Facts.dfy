/** Both scorers on the plain facts of their input: which signals, matches and assets there are. */
module Facts {
  import opened Text
  import opened Model
  import opened Ssvc
  import opened Scoring
  import opened Coherence

  /** Some match carries the application's name. */
  ghost predicate Matched(x: Input, a: App) {
    a in x.stack && a.name != "" && exists m :: m in x.matches && m.appName == a.name
  }

  ghost predicate Exploited(x: Input) {
    "exploit:in-the-wild" in x.event.tags || exists m :: m in x.matches && m.kevMatch
  }

  ghost predicate SomeFacing(x: Input) {
    exists a :: Matched(x, a) && a.internetFacing
  }

  ghost predicate SomeCritical(x: Input) {
    exists a :: Matched(x, a) && a.criticality == "critical"
  }

  ghost predicate SomeHigh(x: Input) {
    exists a :: Matched(x, a) && a.criticality == "high"
  }

  /** One and the same asset is critical and internet-facing. */
  ghost predicate SomeCriticalFacing(x: Input) {
    exists a :: Matched(x, a) && a.criticality == "critical" && a.internetFacing
  }

  ghost predicate SomeSensitive(x: Input) {
    exists a :: Matched(x, a) && (a.dataSensitivity == "high" || a.dataSensitivity == "critical")
  }

  /** Some tag contains one of the two words. */
  ghost predicate TheftSignal(x: Input) {
    exists tag :: tag in x.event.tags && (Holds(tag, "phishing") || Holds(tag, "credential"))
  }

  ghost predicate Holds(s: string, word: string) {
    exists before, after :: s == before + word + after
  }

  // ----- Facts and hits -----

  lemma HitFact(x: Input, q: Quality)
    ensures Hit(x.stack, x.matches, q) <==> exists a :: Matched(x, a) && Has(a, q)
  {
    if Hit(x.stack, x.matches, q) {
      var i: nat, j: nat :| i < |x.matches| && j < |x.stack| && HitAt(x.stack, x.matches, q, i, j);
      assert x.matches[i] in x.matches && x.stack[j] in x.stack;
      assert Matched(x, x.stack[j]) && Has(x.stack[j], q);
    }
    if a :| Matched(x, a) && Has(a, q) {
      var m :| m in x.matches && m.appName == a.name;
      var i: nat :| i < |x.matches| && x.matches[i] == m;
      var j: nat :| j < |x.stack| && x.stack[j] == a;
      assert HitAt(x.stack, x.matches, q, i, j);
    }
  }

  lemma HitsAreFacts(x: Input)
    ensures Hit(x.stack, x.matches, Facing) <==> SomeFacing(x)
    ensures Hit(x.stack, x.matches, CriticalAsset) <==> SomeCritical(x)
    ensures Hit(x.stack, x.matches, HighAsset) <==> SomeHigh(x)
    ensures Hit(x.stack, x.matches, CriticalFacing) <==> SomeCriticalFacing(x)
    ensures Hit(x.stack, x.matches, Sensitive) <==> SomeSensitive(x)
  {
    hide Matched, Hit;
    HitFact(x, Facing);
    HitFact(x, CriticalAsset);
    HitFact(x, HighAsset);
    HitFact(x, CriticalFacing);
    HitFact(x, Sensitive);
  }

  lemma ExploitedIsActive(x: Input)
    ensures Active(x.event, x.matches) <==> Exploited(x)
  {
    if m :| m in x.matches && m.kevMatch {
      var i :| 0 <= i < |x.matches| && x.matches[i] == m;
      assert HasKev(x.matches);
    }
    if i :| 0 <= i < |x.matches| && x.matches[i].kevMatch {
      assert x.matches[i] in x.matches;
    }
  }

  lemma HoldsIsContains(s: string, word: string)
    ensures Contains(s, word) <==> Holds(s, word)
  {
    if i :| 0 <= i <= |s| && OccursAt(s, word, i) {
      assert s == s[..i] + word + s[i + |word|..];
    }
    if before, after :| s == before + word + after {
      assert OccursAt(s, word, |before|);
    }
  }

  lemma TheftIsSignal(x: Input)
    ensures Theft(x.event.tags) <==> TheftSignal(x)
  {
    hide Contains, Holds;
    forall tag ensures TheftTag(tag) <==> Holds(tag, "phishing") || Holds(tag, "credential") {
      HoldsIsContains(tag, "phishing");
      HoldsIsContains(tag, "credential");
    }
    if tag :| tag in x.event.tags && TheftTag(tag) {
      var i :| 0 <= i < |x.event.tags| && x.event.tags[i] == tag;
      assert Theft(x.event.tags);
    }
  }

  // ----- The action -----

  /** The urgency of a leaf from exploitation, exposure, automatability and mission impact. */
  lemma ActiveLeaves(e: nat, a: nat, h: nat)
    requires e < 3 && a < 2 && h < 4
    ensures var l := Leaf(48 + 8 * e + 4 * a + h);
      && l == (if e == 2 && (h == 3 || (h == 2 && a == 1)) then 'I'
               else if (e == 2 && h >= 1) || (e == 2 && a == 1) || (e <= 1 && h >= 2)
                       || (e == 1 && a == 1) || (e == 0 && a == 1 && h >= 1) then 'O'
               else 'S')
  {
    assert (48 + 8 * e + 4 * a + h) / 4 == 12 + 2 * e + a && (48 + 8 * e + 4 * a + h) % 4 == h;
  }

  lemma InactiveLeaves(e: nat, a: nat, h: nat)
    requires e < 3 && a < 2 && h < 4
    ensures var l := Leaf(8 * e + 4 * a + h);
      && l == (if e == 2 && a == 1 && h == 3 then 'O'
               else if (a == 0 && h == 0) || (e == 0 && (h == 0 || (h == 1 && a == 0))) then 'D'
               else 'S')
  {
    assert (8 * e + 4 * a + h) / 4 == 2 * e + a && (8 * e + 4 * a + h) % 4 == h;
  }

  /** The levels in terms of the facts. */
  lemma LevelsOnFacts(x: Input)
    ensures E(x) == if Exploited(x) then 2 else 0
    ensures X(x) == if SomeFacing(x) then 2 else if x.matches != [] then 1 else 0
    ensures A(x) == if x.event.cvss >= 7.0 then 1 else 0
    ensures H(x) == if SomeCritical(x) && SomeCriticalFacing(x) && SomeSensitive(x) then 3
      else if SomeCritical(x) && SomeSensitive(x) then 2
      else if SomeCritical(x) || SomeHigh(x) then 1 else 0
  {
    HitsAreFacts(x);
    ExploitedIsActive(x);
    hide Hit, Active, SomeFacing, SomeCritical, SomeHigh, SomeCriticalFacing, SomeSensitive,
         Exploited;
  }

  lemma FactsNeedMatches(x: Input)
    ensures SomeFacing(x) || SomeCritical(x) || SomeHigh(x) || SomeSensitive(x) ==> x.matches != []
    ensures SomeCriticalFacing(x) ==> SomeCritical(x) && SomeFacing(x)
  {
  }

  ghost predicate ActFacts(x: Input) {
    && Exploited(x) && SomeFacing(x) && SomeCritical(x) && SomeSensitive(x)
    && (SomeCriticalFacing(x) || x.event.cvss >= 7.0)
  }

  ghost predicate TrackFacts(x: Input) {
    !Exploited(x) && (x.matches == [] || (x.event.cvss < 7.0 && !SomeCritical(x) && !SomeHigh(x)))
  }

  ghost predicate AttendFacts(x: Input) {
    || (Exploited(x) && x.matches != [] && !ActFacts(x)
        && (x.event.cvss >= 7.0 || (SomeCritical(x) && SomeSensitive(x))
            || (SomeFacing(x) && (SomeCritical(x) || SomeHigh(x)))))
    || (!Exploited(x) && x.event.cvss >= 7.0 && SomeCriticalFacing(x) && SomeSensitive(x))
  }

  /** The SSVC action on the facts. Act: exploited, with matched assets that are internet-facing, critical
      and sensitive, and either one asset both critical and internet-facing or a CVSS score of at
      least 7. Track: not exploited, and nothing matched or a low score and no important asset. */
  lemma ActionOnFacts(x: Input)
    ensures ActionOf(x) == "Act" <==> ActFacts(x)
    ensures ActionOf(x) == "Track" <==> TrackFacts(x)
    ensures ActionOf(x) == "Attend" <==> AttendFacts(x)
    ensures ActionOf(x) == "Track*" <==> !ActFacts(x) && !TrackFacts(x) && !AttendFacts(x)
  {
    hide Leaf, Outcome, E, X, A, H, Exploited, SomeFacing, SomeCritical, SomeHigh, SomeCriticalFacing, SomeSensitive;
    OutcomeIsLeaf(x);
    LevelsOnFacts(x);
    FactsNeedMatches(x);
    ActiveLeaves(X(x), A(x), H(x));
    InactiveLeaves(X(x), A(x), H(x));
    assert "Track"[0] == 'T' && "Act"[0] == 'A' && "Act"[1] == 'c' && "Attend"[1] == 't' && |"Track*"| == 6;
  }

  // ----- The score -----

  function AtMost(limit: int, n: int): int {
    if n > limit then limit else n
  }

  /** The three dimensions on the facts, for any maxima. Times are in nanoseconds; a publication is recent for
      seven days. */
  lemma ScoreOnFacts(w: Weights, x: Input)
    requires Positive(w)
    ensures Likelihood(w, x.event, x.matches, x.now) == AtMost(w.maxLikelihood,
      (if Exploited(x) then 3 else 0) + (if "exploit:weaponized" in x.event.tags then 2 else 0)
      + (if x.event.threatActors != [] then 1 else 0)
      + (if x.now < x.event.timestamp + 604_800_000_000_000 then 1 else 0))
    ensures Impact(w, x.event, x.stack, x.matches) == AtMost(w.maxImpact,
      var cvss :=
        if x.event.cvss >= 9.0 then 3 else if x.event.cvss >= 7.0 then 2 else if x.event.cvss >= 4.0 then 1 else 0;
      var asset := if SomeCritical(x) then 2 else if SomeHigh(x) then 1 else 0;
      (if cvss == 0 && asset == 0 && x.matches != [] then 1 else cvss + asset) + (if SomeSensitive(x) then 1 else 0))
    ensures ExposureScore(w, x.event, x.stack, x.matches) == AtMost(w.maxExposure,
      (if SomeFacing(x) then 2 else if x.matches != [] then 1 else 0) + (if TheftSignal(x) then 1 else 0))
  {
    HitsAreFacts(x);
    ExploitedIsActive(x);
    TheftIsSignal(x);
    hide Hit, Active, Theft, TheftSignal, SomeFacing, SomeCritical, SomeHigh, SomeCriticalFacing, SomeSensitive,
         Exploited;
  }

  /** With thresholds in order a label is reached exactly when the score reaches its threshold; the score is
      the product of the three dimensions out of the product of their maxima. */
  lemma LabelReached(w: Weights, x: Input)
    requires Positive(w) && w.critical >= w.high >= w.medium
    ensures var score := RiskScore(w, x.event, x.stack, x.matches, x.now);
      && score * (w.maxLikelihood * w.maxImpact * w.maxExposure) as real ==
        (Likelihood(w, x.event, x.matches, x.now) * Impact(w, x.event, x.stack, x.matches)
         * ExposureScore(w, x.event, x.stack, x.matches)) as real
      && (SeverityLabel(w, score) == "critical" <==> score >= w.critical)
      && (SeverityLabel(w, score) in ["critical", "high"] <==> score >= w.high)
      && (SeverityLabel(w, score) in ["critical", "high", "medium"] <==> score >= w.medium)
  {
    hide Likelihood, Impact, ExposureScore;
    MaximaPositive(w);
    assert "critical"[0] == 'c' && "high"[0] == 'h' && "medium"[0] == 'm' && "low"[0] == 'l';
  }

  /** The confidence and its label, for any maximum: a maximum below 3 rules HIGH out, and one of 1 makes every
      label LOW. */
  lemma ConfidenceOnFacts(w: Weights, event: ThreatEvent)
    requires Positive(w)
    ensures var points := if event.sourceConfidence == "high" then 4 else if event.sourceConfidence == "medium" then 3
        else if event.sourceConfidence == "low" then 1 else 2;
      var c := Confidence(w, event);
      && c == AtMost(w.maxConfidence, points)
      && (ConfidenceLabel(c) == "HIGH" <==> points >= 3 && w.maxConfidence >= 3)
      && (ConfidenceLabel(c) == "LOW" <==> points == 1 || w.maxConfidence == 1)
  {
    assert "HIGH"[0] == 'H' && "MEDIUM"[0] == 'M' && "LOW"[0] == 'L';
  }
}
