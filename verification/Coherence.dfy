/** Relational properties of the two scorers: worsening an input never lowers any output, the
    order of lists does not matter, and the score and the SSVC action agree. */
module Coherence {
  import opened Text
  import opened Model
  import opened Ssvc
  import opened Scoring

  datatype Input = Input(event: ThreatEvent, stack: seq<App>, matches: seq<Match>, now: int)

  // ----- Worsening never helps -----

  function CriticalityRank(s: string): nat {
    if s == "critical" then 2 else if s == "high" then 1 else 0
  }

  /** Application b is at least as critical, sensitive and exposed as its namesake a. */
  predicate AppWorse(a: App, b: App) {
    && b.name == a.name
    && CriticalityRank(a.criticality) <= CriticalityRank(b.criticality)
    && (Has(a, Sensitive) ==> Has(b, Sensitive))
    && (a.internetFacing ==> b.internetFacing)
  }

  predicate MatchWorse(m: Match, n: Match) {
    n.appName == m.appName && (m.kevMatch ==> n.kevMatch)
  }

  ghost predicate MatchesWorse(ms: seq<Match>, ns: seq<Match>) {
    forall m :: m in ms ==> exists n :: n in ns && MatchWorse(m, n)
  }

  ghost predicate StackWorse(apps: seq<App>, bpps: seq<App>) {
    forall a :: a in apps ==> exists b :: b in bpps && AppWorse(a, b)
  }

  /** Input y is at least as bad as x: more tags, matches, applications and actors, each at least as
      bad, a higher CVSS score and a fresher publication. Lists are compared as sets. */
  ghost predicate Worse(x: Input, y: Input) {
    && (forall tag :: tag in x.event.tags ==> tag in y.event.tags)
    && x.event.cvss <= y.event.cvss
    && (x.event.threatActors != [] ==> y.event.threatActors != [])
    && y.now - y.event.timestamp <= x.now - x.event.timestamp
    && MatchesWorse(x.matches, y.matches)
    && StackWorse(x.stack, y.stack)
  }

  lemma HitWorse(x: Input, y: Input, q: Quality)
    requires Worse(x, y) && Hit(x.stack, x.matches, q)
    ensures Hit(y.stack, y.matches, q) || (q == HighAsset && Hit(y.stack, y.matches, CriticalAsset))
  {
    var i: nat, j: nat :| i < |x.matches| && j < |x.stack| && HitAt(x.stack, x.matches, q, i, j);
    assert x.matches[i] in x.matches && x.stack[j] in x.stack;
    var n :| n in y.matches && MatchWorse(x.matches[i], n);
    var b :| b in y.stack && AppWorse(x.stack[j], b);
    var k: nat :| k < |y.matches| && y.matches[k] == n;
    var l: nat :| l < |y.stack| && y.stack[l] == b;
    assert HitAt(y.stack, y.matches, q, k, l) || (q == HighAsset && HitAt(y.stack, y.matches, CriticalAsset, k, l));
  }

  lemma SignalsWorse(x: Input, y: Input)
    requires Worse(x, y)
    ensures HasKev(x.matches) ==> HasKev(y.matches)
    ensures Theft(x.event.tags) ==> Theft(y.event.tags)
    ensures |x.matches| > 0 ==> |y.matches| > 0
    ensures forall tag :: tag in x.event.tags ==> tag in y.event.tags
  {
    if HasKev(x.matches) {
      var i :| 0 <= i < |x.matches| && x.matches[i].kevMatch;
      assert x.matches[i] in x.matches;
      var n :| n in y.matches && MatchWorse(x.matches[i], n);
      assert n.kevMatch;
    }
    if Theft(x.event.tags) {
      var i :| 0 <= i < |x.event.tags| && TheftTag(x.event.tags[i]);
      assert x.event.tags[i] in y.event.tags;
    }
    if |x.matches| > 0 {
      assert x.matches[0] in x.matches;
    }
  }

  /** The raw sums of the three dimensions are monotone. */
  lemma SumsWorse(x: Input, y: Input)
    requires Worse(x, y)
    ensures 0 <= LikelihoodSum(x.event, x.matches, x.now) <= LikelihoodSum(y.event, y.matches, y.now)
    ensures 0 <= ImpactSum(x.event, x.stack, x.matches) <= ImpactSum(y.event, y.stack, y.matches)
    ensures 0 <= ExposureSum(x.event, x.stack, x.matches) <= ExposureSum(y.event, y.stack, y.matches)
  {
    HitsWorse(x, y);
    SignalsWorse(x, y);
    hide Hit, HasKev, Theft, Worse;
    assert x.event.cvss <= y.event.cvss by { WorseScalars(x, y); }
    WorseScalars(x, y);
  }

  lemma WorseScalars(x: Input, y: Input)
    requires Worse(x, y)
    ensures x.event.cvss <= y.event.cvss && y.now - y.event.timestamp <= x.now - x.event.timestamp
    ensures x.event.threatActors != [] ==> y.event.threatActors != []
  {
  }

  lemma HitsWorse(x: Input, y: Input)
    requires Worse(x, y)
    ensures forall q :: q != HighAsset && Hit(x.stack, x.matches, q) ==> Hit(y.stack, y.matches, q)
    ensures Hit(x.stack, x.matches, HighAsset) ==>
      Hit(y.stack, y.matches, HighAsset) || Hit(y.stack, y.matches, CriticalAsset)
  {
    forall q | Hit(x.stack, x.matches, q)
      ensures Hit(y.stack, y.matches, q) || (q == HighAsset && Hit(y.stack, y.matches, CriticalAsset))
    {
      HitWorse(x, y, q);
    }
  }

  lemma TimesMonotone(a: int, a': int, b: int)
    requires 0 <= a <= a' && 0 <= b
    ensures 0 <= a * b <= a' * b
  {
    assert a' * b == a * b + (a' - a) * b;
  }

  lemma ProductMonotone(a: int, b: int, c: int, a': int, b': int, c': int)
    requires 0 <= a <= a' && 0 <= b <= b' && 0 <= c <= c'
    ensures 0 <= a * b * c <= a' * b' * c'
  {
    TimesMonotone(a, a', b);
    TimesMonotone(b, b', a');
    assert 0 <= a * b <= a' * b';
    TimesMonotone(a * b, a' * b', c);
    TimesMonotone(c, c', a' * b');
  }

  lemma QuotientMonotone(p: int, q: int, d: int)
    requires p <= q && d > 0
    ensures p as real / d as real <= q as real / d as real
  {
  }

  /** The four coordinates of an input in the decision table. */
  ghost function E(x: Input): (e: nat)
    ensures e < 3
  {
    ExploitationIndex(Exploitation(x.event, x.matches)).value
  }

  ghost function X(x: Input): (e: nat)
    ensures e < 3
  {
    ExposureIndex(Exposure(x.stack, x.matches)).value
  }

  ghost function A(x: Input): (a: nat)
    ensures a < 2
  {
    if Automatable(x.event) then 1 else 0
  }

  ghost function H(x: Input): (h: nat)
    ensures h < 4
  {
    MissionIndex(Mission(x.stack, x.matches)).value
  }

  /** The determined levels are always recognised, so the lookup never falls back. */
  lemma OutcomeIsLeaf(x: Input)
    ensures Outcome(x.event, x.stack, x.matches) == Leaf(24 * E(x) + 8 * X(x) + 4 * A(x) + H(x))
  {
    hide Hit, Active, Leaf, Exploitation, Exposure, Mission, ExploitationIndex, ExposureIndex, MissionIndex;
    Recognised(x);
  }

  lemma Recognised(x: Input)
    ensures ExploitationIndex(Exploitation(x.event, x.matches)) == Some(E(x))
    ensures ExposureIndex(Exposure(x.stack, x.matches)) == Some(X(x))
    ensures MissionIndex(Mission(x.stack, x.matches)) == Some(H(x))
  {
    hide Hit, Active;
  }

  lemma CoordinatesWorse(x: Input, y: Input)
    requires Worse(x, y)
    ensures E(x) <= E(y) && X(x) <= X(y) && A(x) <= A(y) && H(x) <= H(y)
  {
    HitsWorse(x, y);
    SignalsWorse(x, y);
    hide Hit, HasKev;
  }

  lemma ActionWorse(x: Input, y: Input)
    requires Worse(x, y)
    ensures Rank(Outcome(x.event, x.stack, x.matches)) <= Rank(Outcome(y.event, y.stack, y.matches))
  {
    hide E, X, A, H, Leaf, Worse, Outcome;
    CoordinatesWorse(x, y);
    OutcomeIsLeaf(x);
    OutcomeIsLeaf(y);
    TableMonotone(E(x), X(x), A(x), H(x), E(y), X(y), A(y), H(y));
  }

  /** Worsening never helps, for any thresholds and any positive maxima: no dimension, neither the
      score nor the severity, and not the urgency of the SSVC action, ever goes down. The
      thresholds are taken in their order, as the label function tests them. */
  lemma WorseningNeverHelps(w: Weights, x: Input, y: Input)
    requires Positive(w) && Worse(x, y)
    ensures Likelihood(w, x.event, x.matches, x.now) <= Likelihood(w, y.event, y.matches, y.now)
    ensures Impact(w, x.event, x.stack, x.matches) <= Impact(w, y.event, y.stack, y.matches)
    ensures ExposureScore(w, x.event, x.stack, x.matches) <= ExposureScore(w, y.event, y.stack, y.matches)
    ensures RiskScore(w, x.event, x.stack, x.matches, x.now) <= RiskScore(w, y.event, y.stack, y.matches, y.now)
    ensures SeverityRank(SeverityLabel(w, RiskScore(w, x.event, x.stack, x.matches, x.now)))
         <= SeverityRank(SeverityLabel(w, RiskScore(w, y.event, y.stack, y.matches, y.now)))
    ensures Rank(Outcome(x.event, x.stack, x.matches)) <= Rank(Outcome(y.event, y.stack, y.matches))
  {
    hide LikelihoodSum, ImpactSum, ExposureSum, Worse, Outcome;
    SumsWorse(x, y);
    ActionWorse(x, y);
    MaximaPositive(w);
    var l, m, e :=
      Likelihood(w, x.event, x.matches, x.now), Impact(w, x.event, x.stack, x.matches),
      ExposureScore(w, x.event, x.stack, x.matches);
    var l', m', e' :=
      Likelihood(w, y.event, y.matches, y.now), Impact(w, y.event, y.stack, y.matches),
      ExposureScore(w, y.event, y.stack, y.matches);
    ProductMonotone(l, m, e, l', m', e');
    QuotientMonotone(l * m * e, l' * m' * e', w.maxLikelihood * w.maxImpact * w.maxExposure);
  }

  /** Two inputs whose tags, matches and inventories are equal as sets get the same results. */
  lemma OrderIrrelevant(w: Weights, x: Input, y: Input)
    requires Positive(w)
    requires forall tag :: tag in x.event.tags <==> tag in y.event.tags
    requires forall m :: m in x.matches <==> m in y.matches
    requires forall a :: a in x.stack <==> a in y.stack
    requires x.event.cvss == y.event.cvss && (x.event.threatActors == [] <==> y.event.threatActors == [])
    requires x.now - x.event.timestamp == y.now - y.event.timestamp
    ensures RiskScore(w, x.event, x.stack, x.matches, x.now) == RiskScore(w, y.event, y.stack, y.matches, y.now)
    ensures Action(Outcome(x.event, x.stack, x.matches)) == Action(Outcome(y.event, y.stack, y.matches))
  {
    hide Worse, E, X, A, H, Leaf, RiskScore;
    OutcomeIsLeaf(x);
    OutcomeIsLeaf(y);
    LeafLetters(24 * E(x) + 8 * X(x) + 4 * A(x) + H(x));
    LeafLetters(24 * E(y) + 8 * X(y) + 4 * A(y) + H(y));
    SameSetsWorse(x, y);
    SameSetsWorse(y, x);
    WorseningNeverHelps(w, x, y);
    WorseningNeverHelps(w, y, x);
  }

  lemma SameSetsWorse(x: Input, y: Input)
    requires forall tag :: tag in x.event.tags ==> tag in y.event.tags
    requires forall m :: m in x.matches ==> m in y.matches
    requires forall a :: a in x.stack ==> a in y.stack
    requires x.event.cvss == y.event.cvss && (x.event.threatActors == [] <==> y.event.threatActors == [])
    requires x.now - x.event.timestamp == y.now - y.event.timestamp
    ensures Worse(x, y)
  {
    forall m | m in x.matches ensures exists n :: n in y.matches && MatchWorse(m, n) {
      assert m in y.matches && MatchWorse(m, m);
    }
    forall a | a in x.stack ensures exists b :: b in y.stack && AppWorse(a, b) {
      assert a in y.stack && AppWorse(a, a);
    }
  }

  // ----- The two scorers agree, with the default weights -----

  /** The numerator of the risk score; the denominator is 75. */
  ghost function Points(x: Input): int {
    Likelihood(DEFAULT, x.event, x.matches, x.now) * Impact(DEFAULT, x.event, x.stack, x.matches)
    * ExposureScore(DEFAULT, x.event, x.stack, x.matches)
  }

  ghost function Severity(x: Input): string {
    SeverityLabel(DEFAULT, RiskScore(DEFAULT, x.event, x.stack, x.matches, x.now))
  }

  ghost function ActionOf(x: Input): string {
    Action(Outcome(x.event, x.stack, x.matches))
  }

  /** The labels in terms of points: no label's threshold is a multiple of 1/75, so rounding of the
      quotient can not matter. */
  lemma SeverityPoints(x: Input)
    ensures Severity(x) ==
      if Points(x) >= 38 then "critical" else if Points(x) >= 19 then "high"
      else if Points(x) >= 8 then "medium" else "low"
  {
    assert RiskScore(DEFAULT, x.event, x.stack, x.matches, x.now) == Points(x) as real / 75.0;
  }

  lemma LeavesOfActive(x: nat, a: nat, h: nat)
    requires x < 3 && a < 2 && h < 4
    ensures Leaf(48 + 8 * x + 4 * a + h) != 'D'
    ensures Leaf(48 + 8 * x + 4 * a + h) == 'I' <==> x == 2 && (h == 3 || (h == 2 && a == 1))
  {
    assert (48 + 8 * x + 4 * a + h) / 4 == 12 + 2 * x + a && (48 + 8 * x + 4 * a + h) % 4 == h;
  }

  lemma LeavesOfInactive(x: nat, a: nat, h: nat)
    requires x < 3 && a < 2 && h < 4
    ensures Leaf(8 * x + 4 * a + h) != 'I'
    ensures Leaf(8 * x + 4 * a + h) == 'D' <==> (a == 0 && h == 0) || (x == 0 && (h == 0 || (h == 1 && a == 0)))
  {
    assert (8 * x + 4 * a + h) / 4 == 2 * x + a && (8 * x + 4 * a + h) % 4 == h;
  }

  /** Act means: exploited, exposed on a matched asset, and of very high mission impact, or of high
      impact and automatable. */
  lemma ActIff(x: Input)
    ensures ActionOf(x) == "Act" <==> E(x) == 2 && X(x) == 2 && (H(x) == 3 || (H(x) == 2 && A(x) == 1))
    ensures ActionOf(x) == "Track"
       <==> E(x) == 0 && ((A(x) == 0 && H(x) == 0) || (X(x) == 0 && (H(x) == 0 || (H(x) == 1 && A(x) == 0))))
  {
    hide Leaf, Outcome, E, X, A, H, Active, Hit;
    OutcomeIsLeaf(x);
    LevelsReached(x);
    LeafLetters(24 * E(x) + 8 * X(x) + 4 * A(x) + H(x));
    LeavesOfActive(X(x), A(x), H(x));
    LeavesOfInactive(X(x), A(x), H(x));
  }

  /** What the decision points say about the facts; proof of concept is never determined. */
  lemma LevelsReached(x: Input)
    ensures E(x) == 2 <==> Active(x.event, x.matches)
    ensures E(x) == 0 <==> !Active(x.event, x.matches)
    ensures X(x) == 2 <==> Hit(x.stack, x.matches, Facing)
    ensures X(x) == 0 ==> |x.matches| == 0
    ensures A(x) == 1 <==> x.event.cvss >= 7.0
    ensures H(x) >= 2 ==> Hit(x.stack, x.matches, CriticalAsset) && Hit(x.stack, x.matches, Sensitive)
    ensures H(x) == 0 ==> !Hit(x.stack, x.matches, CriticalAsset) && !Hit(x.stack, x.matches, HighAsset)
  {
  }

  /** An Act decision scores at least 18/75 and therefore is at least of medium severity. */
  lemma ActIsAtLeastMedium(x: Input)
    requires ActionOf(x) == "Act"
    ensures RiskScore(DEFAULT, x.event, x.stack, x.matches, x.now) >= 18.0 / 75.0
    ensures SeverityRank(Severity(x)) >= 1
  {
    hide Outcome, Hit, E, X, A, H;
    ActIff(x);
    LevelsReached(x);
    SeverityPoints(x);
    var l, m, e :=
      Likelihood(DEFAULT, x.event, x.matches, x.now), Impact(DEFAULT, x.event, x.stack, x.matches),
      ExposureScore(DEFAULT, x.event, x.stack, x.matches);
    assert l >= 3 && m >= 3 && e >= 2;
    ProductMonotone(3, 3, 2, l, m, e);
    assert RiskScore(DEFAULT, x.event, x.stack, x.matches, x.now) == Points(x) as real / 75.0;
  }

  /** Critical severity is never merely tracked. */
  lemma CriticalIsNotTrack(x: Input)
    requires Severity(x) == "critical"
    ensures ActionOf(x) != "Track"
  {
    hide Outcome, Hit, E, X, A, H;
    ActIff(x);
    LevelsReached(x);
    SeverityPoints(x);
    var l, m, e :=
      Likelihood(DEFAULT, x.event, x.matches, x.now), Impact(DEFAULT, x.event, x.stack, x.matches),
      ExposureScore(DEFAULT, x.event, x.stack, x.matches);
    if E(x) == 0 && A(x) == 0 && H(x) == 0 {
      ProductMonotone(l, m, e, 4, 2, 3);
    } else if E(x) == 0 && X(x) == 0 {
      NoMatchNoHit(x);
      ProductMonotone(l, m, e, 4, 3, 1);
    }
  }

  lemma NoMatchNoHit(x: Input)
    requires |x.matches| == 0
    ensures forall q :: !Hit(x.stack, x.matches, q)
  {
  }

  /** Active exploitation is never merely tracked, whatever the severity. */
  lemma ExploitedIsNotTrack(x: Input)
    requires Active(x.event, x.matches)
    ensures ActionOf(x) != "Track"
  {
    ActIff(x);
    LevelsReached(x);
  }

  /** Without a matched internet-facing application and without a phishing or credential tag the
      score is at most 25/75, and never critical. */
  lemma UnexposedIsNotCritical(x: Input)
    requires !Hit(x.stack, x.matches, Facing) && !Theft(x.event.tags)
    ensures RiskScore(DEFAULT, x.event, x.stack, x.matches, x.now) <= 25.0 / 75.0
    ensures Severity(x) != "critical"
  {
    hide Hit, Theft;
    SeverityPoints(x);
    var l, m, e :=
      Likelihood(DEFAULT, x.event, x.matches, x.now), Impact(DEFAULT, x.event, x.stack, x.matches),
      ExposureScore(DEFAULT, x.event, x.stack, x.matches);
    ProductMonotone(l, m, e, 5, 5, 1);
    assert RiskScore(DEFAULT, x.event, x.stack, x.matches, x.now) == Points(x) as real / 75.0;
  }

  /** The bound for Act is tight: 18/75, of medium severity, is reached. */
  lemma ActBoundIsTight(x: Input)
    requires x.event == ThreatEvent("t", [], 0.0, ["exploit:in-the-wild"], 0, [], [], [], "high")
    requires x.stack == [App("a", "", "", "critical", true, "high", "")]
    requires x.matches == [Match("m", "c", "a", "", false, "", false, "", false, "")] && x.now == FRESH
    ensures ActionOf(x) == "Act" && Points(x) == 18 && Severity(x) == "medium"
  {
    assert HitAt(x.stack, x.matches, CriticalAsset, 0, 0) && HitAt(x.stack, x.matches, CriticalFacing, 0, 0);
    assert HitAt(x.stack, x.matches, Sensitive, 0, 0) && HitAt(x.stack, x.matches, Facing, 0, 0);
    assert !TheftTag("exploit:in-the-wild") by { NoTheft(); }
    ActIff(x);
    SeverityPoints(x);
  }

  lemma NoTheft()
    ensures !TheftTag("exploit:in-the-wild")
  {
    var s := "exploit:in-the-wild";
    assert forall i :: 0 <= i < |s| ==> s[i] != 'g' && s[i] != 'c';
    assert forall i :: OccursAt(s, "phishing", i) ==> s[i..i + 8][7] == 'g';
    assert forall i :: OccursAt(s, "credential", i) ==> s[i..i + 10][0] == 'c';
  }
}
