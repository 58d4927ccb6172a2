/** The multiplicative risk score: Likelihood x Impact x Exposure over the product of the maxima.
    Scores are exact rationals; times are in nanoseconds. */
module Scoring {
  import opened Text
  import opened Model
  import opened Ssvc

  const FRESH := 7 * 24 * 3600 * 1_000_000_000

  datatype Weights = Weights(maxLikelihood: int, maxImpact: int, maxExposure: int, maxConfidence: int, critical: real,
                             high: real, medium: real)

  /** Configured maxima only replace the defaults when positive. */
  ghost predicate Positive(w: Weights) {
    w.maxLikelihood > 0 && w.maxImpact > 0 && w.maxExposure > 0 && w.maxConfidence > 0
  }

  const DEFAULT := Weights(5, 5, 3, 4, 0.50, 0.25, 0.10)

  datatype Contribution = Contribution(reason: string, delta: int)

  function Sum(fs: seq<Contribution>): int {
    if fs == [] then 0 else Sum(fs[..|fs| - 1]) + fs[|fs| - 1].delta
  }

  function Clamp(s: int, max: int): int {
    var capped := if s > max then max else s;
    if capped < 0 then 0 else capped
  }

  lemma SumSnoc(fs: seq<Contribution>, f: Contribution)
    ensures Sum(fs + [f]) == Sum(fs) + f.delta
  {
    assert (fs + [f])[..|fs|] == fs;
  }

  // ----- What the factors add up to -----

  ghost function LikelihoodSum(event: ThreatEvent, matches: seq<Match>, now: int): int {
    (if Active(event, matches) then 3 else 0)
    + (if "exploit:weaponized" in event.tags then 2 else 0)
    + (if event.threatActors != [] then 1 else 0)
    + (if now - event.timestamp < FRESH then 1 else 0)
  }

  function CvssTier(cvss: real): int {
    if cvss >= 9.0 then 3 else if cvss >= 7.0 then 2 else if cvss >= 4.0 then 1 else 0
  }

  ghost function AssetTier(stack: seq<App>, matches: seq<Match>): int {
    if Hit(stack, matches, CriticalAsset) then 2 else if Hit(stack, matches, HighAsset) then 1 else 0
  }

  ghost function ImpactSum(event: ThreatEvent, stack: seq<App>, matches: seq<Match>): int {
    var tiers := CvssTier(event.cvss) + AssetTier(stack, matches);
    (if tiers == 0 && |matches| > 0 then 1 else tiers)
    + (if Hit(stack, matches, Sensitive) then 1 else 0)
  }

  predicate TheftTag(tag: string) {
    Contains(tag, "phishing") || Contains(tag, "credential")
  }

  ghost predicate Theft(tags: seq<string>) {
    exists i :: 0 <= i < |tags| && TheftTag(tags[i])
  }

  ghost function ExposureSum(event: ThreatEvent, stack: seq<App>, matches: seq<Match>): int {
    (if Hit(stack, matches, Facing) then 2 else if |matches| > 0 then 1 else 0)
    + (if Theft(event.tags) then 1 else 0)
  }

  // ----- The factor lists, as the engine builds them -----

  method LikelihoodFactors(event: ThreatEvent, matches: seq<Match>, now: int) returns (f: seq<Contribution>)
    ensures Sum(f) == LikelihoodSum(event, matches, now)
  {
    f := [];
    var kev := false;
    for i := 0 to |matches|
      invariant !kev && forall k :: 0 <= k < i ==> !matches[k].kevMatch
    {
      if matches[i].kevMatch {
        kev := true;
        break;
      }
    }
    var wild := kev;
    if !kev {
      for i := 0 to |event.tags|
        invariant !wild && forall k :: 0 <= k < i ==> event.tags[k] != "exploit:in-the-wild"
      {
        if event.tags[i] == "exploit:in-the-wild" {
          wild := true;
          break;
        }
      }
    }
    if kev {
      f := f + [Contribution("Active exploitation confirmed by CISA KEV", 3)];
    } else if wild {
      f := f + [Contribution("Active exploitation tag (exploit:in-the-wild)", 3)];
    }
    assert Sum(f) == if Active(event, matches) then 3 else 0;
    f := AddLikelihoodSignals(f, event, now);
  }

  method AddLikelihoodSignals(f0: seq<Contribution>, event: ThreatEvent, now: int) returns (f: seq<Contribution>)
    ensures Sum(f) == Sum(f0) + (if "exploit:weaponized" in event.tags then 2 else 0)
      + (if event.threatActors != [] then 1 else 0) + (if now - event.timestamp < FRESH then 1 else 0)
  {
    f := f0;
    var weaponized := false;
    for i := 0 to |event.tags|
      invariant !weaponized && forall k :: 0 <= k < i ==> event.tags[k] != "exploit:weaponized"
    {
      if event.tags[i] == "exploit:weaponized" {
        weaponized := true;
        break;
      }
    }
    if weaponized {
      SumSnoc(f, Contribution("Weaponization confirmed (exploit:weaponized)", 2));
      f := f + [Contribution("Weaponization confirmed (exploit:weaponized)", 2)];
    }
    if |event.threatActors| > 0 {
      SumSnoc(f, Contribution("Threat actor activity", 1));
      f := f + [Contribution("Threat actor activity", 1)];
    }
    if now - event.timestamp < FRESH {
      SumSnoc(f, Contribution("Recent publication (within 7 days)", 1));
      f := f + [Contribution("Recent publication (within 7 days)", 1)];
    }
  }

  method CriticalityFlags(stack: seq<App>, matches: seq<Match>) returns (hasCritical: bool, hasHigh: bool)
    ensures hasCritical == Hit(stack, matches, CriticalAsset) && hasHigh == Hit(stack, matches, HighAsset)
  {
    hide HitBefore;
    hasCritical, hasHigh := false, false;
    forall q { HitAll(stack, matches, q); }
    for i := 0 to |matches|
      invariant hasCritical == HitBefore(stack, matches, CriticalAsset, i, 0)
      invariant hasHigh == HitBefore(stack, matches, HighAsset, i, 0)
    {
      forall q { HitRow(stack, matches, q, i); }
      if matches[i].appName != "" {
        for j := 0 to |stack|
          invariant hasCritical == HitBefore(stack, matches, CriticalAsset, i, j)
          invariant hasHigh == HitBefore(stack, matches, HighAsset, i, j)
        {
          forall q { HitStep(stack, matches, q, i, j); }
          if stack[j].name == matches[i].appName {
            if stack[j].criticality == "critical" {
              hasCritical := true;
            } else if stack[j].criticality == "high" {
              hasHigh := true;
            }
          }
        }
      }
    }
  }

  /** The scan stops at the first matched application with sensitive data. */
  method HandlesSensitiveData(stack: seq<App>, matches: seq<Match>) returns (found: bool)
    ensures found == Hit(stack, matches, Sensitive)
  {
    HitAll(stack, matches, Sensitive);
    for i := 0 to |matches|
      invariant !HitBefore(stack, matches, Sensitive, i, 0)
    {
      HitRow(stack, matches, Sensitive, i);
      if matches[i].appName != "" {
        for j := 0 to |stack|
          invariant !HitBefore(stack, matches, Sensitive, i, j)
        {
          HitStep(stack, matches, Sensitive, i, j);
          var app := stack[j];
          if app.name == matches[i].appName && (app.dataSensitivity == "critical" || app.dataSensitivity == "high") {
            return true;
          }
        }
      }
    }
    return false;
  }

  method ExposureFlags(stack: seq<App>, matches: seq<Match>) returns (hasAnyMatch: bool, internetFacing: bool)
    ensures hasAnyMatch == Hit(stack, matches, Known) && internetFacing == Hit(stack, matches, Facing)
  {
    hide HitBefore;
    hasAnyMatch, internetFacing := false, false;
    forall q { HitAll(stack, matches, q); }
    for i := 0 to |matches|
      invariant hasAnyMatch == HitBefore(stack, matches, Known, i, 0)
      invariant internetFacing == HitBefore(stack, matches, Facing, i, 0)
    {
      forall q { HitRow(stack, matches, q, i); }
      if matches[i].appName != "" {
        for j := 0 to |stack|
          invariant hasAnyMatch == HitBefore(stack, matches, Known, i, j)
          invariant internetFacing == HitBefore(stack, matches, Facing, i, j)
        {
          forall q { HitStep(stack, matches, q, i, j); }
          if stack[j].name == matches[i].appName {
            hasAnyMatch := true;
            if stack[j].internetFacing {
              internetFacing := true;
            }
          }
        }
      }
    }
  }

  method ImpactFactors(event: ThreatEvent, stack: seq<App>, matches: seq<Match>) returns (f: seq<Contribution>)
    ensures Sum(f) == ImpactSum(event, stack, matches)
  {
    f := [];
    if event.cvss >= 9.0 {
      f := [Contribution("CVSS (critical)", 3)];
    } else if event.cvss >= 7.0 {
      f := [Contribution("CVSS (high)", 2)];
    } else if event.cvss >= 4.0 {
      f := [Contribution("CVSS (medium)", 1)];
    }
    assert Sum(f) == CvssTier(event.cvss);
    f := AddAssetFactors(f, stack, matches);
  }

  method AddAssetFactors(f0: seq<Contribution>, stack: seq<App>, matches: seq<Match>) returns (f: seq<Contribution>)
    ensures var tiers := Sum(f0) + AssetTier(stack, matches);
      Sum(f) == (if tiers == 0 && |matches| > 0 then 1 else tiers) + (if Hit(stack, matches, Sensitive) then 1 else 0)
  {
    hide Hit;
    f := f0;
    var hasCritical, hasHigh := CriticalityFlags(stack, matches);
    if hasCritical {
      SumSnoc(f, Contribution("Matched a critical-infrastructure asset", 2));
      f := f + [Contribution("Matched a critical-infrastructure asset", 2)];
    } else if hasHigh {
      SumSnoc(f, Contribution("Matched a high-criticality asset", 1));
      f := f + [Contribution("Matched a high-criticality asset", 1)];
    }
    var raw := RawSum(f);
    if raw == 0 && |matches| > 0 {
      SumSnoc(f, Contribution("Matched asset in tech stack (baseline)", 1));
      f := f + [Contribution("Matched asset in tech stack (baseline)", 1)];
    }
    var sensitive := HandlesSensitiveData(stack, matches);
    if sensitive {
      SumSnoc(f, Contribution("Matched asset handles sensitive data", 1));
      f := f + [Contribution("Matched asset handles sensitive data", 1)];
    }
  }

  method ExposureFactors(event: ThreatEvent, stack: seq<App>, matches: seq<Match>) returns (f: seq<Contribution>)
    ensures Sum(f) == ExposureSum(event, stack, matches)
  {
    f := [];
    var hasAnyMatch, internetFacing := ExposureFlags(stack, matches);
    if internetFacing {
      f := [Contribution("Matched asset is internet-facing", 2)];
    } else if hasAnyMatch || |matches| > 0 {
      f := [Contribution("Matched asset in tech stack (baseline)", 1)];
    }
    assert Sum(f) == if Hit(stack, matches, Facing) then 2 else if |matches| > 0 then 1 else 0;
    var theft := false;
    for i := 0 to |event.tags|
      invariant !theft && forall k :: 0 <= k < i ==> !TheftTag(event.tags[k])
    {
      if TheftTag(event.tags[i]) {
        theft := true;
        break;
      }
    }
    if theft {
      SumSnoc(f, Contribution("Phishing/credential-theft vector", 1));
      f := f + [Contribution("Phishing/credential-theft vector", 1)];
    }
  }

  /** What the source's own confidence is worth. */
  function SourceTrust(event: ThreatEvent): int {
    if event.sourceConfidence == "high" then 3 else if event.sourceConfidence == "medium" then 2
    else if event.sourceConfidence == "low" then 0 else 1
  }

  /** The trust in the source and one point for the baseline, up to the maximum. */
  function Confidence(w: Weights, event: ThreatEvent): int {
    Clamp(SourceTrust(event) + 1, w.maxConfidence)
  }

  function ConfidenceLabel(score: int): string {
    if score >= 3 then "HIGH" else if score >= 2 then "MEDIUM" else "LOW"
  }

  method ConfidenceFactors(w: Weights, event: ThreatEvent) returns (f: seq<Contribution>)
    ensures Sum(f) == SourceTrust(event) + if SourceTrust(event) < w.maxConfidence then 1 else 0
  {
    f := [];
    if event.sourceConfidence == "high" {
      f := [Contribution("Source confidence: high", 3)];
    } else if event.sourceConfidence == "medium" {
      f := [Contribution("Source confidence: medium", 2)];
    } else if event.sourceConfidence == "low" {
    } else {
      f := [Contribution("Source confidence: unspecified", 1)];
    }
    assert f != [] ==> f[..0] == [];
    var total := RawSum(f);
    if total < w.maxConfidence {
      SumSnoc(f, Contribution("Baseline reliability", 1));
      f := f + [Contribution("Baseline reliability", 1)];
    }
  }

  /** The baseline point is left out only where the cap would take it away. */
  lemma ConfidenceSumCapped(w: Weights, event: ThreatEvent)
    requires Positive(w)
    ensures Clamp(SourceTrust(event) + (if SourceTrust(event) < w.maxConfidence then 1 else 0), w.maxConfidence) ==
      Confidence(w, event)
  {
  }

  /** With the default weights a source of medium confidence is already labelled HIGH, and one that
      says nothing MEDIUM; only a source of low confidence is labelled LOW. */
  lemma DefaultConfidence(event: ThreatEvent)
    ensures var c := ConfidenceLabel(Confidence(DEFAULT, event));
      && (c == "HIGH" <==> event.sourceConfidence == "high" || event.sourceConfidence == "medium")
      && (c == "LOW" <==> event.sourceConfidence == "low")
  {
    assert "HIGH"[0] == 'H' && "MEDIUM"[0] == 'M' && "LOW"[0] == 'L';
  }

  method RawSum(fs: seq<Contribution>) returns (s: int)
    ensures s == Sum(fs)
  {
    s := 0;
    for i := 0 to |fs|
      invariant s == Sum(fs[..i])
    {
      assert fs[..i + 1][..i] == fs[..i];
      s := s + fs[i].delta;
    }
    assert fs[..|fs|] == fs;
  }

  method SumCapped(fs: seq<Contribution>, max: int) returns (s: int)
    ensures s == Clamp(Sum(fs), max)
  {
    s := RawSum(fs);
    if s > max {
      s := max;
    }
    if s < 0 {
      s := 0;
    }
  }

  // ----- The score -----

  ghost function Likelihood(w: Weights, event: ThreatEvent, matches: seq<Match>, now: int): int {
    Clamp(LikelihoodSum(event, matches, now), w.maxLikelihood)
  }

  ghost function Impact(w: Weights, event: ThreatEvent, stack: seq<App>, matches: seq<Match>): int {
    Clamp(ImpactSum(event, stack, matches), w.maxImpact)
  }

  ghost function ExposureScore(w: Weights, event: ThreatEvent, stack: seq<App>, matches: seq<Match>): int {
    Clamp(ExposureSum(event, stack, matches), w.maxExposure)
  }

  function Ratio(product: int, w: Weights): real
    requires w.maxLikelihood * w.maxImpact * w.maxExposure != 0
  {
    product as real / (w.maxLikelihood * w.maxImpact * w.maxExposure) as real
  }

  function SeverityLabel(w: Weights, score: real): string {
    if score >= w.critical then "critical" else if score >= w.high then "high"
    else if score >= w.medium then "medium" else "low"
  }

  function SeverityRank(severity: string): nat {
    if severity == "critical" then 3 else if severity == "high" then 2 else if severity == "medium" then 1 else 0
  }

  lemma MaximaPositive(w: Weights)
    requires Positive(w)
    ensures w.maxLikelihood * w.maxImpact * w.maxExposure > 0
  {
    assert w.maxLikelihood * w.maxImpact > 0;
  }

  ghost function RiskScore(w: Weights, event: ThreatEvent, stack: seq<App>, matches: seq<Match>, now: int): real
    requires Positive(w)
  {
    MaximaPositive(w);
    Ratio(Likelihood(w, event, matches, now) * Impact(w, event, stack, matches)
      * ExposureScore(w, event, stack, matches), w)
  }

  datatype ScoreResult = ScoreResult(
    likelihood: int, impact: int, exposure: int, confidence: int, riskScore: real, severity: string,
      confidenceLabel: string, action: string)

  /** Each dimension is the capped sum of the factors that explain it, and the two scorers see the
      same event, inventory and matches. */
  method Score(w: Weights, event: ThreatEvent, stack: seq<App>, matches: seq<Match>, now: int) returns (r: ScoreResult)
    requires Positive(w)
    ensures r.likelihood == Likelihood(w, event, matches, now)
    ensures r.impact == Impact(w, event, stack, matches)
    ensures r.exposure == ExposureScore(w, event, stack, matches)
    ensures r.confidence == Confidence(w, event) && r.confidenceLabel == ConfidenceLabel(r.confidence)
    ensures r.riskScore == RiskScore(w, event, stack, matches, now)
    ensures r.severity == SeverityLabel(w, r.riskScore)
    ensures r.action == Action(Outcome(event, stack, matches))
  {
    MaximaPositive(w);
    var lf := LikelihoodFactors(event, matches, now);
    var mf := ImpactFactors(event, stack, matches);
    var ef := ExposureFactors(event, stack, matches);
    var cf := ConfidenceFactors(w, event);
    var l := SumCapped(lf, w.maxLikelihood);
    var m := SumCapped(mf, w.maxImpact);
    var e := SumCapped(ef, w.maxExposure);
    var c := SumCapped(cf, w.maxConfidence);
    ConfidenceSumCapped(w, event);
    var riskScore := Ratio(l * m * e, w);
    var action := SSVCTree(event, stack, matches);
    r := ScoreResult(l, m, e, c, riskScore, SeverityLabel(w, riskScore), ConfidenceLabel(c), action);
  }
}
