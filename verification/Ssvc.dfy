/** The SSVC Deployer decision: four decision points looked up in the published table. */
module Ssvc {
  import opened Text
  import opened Model

  /** The 18 groups of the table, each for human impact low, medium, high, very_high, in the order
      exploitation, then exposure, then automatable. D = defer, S = scheduled, O = out-of-cycle,
      I = immediate. */
  const GROUPS: seq<string> := [
    "DDSS", "DSSS", "DSSS", "SSSS", "DSSS", "SSSO",
    "DSSS", "SSSS", "DSSS", "SSSO", "SSSO", "SSOO",
    "SSOO", "SOOO", "SSOO", "OOOO", "SOOI", "OOII"]

  function ExploitationIndex(s: string): Option<nat> {
    if s == "none" then Some(0) else if s == "poc" then Some(1) else if s == "active" then Some(2) else None
  }

  function ExposureIndex(s: string): Option<nat> {
    if s == "small" then Some(0) else if s == "controlled" then Some(1) else if s == "open" then Some(2) else None
  }

  function MissionIndex(s: string): Option<nat> {
    if s == "low" then Some(0) else if s == "medium" then Some(1) else if s == "high" then Some(2)
    else if s == "very_high" then Some(3) else None
  }

  /** Leaf number i of the flat table of 72. */
  function Leaf(i: nat): char
    requires i < 72
  {
    assert forall k :: 0 <= k < |GROUPS| ==> |GROUPS[k]| == 4;
    GROUPS[i / 4][i % 4]
  }

  /** Unrecognised inputs fall back to the least urgent outcome. */
  function DeployerOutcome(exploitation: string, exposure: string, automatable: bool, mission: string): char {
    match (ExploitationIndex(exploitation), ExposureIndex(exposure), MissionIndex(mission))
    case (Some(e), Some(x), Some(h)) => Leaf(e * 24 + x * 8 + (if automatable then 4 else 0) + h)
    case _ => 'D'
  }

  function Action(outcome: char): string {
    if outcome == 'D' then "Track" else if outcome == 'S' then "Track*" else if outcome == 'O' then "Attend"
    else if outcome == 'I' then "Act" else ""
  }

  /** Urgency of an outcome. */
  function Rank(outcome: char): nat {
    if outcome == 'S' then 1 else if outcome == 'O' then 2 else if outcome == 'I' then 3 else 0
  }

  lemma LeafLetters(i: nat)
    requires i < 72
    ensures Leaf(i) in {'D', 'S', 'O', 'I'}
  {
    assert forall g :: 0 <= g < 18 ==> forall h :: 0 <= h < 4 ==> GROUPS[g][h] in {'D', 'S', 'O', 'I'};
  }

  lemma LeafMission(g: nat, h: nat)
    requires g < 18 && h < 3
    ensures Rank(Leaf(4 * g + h)) <= Rank(Leaf(4 * g + h + 1))
  {
    assert (4 * g + h) / 4 == g && (4 * g + h + 1) / 4 == g;
    assert (4 * g + h) % 4 == h && (4 * g + h + 1) % 4 == h + 1;
  }

  lemma LeafAutomatable(k: nat, h: nat)
    requires k < 9 && h < 4
    ensures Rank(Leaf(8 * k + h)) <= Rank(Leaf(8 * k + 4 + h))
  {
    assert (8 * k + h) / 4 == 2 * k && (8 * k + 4 + h) / 4 == 2 * k + 1;
    assert (8 * k + h) % 4 == h && (8 * k + 4 + h) % 4 == h;
  }

  lemma LeafExposure(e: nat, x: nat, r: nat)
    requires e < 3 && x < 2 && r < 8
    ensures Rank(Leaf(24 * e + 8 * x + r)) <= Rank(Leaf(24 * e + 8 * x + 8 + r))
  {
    var g := 6 * e + 2 * x + r / 4;
    assert (24 * e + 8 * x + r) / 4 == g && (24 * e + 8 * x + 8 + r) / 4 == g + 2;
    assert (24 * e + 8 * x + r) % 4 == r % 4 && (24 * e + 8 * x + 8 + r) % 4 == r % 4;
  }

  lemma LeafExploitation(e: nat, r: nat)
    requires e < 2 && r < 24
    ensures Rank(Leaf(24 * e + r)) <= Rank(Leaf(24 * e + 24 + r))
  {
    var g := 6 * e + r / 4;
    assert (24 * e + r) / 4 == g && (24 * e + 24 + r) / 4 == g + 6;
    assert (24 * e + r) % 4 == r % 4 && (24 * e + 24 + r) % 4 == r % 4;
  }

  /** The flat table is monotone: worsening any of the four coordinates never lowers the outcome. */
  lemma {:induction false} TableMonotone(e: nat, x: nat, a: nat, h: nat, e': nat, x': nat, a': nat, h': nat)
    requires e <= e' < 3 && x <= x' < 3 && a <= a' < 2 && h <= h' < 4
    ensures Rank(Leaf(24 * e + 8 * x + 4 * a + h)) <= Rank(Leaf(24 * e' + 8 * x' + 4 * a' + h'))
    decreases e' - e, x' - x, a' - a, h' - h
  {
    hide Leaf;
    if e < e' {
      LeafExploitation(e, 8 * x + 4 * a + h);
      TableMonotone(e + 1, x, a, h, e', x', a', h');
    } else if x < x' {
      LeafExposure(e, x, 4 * a + h);
      TableMonotone(e, x + 1, a, h, e', x', a', h');
    } else if a < a' {
      LeafAutomatable(3 * e + x, h);
      TableMonotone(e, x, a + 1, h, e', x', a', h');
    } else if h < h' {
      LeafMission(6 * e + 2 * x + a, h);
      TableMonotone(e, x, a, h + 1, e', x', a', h');
    }
  }

  // ----- The decision points -----

  /** What a matched asset can contribute. */
  datatype Quality = Known | CriticalAsset | HighAsset | Sensitive | Facing | CriticalFacing

  predicate Has(app: App, q: Quality) {
    match q
    case Known => true
    case CriticalAsset => app.criticality == "critical"
    case HighAsset => app.criticality == "high"
    case Sensitive => app.dataSensitivity == "critical" || app.dataSensitivity == "high"
    case Facing => app.internetFacing
    case CriticalFacing => app.criticality == "critical" && app.internetFacing
  }

  /** Some match names an application of the inventory with this quality. */
  ghost predicate Hit(stack: seq<App>, matches: seq<Match>, q: Quality) {
    exists i, j :: 0 <= i < |matches| && 0 <= j < |stack| && HitAt(stack, matches, q, i, j)
  }

  predicate HitAt(stack: seq<App>, matches: seq<Match>, q: Quality, i: nat, j: nat)
    requires i < |matches| && j < |stack|
  {
    matches[i].appName != "" && stack[j].name == matches[i].appName && Has(stack[j], q)
  }

  ghost predicate HasKev(matches: seq<Match>) {
    exists i :: 0 <= i < |matches| && matches[i].kevMatch
  }

  ghost predicate Active(event: ThreatEvent, matches: seq<Match>) {
    HasKev(matches) || "exploit:in-the-wild" in event.tags
  }

  ghost function Exploitation(event: ThreatEvent, matches: seq<Match>): string {
    if Active(event, matches) then "active" else "none"
  }

  ghost function Exposure(stack: seq<App>, matches: seq<Match>): string {
    if Hit(stack, matches, Facing) then "open" else if |matches| > 0 then "controlled" else "small"
  }

  predicate Automatable(event: ThreatEvent) {
    event.cvss >= 7.0
  }

  ghost function Mission(stack: seq<App>, matches: seq<Match>): string {
    if Hit(stack, matches, CriticalAsset) && Hit(stack, matches, CriticalFacing) && Hit(stack, matches, Sensitive)
    then "very_high"
    else if Hit(stack, matches, CriticalAsset) && Hit(stack, matches, Sensitive) then "high"
    else if Hit(stack, matches, CriticalAsset) || Hit(stack, matches, HighAsset) then "medium"
    else "low"
  }

  ghost function Outcome(event: ThreatEvent, stack: seq<App>, matches: seq<Match>): char {
    DeployerOutcome(Exploitation(event, matches), Exposure(stack, matches), Automatable(event), Mission(stack, matches))
  }

  method DetermineExploitation(event: ThreatEvent, matches: seq<Match>) returns (level: string)
    ensures level == Exploitation(event, matches)
  {
    for i := 0 to |matches|
      invariant forall k :: 0 <= k < i ==> !matches[k].kevMatch
    {
      if matches[i].kevMatch {
        return "active";
      }
    }
    for i := 0 to |event.tags|
      invariant forall k :: 0 <= k < i ==> event.tags[k] != "exploit:in-the-wild"
    {
      if event.tags[i] == "exploit:in-the-wild" {
        return "active";
      }
    }
    return "none";
  }

  /** Whether some match names an application with quality q, looking at the first matches only. */
  ghost predicate HitBefore(stack: seq<App>, matches: seq<Match>, q: Quality, i: nat, j: nat) {
    exists x, y :: 0 <= x < |matches| && 0 <= y < |stack| && (x < i || (x == i && y < j)) &&
      HitAt(stack, matches, q, x, y)
  }

  lemma HitStep(stack: seq<App>, matches: seq<Match>, q: Quality, i: nat, j: nat)
    requires i < |matches| && j < |stack|
    ensures HitBefore(stack, matches, q, i, j + 1)
       <==> HitBefore(stack, matches, q, i, j) || HitAt(stack, matches, q, i, j)
  {
  }

  lemma HitRow(stack: seq<App>, matches: seq<Match>, q: Quality, i: nat)
    requires i < |matches|
    ensures HitBefore(stack, matches, q, i + 1, 0) <==> HitBefore(stack, matches, q, i, |stack|)
    ensures matches[i].appName == "" ==>
      (HitBefore(stack, matches, q, i + 1, 0) <==> HitBefore(stack, matches, q, i, 0))
  {
  }

  lemma HitAll(stack: seq<App>, matches: seq<Match>, q: Quality)
    ensures HitBefore(stack, matches, q, |matches|, 0) <==> Hit(stack, matches, q)
    ensures !HitBefore(stack, matches, q, 0, 0)
  {
  }

  method DetermineExposure(stack: seq<App>, matches: seq<Match>) returns (level: string)
    ensures level == Exposure(stack, matches)
  {
    var hasInternetFacing := false;
    HitAll(stack, matches, Facing);
    for i := 0 to |matches|
      invariant hasInternetFacing == HitBefore(stack, matches, Facing, i, 0)
    {
      HitRow(stack, matches, Facing, i);
      if matches[i].appName != "" {
        for j := 0 to |stack|
          invariant hasInternetFacing == HitBefore(stack, matches, Facing, i, j)
        {
          HitStep(stack, matches, Facing, i, j);
          if stack[j].name == matches[i].appName {
            if stack[j].internetFacing {
              hasInternetFacing := true;
            }
          }
        }
      }
    }
    return if hasInternetFacing then "open" else if |matches| > 0 then "controlled" else "small";
  }

  method DetermineMissionImpact(stack: seq<App>, matches: seq<Match>) returns (level: string)
    ensures level == Mission(stack, matches)
  {
    hide HitBefore;
    var hasCritical, hasHigh, hasSensitiveData, isInternetFacing := false, false, false, false;
    forall q { HitAll(stack, matches, q); }
    for i := 0 to |matches|
      invariant hasCritical == HitBefore(stack, matches, CriticalAsset, i, 0)
      invariant hasHigh == HitBefore(stack, matches, HighAsset, i, 0)
      invariant hasSensitiveData == HitBefore(stack, matches, Sensitive, i, 0)
      invariant isInternetFacing == HitBefore(stack, matches, CriticalFacing, i, 0)
    {
      forall q { HitRow(stack, matches, q, i); }
      if matches[i].appName != "" {
        for j := 0 to |stack|
          invariant hasCritical == HitBefore(stack, matches, CriticalAsset, i, j)
          invariant hasHigh == HitBefore(stack, matches, HighAsset, i, j)
          invariant hasSensitiveData == HitBefore(stack, matches, Sensitive, i, j)
          invariant isInternetFacing == HitBefore(stack, matches, CriticalFacing, i, j)
        {
          var app := stack[j];
          forall q { HitStep(stack, matches, q, i, j); }
          if app.name == matches[i].appName {
            if app.criticality == "critical" {
              hasCritical := true;
              if app.internetFacing {
                isInternetFacing := true;
              }
            } else if app.criticality == "high" {
              hasHigh := true;
            }
            if app.dataSensitivity == "critical" || app.dataSensitivity == "high" {
              hasSensitiveData := true;
            }
          }
        }
      }
    }
    if hasCritical && isInternetFacing && hasSensitiveData {
      return "very_high";
    }
    if hasCritical && hasSensitiveData {
      return "high";
    }
    if hasCritical || hasHigh {
      return "medium";
    }
    return "low";
  }

  method SSVCTree(event: ThreatEvent, stack: seq<App>, matches: seq<Match>) returns (action: string)
    ensures action == Action(Outcome(event, stack, matches))
  {
    var exploitation := DetermineExploitation(event, matches);
    var exposure := DetermineExposure(stack, matches);
    var mission := DetermineMissionImpact(stack, matches);
    action := Action(DeployerOutcome(exploitation, exposure, Automatable(event), mission));
  }
}
