/** What the CVE matcher answers, on the plain facts: whose names overlap, what the title holds, and
    whether the version lies in the range that decides. */
module MatchFacts {
  import opened Text
  import opened Model
  import opened Version
  import opened CveMatcher

  ghost predicate Inside(part: string, s: string) {
    exists before, after :: s == before + part + after
  }

  /** Both names are there, and one contains the other. */
  ghost predicate Overlap(a: string, b: string) {
    a != "" && b != "" && (Inside(a, b) || Inside(b, a))
  }

  /** Product i overlaps the application in its vendor and in its product name. */
  ghost predicate Fits(m: CVEMatcher, event: ThreatEvent, app: App, i: nat)
    requires i < |event.affectedProducts|
  {
    var ap := event.affectedProducts[i];
    && Overlap(m.NormalizeVendor(ap.vendor), m.NormalizeVendor(app.vendor))
    && Overlap(m.NormalizeProduct(ap.product), m.NormalizeProduct(app.name))
  }

  /** Product i is the first one that fits. */
  ghost predicate Decides(m: CVEMatcher, event: ThreatEvent, app: App, i: nat) {
    && i < |event.affectedProducts| && Fits(m, event, app, i)
    && forall k: nat :: k < i ==> !Fits(m, event, app, k)
  }

  ghost predicate InTitle(m: CVEMatcher, event: ThreatEvent, app: App) {
    || (m.NormalizeVendor(app.vendor) != "" && Inside(m.NormalizeVendor(app.vendor), ToLower(event.title)))
    || (m.NormalizeProduct(app.name) != "" && Inside(m.NormalizeProduct(app.name), ToLower(event.title)))
  }

  // ----- Names -----

  lemma InsideIsContains(s: string, part: string)
    ensures Contains(s, part) <==> Inside(part, s)
  {
    if i :| 0 <= i <= |s| && OccursAt(s, part, i) {
      assert s == s[..i] + part + s[i + |part|..];
    }
    if before, after :| s == before + part + after {
      assert OccursAt(s, part, |before|);
    }
  }

  lemma InsideItself(s: string)
    ensures Inside(s, s)
  {
    assert s == "" + s + "";
  }

  lemma OverlapIsMatch(a: string, b: string)
    ensures NamesMatch(a, b) <==> Overlap(a, b)
  {
    hide Contains, Inside;
    InsideIsContains(a, b);
    InsideIsContains(b, a);
    InsideItself(a);
  }

  lemma {:induction false} OnlySpaces(s: string)
    requires All(s, IsSpace)
    ensures TrimSpace(s) == ""
  {
    if s != "" {
      assert IsSpace(s[0]);
      OnlySpaces(s[1..]);
    }
  }

  lemma TrimmedMiddle(before: string, middle: string, after: string)
    requires All(before, IsSpace) && All(after, IsSpace)
    requires middle != "" ==> !IsSpace(middle[0]) && !IsSpace(middle[|middle| - 1])
    ensures TrimSpace(before + middle + after) == middle
  {
    if middle == "" {
      assert All(before + middle + after, IsSpace) by {
        assert before + middle + after == before + after;
      }
      OnlySpaces(before + middle + after);
    } else {
      TrimCuts(before, middle, after, IsSpace);
    }
  }

  /** The normalised name of anything between white space: what the table of vendors, or that of products,
      says about it in lower case, or else the lower-case name itself. */
  lemma Normalised(m: CVEMatcher, before: string, middle: string, after: string)
    requires All(before, IsSpace) && All(after, IsSpace)
    requires middle != "" ==> !IsSpace(middle[0]) && !IsSpace(middle[|middle| - 1])
    ensures m.NormalizeVendor(before + middle + after) ==
      if ToLower(middle) in m.aliasMap then m.aliasMap[ToLower(middle)] else ToLower(middle)
    ensures m.NormalizeProduct(before + middle + after) ==
      if ToLower(middle) in m.productAliasMap then m.productAliasMap[ToLower(middle)] else ToLower(middle)
  {
    hide TrimSpace, IsSpace;
    TrimmedMiddle(before, middle, after);
  }

  // ----- The answer -----

  lemma FitsIsNames(m: CVEMatcher, event: ThreatEvent, app: App, i: nat)
    requires i < |event.affectedProducts|
    ensures m.Names(event.affectedProducts[i], app) <==> Fits(m, event, app, i)
  {
    hide NamesMatch, Overlap, Lookup;
    var ap := event.affectedProducts[i];
    OverlapIsMatch(m.NormalizeVendor(ap.vendor), m.NormalizeVendor(app.vendor));
    OverlapIsMatch(m.NormalizeProduct(ap.product), m.NormalizeProduct(app.name));
  }

  lemma DecidesIsFirst(m: CVEMatcher, event: ThreatEvent, app: App, i: nat)
    ensures Decides(m, event, app, i) <==>
      i < |event.affectedProducts| && m.FirstNaming(event.affectedProducts, app) == i
  {
    hide Fits, CVEMatcher.Names, CVEMatcher.FirstNaming;
    m.FirstNamingLeast(event.affectedProducts, app);
    forall k: nat | k < |event.affectedProducts|
      ensures m.Names(event.affectedProducts[k], app) <==> Fits(m, event, app, k)
    {
      FitsIsNames(m, event, app, k);
    }
    if Decides(m, event, app, i) {
      m.FirstNamingIs(event.affectedProducts, app, i);
    }
  }

  lemma TitleIsNamed(m: CVEMatcher, event: ThreatEvent, app: App)
    ensures m.TitleNames(event.title, app) <==> InTitle(m, event, app)
  {
    hide Contains, Inside, Lookup;
    InsideIsContains(ToLower(event.title), m.NormalizeVendor(app.vendor));
    InsideIsContains(ToLower(event.title), m.NormalizeProduct(app.name));
  }

  /** What a report says when this product decides. */
  ghost predicate Decided(r: Match, cve: string, app: App, ap: AffectedProduct) {
    var known := app.version != "";
    var inside := Included(app.version, ap.versionStart, ap.versionEnd);
    && r.cve == cve && r.appName == app.name && r.appVersion == app.version && !r.kevMatch
    && (r.suppressed <==> known && !inside)
    && r.suppressReason ==
      (if known && !inside
       then "version_not_affected: " + app.name + " " + app.version + " outside affected range ["
              + ap.versionStart + "," + ap.versionEnd + "]"
       else "")
    && (r.versionAffected <==>
          known && inside && Confidence(app.version, ap.versionStart, ap.versionEnd) == "exact_version_match")
    && r.matchConfidence ==
      (if !known then "product_only_match" else if !inside then "version_not_affected"
       else Confidence(app.version, ap.versionStart, ap.versionEnd))
  }

  ghost predicate Weak(r: Match, cve: string, app: App) {
    && r.cve == cve && r.appName == app.name && r.appVersion == app.version && !r.kevMatch
    && !r.suppressed && r.suppressReason == "" && !r.versionAffected && r.matchConfidence == "weak_title_match"
  }

  /** The answer for one CVE and one application. If some affected product overlaps the application in both
      names, the first such product decides: the application is reported, and suppressed exactly when
      its version is known and outside that product's range. If none does, the application is reported as a
      weak match when the title holds its vendor or product name, and otherwise not at all. */
  lemma AnswerOnFacts(m: CVEMatcher, cve: string, app: App, event: ThreatEvent, found: Option<Match>)
    requires found == if m.Concerns(event, app) then Some(m.Report(cve, app, event)) else None
    ensures forall i: nat :: Decides(m, event, app, i) ==>
      found.Some? && Decided(found.value, cve, app, event.affectedProducts[i])
    ensures (forall i: nat :: !Decides(m, event, app, i)) ==>
      if InTitle(m, event, app) then found.Some? && Weak(found.value, cve, app) else found.None?
  {
    hide Fits, Decided, InTitle, CVEMatcher.FirstNaming, CVEMatcher.TitleNames, CVEMatcher.Report;
    TitleIsNamed(m, event, app);
    DecidesIsFirst(m, event, app, m.FirstNaming(event.affectedProducts, app));
    forall i: nat | Decides(m, event, app, i)
      ensures found.Some? && Decided(found.value, cve, app, event.affectedProducts[i])
    {
      DecidesIsFirst(m, event, app, i);
      DecidedReport(m, cve, app, event, i);
    }
    FirstInRange(m, event, app);
    if forall i: nat :: !Decides(m, event, app, i) {
      if InTitle(m, event, app) {
        WeakReport(m, cve, app, event);
      }
    }
  }

  lemma FirstInRange(m: CVEMatcher, event: ThreatEvent, app: App)
    ensures m.FirstNaming(event.affectedProducts, app) <= |event.affectedProducts|
  {
    m.FirstNamingLeast(event.affectedProducts, app);
  }

  lemma DecidedReport(m: CVEMatcher, cve: string, app: App, event: ThreatEvent, i: nat)
    requires i < |event.affectedProducts| && m.FirstNaming(event.affectedProducts, app) == i
    ensures Decided(m.Report(cve, app, event), cve, app, event.affectedProducts[i])
  {
    hide CVEMatcher.FirstNaming, Included;
    assert PRODUCT_ONLY[0] == 'p' && EXACT[0] == 'e' && NOT_AFFECTED[0] == 'v';
  }

  lemma WeakReport(m: CVEMatcher, cve: string, app: App, event: ThreatEvent)
    requires m.FirstNaming(event.affectedProducts, app) >= |event.affectedProducts|
    ensures Weak(m.Report(cve, app, event), cve, app)
  {
    hide CVEMatcher.FirstNaming, Included;
    assert WEAK[0] == 'w' && EXACT[0] == 'e';
  }
}
