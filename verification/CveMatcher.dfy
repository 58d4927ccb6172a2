/** Cross-referencing the CVEs of an event with the applications of the tech stack. */
module CveMatcher {
  import opened Text
  import opened Model
  import opened Version
  import opened Cpe

  const WEAK := "weak_title_match"
  const NOT_AFFECTED := "version_not_affected"

  /** vendorMatch and productMatch: equal, or one inside the other, and neither empty. */
  predicate NamesMatch(a: string, b: string) {
    a != "" && b != "" && (a == b || Contains(a, b) || Contains(b, a))
  }

  function Lookup(aliases: map<string, string>, name: string): string {
    var key := ToLower(TrimSpace(name));
    if key in aliases then aliases[key] else key
  }

  datatype CVEMatcher = CVEMatcher(aliasMap: map<string, string>, productAliasMap: map<string, string>) {

    function NormalizeVendor(name: string): string {
      Lookup(aliasMap, name)
    }

    function NormalizeProduct(name: string): string {
      Lookup(productAliasMap, name)
    }

    /** This affected product names this application. */
    predicate Names(ap: AffectedProduct, app: App) {
      && NamesMatch(NormalizeVendor(ap.vendor), NormalizeVendor(app.vendor))
      && NamesMatch(NormalizeProduct(ap.product), NormalizeProduct(app.name))
    }

    predicate TitleNames(title: string, app: App) {
      var vendor, product := NormalizeVendor(app.vendor), NormalizeProduct(app.name);
      (vendor != "" && Contains(ToLower(title), vendor)) || (product != "" && Contains(ToLower(title), product))
    }

    /** The first affected product that names the application, or the number of products. */
    function FirstNaming(products: seq<AffectedProduct>, app: App): nat {
      if products == [] || Names(products[0], app) then 0 else 1 + FirstNaming(products[1..], app)
    }

    /** It is the least position whose product names the application. */
    lemma {:induction false} FirstNamingLeast(products: seq<AffectedProduct>, app: App)
      ensures var i := FirstNaming(products, app);
        && i <= |products|
        && (i < |products| ==> Names(products[i], app))
        && (forall k :: 0 <= k < i ==> !Names(products[k], app))
    {
      hide Names;
      if products != [] && !Names(products[0], app) {
        FirstNamingLeast(products[1..], app);
        forall k | 0 < k < FirstNaming(products, app) ensures !Names(products[k], app) {
          assert products[1..][k - 1] == products[k];
        }
      }
    }

    lemma FirstNamingIs(products: seq<AffectedProduct>, app: App, i: nat)
      requires i <= |products| && (i < |products| ==> Names(products[i], app))
      requires forall k :: 0 <= k < i ==> !Names(products[k], app)
      ensures FirstNaming(products, app) == i
    {
      hide Names;
      FirstNamingLeast(products, app);
    }

    function Listed(event: ThreatEvent, app: App): Option<AffectedProduct> {
      var i := FirstNaming(event.affectedProducts, app);
      if i < |event.affectedProducts| then Some(event.affectedProducts[i]) else None
    }

    /** The event concerns the application at all. */
    predicate Concerns(event: ThreatEvent, app: App) {
      Listed(event, app).Some? || TitleNames(event.title, app)
    }

    /** The first affected product that names the application has a range that rules its version out. */
    predicate RuledOut(event: ThreatEvent, app: App) {
      var ap := Listed(event, app);
      ap.Some? && app.version != "" && !Included(app.version, ap.value.versionStart, ap.value.versionEnd)
    }

    function Label(event: ThreatEvent, app: App): string {
      match Listed(event, app)
      case None => WEAK
      case Some(ap) =>
        if app.version == "" then PRODUCT_ONLY
        else if RuledOut(event, app) then NOT_AFFECTED
        else Confidence(app.version, ap.versionStart, ap.versionEnd)
    }

    /** The match reported for a CVE and an application the event concerns. */
    function Report(cve: string, app: App, event: ThreatEvent): Match {
      if RuledOut(event, app) then
        var ap := Listed(event, app).value;
        Match("CVEMatcher", cve, app.name, app.version, false, NOT_AFFECTED, false,
              "CVE " + cve + " does not affect " + app.name + " " + app.version, true,
              "version_not_affected: " + app.name + " " + app.version + " outside affected range [" + ap.versionStart
                + "," + ap.versionEnd + "]")
      else
        Match("CVEMatcher", cve, app.name, app.version, Label(event, app) == EXACT, Label(event, app), false,
              "CVE " + cve + " matches " + app.name + " (" + app.vendor + ")", false, "")
    }

    method MatchViaAffectedProducts(event: ThreatEvent, app: App) returns (ap: Option<AffectedProduct>)
      ensures ap == Listed(event, app)
    {
      hide NamesMatch, Lookup, FirstNaming;
      var products := event.affectedProducts;
      var vendor, product := NormalizeVendor(app.vendor), NormalizeProduct(app.name);
      for i := 0 to |products|
        invariant forall k :: 0 <= k < i ==> !Names(products[k], app)
      {
        if NamesMatch(NormalizeVendor(products[i].vendor), vendor) &&
          NamesMatch(NormalizeProduct(products[i].product), product) {
          FirstNamingIs(products, app, i);
          return Some(products[i]);
        }
      }
      FirstNamingIs(products, app, |products|);
      return None;
    }

    method CveMatchesApp(cve: string, app: App, event: ThreatEvent) returns (found: Option<Match>)
      ensures found == if Concerns(event, app) then Some(Report(cve, app, event)) else None
    {
      hide NamesMatch, Lookup, FirstNaming, Included, TitleNames;
      var confidence := "";
      var listed := MatchViaAffectedProducts(event, app);
      if listed.Some? {
        confidence := PRODUCT_ONLY;
      } else if TitleNames(event.title, app) {
        confidence := WEAK;
      }
      if confidence == "" {
        return None;
      }
      if listed.Some? && app.version != "" {
        var inRange, verdict := InRange(app.version, listed.value.versionStart, listed.value.versionEnd);
        if !inRange {
          return Some(Match("CVEMatcher", cve, app.name, app.version, false, NOT_AFFECTED, false,
                            "CVE " + cve + " does not affect " + app.name + " " + app.version, true,
                            "version_not_affected: " + app.name + " " + app.version + " outside affected range ["
                              + listed.value.versionStart + "," + listed.value.versionEnd + "]"));
        }
        confidence := verdict;
      }
      return Some(Match("CVEMatcher", cve, app.name, app.version, confidence == EXACT, confidence, false,
                        "CVE " + cve + " matches " + app.name + " (" + app.vendor + ")", false, ""));
    }

    // ----- All CVEs against all applications -----

    function Row(cve: string, apps: seq<App>, event: ThreatEvent): seq<Match> {
      if apps == [] then []
      else
        var last := apps[|apps| - 1];
        Row(cve, apps[..|apps| - 1], event) + (if Concerns(event, last) then [Report(cve, last, event)] else [])
    }

    function Table(cves: seq<string>, apps: seq<App>, event: ThreatEvent): seq<Match> {
      if cves == [] then [] else Table(cves[..|cves| - 1], apps, event) + Row(cves[|cves| - 1], apps, event)
    }

    method MatchEvent(event: ThreatEvent, apps: seq<App>) returns (matches: seq<Match>)
      ensures matches == Table(event.cves, apps, event)
    {
      hide Report, Concerns;
      matches := [];
      for i := 0 to |event.cves|
        invariant matches == Table(event.cves[..i], apps, event)
      {
        var cve := event.cves[i];
        ghost var before := matches;
        for j := 0 to |apps|
          invariant matches == before + Row(cve, apps[..j], event)
        {
          assert apps[..j + 1][..j] == apps[..j];
          var found := CveMatchesApp(cve, apps[j], event);
          if found.Some? {
            matches := matches + [found.value];
          }
        }
        assert apps[..|apps|] == apps;
        assert event.cves[..i + 1][..i] == event.cves[..i];
      }
      assert event.cves[..|event.cves|] == event.cves;
    }

    /** The positions of the applications the event concerns, in order. */
    function Concerned(event: ThreatEvent, apps: seq<App>): seq<nat> {
      if apps == [] then []
      else
        var n := |apps| - 1;
        Concerned(event, apps[..n]) + (if Concerns(event, apps[n]) then [n] else [])
    }

    /** Concerned lists exactly the concerned positions, strictly increasing. */
    lemma {:induction false} ConcernedExactly(event: ThreatEvent, apps: seq<App>)
      ensures forall i :: i in Concerned(event, apps) <==> 0 <= i < |apps| && Concerns(event, apps[i])
      ensures forall j, k :: 0 <= j < k < |Concerned(event, apps)| ==>
        Concerned(event, apps)[j] < Concerned(event, apps)[k]
    {
      hide Concerns;
      if apps != [] {
        var n := |apps| - 1;
        ConcernedExactly(event, apps[..n]);
        var hits := Concerned(event, apps[..n]);
        forall j | 0 <= j < |hits| ensures hits[j] < n {
          assert hits[j] in hits;
        }
      }
    }

    lemma {:induction false} RowAt(cve: string, apps: seq<App>, event: ThreatEvent, j: nat)
      ensures |Row(cve, apps, event)| == |Concerned(event, apps)|
      ensures j < |Concerned(event, apps)| ==>
                Concerned(event, apps)[j] < |apps|
                && Row(cve, apps, event)[j] == Report(cve, apps[Concerned(event, apps)[j]], event)
    {
      hide Concerns, Report;
      if apps != [] {
        RowAt(cve, apps[..|apps| - 1], event, j);
      }
    }

    /** The number of matches is the number of CVEs times that of the concerned applications. */
    lemma {:induction false} TableSize(cves: seq<string>, apps: seq<App>, event: ThreatEvent)
      ensures |Table(cves, apps, event)| == |cves| * |Concerned(event, apps)|
    {
      hide Concerned, Row, Report, Concerns;
      if cves != [] {
        var n := |cves| - 1;
        TableSize(cves[..n], apps, event);
        RowAt(cves[n], apps, event, 0);
        OneMore(n, |Concerned(event, apps)|);
      }
    }

    lemma OneMore(n: nat, k: nat)
      ensures (n + 1) * k == n * k + k
    {
    }

    lemma {:induction false} Earlier(i: nat, n: nat, k: nat)
      requires i < n
      ensures i * k + k <= n * k
    {
      OneMore(n - 1, k);
      if i < n - 1 {
        Earlier(i, n - 1, k);
      }
    }

    /** The matches are in row-major order: at position i * width + j stands the report on CVE i and
        the j-th concerned application. */
    lemma {:induction false} RowMajor(cves: seq<string>, apps: seq<App>, event: ThreatEvent, i: nat, j: nat, p: nat)
      requires i < |cves| && j < |Concerned(event, apps)| && p == i * |Concerned(event, apps)| + j
      ensures p < |Table(cves, apps, event)| && Concerned(event, apps)[j] < |apps|
      ensures Table(cves, apps, event)[p] == Report(cves[i], apps[Concerned(event, apps)[j]], event)
    {
      hide Concerned, Report, Row, Concerns;
      var n := |cves| - 1;
      TableSize(cves[..n], apps, event);
      RowAt(cves[n], apps, event, j);
      if i < n {
        Earlier(i, n, |Concerned(event, apps)|);
        RowMajor(cves[..n], apps, event, i, j, p);
      }
    }

    /** A report is suppressed exactly when the version is ruled out; a match on the title alone is
        never suppressed and never exact; and only an exact one says that the version is affected. */
    lemma ReportMeaning(cve: string, app: App, event: ThreatEvent)
      ensures var r := Report(cve, app, event);
              && (r.suppressed <==> RuledOut(event, app))
              && (Listed(event, app).None? ==> !r.suppressed && r.matchConfidence == WEAK && !r.versionAffected)
              && (r.versionAffected <==> r.matchConfidence == EXACT)
              && (r.versionAffected ==> Listed(event, app).Some? && Parse(app.version).Parsed? && app.version != "")
    {
      hide FirstNaming, Parse, Included, Comparable;
      assert EXACT[0] == 'e' && PRODUCT_ONLY[0] == 'p' && WEAK[0] == 'w' && NOT_AFFECTED[0] == 'v';
      LabelMeaning(event, app);
    }

    lemma LabelMeaning(event: ThreatEvent, app: App)
      ensures Label(event, app) == EXACT && !RuledOut(event, app) ==>
        Listed(event, app).Some? && Parse(app.version).Parsed? && app.version != ""
    {
      hide FirstNaming, Parse, Included, Comparable;
      assert EXACT[0] == 'e' && PRODUCT_ONLY[0] == 'p' && WEAK[0] == 'w';
    }

    lemma {:induction false} FirstNamingPrefix(products: seq<AffectedProduct>, more: seq<AffectedProduct>, app: App)
      requires FirstNaming(products, app) < |products|
      ensures FirstNaming(products + more, app) == FirstNaming(products, app)
    {
      hide FirstNaming, Names;
      FirstNamingLeast(products, app);
      var i := FirstNaming(products, app);
      forall k | 0 <= k <= i ensures (products + more)[k] == products[k] {
      }
      FirstNamingIs(products + more, app, i);
    }

    /** Only the first affected product that names an application counts: whatever is listed behind it,
        also a second range that includes the version, changes nothing. */
    lemma LaterProductsIgnored(event: ThreatEvent, more: seq<AffectedProduct>, apps: seq<App>)
      requires forall app :: app in apps ==> Listed(event, app).Some?
      ensures Table(event.cves, apps, event) ==
        Table(event.cves, apps, event.(affectedProducts := event.affectedProducts + more))
    {
      hide Listed, Table, Concerns;
      var event' := event.(affectedProducts := event.affectedProducts + more);
      forall app | app in apps ensures SameListing(event, event', app) {
        ListingKept(event, more, app);
      }
      SameTable(event.cves, apps, event, event');
    }

    predicate SameListing(event: ThreatEvent, event': ThreatEvent, app: App) {
      Concerns(event, app) && Concerns(event', app) && Listed(event, app) == Listed(event', app)
    }

    lemma ListingKept(event: ThreatEvent, more: seq<AffectedProduct>, app: App)
      requires Listed(event, app).Some?
      ensures SameListing(event, event.(affectedProducts := event.affectedProducts + more), app)
    {
      hide FirstNaming, TitleNames;
      FirstNamingPrefix(event.affectedProducts, more, app);
    }

    lemma SameReport(cve: string, app: App, event: ThreatEvent, event': ThreatEvent)
      requires SameListing(event, event', app)
      ensures Report(cve, app, event) == Report(cve, app, event')
    {
      hide Listed, Included, Confidence;
    }

    lemma {:induction false} SameRow(cve: string, apps: seq<App>, event: ThreatEvent, event': ThreatEvent)
      requires forall app :: app in apps ==> SameListing(event, event', app)
      ensures Row(cve, apps, event) == Row(cve, apps, event')
    {
      hide Concerns, Report, Listed;
      if apps != [] {
        SameRow(cve, apps[..|apps| - 1], event, event');
        SameReport(cve, apps[|apps| - 1], event, event');
      }
    }

    lemma {:induction false} SameTable(cves: seq<string>, apps: seq<App>, event: ThreatEvent, event': ThreatEvent)
      requires forall app :: app in apps ==> SameListing(event, event', app)
      ensures Table(cves, apps, event) == Table(cves, apps, event')
    {
      hide Row, SameListing;
      if cves != [] {
        SameTable(cves[..|cves| - 1], apps, event, event');
        SameRow(cves[|cves| - 1], apps, event, event');
      }
    }

    /** Widening the range of the product that decides never suppresses an application that was kept. */
    lemma WideningNeverSuppresses(event: ThreatEvent, app: App, i: nat, start: string, end: string)
      requires i < |event.affectedProducts| && i == FirstNaming(event.affectedProducts, app)
      requires LooserStart(event.affectedProducts[i].versionStart, start) &&
        LooserEnd(event.affectedProducts[i].versionEnd, end)
      ensures var ap := event.affectedProducts[i].(versionStart := start, versionEnd := end);
              var event' := event.(affectedProducts := event.affectedProducts[i := ap]);
              Concerns(event', app) && (RuledOut(event', app) ==> RuledOut(event, app))
    {
      hide Names, Included, LooserStart, LooserEnd, TitleNames, FirstNaming;
      FirstNamingLeast(event.affectedProducts, app);
      var old_ := event.affectedProducts[i];
      var ap := old_.(versionStart := start, versionEnd := end);
      SameNames(old_, ap, app);
      var products := event.affectedProducts[i := ap];
      assert products[i] == ap && Names(products[i], app);
      forall k | 0 <= k < i ensures !Names(products[k], app) {
        assert products[k] == event.affectedProducts[k];
      }
      FirstNamingIs(products, app, i);
      if Included(app.version, old_.versionStart, old_.versionEnd) {
        WideningKeeps(app.version, old_.versionStart, old_.versionEnd, start, end);
      }
    }

    lemma SameNames(ap: AffectedProduct, ap': AffectedProduct, app: App)
      requires ap.vendor == ap'.vendor && ap.product == ap'.product
      ensures Names(ap, app) == Names(ap', app)
    {
    }

    /** When the first matching product came from a CPE name and the versions parse, an application is
        reported affected when the tuples are equal and suppressed otherwise. */
    lemma CpeReport(cve: string, app: App, event: ThreatEvent, cpe: string)
      requires app.version != "" && Parse(app.version).Parsed?
      requires ParseCPE(cpe).Some? && Listed(event, app) == ParseCPE(cpe)
      requires ParseCPE(cpe).value.versionStart != "" && Parse(ParseCPE(cpe).value.versionStart).Parsed?
      ensures var same := Parse(app.version).tuple == Parse(ParseCPE(cpe).value.versionStart).tuple;
              && Report(cve, app, event).versionAffected == same
              && Report(cve, app, event).suppressed == !same
    {
      hide Parse, FirstNaming, Included, Confidence, ParseCPE;
      CpeVersionIsExact(cpe, app.version);
    }
  }
}
