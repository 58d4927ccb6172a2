# Threat Intel Arbiter: verified core

This project models the stateful and arithmetic core of the threat-prioritisation service in Dafny and
proves what its parts promise. Each module follows one component:

- `Delivery` is the CrowdStrike delivery engine as a transition system: every step is one section under
  the notifier's mutex, every goroutine keeps its local variable between two sections, any number of
  flushes may overlap, and the environment chooses which sends fail. `Notifier` is the same engine as a
  class with the bodies of `Notify`, `flush` and `pruneSent`, tied to the transition system.
  `TokenCache` treats the OAuth2 token cache in the same two ways, and `Indicators` is the cleaning of
  indicators that makes the deduplication keys.
- `Ssvc` and `Scoring` are the two scorers, with their loops proved against existential facts about the
  matched assets; `Coherence` holds the relational results: monotonicity in every input, independence of
  list order, and the bounds that tie the SSVC action to the severity.
- `Facts` states what both scorers answer on the plain facts of an event: which signals, matches and assets
  there are.
- `Version`, `Calendar`, `Numbers` and `VersionText` are version detection, parsing, comparison and the
  range test; `Cpe` parses product names; `CveMatcher` combines them into the decision what is reported
  and what is suppressed. `VersionFacts` and `MatchFacts` state their answers on the texts and names.
- `RateLimit`, `Accounts`, `Auth`, `Alerts` and `Poller` are the stateful services, each as a class with
  the source's methods and as steps of a run, with the invariants of whole runs. `Auth` puts the login
  handler on the limiter and the store, `PollRuns` is about many polls,
  `PollPages` about one poll of a list that changes, and `Shutdown` about `Close`.
- `Export`, `IocFacts`, `Ledger`, `Throttle`, `Sessions` and `PollFacts` say on the facts of the calls, most of
  them over whole series of calls, what leaves the notifier and what must, which indicators are valid, how
  confirmations and resets balance, when a login is throttled, how long a session lives, and what becomes of
  each version of an event. Limits and times are written out there as numbers.
- `TechStack` is the inventory delta. `Text` and `Model` hold the string operations and the data types.

Scores are exact rationals, clocks are integer parameters, tables are maps, and the functions of libraries
(`net.ParseIP`, the private-network test, password verification, random tokens) are parameters.

Where the code and its own texts disagree, and where a property fails, the model follows the code:

- An empty `CROWDSTRIKE_PREVENT_IOC_TYPES` is documented and logged as "downgraded to detect"
  (internal/notify/crowdstrike.go:46 and :83), but line 189 lets `prevent` through (`Notifier.PreventGate`).
- Two overlapping flushes can deliver out of append order (`Delivery.OrderKeptIffSingleFlush`,
  `Delivery.OverlapReorders`); an indicator dropped by an overflow can never be accepted again (`Delivery.DroppedNeverReturns`).
- A save that comes ttl after the last accepted one overwrites an acknowledgement or a retraction
  (`Alerts.StatusOverwrittenIff`).
- The poll cursor stands still when a full last page carries only the cursor's own stamp
  (`Poller.ProgressIff`), and 500 such events starve everything behind them (`PollRuns.CatchesUpIff`). An
  event stamped between the last fetch and the second reading of the clock is lost for good
  (`PollRuns.LateEventLostIff`), and so is one that an edit of an earlier event shifts across a page
  boundary (`PollPages.EditBetweenFetchesIff`).
- `parseCPE` splits at escaped colons, so the un-escaping of colons in `cpeUnbind` never applies
  (`Cpe.RoundTripIff`, `Cpe.EscapedColonIsLost`).
- A leading "v", which detection ignores, costs a Windows build its first number: v10.0.19045 is read as
  0.0.19045 (`VersionFacts.LeadingV`).
- Two applications share an inventory key when a vendor contains a colon (`TechStack.ColonCollides`).
- Duplicate keys in a new inventory can make the delta an incorrect patch (`TechStack.PatchIff`).
- The pruning inside the limiter's `allow` can not fire: line 43 of internal/api/ratelimit.go has already
  stored the key that line 50 looks for, and the model's `Allow` proves that branch dead.

## Model

| member | source | states |
|---|---|---|
| `Delivery.Conservation` | internal/notify/crowdstrike.go:171-266 | over every interleaving of Notify, flush (any number at once) and pruneSent from the empty state, accepted = reserved + being sent + confirmed + waiting + dropped + delivered as multisets; the keys of all but the delivered are pairwise distinct, are exactly pendingKeys, and none is in sent |
| `Delivery.OwnershipStep` | internal/notify/crowdstrike.go:171-266 | each locked section keeps that invariant from any state that has it |
| `Delivery.OwnershipRun` | internal/notify/crowdstrike.go:171-266 | so does every run from any state that has it |
| `Delivery.ConfirmedAtMostOnce` | internal/notify/crowdstrike.go:120-128 | in the log of every run two confirmations of one type:value key have a reset of the sent set between them |
| `Delivery.SendingIsNew` | internal/notify/crowdstrike.go:236-265 | a batch being sent shares no key with anything confirmed since the last reset |
| `Delivery.Overflow` | internal/notify/crowdstrike.go:250-254 | what a failed flush drops is a prefix of batch ++ pending, and exactly 1000 remain when anything is dropped |
| `Delivery.DroppedNeverReturns` | internal/notify/crowdstrike.go:174-178 | an indicator dropped by an overflow is lost for good: after any continuation of the run an offer with its key changes nothing |
| `Delivery.FifoStep` | internal/notify/crowdstrike.go:213-266 | a step that has at most one flush in progress before and after keeps: append order = what left the queue ++ in flight ++ waiting |
| `Delivery.FirstInFirstOut` | internal/notify/crowdstrike.go:213-266 | with at most one flush in progress at every point of a run the queue is first-in first-out whatever sends fail; without an overflow delivered ++ in flight ++ waiting is the append order |
| `Delivery.FifoBeforeClose` | internal/notify/crowdstrike.go:100-117 | as long as all flushes are those of one goroutine, as before Close, every run keeps the order |
| `Delivery.OrderKeptIffSingleFlush` | internal/notify/crowdstrike.go:93-98 | in a state that satisfies the invariants the order survives the completion of any two threads exactly when at most one flush is in progress: the flush started by Close beside the flusher can reorder |
| `Delivery.BothOrders` | internal/notify/crowdstrike.go:93-98 | of two concurrent successful flushes one order of completion breaks the append order |
| `Delivery.OverlapReorders` | internal/notify/crowdstrike.go:93-117 | a run from the start with two overlapping flushes in which a is appended before b and delivered after it |
| `Delivery.BatchesNonEmpty` | internal/notify/crowdstrike.go:238-241 | no run makes a flush with an empty batch |
| `Ledger.EveryDeliveryConfirmed` | internal/notify/crowdstrike.go:236-265 | in every run a key is confirmed exactly as often as indicators with it are delivered or stand confirmed but not yet recorded: no confirmation without a delivery and none missing |
| `Ledger.ResetsAreRare` | internal/notify/crowdstrike.go:120-128 | in every run 10001 deliveries pay for each reset of the sent set, whatever is in flight; a pruning step leaves at most 10000 keys and does nothing when there are no more |
| `Shutdown.CloseLeavesNothingIff` | internal/notify/crowdstrike.go:93-98 | a thread calls Close with something in the queue or not: if nothing more is offered and its own send succeeds, the queue is sure to be empty from its return on exactly when, at the call, no other thread was between its reservation and its append and none was sending |
| `Shutdown.EndFlushEmptyIff` | internal/notify/crowdstrike.go:236-266 | the end of the final flush leaves the queue empty exactly when its batch was confirmed and, of the steps of others in between that filled or took the queue, the last one took it; so a failed send always leaves something |
| `Shutdown.LeftBehindIsReachable` | internal/notify/crowdstrike.go:93-117 | a run from the start in which Close finds an empty queue, the send of another thread fails, and its indicator stays |
| `Notifier.CrowdstrikeNotifier.constructor` | internal/notify/crowdstrike.go:50-65 | starts with nothing sent, reserved or pending |
| `Notifier.CrowdstrikeNotifier.TryReserve` | internal/notify/crowdstrike.go:171-179 | succeeds exactly for a key neither sent nor pending, and then adds it to pendingKeys and changes nothing else |
| `Notifier.CrowdstrikeNotifier.IsBlocked` | internal/notify/crowdstrike.go:584-602 | the loop over the tags stops at the first recognised marking, which decides |
| `Notifier.CrowdstrikeNotifier.NotifyOne` | internal/notify/crowdstrike.go:144-217 | one indicator: guard by guard in the source's order, then the reservation and the append of what passes |
| `Notifier.CrowdstrikeNotifier.Notify` | internal/notify/crowdstrike.go:132-233 | below the severity floor nothing changes; otherwise the fields become those after offering, in order, exactly the indicators that pass the screens, and the count is the growth of pending |
| `Notifier.CrowdstrikeNotifier.CommitBatch` | internal/notify/crowdstrike.go:258-264 | the loop over a delivered batch moves exactly its keys from pendingKeys to sent |
| `Notifier.CrowdstrikeNotifier.Flush` | internal/notify/crowdstrike.go:236-266 | an uninterrupted flush commits the whole queue or puts it back with the overflow cut off |
| `Notifier.CrowdstrikeNotifier.PruneSent` | internal/notify/crowdstrike.go:121-128 | forgets all sent keys when there are more than 10000, and otherwise nothing |
| `Notifier.NotifyIsRun` | internal/notify/crowdstrike.go:171-217 | what the method does to the shared fields is a run of its thread in the transition system |
| `Notifier.FlushIsRun` | internal/notify/crowdstrike.go:236-266 | the same for a flush, in both outcomes |
| `Notifier.OverflowDropsOldest` | internal/notify/crowdstrike.go:247-255 | from the start, a flush that fails on more than 1000 indicators with distinct keys drops exactly the oldest and keeps the last 1000 |
| `Notifier.FloodExported` | internal/notify/crowdstrike.go:144-168 | of such an event with up to 10000 domains every one passes the screens and is exported, in order |
| `Notifier.LossIsReachable` | internal/notify/crowdstrike.go:144-217 | an event with the 1001 domains x0 to x1000: whatever the configuration all of them are exported, a flush that then fails drops the first, and no continuation ever accepts it again |
| `Notifier.FirstMarkingDecides` | internal/notify/crowdstrike.go:584-602 | the first recognised TLP marking, with the indicator's own tags before the event's, alone decides whether export is blocked |
| `Notifier.PreventGate` | internal/notify/crowdstrike.go:187-191 | prevent is exported exactly when configured and the allowlist is empty or names the type; the comment at line 46 and the warning at line 83 say that an empty list downgrades to detect, the code does not |
| `Export.BlockedIffNotShared` | internal/notify/crowdstrike.go:584-602 | for any tags and any configured limit: blocked exactly when the first tag that reads tlp:red, amber, green, white or clear in any letter case has a level the limit does not let through (no limit means green, an unknown one nothing) |
| `Export.ScreenIsPermitted` | internal/notify/crowdstrike.go:146-168 | an indicator passes with a value exactly when that is its validated value, is no private address, none of the 14 well-known names, and its markings allow it |
| `Export.RankIsReached` | internal/notify/crowdstrike.go:417-420 | the floor test on the four severity names; an unknown floor asks for nothing |
| `Export.NothingElseLeaves` | internal/notify/crowdstrike.go:132-266 | over every series of Notify, flush and pruneSent calls from the constructor: whatever waits in the queue comes from an indicator of a notified event that reached the floor and against which nothing speaks, with every field as that indicator, event and configuration ask |
| `Export.NothingForbiddenLeaves` | internal/notify/crowdstrike.go:146-168 | so no queued address is private, no queued value is well known or empty, and the markings of its origin allow it |
| `Export.EverythingPermittedIsTaken` | internal/notify/crowdstrike.go:132-217 | conversely, an indicator of a notified event that reached the floor and against which nothing speaks has its key reserved or sent from then on, until the sent set is pruned |
| `Export.KeyIdentifies` | internal/notify/crowdstrike.go:171-172 | for types without a colon, keys are equal exactly for equal types and values |
| `TokenCache.Tokens.Acquire` | internal/notify/crowdstrike.go:271-284 | the first locked section: serve a live token, wait while somebody refreshes, or become the refresher |
| `TokenCache.Tokens.Exchange` | internal/notify/crowdstrike.go:286-344 | for every way the exchange can end (request not built, not sent, answer not read, status of 400 or more, body not decoded, token) the flag is cleared; token and expiry change exactly when a token was granted, to the token and its life less 60 seconds |
| `TokenCache.GoodStep` | internal/notify/crowdstrike.go:270-344 | each step keeps single flight and freshness |
| `TokenCache.SingleFlightRun` | internal/notify/crowdstrike.go:270-344 | so does every run of any number of goroutines |
| `TokenCache.StartIsGood` | internal/notify/crowdstrike.go:270-344 | from the start: refreshing is set exactly when a thread is in the exchange, never two are, and every token served from the cache is the granted one with more than 60 seconds of its life left |
| `TokenCache.NobodyStuck` | internal/notify/crowdstrike.go:270-284 | when nobody is in the exchange the next caller is served from the cache or becomes the refresher |
| `TokenCache.CallOnFacts` | internal/notify/crowdstrike.go:270-284 | in every reachable state a call is served the last granted token exactly when more than 60 seconds of its life are left; otherwise it waits when somebody is in the exchange and else enters it |
| `TokenCache.ExchangeOnFacts` | internal/notify/crowdstrike.go:286-344 | in every reachable state an exchange replaces the grant exactly when the status is below 400 and the body decodes, and leaves nobody in the exchange |
| `Indicators.SpellingsAgree` | internal/notify/crowdstrike.go:495-518 | every defanged spelling of a canonical domain (each dot on its own as ., [.] or (dot), any letter case, no or any one of the four schemes, outer white space) validates to the domain itself, so all spellings share one dedup key |
| `Indicators.RefangSpelling` | internal/notify/crowdstrike.go:502-504 | refanging undoes any mixture of dot spellings |
| `Indicators.StripOne` | internal/notify/crowdstrike.go:498-501 | exactly one scheme prefix is removed, whichever it is |
| `Indicators.ValidateIdempotent` | internal/notify/crowdstrike.go:495-532 | validating a validated domain or hash returns it unchanged |
| `IocFacts.HashIff` | internal/notify/crowdstrike.go:519-541 | a hash is what its value cleans to when that is 64 or 32 lower-case hexadecimal digits, as its type says, and invalid otherwise |
| `IocFacts.HashSpellings` | internal/notify/crowdstrike.go:495-528 | a digest in any letter case with any white space around it validates to the lower-case digest |
| `IocFacts.DomainIff` | internal/notify/crowdstrike.go:514-518 | a domain is what its value cleans to when that is made of labels of 1 to 63 lower-case letters, digits and inner hyphens joined by dots and is not under .local, and invalid otherwise |
| `IocFacts.OtherTypes` | internal/notify/crowdstrike.go:508-532 | no other type is ever valid, and an address is what the library makes of the clean text |
| `IocFacts.AddressSpellings` | internal/notify/crowdstrike.go:495-513 | every listed spelling of an address reaches the library as the address itself |
| `Version.CompareTuples` | internal/match/version/version.go:136-156 | the loop computes lexicographic order |
| `Version.CompareAntisymmetric` | internal/match/version/version.go:136-156 | antisymmetric, and zero only for equal tuples |
| `Version.CompareTransitive` | internal/match/version/version.go:136-156 | transitive, strictly when either step is strict |
| `Version.PrefixIsSmaller` | internal/match/version/version.go:136-156 | a proper prefix is smaller |
| `Version.FirstDifference` | internal/match/version/version.go:136-156 | the first position at which two tuples differ decides |
| `Version.ParseSemver` | internal/match/version/version.go:162-176 | the loop yields a tuple exactly when all dot-separated parts, trimmed, are numbers that fit |
| `Version.InRange` | internal/match/version/version.go:92-132 | false exactly when the version parses and a given bound that parses is violated; exact when excluded, or when the version and every bound given parse, and product_only otherwise |
| `Version.WideningKeeps` | internal/match/version/version.go:92-132 | loosening, removing or garbling a bound never loses a version |
| `Version.RangeConvex` | internal/match/version/version.go:92-132 | between two included parseable versions every parseable version is included |
| `VersionText.DetectPrinted` | internal/match/version/version.go:27-65 | a dot-separated tuple of two or more numbers is detected as windows_build when it is 10.0.N with N of four or five digits, and as semver otherwise |
| `VersionText.ParsePrinted` | internal/match/version/version.go:68-87 | printing a tuple of two or more numbers that fit an int and parsing it gives it back |
| `VersionText.WindowsPrinted` | internal/match/version/version.go:212-222 | exactly the printed tuples 10.0.1000 to 10.0.99999 look like Windows builds |
| `VersionText.RangeOfPrinted` | internal/match/version/version.go:92-132 | on three printed tuples the test is start <= v <= end in lexicographic order, always labelled exact |
| `VersionText.DateVersionOrder` | internal/match/version/version.go:178-186 | for valid YYYY-MM-DD strings the order of the parsed day counts is the character order of the strings, also before 1970 |
| `VersionText.RangeOfDates` | internal/match/version/version.go:92-132 | date ranges are calendar ranges, labelled exact |
| `VersionText.ParseKernel` | internal/match/version/version.go:224-236 | a hyphenated version that passes as a kernel (three numbers that fit, then anything with a distribution mark) parses to its three numbers |
| `VersionText.RangeOfKernels` | internal/match/version/version.go:92-132 | kernel ranges compare the three numbers only, labelled exact: builds of one kernel are not told apart |
| `VersionText.ParseSapText` | internal/match/version/version.go:188-210 | a SAP release with its support package stack (7.5 SPS22) is detected as sap and parses to the three numbers |
| `VersionFacts.Hyphenated` | internal/match/version/version.go:27-65 | three numbers that fit, a hyphen and any suffix without trailing space: with SPS in the suffix it is SAP; else with a second hyphen, or with generic or aws right behind the first, a kernel whose three numbers are read; else it can not be read at all |
| `VersionFacts.UnmarkedIsKept` | internal/match/version/version.go:92-106 | so an unmarked one such as 2.4.49-1 is kept in every range with label product_only_match |
| `VersionFacts.SpaceAround` | internal/match/version/version.go:27-87 | outer white space changes neither the scheme nor what is read |
| `VersionFacts.LeadingV` | internal/match/version/version.go:27-87 | a leading v changes nothing, except that a Windows build 10.0.N is read as 0.0.N |
| `VersionFacts.DateReadIff` | internal/match/version/version.go:178-186 | a text in the form of a date is read exactly when it is a day of the calendar, and is kept in every range otherwise |
| `VersionFacts.RangeTable` | internal/match/version/version.go:92-132 | for a readable version and bounds that are absent, readable or unreadable: excluded exactly by a violated readable bound, and of the kept ones product_only_match exactly when a bound is unreadable |
| `VersionFacts.UnreadableIsKept` | internal/match/version/version.go:92-106 | a version that can not be read is kept in every range with label product_only_match |
| `VersionFacts.SapStack` | internal/match/version/version.go:188-198 | a SAP version of any layout: the third number is the one behind the first SPS that has digits |
| `VersionFacts.SapRelease` | internal/match/version/version.go:200-207 | and the first two are those around the first dot between digits |
| `VersionFacts.SapMissing` | internal/match/version/version.go:188-210 | what is not there counts as 0 |
| `Numbers.AtoiReads` | internal/match/version/version.go:162-176 | a numeral with or without a sign is read up to the limits of 64 bits, and is an error beyond them |
| `Calendar.DaysCount` | internal/match/version/version.go:178-186 | the day number is 0 on 1970-01-01 and grows by one from each day to the next, leap years included |
| `Calendar.DaysOrder` | internal/match/version/version.go:178-186 | day numbers order valid dates chronologically and identify them |
| `Cpe.ParsedIsCanonical` | internal/source/misp.go:372-412 | whatever the input, a parsed product has non-empty vendor and product, no capital, colon, backslash, underscore or outer space anywhere, and one version as both bounds |
| `Cpe.NameParses` | internal/source/misp.go:372-400 | the parsed product has the unbound second, third and fourth field of a name of either kind, in any letter case and with any further fields |
| `Cpe.ShortNameParses` | internal/source/misp.go:372-400 | the same for a name without a version |
| `Cpe.CanonicalParses` | internal/source/misp.go:372-400 | a canonical product written as a CPE 2.3 formatted string, whichever characters are quoted, in any letter case and with any further fields, is parsed back |
| `Cpe.RoundTripIff` | internal/source/misp.go:372-412 | writing a formatted string and parsing it gives the product back exactly for the canonical ones |
| `Cpe.UriRoundTripIff` | internal/source/misp.go:372-412 | writing a CPE 2.2 URI (percent-encoding what is not a letter, digit, dot, hyphen or underscore, and leaving an absent version out) and parsing it gives the product back exactly for the canonical ones in which nothing is encoded and no component is a lone hyphen |
| `Cpe.UnbindField` | internal/source/misp.go:404-412 | on a field that came from the split, un-escaping a colon does nothing: backslashes are dropped, underscores become spaces, the ends are trimmed |
| `Cpe.EscapedColonIsLost` | internal/source/misp.go:372-412 | false promise with its input family: a vendor v:p with its colon escaped as CPE 2.3 asks is split all the same, v becomes the vendor, p the product and the product the version |
| `Cpe.CpeVersionIsExact` | internal/source/misp.go:393-398 | a version from a CPE name admits, among versions that parse, only equal tuples and labels them exact |
| `CveMatcher.CVEMatcher.MatchViaAffectedProducts` | internal/match/cve_matcher.go:95-105 | the loop returns the first affected product that names the application |
| `CveMatcher.CVEMatcher.FirstNamingLeast` | internal/match/cve_matcher.go:95-105 | first means the least position, and none when no product names it |
| `CveMatcher.CVEMatcher.CveMatchesApp` | internal/match/cve_matcher.go:42-90 | a report exactly for an application the event concerns |
| `CveMatcher.CVEMatcher.MatchEvent` | internal/match/cve_matcher.go:27-39 | the nested loops compute the table of reports |
| `CveMatcher.CVEMatcher.TableSize` | internal/match/cve_matcher.go:27-39 | the number of matches is the number of CVEs times the number of concerned applications |
| `CveMatcher.CVEMatcher.RowMajor` | internal/match/cve_matcher.go:27-39 | the match at position i * width + j is the report on CVE i and the j-th concerned application |
| `CveMatcher.CVEMatcher.ConcernedExactly` | internal/match/cve_matcher.go:47-59 | the concerned applications are listed once each, in order, and no other |
| `CveMatcher.CVEMatcher.ReportMeaning` | internal/match/cve_matcher.go:42-90 | suppressed exactly when the first naming product's range rules out the non-empty version; a title-only match is weak, never suppressed and never exact; affected exactly when the label is exact, which needs a parseable version |
| `CveMatcher.CVEMatcher.LaterProductsIgnored` | internal/match/cve_matcher.go:95-105 | products listed behind the first that names each application, also further ranges, change nothing |
| `CveMatcher.CVEMatcher.WideningNeverSuppresses` | internal/match/cve_matcher.go:62-80 | loosening the deciding range never suppresses an application that was kept |
| `CveMatcher.CVEMatcher.CpeReport` | internal/match/cve_matcher.go:62-83 | with a CPE version and parseable versions an application is affected when the tuples are equal and suppressed otherwise |
| `MatchFacts.Normalised` | internal/match/cve_matcher.go:137-152 | the normalised vendor or product of a name between white space is its lower-case form, or what the table says about that |
| `MatchFacts.DecidesIsFirst` | internal/match/cve_matcher.go:95-105 | product i decides exactly when it is the least position at which both the normalised vendors and the normalised products overlap (both non-empty, one inside the other) |
| `MatchFacts.TitleIsNamed` | internal/match/cve_matcher.go:109-118 | the title test: the lower-case title contains the non-empty normalised vendor or product |
| `MatchFacts.AnswerOnFacts` | internal/match/cve_matcher.go:42-105 | the answer of CveMatchesApp: the deciding product alone decides on suppression, its reason and the label; without one a weak, unsuppressed match when the title holds a name, and nothing otherwise |
| `Ssvc.TableMonotone` | internal/risk/ssvc.go:72-91 | worsening any of the four coordinates never lowers the outcome |
| `Ssvc.LeafLetters` | internal/risk/ssvc.go:79-91 | the 72 leaves are the four outcome letters |
| `Ssvc.DetermineExploitation` | internal/risk/ssvc.go:143-159 | active exactly with a KEV match or the in-the-wild tag, else none |
| `Ssvc.DetermineExposure` | internal/risk/ssvc.go:161-190 | the nested loops: open exactly when a match names an internet-facing application, else controlled when there is a match |
| `Ssvc.DetermineMissionImpact` | internal/risk/ssvc.go:198-237 | the flags the nested loops set are the existential facts about matched applications, and they decide the level |
| `Ssvc.SSVCTree` | internal/risk/ssvc.go:104-116 | the action of the outcome looked up for those levels |
| `Scoring.LikelihoodFactors` | internal/risk/engine.go:159-193 | the factors add up to the likelihood sum |
| `Scoring.ImpactFactors` | internal/risk/engine.go:195-247 | the factors add up to the impact sum |
| `Scoring.ExposureFactors` | internal/risk/engine.go:249-279 | the factors add up to the exposure sum |
| `Scoring.ConfidenceFactors` | internal/risk/engine.go:281-301 | the factors add up to the trust in the source and the baseline point |
| `Scoring.ConfidenceSumCapped` | internal/risk/engine.go:296-300 | the baseline point is left out only where the cap would take it away |
| `Scoring.DefaultConfidence` | internal/risk/engine.go:322-331 | with the default weights a source of medium confidence is labelled HIGH and only one of low confidence LOW |
| `Scoring.RawSum` | internal/risk/engine.go:78-84 | the uncapped sum |
| `Scoring.SumCapped` | internal/risk/engine.go:63-75 | the sum clamped to 0..max |
| `Scoring.Score` | internal/risk/engine.go:127-157 | every dimension, confidence included, is the capped sum of its factors; the score is the product of the first three over the product of their maxima, and both labels and the action follow |
| `Coherence.WorseningNeverHelps` | internal/risk/engine.go:127-319 | more tags, matches, KEV flags, actors or applications (as sets), a higher CVSS score, a fresher event, or a more critical, exposed or sensitive asset never lower a dimension, the score, the severity or the action, for any thresholds and positive maxima |
| `Coherence.SumsWorse` | internal/risk/engine.go:159-279 | already the raw sums are monotone |
| `Coherence.ActionWorse` | internal/risk/ssvc.go:104-237 | the SSVC part alone |
| `Coherence.OrderIrrelevant` | internal/risk/engine.go:127-279 | inputs whose lists are equal as sets get the same score and action |
| `Coherence.OutcomeIsLeaf` | internal/risk/ssvc.go:121-133 | the determined levels are always recognised, so the fallback to defer is never taken |
| `Coherence.ActIff` | internal/risk/ssvc.go:104-133 | exactly when the action is Act and exactly when it is Track |
| `Coherence.SeverityPoints` | internal/risk/engine.go:112-125 | the default labels in integer points over 75; no threshold is a multiple of 1/75 |
| `Coherence.ActIsAtLeastMedium` | internal/risk/engine.go:112-151 | Act implies a score of at least 18/75, so at least medium |
| `Coherence.ActBoundIsTight` | internal/risk/engine.go:112-151 | 18/75 is reached |
| `Coherence.CriticalIsNotTrack` | internal/risk/ssvc.go:104-133 | critical severity is never merely tracked |
| `Coherence.ExploitedIsNotTrack` | internal/risk/ssvc.go:104-159 | active exploitation is never merely tracked |
| `Coherence.UnexposedIsNotCritical` | internal/risk/engine.go:249-279 | without a matched internet-facing application and a phishing or credential tag the score is at most 25/75 and never critical |
| `Facts.LevelsOnFacts` | internal/risk/ssvc.go:143-237 | the four levels in terms of the signals, the CVSS score and which matched applications are facing, critical, high or sensitive |
| `Facts.ActionOnFacts` | internal/risk/ssvc.go:104-237 | each of the four actions exactly on those facts: Act needs exploitation, a facing, a critical and a sensitive matched application, and either one that is both critical and facing or a CVSS score of at least 7 |
| `Facts.ScoreOnFacts` | internal/risk/engine.go:159-279 | likelihood, impact and exposure for any maxima as capped sums over the facts, with every tier, weight and the seven days written out |
| `Facts.LabelReached` | internal/risk/engine.go:127-157 | the score is the product of the dimensions out of the product of their maxima, and with thresholds in order a severity label is reached exactly when the score reaches its threshold |
| `Facts.ConfidenceOnFacts` | internal/risk/engine.go:281-331 | the confidence and its label for any source and any maximum |
| `RateLimit.RateLimiter.Allow` | internal/api/ratelimit.go:29-55 | keeps the timestamps inside the window, admits below the limit and then records the time |
| `RateLimit.RateLimiter.Reset` | internal/api/ratelimit.go:58-62 | forgets one key |
| `RateLimit.RateLimiter.Evict` | internal/api/ratelimit.go:75-101 | the loop removes exactly the keys without a timestamp of the last five minutes |
| `RateLimit.SameRecent` | internal/api/ratelimit.go:29-96 | after any run with a non-decreasing clock the pruned, evicted table and the full history of every key hold the same timestamps inside the window |
| `RateLimit.AnswersAgree` | internal/api/ratelimit.go:29-96 | every answer is that of a limiter that never discards history: eviction is unobservable and keys do not interfere |
| `RateLimit.AdmittedSpaced` | internal/api/ratelimit.go:29-55 | with a constant limit any limit+1 admissions of a key between resets span at least the window |
| `RateLimit.AdmissionBound` | internal/api/ratelimit.go:29-55 | so at most the limit of them, one after another, lie in a five-minute window |
| `RateLimit.WindowBound` | internal/api/ratelimit.go:29-55 | the number of admissions of a key in a window since its last reset is at most its limit |
| `Throttle.AnswersOnFacts` | internal/api/ratelimit.go:29-96 | over every history in time order an attempt is let through exactly when fewer than the maximum were let through in the 300 seconds before it since the last reset of its key: the law speaks of the earlier answers only |
| `Throttle.EvictedExactly` | internal/api/ratelimit.go:75-101 | a sweep keeps exactly the keys with an attempt in the last 300 seconds, untouched |
| `Accounts.Store.constructor` | internal/store/users.go:308-322 | an empty database is seeded with the administrator |
| `Accounts.Store.CreateUser` | internal/store/users.go:26-33 | fails exactly for a taken name |
| `Accounts.Store.UpdateUser` | internal/store/users.go:70-91 | refuses exactly to demote the last administrator; updates nothing for an unknown name; keeps the hash when no password is given |
| `Accounts.Store.DeleteUser` | internal/store/users.go:94-103 | deletes exactly when another administrator remains |
| `Accounts.Store.CreateSession` | internal/store/users.go:117-129 | one session a token, whose end is stored in whole seconds, twelve hours later |
| `Accounts.Store.GetSession` | internal/store/users.go:132-147 | finds a session until it expires and then deletes it |
| `Accounts.Store.DeleteSession` | internal/store/users.go:150-154 | removes one session |
| `Accounts.Store.DeleteSessionsForUser` | internal/store/users.go:157-159 | removes exactly the sessions of one user |
| `Accounts.Store.CleanExpiredSessions` | internal/store/users.go:162-164 | removes exactly those whose stored second is past |
| `Auth.Server.Throttle` | internal/api/auth.go:50-55 | one limiter call, added to the call history |
| `Auth.Server.Unthrottle` | internal/api/auth.go:84-86 | success resets both counters |
| `Auth.Server.OpenSession` | internal/api/auth.go:88-99 | a legacy hash is upgraded, then the session carries the role of the record |
| `Auth.Server.Screen` | internal/api/auth.go:50-86 | the throttles, the lookup and the password check with the separate account throttle of a missing user: the reply and the limiter calls are those of the request's outcome |
| `Auth.Server.HandleLogin` | internal/api/auth.go:50-111 | the reply, the limiter calls and the new tables of one login; the request joins the traffic the limiter has seen |
| `Auth.Server.Evict` | internal/api/ratelimit.go:67-79 | a tick of the evictor joins the traffic |
| `Auth.Server.HandleLogout` | internal/api/auth.go:114-124 | a logout step |
| `Auth.Server.HandleCreate` | internal/api/auth.go:148-170 | a create step; roles other than admin become reader |
| `Auth.Server.HandleUpdate` | internal/api/auth.go:172-193 | an update step, which ends all sessions of the user |
| `Auth.Server.HandleDelete` | internal/api/auth.go:195-210 | a delete step, likewise |
| `Auth.Server.SessionFromCookie` | internal/api/auth.go:219-236 | identifies a live session by the user record and deletes one whose user is gone |
| `Auth.NoEnumeration` | internal/api/auth.go:57-82 | for any two sets of accounts, any series of logins that both would refuse, from any state of the limiter, gets the same replies and leaves the same limiter calls and table |
| `Auth.WrongAlike` | internal/api/auth.go:57-82 | the branch of a missing user and that of a wrong password give the same reply and the same limiter calls |
| `Auth.RequestCovered` | internal/api/auth.go:50-86 | one request: the full histories of its account and of its address take up its password check, an accepted one empties both, and no other history changes |
| `Auth.LoginBound` | internal/api/auth.go:50-86 | over every run of login requests and evictor ticks in time order, whatever other handlers do to the accounts in between: in any five minutes at most 20 passwords are checked for an account and 50 from an address since its last accepted login |
| `Throttle.LoginOnFacts` | internal/api/auth.go:50-111 | over every limiter history in time order a login is answered too many exactly when 50 attempts from its address or 20 on its account were let through in the last 300 seconds since a reset, unauthorized exactly when not throttled and the account is missing or the password wrong, and is let in otherwise; a password is checked exactly for an existing account that is not throttled |
| `Throttle.SuccessForgives` | internal/api/auth.go:84-86 | an accepted login starts both counts from nothing |
| `Accounts.InvStep` | internal/api/auth.go:26-236 | each step keeps: an administrator exists, every session names a user and carries the user's current role |
| `Accounts.GoodRun` | internal/api/auth.go:26-236 | every run keeps it and never revives a token |
| `Accounts.AccountsInvariant` | internal/store/users.go:308-322 | from a fresh database it always holds |
| `Accounts.OldTokensAreDead` | internal/store/users.go:94-103 | a token issued before its user was deleted or updated never identifies anybody again, even if the name is created anew |
| `Sessions.SessionLife` | internal/store/users.go:117-164 | over every run from a fresh database: up to twelve hours after its login, rounded down to the second, a token identifies exactly the user it was issued to, with the present role, as long as no logout, effective update or delete of the user, and no visit or clean-up after its expiry came in between; in every other case nobody |
| `Sessions.NeverLonger` | internal/store/users.go:132-147 | in particular nobody more than twelve hours after the login, whatever happens in between |
| `Sessions.StepKeepsOrEnds` | internal/api/auth.go:114-236 | which handler calls end a session, exactly |
| `Sessions.UpdateRecords` | internal/store/users.go:70-91 | an update stores the role and a new hash if one is given, ends the sessions of that user, and touches nothing else |
| `Sessions.UpdateRefusedIff` | internal/store/users.go:70-81 | refused exactly to take the role from the only administrator |
| `Sessions.CreateRecords` | internal/api/auth.go:148-170 | a created account has the given hash and, unless the role is admin, the role reader; empty fields and taken names change nothing |
| `Sessions.DeleteRecords` | internal/store/users.go:94-103 | with another administrator left a delete removes the user and exactly that user's sessions, and otherwise nothing |
| `Sessions.LoginRecords` | internal/api/auth.go:88-99 | a login replaces the stored hash exactly when that is in the old form (a colon and no Argon2id mark), and adds one session |
| `Alerts.AlertStore.SaveAlert` | internal/store/alerts.go:13-56 | refuses exactly within ttl of the recorded save, otherwise records the time and replaces the alert |
| `Alerts.AlertStore.CleanDedup` | internal/store/alerts.go:59-63 | removes exactly the records older than ttl |
| `Alerts.AlertStore.SuppressAlertsForEvent` | internal/store/alerts.go:69-75 | suppresses exactly the alerts of one event |
| `Alerts.AlertStore.Ack` | internal/api/server.go:202-207 | sets the status of one alert, acked by default |
| `Alerts.SameAnswers` | internal/store/alerts.go:13-63 | the cleaned table answers like the uncleaned history |
| `Alerts.CleaningIsInvisible` | internal/store/alerts.go:59-63 | cleaning with the same or a longer ttl, anywhere in a run, changes no later answer |
| `Alerts.InvisibleIffLongEnough` | internal/store/alerts.go:59-63 | a clean-up is invisible in every table exactly when it keeps records for at least ttl less one second |
| `Alerts.SavesSpaced` | internal/store/alerts.go:13-63 | any two saves of one alert ID that the table accepts, whatever is cleaned in between, are at least ttl apart |
| `Alerts.AcceptedSpaced` | internal/store/alerts.go:13-26 | so are the times of the uncleaned reference history |
| `Alerts.StatusKept` | internal/store/alerts.go:37-75 | an alert changes only by an acknowledgement, a retraction of its event or an accepted save |
| `Alerts.RefusedWithinTtl` | internal/store/alerts.go:14-26 | within ttl of the last accepted save a repeated save changes nothing, so a status set in between survives |
| `Alerts.StatusOverwrittenIff` | internal/store/alerts.go:41-50 | a save overwrites an acknowledged or retracted alert exactly when ttl has passed |
| `Alerts.OverwriteIsReachable` | internal/store/alerts.go:41-50 | a run in which an acknowledged alert is overwritten by a save ttl later |
| `Alerts.RetractionHolds` | internal/store/alerts.go:65-75 | over any stretch in which nobody saves or acknowledges an alert it keeps every field, except that its status is suppressed exactly from the first retraction of its own event on |
| `Alerts.AcknowledgedAndCleaned` | internal/store/alerts.go:59-63 | an acknowledgement writes its status, or acked, into one alert; a clean-up drops exactly the records older than its life and touches no alert |
| `Poller.MISPPoller.Resume` | internal/source/poller.go:28-31 | a saved cursor skips the cold start |
| `Poller.MISPPoller.HandleEvent` | internal/source/poller.go:86-117 | one event: retraction, stale version, or store and send |
| `Poller.MISPPoller.HandlePage` | internal/source/poller.go:79-118 | the event loop handles a page in order, or stops where the context is cancelled |
| `Poller.MISPPoller.PullPage` | internal/source/poller.go:67-122 | one fetch and its page: the loop goes on exactly after a full page |
| `Poller.MISPPoller.PullPages` | internal/source/poller.go:61-123 | the page loop, over a list that may be another one at every fetch, handles exactly the pages it finds up to the first short one or the fifth; interrupted, a prefix of them |
| `Poller.CompletedSteady` | internal/source/poller.go:61-139 | over a list that stays the same that is the first min(500, all) visible events |
| `Poller.MISPPoller.Poll` | internal/source/poller.go:52-139 | a completed poll sets the cursor and ends the cold start; an interrupted one keeps both |
| `Poller.NoEventLost` | internal/source/poller.go:52-139 | over every run of completed and interrupted polls and server changes, once the cold start is over every event back to its limit is settled or still at or after the cursor |
| `Poller.SafeStep` | internal/source/poller.go:52-139 | each step keeps that |
| `PollPages.EditBetweenFetchesIff` | internal/source/poller.go:66-132 | an event is edited, and so moves to the end of the list, between two fetches of one poll: the poll loses something exactly when the edited event had been pulled, there is an event behind the pages fetched so far, and that event is unsettled and stamped before the cursor then written (the last stamp reached if the last page is full, otherwise the current time) |
| `PollPages.EditIsGood` | internal/source/poller.go:66-132 | the new version itself is never lost |
| `PollPages.LostStaysLost` | internal/source/poller.go:66-132 | the lost event stays lost over all later polls whose clock does not fall behind that cursor |
| `PollPages.EditLossIsReachable` | internal/source/poller.go:55-132 | a first poll of 101 events during which the first is edited loses the last one for good |
| `Poller.CompletedLosesNothing` | internal/source/poller.go:125-136 | a completed poll, cold or warm, establishes or keeps it |
| `Poller.StoppedLosesNothing` | internal/source/poller.go:67-117 | a failed or cancelled poll keeps the cursor and loses nothing |
| `Poller.SeenOrKept` | internal/source/poller.go:125-132 | an event a completed poll could see is settled or not older than the new cursor |
| `Poller.StoredNeverFalls` | internal/source/poller.go:96-110 | for published events the stored timestamp never decreases |
| `Poller.StoredFallsIff` | internal/source/poller.go:96-110 | it falls exactly when an older unpublished version arrives |
| `Poller.CursorNotAhead` | internal/source/poller.go:127-131 | the cursor does not pass the current time unless the server's stamps do |
| `Poller.ProgressIff` | internal/source/poller.go:127-131 | a completed poll moves the cursor forward except exactly when its last page was full and all it pulled carries the cursor's own stamp |
| `PollFacts.FateOfVersion` | internal/source/poller.go:79-118 | each version a poll handles: unpublished and seen before, it retracts; otherwise, while all earlier versions are published, it is stored and sent exactly when no earlier or stored version is newer, and else nothing changes |
| `PollFacts.StoredIsNewest` | internal/source/poller.go:96-110 | while all versions are published the stored one is as new as the newest |
| `PollFacts.PollOnFacts` | internal/source/poller.go:52-139 | a completed poll of a stable list handles, in order, the first 500 events not older than its limit (604800 seconds back at the cold start, else the cursor); the cursor goes to the last of them when they fill whole pages of 100, else to the present |
| `PollRuns.CatchesUpIff` | internal/source/poller.go:61-139 | once the cold start is over, repeated completed polls of a list that stays the same settle every event at or after the floor exactly when no 500 events at or after the cursor share a stamp in front of an unsettled event |
| `PollRuns.MovesOn` | internal/source/poller.go:61-139 | a completed poll that does not catch up moves the window on and makes no new jam |
| `PollRuns.JamStays` | internal/source/poller.go:125-131 | a jam outlives every completed poll |
| `PollRuns.JamIsReachable` | internal/source/poller.go:55-131 | the first poll of a fresh database over 500 events of one stamp and one behind them is jammed, nothing counts as lost, and the last event is never handled |
| `PollRuns.LateEventLostIff` | internal/source/poller.go:67-132 | an event that appears after the last fetch, stamped no earlier than what was fetched, is neither settled nor visible to the next poll exactly when the last page was short and its stamp is before the second reading of the clock |
| `PollRuns.ChangesDuringPollIff` | internal/source/poller.go:67-132 | a poll during which the list changes, by events stamped no earlier than what it fetched, loses nothing exactly when none of them is stamped before the second reading of the clock behind a short last page |
| `PollRuns.LostForGood` | internal/source/poller.go:125-132 | and no later poll handles it while the clock does not fall behind that cursor |
| `PollRuns.LossIsReachable` | internal/source/poller.go:55-132 | a first poll of an empty server already loses an event stamped between its two readings of the clock |
| `TechStack.ComputeDelta` | internal/config/techstack.go:94-120 | the loops compute the entries with new keys, those with a changed material field, and in some order, once each, those whose key is gone |
| `TechStack.ListRemoved` | internal/config/techstack.go:113-117 | the loop over the existing table, in any order of its keys |
| `TechStack.PatchIff` | internal/config/techstack.go:94-135 | applying the delta always gives the new key set, and the new entry of a key exactly when the key is not reverted (an earlier duplicate changed, the last one equals what exists) |
| `TechStack.DeltaIsPatch` | internal/config/techstack.go:94-135 | with distinct keys the delta is a correct patch |
| `TechStack.DuplicatesRevert` | internal/config/techstack.go:100-111 | two entries under one key, the first changed and the second not, are a reverted key |
| `TechStack.DeltaDisjoint` | internal/config/techstack.go:94-120 | the three lists concern different keys |
| `TechStack.SelfDeltaEmpty` | internal/config/techstack.go:94-120 | a list compared with itself gives no delta |
| `TechStack.KeyIdentifies` | internal/config/techstack.go:123-125 | without a colon in the vendors, keys are equal exactly when vendor and name agree up to letter case and outer space |
| `TechStack.ColonCollides` | internal/config/techstack.go:123-125 | with one, two different applications share a key |
| `TechStack.DeltaOnFields` | internal/config/techstack.go:94-135 | between lists without repeated applications: which are added, modified and removed, exactly, in terms of vendor, name, version, criticality, exposure and data sensitivity |

## Left out

- Mock mode, the flush signal channel, the ticker loop, and the slice memory shared by successive pending queues.
- HTTP, JSON, TLS, the payload of `send`, Slack, Teams, email, CSV reading, the dashboard, the router, the filter and the sector and KEV matchers: plumbing or easy members.
- Scoring.Score: does not build the explanation text; the reasons of contributions and the trace of the SSVC decision are text too.
- `net.ParseIP`, CIDR membership and `ip.String`: parameters, so idempotence is stated for domains and hashes.
- Argon2, SHA-256, `splitN` and `indexOf`: one verification parameter; session digests stand for tokens, and a fresh token is assumed for each login of a run.
- SQL and I/O errors, including the decode error at internal/source/poller.go:90-94, which skips an event.
- Interleavings inside `UpdateUser`, `DeleteUser` and `SaveAlert`, which check and then write without a transaction: they are atomic steps here. `requireAuth` and `requireAdmin` only call `sessionFromCookie`.
- Letter case outside ASCII, and bytes that are not valid UTF-8: strings are sequences of characters.
- Overflow of `time.Duration` for an absurd token life or ttl, and RFC 3339 text with changing zone offsets: times are integers.
- Floating point rounding and a CVSS score that is not a number: scores are exact; the default thresholds are not multiples of 1/75, so rounding of the quotient can not change a default label.
- The default alias tables of the CVE matcher: the maps are fields of the matcher, and every result holds for any maps.
- Poller.NoEventLost: is for polls during which the list stays the same, and for changes stamped not before the cursor of the last completed poll; `PollRuns.ChangesDuringPollIff` and `PollPages.EditBetweenFetchesIff` say exactly when a late event, or one edit between two fetches, breaks that. Several edits in one poll are not counted. The list is taken to be ascending in time and without repeated IDs.
- RateLimit.AdmittedSpaced: is for the fixed five-minute window and one limit per key, as the login handler uses the limiter; `Allow` itself is specified for any window.
