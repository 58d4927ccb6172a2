/** The difference between two application inventories, and that it is a correct patch. */
module TechStack {
  import opened Text
  import opened Model

  function AppKey(app: App): string {
    ToLower(TrimSpace(app.vendor)) + ":" + ToLower(TrimSpace(app.name))
  }

  /** A material change; when an entry was last verified does not count. */
  predicate AppChanged(a: App, b: App) {
    || a.criticality != b.criticality || a.internetFacing != b.internetFacing
    || a.dataSensitivity != b.dataSensitivity || a.version != b.version
  }

  /** The inventory as a table; a later entry with the same key replaces an earlier one. */
  function Table(apps: seq<App>): map<string, App> {
    if apps == [] then map[]
    else Table(apps[..|apps| - 1])[AppKey(apps[|apps| - 1]) := apps[|apps| - 1]]
  }

  function Added(apps: seq<App>, existing: map<string, App>): seq<App> {
    if apps == [] then []
    else
      var a := apps[|apps| - 1];
      Added(apps[..|apps| - 1], existing) + (if AppKey(a) !in existing then [a] else [])
  }

  function Modified(apps: seq<App>, existing: map<string, App>): seq<App> {
    if apps == [] then []
    else
      var a := apps[|apps| - 1];
      Modified(apps[..|apps| - 1], existing)
      + (if AppKey(a) in existing && AppChanged(a, existing[AppKey(a)]) then [a] else [])
  }

  /** `removed` lists, in some order and once each, the existing entries whose key is gone. */
  ghost predicate ListsRemoved(removed: seq<App>, existing: map<string, App>, updated: map<string, App>) {
    && (forall i :: 0 <= i < |removed| ==>
      AppKey(removed[i]) in existing && existing[AppKey(removed[i])] == removed[i] && AppKey(removed[i]) !in updated)
    && (forall k :: k in existing && k !in updated ==> existing[k] in removed)
    && (forall i, j :: 0 <= i < j < |removed| ==> AppKey(removed[i]) != AppKey(removed[j]))
  }

  lemma {:induction false} TableKeys(apps: seq<App>)
    ensures forall k :: k in Table(apps) ==> AppKey(Table(apps)[k]) == k && Table(apps)[k] in apps
    ensures forall i :: 0 <= i < |apps| ==> AppKey(apps[i]) in Table(apps)
  {
    if apps != [] {
      TableKeys(apps[..|apps| - 1]);
      forall i | 0 <= i < |apps| ensures AppKey(apps[i]) in Table(apps) {
        if i < |apps| - 1 { assert apps[..|apps| - 1][i] == apps[i]; }
      }
    }
  }

  method ComputeDelta(newApps: seq<App>, existingApps: seq<App>)
    returns (added: seq<App>, removed: seq<App>, modified: seq<App>)
    ensures added == Added(newApps, Table(existingApps))
    ensures modified == Modified(newApps, Table(existingApps))
    ensures ListsRemoved(removed, Table(existingApps), Table(newApps))
  {
    var existingMap: map<string, App> := map[];
    for i := 0 to |existingApps|
      invariant existingMap == Table(existingApps[..i])
    {
      assert existingApps[..i + 1][..i] == existingApps[..i];
      existingMap := existingMap[AppKey(existingApps[i]) := existingApps[i]];
    }
    assert existingApps[..|existingApps|] == existingApps;
    var newMap: map<string, App> := map[];
    added, modified, removed := [], [], [];
    for i := 0 to |newApps|
      invariant newMap == Table(newApps[..i])
      invariant added == Added(newApps[..i], existingMap)
      invariant modified == Modified(newApps[..i], existingMap)
    {
      assert newApps[..i + 1][..i] == newApps[..i];
      var app := newApps[i];
      var key := AppKey(app);
      newMap := newMap[key := app];
      if key !in existingMap {
        added := added + [app];
      } else if AppChanged(app, existingMap[key]) {
        modified := modified + [app];
      }
    }
    assert newApps[..|newApps|] == newApps;
    TableKeys(existingApps);
    removed := ListRemoved(existingMap, newMap);
  }

  /** The loop over the existing table, in whatever order its keys come. */
  method ListRemoved(existingMap: map<string, App>, newMap: map<string, App>) returns (removed: seq<App>)
    requires forall k :: k in existingMap ==> AppKey(existingMap[k]) == k
    ensures ListsRemoved(removed, existingMap, newMap)
  {
    hide AppKey;
    removed := [];
    var keys := existingMap.Keys;
    while keys != {}
      invariant keys <= existingMap.Keys
      invariant forall i :: 0 <= i < |removed| ==>
        AppKey(removed[i]) in existingMap && existingMap[AppKey(removed[i])] == removed[i]
        && AppKey(removed[i]) !in newMap && AppKey(removed[i]) !in keys
      invariant forall k :: k in existingMap && k !in newMap && k !in keys ==> existingMap[k] in removed
      invariant forall i, j :: 0 <= i < j < |removed| ==> AppKey(removed[i]) != AppKey(removed[j])
    {
      var key :| key in keys;
      keys := keys - {key};
      if key !in newMap {
        removed := removed + [existingMap[key]];
      }
    }
  }

  // ----- The delta is a patch -----

  ghost predicate DistinctKeys(apps: seq<App>) {
    forall i, j :: 0 <= i < j < |apps| ==> AppKey(apps[i]) != AppKey(apps[j])
  }

  function KeysOf(apps: seq<App>): set<string> {
    set a | a in apps :: AppKey(a)
  }

  /** Drop what was removed, then write what was added and what was modified. */
  function Patched(existing: map<string, App>, added: seq<App>, removed: seq<App>,
                   modified: seq<App>): map<string, App> {
    (existing - KeysOf(removed)) + Table(added) + Table(modified)
  }

  lemma {:induction false} DeltaMembers(apps: seq<App>, existing: map<string, App>, a: App)
    ensures a in Added(apps, existing) <==> a in apps && AppKey(a) !in existing
    ensures a in Modified(apps, existing) <==> a in apps && AppKey(a) in existing && AppChanged(a, existing[AppKey(a)])
  {
    if apps != [] {
      DeltaMembers(apps[..|apps| - 1], existing, a);
      assert apps == apps[..|apps| - 1] + [apps[|apps| - 1]];
    }
  }

  /** In a list with distinct keys the table finds exactly the list's entries. */
  lemma TableOfDistinct(apps: seq<App>, a: App)
    requires DistinctKeys(apps) && a in apps
    ensures AppKey(a) in Table(apps) && Table(apps)[AppKey(a)] == a
  {
    TableKeys(apps);
  }

  lemma TableSnoc(apps: seq<App>, a: App)
    ensures Table(apps + [a]) == Table(apps)[AppKey(a) := a]
  {
    assert (apps + [a])[..|apps|] == apps;
  }

  lemma AddedSnoc(apps: seq<App>, existing: map<string, App>)
    requires apps != []
    ensures var init, a := apps[..|apps| - 1], apps[|apps| - 1];
      Added(apps, existing) == if AppKey(a) !in existing then Added(init, existing) + [a] else Added(init, existing)
  {
  }

  lemma ModifiedSnoc(apps: seq<App>, existing: map<string, App>)
    requires apps != []
    ensures var init, a := apps[..|apps| - 1], apps[|apps| - 1];
      Modified(apps, existing) == if AppKey(a) in existing && AppChanged(a, existing[AppKey(a)])
        then Modified(init, existing) + [a] else Modified(init, existing)
  {
  }

  lemma {:induction false} TableOfAdded(apps: seq<App>, existing: map<string, App>, key: string)
    ensures key in Table(Added(apps, existing)) <==> key in Table(apps) && key !in existing
    ensures key in Table(Added(apps, existing)) ==> Table(Added(apps, existing))[key] == Table(apps)[key]
  {
    if apps != [] {
      AddedSnoc(apps, existing);
      hide AppKey, AppChanged, Added;
      TableOfAdded(apps[..|apps| - 1], existing, key);
      TableSnoc(Added(apps[..|apps| - 1], existing), apps[|apps| - 1]);
    }
  }

  /** Some entry under this key differs from the existing one. */
  ghost predicate Touched(apps: seq<App>, existing: map<string, App>, key: string) {
    key in existing && exists a :: a in apps && AppKey(a) == key && AppChanged(a, existing[key])
  }

  lemma TouchedSnoc(apps: seq<App>, a: App, existing: map<string, App>, key: string)
    ensures Touched(apps + [a], existing, key) <==>
      Touched(apps, existing, key) || (key in existing && AppKey(a) == key && AppChanged(a, existing[key]))
  {
    hide AppKey, AppChanged;
    assert a in apps + [a] && forall b :: b in apps ==> b in apps + [a];
  }

  /** The modified entries as a table: a key is there when some entry touches it, with the last such
      entry, which is the list's last entry for the key if that one is itself a change. */
  ghost predicate LastChange(t: map<string, App>, apps: seq<App>, existing: map<string, App>, key: string) {
    && (key in t <==> Touched(apps, existing, key))
    && (key in t ==> key in Table(apps) && key in existing && AppChanged(t[key], existing[key]))
    && (key in t && AppChanged(Table(apps)[key], existing[key]) ==> t[key] == Table(apps)[key])
  }

  lemma LastChangeSnoc(t: map<string, App>, apps: seq<App>, a: App, existing: map<string, App>, key: string)
    requires LastChange(t, apps, existing, key)
    ensures var t' := if AppKey(a) in existing && AppChanged(a, existing[AppKey(a)]) then t[AppKey(a) := a] else t;
      LastChange(t', apps + [a], existing, key)
  {
    hide AppKey, AppChanged, Touched, Table;
    TableSnoc(apps, a);
    TouchedSnoc(apps, a, existing, key);
  }

  lemma NoChangeYet(existing: map<string, App>, key: string)
    ensures LastChange(Table(Modified([], existing)), [], existing, key)
  {
  }

  lemma ModifiedTableSnoc(apps: seq<App>, existing: map<string, App>)
    requires apps != []
    ensures var init, a := apps[..|apps| - 1], apps[|apps| - 1];
      Table(Modified(apps, existing)) == if AppKey(a) in existing && AppChanged(a, existing[AppKey(a)])
        then Table(Modified(init, existing))[AppKey(a) := a] else Table(Modified(init, existing))
  {
    ModifiedSnoc(apps, existing);
    hide AppKey, AppChanged, Modified, Table;
    TableSnoc(Modified(apps[..|apps| - 1], existing), apps[|apps| - 1]);
  }

  lemma {:induction false} TableOfModified(apps: seq<App>, existing: map<string, App>, key: string)
    ensures LastChange(Table(Modified(apps, existing)), apps, existing, key)
  {
    hide AppKey, AppChanged, Modified, LastChange, Table;
    if apps == [] {
      NoChangeYet(existing, key);
    } else {
      var init, a := apps[..|apps| - 1], apps[|apps| - 1];
      TableOfModified(init, existing, key);
      ModifiedTableSnoc(apps, existing);
      LastChangeSnoc(Table(Modified(init, existing)), init, a, existing, key);
      assert apps == init + [a];
    }
  }

  /** A key whose last entry equals what exists although an earlier entry under it does not. */
  ghost predicate Reverted(apps: seq<App>, existing: map<string, App>, key: string) {
    Touched(apps, existing, key) && key in Table(apps) && !AppChanged(Table(apps)[key], existing[key])
  }

  /** Patching the existing table with the delta always gives exactly the new list's keys, and the
      entry of a key has all material fields of the new one exactly when the key is not reverted. */
  lemma PatchIff(newApps: seq<App>, existing: map<string, App>, removed: seq<App>, key: string)
    requires forall k :: k in existing ==> AppKey(existing[k]) == k
    requires ListsRemoved(removed, existing, Table(newApps))
    ensures var patched := Patched(existing, Added(newApps, existing), removed, Modified(newApps, existing));
      && (key in patched <==> key in Table(newApps))
      && (key in patched ==> (AppChanged(patched[key], Table(newApps)[key]) <==> Reverted(newApps, existing, key)))
  {
    hide Table, Added, Modified, Touched;
    TableOfAdded(newApps, existing, key);
    TableOfModified(newApps, existing, key);
    RemovedKeys(removed, existing, Table(newApps), key);
    UntouchedKey(newApps, existing, key);
  }

  lemma UntouchedKey(apps: seq<App>, existing: map<string, App>, key: string)
    ensures key in Table(apps) && key in existing && !Touched(apps, existing, key) ==>
      !AppChanged(Table(apps)[key], existing[key])
  {
    hide AppKey, AppChanged;
    TableKeys(apps);
  }

  lemma RemovedKeys(removed: seq<App>, existing: map<string, App>, updated: map<string, App>, key: string)
    requires forall k :: k in existing ==> AppKey(existing[k]) == k
    requires ListsRemoved(removed, existing, updated)
    ensures key in KeysOf(removed) <==> key in existing && key !in updated
  {
    hide AppKey;
    if key in existing && key !in updated { assert existing[key] in removed; }
  }

  /** With distinct keys nothing is reverted, so the delta is a correct patch. */
  lemma DeltaIsPatch(newApps: seq<App>, existing: map<string, App>, removed: seq<App>, key: string)
    requires DistinctKeys(newApps)
    requires forall k :: k in existing ==> AppKey(existing[k]) == k
    requires ListsRemoved(removed, existing, Table(newApps))
    ensures var patched := Patched(existing, Added(newApps, existing), removed, Modified(newApps, existing));
      && (key in patched <==> key in Table(newApps))
      && (key in patched ==> !AppChanged(patched[key], Table(newApps)[key]))
  {
    hide Table, Added, Modified, Patched, DistinctKeys, ListsRemoved, AppKey, AppChanged;
    PatchIff(newApps, existing, removed, key);
    if Reverted(newApps, existing, key) {
      var a :| a in newApps && AppKey(a) == key && AppChanged(a, existing[key]);
      TableOfDistinct(newApps, a);
    }
  }

  /** The three lists concern different keys. */
  lemma DeltaDisjoint(newApps: seq<App>, existing: map<string, App>, removed: seq<App>, a: App, b: App, c: App)
    requires ListsRemoved(removed, existing, Table(newApps))
    requires a in Added(newApps, existing) && b in Modified(newApps, existing) && c in removed
    ensures AppKey(a) != AppKey(b) && AppKey(b) != AppKey(c) && AppKey(a) != AppKey(c)
  {
    TableKeys(newApps);
    DeltaMembers(newApps, existing, a);
    DeltaMembers(newApps, existing, b);
  }

  /** A list compared with itself gives no delta. */
  lemma SelfDeltaEmpty(apps: seq<App>, removed: seq<App>)
    requires DistinctKeys(apps) && ListsRemoved(removed, Table(apps), Table(apps))
    ensures Added(apps, Table(apps)) == [] && Modified(apps, Table(apps)) == [] && removed == []
  {
    var added, modified := Added(apps, Table(apps)), Modified(apps, Table(apps));
    TableKeys(apps);
    if added != [] {
      DeltaMembers(apps, Table(apps), added[0]);
    }
    if modified != [] {
      DeltaMembers(apps, Table(apps), modified[0]);
      TableOfDistinct(apps, modified[0]);
    }
    RemovedAt(removed, Table(apps), Table(apps), 0);
  }

  lemma RemovedAt(removed: seq<App>, existing: map<string, App>, updated: map<string, App>, i: nat)
    requires ListsRemoved(removed, existing, updated)
    ensures i < |removed| ==> AppKey(removed[i]) in existing && AppKey(removed[i]) !in updated
  {
  }

  /** Duplicates can revert a key: the first entry is a change, the second equals what exists. */
  lemma DuplicatesRevert(first: App, second: App)
    requires AppKey(first) == AppKey(second) && AppChanged(first, second)
    ensures Reverted([first, second], map[AppKey(second) := second], AppKey(second))
  {
    hide AppKey;
    TableSnoc([first], second);
    assert [first] + [second] == [first, second] && first in [first, second];
  }

  // ----- The delta on the fields -----

  /** Vendor and name agree up to letter case and outer space. */
  predicate SameApp(a: App, b: App) {
    && ToLower(TrimSpace(a.vendor)) == ToLower(TrimSpace(b.vendor))
    && ToLower(TrimSpace(a.name)) == ToLower(TrimSpace(b.name))
  }

  ghost predicate PlainVendor(a: App) {
    NoneOf(TrimSpace(a.vendor), ':')
  }

  /** Keys stand for vendor and name as long as no vendor contains a colon. */
  lemma KeyIdentifies(a: App, b: App)
    requires PlainVendor(a) && PlainVendor(b)
    ensures AppKey(a) == AppKey(b) <==> SameApp(a, b)
  {
    hide TrimSpace;
    if AppKey(a) == AppKey(b) {
      FirstPart(ToLower(TrimSpace(a.vendor)), ToLower(TrimSpace(a.name)),
                ToLower(TrimSpace(b.vendor)), ToLower(TrimSpace(b.name)), ':');
    }
  }

  /** With a colon in a vendor, two different applications can share a key. */
  lemma ColonCollides(a: App, b: App)
    requires a.vendor == "a:b" && a.name == "c" && b.vendor == "a" && b.name == "b:c"
    ensures AppKey(a) == AppKey(b) && !SameApp(a, b)
  {
    TrimKeeps("a:b", IsSpace);
    TrimKeeps("c", IsSpace);
    TrimKeeps("a", IsSpace);
    TrimKeeps("b:c", IsSpace);
    hide TrimSpace;
    assert ToLower("a:b") == "a:b" && ToLower("c") == "c" && ToLower("a") == "a" && ToLower("b:c") == "b:c";
    assert "a:b" + ":" + "c" == "a" + ":" + "b:c";
  }

  /** Two lists of applications in which nothing is listed twice. */
  ghost predicate Plain(apps: seq<App>) {
    && (forall i :: 0 <= i < |apps| ==> PlainVendor(apps[i]))
    && forall i, j :: 0 <= i < j < |apps| ==> !SameApp(apps[i], apps[j])
  }

  lemma PlainIsDistinct(apps: seq<App>)
    requires Plain(apps)
    ensures DistinctKeys(apps)
  {
    hide AppKey, SameApp, PlainVendor;
    forall i, j | 0 <= i < j < |apps| ensures AppKey(apps[i]) != AppKey(apps[j]) {
      KeyIdentifies(apps[i], apps[j]);
    }
  }

  /** The old entry is found under the new application's key exactly when the old list has the application. */
  lemma FoundIff(existing: seq<App>, a: App)
    requires Plain(existing) && PlainVendor(a)
    ensures AppKey(a) in Table(existing) <==> exists e :: e in existing && SameApp(a, e)
    ensures forall e :: e in existing && SameApp(a, e) ==>
      AppKey(a) in Table(existing) && Table(existing)[AppKey(a)] == e
  {
    PlainIsDistinct(existing);
    TableKeys(existing);
    hide AppKey, SameApp, PlainVendor, Table, DistinctKeys;
    if AppKey(a) in Table(existing) {
      KeyIdentifies(a, Table(existing)[AppKey(a)]);
    }
    forall e | e in existing && SameApp(a, e)
      ensures AppKey(a) in Table(existing) && Table(existing)[AppKey(a)] == e
    {
      KeyIdentifies(a, e);
      TableOfDistinct(existing, e);
    }
  }

  /** Between two lists without repeated applications: added are the new applications the old list does
      not have, modified those whose version, criticality, exposure or data sensitivity differs, whatever
      else does, and removed the old applications the new list does not have. */
  lemma DeltaOnFields(newApps: seq<App>, existing: seq<App>, removed: seq<App>, a: App)
    requires Plain(newApps) && Plain(existing) && PlainVendor(a)
    requires ListsRemoved(removed, Table(existing), Table(newApps))
    ensures a in Added(newApps, Table(existing)) <==> a in newApps && !exists e :: e in existing && SameApp(a, e)
    ensures a in Modified(newApps, Table(existing)) <==>
      a in newApps && exists e :: (
        e in existing && SameApp(a, e)
        && (a.version != e.version || a.criticality != e.criticality || a.internetFacing != e.internetFacing
            || a.dataSensitivity != e.dataSensitivity))
    ensures a in removed <==> a in existing && !exists n :: n in newApps && SameApp(a, n)
  {
    FoundIff(existing, a);
    FoundIff(newApps, a);
    DeltaMembers(newApps, Table(existing), a);
    TableKeys(existing);
    SameItself(a);
    hide AppKey, SameApp, PlainVendor, Table, Added, Modified, Plain;
  }

  lemma SameItself(a: App)
    ensures SameApp(a, a)
  {
  }
}
