/** Which indicators are valid, on their characters: hashes by length, domains by their labels, addresses by
    the library alone, and nothing else. */
module IocFacts {
  import opened Text
  import opened Indicators

  predicate LowerHex(v: string) {
    forall i :: 0 <= i < |v| ==> '0' <= v[i] <= '9' || 'a' <= v[i] <= 'f'
  }

  predicate Digest(iocType: string, v: string) {
    LowerHex(v) && ((iocType == "hash_sha256" && |v| == 64) || (iocType == "hash_md5" && |v| == 32))
  }

  predicate LabelEnd(c: char) {
    '0' <= c <= '9' || 'a' <= c <= 'z'
  }

  /** A label: one to 63 lower-case letters, digits and inner hyphens. */
  predicate PlainLabel(l: string) {
    && 1 <= |l| <= 63 && LabelEnd(l[0]) && LabelEnd(l[|l| - 1])
    && forall i :: 0 <= i < |l| ==> LabelEnd(l[i]) || l[i] == '-'
  }

  ghost predicate PlainLabels(labels: seq<string>) {
    |labels| > 0 && forall i :: 0 <= i < |labels| ==> PlainLabel(labels[i])
  }

  ghost predicate Named(v: string) {
    exists labels :: PlainLabels(labels) && v == Join(labels, '.')
  }

  // ----- Hashes -----

  lemma HexChars(v: string)
    requires LowerHex(v)
    ensures forall i :: 0 <= i < |v| ==> DomainChar(v[i]) && v[i] != '.'
    ensures IsHex(v)
  {
    forall i | 0 <= i < |v| ensures DomainChar(v[i]) && v[i] != '.' {
    }
  }

  /** Outer space and letter case aside, a clean text cleans to itself. */
  lemma CleanSpaced(value: string, before: string, v: string, after: string)
    requires ToLower(value) == before + v + after && All(before, IsSpace) && All(after, IsSpace)
    requires v != "" && v[0] != '.' && v[|v| - 1] != '.' && forall i :: 0 <= i < |v| ==> DomainChar(v[i])
    ensures Clean(value) == v
  {
    hide StripSchemes, Refang, Trim, TrimSpace, ToLower, All;
    assert DomainChar(v[0]) && DomainChar(v[|v| - 1]);
    TrimmedSpelling(before, v, after);
    assert NoneOf(v, ':') && "" + v == v;
    StripOne("", v);
    RefangFixed(v);
    TrimKeeps(v, IsDot);
  }

  /** A hash is what its value cleans to, if that is 64 or 32 lower-case hexadecimal digits, as its type says. */
  lemma HashIff(parseIP: string -> Option<string>, iocType: string, value: string)
    requires iocType == "hash_sha256" || iocType == "hash_md5"
    ensures ValidateIOC(parseIP, iocType, value) == if Digest(iocType, Clean(value)) then Clean(value) else ""
  {
    hide Clean;
    assert iocType[5] == 's' || iocType[5] == 'm';
    if LowerHex(Clean(value)) {
      HexChars(Clean(value));
    }
  }

  /** A digest in any letter case and with any space around it is accepted as the lower-case digest. */
  lemma HashSpellings(parseIP: string -> Option<string>, iocType: string, value: string, before: string, v: string,
                      after: string)
    requires ToLower(value) == before + v + after && All(before, IsSpace) && All(after, IsSpace)
    requires Digest(iocType, v)
    ensures ValidateIOC(parseIP, iocType, value) == v
  {
    hide Clean, ToLower, All;
    HexChars(v);
    CleanSpaced(value, before, v, after);
    HashIff(parseIP, iocType, value);
  }

  // ----- Domains -----

  lemma PlainIsValid(l: string)
    requires PlainLabel(l)
    ensures ValidLabel(l) && NoneOf(l, '.') && forall i :: 0 <= i < |l| ==> DomainChar(l[i])
  {
  }

  lemma ValidIsPlain(l: string)
    requires ValidLabel(l) && forall i :: 0 <= i < |l| ==> LowerChar(l[i]) == l[i]
    ensures PlainLabel(l)
  {
  }

  lemma {:induction false} JoinChars(labels: seq<string>)
    requires PlainLabels(labels)
    ensures var v := Join(labels, '.');
      && v != "" && v[0] != '.' && v[|v| - 1] != '.' && forall i :: 0 <= i < |v| ==> DomainChar(v[i])
  {
    hide PlainLabel;
    PlainEnds(labels[0]);
    if |labels| > 1 {
      JoinChars(labels[1..]);
    }
  }

  lemma PlainEnds(l: string)
    requires PlainLabel(l)
    ensures l != "" && l[0] != '.' && l[|l| - 1] != '.' && forall i :: 0 <= i < |l| ==> DomainChar(l[i])
  {
  }

  lemma NamedIsValid(v: string)
    requires Named(v)
    ensures ValidDomain(v) && Clean(v) == v && v != ""
  {
    hide Clean, PlainLabel, ValidLabel, Split, Join;
    var labels :| PlainLabels(labels) && v == Join(labels, '.');
    JoinChars(labels);
    CleanFixed(v);
    forall i | 0 <= i < |labels| ensures NoneOf(labels[i], '.') && ValidLabel(labels[i]) && labels[i] != "" {
      PlainIsValid(labels[i]);
      PlainEnds(labels[i]);
    }
    SplitJoin(labels, '.');
    assert Labels(labels) == labels;
  }

  lemma {:induction false} LastPart(v: string)
    requires v != "" && v[|v| - 1] != '.'
    ensures var parts := Split(v, '.'); parts[|parts| - 1] != ""
  {
    if |v| > 1 {
      LastPart(v[1..]);
    }
  }

  lemma {:induction false} PartChars(v: string)
    requires Lowered(v)
    ensures forall i :: 0 <= i < |Split(v, '.')| ==> Lowered(Split(v, '.')[i])
  {
    if v != "" {
      PartChars(v[1..]);
    }
  }

  lemma ValidIsNamed(v: string)
    requires ValidDomain(v) && Lowered(v) && v != "" && v[|v| - 1] != '.'
    ensures Named(v)
  {
    hide Split, Join, PlainLabel, ValidLabel, Lowered;
    var parts := Split(v, '.');
    LastPart(v);
    PartChars(v);
    JoinSplit(v, '.');
    forall i | 0 <= i < |parts| ensures PlainLabel(parts[i]) {
      LoweredIs(parts[i]);
      ValidIsPlain(parts[i]);
    }
    assert PlainLabels(parts);
  }

  lemma LoweredIs(l: string)
    requires Lowered(l)
    ensures forall i :: 0 <= i < |l| ==> LowerChar(l[i]) == l[i]
  {
  }

  lemma DomainCleans(parseIP: string -> Option<string>, value: string)
    ensures ValidateIOC(parseIP, "domain", value) ==
      if ValidDomain(Clean(value)) && !HasSuffix(Clean(value), ".local") then Clean(value) else ""
  {
    hide Clean, ValidDomain, HasSuffix;
  }

  /** A domain is what its value cleans to, if that is made of lower-case labels joined by dots and is not
      under .local. */
  lemma DomainIff(parseIP: string -> Option<string>, value: string)
    ensures ValidateIOC(parseIP, "domain", value) ==
      if Named(Clean(value)) && !HasSuffix(Clean(value), ".local") then Clean(value) else ""
  {
    var v := Clean(value);
    DomainCleans(parseIP, value);
    CleanLowered(value);
    hide Clean, ValidDomain, Named, HasSuffix, Lowered, ValidateIOC;
    if Named(v) {
      NamedIsValid(v);
    } else if ValidDomain(v) && v != "" {
      ValidIsNamed(v);
    }
  }

  /** Only these five types are exported at all; an address is whatever the library makes of the clean text. */
  lemma OtherTypes(parseIP: string -> Option<string>, iocType: string, value: string)
    ensures ValidateIOC(parseIP, iocType, value) != "" ==>
      iocType in ["ipv4", "ipv6", "domain", "hash_sha256", "hash_md5"]
    ensures iocType == "ipv4" || iocType == "ipv6" ==>
      ValidateIOC(parseIP, iocType, value) == (if parseIP(Clean(value)).Some? then parseIP(Clean(value)).value else "")
  {
    hide Clean;
  }

  /** Every spelling of an address that the list of spellings covers reaches the library as the address. */
  lemma AddressSpellings(parseIP: string -> Option<string>, address: string, dots: seq<Dot>, scheme: string,
                         before: string, after: string, value: string)
    requires Named(address) && !HasSuffix(address, ".local") && |dots| == |address| && OptionalScheme(scheme)
    requires All(before, IsSpace) && All(after, IsSpace)
    requires ToLower(value) == before + (scheme + Spell(address, dots)) + after
    requires parseIP(address) == Some(address)
    ensures ValidateIOC(parseIP, "ipv4", value) == address
  {
    hide Clean, ToLower, All, Spell, OptionalScheme, HasSuffix;
    NamedIsCanonical(address);
    SpellingCleans(address, dots, scheme, before, after, value);
    OtherTypes(parseIP, "ipv4", value);
  }

  lemma NamedIsCanonical(v: string)
    requires Named(v) && !HasSuffix(v, ".local")
    ensures Canonical(v)
  {
    hide PlainLabel, ValidDomain, HasSuffix, Join;
    NamedIsValid(v);
    var labels :| PlainLabels(labels) && v == Join(labels, '.');
    JoinChars(labels);
  }
}
