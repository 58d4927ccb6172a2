/** Version strings: scheme detection, parsing to integer tuples, comparison, and the range test
    that decides whether a threat is suppressed. */
module Version {
  import opened Text
  import opened Numbers
  import opened Calendar

  datatype Scheme = Semver | DateScheme | Sap | Windows | LinuxKernel | Unknown

  /** The result of Parse; every error is Unparsed. */
  datatype Parsed = Parsed(scheme: Scheme, tuple: seq<int>) | Unparsed

  // ----- The patterns of Detect -----

  /** The number of leading digits. */
  function Lead(s: string): (n: nat)
    ensures n <= |s| && AllDigits(s[..n])
    ensures n < |s| ==> !IsDigit(s[n])
  {
    if s == [] || !IsDigit(s[0]) then 0 else
      var n := Lead(s[1..]);
      assert s[..n + 1] == [s[0]] + s[1..][..n];
      n + 1
  }

  /** What follows one or more digits and a dot, if the string starts like that. */
  function AfterNumberDot(s: string): Option<string> {
    var n := Lead(s);
    if 0 < n < |s| && s[n] == '.' then Some(s[n + 1..]) else None
  }

  /** Starts with number dot number. */
  predicate TwoNumbers(s: string) {
    var rest := AfterNumberDot(s);
    rest.Some? && Lead(rest.value) > 0
  }

  /** Starts with number dot number dot number. */
  predicate ThreeNumbers(s: string) {
    var rest := AfterNumberDot(s);
    rest.Some? && TwoNumbers(rest.value)
  }

  predicate WindowsLike(s: string) {
    "10.0." <= s && DigitsOnly(s[5..]) && (|s| == 9 || |s| == 10)
  }

  function Count(s: string, c: char): nat {
    if s == [] then 0 else Count(s[1..], c) + (if s[0] == c then 1 else 0)
  }

  function Detect(version: string): Scheme {
    var v := TrimPrefix(TrimSpace(version), "v");
    if DateLike(v) then DateScheme
    else if Contains(ToUpper(v), "SPS") then Sap
    else if WindowsLike(v) then Windows
    else if ThreeNumbers(v) && (Contains(v, "-generic") || Contains(v, "-aws") || Count(v, '-') >= 2) then LinuxKernel
    else if TwoNumbers(v) && (Count(v, '.') >= 2 || Count(v, '.') == 1) then Semver
    else Unknown
  }

  // ----- The parsers -----

  /** All parts are numbers, possibly with white space around them. */
  function SemverTuple(parts: seq<string>): Option<seq<int>> {
    if parts == [] then Some([])
    else
      var front := SemverTuple(parts[..|parts| - 1]);
      var last := Atoi(TrimSpace(parts[|parts| - 1]));
      if front.Some? && last.Ok? then Some(front.value + [last.n]) else None
  }

  method ParseSemver(version: string) returns (tuple: Option<seq<int>>)
    ensures tuple == SemverTuple(Split(TrimPrefix(version, "v"), '.'))
  {
    hide Atoi, TrimSpace, Split, TrimPrefix;
    var parts := Split(TrimPrefix(version, "v"), '.');
    var numbers := [];
    for i := 0 to |parts|
      invariant SemverTuple(parts[..i]) == Some(numbers)
    {
      assert parts[..i + 1][..i] == parts[..i];
      var n := Atoi(TrimSpace(parts[i]));
      if !n.Ok? {
        SemverFails(parts, i + 1);
        return None;
      }
      numbers := numbers + [n.n];
    }
    assert parts[..|parts|] == parts;
    return Some(numbers);
  }

  lemma {:induction false} SemverFails(parts: seq<string>, i: nat)
    requires i <= |parts| && SemverTuple(parts[..i]).None?
    ensures SemverTuple(parts).None?
    decreases |parts|
  {
    if i < |parts| {
      assert parts[..|parts| - 1][..i] == parts[..i];
      SemverFails(parts[..|parts| - 1], i);
    } else {
      assert parts[..i] == parts;
    }
  }

  function ParseDate(v: string): Option<seq<int>> {
    if DateLike(v) && Valid(Fields(v)) then Some([Days(Fields(v))]) else None
  }

  /** The digits after the first "SPS" that has any. */
  function ServicePack(s: string): string {
    if s == [] then []
    else if "SPS" <= s && Lead(s[3..]) > 0 then s[3..][..Lead(s[3..])]
    else ServicePack(s[1..])
  }

  /** The first two numbers joined by a dot. */
  function BaseVersion(s: string): Option<(string, string)> {
    if s == [] then None
    else if TwoNumbers(s) then
      var rest := AfterNumberDot(s).value;
      Some((s[..Lead(s)], rest[..Lead(rest)]))
    else BaseVersion(s[1..])
  }

  function ParseSap(v: string): seq<int> {
    var upper := ToUpper(v);
    var sps := Atoi(ServicePack(upper)).Value();
    match BaseVersion(upper)
    case Some((major, minor)) => [Atoi(major).Value(), Atoi(minor).Value(), sps]
    case None => [0, 0, sps]
  }

  /** The first three of the dot-separated parts; parts that are not numbers count as 0. */
  function FirstThree(v: string): Option<seq<int>> {
    var parts := Split(v, '.');
    if |parts| < 3 then None
    else Some([Atoi(parts[0]).Value(), Atoi(parts[1]).Value(), Atoi(parts[2]).Value()])
  }

  function ParseLinuxKernel(v: string): Option<seq<int>> {
    FirstThree(Split(v, '-')[0])
  }

  function Parse(version: string): Parsed {
    var v := TrimSpace(version);
    var scheme := Detect(version);
    var tuple := match scheme
      case Semver => SemverTuple(Split(TrimPrefix(v, "v"), '.'))
      case DateScheme => ParseDate(v)
      case Sap => Some(ParseSap(v))
      case Windows => FirstThree(v)
      case LinuxKernel => ParseLinuxKernel(v)
      case Unknown => None;
    match tuple
    case Some(t) => Parsed(scheme, t)
    case None => Unparsed
  }

  // ----- Comparison -----

  /** Lexicographic order; a proper prefix is smaller. */
  function Compare(a: seq<int>, b: seq<int>): int {
    if a == [] then (if b == [] then 0 else -1)
    else if b == [] then 1
    else if a[0] < b[0] then -1
    else if a[0] > b[0] then 1
    else Compare(a[1..], b[1..])
  }

  method CompareTuples(a: seq<int>, b: seq<int>) returns (r: int)
    ensures r == Compare(a, b)
  {
    var n := |a|;
    if |b| < n {
      n := |b|;
    }
    assert a[0..] == a && b[0..] == b;
    for i := 0 to n
      invariant Compare(a, b) == Compare(a[i..], b[i..])
    {
      if a[i] < b[i] {
        return -1;
      }
      if a[i] > b[i] {
        return 1;
      }
    }
    if |a| < |b| {
      return -1;
    }
    if |a| > |b| {
      return 1;
    }
    return 0;
  }

  lemma {:induction false} CompareAntisymmetric(a: seq<int>, b: seq<int>)
    ensures Compare(a, b) == -Compare(b, a)
    ensures Compare(a, b) == 0 <==> a == b
    ensures -1 <= Compare(a, b) <= 1
  {
    if a != [] && b != [] && a[0] == b[0] {
      CompareAntisymmetric(a[1..], b[1..]);
      assert a == [a[0]] + a[1..] && b == [b[0]] + b[1..];
    }
  }

  lemma {:induction false} CompareTransitive(a: seq<int>, b: seq<int>, c: seq<int>)
    requires Compare(a, b) <= 0 && Compare(b, c) <= 0
    ensures Compare(a, c) <= 0
    ensures Compare(a, b) < 0 || Compare(b, c) < 0 ==> Compare(a, c) < 0
  {
    if a != [] && b != [] && c != [] && a[0] == b[0] == c[0] {
      CompareTransitive(a[1..], b[1..], c[1..]);
    }
  }

  lemma {:induction false} PrefixIsSmaller(a: seq<int>, tail: seq<int>)
    requires tail != []
    ensures Compare(a, a + tail) == -1
  {
    if a == [] {
      assert a + tail == tail;
    } else {
      assert (a + tail)[1..] == a[1..] + tail;
      PrefixIsSmaller(a[1..], tail);
    }
  }

  /** The first position at which two tuples differ decides. */
  lemma {:induction false} FirstDifference(p: seq<int>, x: int, a: seq<int>, y: int, b: seq<int>)
    requires x < y
    ensures Compare(p + [x] + a, p + [y] + b) == -1 && Compare(p + [y] + b, p + [x] + a) == 1
  {
    var s, t := p + [x] + a, p + [y] + b;
    if p == [] {
      assert s[0] == x && t[0] == y;
    } else {
      assert s[0] == t[0] && s[1..] == p[1..] + [x] + a && t[1..] == p[1..] + [y] + b;
      FirstDifference(p[1..], x, a, y, b);
    }
  }

  // ----- The range test -----

  /** A bound that could be compared and that the version definitely violates. */
  predicate Below(version: string, start: string) {
    start != "" && Parse(version).Parsed? && Parse(start).Parsed? &&
      Compare(Parse(version).tuple, Parse(start).tuple) < 0
  }

  predicate Above(version: string, end: string) {
    end != "" && Parse(version).Parsed? && Parse(end).Parsed? && Compare(Parse(version).tuple, Parse(end).tuple) > 0
  }

  predicate Comparable(bound: string) {
    bound == "" || Parse(bound).Parsed?
  }

  const EXACT := "exact_version_match"
  const PRODUCT_ONLY := "product_only_match"

  /** A version is excluded exactly when some comparable bound is definitely violated; an included
      version is an exact match exactly when it and every bound given could be compared. */
  predicate Included(version: string, start: string, end: string) {
    !Below(version, start) && !Above(version, end)
  }

  function Confidence(version: string, start: string, end: string): string {
    if !Included(version, start, end) || (Parse(version).Parsed? && Comparable(start) && Comparable(end))
    then EXACT else PRODUCT_ONLY
  }

  lemma KnownScheme(version: string)
    ensures Parse(version).Parsed? ==> Parse(version).scheme != Unknown
  {
    hide Detect, TrimSpace, TrimPrefix, Split, SemverTuple, ParseDate, ParseSap, FirstThree, ParseLinuxKernel;
  }

  method InRange(version: string, start: string, end: string) returns (inRange: bool, confidence: string)
    ensures inRange == Included(version, start, end)
    ensures confidence == Confidence(version, start, end)
  {
    hide Parse, Compare;
    KnownScheme(version);
    var ver := Parse(version);
    if ver.Unparsed? {
      return true, PRODUCT_ONLY;
    }
    var boundsConfirmed := true;
    if start != "" {
      var bound := Parse(start);
      if bound.Unparsed? {
        boundsConfirmed := false;
      } else {
        var c := CompareTuples(ver.tuple, bound.tuple);
        if c < 0 {
          return false, EXACT;
        }
      }
    }
    if end != "" {
      var bound := Parse(end);
      if bound.Unparsed? {
        boundsConfirmed := false;
      } else {
        var c := CompareTuples(ver.tuple, bound.tuple);
        if c > 0 {
          return false, EXACT;
        }
      }
    }
    if boundsConfirmed && ver.scheme != Unknown {
      return true, EXACT;
    }
    return true, PRODUCT_ONLY;
  }

  /** A lower bound that admits at least as much: none, one that cannot be compared, or an earlier one. */
  predicate LooserStart(s: string, s': string) {
    s' == "" || Parse(s').Unparsed?
    || (s != "" && Parse(s).Parsed? && Compare(Parse(s').tuple, Parse(s).tuple) <= 0)
  }

  predicate LooserEnd(e: string, e': string) {
    e' == "" || Parse(e').Unparsed?
    || (e != "" && Parse(e).Parsed? && Compare(Parse(e').tuple, Parse(e).tuple) >= 0)
  }

  /** Widening a range never loses a version. */
  lemma WideningKeeps(version: string, start: string, end: string, start': string, end': string)
    requires LooserStart(start, start') && LooserEnd(end, end')
    requires Included(version, start, end)
    ensures Included(version, start', end')
  {
    hide Parse, Compare;
    if Below(version, start') {
      CompareAntisymmetric(Parse(version).tuple, Parse(start').tuple);
      CompareTransitive(Parse(version).tuple, Parse(start').tuple, Parse(start).tuple);
    }
    if Above(version, end') {
      CompareAntisymmetric(Parse(version).tuple, Parse(end').tuple);
      CompareAntisymmetric(Parse(end').tuple, Parse(end).tuple);
      CompareTransitive(Parse(end).tuple, Parse(end').tuple, Parse(version).tuple);
      CompareAntisymmetric(Parse(end).tuple, Parse(version).tuple);
    }
  }

  /** Among versions that parse, a range includes everything between two included versions. */
  lemma RangeConvex(low: string, mid: string, high: string, start: string, end: string)
    requires Parse(low).Parsed? && Parse(mid).Parsed? && Parse(high).Parsed?
    requires Compare(Parse(low).tuple, Parse(mid).tuple) <= 0 && Compare(Parse(mid).tuple, Parse(high).tuple) <= 0
    requires Included(low, start, end) && Included(high, start, end)
    ensures Included(mid, start, end)
  {
    hide Parse, Compare;
    if Below(mid, start) {
      CompareTransitive(Parse(low).tuple, Parse(mid).tuple, Parse(start).tuple);
    }
    if Above(mid, end) {
      CompareAntisymmetric(Parse(mid).tuple, Parse(end).tuple);
      CompareTransitive(Parse(end).tuple, Parse(mid).tuple, Parse(high).tuple);
      CompareAntisymmetric(Parse(end).tuple, Parse(high).tuple);
    }
  }
}
