/** Printing a version tuple and parsing it back; dates as versions. */
module VersionText {
  import opened Text
  import opened Numbers
  import opened Calendar
  import opened Version

  function Numerals(t: seq<nat>): (parts: seq<string>)
    ensures |parts| == |t| && forall i :: 0 <= i < |t| ==> parts[i] == Print(t[i])
  {
    seq(|t|, i requires 0 <= i < |t| => Print(t[i]))
  }

  /** The numbers separated by dots. */
  function PrintTuple(t: seq<nat>): string
    requires |t| > 0
  {
    Join(Numerals(t), '.')
  }

  predicate NumeralChar(c: char) {
    IsDigit(c) || c == '.'
  }

  /** 10.0.N with a build number of four or five digits. */
  predicate WindowsTuple(t: seq<nat>) {
    |t| == 3 && t[0] == 10 && t[1] == 0 && 1000 <= t[2] <= 99999
  }

  lemma {:induction false} PrintedChars(t: seq<nat>)
    requires |t| > 0
    ensures All(PrintTuple(t), NumeralChar)
    ensures PrintTuple(t) != [] && IsDigit(PrintTuple(t)[0]) && IsDigit(PrintTuple(t)[|PrintTuple(t)| - 1])
  {
    if |t| > 1 {
      PrintedChars(t[1..]);
      PrintedCons(t);
    }
  }

  lemma PrintedCons(t: seq<nat>)
    requires |t| > 1
    ensures PrintTuple(t) == Print(t[0]) + "." + PrintTuple(t[1..])
  {
    assert Numerals(t)[1..] == Numerals(t[1..]);
  }

  lemma {:induction false} LeadOf(digits: string, rest: string)
    requires AllDigits(digits) && (rest != [] ==> !IsDigit(rest[0]))
    ensures Lead(digits + rest) == |digits|
  {
    if digits == [] {
      assert digits + rest == rest;
    } else {
      assert (digits + rest)[1..] == digits[1..] + rest;
      LeadOf(digits[1..], rest);
    }
  }

  lemma AfterLead(digits: string, rest: string)
    requires digits != "" && AllDigits(digits)
    ensures AfterNumberDot(digits + ("." + rest)) == Some(rest)
  {
    LeadOf(digits, "." + rest);
    assert (digits + ("." + rest))[|digits| + 1..] == rest;
  }

  lemma PrintedStartTail(t: seq<nat>, tail: string)
    requires |t| > 1
    ensures AfterNumberDot(PrintTuple(t) + tail) == Some(PrintTuple(t[1..]) + tail)
  {
    hide AfterNumberDot, PrintTuple, Print;
    var first, after := Print(t[0]), PrintTuple(t[1..]) + tail;
    PrintedCons(t);
    assert PrintTuple(t) + tail == first + ("." + after);
    AfterLead(first, after);
  }

  lemma PrintedStart(t: seq<nat>)
    requires |t| > 1
    ensures AfterNumberDot(PrintTuple(t)) == Some(PrintTuple(t[1..]))
  {
    hide AfterNumberDot, PrintTuple;
    PrintedStartTail(t, "");
    assert PrintTuple(t) + "" == PrintTuple(t) && PrintTuple(t[1..]) + "" == PrintTuple(t[1..]);
  }

  lemma PrintedLead(t: seq<nat>)
    requires |t| > 0
    ensures Lead(PrintTuple(t)) > 0
  {
    PrintedChars(t);
  }

  lemma {:induction false} CountDots(s: string)
    requires NoneOf(s, '-')
    ensures Count(s, '-') == 0
  {
    if s != [] {
      assert s[0] != '-';
      CountDots(s[1..]);
    }
  }

  lemma {:induction false} CountSome(s: string, i: nat, c: char)
    requires i < |s| && s[i] == c
    ensures Count(s, c) >= 1
  {
    if i > 0 { CountSome(s[1..], i - 1, c); }
  }

  lemma SplitPrinted(t: seq<nat>)
    requires |t| > 0
    ensures Split(PrintTuple(t), '.') == Numerals(t)
  {
    forall i | 0 <= i < |t| ensures NoneOf(Numerals(t)[i], '.') {
      assert AllDigits(Print(t[i]));
    }
    SplitJoin(Numerals(t), '.');
  }

  lemma NumeralReads(n: nat)
    requires n < INT_LIMIT
    ensures Atoi(TrimSpace(Print(n))) == Ok(n)
  {
    var s := Print(n);
    assert IsDigit(s[0]) && IsDigit(s[|s| - 1]);
    TrimKeeps(s, IsSpace);
    AtoiPrint(n);
  }

  lemma NumeralsFront(t: seq<nat>)
    requires t != []
    ensures Numerals(t)[..|t| - 1] == Numerals(t[..|t| - 1])
  {
    hide Print;
  }

  lemma {:induction false} SemverOfNumerals(t: seq<nat>)
    requires forall i :: 0 <= i < |t| ==> t[i] < INT_LIMIT
    ensures SemverTuple(Numerals(t)) == Some(t)
  {
    hide Atoi, Print, TrimSpace;
    if t != [] {
      var n := |t| - 1;
      NumeralsFront(t);
      SemverOfNumerals(t[..n]);
      NumeralReads(t[n]);
      assert t == t[..n] + [t[n]];
    }
  }

  lemma FourOrFiveDigits(n: nat)
    ensures 1000 <= n <= 99999 <==> |Print(n)| == 4 || |Print(n)| == 5
  {
    PrintLength(n);
    assert Pow10(3) == 1000 && Pow10(4) == 10000 && Pow10(5) == 100000;
    PowGrows(|Print(n)|);
  }

  lemma {:induction false} PowGrows(k: nat)
    ensures k >= 5 ==> Pow10(k) >= 100000
    ensures k <= 3 ==> Pow10(k) <= 1000
  {
    assert Pow10(2) == 100 && Pow10(1) == 10 && Pow10(0) == 1;
    if k > 5 { PowGrows(k - 1); }
  }

  lemma WindowsOnly(t: seq<nat>)
    requires |t| > 1
    ensures WindowsLike(PrintTuple(t)) ==> WindowsTuple(t)
  {
    var v := PrintTuple(t);
    SplitPrinted(t);
    assert Print(10) == "10" && Print(0) == "0";
    hide PrintTuple, Print, Split;
    if WindowsLike(v) {
      var d := v[5..];
      assert v == "10" + "." + ("0" + "." + d);
      SplitFirst("10", "0" + "." + d, '.');
      SplitFirst("0", d, '.');
      SplitNone(d, '.');
      assert Numerals(t) == ["10", "0", d];
      assert Print(t[0]) == "10" && Print(t[1]) == "0" && Print(t[2]) == d;
      FourOrFiveDigits(t[2]);
    }
  }

  lemma WindowsPrinted(t: seq<nat>)
    requires |t| > 1
    ensures WindowsLike(PrintTuple(t)) <==> WindowsTuple(t)
  {
    WindowsOnly(t);
    if WindowsTuple(t) {
      PrintedCons(t);
      PrintedCons(t[1..]);
      assert t[1..][1..] == [t[2]];
      var v := PrintTuple(t);
      assert v == "10" + "." + ("0" + "." + Print(t[2]));
      assert v[5..] == Print(t[2]);
      FourOrFiveDigits(t[2]);
    }
  }

  /** What Detect makes of a printed tuple. */
  lemma DetectPrinted(t: seq<nat>)
    requires |t| > 1
    ensures TrimSpace(PrintTuple(t)) == PrintTuple(t) && TrimPrefix(PrintTuple(t), "v") == PrintTuple(t)
    ensures Detect(PrintTuple(t)) == if WindowsTuple(t) then Windows else Semver
  {
    var v := PrintTuple(t);
    PrintedChars(t);
    TrimKeeps(v, IsSpace);
    PrintedHasNoLetters(v);
    PrintedStart(t);
    PrintedLead(t[1..]);
    WindowsPrinted(t);
    CountDots(v);
    CountSome(v, Lead(v), '.');
    hide Lead, PrintTuple, WindowsLike, DateLike, Contains, ThreeNumbers, ToUpper, WindowsTuple;
  }

  lemma PrintedHasNoLetters(v: string)
    requires All(v, NumeralChar)
    ensures !DateLike(v) && NoneOf(v, '-') && !("v" <= v)
    ensures !Contains(ToUpper(v), "SPS") && !Contains(v, "-generic") && !Contains(v, "-aws")
  {
    forall i | 0 <= i < |v| ensures v[i] != '-' && v[i] != 'v' && ToUpper(v)[i] != 'S' {
      assert NumeralChar(v[i]);
    }
    OtherStart(v, 'v');
    NotContained(ToUpper(v), "SPS");
    NotContained(v, "-generic");
    NotContained(v, "-aws");
  }

  lemma OtherStart(s: string, c: char)
    ensures [c] <= s ==> s[0] == c
  {
  }

  lemma OccursFirst(s: string, part: string, i: int)
    requires part != ""
    ensures OccursAt(s, part, i) ==> s[i] == part[0]
  {
    assert OccursAt(s, part, i) ==> s[i..i + |part|][0] == s[i];
  }

  lemma NotContained(s: string, part: string)
    requires part != "" && NoneOf(s, part[0])
    ensures !Contains(s, part)
  {
    forall i ensures !OccursAt(s, part, i) {
      OccursFirst(s, part, i);
    }
  }

  /** Printing a tuple of two or more numbers that fit in an int and parsing it gives it back. */
  lemma ParsePrinted(t: seq<nat>)
    requires FitsInt(t)
    ensures Parse(PrintTuple(t)) == Parsed(if WindowsTuple(t) then Windows else Semver, t)
  {
    hide Detect, PrintTuple, Atoi;
    DetectPrinted(t);
    SplitPrinted(t);
    SemverOfNumerals(t);
    if WindowsTuple(t) {
      AtoiPrint(t[0]);
      AtoiPrint(t[1]);
      AtoiPrint(t[2]);
      assert t == [t[0], t[1], t[2]];
    }
  }

  predicate FitsInt(t: seq<nat>) {
    |t| > 1 && forall i :: 0 <= i < |t| ==> t[i] <= 9_223_372_036_854_775_807
  }

  /** A printed tuple is a non-empty version string that parses to the tuple. */
  lemma PrintedIsVersion(t: seq<nat>)
    requires FitsInt(t)
    ensures PrintTuple(t) != "" && Parse(PrintTuple(t)).Parsed? && Parse(PrintTuple(t)).tuple == t
  {
    PrintedChars(t);
    ParsePrinted(t);
  }

  /** On three printed tuples the range test is exactly start <= v <= end in lexicographic order,
      and the label always says an exact match. */
  lemma RangeOfPrinted(v: seq<nat>, start: seq<nat>, end: seq<nat>)
    requires FitsInt(v) && FitsInt(start) && FitsInt(end)
    ensures Included(PrintTuple(v), PrintTuple(start), PrintTuple(end))
       <==> Compare(start, v) <= 0 && Compare(v, end) <= 0
    ensures Confidence(PrintTuple(v), PrintTuple(start), PrintTuple(end)) == EXACT
  {
    hide PrintTuple, Parse, Compare, FitsInt;
    PrintedIsVersion(v);
    PrintedIsVersion(start);
    PrintedIsVersion(end);
    CompareAntisymmetric(v, start);
  }

  // ----- Kernel packages -----

  /** A kernel package version: three numbers, a hyphen, and what the distribution adds. */
  function Kernel(t: seq<nat>, rest: string): string
    requires |t| > 0
  {
    PrintTuple(t) + "-" + rest
  }

  lemma KernelNumbers(t: seq<nat>, tail: string)
    requires |t| == 3
    ensures ThreeNumbers(PrintTuple(t) + tail)
  {
    PrintedStartTail(t, tail);
    PrintedStartTail(t[1..], tail);
    PrintedChars(t[2..]);
    assert t[1..][1..] == t[2..];
  }

  lemma KernelLength(t: seq<nat>)
    requires |t| == 3
    ensures |PrintTuple(t)| >= 5 && exists i :: 0 <= i < |PrintTuple(t)| - 1 && PrintTuple(t)[i] == '.'
  {
    PrintedCons(t);
    PrintedCons(t[1..]);
    PrintedChars(t[2..]);
    assert t[1..][1..] == t[2..];
    assert PrintTuple(t)[|Print(t[0])|] == '.';
  }

  lemma DotIsNoDate(v: string, i: nat)
    requires i < |v| && v[i] == '.'
    ensures !DateLike(v)
  {
    if DateLike(v) {
      DateChars(v, i);
    }
  }

  lemma DateChars(v: string, i: nat)
    requires DateLike(v) && i < |v|
    ensures v[i] == '-' || IsDigit(v[i])
  {
    if i < 4 {
      assert v[i] == v[..4][i];
    } else if 5 <= i < 7 {
      assert v[i] == v[5..7][i - 5];
    } else if 8 <= i {
      assert v[i] == v[8..10][i - 8];
    }
  }

  lemma KernelIsNoOther(t: seq<nat>, rest: string)
    requires |t| == 3
    ensures !DateLike(Kernel(t, rest)) && !WindowsLike(Kernel(t, rest))
  {
    KernelLength(t);
    var v, n := Kernel(t, rest), |PrintTuple(t)|;
    var i :| 0 <= i < n - 1 && PrintTuple(t)[i] == '.';
    assert v[i] == '.';
    DotIsNoDate(v, i);
    assert v[5..][n - 5] == '-';
  }

  /** What Detect asks of a kernel beyond its three numbers. */
  predicate KernelText(t: seq<nat>, rest: string)
    requires |t| > 0
  {
    && (rest != "" ==> !IsSpace(rest[|rest| - 1]))
    && !Contains(ToUpper(Kernel(t, rest)), "SPS")
    && KernelMark(Kernel(t, rest))
  }

  predicate KernelMark(v: string) {
    Contains(v, "-generic") || Contains(v, "-aws") || Count(v, '-') >= 2
  }

  lemma DetectKernel(v: string)
    requires TrimSpace(v) == v && TrimPrefix(v, "v") == v
    requires !DateLike(v) && !WindowsLike(v) && ThreeNumbers(v)
    requires !Contains(ToUpper(v), "SPS") && KernelMark(v)
    ensures Detect(v) == LinuxKernel
  {
    hide Contains, ToUpper, Count, DateLike, WindowsLike, ThreeNumbers, TrimSpace, TrimPrefix;
  }

  /** A hyphenated version that Detect takes for a kernel parses to its three numbers: what the
      distribution adds behind the first hyphen is ignored. */
  lemma ParseKernel(t: seq<nat>, rest: string)
    requires FitsInt(t) && |t| == 3 && KernelText(t, rest)
    ensures Parse(Kernel(t, rest)) == Parsed(LinuxKernel, t)
  {
    hide PrintTuple, Contains, ToUpper, Count, DateLike, WindowsLike, ThreeNumbers, TrimSpace, TrimPrefix,
         ParseLinuxKernel, KernelMark, FitsInt, Detect, ParseSap, ParseDate, FirstThree, SemverTuple, Split;
    KernelEnds(t, rest);
    KernelIsNoOther(t, rest);
    KernelNumbers(t, "-" + rest);
    assert Kernel(t, rest) == PrintTuple(t) + ("-" + rest);
    KernelTuple(t, rest);
    DetectKernel(Kernel(t, rest));
  }

  /** Ranges of kernels compare the three numbers only, and still label the answer exact: two builds
      of one kernel are not told apart. */
  lemma RangeOfKernels(v: seq<nat>, start: seq<nat>, end: seq<nat>, rest: string, rest1: string, rest2: string)
    requires FitsInt(v) && FitsInt(start) && FitsInt(end) && |v| == |start| == |end| == 3
    requires KernelText(v, rest) && KernelText(start, rest1) && KernelText(end, rest2)
    ensures Included(Kernel(v, rest), Kernel(start, rest1), Kernel(end, rest2))
       <==> Compare(start, v) <= 0 && Compare(v, end) <= 0
    ensures Confidence(Kernel(v, rest), Kernel(start, rest1), Kernel(end, rest2)) == EXACT
  {
    KernelNotEmpty(start, rest1);
    KernelNotEmpty(end, rest2);
    hide Kernel, KernelText, Parse, Compare, FitsInt;
    ParseKernel(v, rest);
    ParseKernel(start, rest1);
    ParseKernel(end, rest2);
    CompareAntisymmetric(v, start);
  }

  lemma KernelNotEmpty(t: seq<nat>, rest: string)
    requires |t| > 0
    ensures Kernel(t, rest) != ""
  {
  }

  lemma KernelEnds(t: seq<nat>, rest: string)
    requires |t| > 0 && (rest != "" ==> !IsSpace(rest[|rest| - 1]))
    ensures TrimSpace(Kernel(t, rest)) == Kernel(t, rest) && TrimPrefix(Kernel(t, rest), "v") == Kernel(t, rest)
  {
    PrintedChars(t);
    var v := Kernel(t, rest);
    assert v[0] == PrintTuple(t)[0];
    assert v[|v| - 1] == if rest == "" then '-' else rest[|rest| - 1];
    TrimKeeps(v, IsSpace);
    OtherStart(v, 'v');
  }

  lemma KernelTuple(t: seq<nat>, rest: string)
    requires FitsInt(t) && |t| == 3
    ensures ParseLinuxKernel(Kernel(t, rest)) == Some(t)
  {
    hide Atoi, PrintTuple, Split;
    PrintedChars(t);
    PrintedHasNoLetters(PrintTuple(t));
    SplitFirst(PrintTuple(t), rest, '-');
    SplitPrinted(t);
    AtoiPrint(t[0]);
    AtoiPrint(t[1]);
    AtoiPrint(t[2]);
    assert t == [t[0], t[1], t[2]];
  }

  // ----- SAP support package stacks -----

  /** A release and a support package stack, such as 7.5 SPS22. */
  function SapText(major: nat, minor: nat, sps: nat): string {
    PrintTuple([major, minor]) + (" SPS" + Print(sps))
  }

  lemma {:induction false} ServicePackSkips(front: string, rest: string)
    requires NoneOf(front, 'S')
    ensures ServicePack(front + rest) == ServicePack(rest)
  {
    if front == "" {
      assert front + rest == rest;
    } else {
      var s := front + rest;
      assert s[0] == front[0] && s[1..] == front[1..] + rest;
      OtherWord(s, "SPS");
      ServicePackSkips(front[1..], rest);
    }
  }

  lemma OtherWord(s: string, word: string)
    requires word != "" && s != "" && s[0] != word[0]
    ensures !(word <= s)
  {
  }

  lemma ServicePackOf(front: string, n: nat)
    requires NoneOf(front, 'S')
    ensures ServicePack(front + ("SPS" + Print(n))) == Print(n)
  {
    hide Print;
    ServicePackSkips(front, "SPS" + Print(n));
    var digits := Print(n);
    var s := "SPS" + digits;
    LeadOf(digits, "");
    assert s[..3] == "SPS" && s[3..] == digits && digits + "" == digits && digits[..|digits|] == digits;
  }

  lemma LeadingNumber(n: nat, tail: string)
    requires tail != "" ==> !IsDigit(tail[0])
    ensures Lead(Print(n) + tail) == |Print(n)| && (Print(n) + tail)[..|Print(n)|] == Print(n)
  {
    hide Print;
    LeadOf(Print(n), tail);
  }

  lemma BaseHere(s: string, rest: string)
    requires s != "" && AfterNumberDot(s) == Some(rest) && Lead(rest) > 0
    ensures BaseVersion(s) == Some((s[..Lead(s)], rest[..Lead(rest)]))
  {
    hide Lead, AfterNumberDot;
  }

  lemma PairText(major: nat, minor: nat)
    ensures PrintTuple([major, minor]) == Print(major) + "." + Print(minor)
  {
    hide Print;
    assert [major, minor][1..] == [minor];
    PrintedCons([major, minor]);
  }

  lemma PrintedPair(major: nat, minor: nat, tail: string)
    ensures PrintTuple([major, minor]) + tail == Print(major) + ("." + (Print(minor) + tail))
    ensures AfterNumberDot(PrintTuple([major, minor]) + tail) == Some(Print(minor) + tail)
  {
    hide Print, PrintTuple, AfterNumberDot;
    PairText(major, minor);
    var a, b := Print(major), Print(minor);
    assert a + "." + b + tail == a + ("." + (b + tail));
    AfterLead(a, b + tail);
  }

  lemma BaseOf(major: nat, minor: nat, tail: string)
    requires tail != "" ==> !IsDigit(tail[0])
    ensures BaseVersion(PrintTuple([major, minor]) + tail) == Some((Print(major), Print(minor)))
  {
    hide Print, Lead, AfterNumberDot, PrintTuple, BaseVersion;
    PrintedPair(major, minor, tail);
    LeadingNumber(major, "." + (Print(minor) + tail));
    LeadingNumber(minor, tail);
    BaseHere(PrintTuple([major, minor]) + tail, Print(minor) + tail);
  }

  lemma SapChars(major: nat, minor: nat, sps: nat)
    ensures ToUpper(SapText(major, minor, sps)) == SapText(major, minor, sps)
    ensures SapText(major, minor, sps) == PrintTuple([major, minor]) + " " + ("SPS" + Print(sps))
    ensures NoneOf(PrintTuple([major, minor]) + " ", 'S')
  {
    hide PrintTuple, Print;
    PrintedChars([major, minor]);
    var t, digits, s := PrintTuple([major, minor]), Print(sps), SapText(major, minor, sps);
    forall i | 0 <= i < |t| ensures UpperChar(t[i]) == t[i] && t[i] != 'S' { assert NumeralChar(t[i]); }
    forall i | 0 <= i < |digits| ensures UpperChar(digits[i]) == digits[i] { assert IsDigit(digits[i]); }
    assert ToUpper(s) == ToUpper(t) + (ToUpper(" SPS") + ToUpper(digits));
    assert ToUpper(t) == t && ToUpper(digits) == digits && ToUpper(" SPS") == " SPS";
  }

  lemma SapDetected(major: nat, minor: nat, sps: nat)
    ensures TrimSpace(SapText(major, minor, sps)) == SapText(major, minor, sps)
    ensures Detect(SapText(major, minor, sps)) == Sap
  {
    hide Lead, Print, PrintTuple, DateLike, WindowsLike, ThreeNumbers;
    PrintedChars([major, minor]);
    var t, v := PrintTuple([major, minor]), SapText(major, minor, sps);
    assert v[0] == t[0] && v[|t|] == ' ' && IsDigit(v[|v| - 1]);
    TrimKeeps(v, IsSpace);
    OtherStart(v, 'v');
    SpaceIsNoDate(v, |t|);
    SapChars(major, minor, sps);
    assert OccursAt(v, "SPS", |t| + 1);
  }

  lemma SpaceIsNoDate(v: string, i: nat)
    requires i < |v| && v[i] == ' '
    ensures !DateLike(v)
  {
    if DateLike(v) {
      DateChars(v, i);
    }
  }

  /** A SAP release with its support package stack parses to the three numbers, so stacks of one
      release compare by number. */
  lemma ParseSapText(major: nat, minor: nat, sps: nat)
    requires major < INT_LIMIT && minor < INT_LIMIT && sps < INT_LIMIT
    ensures Parse(SapText(major, minor, sps)) == Parsed(Sap, [major, minor, sps])
  {
    hide Detect, TrimSpace, Print, PrintTuple, Atoi, ServicePack, BaseVersion, ToUpper;
    SapDetected(major, minor, sps);
    SapChars(major, minor, sps);
    ServicePackOf(PrintTuple([major, minor]) + " ", sps);
    BaseOf(major, minor, " SPS" + Print(sps));
    AtoiPrint(major);
    AtoiPrint(minor);
    AtoiPrint(sps);
  }

  // ----- Dates -----

  /** A calendar date written YYYY-MM-DD. */
  predicate IsDate(v: string) {
    DateLike(v) && Valid(Fields(v))
  }

  lemma ParseOfDate(v: string)
    requires IsDate(v)
    ensures Parse(v) == Parsed(DateScheme, [Days(Fields(v))])
  {
    assert IsDigit(v[..4][0]) && IsDigit(v[8..10][1]);
    assert v[0] == v[..4][0] && v[9] == v[8..10][1];
    TrimKeeps(v, IsSpace);
  }

  /** Day numbers order dates as the date strings themselves are ordered, also before 1970. */
  lemma DateVersionOrder(a: string, b: string)
    requires IsDate(a) && IsDate(b)
    ensures Parse(a).Parsed? && Parse(b).Parsed?
    ensures Compare(Parse(a).tuple, Parse(b).tuple) < 0 <==> Less(a, b)
    ensures Compare(Parse(a).tuple, Parse(b).tuple) > 0 <==> Less(b, a)
  {
    ParseOfDate(a);
    ParseOfDate(b);
    DaysOrder(Fields(a), Fields(b));
    DaysOrder(Fields(b), Fields(a));
    TextOrder(a, b);
    TextOrder(b, a);
  }

  /** Date ranges are calendar ranges. */
  lemma RangeOfDates(v: string, start: string, end: string)
    requires IsDate(v) && IsDate(start) && IsDate(end)
    ensures Included(v, start, end) <==> !Less(v, start) && !Less(end, v)
    ensures Confidence(v, start, end) == EXACT
  {
    hide Parse, Compare;
    DateVersionOrder(v, start);
    DateVersionOrder(v, end);
  }
}
