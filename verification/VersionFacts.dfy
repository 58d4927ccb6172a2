/** Which texts are read as which versions, in both directions, and what unreadable texts do to a range. */
module VersionFacts {
  import opened Text
  import opened Numbers
  import opened Calendar
  import opened Version
  import opened VersionText

  // ----- Three numbers, a hyphen and a suffix -----

  ghost predicate Inside(part: string, s: string) {
    exists before, after :: s == before + part + after
  }

  /** The suffix of a kernel package: a second hyphen, or the name of a distribution right away. */
  predicate KernelSuffix(rest: string) {
    '-' in rest || "generic" <= rest || "aws" <= rest
  }

  lemma {:induction false} CountSum(a: string, b: string, c: char)
    ensures Count(a + b, c) == Count(a, c) + Count(b, c)
  {
    if a == "" {
      assert a + b == b;
    } else {
      assert (a + b)[1..] == a[1..] + b;
      CountSum(a[1..], b, c);
    }
  }

  lemma {:induction false} CountIsThere(s: string, c: char)
    ensures Count(s, c) >= 1 <==> c in s
  {
    if s != "" {
      CountIsThere(s[1..], c);
      assert s == [s[0]] + s[1..];
    }
  }

  lemma HyphensOf(t: seq<nat>, rest: string)
    requires |t| > 0
    ensures Count(Kernel(t, rest), '-') >= 2 <==> '-' in rest
  {
    var v := PrintTuple(t);
    hide PrintTuple;
    PrintedChars(t);
    PrintedHasNoLetters(v);
    CountDots(v);
    CountSum(v + "-", rest, '-');
    CountSum(v, "-", '-');
    assert Count("-", '-') == 1 by { assert "-"[1..] == ""; }
    CountIsThere(rest, '-');
  }

  lemma OnlyHyphen(v: string, rest: string, i: nat)
    requires NoneOf(v, '-') && '-' !in rest && i < |v + "-" + rest|
    ensures (v + "-" + rest)[i] == '-' ==> i == |v|
  {
    var s := v + "-" + rest;
    assert i > |v| ==> s[i] == rest[i - |v| - 1] && s[i] in rest;
  }

  /** A word that starts with a hyphen can only start at the one hyphen there is. */
  lemma HyphenWord(v: string, rest: string, word: string)
    requires NoneOf(v, '-') && '-' !in rest && word != "" && word[0] == '-'
    ensures Contains(v + "-" + rest, word) <==> word[1..] <= rest
  {
    var s := v + "-" + rest;
    if i :| 0 <= i <= |s| && OccursAt(s, word, i) {
      OccursFirst(s, word, i);
      OnlyHyphen(v, rest, i);
      assert s[i..i + |word|][1..] == rest[..|word| - 1];
    }
    if word[1..] <= rest {
      assert s[|v|..|v| + |word|] == ['-'] + rest[..|word| - 1] == word;
      assert OccursAt(s, word, |v|);
    }
  }

  lemma MarkIsSuffix(t: seq<nat>, rest: string)
    requires |t| > 0
    ensures KernelMark(Kernel(t, rest)) <==> KernelSuffix(rest)
  {
    hide PrintTuple, Contains;
    HyphensOf(t, rest);
    if '-' !in rest {
      PrintedChars(t);
      PrintedHasNoLetters(PrintTuple(t));
      HyphenWord(PrintTuple(t), rest, "-generic");
      HyphenWord(PrintTuple(t), rest, "-aws");
      assert "-generic"[1..] == "generic" && "-aws"[1..] == "aws";
    }
  }

  lemma FrontAt(front: string, rest: string, i: nat)
    requires i < |front + rest|
    ensures i < |front| ==> (front + rest)[i] == front[i]
  {
  }

  lemma StartsBehind(front: string, rest: string, word: string, i: int)
    requires word != "" && NoneOf(front, word[0]) && OccursAt(front + rest, word, i)
    ensures i >= |front| && OccursAt(rest, word, i - |front|)
  {
    OccursFirst(front + rest, word, i);
    FrontAt(front, rest, i);
    assert (front + rest)[i..i + |word|] == rest[i - |front|..i - |front| + |word|];
  }

  lemma Middle(before: string, word: string, after: string)
    ensures OccursAt(before + word + after, word, |before|)
  {
  }

  lemma InsideIsAt(word: string, s: string)
    ensures Inside(word, s) <==> exists k :: OccursAt(s, word, k)
  {
    if before, after :| s == before + word + after {
      Middle(before, word, after);
    }
    if k :| OccursAt(s, word, k) {
      assert s == s[..k] + word + s[k + |word|..];
    }
  }

  lemma FoundBehind(front: string, rest: string, word: string, k: int)
    requires OccursAt(rest, word, k)
    ensures OccursAt(front + rest, word, |front| + k)
  {
    assert (front + rest)[|front| + k..|front| + k + |word|] == rest[k..k + |word|];
  }

  /** A word whose first letter is not in front can only stand behind. */
  lemma WordBehind(front: string, rest: string, word: string)
    requires word != "" && NoneOf(front, word[0])
    ensures Contains(front + rest, word) <==> Inside(word, rest)
  {
    hide Inside, OccursAt;
    InsideIsAt(word, rest);
    if i :| 0 <= i <= |front + rest| && OccursAt(front + rest, word, i) {
      StartsBehind(front, rest, word, i);
    }
    if k :| OccursAt(rest, word, k) {
      FoundBehind(front, rest, word, k);
      OccursRange(front + rest, word, |front| + k);
    }
  }

  lemma OccursRange(s: string, word: string, i: int)
    requires OccursAt(s, word, i)
    ensures 0 <= i <= |s|
  {
  }

  lemma UpperSum(a: string, b: string)
    ensures ToUpper(a + b) == ToUpper(a) + ToUpper(b)
  {
  }

  lemma NoLetterS(t: seq<nat>)
    requires |t| > 0
    ensures NoneOf(ToUpper(PrintTuple(t) + "-"), 'S')
  {
    PrintedChars(t);
    var v := PrintTuple(t);
    hide PrintTuple;
    forall i | 0 <= i < |v| + 1 ensures ToUpper(v + "-")[i] != 'S' {
      if i < |v| { assert NumeralChar(v[i]); }
    }
  }

  /** Numerals, dots and the hyphen hold no letters, so SPS can only stand in the suffix. */
  lemma SpsInSuffix(t: seq<nat>, rest: string)
    requires |t| > 0
    ensures Contains(ToUpper(Kernel(t, rest)), "SPS") <==> Inside("SPS", ToUpper(rest))
  {
    hide PrintTuple, ToUpper, Contains, Inside;
    UpperSum(PrintTuple(t) + "-", rest);
    NoLetterS(t);
    WordBehind(ToUpper(PrintTuple(t) + "-"), ToUpper(rest), "SPS");
  }

  lemma DetectSps(v: string)
    requires TrimSpace(v) == v && TrimPrefix(v, "v") == v && !DateLike(v) && Contains(ToUpper(v), "SPS")
    ensures Detect(v) == Sap
  {
    hide Contains, ToUpper, Count, DateLike, WindowsLike, ThreeNumbers, TrimSpace, TrimPrefix;
  }

  lemma DetectSemver(v: string)
    requires TrimSpace(v) == v && TrimPrefix(v, "v") == v && !DateLike(v) && !WindowsLike(v)
    requires ThreeNumbers(v) && !Contains(ToUpper(v), "SPS") && !KernelMark(v) && Count(v, '.') >= 1
    ensures Detect(v) == Semver
  {
    StartsWithTwo(v);
    hide Contains, ToUpper, Count, DateLike, WindowsLike, ThreeNumbers, TwoNumbers, TrimSpace, TrimPrefix;
  }

  lemma StartsWithTwo(v: string)
    requires ThreeNumbers(v)
    ensures TwoNumbers(v)
  {
  }

  // ----- Why an unmarked one can not be read -----

  lemma {:induction false} FirstPiece(a: string, b: string, sep: char)
    requires NoneOf(a, sep)
    ensures Split(a + b, sep)[0] == a + Split(b, sep)[0]
  {
    if a == "" {
      assert a + b == b;
    } else {
      assert (a + b)[0] != sep && (a + b)[1..] == a[1..] + b;
      FirstPiece(a[1..], b, sep);
      assert a == [a[0]] + a[1..];
    }
  }

  /** A numeral with a hyphen behind it is no number, whatever follows. */
  lemma NotANumber(n: nat, x: string)
    ensures !Atoi(TrimSpace(Print(n) + "-" + x)).Ok?
  {
    var d := Print(n);
    var s := d + "-";
    hide Print;
    assert IsDigit(d[0]);
    assert (s + x)[0] == d[0];
    TrimRightTail(s, x, IsSpace);
    assert TrimLeft(s + x, IsSpace) == s + x;
    var y := TrimRight(x, IsSpace);
    assert TrimSpace(s + x) == s + y;
    assert (s + y)[|d|] == '-' && (s + y)[0] == d[0];
  }

  lemma ThirdPiece(t: seq<nat>, rest: string)
    requires |t| == 3
    ensures var parts := Split(Kernel(t, rest), '.');
      |parts| >= 3 && parts[2] == Print(t[2]) + "-" + Split(rest, '.')[0]
  {
    hide Print, Split;
    var a, b, c := Print(t[0]), Print(t[1]), Print(t[2]) + "-";
    ThreePrinted(t);
    assert Kernel(t, rest) == a + "." + (b + "." + (c + rest));
    SplitFirst(a, b + "." + (c + rest), '.');
    SplitFirst(b, c + rest, '.');
    FirstPiece(c, rest, '.');
  }

  lemma ThreePrinted(t: seq<nat>)
    requires |t| == 3
    ensures PrintTuple(t) == Print(t[0]) + "." + (Print(t[1]) + "." + Print(t[2]))
  {
    hide Print;
    PrintedCons(t);
    PrintedCons(t[1..]);
    assert t[1..][1..] == [t[2]];
  }

  lemma BadThird(parts: seq<string>)
    requires |parts| >= 3 && !Atoi(TrimSpace(parts[2])).Ok?
    ensures SemverTuple(parts).None?
  {
    hide Atoi, TrimSpace;
    assert parts[..3][2] == parts[2];
    SemverFails(parts, 3);
  }

  lemma NoSemver(t: seq<nat>, rest: string)
    requires |t| == 3
    ensures SemverTuple(Split(Kernel(t, rest), '.')).None?
  {
    hide Atoi, TrimSpace, Kernel, SemverTuple;
    ThirdPiece(t, rest);
    NotANumber(t[2], Split(rest, '.')[0]);
    BadThird(Split(Kernel(t, rest), '.'));
  }

  /** Three numbers, a hyphen and any suffix that does not end in white space. With SPS in the suffix it is
      taken for a SAP version; else with a second hyphen, or with generic or aws right behind the first,
      it is a kernel and its three numbers are read; else it can not be read at all. */
  lemma Hyphenated(t: seq<nat>, rest: string)
    requires FitsInt(t) && |t| == 3 && (rest != "" ==> !IsSpace(rest[|rest| - 1]))
    ensures Inside("SPS", ToUpper(rest)) ==> Detect(Kernel(t, rest)) == Sap
    ensures !Inside("SPS", ToUpper(rest)) ==>
      Parse(Kernel(t, rest)) == if KernelSuffix(rest) then Parsed(LinuxKernel, t) else Unparsed
  {
    hide PrintTuple, Contains, ToUpper, Count, DateLike, WindowsLike, ThreeNumbers, TrimSpace, TrimPrefix, KernelMark,
         FitsInt, Detect, SemverTuple, Split, Kernel, Inside, KernelSuffix, ParseSap, ParseDate, FirstThree,
         ParseLinuxKernel;
    MarkIsSuffix(t, rest);
    SpsInSuffix(t, rest);
    KernelEnds(t, rest);
    KernelIsNoOther(t, rest);
    if Contains(ToUpper(Kernel(t, rest)), "SPS") {
      DetectSps(Kernel(t, rest));
    } else if KernelMark(Kernel(t, rest)) {
      MarkedIsKernel(t, rest);
    } else {
      UnmarkedIsSemver(t, rest);
      NoSemver(t, rest);
    }
  }

  lemma MarkedIsKernel(t: seq<nat>, rest: string)
    requires FitsInt(t) && |t| == 3 && (rest != "" ==> !IsSpace(rest[|rest| - 1]))
    requires !Contains(ToUpper(Kernel(t, rest)), "SPS") && KernelMark(Kernel(t, rest))
    ensures Parse(Kernel(t, rest)) == Parsed(LinuxKernel, t)
  {
    hide Contains, Parse, Kernel, KernelMark, FitsInt;
    ParseKernel(t, rest);
  }

  lemma UnmarkedIsSemver(t: seq<nat>, rest: string)
    requires |t| == 3 && (rest != "" ==> !IsSpace(rest[|rest| - 1]))
    requires !Contains(ToUpper(Kernel(t, rest)), "SPS") && !KernelMark(Kernel(t, rest))
    ensures Detect(Kernel(t, rest)) == Semver
  {
    hide PrintTuple, Contains, ToUpper, DateLike, WindowsLike, ThreeNumbers, TrimSpace, TrimPrefix, KernelMark, Detect;
    KernelEnds(t, rest);
    KernelIsNoOther(t, rest);
    KernelNumbers(t, "-" + rest);
    assert Kernel(t, rest) == PrintTuple(t) + ("-" + rest);
    KernelHasDot(t, rest);
    DetectSemver(Kernel(t, rest));
  }

  lemma KernelHasDot(t: seq<nat>, rest: string)
    requires |t| == 3
    ensures Count(Kernel(t, rest), '.') >= 1
  {
    hide PrintTuple;
    KernelLength(t);
    var i :| 0 <= i < |PrintTuple(t)| - 1 && PrintTuple(t)[i] == '.';
    CountSome(Kernel(t, rest), i, '.');
  }

  /** An installed version like 2.4.49-1 is kept in every range, as a match on the product only. */
  lemma UnmarkedIsKept(t: seq<nat>, rest: string, start: string, end: string)
    requires FitsInt(t) && |t| == 3 && (rest != "" ==> !IsSpace(rest[|rest| - 1]))
    requires !Inside("SPS", ToUpper(rest)) && !KernelSuffix(rest)
    ensures Included(Kernel(t, rest), start, end)
    ensures Confidence(Kernel(t, rest), start, end) == "product_only_match"
  {
    hide Parse, Kernel, KernelSuffix, Inside, FitsInt;
    Hyphenated(t, rest);
  }

  // ----- Spellings of one version -----

  lemma SameTrim(a: string, b: string)
    requires TrimSpace(a) == TrimSpace(b)
    ensures Parse(a) == Parse(b)
  {
    hide TrimSpace, TrimPrefix, ParseSap, ParseDate, FirstThree, ParseLinuxKernel, SemverTuple, DateLike, WindowsLike,
         ThreeNumbers, TwoNumbers, Contains, Count, ToUpper, Split;
  }

  /** White space around a version does not matter. */
  lemma SpaceAround(before: string, v: string, after: string)
    requires All(before, IsSpace) && All(after, IsSpace)
    requires v != "" && !IsSpace(v[0]) && !IsSpace(v[|v| - 1])
    ensures Parse(before + v + after) == Parse(v)
  {
    hide Parse, Trim, IsSpace;
    TrimCuts(before, v, after, IsSpace);
    TrimKeeps(v, IsSpace);
    SameTrim(before + v + after, v);
  }

  /** A leading v does not matter, except that it costs a Windows build its first number. */
  lemma LeadingV(t: seq<nat>)
    requires FitsInt(t)
    ensures Parse("v" + PrintTuple(t)) ==
      if WindowsTuple(t) then Parsed(Windows, [0, 0, t[2]]) else Parsed(Semver, t)
  {
    hide PrintTuple, Split, SemverTuple, FirstThree, TrimSpace, TrimPrefix, WindowsTuple, Detect;
    var p := PrintTuple(t);
    var v := "v" + p;
    PrintedChars(t);
    DetectPrinted(t);
    VTrimmed(p);
    SameScheme(v, p);
    if WindowsTuple(t) {
      WindowsWithV(t);
    } else {
      SplitPrinted(t);
      SemverOfNumerals(t);
    }
  }

  lemma VTrimmed(p: string)
    requires p != "" && IsDigit(p[0]) && IsDigit(p[|p| - 1])
    ensures TrimSpace("v" + p) == "v" + p && TrimPrefix("v" + p, "v") == p
    ensures TrimSpace(p) == p && TrimPrefix(p, "v") == p
  {
    var v := "v" + p;
    assert v[0] == 'v' && v[|v| - 1] == p[|p| - 1];
    TrimKeeps(v, IsSpace);
    TrimKeeps(p, IsSpace);
    OtherStart(p, 'v');
  }

  lemma SameScheme(v: string, p: string)
    requires TrimPrefix(TrimSpace(v), "v") == p && TrimPrefix(TrimSpace(p), "v") == p
    ensures Detect(v) == Detect(p)
  {
    hide TrimPrefix, TrimSpace, DateLike, WindowsLike, ThreeNumbers, TwoNumbers, Contains, Count, ToUpper;
  }

  lemma WindowsWithV(t: seq<nat>)
    requires WindowsTuple(t)
    ensures FirstThree("v" + PrintTuple(t)) == Some([0, 0, t[2]])
  {
    hide Split, Print, PrintTuple;
    ThreePrinted(t);
    var a, b, c := Print(t[0]), Print(t[1]), Print(t[2]);
    assert "v" + PrintTuple(t) == ("v" + a) + "." + (b + "." + c);
    SplitFirst("v" + a, b + "." + c, '.');
    SplitFirst(b, c, '.');
    SplitNone(c, '.');
    AtoiPrint(t[1]);
    AtoiPrint(t[2]);
    assert ("v" + a)[0] == 'v';
  }

  // ----- Dates -----

  /** A text in the form of a date is read exactly when it is a day of the calendar; otherwise it is kept in
      every range. */
  lemma DateReadIff(v: string)
    requires DateLike(v)
    ensures Parse(v).Parsed? <==> Valid(Fields(v))
    ensures !Valid(Fields(v)) ==> forall start, end ::
      Included(v, start, end) && Confidence(v, start, end) == "product_only_match"
  {
    DateTrimmed(v);
    hide TrimSpace, TrimPrefix, DateLike, Days, Fields;
  }

  lemma DateTrimmed(v: string)
    requires DateLike(v)
    ensures TrimSpace(v) == v && TrimPrefix(v, "v") == v
  {
    assert IsDigit(v[..4][0]) && IsDigit(v[8..10][1]);
    assert v[0] == v[..4][0] && v[9] == v[8..10][1];
    TrimKeeps(v, IsSpace);
    OtherStart(v, 'v');
  }

  // ----- The range test on every kind of bound -----

  datatype Bound = Open | At(t: seq<nat>) | Unreadable(text: string)

  predicate GoodBound(b: Bound) {
    match b
    case Open => true
    case At(t) => FitsInt(t)
    case Unreadable(text) => text != "" && Parse(text).Unparsed?
  }

  function Text_(b: Bound): string
    requires GoodBound(b)
  {
    match b
    case Open => ""
    case At(t) => PrintTuple(t)
    case Unreadable(text) => text
  }

  predicate Admits(v: seq<nat>, start: Bound, end: Bound) {
    (start.At? ==> Compare(start.t, v) <= 0) && (end.At? ==> Compare(v, end.t) <= 0)
  }

  /** A version that can be read is excluded exactly by a readable bound that it violates; a kept one is an
      exact match exactly when neither bound is unreadable. */
  lemma RangeTable(v: seq<nat>, start: Bound, end: Bound)
    requires FitsInt(v) && GoodBound(start) && GoodBound(end)
    ensures Included(PrintTuple(v), Text_(start), Text_(end)) <==> Admits(v, start, end)
    ensures Confidence(PrintTuple(v), Text_(start), Text_(end)) ==
      if Admits(v, start, end) && (start.Unreadable? || end.Unreadable?) then "product_only_match"
      else "exact_version_match"
  {
    hide PrintTuple, Parse, Compare, FitsInt;
    PrintedIsVersion(v);
    if start.At? {
      PrintedIsVersion(start.t);
      CompareAntisymmetric(v, start.t);
    }
    if end.At? {
      PrintedIsVersion(end.t);
    }
  }

  /** A version that can not be read is kept in every range, as a match on the product only. */
  lemma UnreadableIsKept(v: string, start: string, end: string)
    requires Parse(v).Unparsed?
    ensures Included(v, start, end) && Confidence(v, start, end) == "product_only_match"
  {
    hide Parse;
  }

  // ----- SAP versions of any layout -----

  /** SPS and a digit stand here. */
  predicate SpsAt(s: string, k: int) {
    0 <= k < |s| - 3 && s[k] == 'S' && s[k + 1] == 'P' && s[k + 2] == 'S' && IsDigit(s[k + 3])
  }

  /** A digit, a dot and a digit stand here. */
  predicate PairAt(s: string, k: int) {
    0 <= k < |s| - 2 && IsDigit(s[k]) && s[k + 1] == '.' && IsDigit(s[k + 2])
  }

  ghost predicate Digits(d: string, rest: string) {
    d != "" && AllDigits(d) && (rest != "" ==> !IsDigit(rest[0]))
  }

  lemma SpsHere(s: string)
    ensures "SPS" <= s && Lead(s[3..]) > 0 <==> SpsAt(s, 0)
  {
    if "SPS" <= s {
      assert s[..3] == "SPS" && s[0] == "SPS"[0] && s[1] == "SPS"[1] && s[2] == "SPS"[2];
    }
    if SpsAt(s, 0) {
      assert s[..3] == "SPS";
    }
  }

  lemma SpsLater(s: string, k: int)
    requires s != "" && k >= 0
    ensures SpsAt(s[1..], k) <==> SpsAt(s, k + 1)
  {
  }

  lemma {:induction false} FirstSps(a: string, d: string, rest: string)
    requires Digits(d, rest) && forall k :: 0 <= k < |a| ==> !SpsAt(a + ("SPS" + (d + rest)), k)
    ensures ServicePack(a + ("SPS" + (d + rest))) == d
  {
    var s := a + ("SPS" + (d + rest));
    hide Lead;
    SpsHere(s);
    if a == "" {
      LeadOf(d, rest);
      assert s == "SPS" + (d + rest) && s[3..] == d + rest && (d + rest)[..|d|] == d;
      assert s[..3] == "SPS" && "SPS" <= s;
    } else {
      assert s[1..] == a[1..] + ("SPS" + (d + rest));
      forall k | 0 <= k < |a| - 1 ensures !SpsAt(s[1..], k) {
        SpsLater(s, k);
      }
      FirstSps(a[1..], d, rest);
    }
  }

  lemma {:induction false} NoSps(s: string)
    requires forall k :: !SpsAt(s, k)
    ensures ServicePack(s) == ""
  {
    if s != "" {
      SpsHere(s);
      forall k ensures !SpsAt(s[1..], k) {
        if k >= 0 {
          SpsLater(s, k);
        }
      }
      NoSps(s[1..]);
    }
  }

  /** Two numbers at the start end in a digit, a dot and a digit. */
  lemma PairInFront(s: string)
    ensures TwoNumbers(s) ==> 0 < Lead(s) < |s| && PairAt(s, Lead(s) - 1)
  {
    if TwoNumbers(s) {
      var n := Lead(s);
      assert s[..n][n - 1] == s[n - 1];
      assert s[n + 1..][0] == s[n + 1];
    }
  }

  lemma LeadAt(s: string, k: nat)
    requires k < |s|
    ensures k < Lead(s) ==> IsDigit(s[k])
  {
    if k < Lead(s) {
      assert IsDigit(s[..Lead(s)][k]);
    }
  }

  lemma LeadEnds(s: string, k: nat)
    requires k < |s| && !IsDigit(s[k])
    ensures Lead(s) <= k
  {
    LeadAt(s, k);
  }

  lemma PairHere(x: string, y: string, rest: string)
    requires Digits(x, "") && Digits(y, rest)
    ensures BaseVersion(x + ("." + (y + rest))) == Some((x, y))
  {
    hide Lead, BaseVersion;
    var s := x + ("." + (y + rest));
    LeadOf(x, "." + (y + rest));
    LeadOf(y, rest);
    assert s[|x|..] == "." + (y + rest) && s[|x| + 1..] == y + rest && s[..|x|] == x && (y + rest)[..|y|] == y;
    BaseHere(s, y + rest);
  }

  lemma {:induction false} FirstPair(a: string, x: string, y: string, rest: string)
    requires Digits(x, "") && Digits(y, rest) && (a != "" ==> !IsDigit(a[|a| - 1]))
    requires forall k :: 0 <= k < |a| ==> !PairAt(a + (x + ("." + (y + rest))), k)
    ensures BaseVersion(a + (x + ("." + (y + rest)))) == Some((x, y))
  {
    var s := a + (x + ("." + (y + rest)));
    hide Lead, TwoNumbers;
    if a == "" {
      PairHere(x, y, rest);
      assert s == x + ("." + (y + rest));
    } else {
      assert s[1..] == a[1..] + (x + ("." + (y + rest)));
      LeadEnds(s, |a| - 1);
      PairInFront(s);
      forall k | 0 <= k < |a| - 1 ensures !PairAt(s[1..], k) {
        assert !PairAt(s, k + 1);
      }
      FirstPair(a[1..], x, y, rest);
    }
  }

  lemma {:induction false} NoPair(s: string)
    requires forall k :: !PairAt(s, k)
    ensures BaseVersion(s) == None
  {
    if s != "" {
      PairInFront(s);
      forall k ensures !PairAt(s[1..], k) {
        assert k >= 0 ==> !PairAt(s, k + 1);
      }
      NoPair(s[1..]);
    }
  }

  /** Whatever the layout, the third number is the one behind the first SPS that has digits. */
  lemma SapStack(v: string, a: string, d: string, rest: string)
    requires ToUpper(v) == a + ("SPS" + (d + rest)) && Digits(d, rest)
    requires forall k :: 0 <= k < |a| ==> !SpsAt(ToUpper(v), k)
    ensures |ParseSap(v)| == 3 && ParseSap(v)[2] == Atoi(d).Value()
  {
    FirstSps(a, d, rest);
    hide ServicePack, BaseVersion, Atoi, ToUpper;
  }

  /** And the first two are those around the first dot between digits. */
  lemma SapRelease(v: string, a: string, x: string, y: string, rest: string)
    requires ToUpper(v) == a + (x + ("." + (y + rest))) && Digits(x, "") && Digits(y, rest)
    requires (a != "" ==> !IsDigit(a[|a| - 1])) && forall k :: 0 <= k < |a| ==> !PairAt(ToUpper(v), k)
    ensures |ParseSap(v)| == 3 && ParseSap(v)[0] == Atoi(x).Value() && ParseSap(v)[1] == Atoi(y).Value()
  {
    FirstPair(a, x, y, rest);
    hide ServicePack, BaseVersion, Atoi, ToUpper;
  }

  /** What is not there counts as 0. */
  lemma SapMissing(v: string)
    ensures |ParseSap(v)| == 3
    ensures (forall k :: !SpsAt(ToUpper(v), k)) ==> ParseSap(v)[2] == 0
    ensures (forall k :: !PairAt(ToUpper(v), k)) ==> ParseSap(v)[0] == ParseSap(v)[1] == 0
  {
    var u := ToUpper(v);
    if forall k :: !SpsAt(u, k) {
      NoSps(u);
    }
    if forall k :: !PairAt(u, k) {
      NoPair(u);
    }
    hide ServicePack, BaseVersion, ToUpper, SpsAt, PairAt;
  }
}
