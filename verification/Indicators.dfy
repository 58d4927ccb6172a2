/** Cleaning and validating indicators of compromise before export (`validateIOC`). */
module Indicators {
  import opened Text

  const SCHEMES: seq<string> := ["http://", "https://", "hxxp://", "hxxps://"]

  predicate OptionalScheme(scheme: string) {
    scheme == "" || scheme in SCHEMES
  }

  predicate IsAlnum(c: char) {
    IsDigit(c) || 'a' <= c <= 'z' || 'A' <= c <= 'Z'
  }

  predicate IsHexChar(c: char) {
    IsDigit(c) || 'a' <= c <= 'f'
  }

  predicate IsDot(c: char) {
    c == '.'
  }

  predicate IsHex(s: string) {
    forall i :: 0 <= i < |s| ==> IsHexChar(s[i])
  }

  /** One hostname label: at most 63 letters, digits and inner hyphens. */
  predicate ValidLabel(l: string) {
    && 1 <= |l| <= 63
    && IsAlnum(l[0]) && IsAlnum(l[|l| - 1])
    && forall i :: 0 <= i < |l| ==> IsAlnum(l[i]) || l[i] == '-'
  }

  /** The labels of a name: its parts without the empty one behind a final dot. */
  function Labels(parts: seq<string>): seq<string> {
    if |parts| > 1 && parts[|parts| - 1] == [] then parts[..|parts| - 1] else parts
  }

  predicate AllLabels(labels: seq<string>) {
    forall i :: 0 <= i < |labels| ==> ValidLabel(labels[i])
  }

  /** Labels separated by dots, with an optional final dot. */
  predicate ValidDomain(v: string) {
    AllLabels(Labels(Split(v, '.')))
  }

  function StripSchemes(v: string): string {
    TrimPrefix(TrimPrefix(TrimPrefix(TrimPrefix(v, "http://"), "https://"), "hxxp://"), "hxxps://")
  }

  function Refang(v: string): string {
    ReplaceAll(ReplaceAll(v, "[.]", "."), "(dot)", ".")
  }

  function Clean(value: string): string {
    Trim(Refang(StripSchemes(TrimSpace(ToLower(value)))), IsDot)
  }

  /** The cleaned value, or "" when it is not a valid indicator of its type. Parsing an IP
      address is the library's, so it is a parameter. */
  function ValidateIOC(parseIP: string -> Option<string>, iocType: string, value: string): string {
    var v := Clean(value);
    if iocType == "ipv4" || iocType == "ipv6" then
      (match parseIP(v) case Some(ip) => ip case None => "")
    else if iocType == "domain" then
      (if ValidDomain(v) && !HasSuffix(v, ".local") then v else "")
    else if iocType == "hash_sha256" then
      (if |v| == 64 && IsHex(v) then v else "")
    else if iocType == "hash_md5" then
      (if |v| == 32 && IsHex(v) then v else "")
    else ""
  }

  // ----- All spellings of a domain clean to that domain -----

  /** How an analyst may write one dot. */
  datatype Dot = Plain | Bracket | Paren

  function Spelling(d: Dot): string {
    match d
    case Plain => "."
    case Bracket => "[.]"
    case Paren => "(dot)"
  }

  /** The domain with its k-th character, when that is a dot, written as dots[k] says. */
  function Spell(domain: string, dots: seq<Dot>): string
    requires |dots| == |domain|
  {
    if domain == [] then []
    else (if domain[0] == '.' then Spelling(dots[0]) else [domain[0]]) + Spell(domain[1..], dots[1..])
  }

  predicate DomainChar(c: char) {
    IsDigit(c) || IsLower(c) || c == '-' || c == '.'
  }

  /** A canonical domain: lower case, valid, no dot at the end, not under .local. */
  predicate Canonical(domain: string) {
    && ValidDomain(domain) && !HasSuffix(domain, ".local")
    && domain != [] && domain[0] != '.' && domain[|domain| - 1] != '.'
    && forall i :: 0 <= i < |domain| ==> DomainChar(domain[i])
  }

  function Unbracket(d: Dot): Dot {
    if d == Bracket then Plain else d
  }

  function Unbracketed(dots: seq<Dot>): (r: seq<Dot>)
    ensures |r| == |dots| && forall i :: 0 <= i < |r| ==> r[i] == Unbracket(dots[i])
  {
    seq(|dots|, i requires 0 <= i < |dots| => Unbracket(dots[i]))
  }

  lemma UnbracketedTail(dots: seq<Dot>)
    requires dots != []
    ensures Unbracketed(dots)[1..] == Unbracketed(dots[1..])
  {
  }

  /** How the first character of a domain is written. */
  function Piece(c: char, dot: Dot): string {
    if c == '.' then Spelling(dot) else [c]
  }

  lemma SpellFirst(domain: string, dots: seq<Dot>)
    requires |dots| == |domain| && domain != []
    ensures Spell(domain, dots) == Piece(domain[0], dots[0]) + Spell(domain[1..], dots[1..])
  {
  }

  lemma ReplaceHere(old_: string, rest: string, new_: string)
    requires old_ != []
    ensures ReplaceAll(old_ + rest, old_, new_) == new_ + ReplaceAll(rest, old_, new_)
  {
    assert (old_ + rest)[|old_|..] == rest;
  }

  /** Replacement passes over a piece in which `old` can not start. */
  lemma {:induction false} ReplaceSkips(piece: string, rest: string, old_: string, new_: string)
    requires old_ != [] && NoneOf(piece, old_[0])
    ensures ReplaceAll(piece + rest, old_, new_) == piece + ReplaceAll(rest, old_, new_)
  {
    if piece == [] {
      assert piece + rest == rest;
    } else {
      assert (piece + rest)[0] != old_[0];
      assert (piece + rest)[1..] == piece[1..] + rest;
      ReplaceSkips(piece[1..], rest, old_, new_);
    }
  }

  lemma UnbracketPiece(c: char, dot: Dot, rest: string)
    requires DomainChar(c)
    ensures ReplaceAll(Piece(c, dot) + rest, "[.]", ".") == Piece(c, Unbracket(dot)) + ReplaceAll(rest, "[.]", ".")
  {
    hide ReplaceAll;
    if c == '.' && dot == Bracket {
      ReplaceHere("[.]", rest, ".");
    } else {
      ReplaceSkips(Piece(c, dot), rest, "[.]", ".");
    }
  }

  lemma UnparenPiece(c: char, dot: Dot, rest: string)
    requires DomainChar(c) && dot != Bracket
    ensures ReplaceAll(Piece(c, dot) + rest, "(dot)", ".") == [c] + ReplaceAll(rest, "(dot)", ".")
  {
    hide ReplaceAll;
    if c == '.' && dot == Paren {
      ReplaceHere("(dot)", rest, ".");
    } else {
      ReplaceSkips(Piece(c, dot), rest, "(dot)", ".");
    }
  }

  lemma {:induction false} UnbracketSpelling(domain: string, dots: seq<Dot>)
    requires |dots| == |domain| && All(domain, DomainChar)
    ensures ReplaceAll(Spell(domain, dots), "[.]", ".") == Spell(domain, Unbracketed(dots))
  {
    if domain != [] {
      hide Spell, ReplaceAll, DomainChar, Piece;
      UnbracketSpelling(domain[1..], dots[1..]);
      SpellFirst(domain, dots);
      SpellFirst(domain, Unbracketed(dots));
      UnbracketedTail(dots);
      assert DomainChar(domain[0]);
      UnbracketPiece(domain[0], dots[0], Spell(domain[1..], dots[1..]));
    }
  }

  lemma {:induction false} UnparenSpelling(domain: string, dots: seq<Dot>)
    requires |dots| == |domain| && All(domain, DomainChar)
    requires forall i :: 0 <= i < |dots| ==> dots[i] != Bracket
    ensures ReplaceAll(Spell(domain, dots), "(dot)", ".") == domain
  {
    if domain != [] {
      hide Spell, ReplaceAll, DomainChar, Piece;
      UnparenSpelling(domain[1..], dots[1..]);
      SpellFirst(domain, dots);
      assert DomainChar(domain[0]);
      UnparenPiece(domain[0], dots[0], Spell(domain[1..], dots[1..]));
    }
  }

  lemma RefangSpelling(domain: string, dots: seq<Dot>)
    requires |dots| == |domain| && All(domain, DomainChar)
    ensures Refang(Spell(domain, dots)) == domain
  {
    UnbracketSpelling(domain, dots);
    UnparenSpelling(domain, Unbracketed(dots));
  }

  predicate SpelledChar(c: char) {
    DomainChar(c) || c == '[' || c == ']' || c == '(' || c == ')'
  }

  lemma {:induction false} SpelledChars(domain: string, dots: seq<Dot>)
    requires |dots| == |domain| && All(domain, DomainChar)
    ensures All(Spell(domain, dots), SpelledChar)
    ensures domain != [] && domain[0] != '.' ==> Spell(domain, dots) != [] && Spell(domain, dots)[0] == domain[0]
    ensures domain != [] && domain[|domain| - 1] != '.' ==>
      Spell(domain, dots) != [] && Spell(domain, dots)[|Spell(domain, dots)| - 1] == domain[|domain| - 1]
  {
    if domain != [] {
      SpelledChars(domain[1..], dots[1..]);
      assert DomainChar(domain[0]);
      if |domain| > 1 {
        assert domain[1..][|domain| - 2] == domain[|domain| - 1];
      }
    }
  }

  lemma Removed(p: string, body: string)
    ensures TrimPrefix(p + body, p) == body
  {
  }

  /** A prefix that differs from the present scheme somewhere is not removed. */
  lemma OtherScheme(p: string, scheme: string, body: string, i: nat)
    requires i < |p| && i < |scheme| && p[i] != scheme[i]
    ensures TrimPrefix(scheme + body, p) == scheme + body
  {
    assert (scheme + body)[i] == scheme[i];
  }

  lemma NoScheme(body: string, p: string, i: nat)
    requires i < |p| && p[i] == ':' && NoneOf(body, ':')
    ensures TrimPrefix(body, p) == body
  {
    assert i < |body| ==> body[i] != p[i];
  }

  /** At most one scheme is present, and it is removed. */
  lemma StripOne(scheme: string, body: string)
    requires OptionalScheme(scheme)
    requires NoneOf(body, ':')
    ensures StripSchemes(scheme + body) == body
  {
    hide TrimPrefix, NoneOf;
    var v, schemes := scheme + body, ["http://", "https://", "hxxp://", "hxxps://"];
    NoScheme(body, schemes[0], 4);
    NoScheme(body, schemes[1], 5);
    NoScheme(body, schemes[2], 4);
    NoScheme(body, schemes[3], 5);
    if scheme == "" {
      assert v == body;
    } else {
      Removed(scheme, body);
      if scheme != schemes[0] { OtherScheme(schemes[0], scheme, body, if scheme == schemes[1] then 4 else 1); }
      if scheme == schemes[2] || scheme == schemes[3] { OtherScheme(schemes[1], scheme, body, 1); }
      if scheme == schemes[3] { OtherScheme(schemes[2], scheme, body, 4); }
    }
  }

  /** Every spelling of a canonical domain validates to the domain itself: each dot written as
      ".", "[.]" or "(dot)", any letter case, any one of the four schemes in front or none, and
      white space around it. All spellings therefore share one deduplication key. */
  lemma SpellingsAgree(parseIP: string -> Option<string>, domain: string, dots: seq<Dot>, scheme: string,
                       before: string, after: string, value: string)
    requires Canonical(domain) && |dots| == |domain|
    requires OptionalScheme(scheme)
    requires All(before, IsSpace) && All(after, IsSpace)
    requires ToLower(value) == before + (scheme + Spell(domain, dots)) + after
    ensures ValidateIOC(parseIP, "domain", value) == domain
  {
    hide OptionalScheme, Clean, Spell, ValidDomain, HasSuffix, All, ToLower;
    SpellingCleans(domain, dots, scheme, before, after, value);
    CleanDomain(parseIP, value);
  }

  lemma CleanDomain(parseIP: string -> Option<string>, value: string)
    requires ValidDomain(Clean(value)) && !HasSuffix(Clean(value), ".local")
    ensures ValidateIOC(parseIP, "domain", value) == Clean(value)
  {
    hide Clean, ValidDomain, HasSuffix;
  }

  lemma SpellingCleans(domain: string, dots: seq<Dot>, scheme: string, before: string, after: string, value: string)
    requires Canonical(domain) && |dots| == |domain|
    requires OptionalScheme(scheme)
    requires All(before, IsSpace) && All(after, IsSpace)
    requires ToLower(value) == before + (scheme + Spell(domain, dots)) + after
    ensures Clean(value) == domain
  {
    hide OptionalScheme, Spell, StripSchemes, Refang, Trim, TrimSpace, Canonical, All, ToLower, NoneOf, IsSpace;
    var body := Spell(domain, dots);
    SpelledBody(domain, dots);
    SchemeEnds(scheme, body);
    TrimmedSpelling(before, scheme + body, after);
    StripOne(scheme, body);
    RefangSpelling(domain, dots);
    TrimKeeps(domain, IsDot);
  }

  lemma TrimmedSpelling(before: string, v: string, after: string)
    requires All(before, IsSpace) && All(after, IsSpace)
    requires v != [] && !IsSpace(v[0]) && !IsSpace(v[|v| - 1])
    ensures TrimSpace(before + v + after) == v
  {
    TrimCuts(before, v, after, IsSpace);
  }

  lemma SpelledBody(domain: string, dots: seq<Dot>)
    requires Canonical(domain) && |dots| == |domain|
    ensures var body := Spell(domain, dots);
      body != [] && NoneOf(body, ':') && !IsSpace(body[0]) && !IsSpace(body[|body| - 1])
    ensures All(domain, DomainChar) && domain != [] && !IsDot(domain[0]) && !IsDot(domain[|domain| - 1])
  {
    hide Spell, ValidDomain;
    var body := Spell(domain, dots);
    SpelledChars(domain, dots);
    assert DomainChar(domain[0]) && DomainChar(domain[|domain| - 1]);
    forall i | 0 <= i < |body| ensures body[i] != ':' { assert SpelledChar(body[i]); }
  }

  lemma SchemeEnds(scheme: string, body: string)
    requires OptionalScheme(scheme)
    requires body != [] && !IsSpace(body[0]) && !IsSpace(body[|body| - 1])
    ensures var v := scheme + body; v != [] && !IsSpace(v[0]) && !IsSpace(v[|v| - 1])
  {
    var v := scheme + body;
    assert v[|v| - 1] == body[|body| - 1];
    assert scheme == "" ==> v == body;
    assert scheme != "" ==> v[0] == 'h';
  }

  // ----- Validation is idempotent -----

  lemma {:induction false} LabelChars(v: string, parts: seq<string>)
    requires parts == Split(v, '.')
    requires forall i :: 0 <= i < |parts| ==> forall k :: 0 <= k < |parts[i]| ==>
      IsAlnum(parts[i][k]) || parts[i][k] == '-'
    ensures forall k :: 0 <= k < |v| ==> IsAlnum(v[k]) || v[k] == '-' || v[k] == '.'
  {
    if v != [] {
      var rest := Split(v[1..], '.');
      if v[0] == '.' {
        assert parts[1..] == rest;
      } else {
        assert parts[0][0] == v[0] && parts[0][1..] == rest[0];
        assert parts[1..] == rest[1..];
        forall i, k | 0 <= i < |rest| && 0 <= k < |rest[i]| ensures IsAlnum(rest[i][k]) || rest[i][k] == '-' {
          if i == 0 { assert rest[0][k] == parts[0][k + 1]; } else { assert rest[i] == parts[i]; }
        }
      }
      LabelChars(v[1..], rest);
      forall k | 0 <= k < |v| ensures IsAlnum(v[k]) || v[k] == '-' || v[k] == '.' {
        if k > 0 { assert v[k] == v[1..][k - 1]; }
      }
    }
  }

  ghost predicate LabelLike(l: string) {
    forall k :: 0 <= k < |l| ==> IsAlnum(l[k]) || l[k] == '-'
  }

  lemma PartsAreLabels(parts: seq<string>, labels: seq<string>)
    requires |parts| > 0 && labels == Labels(parts) && AllLabels(labels)
    ensures forall i :: 0 <= i < |parts| ==> LabelLike(parts[i])
  {
    forall i | 0 <= i < |parts| ensures LabelLike(parts[i]) {
      if i < |labels| {
        assert labels[i] == parts[i] && ValidLabel(labels[i]);
      }
    }
  }

  lemma DomainChars(v: string)
    requires ValidDomain(v)
    ensures forall k :: 0 <= k < |v| ==> IsAlnum(v[k]) || v[k] == '-' || v[k] == '.'
  {
    var parts := Split(v, '.');
    PartsAreLabels(parts, Labels(parts));
    forall i | 0 <= i < |parts| ensures forall k :: 0 <= k < |parts[i]| ==> IsAlnum(parts[i][k]) || parts[i][k] == '-' {
      assert LabelLike(parts[i]);
    }
    LabelChars(v, parts);
  }

  ghost predicate Lowered(s: string) {
    forall i :: 0 <= i < |s| ==> LowerChar(s[i]) == s[i]
  }

  lemma {:induction false} ReplaceLowered(s: string, old_: string)
    requires old_ != [] && Lowered(s)
    ensures Lowered(ReplaceAll(s, old_, "."))
  {
    if s != [] {
      if old_ <= s {
        ReplaceLowered(s[|old_|..], old_);
      } else {
        ReplaceLowered(s[1..], old_);
      }
    }
  }

  lemma SliceLowered(s: string, cut: char -> bool)
    requires Lowered(s)
    ensures Lowered(Trim(s, cut))
  {
    TrimIsSlice(s, cut);
    var i, j :| 0 <= i <= j <= |s| && Trim(s, cut) == s[i..j];
    forall k | 0 <= k < j - i ensures LowerChar(s[i..j][k]) == s[i..j][k] { assert s[i..j][k] == s[i + k]; }
  }

  lemma LowerLowered(value: string)
    ensures Lowered(ToLower(value))
  {
  }

  lemma StripLowered(v: string)
    requires Lowered(v)
    ensures Lowered(StripSchemes(v))
  {
  }

  lemma CleanLowered(value: string)
    ensures Lowered(Clean(value))
    ensures Clean(value) != [] ==> Clean(value)[0] != '.' && Clean(value)[|Clean(value)| - 1] != '.'
  {
    hide StripSchemes, Trim, ToLower, ReplaceAll, Lowered;
    LowerLowered(value);
    SliceLowered(ToLower(value), IsSpace);
    var v := StripSchemes(TrimSpace(ToLower(value)));
    StripLowered(TrimSpace(ToLower(value)));
    ReplaceLowered(v, "[.]");
    ReplaceLowered(ReplaceAll(v, "[.]", "."), "(dot)");
    SliceLowered(Refang(v), IsDot);
    TrimIsSlice(Refang(v), IsDot);
  }

  /** Cleaning leaves a clean string alone. */
  lemma CleanFixed(v: string)
    requires v != [] && v[0] != '.' && v[|v| - 1] != '.'
    requires forall k :: 0 <= k < |v| ==> DomainChar(v[k])
    ensures Clean(v) == v
  {
    hide StripSchemes, Refang, Trim, TrimSpace, ToLower;
    TrimmedFixed(v);
    assert NoneOf(v, ':') && "" + v == v;
    StripOne("", v);
    RefangFixed(v);
    TrimKeeps(v, IsDot);
  }

  lemma TrimmedFixed(v: string)
    requires v != [] && forall k :: 0 <= k < |v| ==> DomainChar(v[k])
    ensures TrimSpace(ToLower(v)) == v
  {
    assert ToLower(v) == v;
    assert DomainChar(v[0]) && DomainChar(v[|v| - 1]);
    TrimKeeps(v, IsSpace);
  }

  lemma RefangFixed(v: string)
    requires forall k :: 0 <= k < |v| ==> DomainChar(v[k])
    ensures Refang(v) == v
  {
    ReplaceNothing(v, "[.]", ".");
    ReplaceNothing(v, "(dot)", ".");
  }

  /** Validating a validated domain or hash changes nothing. */
  lemma ValidateIdempotent(parseIP: string -> Option<string>, iocType: string, value: string)
    requires iocType != "ipv4" && iocType != "ipv6"
    requires ValidateIOC(parseIP, iocType, value) != ""
    ensures ValidateIOC(parseIP, iocType, ValidateIOC(parseIP, iocType, value)) == ValidateIOC(parseIP, iocType, value)
  {
    var v := Clean(value);
    CleanLowered(value);
    if iocType == "domain" {
      DomainChars(v);
    }
    forall k | 0 <= k < |v| ensures DomainChar(v[k]) {
      assert LowerChar(v[k]) == v[k];
      assert iocType != "domain" ==> IsHexChar(v[k]);
    }
    CleanFixed(v);
  }
}
