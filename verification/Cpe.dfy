/** CPE names of affected products: the two bindings and what parseCPE makes of them. */
module Cpe {
  import opened Text
  import opened Model
  import opened Version

  /** A bound component as plain text; a wildcard is empty. */
  function CpeUnbind(s: string): string {
    if s == "" || s == "*" || s == "-" then ""
    else TrimSpace(ReplaceAll(ReplaceAll(ReplaceAll(s, "\\:", ":"), "\\", ""), "_", " "))
  }

  const FORMATTED := "cpe:2.3:"
  const URI := "cpe:/"

  /** part, vendor, product, version, ... or nothing when the binding is unknown. */
  function Fields(s: string): seq<string> {
    if FORMATTED <= s then Split(TrimPrefix(s, FORMATTED), ':')
    else if URI <= s then Split(TrimPrefix(s, URI), ':')
    else []
  }

  function ParseCPE(cpe: string): Option<AffectedProduct> {
    var fields := Fields(TrimSpace(ToLower(cpe)));
    if |fields| < 3 then None
    else
      var vendor := CpeUnbind(fields[1]);
      var product := CpeUnbind(fields[2]);
      if vendor == "" || product == "" then None
      else
        var version := if |fields| >= 4 then CpeUnbind(fields[3]) else "";
        Some(AffectedProduct(vendor, product, version, version))
  }

  // ----- Which products parseCPE can produce -----

  predicate CleanChar(c: char) {
    c != ':' && c != '\\' && c != '_' && !('A' <= c <= 'Z')
  }

  /** Lower case, no space at either end, and free of the three characters the binding uses. */
  ghost predicate Clean(w: string) {
    All(w, CleanChar) && (w != [] ==> !IsSpace(w[0]) && !IsSpace(w[|w| - 1]))
  }

  ghost predicate Canonical(ap: AffectedProduct) {
    ap.vendor != "" && ap.product != "" && Clean(ap.vendor) && Clean(ap.product) && Clean(ap.versionStart)
    && ap.versionStart == ap.versionEnd
  }

  /** Characters of a field after lower-casing and splitting. */
  predicate FieldChar(c: char) {
    c != ':' && !('A' <= c <= 'Z')
  }

  lemma PairPrefix(pair: string, s: string)
    requires |pair| == 2
    ensures pair <= s ==> |s| >= 2 && s[1] == pair[1]
  {
  }

  lemma {:induction false} NoEscapedColon(s: string)
    requires All(s, FieldChar)
    ensures ReplaceAll(s, "\\:", ":") == s
  {
    if s != [] {
      PairPrefix("\\:", s);
      assert |s| > 1 ==> FieldChar(s[1]);
      NoEscapedColon(s[1..]);
    }
  }

  /** Dropping backslashes and turning underscores into spaces, one character at a time. */
  function Plain(s: string): string {
    if s == [] then []
    else (if s[0] == '\\' then "" else if s[0] == '_' then " " else [s[0]]) + Plain(s[1..])
  }

  lemma ReplaceOne(c: char, s: string, old_: char, new_: string)
    ensures ReplaceAll([c] + s, [old_], new_) == (if c == old_ then new_ else [c]) + ReplaceAll(s, [old_], new_)
  {
    var t := [c] + s;
    assert t[1..] == s && ([old_] <= t <==> t[0] == old_);
  }

  lemma {:induction false} ReplacedIsPlain(s: string)
    ensures ReplaceAll(ReplaceAll(s, "\\", ""), "_", " ") == Plain(s)
  {
    if s != [] {
      var rest := ReplaceAll(s[1..], "\\", "");
      ReplacedIsPlain(s[1..]);
      assert s == [s[0]] + s[1..];
      ReplaceOne(s[0], s[1..], '\\', "");
      ReplaceOne(s[0], rest, '_', " ");
      assert "" + rest == rest;
    }
  }

  lemma {:induction false} PlainIsClean(s: string)
    requires All(s, FieldChar)
    ensures All(Plain(s), CleanChar)
  {
    if s != [] {
      assert FieldChar(s[0]);
      PlainIsClean(s[1..]);
    }
  }

  /** On a field the unescaping of colons does nothing: the fields were split at every colon before. */
  lemma UnbindField(s: string)
    requires All(s, FieldChar)
    ensures CpeUnbind(s) == if s == "*" || s == "-" then "" else TrimSpace(Plain(s))
    ensures Clean(CpeUnbind(s))
  {
    NoEscapedColon(s);
    ReplacedIsPlain(s);
    PlainIsClean(s);
    TrimIsSlice(Plain(s), IsSpace);
  }

  lemma {:induction false} PiecesKeep(s: string, sep: char, p: char -> bool)
    requires All(s, p)
    ensures forall i :: 0 <= i < |Split(s, sep)| ==> All(Split(s, sep)[i], p)
  {
    if s != [] {
      PiecesKeep(s[1..], sep, p);
    }
  }

  predicate NotUpper(c: char) {
    !('A' <= c <= 'Z')
  }

  lemma FieldsAreFields(cpe: string, i: nat)
    requires i < |Fields(TrimSpace(ToLower(cpe)))|
    ensures All(Fields(TrimSpace(ToLower(cpe)))[i], FieldChar)
  {
    var s := TrimSpace(ToLower(cpe));
    TrimIsSlice(ToLower(cpe), IsSpace);
    var body := if FORMATTED <= s then TrimPrefix(s, FORMATTED) else TrimPrefix(s, URI);
    assert All(ToLower(cpe), NotUpper);
    assert All(s, NotUpper) && All(body, NotUpper);
    PiecesKeep(body, ':', NotUpper);
    JoinSplit(body, ':');
    var field := Split(body, ':')[i];
    assert All(field, NotUpper) && NoneOf(field, ':');
    forall k | 0 <= k < |field| ensures FieldChar(field[k]) {
      assert NotUpper(field[k]);
    }
  }

  /** Whatever the input, a product that parseCPE returns is canonical. */
  lemma ParsedIsCanonical(cpe: string)
    ensures ParseCPE(cpe).Some? ==> Canonical(ParseCPE(cpe).value)
  {
    hide CpeUnbind, Fields;
    var fields := Fields(TrimSpace(ToLower(cpe)));
    if |fields| >= 3 {
      FieldsAreFields(cpe, 1);
      FieldsAreFields(cpe, 2);
      UnbindField(fields[1]);
      UnbindField(fields[2]);
      if |fields| >= 4 {
        FieldsAreFields(cpe, 3);
        UnbindField(fields[3]);
      }
    }
  }

  // ----- Reading the fields of a name -----

  function Body(part: string, vendor: string, product: string, version: string): string {
    part + ":" + (vendor + ":" + (product + ":" + version))
  }

  /** Without a version. */
  function ShortBody(part: string, vendor: string, product: string): string {
    part + ":" + (vendor + ":" + product)
  }

  /** The product with these plain components, if vendor and product are there. */
  function Named(vendor: string, product: string, version: string): Option<AffectedProduct> {
    if vendor == "" || product == "" then None else Some(AffectedProduct(vendor, product, version, version))
  }

  lemma NoColon(s: string)
    requires All(s, FieldChar)
    ensures NoneOf(s, ':')
  {
    forall i | 0 <= i < |s| ensures s[i] != ':' { assert FieldChar(s[i]); }
  }

  /** The fields of a name: part, bound vendor, bound product, bound version. */
  lemma SplitHead(part: string, v: string, p: string, ver: string, tail: string)
    requires NoneOf(part, ':') && All(v, FieldChar) && All(p, FieldChar) && All(ver, FieldChar)
    requires tail != "" ==> tail[0] == ':'
    ensures var f := Split(Body(part, v, p, ver) + tail, ':');
            |f| >= 4 && f[1] == v && f[2] == p && f[3] == ver
  {
    hide Split, All, NoneOf;
    NoColon(v);
    NoColon(p);
    LastField(ver, tail);
    var last := ver + tail;
    BodyTail(part, v, p, ver, tail);
    SplitFirst(part, v + ":" + (p + ":" + last), ':');
    SplitFirst(v, p + ":" + last, ':');
    SplitFirst(p, last, ':');
  }

  lemma LastField(ver: string, tail: string)
    requires All(ver, FieldChar) && (tail != "" ==> tail[0] == ':')
    ensures Split(ver + tail, ':')[0] == ver
  {
    hide Split;
    NoColon(ver);
    if tail == "" {
      assert ver + tail == ver;
      SplitNone(ver, ':');
    } else {
      assert ver + tail == ver + ":" + tail[1..];
      SplitFirst(ver, tail[1..], ':');
    }
  }

  lemma BodyTail(part: string, v: string, p: string, ver: string, tail: string)
    ensures Body(part, v, p, ver) + tail == part + ":" + (v + ":" + (p + ":" + (ver + tail)))
  {
    AppendTail(p, ver, tail);
    AppendTail(v, p + ":" + ver, tail);
    AppendTail(part, v + ":" + (p + ":" + ver), tail);
  }

  lemma AppendTail(a: string, b: string, tail: string)
    ensures (a + ":" + b) + tail == a + ":" + (b + tail)
  {
  }

  /** Bodies of both bindings are found behind their prefixes. */
  lemma FieldsOfBody(formatted: bool, body: string)
    ensures Fields((if formatted then FORMATTED else URI) + body) == Split(body, ':')
  {
    var prefix := if formatted then FORMATTED else URI;
    var s := prefix + body;
    assert s[..|prefix|] == prefix && s[|prefix|..] == body;
    assert !formatted ==> s[4] == '/';
    assert FORMATTED[4] == '2';
  }

  lemma TrimmedName(head: string, tail: string)
    requires head != [] && ToLower(head)[0] == 'c' && !IsSpace(ToLower(head)[|head| - 1])
    ensures TrimSpace(ToLower(head + tail)) == ToLower(head) + TrimRight(ToLower(tail), IsSpace)
  {
    assert ToLower(head + tail) == ToLower(head) + ToLower(tail);
    TrimRightTail(ToLower(head), ToLower(tail), IsSpace);
  }

  lemma LowerJoin(a: string, b: string)
    requires All(a, NotUpper) && All(b, NotUpper)
    ensures All(a + ":" + b, NotUpper)
  {
  }

  lemma LowerBehind(prefix: string, s: string)
    requires (prefix == FORMATTED || prefix == URI) && All(s, NotUpper)
    ensures ToLower(prefix + s) == prefix + s
  {
    LowerIsKept(prefix);
    LowerIsKept(s);
    assert ToLower(prefix + s) == ToLower(prefix) + ToLower(s);
  }

  lemma LowerIsKept(s: string)
    requires All(s, NotUpper)
    ensures ToLower(s) == s
  {
    forall i | 0 <= i < |s| ensures LowerChar(s[i]) == s[i] { assert NotUpper(s[i]); }
  }

  lemma FieldIsLower(s: string)
    requires All(s, FieldChar)
    ensures All(s, NotUpper)
  {
    forall i | 0 <= i < |s| ensures NotUpper(s[i]) { assert FieldChar(s[i]); }
  }

  predicate NoSpaceEnd(s: string) {
    s == "" || !IsSpace(s[|s| - 1])
  }

  lemma EndsAfter(front: string, s: string)
    requires front != "" && front[0] == 'c' && NoSpaceEnd(front) && NoSpaceEnd(s)
    ensures var n := front + s; n != "" && n[0] == 'c' && !IsSpace(n[|n| - 1])
  {
    var n := front + s;
    assert s != "" ==> n[|n| - 1] == s[|s| - 1];
    assert s == "" ==> n == front;
  }

  lemma FrontOfBody(formatted: bool, part: string, v: string, p: string, ver: string)
    ensures var prefix := if formatted then FORMATTED else URI;
            var front := prefix + (part + ":" + (v + ":" + (p + ":")));
            && prefix + Body(part, v, p, ver) == front + ver
            && front != "" && front[0] == 'c' && NoSpaceEnd(front)
  {
    var prefix := if formatted then FORMATTED else URI;
    var front := prefix + (part + ":" + (v + ":" + (p + ":")));
    BodyTail(part, v, p, "", ver);
    assert "" + ver == ver && p + ":" + "" == p + ":";
    hide Body;
    PrefixedFront(prefix, part, v, p + ":");
    Reassociate(prefix, part + ":" + (v + ":" + (p + ":")), ver);
  }

  lemma Reassociate(a: string, b: string, c: string)
    ensures a + (b + c) == (a + b) + c
  {
  }

  lemma PrefixedFront(prefix: string, part: string, v: string, last: string)
    requires prefix != "" && prefix[0] == 'c' && last != "" && last[|last| - 1] == ':'
    ensures var front := prefix + (part + ":" + (v + ":" + last));
      front != "" && front[0] == 'c' && NoSpaceEnd(front)
  {
    var front := prefix + (part + ":" + (v + ":" + last));
    assert front[0] == prefix[0] && front[|front| - 1] == last[|last| - 1];
  }

  /** Four fields or more, in any letter case. */
  lemma NameParses(formatted: bool, part: string, v: string, p: string, ver: string, head: string, tail: string)
    requires NoneOf(part, ':') && All(v, FieldChar) && All(p, FieldChar) && All(ver, FieldChar) && NoSpaceEnd(ver)
    requires ToLower(head) == (if formatted then FORMATTED else URI) + Body(part, v, p, ver)
    requires tail != "" ==> tail[0] == ':'
    ensures ParseCPE(head + tail) == Named(CpeUnbind(v), CpeUnbind(p), CpeUnbind(ver))
  {
    hide Split, CpeUnbind, TrimSpace, TrimRight, All, Body, Fields, NoSpaceEnd;
    var prefix := if formatted then FORMATTED else URI;
    var body, rest := Body(part, v, p, ver), TrimRight(ToLower(tail), IsSpace);
    FrontOfBody(formatted, part, v, p, ver);
    EndsAfter(prefix + (part + ":" + (v + ":" + (p + ":"))), ver);
    TrimmedName(head, tail);
    TrimRightIsHead(ToLower(tail), IsSpace);
    assert rest != "" ==> rest[0] == ':';
    assert (prefix + body) + rest == prefix + (body + rest);
    FieldsOfBody(formatted, body + rest);
    SplitHead(part, v, p, ver, rest);
  }

  lemma SplitShort(part: string, v: string, p: string)
    requires NoneOf(part, ':') && All(v, FieldChar) && All(p, FieldChar)
    ensures Split(ShortBody(part, v, p), ':') == [part, v, p]
  {
    hide Split;
    NoColon(v);
    NoColon(p);
    SplitFirst(part, v + ":" + p, ':');
    SplitFirst(v, p, ':');
    SplitNone(p, ':');
  }

  lemma KeepAll(s: string)
    requires NoSpaceEnd(s) && (s != "" ==> s[0] == 'c')
    ensures TrimSpace(s) == s
  {
    TrimKeeps(s, IsSpace);
  }

  /** Exactly three fields. */
  lemma ShortNameParses(formatted: bool, part: string, v: string, p: string, name: string)
    requires NoneOf(part, ':') && All(v, FieldChar) && All(p, FieldChar) && NoSpaceEnd(p)
    requires ToLower(name) == (if formatted then FORMATTED else URI) + ShortBody(part, v, p)
    ensures ParseCPE(name) == Named(CpeUnbind(v), CpeUnbind(p), "")
  {
    hide Split, CpeUnbind, TrimSpace, All, Fields;
    var prefix := if formatted then FORMATTED else URI;
    var front := prefix + (part + ":" + (v + ":"));
    assert front[0] == prefix[0] && front[|front| - 1] == ':';
    assert prefix + ShortBody(part, v, p) == front + p;
    EndsAfter(front, p);
    KeepAll(ToLower(name));
    FieldsOfBody(formatted, ShortBody(part, v, p));
    SplitShort(part, v, p);
  }

  // ----- Writing a formatted string -----

  /** A component with a space as an underscore, and every other character bare or behind a backslash. */
  function Escape(w: string, bare: char -> bool): string {
    if w == [] then []
    else (if w[0] == ' ' then "_" else if bare(w[0]) then [w[0]] else ['\\', w[0]]) + Escape(w[1..], bare)
  }

  function Bind(w: string, bare: char -> bool): string {
    if w == "" then "*" else Escape(w, bare)
  }

  /** A component that is just an asterisk or a hyphen has to be quoted. */
  predicate Quoted(w: string, bare: char -> bool) {
    w == "*" || w == "-" ==> !bare(w[0])
  }

  /** The formatted string up to and including the version. */
  function Head(part: string, ap: AffectedProduct, bare: char -> bool): string {
    FORMATTED + Body(part, Bind(ap.vendor, bare), Bind(ap.product, bare), Bind(ap.versionStart, bare))
  }

  lemma {:induction false} PlainFirst(piece: string, rest: string)
    ensures Plain(piece + rest) == Plain(piece) + Plain(rest)
    decreases |piece|
  {
    if piece == "" {
      assert piece + rest == rest;
    } else {
      assert (piece + rest)[1..] == piece[1..] + rest;
      PlainFirst(piece[1..], rest);
    }
  }

  lemma PlainOne(c: char)
    requires CleanChar(c)
    ensures Plain([c]) == [c] && Plain(['\\', c]) == [c] && Plain("_") == " "
  {
    assert ['\\', c][1..] == [c];
  }

  lemma {:induction false} PlainOfEscape(w: string, bare: char -> bool)
    requires All(w, CleanChar)
    ensures Plain(Escape(w, bare)) == w
  {
    if w != [] {
      hide Plain;
      var c, e := w[0], Escape(w[1..], bare);
      assert CleanChar(c) && w == [c] + w[1..];
      PlainOfEscape(w[1..], bare);
      PlainOne(c);
      PlainFirst(if c == ' ' then "_" else if bare(c) then [c] else ['\\', c], e);
    } else {
      assert Plain("") == "";
    }
  }

  lemma {:induction false} EscapeIsField(w: string, bare: char -> bool)
    requires All(w, CleanChar)
    ensures All(Escape(w, bare), FieldChar)
  {
    if w != [] {
      assert CleanChar(w[0]);
      EscapeIsField(w[1..], bare);
    }
  }

  lemma {:induction false} EscapeLength(w: string, bare: char -> bool)
    ensures |Escape(w, bare)| >= |w|
    ensures |Escape(w, bare)| == |w| == 1 ==>
      Escape(w, bare) == (if w[0] == ' ' then "_" else w) && (w[0] == ' ' || bare(w[0]))
  {
    if w != [] {
      EscapeLength(w[1..], bare);
    }
  }

  lemma {:induction false} EscapeEnd(w: string, bare: char -> bool)
    requires w != [] && w[|w| - 1] != ' '
    ensures Escape(w, bare) != [] && Escape(w, bare)[|Escape(w, bare)| - 1] == w[|w| - 1]
  {
    if |w| > 1 {
      EscapeEnd(w[1..], bare);
    } else {
      assert Escape(w[1..], bare) == [];
    }
  }

  lemma UnbindBind(w: string, bare: char -> bool)
    requires Clean(w) && Quoted(w, bare)
    ensures CpeUnbind(Bind(w, bare)) == w
    ensures All(Bind(w, bare), FieldChar) && NoSpaceEnd(Bind(w, bare))
  {
    PlainOfEscape(w, bare);
    EscapeIsField(w, bare);
    EscapeLength(w, bare);
    if w != "" { EscapeEnd(w, bare); }
    UnbindField(Bind(w, bare));
    TrimKeeps(w, IsSpace);
  }

  /** A canonical product written as a formatted string, whichever characters are quoted, in any
      letter case and with any further fields behind it, is parsed back. */
  lemma CanonicalParses(part: string, ap: AffectedProduct, bare: char -> bool, head: string, tail: string)
    requires Canonical(ap) && NoneOf(part, ':')
    requires Quoted(ap.vendor, bare) && Quoted(ap.product, bare) && Quoted(ap.versionStart, bare)
    requires ToLower(head) == Head(part, ap, bare)
    requires tail != "" ==> tail[0] == ':'
    ensures ParseCPE(head + tail) == Some(ap)
  {
    hide ParseCPE, CpeUnbind, Bind, Clean, All, Body, NoSpaceEnd;
    UnbindBind(ap.vendor, bare);
    UnbindBind(ap.product, bare);
    UnbindBind(ap.versionStart, bare);
    NameParses(true, part, Bind(ap.vendor, bare), Bind(ap.product, bare), Bind(ap.versionStart, bare), head, tail);
  }

  /** Writing a product as a formatted string and parsing it gives the product back exactly for the
      canonical products: a colon, backslash, underscore, capital or outer space in a component is lost. */
  lemma RoundTripIff(part: string, ap: AffectedProduct, bare: char -> bool, tail: string)
    requires NoneOf(part, ':') && All(part, NotUpper)
    requires Quoted(ap.vendor, bare) && Quoted(ap.product, bare) && Quoted(ap.versionStart, bare)
    requires tail != "" ==> tail[0] == ':'
    ensures ParseCPE(Head(part, ap, bare) + tail) == Some(ap) <==> Canonical(ap)
  {
    hide ParseCPE, Head, Quoted;
    var head := Head(part, ap, bare);
    ParsedIsCanonical(head + tail);
    if Canonical(ap) {
      HeadIsLower(part, ap, bare);
      CanonicalParses(part, ap, bare, head, tail);
    }
  }

  lemma HeadIsLower(part: string, ap: AffectedProduct, bare: char -> bool)
    requires Canonical(ap) && All(part, NotUpper)
    requires Quoted(ap.vendor, bare) && Quoted(ap.product, bare) && Quoted(ap.versionStart, bare)
    ensures ToLower(Head(part, ap, bare)) == Head(part, ap, bare)
  {
    hide Bind, Clean, All, ToLower, Body;
    UnbindBind(ap.vendor, bare);
    UnbindBind(ap.product, bare);
    UnbindBind(ap.versionStart, bare);
    BodyIsLower(true, part, Bind(ap.vendor, bare), Bind(ap.product, bare), Bind(ap.versionStart, bare));
  }

  lemma BodyIsLower(formatted: bool, part: string, v: string, p: string, ver: string)
    requires All(part, NotUpper) && All(v, FieldChar) && All(p, FieldChar) && All(ver, FieldChar)
    ensures var n := (if formatted then FORMATTED else URI) + Body(part, v, p, ver); ToLower(n) == n
  {
    hide All, ToLower;
    FieldIsLower(v);
    FieldIsLower(p);
    FieldIsLower(ver);
    LowerJoin(p, ver);
    LowerJoin(v, p + ":" + ver);
    LowerJoin(part, v + ":" + (p + ":" + ver));
    LowerBehind(if formatted then FORMATTED else URI, Body(part, v, p, ver));
  }

  lemma ShortIsLower(formatted: bool, part: string, v: string, p: string)
    requires All(part, NotUpper) && All(v, FieldChar) && All(p, FieldChar)
    ensures var n := (if formatted then FORMATTED else URI) + ShortBody(part, v, p); ToLower(n) == n
  {
    hide All, ToLower;
    FieldIsLower(v);
    FieldIsLower(p);
    LowerJoin(v, p);
    LowerJoin(part, v + ":" + p);
    LowerBehind(if formatted then FORMATTED else URI, ShortBody(part, v, p));
  }

  // ----- Writing a URI -----

  predicate HexDigit(c: char) {
    IsDigit(c) || 'a' <= c <= 'f'
  }

  predicate UriChar(c: char) {
    IsLower(c) || 'A' <= c <= 'Z' || IsDigit(c) || c == '.' || c == '-' || c == '_'
  }

  /** How a character is percent-encoded: hexadecimal digits, at least one. */
  ghost predicate Coded(code: char -> string) {
    forall c :: code(c) != "" && All(code(c), HexDigit)
  }

  function UriPiece(c: char, code: char -> string): string {
    if c == ' ' then "_" else if UriChar(c) then [c] else "%" + code(c)
  }

  /** A component as the URI binding writes it; an absent one is empty. */
  function UriWrite(w: string, code: char -> string): string {
    if w == "" then "" else UriPiece(w[0], code) + UriWrite(w[1..], code)
  }

  /** The whole name: an absent version at the end is left out. */
  function UriName(part: string, ap: AffectedProduct, code: char -> string, tail: string): string {
    var v, p, ver := UriWrite(ap.vendor, code), UriWrite(ap.product, code), UriWrite(ap.versionStart, code);
    if ap.versionStart == "" && tail == "" then URI + ShortBody(part, v, p) else URI + Body(part, v, p, ver) + tail
  }

  predicate NeedsNoCode(c: char) {
    c == ' ' || UriChar(c)
  }

  /** Nothing in it is percent-encoded, and it is not the hyphen that means "not applicable". */
  ghost predicate UriPlain(w: string) {
    w != "-" && All(w, NeedsNoCode)
  }

  lemma {:induction false} PlainHex(s: string)
    requires All(s, HexDigit)
    ensures Plain(s) == s && All(s, FieldChar)
  {
    if s != "" {
      assert HexDigit(s[0]);
      PlainHex(s[1..]);
      assert s == [s[0]] + s[1..];
    }
  }

  lemma PieceFacts(c: char, code: char -> string)
    requires CleanChar(c) && Coded(code)
    ensures var t := UriPiece(c, code);
      && All(t, FieldChar) && t != "" && Plain(t) != ""
      && (NeedsNoCode(c) ==> Plain(t) == [c])
      && (!NeedsNoCode(c) ==> |Plain(t)| >= 2)
      && (c != ' ' ==> !IsSpace(Plain(t)[0]) && !IsSpace(Plain(t)[|Plain(t)| - 1]) && !IsSpace(t[|t| - 1]))
      && t != "*" && (t == "-" ==> c == '-')
  {
    if !NeedsNoCode(c) {
      PlainHex(code(c));
      PlainFirst("%", code(c));
      assert Plain("%") == "%";
      var h := code(c);
      assert HexDigit(h[|h| - 1]);
    }
  }

  /** Unbinding gives at least as many characters, and the same ones only if none was encoded. */
  lemma {:induction false} PlainOfUri(w: string, code: char -> string)
    requires All(w, CleanChar) && Coded(code)
    ensures All(UriWrite(w, code), FieldChar)
    ensures var t := Plain(UriWrite(w, code)); if All(w, NeedsNoCode) then t == w else |t| > |w|
  {
    if w != "" {
      hide Plain, UriPiece, Coded, CleanChar, NeedsNoCode;
      var c, rest := w[0], UriWrite(w[1..], code);
      assert CleanChar(c) && w == [c] + w[1..];
      assert All(w, NeedsNoCode) <==> NeedsNoCode(c) && All(w[1..], NeedsNoCode);
      PlainOfUri(w[1..], code);
      PieceFacts(c, code);
      PlainFirst(UriPiece(c, code), rest);
    }
  }

  lemma {:induction false} UriEnds(w: string, code: char -> string)
    requires All(w, CleanChar) && Coded(code) && w != "" && w[0] != ' ' && w[|w| - 1] != ' '
    ensures var u := UriWrite(w, code); var t := Plain(u);
      && u != "" && !IsSpace(u[|u| - 1]) && u != "*" && (u == "-" ==> w == "-")
      && t != "" && !IsSpace(t[0]) && !IsSpace(t[|t| - 1])
  {
    hide Plain, UriPiece, Coded, CleanChar, NeedsNoCode, IsSpace;
    var u := UriWrite(w, code);
    UriFirst(w, code);
    UriLast(w, code);
  }

  lemma UriFirst(w: string, code: char -> string)
    requires All(w, CleanChar) && Coded(code) && w != "" && w[0] != ' '
    ensures var u := UriWrite(w, code); var t := Plain(u);
      t != "" && !IsSpace(t[0]) && u != "" && u != "*" && (u == "-" ==> w == "-")
  {
    hide Plain, UriPiece, Coded, CleanChar, NeedsNoCode, IsSpace;
    var rest := UriWrite(w[1..], code);
    assert CleanChar(w[0]);
    PieceFacts(w[0], code);
    PlainFirst(UriPiece(w[0], code), rest);
    UriLonger(w[1..], code);
    var u := UriWrite(w, code);
    assert rest == "" ==> u == UriPiece(w[0], code);
    assert |u| == |UriPiece(w[0], code)| + |rest|;
  }

  lemma {:induction false} UriLonger(w: string, code: char -> string)
    ensures |UriWrite(w, code)| >= |w|
  {
    if w != "" {
      UriLonger(w[1..], code);
    }
  }

  lemma {:induction false} UriLast(w: string, code: char -> string)
    requires All(w, CleanChar) && Coded(code) && w != "" && w[|w| - 1] != ' '
    ensures var u := UriWrite(w, code); var t := Plain(u);
      u != "" && !IsSpace(u[|u| - 1]) && t != "" && !IsSpace(t[|t| - 1])
  {
    hide Plain, UriPiece, Coded, CleanChar, NeedsNoCode, IsSpace;
    var c, rest := w[0], UriWrite(w[1..], code);
    assert CleanChar(c);
    PieceFacts(c, code);
    PlainFirst(UriPiece(c, code), rest);
    if |w| > 1 {
      UriLast(w[1..], code);
    } else {
      assert rest == "";
      PlainNothing();
      assert UriPiece(c, code) + "" == UriPiece(c, code) && Plain(UriPiece(c, code)) + "" == Plain(UriPiece(c, code));
    }
  }

  lemma PlainNothing()
    ensures Plain("") == ""
  {
  }

  lemma UriUnbind(w: string, code: char -> string)
    requires Clean(w) && Coded(code)
    ensures All(UriWrite(w, code), FieldChar) && NoSpaceEnd(UriWrite(w, code))
    ensures CpeUnbind(UriWrite(w, code)) == w <==> UriPlain(w)
  {
    hide Plain, Coded, UriWrite, CpeUnbind, NeedsNoCode, CleanChar, FieldChar;
    PlainOfUri(w, code);
    var u := UriWrite(w, code);
    if w == "" {
      NothingWritten(code);
    } else {
      UriEnds(w, code);
      UnbindField(u);
      TrimKeeps(Plain(u), IsSpace);
      LoneHyphen(code);
    }
  }

  lemma NothingWritten(code: char -> string)
    ensures UriWrite("", code) == "" && CpeUnbind("") == ""
  {
  }

  lemma LoneHyphen(code: char -> string)
    ensures UriWrite("-", code) == "-"
  {
    assert "-"[1..] == "";
  }

  /** Writing a product as a URI and parsing it gives the product back exactly for the canonical products
      in which nothing needs percent-encoding, with or without a version. */
  lemma UriRoundTripIff(part: string, ap: AffectedProduct, code: char -> string, tail: string)
    requires NoneOf(part, ':') && All(part, NotUpper) && Coded(code)
    requires tail != "" ==> tail[0] == ':'
    ensures ParseCPE(UriName(part, ap, code, tail)) == Some(ap)
       <==> Canonical(ap) && UriPlain(ap.vendor) && UriPlain(ap.product) && UriPlain(ap.versionStart)
  {
    hide ParseCPE, Body, ShortBody, UriWrite, UriPlain, Coded, Clean, All, CpeUnbind, NoSpaceEnd, ToLower;
    ParsedIsCanonical(UriName(part, ap, code, tail));
    if Canonical(ap) {
      var v, p, ver := UriWrite(ap.vendor, code), UriWrite(ap.product, code), UriWrite(ap.versionStart, code);
      UriUnbind(ap.vendor, code);
      UriUnbind(ap.product, code);
      UriUnbind(ap.versionStart, code);
      if ap.versionStart == "" && tail == "" {
        ShortIsLower(false, part, v, p);
        ShortNameParses(false, part, v, p, URI + ShortBody(part, v, p));
        NothingIsPlain();
      } else {
        BodyIsLower(false, part, v, p, ver);
        NameParses(false, part, v, p, ver, URI + Body(part, v, p, ver), tail);
      }
    }
  }

  lemma NothingIsPlain()
    ensures UriPlain("")
  {
  }

  // ----- Escaped colons -----

  /** An escaped colon still splits the fields: of a vendor written v\:p the first half becomes the
      vendor, the second the product, and the product becomes the version. */
  lemma EscapedColonIsLost(v: string, p: string, product: string, version: string)
    requires v != "" && p != "" && product != ""
    requires All(v, IsLower) && All(p, IsLower) && All(product, IsLower)
    ensures ParseCPE(FORMATTED + Body("a", v + "\\:" + p, product, version)) ==
      Some(AffectedProduct(v, p, product, product))
  {
    hide Split, CpeUnbind, TrimRight, TrimSpace, Body, Plain, All, Fields;
    var body, tail := Body("a", v + "\\", p, product), ":" + version;
    ColonMoves(v, p, product, version);
    var head, rest := FORMATTED + body, TrimRight(ToLower(tail), IsSpace);
    UnbindWord(v, "\\");
    UnbindWord(p, "");
    UnbindWord(product, "");
    assert p + "" == p && product + "" == product;
    PlainWord(v, "\\");
    PlainWord(p, "");
    PlainWord(product, "");
    assert All(v + "\\", FieldChar) && All(p, FieldChar) && All(product, FieldChar);
    PartIsLower();
    BodyIsLower(true, "a", v + "\\", p, product);
    assert FORMATTED + Body("a", v + "\\:" + p, product, version) == head + tail;
    WordBodyEnds(v + "\\", p, product);
    TrimmedName(head, tail);
    TrimRightIsHead(ToLower(tail), IsSpace);
    assert head + rest == FORMATTED + (body + rest);
    FieldsOfBody(true, body + rest);
    SplitHead("a", v + "\\", p, product, rest);
  }

  lemma ColonMoves(v: string, p: string, product: string, version: string)
    ensures Body("a", v + "\\:" + p, product, version) == Body("a", v + "\\", p, product) + (":" + version)
  {
    BodyTail("a", v + "\\", p, product, ":" + version);
    var last := product + ":" + version;
    assert product + (":" + version) == last;
    assert (v + "\\:" + p) + ":" + last == (v + "\\") + ":" + (p + ":" + last);
  }

  lemma WordBodyEnds(v: string, p: string, w: string)
    requires w != "" && All(w, IsLower)
    ensures var b := Body("a", v, p, w); b != "" && !IsSpace(b[|b| - 1])
  {
    var b := Body("a", v, p, w);
    assert b[|b| - 1] == w[|w| - 1] && IsLower(w[|w| - 1]);
  }

  /** The part letter of an application. */
  lemma PartIsLower()
    ensures All("a", NotUpper)
  {
  }

  lemma {:induction false} PlainWord(w: string, tail: string)
    requires All(w, IsLower) && (tail == "" || tail == "\\")
    ensures Plain(w + tail) == w && All(w + tail, FieldChar)
  {
    if w != "" {
      assert IsLower(w[0]);
      assert (w + tail)[1..] == w[1..] + tail && w == [w[0]] + w[1..];
      PlainWord(w[1..], tail);
    } else {
      assert w + tail == tail;
    }
  }

  lemma UnbindWord(w: string, tail: string)
    requires All(w, IsLower) && w != "" && (tail == "" || tail == "\\")
    ensures CpeUnbind(w + tail) == w
  {
    PlainWord(w, tail);
    assert IsLower(w[0]) && IsLower(w[|w| - 1]) && (w + tail)[0] == w[0];
    UnbindField(w + tail);
    TrimKeeps(w, IsSpace);
  }

  /** A version taken from a CPE name admits, among versions that parse, only equal tuples, and
      labels the match exact. */
  lemma CpeVersionIsExact(cpe: string, version: string)
    requires ParseCPE(cpe).Some? && ParseCPE(cpe).value.versionStart != ""
    requires Parse(version).Parsed? && Parse(ParseCPE(cpe).value.versionStart).Parsed?
    ensures var ap := ParseCPE(cpe).value;
            && (Included(version, ap.versionStart, ap.versionEnd)
               <==> Parse(version).tuple == Parse(ap.versionStart).tuple)
            && Confidence(version, ap.versionStart, ap.versionEnd) == EXACT
  {
    hide Parse, Compare;
    CompareAntisymmetric(Parse(version).tuple, Parse(ParseCPE(cpe).value.versionStart).tuple);
  }
}
