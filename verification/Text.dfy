/** The string operations the program uses, with their Go meaning on ASCII letters:
    lower-casing, trimming, prefixes, substring search, replacement and splitting. */
module Text {

  datatype Option<+T> = None | Some(value: T)

  /** unicode.IsSpace */
  predicate IsSpace(c: char) {
    || '\t' <= c <= '\r' || c == ' ' || c == '\U{85}' || c == '\U{A0}' || c == '\U{1680}'
    || '\U{2000}' <= c <= '\U{200A}' || c == '\U{2028}' || c == '\U{2029}' || c == '\U{202F}'
    || c == '\U{205F}' || c == '\U{3000}'
  }

  predicate IsDigit(c: char) {
    '0' <= c <= '9'
  }

  predicate IsLower(c: char) {
    'a' <= c <= 'z'
  }

  function LowerChar(c: char): char {
    if 'A' <= c <= 'Z' then c - 'A' + 'a' else c
  }

  function UpperChar(c: char): char {
    if 'a' <= c <= 'z' then c - 'a' + 'A' else c
  }

  function ToLower(s: string): (r: string)
    ensures |r| == |s| && forall i :: 0 <= i < |s| ==> r[i] == LowerChar(s[i])
  {
    seq(|s|, i requires 0 <= i < |s| => LowerChar(s[i]))
  }

  function ToUpper(s: string): (r: string)
    ensures |r| == |s| && forall i :: 0 <= i < |s| ==> r[i] == UpperChar(s[i])
  {
    seq(|s|, i requires 0 <= i < |s| => UpperChar(s[i]))
  }

  function TrimLeft(s: string, cut: char -> bool): string {
    if s != [] && cut(s[0]) then TrimLeft(s[1..], cut) else s
  }

  function TrimRight(s: string, cut: char -> bool): string {
    if s != [] && cut(s[|s| - 1]) then TrimRight(s[..|s| - 1], cut) else s
  }

  function Trim(s: string, cut: char -> bool): string {
    TrimRight(TrimLeft(s, cut), cut)
  }

  function TrimSpace(s: string): string {
    Trim(s, IsSpace)
  }

  function TrimPrefix(s: string, prefix: string): string {
    if prefix <= s then s[|prefix|..] else s
  }

  predicate HasSuffix(s: string, suffix: string) {
    |suffix| <= |s| && s[|s| - |suffix|..] == suffix
  }

  predicate OccursAt(s: string, part: string, i: int) {
    0 <= i <= |s| - |part| && s[i..i + |part|] == part
  }

  predicate Contains(s: string, part: string) {
    exists i :: 0 <= i <= |s| && OccursAt(s, part, i)
  }

  /** Replaces the non-overlapping occurrences of `old`, from the left. */
  function ReplaceAll(s: string, old_: string, new_: string): string
    requires old_ != []
  {
    if s == [] then []
    else if old_ <= s then new_ + ReplaceAll(s[|old_|..], old_, new_)
    else [s[0]] + ReplaceAll(s[1..], old_, new_)
  }

  /** The pieces between the occurrences of `sep`; always at least one. */
  function Split(s: string, sep: char): (parts: seq<string>)
    ensures |parts| > 0
  {
    if s == [] then [[]]
    else if s[0] == sep then [[]] + Split(s[1..], sep)
    else var rest := Split(s[1..], sep); [[s[0]] + rest[0]] + rest[1..]
  }

  function Join(parts: seq<string>, sep: char): string
    requires |parts| > 0
  {
    if |parts| == 1 then parts[0] else parts[0] + [sep] + Join(parts[1..], sep)
  }

  ghost predicate All(s: string, p: char -> bool) {
    forall i :: 0 <= i < |s| ==> p(s[i])
  }

  ghost predicate NoneOf(s: string, c: char) {
    forall i :: 0 <= i < |s| ==> s[i] != c
  }

  // ----- Laws -----

  lemma {:induction false} TrimLeftCuts(pre: string, s: string, cut: char -> bool)
    requires All(pre, cut) && s != [] && !cut(s[0])
    ensures TrimLeft(pre + s, cut) == s
  {
    if pre == [] {
      assert pre + s == s;
    } else {
      assert (pre + s)[1..] == pre[1..] + s;
      TrimLeftCuts(pre[1..], s, cut);
    }
  }

  lemma {:induction false} TrimRightCuts(s: string, post: string, cut: char -> bool)
    requires All(post, cut) && s != [] && !cut(s[|s| - 1])
    ensures TrimRight(s + post, cut) == s
  {
    if post == [] {
      assert s + post == s;
    } else {
      assert (s + post)[..|s + post| - 1] == s + post[..|post| - 1];
      assert (s + post)[|s + post| - 1] == post[|post| - 1];
      TrimRightCuts(s, post[..|post| - 1], cut);
    }
  }

  lemma TrimCuts(pre: string, s: string, post: string, cut: char -> bool)
    requires All(pre, cut) && All(post, cut)
    requires s != [] && !cut(s[0]) && !cut(s[|s| - 1])
    ensures Trim(pre + s + post, cut) == s
  {
    assert pre + s + post == pre + (s + post);
    TrimLeftCuts(pre, s + post, cut);
    TrimRightCuts(s, post, cut);
  }

  lemma TrimKeeps(s: string, cut: char -> bool)
    requires s != [] ==> !cut(s[0]) && !cut(s[|s| - 1])
    ensures Trim(s, cut) == s
  {
  }

  lemma {:induction false} TrimLeftIsTail(s: string, cut: char -> bool)
    ensures exists n :: 0 <= n <= |s| && TrimLeft(s, cut) == s[n..]
    ensures TrimLeft(s, cut) != [] ==> !cut(TrimLeft(s, cut)[0])
  {
    if s != [] && cut(s[0]) {
      TrimLeftIsTail(s[1..], cut);
      var n :| 0 <= n <= |s[1..]| && TrimLeft(s[1..], cut) == s[1..][n..];
      assert s[1..][n..] == s[n + 1..];
    } else {
      assert s == s[0..];
    }
  }

  lemma {:induction false} TrimRightIsHead(s: string, cut: char -> bool)
    ensures exists n :: 0 <= n <= |s| && TrimRight(s, cut) == s[..n]
    ensures TrimRight(s, cut) != [] ==> !cut(TrimRight(s, cut)[|TrimRight(s, cut)| - 1])
  {
    if s != [] && cut(s[|s| - 1]) {
      var init := s[..|s| - 1];
      TrimRightIsHead(init, cut);
      var n :| 0 <= n <= |init| && TrimRight(init, cut) == init[..n];
      assert init[..n] == s[..n];
    } else {
      assert s == s[..|s|];
    }
  }

  lemma {:induction false} TrimRightTail(s: string, tail: string, cut: char -> bool)
    requires s != [] && !cut(s[|s| - 1])
    ensures TrimRight(s + tail, cut) == s + TrimRight(tail, cut)
  {
    if tail == [] {
      assert s + tail == s;
    } else {
      assert (s + tail)[..|s + tail| - 1] == s + tail[..|tail| - 1];
      if cut(tail[|tail| - 1]) {
        TrimRightTail(s, tail[..|tail| - 1], cut);
      }
    }
  }

  /** A trimmed string is a slice of the original that neither starts nor ends with a cut character. */
  lemma TrimIsSlice(s: string, cut: char -> bool)
    ensures exists i, j :: 0 <= i <= j <= |s| && Trim(s, cut) == s[i..j]
    ensures Trim(s, cut) != [] ==> !cut(Trim(s, cut)[0]) && !cut(Trim(s, cut)[|Trim(s, cut)| - 1])
  {
    hide TrimLeft, TrimRight;
    TrimLeftIsTail(s, cut);
    var l := TrimLeft(s, cut);
    var i :| 0 <= i <= |s| && l == s[i..];
    TrimRightIsHead(l, cut);
    var n :| 0 <= n <= |l| && TrimRight(l, cut) == l[..n];
    assert l[..n] == s[i..i + n];
  }

  /** Nothing to replace when the first character of `old` does not occur. */
  lemma {:induction false} ReplaceNothing(s: string, old_: string, new_: string)
    requires old_ != [] && NoneOf(s, old_[0])
    ensures ReplaceAll(s, old_, new_) == s
  {
    if s != [] {
      assert s[0] != old_[0];
      ReplaceNothing(s[1..], old_, new_);
    }
  }

  lemma {:induction false} SplitNone(s: string, sep: char)
    requires NoneOf(s, sep)
    ensures Split(s, sep) == [s]
  {
    if s != [] {
      assert s[0] != sep;
      SplitNone(s[1..], sep);
      assert [s[0]] + s[1..] == s;
    }
  }

  lemma {:induction false} SplitFirst(first: string, rest: string, sep: char)
    requires NoneOf(first, sep)
    ensures Split(first + [sep] + rest, sep) == [first] + Split(rest, sep)
  {
    var s := first + [sep] + rest;
    if first == [] {
      assert s == [sep] + rest;
      assert s[1..] == rest;
    } else {
      assert s[1..] == first[1..] + [sep] + rest;
      assert s[0] != sep;
      SplitFirst(first[1..], rest, sep);
      assert [first[0]] + first[1..] == first;
    }
  }

  /** Splitting undoes joining when no piece contains the separator. */
  lemma {:induction false} SplitJoin(parts: seq<string>, sep: char)
    requires |parts| > 0 && forall i :: 0 <= i < |parts| ==> NoneOf(parts[i], sep)
    ensures Split(Join(parts, sep), sep) == parts
  {
    if |parts| == 1 {
      SplitNone(parts[0], sep);
    } else {
      SplitJoin(parts[1..], sep);
      SplitFirst(parts[0], Join(parts[1..], sep), sep);
    }
  }

  /** Joining undoes splitting, and no piece contains the separator. */
  lemma {:induction false} JoinSplit(s: string, sep: char)
    ensures Join(Split(s, sep), sep) == s
    ensures forall i :: 0 <= i < |Split(s, sep)| ==> NoneOf(Split(s, sep)[i], sep)
  {
    if s != [] {
      JoinSplit(s[1..], sep);
      var rest := Split(s[1..], sep);
      if s[0] != sep {
        var parts := [[s[0]] + rest[0]] + rest[1..];
        if |rest| > 1 {
          assert parts[1..] == rest[1..];
        }
      }
    }
  }

  /** What stands before and behind the first separator. */
  lemma FirstPart(a: string, b: string, a': string, b': string, sep: char)
    requires NoneOf(a, sep) && NoneOf(a', sep)
    requires a + [sep] + b == a' + [sep] + b'
    ensures a == a' && b == b'
  {
    SplitFirst(a, b, sep);
    SplitFirst(a', b', sep);
    JoinSplit(b, sep);
    JoinSplit(b', sep);
    hide Split, Join;
    assert ([a] + Split(b, sep))[1..] == Split(b, sep) && ([a'] + Split(b', sep))[1..] == Split(b', sep);
    assert ([a] + Split(b, sep))[0] == a && ([a'] + Split(b', sep))[0] == a';
  }
}
