/** Decimal numerals: reading them as strconv.Atoi does, and writing them. */
module Numbers {
  import opened Text

  const INT_LIMIT := 0x8000_0000_0000_0000

  ghost predicate AllDigits(s: string) {
    forall i :: 0 <= i < |s| ==> IsDigit(s[i])
  }

  predicate DigitsOnly(s: string)
    ensures DigitsOnly(s) <==> AllDigits(s)
  {
    forall i :: 0 <= i < |s| ==> IsDigit(s[i])
  }

  function DigitValue(c: char): nat
    requires IsDigit(c)
  {
    (c - '0') as nat
  }

  function DigitOf(n: nat): (c: char)
    requires n < 10
    ensures IsDigit(c) && DigitValue(c) == n
  {
    '0' + n as char
  }

  /** The value of a numeral. */
  function Val(s: string): nat
    requires AllDigits(s)
  {
    if s == [] then 0 else 10 * Val(s[..|s| - 1]) + DigitValue(s[|s| - 1])
  }

  /** The result of strconv.Atoi: a number, a clamped number with an error, or 0 with an error. */
  datatype Number = Ok(n: int) | OutOfRange(n: int) | Syntax {
    /** The value seen by callers that ignore the error. */
    function Value(): int {
      if Syntax? then 0 else n
    }
  }

  function Atoi(s: string): Number {
    var signed := s != [] && (s[0] == '-' || s[0] == '+');
    var body := if signed then s[1..] else s;
    if body == [] || !DigitsOnly(body) then Syntax
    else
      var v: int := Val(body);
      if signed && s[0] == '-' then
        if v > INT_LIMIT then OutOfRange(-INT_LIMIT) else Ok(-v)
      else
        if v >= INT_LIMIT then OutOfRange(INT_LIMIT - 1) else Ok(v)
  }

  /** The decimal numeral of n, without leading zeros. */
  function Print(n: nat): (s: string)
    ensures s != [] && AllDigits(s) && Val(s) == n
  {
    if n < 10 then
      var s := [DigitOf(n)];
      assert s[..0] == [];
      s
    else
      var s := Print(n / 10) + [DigitOf(n % 10)];
      assert s[..|s| - 1] == Print(n / 10);
      s
  }

  lemma AtoiPrint(n: nat)
    requires n < INT_LIMIT
    ensures Atoi(Print(n)) == Ok(n)
  {
    assert IsDigit(Print(n)[0]);
  }

  /** What is read of a numeral with or without a sign: numbers of 64 bits, and an error beyond them. */
  lemma AtoiReads(n: nat, v: int)
    requires v == n
    ensures Atoi(Print(n)) == if v <= 9_223_372_036_854_775_807 then Ok(v) else OutOfRange(9_223_372_036_854_775_807)
    ensures Atoi("+" + Print(n)) == Atoi(Print(n))
    ensures Atoi("-" + Print(n)) ==
      if v <= 9_223_372_036_854_775_808 then Ok(-v) else OutOfRange(-9_223_372_036_854_775_808)
  {
    hide Print, Val;
    var s := Print(n);
    assert s != "" && DigitsOnly(s) && Val(s) == v;
    assert IsDigit(s[0]);
    assert ("+" + s)[1..] == s && ("-" + s)[1..] == s;
  }

  function Pow10(k: nat): nat {
    if k == 0 then 1 else 10 * Pow10(k - 1)
  }

  /** A numeral of k digits is below 10^k, and at least 10^(k-1) when it has no leading zero. */
  lemma {:induction false} PrintLength(n: nat)
    ensures n < Pow10(|Print(n)|)
    ensures n > 0 ==> Pow10(|Print(n)| - 1) <= n
  {
    if n >= 10 {
      PrintLength(n / 10);
    }
  }

  // ----- Numerals of equal length order like strings -----

  /** Character order of strings. */
  predicate Less(a: string, b: string) {
    b != [] && (a == [] || a[0] < b[0] || (a[0] == b[0] && Less(a[1..], b[1..])))
  }

  lemma {:induction false} LessConcat(a: string, a': string, b: string, b': string)
    requires |a| == |b|
    ensures Less(a + a', b + b') <==> Less(a, b) || (a == b && Less(a', b'))
  {
    if a == [] {
      assert a + a' == a' && b + b' == b';
    } else {
      assert (a + a')[1..] == a[1..] + a' && (b + b')[1..] == b[1..] + b';
      LessConcat(a[1..], a', b[1..], b');
      assert a == [a[0]] + a[1..] && b == [b[0]] + b[1..];
    }
  }

  lemma {:induction false} ValLess(a: string, b: string)
    requires |a| == |b| && AllDigits(a) && AllDigits(b)
    ensures Less(a, b) <==> Val(a) < Val(b)
    ensures a == b <==> Val(a) == Val(b)
  {
    if a != [] {
      var n := |a| - 1;
      ValLess(a[..n], b[..n]);
      assert a == a[..n] + [a[n]] && b == b[..n] + [b[n]];
      LessConcat(a[..n], [a[n]], b[..n], [b[n]]);
    }
  }
}
