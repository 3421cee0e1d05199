/** The bits of text handling the dashboard relies on: decimal numerals as
    JavaScript writes them, and the part of a string before a separator. */
module Text {

  function DigitChar(d: nat): char
    requires d < 10
  {
    "0123456789"[d]
  }

  function DigitValue(c: char): int {
    c as int - '0' as int
  }

  /** JavaScript's decimal text of a natural number. */
  function NatToString(n: nat): (s: string)
    ensures |s| > 0
    ensures forall i :: 0 <= i < |s| ==> '0' <= s[i] <= '9'
  {
    if n < 10 then [DigitChar(n)] else NatToString(n / 10) + [DigitChar(n % 10)]
  }

  /** The value of a string of decimal digits. */
  function ParseNat(s: string): int {
    if s == [] then 0 else 10 * ParseNat(s[..|s| - 1]) + DigitValue(s[|s| - 1])
  }

  lemma {:induction false} NatRoundTrip(n: nat)
    ensures ParseNat(NatToString(n)) == n
  {
    var s := NatToString(n);
    if n >= 10 {
      NatRoundTrip(n / 10);
      assert s[..|s| - 1] == NatToString(n / 10);
    }
  }

  /** `${n}` for an integer `n`. */
  function IntToString(n: int): (s: string)
    ensures |s| > 0
    ensures forall i :: 0 <= i < |s| ==> s[i] != ' '
  {
    if n < 0 then "-" + NatToString(-n) else NatToString(n)
  }

  /** The value of an optionally negative decimal numeral. */
  function ParseInt(s: string): int {
    if |s| > 0 && s[0] == '-' then -ParseNat(s[1..]) else ParseNat(s)
  }

  lemma IntRoundTrip(n: int)
    ensures ParseInt(IntToString(n)) == n
  {
    if n < 0 {
      NatRoundTrip(-n);
      assert IntToString(n)[1..] == NatToString(-n);
    } else {
      NatRoundTrip(n);
    }
  }

  /** `s.split(sep)[0]`: the text before the first `sep`. */
  function BeforeFirst(s: string, sep: char): (prefix: string)
    ensures prefix <= s
    ensures sep !in prefix
    ensures |prefix| < |s| ==> s[|prefix|] == sep
  {
    if s == [] || s[0] == sep then [] else [s[0]] + BeforeFirst(s[1..], sep)
  }

  /** The text before the first `sep` of `a + b` is `a` when `a` has no
      `sep` and `b` starts with one. */
  lemma {:induction false} BeforeFirstOfJoin(a: string, b: string, sep: char)
    requires sep !in a && |b| > 0 && b[0] == sep
    ensures BeforeFirst(a + b, sep) == a
  {
    if a == [] {
      assert a + b == b;
    } else {
      assert (a + b)[1..] == a[1..] + b;
      BeforeFirstOfJoin(a[1..], b, sep);
    }
  }

  /** The text after the first `sep`, or nothing when there is none. */
  function AfterFirst(s: string, sep: char): (rest: string)
    ensures |rest| <= |s|
  {
    if s == [] then [] else if s[0] == sep then s[1..] else AfterFirst(s[1..], sep)
  }

  lemma {:induction false} AfterFirstOfJoin(a: string, b: string, sep: char)
    requires sep !in a
    ensures AfterFirst(a + [sep] + b, sep) == b
  {
    if a == [] {
      assert a + [sep] + b == [sep] + b;
    } else {
      assert (a + [sep] + b)[1..] == a[1..] + [sep] + b;
      AfterFirstOfJoin(a[1..], b, sep);
    }
  }

  /** Text without `sep` is all before the first `sep`. */
  lemma BeforeFirstWhole(s: string, sep: char)
    requires sep !in s
    ensures BeforeFirst(s, sep) == s
  {
  }
}
