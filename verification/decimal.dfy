/** Decimal text of unsigned and signed 64-bit integers, and the byte order Redis uses for members. */
module Decimal {
  import opened Prelude

  const UINT64_LIMIT: int := 0x1_0000_0000_0000_0000
  const INT64_LIMIT: int := 0x8000_0000_0000_0000

  predicate IsDigit(c: char) {
    '0' <= c <= '9'
  }

  predicate AllDigits(s: string) {
    forall i :: 0 <= i < |s| ==> IsDigit(s[i])
  }

  function DigitChar(d: nat): char
    requires d < 10
  {
    ['0', '1', '2', '3', '4', '5', '6', '7', '8', '9'][d]
  }

  function DigitValue(c: char): nat
    requires IsDigit(c)
  {
    c as nat - '0' as nat
  }

  /** Shortest decimal text, as strconv.FormatUint(n, 10) prints it. */
  function Format(n: nat): (s: string)
    ensures |s| > 0 && AllDigits(s)
  {
    if n < 10 then [DigitChar(n)] else Format(n / 10) + [DigitChar(n % 10)]
  }

  function FormatInt(i: int): string {
    if i < 0 then "-" + Format(-i) else Format(i)
  }

  function Value(s: string): nat
    requires AllDigits(s)
  {
    if s == "" then 0 else Value(s[..|s| - 1]) * 10 + DigitValue(s[|s| - 1])
  }

  /** strconv.ParseUint(s, 10, 64): digits only, at least one, and below 2^64. */
  function ParseUint(s: string): Option<nat> {
    if s != "" && AllDigits(s) && Value(s) < UINT64_LIMIT then Some(Value(s)) else None
  }

  /** strconv.ParseInt(s, 10, 64): an optional sign, then a magnitude within the signed range. */
  function ParseInt(s: string): Option<int> {
    var negative := s != "" && s[0] == '-';
    var digits := if s != "" && (s[0] == '-' || s[0] == '+') then s[1..] else s;
    match ParseUint(digits)
    case None => None
    case Some(parsed) =>
      var magnitude: int := parsed;
      var v: int := if negative then -magnitude else magnitude;
      if -INT64_LIMIT <= v < INT64_LIMIT then Some(v) else None
  }

  lemma {:induction false} ValueOfFormat(n: nat)
    ensures Value(Format(n)) == n
  {
    if n >= 10 {
      ValueOfFormat(n / 10);
      var s := Format(n);
      assert s[..|s| - 1] == Format(n / 10);
    } else {
      var s := Format(n);
      assert s[..|s| - 1] == "";
    }
  }

  lemma ParseUintFormat(n: nat)
    requires n < UINT64_LIMIT
    ensures ParseUint(Format(n)) == Some(n)
  {
    ValueOfFormat(n);
  }

  lemma ParseIntFormatInt(i: int)
    requires -INT64_LIMIT <= i < INT64_LIMIT
    ensures ParseInt(FormatInt(i)) == Some(i)
  {
    ValueOfFormat(if i < 0 then -i else i);
    if i < 0 {
      assert FormatInt(i)[1..] == Format(-i);
    } else {
      assert IsDigit(Format(i)[0]);
    }
  }

  lemma FormatInjective(a: nat, b: nat)
    requires Format(a) == Format(b)
    ensures a == b
  {
    ValueOfFormat(a);
    ValueOfFormat(b);
  }

  /** Splits at the first separator, as strings.Cut does. */
  function Cut(s: string, sep: char): Option<(string, string)> {
    if s == "" then None
    else if s[0] == sep then Some(("", s[1..]))
    else match Cut(s[1..], sep)
         case None => None
         case Some(parts) => Some(([s[0]] + parts.0, parts.1))
  }

  lemma {:induction false} CutAtSeparator(head: string, sep: char, tail: string)
    requires sep !in head
    ensures Cut(head + [sep] + tail, sep) == Some((head, tail))
  {
    var s := head + [sep] + tail;
    if head != "" {
      assert s[1..] == head[1..] + [sep] + tail;
      CutAtSeparator(head[1..], sep, tail);
      assert [head[0]] + head[1..] == head;
    } else {
      assert s[1..] == tail && s[0] == sep;
    }
  }

  lemma FormatIntHasNoColon(i: int)
    ensures ':' !in FormatInt(i)
  {
    assert AllDigits(Format(if i < 0 then -i else i));
  }

  /** Byte order of two strings: the order Redis and sort.Strings use. */
  predicate LexLess(a: string, b: string) {
    b != "" && (a == "" || a[0] < b[0] || (a[0] == b[0] && LexLess(a[1..], b[1..])))
  }

  lemma {:induction false} LexIrreflexive(a: string)
    ensures !LexLess(a, a)
  {
    if a != "" {
      LexIrreflexive(a[1..]);
    }
  }

  lemma {:induction false} LexTransitive(a: string, b: string, c: string)
    requires LexLess(a, b) && LexLess(b, c)
    ensures LexLess(a, c)
  {
    if a != "" && a[0] == b[0] == c[0] {
      LexTransitive(a[1..], b[1..], c[1..]);
    }
  }

  lemma {:induction false} LexTotal(a: string, b: string)
    ensures a == b || LexLess(a, b) || LexLess(b, a)
  {
    if a != "" && b != "" && a[0] == b[0] {
      LexTotal(a[1..], b[1..]);
      assert a == [a[0]] + a[1..] && b == [b[0]] + b[1..];
    }
  }

  lemma {:induction false} LexOfSnoc(a: string, c: char, b: string, d: char)
    requires |a| == |b|
    ensures LexLess(a + [c], b + [d]) <==> LexLess(a, b) || (a == b && c < d)
  {
    if a != "" {
      assert (a + [c])[1..] == a[1..] + [c] && (b + [d])[1..] == b[1..] + [d];
      LexOfSnoc(a[1..], c, b[1..], d);
      assert a == [a[0]] + a[1..] && b == [b[0]] + b[1..];
    }
  }

  lemma {:induction false} LexOfDigitsIsNumeric(a: string, b: string)
    requires AllDigits(a) && AllDigits(b) && |a| == |b|
    ensures LexLess(a, b) <==> Value(a) < Value(b)
    ensures a == b <==> Value(a) == Value(b)
  {
    if a != "" {
      var n := |a| - 1;
      assert a == a[..n] + [a[n]] && b == b[..n] + [b[n]];
      LexOfSnoc(a[..n], a[n], b[..n], b[n]);
      LexOfDigitsIsNumeric(a[..n], b[..n]);
    }
  }

  /** For ids printed with equally many digits the member order is the numeric order. */
  lemma EqualWidthOrder(a: nat, b: nat)
    requires |Format(a)| == |Format(b)|
    ensures LexLess(Format(a), Format(b)) <==> a < b
  {
    ValueOfFormat(a);
    ValueOfFormat(b);
    LexOfDigitsIsNumeric(Format(a), Format(b));
  }

  /** Without equal widths the two orders disagree: "10" sorts before "9". */
  lemma UnequalWidthDisagrees()
    ensures LexLess(Format(10), Format(9)) && !(10 < 9)
  {
    assert Format(10) == Format(1) + [DigitChar(0)] == "10";
    assert Format(9) == "9";
  }
}
