/** Canonical decimal text of counters. */
module Numerals {
  import opened Base

  const I64_MAX: nat := 0x7FFF_FFFF_FFFF_FFFF

  function Digit(n: nat): char
    requires n < 10
  {
    '0' + n as char
  }

  function Decimal(n: nat): (s: string)
    ensures s != "" && ':' !in s
  {
    if n < 10 then [Digit(n)] else Decimal(n / 10) + [Digit(n % 10)]
  }

  predicate IsDigit(c: char) {
    '0' <= c <= '9'
  }

  predicate AllDigits(s: string) {
    forall i :: 0 <= i < |s| ==> IsDigit(s[i])
  }

  function Value(s: string): nat
    requires AllDigits(s)
  {
    if s == "" then 0 else 10 * Value(s[..|s| - 1]) + (s[|s| - 1] - '0') as nat
  }

  /** A protocol counter: decimal digits without a leading zero, at most the
      largest signed 64-bit number. */
  function ParseCount(s: string): Result<nat> {
    if s == "" || !AllDigits(s) || (|s| > 1 && s[0] == '0') then Err(ScopeInvalid)
    else if Value(s) > I64_MAX then Err(LimitExceeded)
    else Ok(Value(s))
  }

  lemma DecimalEnds(n: nat)
    ensures Decimal(n)[|Decimal(n)| - 1] == Digit(n % 10)
    ensures n < 10 <==> |Decimal(n)| == 1
    ensures n >= 10 ==> Decimal(n)[..|Decimal(n)| - 1] == Decimal(n / 10)
  {
  }

  lemma {:induction false} DecimalInjective(a: nat, b: nat)
    requires Decimal(a) == Decimal(b)
    ensures a == b
  {
    DecimalEnds(a);
    DecimalEnds(b);
    if a >= 10 {
      DecimalInjective(a / 10, b / 10);
    }
  }

  lemma {:induction false} DecimalReads(n: nat)
    ensures AllDigits(Decimal(n)) && Value(Decimal(n)) == n && (n > 0 ==> Decimal(n)[0] != '0')
  {
    DecimalEnds(n);
    if n >= 10 {
      DecimalReads(n / 10);
      var s := Decimal(n);
      assert s[..|s| - 1] == Decimal(n / 10);
    }
  }

  lemma DecimalExtends(v: nat, c: char)
    requires v > 0 && IsDigit(c)
    ensures Decimal(10 * v + (c - '0') as nat) == Decimal(v) + [c]
  {
    var d := (c - '0') as nat;
    assert (10 * v + d) / 10 == v && (10 * v + d) % 10 == d;
    assert Digit(d) == c;
  }

  lemma {:induction false} CanonicalDigits(s: string)
    requires s != "" && AllDigits(s) && (|s| > 1 ==> s[0] != '0')
    ensures s == Decimal(Value(s)) && (s[0] != '0' ==> Value(s) > 0)
  {
    var front, c := s[..|s| - 1], s[|s| - 1];
    assert s == front + [c] && Value(s) == 10 * Value(front) + (c - '0') as nat;
    if |s| > 1 {
      CanonicalDigits(front);
      DecimalExtends(Value(front), c);
    } else {
      assert front == "" && Digit((c - '0') as nat) == c;
    }
  }

  /** Counters and their texts correspond one to one. */
  lemma CountsRoundTrip(s: string, n: nat)
    ensures ParseCount(s) == Ok(n) <==> n <= I64_MAX && s == Decimal(n)
  {
    DecimalReads(n);
    if s == Decimal(n) {
      DecimalEnds(n);
    }
    if ParseCount(s).Ok? {
      CanonicalDigits(s);
    }
  }
}
