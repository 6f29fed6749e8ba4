/**
  Go's `strconv.Atoi` on a 64-bit platform, which the integer coercion of a
  text value relies on: an optional `+` or `-` followed by one or more ASCII
  digits, whose value lies in the signed 64-bit range. Anything else (the
  empty string, a lone sign, spaces, underscores, a decimal point, a value
  out of range) is an error.

  `Atoi` is the declarative definition; `ParseInt` is a digit-by-digit
  loop with an early overflow exit, proved equal to it; and Atoi reads back
  every int64 that `Itoa` writes.
*/
module StrConv {
  import opened Wrappers

  const MinInt: int := -0x8000_0000_0000_0000
  const MaxInt: int := 0x7fff_ffff_ffff_ffff

  predicate InInt64(n: int)
  {
    MinInt <= n <= MaxInt
  }

  predicate IsDigit(c: char)
  {
    '0' <= c <= '9'
  }

  function DigitVal(c: char): (d: nat)
    requires IsDigit(c)
    ensures d < 10
  {
    (c as int) - ('0' as int)
  }

  predicate AllDigits(s: string)
  {
    forall i | 0 <= i < |s| :: IsDigit(s[i])
  }

  /** The value of a digit string read most significant digit first. */
  function DecimalValue(s: string): nat
    requires AllDigits(s)
  {
    if s == [] then 0 else DecimalValue(s[..|s| - 1]) * 10 + DigitVal(s[|s| - 1])
  }

  function Pow10(n: nat): (p: nat)
    ensures p >= 1
  {
    if n == 0 then 1 else 10 * Pow10(n - 1)
  }

  /** Splits off the optional leading sign: (negative?, digits part). */
  function SplitSign(s: string): (bool, string)
  {
    if |s| > 0 && (s[0] == '+' || s[0] == '-') then (s[0] == '-', s[1..]) else (false, s)
  }

  /** The syntax Atoi accepts, regardless of range. */
  predicate IsInteger(s: string)
  {
    var digits := SplitSign(s).1;
    |digits| > 0 && AllDigits(digits)
  }

  /** The mathematical value of a well-formed integer text. */
  function IntegerValue(s: string): int
    requires IsInteger(s)
  {
    var (neg, digits) := SplitSign(s);
    var magnitude: int := DecimalValue(digits);
    if neg then -magnitude else magnitude
  }

  /**
    strconv.Atoi: the value of `s` when it is well formed and in range,
    None for a syntax or a range error.
  */
  function Atoi(s: string): (r: Option<int>)
    ensures r.Some? ==> IsInteger(s) && InInt64(r.value)
  {
    if IsInteger(s) && InInt64(IntegerValue(s)) then Some(IntegerValue(s)) else None
  }

  /** Texts of at most 18 digits never hit a range error (Go's fast path relies on this). */
  lemma ShortIntegersInRange(s: string)
    requires IsInteger(s) && |SplitSign(s).1| <= 18
    ensures Atoi(s) == Some(IntegerValue(s))
  {
    var digits := SplitSign(s).1;
    DecimalValueBound(digits);
    Pow10Monotonic(|digits|, 18);
    Pow10Eighteen();
  }

  lemma Pow10Eighteen()
    ensures Pow10(18) == 1_000_000_000_000_000_000
  {
    assert Pow10(6) == 1_000_000;
    assert Pow10(12) == 1_000_000_000_000;
  }

  lemma {:induction false} Pow10Monotonic(m: nat, n: nat)
    requires m <= n
    ensures Pow10(m) <= Pow10(n)
    decreases n
  {
    if m < n {
      Pow10Monotonic(m, n - 1);
    }
  }

  /** A string of n digits denotes a value below 10^n. */
  lemma {:induction false} DecimalValueBound(s: string)
    requires AllDigits(s)
    ensures DecimalValue(s) < Pow10(|s|)
    decreases |s|
  {
    if s != [] {
      var init := s[..|s| - 1];
      assert AllDigits(init);
      DecimalValueBound(init);
    }
  }

  /** Appending digits never decreases the value of a digit string. */
  lemma {:induction false} DecimalValuePrefix(s: string, j: nat)
    requires AllDigits(s) && j <= |s|
    ensures AllDigits(s[..j]) && DecimalValue(s[..j]) <= DecimalValue(s)
    decreases |s| - j
  {
    if j < |s| {
      var init := s[..|s| - 1];
      assert AllDigits(init);
      assert init[..j] == s[..j];
      DecimalValuePrefix(init, j);
      assert DecimalValue(s) == DecimalValue(init) * 10 + DigitVal(s[|s| - 1]);
    } else {
      assert s[..j] == s;
    }
  }

  /**
    A digit-by-digit parser: the sign, then the digits one by one,
    accumulating `n*10 + digit` and stopping once the magnitude passes
    2^63, the largest any int64 can have. It returns what Go's Atoi
    returns, although Go splits the work differently (a fast path without
    overflow checks below 19 bytes, ParseUint's uint64 overflow check
    followed by an int64 range check above).
  */
  method ParseInt(s: string) returns (r: Option<int>)
    ensures r == Atoi(s)
  {
    if |s| == 0 {
      return None;
    }
    var neg := false;
    var start := 0;
    if s[0] == '+' || s[0] == '-' {
      neg := s[0] == '-';
      start := 1;
      if |s| == 1 {
        return None;
      }
    }
    assert SplitSign(s) == (neg, s[start..]);
    var n := 0;
    var i := start;
    while i < |s|
      invariant start <= i <= |s|
      invariant AllDigits(s[start..i])
      invariant n == DecimalValue(s[start..i])
      invariant n <= -MinInt
    {
      if !IsDigit(s[i]) {
        assert !AllDigits(s[start..]) by {
          assert s[start..][i - start] == s[i];
        }
        return None;
      }
      assert s[start..i + 1][..i - start] == s[start..i];
      n := n * 10 + DigitVal(s[i]);
      i := i + 1;
      if n > -MinInt {
        if AllDigits(s[start..]) {
          assert s[start..][..i - start] == s[start..i];
          DecimalValuePrefix(s[start..], i - start);
        }
        return None;
      }
    }
    assert s[start..i] == s[start..];
    if neg {
      r := Some(-n);
    } else if n <= MaxInt {
      r := Some(n);
    } else {
      r := None;
    }
  }

  function DigitChar(d: nat): (c: char)
    requires d < 10
    ensures IsDigit(c) && DigitVal(c) == d
  {
    ('0' as int + d) as char
  }

  /** Canonical decimal text of a natural number. */
  function FormatNat(n: nat): (s: string)
    decreases n
  {
    if n < 10 then [DigitChar(n)] else FormatNat(n / 10) + [DigitChar(n % 10)]
  }

  /** strconv.Itoa: a leading `-` for negatives, no `+`, no leading zeros. */
  function Itoa(n: int): string
  {
    if n < 0 then "-" + FormatNat(-n) else FormatNat(n)
  }

  lemma {:induction false} FormatNatValue(n: nat)
    ensures |FormatNat(n)| > 0 && AllDigits(FormatNat(n))
    ensures FormatNat(n)[0] != '+' && FormatNat(n)[0] != '-'
    ensures DecimalValue(FormatNat(n)) == n
    decreases n
  {
    if n >= 10 {
      FormatNatValue(n / 10);
      var s := FormatNat(n);
      assert s[..|s| - 1] == FormatNat(n / 10);
    }
  }

  /** Atoi reads back every int64 that Itoa writes. */
  lemma AtoiItoa(n: int)
    requires InInt64(n)
    ensures Atoi(Itoa(n)) == Some(n)
  {
    if n < 0 {
      FormatNatValue(-n);
      assert SplitSign(Itoa(n)) == (true, FormatNat(-n));
    } else {
      FormatNatValue(n);
      assert SplitSign(Itoa(n)) == (false, FormatNat(n));
    }
  }
}
