/**
 * The parts of Go's strconv and integer arithmetic that the core relies on:
 * strconv.Atoi (decimal parse into a 64-bit int, with Go's syntax and range
 * errors), strconv.Itoa / fmt's %d (decimal rendering), and Go's truncating
 * remainder operator.
 */
module GoStrconv {

  const MaxUint64: int := 0xFFFF_FFFF_FFFF_FFFF
  const MaxInt64: int := 0x7FFF_FFFF_FFFF_FFFF
  const MinInt64: int := -0x8000_0000_0000_0000

  predicate IsDigit(c: char) { '0' <= c <= '9' }

  function DigitValue(c: char): (d: nat)
    requires IsDigit(c)
    ensures d < 10
  {
    (c as int) - ('0' as int)
  }

  function DigitChar(d: nat): (c: char)
    requires d < 10
    ensures IsDigit(c) && DigitValue(c) == d
  {
    (('0' as int) + d) as char
  }

  predicate AllDigits(s: string) { forall i :: 0 <= i < |s| ==> IsDigit(s[i]) }

  function Pow10(k: nat): (p: nat)
    ensures p >= 1
  {
    if k == 0 then 1 else 10 * Pow10(k - 1)
  }

  /** The value of a string of decimal digits, most significant first. */
  function Value(s: string): nat
    requires AllDigits(s)
  {
    if s == [] then 0 else 10 * Value(s[..|s| - 1]) + DigitValue(s[|s| - 1])
  }

  /** Decimal rendering of a natural number, as strconv.Itoa writes it. */
  function Digits(n: nat): (s: string)
    ensures |s| >= 1 && AllDigits(s)
    ensures Value(s) == n
    ensures s[0] == '0' ==> n == 0
  {
    if n < 10 then [DigitChar(n)]
    else
      var s := Digits(n / 10) + [DigitChar(n % 10)];
      assert s[..|s| - 1] == Digits(n / 10);
      s
  }

  /** strconv.Itoa, also what fmt's %d prints for an int. */
  function Itoa(n: int): (s: string)
    ensures |s| >= 1
  {
    if n < 0 then "-" + Digits(-n) else Digits(n)
  }

  /** How a parse ended: Go's nil error, *NumError{Err: ErrSyntax} or *NumError{Err: ErrRange}. */
  datatype ParseStatus = Parsed | SyntaxError | RangeError

  /**
   * The digit loop of strconv.ParseUint for base 10 and a 64-bit size: it
   * stops at the first non-digit (syntax error, value 0) or at the first
   * digit that would overflow 64 bits (range error, value MaxUint64),
   * whichever comes first.
   */
  function ScanUint(s: string, n: nat): (r: (int, ParseStatus))
    requires n <= MaxUint64
    ensures r.1 == Parsed ==> 0 <= r.0 <= MaxUint64
    ensures r.1 == RangeError ==> r.0 == MaxUint64
    ensures r.1 == SyntaxError ==> r.0 == 0
  {
    if s == [] then (n, Parsed)
    else if !IsDigit(s[0]) then (0, SyntaxError)
    else if n >= MaxUint64 / 10 + 1 then (MaxUint64, RangeError)
    else
      var n1 := n * 10 + DigitValue(s[0]);
      if n1 > MaxUint64 then (MaxUint64, RangeError) else ScanUint(s[1..], n1)
  }

  /** strconv.ParseUint(s, 10, 64). */
  function ParseUint(s: string): (int, ParseStatus)
  {
    if s == [] then (0, SyntaxError) else ScanUint(s, 0)
  }

  /**
   * strconv.Atoi(s) on a 64-bit platform, i.e. strconv.ParseInt(s, 10, 0):
   * an optional sign, then ParseUint; out-of-range magnitudes are clamped
   * to the int64 bounds and reported as a range error.
   */
  function Atoi(s: string): (r: (int, ParseStatus))
    ensures MinInt64 <= r.0 <= MaxInt64
    ensures r.1 == SyntaxError ==> r.0 == 0
  {
    if s == [] then (0, SyntaxError)
    else
      var neg := s[0] == '-';
      var body := if s[0] == '+' || s[0] == '-' then s[1..] else s;
      var (un, st) := ParseUint(body);
      if st == SyntaxError then (0, SyntaxError)
      else if !neg && un >= MaxInt64 + 1 then (MaxInt64, RangeError)
      else if neg && un > MaxInt64 + 1 then (MinInt64, RangeError)
      else if neg then (-un, st)
      else (un, st)
  }

  /** Go's % on signed integers: truncated division, so the remainder takes the dividend's sign. */
  function GoRem(a: int, b: int): (r: int)
    requires b > 0
    ensures -b < r < b
    ensures a >= 0 ==> r >= 0
    ensures a <= 0 ==> r <= 0
    ensures a >= 0 ==> r == a % b
  {
    if a >= 0 then a % b else -((-a) % b)
  }

  // ---------------------------------------------------------------------
  // Lemmas

  /** Peeling the most significant digit off a digit string. */
  lemma {:induction false} ValueHead(s: string)
    requires |s| >= 1 && AllDigits(s)
    ensures Value(s) == DigitValue(s[0]) * Pow10(|s| - 1) + Value(s[1..])
  {
    if |s| == 1 {
      assert s[..0] == [];
      assert s[1..] == [];
    } else {
      var init, t := s[..|s| - 1], s[1..];
      ValueHead(init);
      assert init[1..] == t[..|t| - 1];
      assert init[0] == s[0] && t[|t| - 1] == s[|s| - 1];
      ShiftDigit(DigitValue(s[0]), DigitValue(s[|s| - 1]), Pow10(|s| - 2), Value(init[1..]));
    }
  }

  /** Appending a digit to a number whose leading digit is h. */
  lemma ShiftDigit(h: int, d: int, p: int, w: int)
    ensures 10 * (h * p + w) + d == h * (10 * p) + (10 * w + d)
  {
  }

  /** A digit string of length k has a value below 10^k. */
  lemma {:induction false} ValueBound(s: string)
    requires AllDigits(s)
    ensures Value(s) < Pow10(|s|)
  {
    if s != [] {
      ValueBound(s[..|s| - 1]);
    }
  }

  /** One step of the digit scan, as plain arithmetic. */
  lemma ScanStep(n: nat, d: nat, p: nat, v: nat)
    requires d < 10 && p >= 1
    ensures n * (10 * p) + (d * p + v) == (n * 10 + d) * p + v
    ensures n * 10 + d <= (n * 10 + d) * p
  {
    assert (n * 10 + d) * p == n * 10 * p + d * p;
  }

  /** Scanning digits never overflows while the final value fits into 64 bits. */
  lemma {:induction false} ScanUintDigits(s: string, n: nat)
    requires AllDigits(s)
    requires n * Pow10(|s|) + Value(s) <= MaxUint64
    ensures ScanUint(s, n) == (n * Pow10(|s|) + Value(s), Parsed)
  {
    if s != [] {
      ValueHead(s);
      var d := DigitValue(s[0]);
      var rest := s[1..];
      var p := Pow10(|rest|);
      assert Pow10(|s|) == 10 * p;
      ScanStep(n, d, p, Value(rest));
      var n1 := n * 10 + d;
      assert n1 * p + Value(rest) == n * Pow10(|s|) + Value(s);
      assert n1 <= MaxUint64;
      assert n < MaxUint64 / 10 + 1;
      ScanUintDigits(rest, n1);
    }
  }

  /** Scanning digits whose value no longer fits into 64 bits ends in a range error. */
  lemma {:induction false} ScanUintOverflow(s: string, n: nat)
    requires AllDigits(s) && n <= MaxUint64
    requires n * Pow10(|s|) + Value(s) > MaxUint64
    ensures ScanUint(s, n).1 == RangeError
  {
    if s != [] {
      ValueHead(s);
      var d := DigitValue(s[0]);
      var rest := s[1..];
      var p := Pow10(|rest|);
      assert Pow10(|s|) == 10 * p;
      var n1 := n * 10 + d;
      if n < MaxUint64 / 10 + 1 && n1 <= MaxUint64 {
        ScanStep(n, d, p, Value(rest));
        assert n1 * p + Value(rest) == n * Pow10(|s|) + Value(s);
        ScanUintOverflow(rest, n1);
      }
    }
  }

  /** Atoi of a digit string: its value when that fits into an int64, a range error otherwise. */
  lemma AtoiDigits(s: string)
    requires |s| >= 1 && AllDigits(s)
    ensures Value(s) <= MaxInt64 ==> Atoi(s) == (Value(s), Parsed)
    ensures Value(s) > MaxInt64 ==> Atoi(s).1 == RangeError
  {
    assert s[0] != '-' && s[0] != '+';
    ParseUintDigits(s);
  }

  /** ParseUint of a digit string: its value when that fits into 64 bits, a range error otherwise. */
  lemma ParseUintDigits(s: string)
    requires |s| >= 1 && AllDigits(s)
    ensures Value(s) <= MaxUint64 ==> ParseUint(s) == (Value(s), Parsed)
    ensures Value(s) > MaxUint64 ==> ParseUint(s).1 == RangeError
  {
    if Value(s) <= MaxUint64 {
      ScanUintDigits(s, 0);
    } else {
      ScanUintOverflow(s, 0);
    }
  }

  /** Atoi reads back what Itoa writes, for every 64-bit integer. */
  lemma AtoiItoa(n: int)
    requires MinInt64 <= n <= MaxInt64
    ensures Atoi(Itoa(n)) == (n, Parsed)
  {
    var m := if n < 0 then -n else n;
    var ds := Digits(m);
    ScanUintDigits(ds, 0);
    if n < 0 {
      assert Itoa(n)[1..] == ds;
    } else {
      assert ds[0] != '-' && ds[0] != '+';
    }
  }

  /** A natural number in [10^(k-1), 10^k) is written with exactly k digits. */
  lemma {:induction false} DigitsLength(n: nat, k: nat)
    requires k >= 1 && Pow10(k - 1) <= n < Pow10(k)
    ensures |Digits(n)| == k
  {
    if k > 1 {
      DigitsLength(n / 10, k - 1);
    }
  }
}
