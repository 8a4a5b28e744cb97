/** Go's 64-bit `int`, `strconv.Atoi` and decimal formatting (`strconv.Itoa`,
    the `%d` verb), as the handlers use them to read path ids and query
    parameters and to build upload file names. */
module GoConv {
  import opened Wrappers

  const MinInt64: int := -0x8000_0000_0000_0000
  const MaxInt64: int := 0x7FFF_FFFF_FFFF_FFFF
  const MaxUint64: int := 0xFFFF_FFFF_FFFF_FFFF
  const TwoTo64: int := 0x1_0000_0000_0000_0000

  predicate InInt64(x: int) {
    MinInt64 <= x <= MaxInt64
  }

  /** The value a 64-bit two's-complement Go `int` holds after an operation
      whose exact result is `x` (Go integer arithmetic wraps silently). */
  function Wrap64(x: int): (r: int)
    ensures InInt64(r)
    ensures (x - r) % TwoTo64 == 0
    ensures InInt64(x) ==> r == x
  {
    var m := (x - MinInt64) % TwoTo64;
    assert x - MinInt64 == TwoTo64 * ((x - MinInt64) / TwoTo64) + m;
    m + MinInt64
  }

  /** Wrapping depends only on the value modulo 2^64: congruent exact
      results leave the same value in a Go `int`. */
  lemma Wrap64Congruent(x: int, y: int)
    requires (x - y) % TwoTo64 == 0
    ensures Wrap64(x) == Wrap64(y)
  {
    var rx, ry := Wrap64(x), Wrap64(y);
    assert (rx - ry) % TwoTo64 == 0 by {
      assert rx - ry == (x - y) - (x - rx) + (y - ry);
      ModSum(x - y, -(x - rx), y - ry);
    }
  }

  lemma ModSum(a: int, b: int, c: int)
    requires a % TwoTo64 == 0 && (-b) % TwoTo64 == 0 && c % TwoTo64 == 0
    ensures (a + b + c) % TwoTo64 == 0
  {
    var qa, qb, qc := a / TwoTo64, (-b) / TwoTo64, c / TwoTo64;
    assert a == TwoTo64 * qa && -b == TwoTo64 * qb && c == TwoTo64 * qc;
    assert a + b + c == TwoTo64 * (qa - qb + qc);
  }

  predicate IsDigit(c: char) {
    '0' <= c <= '9'
  }

  predicate AllDigits(s: string) {
    forall k :: 0 <= k < |s| ==> IsDigit(s[k])
  }

  function DigitValue(c: char): nat
    requires IsDigit(c)
  {
    (c as int) - ('0' as int)
  }

  function DigitChar(d: nat): (c: char)
    requires d < 10
    ensures IsDigit(c) && DigitValue(c) == d
  {
    (('0' as int) + d) as char
  }

  /** The decimal value of the digit string `s` read left to right, starting
      from the accumulated value `acc` (the accumulator of a parsing loop). */
  function ValueFrom(s: string, acc: nat): nat
    requires AllDigits(s)
    decreases |s|
  {
    if |s| == 0 then acc else ValueFrom(s[1..], acc * 10 + DigitValue(s[0]))
  }

  /** A well-formed decimal: an optional '+' or '-' followed by at least one
      ASCII digit, nothing else (no spaces, no underscores, no base prefix). */
  predicate IsDecimal(s: string) {
    && |s| > 0
    && if s[0] == '+' || s[0] == '-' then |s| > 1 && AllDigits(s[1..]) else AllDigits(s)
  }

  /** The mathematical value of a well-formed decimal. */
  function DecimalValue(s: string): int
    requires IsDecimal(s)
  {
    if s[0] == '-' then -(ValueFrom(s[1..], 0) as int)
    else if s[0] == '+' then ValueFrom(s[1..], 0)
    else ValueFrom(s, 0)
  }

  /** Outcome of the unsigned scan inside `strconv.ParseUint(s, 10, 64)`. */
  datatype UintScan = UintOk(n: nat) | UintSyntax | UintRange

  /** Go's scan loop: characters are consumed left to right; a non-digit is a
      syntax error, and the first digit that would push the accumulator past
      2^64 - 1 is a range error, whatever follows it. */
  function ScanUint(s: string, acc: nat): (r: UintScan)
    requires acc <= MaxUint64
    ensures r.UintOk? ==> AllDigits(s) && r.n == ValueFrom(s, acc) && r.n <= MaxUint64
    decreases |s|
  {
    if |s| == 0 then UintOk(acc)
    else if !IsDigit(s[0]) then UintSyntax
    else if acc * 10 + DigitValue(s[0]) > MaxUint64 then UintRange
    else ScanUint(s[1..], acc * 10 + DigitValue(s[0]))
  }

  /** What `strconv.Atoi` reports: a value, a syntax error (value 0), or a
      range error, for which Go still returns the value clamped to the
      nearest 64-bit bound. */
  datatype IntParse = Parsed(value: int) | SyntaxError | RangeError(clamped: int)

  /** `strconv.Atoi` on a 64-bit platform, i.e. `strconv.ParseInt(s, 10, 64)`;
      Go's fast path for strings shorter than 19 bytes gives the same answers. */
  function Atoi(s: string): (r: IntParse)
    ensures r.Parsed? ==> IsDecimal(s) && InInt64(r.value) && r.value == DecimalValue(s)
    ensures r.SyntaxError? ==> !IsDecimal(s)
    ensures r.RangeError? ==> r.clamped == MaxInt64 || r.clamped == MinInt64
    ensures IsDecimal(s) ==> (r.Parsed? <==> InInt64(DecimalValue(s)))
  {
    if |s| == 0 then SyntaxError
    else
      var neg := s[0] == '-';
      var digits := if s[0] == '+' || s[0] == '-' then s[1..] else s;
      var scan := if |digits| == 0 then UintSyntax else ScanUint(digits, 0);
      ScanAllDigits(digits, 0);
      match scan
      case UintSyntax => SyntaxError
      case UintRange => if neg then RangeError(MinInt64) else RangeError(MaxInt64)
      case UintOk(un) =>
        if !neg && un > MaxInt64 then RangeError(MaxInt64)
        else if neg && un > -MinInt64 then RangeError(MinInt64)
        else Parsed(if neg then -(un as int) else un)
  }

  /** The `int` Go's `n, _ := strconv.Atoi(s)` leaves in `n` when the error
      is discarded: the value, 0 on a syntax error, the clamped bound on a
      range error. */
  function AtoiIgnoringError(s: string): (n: int)
    ensures InInt64(n)
    ensures IsDecimal(s) && InInt64(DecimalValue(s)) ==> n == DecimalValue(s)
    ensures !IsDecimal(s) && Atoi(s).SyntaxError? ==> n == 0
  {
    match Atoi(s)
    case Parsed(v) => v
    case SyntaxError => 0
    case RangeError(c) => c
  }

  /** The id a handler reads from a path segment with `strconv.Atoi`, or
      None when Go reports an error of either kind. */
  function ParseId(s: string): (r: Option<int>)
    ensures r.Some? <==> IsDecimal(s) && InInt64(DecimalValue(s))
    ensures r.Some? ==> r.value == DecimalValue(s)
  {
    if Atoi(s).Parsed? then Some(Atoi(s).value) else None
  }

  /** The decimal digits of `n` with no leading zero. */
  function NatToDecimal(n: nat): (s: string)
    ensures |s| > 0 && AllDigits(s)
    ensures |s| > 1 ==> s[0] != '0'
    decreases n
  {
    if n < 10 then [DigitChar(n)] else NatToDecimal(n / 10) + [DigitChar(n % 10)]
  }

  /** `strconv.Itoa(n)`, also what `fmt.Sprintf("%d", n)` prints. */
  function Itoa(n: int): (s: string)
    ensures |s| > 0
    ensures forall k :: 0 <= k < |s| ==> IsDigit(s[k]) || (k == 0 && s[k] == '-')
  {
    if n < 0 then "-" + NatToDecimal(-n) else NatToDecimal(n)
  }

  lemma {:induction false} ValueFromAppend(s: string, c: char, acc: nat)
    requires AllDigits(s) && IsDigit(c)
    ensures AllDigits(s + [c])
    ensures ValueFrom(s + [c], acc) == ValueFrom(s, acc) * 10 + DigitValue(c)
    decreases |s|
  {
    if |s| == 0 {
      assert (s + [c])[1..] == [];
    } else {
      assert (s + [c])[1..] == s[1..] + [c];
      ValueFromAppend(s[1..], c, acc * 10 + DigitValue(s[0]));
    }
  }

  lemma {:induction false} ValueFromGrows(s: string, acc: nat)
    requires AllDigits(s)
    ensures ValueFrom(s, acc) >= acc
    ensures |s| > 0 ==> ValueFrom(s, acc) >= acc * 10 + DigitValue(s[0])
    decreases |s|
  {
    if |s| > 0 {
      ValueFromGrows(s[1..], acc * 10 + DigitValue(s[0]));
    }
  }

  /** On a digit string Go's scan fails only by overflow, and exactly when the
      value exceeds 2^64 - 1. */
  lemma {:induction false} ScanAllDigits(s: string, acc: nat)
    requires acc <= MaxUint64
    ensures AllDigits(s) && ValueFrom(s, acc) <= MaxUint64 ==> ScanUint(s, acc) == UintOk(ValueFrom(s, acc))
    ensures AllDigits(s) && ValueFrom(s, acc) > MaxUint64 ==> ScanUint(s, acc) == UintRange
    ensures ScanUint(s, acc) == UintSyntax ==> !AllDigits(s)
    decreases |s|
  {
    if |s| > 0 && IsDigit(s[0]) {
      var next := acc * 10 + DigitValue(s[0]);
      if next <= MaxUint64 {
        ScanAllDigits(s[1..], next);
        if ScanUint(s, acc) == UintSyntax {
          assert !AllDigits(s[1..]);
          var k :| 0 <= k < |s[1..]| && !IsDigit(s[1..][k]);
          assert !IsDigit(s[k + 1]);
        }
      } else if AllDigits(s) {
        ValueFromGrows(s[1..], next);
      }
    }
  }

  /** Formatting then parsing gives the number back: decimal digits are a
      faithful encoding of naturals. */
  lemma {:induction false} DecimalRoundTrip(n: nat)
    ensures ValueFrom(NatToDecimal(n), 0) == n
    decreases n
  {
    if n >= 10 {
      DecimalRoundTrip(n / 10);
      ValueFromAppend(NatToDecimal(n / 10), DigitChar(n % 10), 0);
    }
  }

  /** `strconv.Atoi(strconv.Itoa(n)) == n` for every 64-bit int. */
  lemma AtoiItoa(n: int)
    requires InInt64(n)
    ensures IsDecimal(Itoa(n)) && DecimalValue(Itoa(n)) == n
    ensures Atoi(Itoa(n)) == Parsed(n)
  {
    if n < 0 {
      DecimalRoundTrip(-n);
      assert Itoa(n)[1..] == NatToDecimal(-n);
    } else {
      DecimalRoundTrip(n);
    }
  }

  /** Distinct numbers print differently, whatever their size. */
  lemma ItoaInjective(a: int, b: int)
    requires Itoa(a) == Itoa(b)
    ensures a == b
  {
    var sa := Itoa(a);
    if a < 0 {
      DecimalRoundTrip(-a);
      assert sa[1..] == NatToDecimal(-a);
    } else {
      DecimalRoundTrip(a);
    }
    if b < 0 {
      DecimalRoundTrip(-b);
      assert sa[1..] == NatToDecimal(-b);
    } else {
      DecimalRoundTrip(b);
    }
  }
}
