/**
 Go's integer text conversions as used by the client: `strconv.ParseInt(s, 10, 64)`,
 `strconv.Atoi` (identical on a 64-bit platform except for the function name in the
 error) and `strconv.Itoa`, plus Go's truncating `/` and `%`.
 */
module Strconv {
  import opened Wrappers

  const MaxUint64: int := 0xFFFF_FFFF_FFFF_FFFF
  const MaxInt64: int := 0x7FFF_FFFF_FFFF_FFFF
  const MinInt64: int := -0x8000_0000_0000_0000

  predicate IsInt64(n: int) {
    MinInt64 <= n <= MaxInt64
  }

  datatype NumErrorKind = InvalidSyntax | OutOfRange

  /** `*strconv.NumError`: the function that failed, its input, and why. */
  datatype NumError = NumError(func: string, num: string, kind: NumErrorKind)

  predicate IsDigit(c: char) {
    '0' <= c <= '9'
  }

  function DigitValue(c: char): (d: nat)
    requires IsDigit(c)
    ensures d < 10
  {
    (c as int) - ('0' as int)
  }

  function DigitChar(d: nat): (c: char)
    requires d < 10
    ensures IsDigit(c) && DigitValue(c) == d
  {
    (('0' as int) + d) as char
  }

  predicate AllDigits(s: string) {
    forall i :: 0 <= i < |s| ==> IsDigit(s[i])
  }

  /** Decimal value of a digit string read left to right, starting from `acc`. */
  function Value(acc: nat, s: string): nat
    requires AllDigits(s)
    decreases |s|
  {
    if s == [] then acc else Value(acc * 10 + DigitValue(s[0]), s[1..])
  }

  /**
   The digit loop of `strconv.ParseUint` (base 10): a non-digit is a syntax error,
   and the first digit that pushes the value past 2^64-1 is a range error, whichever
   comes first.
   */
  function ScanDigits(acc: nat, s: string): Result<nat, NumErrorKind>
    decreases |s|
  {
    if s == [] then Ok(acc)
    else if !IsDigit(s[0]) then Err(InvalidSyntax)
    else if acc * 10 + DigitValue(s[0]) > MaxUint64 then Err(OutOfRange)
    else ScanDigits(acc * 10 + DigitValue(s[0]), s[1..])
  }

  /** `strconv.ParseInt(s, 10, 64)`, reporting errors under the name `func`. */
  function ParseIntNamed(func: string, s: string): (r: Result<int, NumError>)
    ensures r.Ok? ==> IsInt64(r.value)
    ensures r.Err? ==> r.error.num == s && r.error.func == func
    ensures s == [] ==> r == Err(NumError(func, s, InvalidSyntax))
  {
    if s == [] then Err(NumError(func, s, InvalidSyntax))
    else
      var neg := s[0] == '-';
      var body := if s[0] == '+' || s[0] == '-' then s[1..] else s;
      if body == [] then Err(NumError(func, s, InvalidSyntax))
      else match ScanDigits(0, body)
        case Err(k) => Err(NumError(func, s, k))
        case Ok(u) =>
          if !neg && u > MaxInt64 then Err(NumError(func, s, OutOfRange))
          else if neg && u > -MinInt64 then Err(NumError(func, s, OutOfRange))
          else Ok(if neg then -(u as int) else u as int)
  }

  function ParseInt(s: string): Result<int, NumError> {
    ParseIntNamed("ParseInt", s)
  }

  function Atoi(s: string): Result<int, NumError> {
    ParseIntNamed("Atoi", s)
  }

  /** Decimal digits of a natural number, most significant first, no leading zeros. */
  function Digits(n: nat): (s: string)
    ensures |s| > 0 && AllDigits(s)
    decreases n
  {
    if n < 10 then [DigitChar(n)] else Digits(n / 10) + [DigitChar(n % 10)]
  }

  /** `strconv.Itoa` (and `fmt.Sprintf("%d", n)`). */
  function Itoa(n: int): string {
    if n < 0 then "-" + Digits(-n) else Digits(n)
  }

  /** Go's `a / b` on integers: the quotient truncated toward zero. */
  function GoQuo(a: int, b: int): int
    requires b > 0
  {
    if a >= 0 then a / b else -((-a) / b)
  }

  /** Go's `a % b` on integers: the remainder takes the sign of `a`. */
  function GoRem(a: int, b: int): int
    requires b > 0
  {
    if a >= 0 then a % b else -((-a) % b)
  }

  lemma GoDivision(a: int, b: int)
    requires b > 0
    ensures GoQuo(a, b) * b + GoRem(a, b) == a
    ensures -b < GoRem(a, b) < b
    ensures a >= 0 ==> 0 <= GoRem(a, b) && GoQuo(a, b) >= 0
    ensures a < 0 ==> GoRem(a, b) <= 0
  {
  }

  lemma {:induction false} ValueAppend(acc: nat, s: string, c: char)
    requires AllDigits(s) && IsDigit(c)
    ensures AllDigits(s + [c])
    ensures Value(acc, s + [c]) == Value(acc, s) * 10 + DigitValue(c)
    decreases |s|
  {
    assert AllDigits(s + [c]);
    if s == [] {
      assert s + [c] == [c];
    } else {
      assert (s + [c])[1..] == s[1..] + [c];
      ValueAppend(acc * 10 + DigitValue(s[0]), s[1..], c);
    }
  }

  lemma {:induction false} ValueOfDigits(n: nat)
    ensures Value(0, Digits(n)) == n
    decreases n
  {
    if n >= 10 {
      ValueOfDigits(n / 10);
      ValueAppend(0, Digits(n / 10), DigitChar(n % 10));
    }
  }

  lemma {:induction false} ValueAtLeastAcc(acc: nat, s: string)
    requires AllDigits(s)
    ensures Value(acc, s) >= acc
    decreases |s|
  {
    if s != [] {
      ValueAtLeastAcc(acc * 10 + DigitValue(s[0]), s[1..]);
    }
  }

  /** A digit string whose value fits in 64 bits scans to that value. */
  lemma {:induction false} ScanAllDigits(acc: nat, s: string)
    requires AllDigits(s) && Value(acc, s) <= MaxUint64
    ensures ScanDigits(acc, s) == Ok(Value(acc, s))
    decreases |s|
  {
    if s != [] {
      ValueAtLeastAcc(acc * 10 + DigitValue(s[0]), s[1..]);
      ScanAllDigits(acc * 10 + DigitValue(s[0]), s[1..]);
    }
  }

  /** A character that is not a digit, met before any overflow, is a syntax error. */
  lemma {:induction false} ScanRejectsNonDigit(acc: nat, s: string, i: nat)
    requires i < |s| && !IsDigit(s[i]) && AllDigits(s[..i])
    requires Value(acc, s[..i]) <= MaxUint64
    ensures ScanDigits(acc, s) == Err(InvalidSyntax)
    decreases i
  {
    if i > 0 {
      assert s[..i][1..] == s[1..][..i - 1];
      ValueAtLeastAcc(acc * 10 + DigitValue(s[0]), s[1..][..i - 1]);
      ScanRejectsNonDigit(acc * 10 + DigitValue(s[0]), s[1..], i - 1);
    }
  }

  /** `Itoa` and `ParseInt`/`Atoi` are inverse on Go's 64-bit `int`. */
  lemma ParseItoa(func: string, n: int)
    requires IsInt64(n)
    ensures ParseIntNamed(func, Itoa(n)) == Ok(n)
  {
    var m: nat := if n < 0 then -n else n;
    ValueOfDigits(m);
    ScanAllDigits(0, Digits(m));
    if n < 0 {
      assert Itoa(n)[1..] == Digits(m);
    } else {
      assert Itoa(n) == Digits(m);
      assert Digits(m)[0] != '-' && Digits(m)[0] != '+';
    }
  }

  /**
   `ParseInt` accepts every optionally signed, non-empty digit string whose value
   fits in 64 bits, down to -2^63.
   */
  lemma ParseAcceptsDigits(func: string, sign: string, body: string)
    requires sign == "" || sign == "-" || sign == "+"
    requires body != [] && AllDigits(body)
    requires Value(0, body) <= if sign == "-" then -MinInt64 else MaxInt64
    ensures ParseIntNamed(func, sign + body) == Ok(if sign == "-" then -(Value(0, body) as int) else Value(0, body) as int)
  {
    ScanAllDigits(0, body);
    if sign == "" {
      assert sign + body == body;
    } else {
      assert (sign + body)[1..] == body;
    }
  }
}
