/** The parts of Python and NumPy semantics that the colour mapper and the
    time grid depend on: exceptions, numbers whose run-time type is checked,
    `% 1.0` on floats, round-half-to-even, uint8 cells and the
    `"{:02x}".format(...).upper()` hex formatting. */
module PySemantics {

  /** The exception a call raises. */
  datatype PyError = AssertionError(message: string) | ValueError(message: string)

  /** A call either returns a value or raises. */
  datatype Result<T> = Success(value: T) | Failure(error: PyError)

  /** A value that may be absent (Python's None). */
  datatype Option<T> = None | Some(value: T)

  /** A call that returns nothing either completes or raises. */
  datatype Outcome = Pass | Fail(error: PyError)

  /** A Python number: `isinstance(x, float)` tells the two apart. */
  datatype PyNum = PyInt(i: int) | PyFloat(f: real) {
    function AsReal(): real {
      match this
      case PyInt(i) => i as real
      case PyFloat(f) => f
    }
  }

  /** A cell of a NumPy `uint8` array. */
  type Byte = x: int | 0 <= x < 256

  /** `math.pi` and `math.tau`. */
  const Pi: real := 3.141592653589793
  const Tau: real := 2.0 * Pi

  /** Python's `x % 1.0`: the fractional part, with the sign of the divisor. */
  function Frac(x: real): (r: real)
    ensures 0.0 <= r < 1.0
    ensures (x - r).Floor as real == x - r
  {
    x - x.Floor as real
  }

  /** The only value in [0, 1) that differs from x by a whole number is Frac(x). */
  lemma FracUnique(x: real, y: real, k: int)
    requires 0.0 <= y < 1.0 && x == y + k as real
    ensures Frac(x) == y
  {
    assert x.Floor == k;
  }

  /** Adding a whole number does not change the fractional part. */
  lemma FracShift(x: real, k: int)
    ensures Frac(x + k as real) == Frac(x)
  {
    FracUnique(x + k as real, Frac(x), x.Floor + k);
  }

  /** Taking `% 1.0` before adding c changes nothing once `% 1.0` is taken again. */
  lemma FracOfFrac(x: real, c: real)
    ensures Frac(Frac(x) + c) == Frac(x + c)
  {
    var k := x.Floor;
    assert Frac(x) + c == (x + c) + (-k) as real;
    FracShift(x + c, -k);
  }

  /** Python's `round(x)` and NumPy's `np.round(x)`: to the nearest integer,
      ties to the even neighbour. */
  function RoundHalfEven(x: real): (n: int)
    ensures n as real - 0.5 <= x <= n as real + 0.5
    ensures x - n as real == 0.5 || n as real - x == 0.5 ==> n % 2 == 0
  {
    var f := x.Floor;
    var d := x - f as real;
    if d < 0.5 then f
    else if d > 0.5 then f + 1
    else if f % 2 == 0 then f else f + 1
  }

  /** A value in [0, 255] rounds to a uint8 value. */
  lemma RoundInByteRange(x: real)
    requires 0.0 <= x <= 255.0
    ensures 0 <= RoundHalfEven(x) <= 255
  {
  }

  /** The decimal digits of n without leading zeros. */
  function DecimalDigits(n: nat): (s: string)
    ensures |s| >= 1
  {
    if n < 10 then [('0' as int + n) as char]
    else DecimalDigits(n / 10) + [('0' as int + n % 10) as char]
  }

  /** `str(n)` for an int. */
  function DecimalString(n: int): string {
    if n < 0 then "-" + DecimalDigits(-n) else DecimalDigits(n)
  }

  /** A lower-case hexadecimal digit, as `format` writes it. */
  function HexDigit(d: int): char
    requires 0 <= d < 16
  {
    if d < 10 then ('0' as int + d) as char else ('a' as int + d - 10) as char
  }

  /** The hexadecimal digits of n without leading zeros. */
  function HexDigits(n: nat): (s: string)
    ensures |s| >= 1
    decreases n
  {
    if n < 16 then [HexDigit(n)] else HexDigits(n / 16) + [HexDigit(n % 16)]
  }

  /** `"{:02x}".format(n)`: at least two characters, zero padded after the sign. */
  function Format02x(n: int): (s: string)
    ensures |s| >= 2
  {
    if n < 0 then "-" + HexDigits(-n)
    else
      var s := HexDigits(n);
      if |s| < 2 then "0" + s else s
  }

  /** `str.upper()` on ASCII letters. */
  function UpperChar(c: char): char {
    if 'a' <= c <= 'z' then (c as int - 32) as char else c
  }

  function Upper(s: string): (u: string)
    ensures |u| == |s|
  {
    seq(|s|, i requires 0 <= i < |s| => UpperChar(s[i]))
  }

  /** `"{0:02x}{1:02x}{2:02x}".format(r, g, b).upper()`. */
  function FormatHexColor(r: int, g: int, b: int): (s: string)
    ensures |s| >= 6
  {
    Upper(Format02x(r) + Format02x(g) + Format02x(b))
  }

  predicate IsUpperHexDigit(c: char) {
    '0' <= c <= '9' || 'A' <= c <= 'F'
  }

  /** The value of an upper-case hex digit. */
  function HexValue(c: char): (v: int)
    requires IsUpperHexDigit(c)
    ensures 0 <= v < 16
  {
    if '0' <= c <= '9' then c as int - '0' as int else c as int - 'A' as int + 10
  }

  /** Reads back a six-digit colour string as its three channels. */
  function ParseHexColor(s: string): (rgb: (int, int, int))
    requires |s| == 6 && forall i :: 0 <= i < 6 ==> IsUpperHexDigit(s[i])
    ensures 0 <= rgb.0 < 256 && 0 <= rgb.1 < 256 && 0 <= rgb.2 < 256
  {
    (16 * HexValue(s[0]) + HexValue(s[1]),
     16 * HexValue(s[2]) + HexValue(s[3]),
     16 * HexValue(s[4]) + HexValue(s[5]))
  }

  lemma HexDigitUpperValue(d: int)
    requires 0 <= d < 16
    ensures IsUpperHexDigit(UpperChar(HexDigit(d))) && HexValue(UpperChar(HexDigit(d))) == d
  {
  }

  /** A uint8 value formats as exactly two digits, the high one first. */
  lemma Format02xByte(n: Byte)
    ensures Format02x(n) == [HexDigit(n / 16), HexDigit(n % 16)]
  {
    if n >= 16 {
      assert HexDigits(n / 16) == [HexDigit(n / 16)];
    }
  }

  /** For channels in [0, 255] the colour string is six upper-case hex digits
      that read back as the same three channels. */
  lemma {:induction false} HexColorRoundTrip(r: Byte, g: Byte, b: Byte)
    ensures var s := FormatHexColor(r, g, b);
      && |s| == 6
      && (forall i :: 0 <= i < 6 ==> IsUpperHexDigit(s[i]))
      && ParseHexColor(s) == (r, g, b)
  {
    Format02xByte(r);
    Format02xByte(g);
    Format02xByte(b);
    var raw := Format02x(r) + Format02x(g) + Format02x(b);
    assert raw == [HexDigit(r / 16), HexDigit(r % 16), HexDigit(g / 16), HexDigit(g % 16),
                   HexDigit(b / 16), HexDigit(b % 16)];
    HexDigitUpperValue(r / 16);
    HexDigitUpperValue(r % 16);
    HexDigitUpperValue(g / 16);
    HexDigitUpperValue(g % 16);
    HexDigitUpperValue(b / 16);
    HexDigitUpperValue(b % 16);
  }
}
