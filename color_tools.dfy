// ColorTools: packing a Color32 into a 32-bit int and back, and its web
// colour string.
module ColorTools {
  /** A C# int: 32-bit two's complement. */
  type int32 = x: int | -0x8000_0000 <= x < 0x8000_0000

  type byte = x: int | 0 <= x < 0x100

  /** Color32: four 8-bit channels. */
  datatype Color32 = Color32(r: byte, g: byte, b: byte, a: byte)

  /**
   * ToInt: r in bits 31-24, g in 23-16, b in 15-8 and a in 7-0, read as a
   * two's-complement int. The four shifted channels occupy disjoint bits, so
   * their `|` is their sum.
   */
  function ToInt(c: Color32): (v: int32)
    ensures v < 0 <==> c.r >= 0x80
  {
    var u := c.r * 0x100_0000 + c.g * 0x1_0000 + c.b * 0x100 + c.a;
    if u >= 0x8000_0000 then u - 0x1_0000_0000 else u
  }

  /**
   * FromInt: each channel as `(v >> shift) & 0xff`. On an int, `>>` is the
   * arithmetic shift, which is division by a power of two rounding down,
   * and `& 0xff` keeps the non-negative remainder modulo 256.
   */
  function FromInt(v: int32): (c: Color32)
  {
    Color32((v / 0x100_0000) % 0x100, (v / 0x1_0000) % 0x100, (v / 0x100) % 0x100, v % 0x100)
  }

  /** Dividing x * m + y by m when 0 <= y < m. */
  lemma DivAdd(x: int, y: int, m: int)
    requires 0 <= y < m
    ensures (x * m + y) / m == x && (x * m + y) % m == y
  {
    var q, r := (x * m + y) / m, (x * m + y) % m;
    assert (q - x) * m == y - r;
    if q > x {
      MulAtLeast(q - x, m);
    } else if q < x {
      MulAtLeast(x - q, m);
    }
  }

  lemma MulAtLeast(d: int, m: int)
    requires d >= 1 && m > 0
    ensures d * m >= m
  {
  }

  /** Unpacking a packed colour gives the colour back. */
  lemma FromIntToInt(c: Color32)
    ensures FromInt(ToInt(c)) == c
  {
    var v := ToInt(c);
    var w := c.r * 0x100_0000 + c.g * 0x1_0000 + c.b * 0x100 + c.a;
    var s := if w >= 0x8000_0000 then c.r - 0x100 else c.r;
    assert v == s * 0x100_0000 + (c.g * 0x1_0000 + c.b * 0x100 + c.a);
    DivAdd(s, c.g * 0x1_0000 + c.b * 0x100 + c.a, 0x100_0000);
    DivAdd(s * 0x100 + c.g, c.b * 0x100 + c.a, 0x1_0000);
    DivAdd(s * 0x1_0000 + c.g * 0x100 + c.b, c.a, 0x100);
    DivAdd(s, c.r, 0x100);
    DivAdd(s, c.g, 0x100);
    DivAdd(s * 0x100 + c.g, c.b, 0x100);
    DivAdd(s * 0x1_0000 + c.g * 0x100 + c.b, c.a, 0x100);
  }

  /** Packing the unpacked channels gives every int back. */
  lemma ToIntFromInt(v: int32)
    ensures ToInt(FromInt(v)) == v
  {
    var t1, a := v / 0x100, v % 0x100;
    var t2, b := t1 / 0x100, t1 % 0x100;
    var t3, g := t2 / 0x100, t2 % 0x100;
    assert v == t1 * 0x100 + a && t1 == t2 * 0x100 + b && t2 == t3 * 0x100 + g;
    var low := g * 0x1_0000 + b * 0x100 + a;
    assert 0 <= low < 0x100_0000 && v == t3 * 0x100_0000 + low;
    DivAdd(t3, low, 0x100_0000);
    DivAdd(t2, b * 0x100 + a, 0x1_0000);
    assert -0x80 <= t3 < 0x80;
    var c := FromInt(v);
    assert c.g == g && c.b == b && c.a == a;
    var u := c.r * 0x100_0000 + low;
    if t3 >= 0 {
      DivAdd(0, t3, 0x100);
      assert c.r == t3 && u == v;
    } else {
      DivAdd(-1, t3 + 0x100, 0x100);
      assert c.r == t3 + 0x100 && u == v + 0x1_0000_0000;
    }
  }

  /** An uppercase hexadecimal digit, as the `X` format writes it. */
  function HexDigit(d: int): (c: char)
    requires 0 <= d < 16
    ensures IsHexDigit(c)
  {
    if d < 10 then ('0' as int + d) as char else ('A' as int + d - 10) as char
  }

  predicate IsHexDigit(c: char)
  {
    '0' <= c <= '9' || 'A' <= c <= 'F'
  }

  /** The value of an uppercase hexadecimal digit. */
  function HexValue(c: char): (d: int)
    requires IsHexDigit(c)
    ensures 0 <= d < 16
  {
    if c <= '9' then c as int - '0' as int else c as int - 'A' as int + 10
  }

  /** A byte formatted with `X2`: two uppercase hexadecimal digits, high first. */
  function Hex2(b: byte): (s: string)
    ensures |s| == 2 && IsHexDigit(s[0]) && IsHexDigit(s[1])
    ensures HexValue(s[0]) * 16 + HexValue(s[1]) == b
  {
    [HexDigit(b / 16), HexDigit(b % 16)]
  }

  /** ToWebColor, from the Color32: "#" and the red, green and blue bytes in hexadecimal; alpha is dropped. */
  function ToWebColor(c: Color32): (s: string)
    ensures |s| == 7 && s[0] == '#'
    ensures forall i :: 1 <= i < 7 ==> IsHexDigit(s[i])
  {
    "#" + Hex2(c.r) + Hex2(c.g) + Hex2(c.b)
  }

  /** Reading a web colour's three bytes back. */
  function ParseWebColor(s: string): (rgb: (int, int, int))
    requires |s| == 7 && forall i :: 1 <= i < 7 ==> IsHexDigit(s[i])
  {
    (HexValue(s[1]) * 16 + HexValue(s[2]), HexValue(s[3]) * 16 + HexValue(s[4]), HexValue(s[5]) * 16 + HexValue(s[6]))
  }

  /** The web colour determines red, green and blue, and nothing else. */
  lemma WebColorRoundTrip(c: Color32, alpha: byte)
    ensures ParseWebColor(ToWebColor(c)) == (c.r, c.g, c.b)
    ensures ToWebColor(c.(a := alpha)) == ToWebColor(c)
  {
    var s := ToWebColor(c);
    assert s[1..3] == Hex2(c.r) && s[3..5] == Hex2(c.g) && s[5..7] == Hex2(c.b);
  }
}
