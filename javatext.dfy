/**
 * The JVM value domains the cache works on: bytes, fixed-width integers and
 * `java.lang.String` as a sequence of UTF-16 code units.
 */
module JavaText {
  /** The bit pattern of one Java `byte` (0..255). */
  type Octet = b: int | 0 <= b < 0x100

  /** One UTF-16 code unit, i.e. one Java `char`. */
  type JChar = c: int | 0 <= c < 0x1_0000

  /** A non-null `java.lang.String`. */
  type JString = seq<JChar>

  type Int8 = x: int | -0x80 <= x < 0x80
  type Int16 = x: int | -0x8000 <= x < 0x8000
  type Int32 = x: int | -0x8000_0000 <= x < 0x8000_0000
  type Int64 = x: int | -0x8000_0000_0000_0000 <= x < 0x8000_0000_0000_0000

  /** Raw IEEE 754 bit patterns of a `float` and of a `double`. */
  type Bits32 = x: int | 0 <= x < 0x1_0000_0000
  type Bits64 = x: int | 0 <= x < 0x1_0000_0000_0000_0000

  /** Two's-complement narrowing, as performed by a Java/Kotlin `(int)` cast or `toInt()`. */
  function Wrap32(x: int): (r: Int32)
    ensures (r - x) % 0x1_0000_0000 == 0
    ensures -0x8000_0000 <= x < 0x8000_0000 ==> r == x
  {
    var m := x % 0x1_0000_0000;
    if m < 0x8000_0000 then m else m - 0x1_0000_0000
  }

  function Wrap16(x: int): (r: Int16)
    ensures (r - x) % 0x1_0000 == 0
    ensures -0x8000 <= x < 0x8000 ==> r == x
  {
    var m := x % 0x1_0000;
    if m < 0x8000 then m else m - 0x1_0000
  }

  function Wrap8(x: int): (r: Int8)
    ensures (r - x) % 0x100 == 0
    ensures -0x80 <= x < 0x80 ==> r == x
  {
    var m := x % 0x100;
    if m < 0x80 then m else m - 0x100
  }

  function Wrap64(x: int): (r: Int64)
    ensures (r - x) % 0x1_0000_0000_0000_0000 == 0
    ensures -0x8000_0000_0000_0000 <= x < 0x8000_0000_0000_0000 ==> r == x
  {
    var m := x % 0x1_0000_0000_0000_0000;
    if m < 0x8000_0000_0000_0000 then m else m - 0x1_0000_0000_0000_0000
  }

  /** All characters of a Dafny literal are single UTF-16 code units. */
  predicate IsBmp(s: string) {
    forall i | 0 <= i < |s| :: s[i] as int < 0x1_0000
  }

  /** The Java string spelled by a Dafny literal of basic-plane characters. */
  function J(s: string): (r: JString)
    requires IsBmp(s)
    ensures |r| == |s| && forall i | 0 <= i < |s| :: r[i] == s[i] as int
  {
    seq(|s|, i requires 0 <= i < |s| => s[i] as int as JChar)
  }

  /** Decimal digits of a natural number, most significant first. */
  function Digits(n: nat): (r: JString)
    ensures |r| > 0 && forall i | 0 <= i < |r| :: '0' as int <= r[i] <= '9' as int
  {
    if n < 10 then ['0' as int + n] else Digits(n / 10) + ['0' as int + n % 10]
  }

  /** `Integer.toString` / `Long.toString`: an optional minus sign, then the digits. */
  function DecimalText(n: int): (r: JString)
    ensures |r| > 0
    ensures (r[0] == '-' as int) <==> n < 0
  {
    if n < 0 then ['-' as int] + Digits(-n) else Digits(n)
  }

  /** `String.valueOf(boolean)`. */
  function BooleanText(b: bool): JString {
    if b then J("true") else J("false")
  }

  /** `s.startsWith(p)`. */
  predicate StartsWith(s: JString, p: JString) {
    |p| <= |s| && s[..|p|] == p
  }

  /** `s.endsWith(p)` on the string (not on path elements). */
  predicate EndsWith(s: JString, p: JString) {
    |p| <= |s| && s[|s| - |p|..] == p
  }

  /** ASCII case folding of one code unit, as `equalsIgnoreCase` applies it to letters. */
  function LowerAscii(c: JChar): JChar {
    if 'A' as int <= c <= 'Z' as int then c + 32 else c
  }

  /**
   * `Boolean.parseBoolean(s)`: true exactly for "true" in any letter case;
   * no other code unit folds onto the letters of "true".
   */
  predicate ParseBoolean(s: JString) {
    |s| == 4 && forall i | 0 <= i < 4 :: LowerAscii(s[i]) == J("true")[i]
  }
}
