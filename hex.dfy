/** `UIColor.toHexString`: `String(format: "#%02x%02x%02x", r, g, b)` over the
    integer channels. `%x` prints the low 32 bits of its argument as an unsigned
    number in lowercase hexadecimal with no leading zeros, and `02` pads it with
    zeros to at least two digits. */
module Hex {
  const Digits: string := "0123456789abcdef"

  predicate IsHexDigit(c: char) {
    c in Digits
  }

  function HexDigit(d: int): (c: char)
    requires 0 <= d < 16
    ensures IsHexDigit(c)
  {
    Digits[d]
  }

  /** The value of a lowercase hexadecimal digit. */
  function DigitValue(c: char): (d: nat)
    ensures d < 16
  {
    if '0' <= c <= '9' then c as int - '0' as int
    else if 'a' <= c <= 'f' then c as int - 'a' as int + 10
    else 0
  }

  lemma DigitValueOfHex(d: int)
    requires 0 <= d < 16
    ensures DigitValue(HexDigit(d)) == d
  {
  }

  /** The number a string of hexadecimal digits stands for. */
  function ParseHex(s: string): nat {
    if s == [] then 0 else ParseHex(s[..|s| - 1]) * 16 + DigitValue(s[|s| - 1])
  }

  /** `%x` without padding: the shortest digit string, "0" for zero. */
  function HexOf(n: nat): (s: string)
    ensures s != [] && forall i :: 0 <= i < |s| ==> IsHexDigit(s[i])
    ensures (|s| == 1) == (n < 16)
    ensures |s| <= 2 <==> n < 256
    decreases n
  {
    if n < 16 then [HexDigit(n)] else HexOf(n / 16) + [HexDigit(n % 16)]
  }

  /** `%02x` of an `Int`: its low 32 bits, padded with zeros to two digits. */
  function Field(v: int): string {
    var s := HexOf(v % 0x1_0000_0000);
    if |s| < 2 then "0" + s else s
  }

  function ToHexString(r: int, g: int, b: int): string {
    "#" + Field(r) + Field(g) + Field(b)
  }

  lemma {:induction false} HexOfRoundTrip(n: nat)
    ensures ParseHex(HexOf(n)) == n
    decreases n
  {
    if n < 16 {
      assert [HexDigit(n)][..0] == [];
      DigitValueOfHex(n);
    } else {
      var s := HexOf(n);
      assert s[..|s| - 1] == HexOf(n / 16);
      HexOfRoundTrip(n / 16);
      DigitValueOfHex(n % 16);
    }
  }

  lemma {:induction false} LeadingZero(s: string)
    ensures ParseHex("0" + s) == ParseHex(s)
    decreases |s|
  {
    if s == [] {
      assert ("0" + s)[..0] == [];
    } else {
      assert ("0" + s)[..|"0" + s| - 1] == "0" + s[..|s| - 1];
      LeadingZero(s[..|s| - 1]);
    }
  }

  /** Each field is at least two hexadecimal digits and stands for the low 32
      bits of its channel; it is exactly two digits when those bits are below
      256. */
  lemma FieldMeaning(v: int)
    ensures var f := Field(v);
      |f| >= 2 && (forall i :: 0 <= i < |f| ==> IsHexDigit(f[i])) &&
      ParseHex(f) == v % 0x1_0000_0000 &&
      (|f| == 2 <==> v % 0x1_0000_0000 < 256)
  {
    var s := HexOf(v % 0x1_0000_0000);
    HexOfRoundTrip(v % 0x1_0000_0000);
    if |s| < 2 {
      LeadingZero(s);
    }
  }

  lemma FieldOfByte(v: int)
    requires 0 <= v < 256
    ensures |Field(v)| == 2 && ParseHex(Field(v)) == v
    ensures forall i :: 0 <= i < |Field(v)| ==> IsHexDigit(Field(v)[i])
  {
    assert v % 0x1_0000_0000 == v;
    FieldMeaning(v);
  }

  /** For channels in 0..255 the result is "#" and three two-digit lowercase
      fields, each of which reads back as its channel, so different colours get
      different strings. */
  lemma ToHexStringOfBytes(r: int, g: int, b: int)
    requires 0 <= r < 256 && 0 <= g < 256 && 0 <= b < 256
    ensures var s := ToHexString(r, g, b);
      |s| == 7 && s[0] == '#' &&
      (forall i :: 1 <= i < 7 ==> IsHexDigit(s[i])) &&
      ParseHex(s[1..3]) == r && ParseHex(s[3..5]) == g && ParseHex(s[5..7]) == b
  {
    FieldOfByte(r);
    FieldOfByte(g);
    FieldOfByte(b);
    Fields("#", Field(r), Field(g), Field(b));
  }

  lemma Fields(a: string, x: string, y: string, z: string)
    requires |a| == 1 && |x| == 2 && |y| == 2 && |z| == 2
    ensures var s := a + x + y + z;
      |s| == 7 && s[0] == a[0] && s[1..3] == x && s[3..5] == y && s[5..7] == z &&
      forall i :: 1 <= i < 7 ==> s[i] in x + y + z
  {
    var s := a + x + y + z;
    forall i | 1 <= i < 7 ensures s[i] in x + y + z {
      assert s[i] == (x + y + z)[i - 1];
    }
  }

  lemma ToHexStringInjective(r: int, g: int, b: int, r': int, g': int, b': int)
    requires 0 <= r < 256 && 0 <= g < 256 && 0 <= b < 256
    requires 0 <= r' < 256 && 0 <= g' < 256 && 0 <= b' < 256
    requires ToHexString(r, g, b) == ToHexString(r', g', b')
    ensures r == r' && g == g' && b == b'
  {
    ToHexStringOfBytes(r, g, b);
    ToHexStringOfBytes(r', g', b');
  }

  /** A negative channel prints as its 32-bit two's complement: -1 gives
      "ffffffff". */
  lemma NegativeOne()
    ensures Field(-1) == "ffffffff"
  {
    assert -1 % 0x1_0000_0000 == 0xffff_ffff;
    assert HexOf(0xf) == "f";
    assert HexOf(0xff) == "ff";
    assert HexOf(0xfff) == "fff";
    assert HexOf(0xffff) == "ffff";
    assert HexOf(0xf_ffff) == "fffff";
    assert HexOf(0xff_ffff) == "ffffff";
    assert HexOf(0xfff_ffff) == "fffffff";
  }
}
