/**
 * The failable colour initialiser `UIColor.init?(hex:)`: a string `#RRGGBB`
 * becomes three 8-bit channels and a fully opaque alpha; anything else gives
 * no colour. Channels are kept as integers 0..255 (the division by 255 into a
 * floating-point component is presentation only).
 */
module HexColor {
  import opened Wrappers

  /** A colour as the initialiser builds it: 8-bit channels, alpha on the 0..1 scale. */
  datatype Color = Color(red: nat, green: nat, blue: nat, alpha: real)

  predicate IsHexDigit(c: char) {
    '0' <= c <= '9' || 'a' <= c <= 'f' || 'A' <= c <= 'F'
  }

  predicate AllHexDigits(s: string) {
    forall k :: 0 <= k < |s| ==> IsHexDigit(s[k])
  }

  function DigitValue(c: char): (v: nat)
    requires IsHexDigit(c)
    ensures v < 16
  {
    if '0' <= c <= '9' then (c - '0') as nat
    else if 'a' <= c <= 'f' then (c - 'a') as nat + 10
    else (c - 'A') as nat + 10
  }

  function Pow16(n: nat): (p: nat)
    ensures p >= 1
  {
    if n == 0 then 1 else 16 * Pow16(n - 1)
  }

  /** The number a string of hexadecimal digits denotes, most significant digit first. */
  function HexValue(s: string): (v: nat)
    requires AllHexDigits(s)
    ensures v < Pow16(|s|)
  {
    if s == [] then 0 else 16 * HexValue(s[..|s| - 1]) + DigitValue(s[|s| - 1])
  }

  /**
   * Channel extraction `(n & mask) >> shift` with the 8-bit masks 0xff0000,
   * 0x00ff00 and 0x0000ff: for a non-negative n, masking then shifting right by
   * 16, 8 or 0 bits is division by 2^shift followed by reduction modulo 256.
   */
  function Channel(n: nat, shift: nat): (c: nat)
    requires shift == 0 || shift == 8 || shift == 16
    ensures c < 256
  {
    var scale := if shift == 16 then 0x1_0000 else if shift == 8 then 0x100 else 1;
    (n / scale) % 0x100
  }

  /**
   * `UIColor.init?(hex:)`: no colour unless the string is `#` followed by
   * exactly six hexadecimal digits; on success the 24-bit value is split into
   * red, green and blue bytes and alpha is 1.
   */
  function ParseHex(hex: string): (r: Option<Color>)
    ensures r.Some? <==> |hex| == 7 && hex[0] == '#' && AllHexDigits(hex[1..])
    ensures r.Some? ==> r.value.red < 256 && r.value.green < 256 && r.value.blue < 256
    ensures r.Some? ==> r.value.red * 65536 + r.value.green * 256 + r.value.blue == HexValue(hex[1..])
    ensures r.Some? ==> r.value.alpha == 1.0
  {
    if |hex| >= 1 && hex[0] == '#' then
      var hexColor := hex[1..];
      if |hexColor| == 6 && AllHexDigits(hexColor) then
        var n := HexValue(hexColor);
        ChannelsRecombine(n);
        Some(Color(Channel(n, 16), Channel(n, 8), Channel(n, 0), 1.0))
      else None
    else None
  }

  lemma ChannelsRecombine(n: nat)
    requires n < 0x100_0000
    ensures Channel(n, 16) * 65536 + Channel(n, 8) * 256 + Channel(n, 0) == n
  {
    var q := n / 256;
    assert n == q * 256 + n % 256;
    assert q / 256 == n / 65536;
    assert q == (n / 65536) * 256 + (n / 256) % 256;
  }

  /** Upper-case hexadecimal digit for a value below 16. */
  function DigitChar(v: nat): (c: char)
    requires v < 16
    ensures IsHexDigit(c) && DigitValue(c) == v
  {
    if v < 10 then ('0' as int + v) as char else ('A' as int + v - 10) as char
  }

  function ByteHex(b: nat): (s: string)
    requires b < 256
    ensures |s| == 2 && AllHexDigits(s)
  {
    [DigitChar(b / 16), DigitChar(b % 16)]
  }

  /** The `#RRGGBB` notation of a colour, written with upper-case digits. */
  function ToHex(c: Color): (s: string)
    requires c.red < 256 && c.green < 256 && c.blue < 256
    ensures |s| == 7 && s[0] == '#' && AllHexDigits(s[1..])
  {
    "#" + ByteHex(c.red) + ByteHex(c.green) + ByteHex(c.blue)
  }

  predicate IsUpperHexDigit(c: char) {
    '0' <= c <= '9' || 'A' <= c <= 'F'
  }

  function UpperDigit(c: char): (u: char)
    requires IsHexDigit(c)
    ensures IsUpperHexDigit(u) && DigitValue(u) == DigitValue(c)
  {
    if 'a' <= c <= 'f' then (c as int - 'a' as int + 'A' as int) as char else c
  }

  /** A digit string with its letters a-f written as A-F. */
  function Upper(s: string): (u: string)
    requires AllHexDigits(s)
    ensures |u| == |s| && AllHexDigits(u)
    ensures forall k :: 0 <= k < |u| ==> IsUpperHexDigit(u[k])
  {
    seq(|s|, k requires 0 <= k < |s| => UpperDigit(s[k]))
  }

  lemma AllHexDigitsConcat(s: string, t: string)
    requires AllHexDigits(s) && AllHexDigits(t)
    ensures AllHexDigits(s + t)
  {
    var st := s + t;
    forall k | 0 <= k < |st| ensures IsHexDigit(st[k]) {
      if k < |s| { assert st[k] == s[k]; } else { assert st[k] == t[k - |s|]; }
    }
  }

  lemma {:induction false} HexValueAppend(s: string, t: string)
    requires AllHexDigits(s) && AllHexDigits(t)
    ensures AllHexDigits(s + t)
    ensures HexValue(s + t) == HexValue(s) * Pow16(|t|) + HexValue(t)
    decreases |t|
  {
    AllHexDigitsConcat(s, t);
    if t == [] {
      assert s + t == s;
    } else {
      var t' := t[..|t| - 1];
      assert (s + t)[..|s + t| - 1] == s + t';
      assert (s + t)[|s + t| - 1] == t[|t| - 1];
      HexValueAppend(s, t');
      HexStep(HexValue(s), Pow16(|t'|), HexValue(t'), DigitValue(t[|t| - 1]));
    }
  }

  lemma HexStep(a: nat, p: nat, v: nat, d: nat)
    ensures 16 * (a * p + v) + d == a * (16 * p) + (16 * v + d)
  {
  }

  lemma ByteHexValue(b: nat)
    requires b < 256
    ensures HexValue(ByteHex(b)) == b
  {
  }

  /** Two bytes-triples with the same 24-bit value are the same triple. */
  lemma ChannelsUnique(r: nat, g: nat, b: nat, r': nat, g': nat, b': nat)
    requires r < 256 && g < 256 && b < 256 && r' < 256 && g' < 256 && b' < 256
    requires r * 65536 + g * 256 + b == r' * 65536 + g' * 256 + b'
    ensures r == r' && g == g' && b == b'
  {
  }

  /** A `#RRGGBB` literal parses to the colour whose bytes it spells. */
  lemma ParsesTo(hex: string, c: Color)
    requires c.red < 256 && c.green < 256 && c.blue < 256 && c.alpha == 1.0
    requires hex == "#" + ByteHex(c.red) + ByteHex(c.green) + ByteHex(c.blue)
    ensures ParseHex(hex) == Some(c)
  {
    ParseToHex(c);
  }

  /** The digits of `ToHex` are upper case and spell the colour's 24-bit value. */
  lemma ToHexDigits(c: Color)
    requires c.red < 256 && c.green < 256 && c.blue < 256
    ensures HexValue(ToHex(c)[1..]) == c.red * 65536 + c.green * 256 + c.blue
    ensures forall k :: 0 <= k < 6 ==> IsUpperHexDigit(ToHex(c)[1..][k])
  {
    var rh, gh, bh := ByteHex(c.red), ByteHex(c.green), ByteHex(c.blue);
    assert ToHex(c)[1..] == rh + gh + bh;
    HexValueAppend(rh, gh);
    HexValueAppend(rh + gh, bh);
    ByteHexValue(c.red);
    ByteHexValue(c.green);
    ByteHexValue(c.blue);
    assert Pow16(2) == 256;
  }

  /** Writing a colour as `#RRGGBB` and parsing it back gives the same colour. */
  lemma ParseToHex(c: Color)
    requires c.red < 256 && c.green < 256 && c.blue < 256 && c.alpha == 1.0
    ensures ParseHex(ToHex(c)) == Some(c)
  {
    ToHexDigits(c);
    var r := ParseHex(ToHex(c)).value;
    ChannelsUnique(r.red, r.green, r.blue, c.red, c.green, c.blue);
  }

  /** The last digit is the value modulo 16, the others the value divided by 16. */
  lemma HexValueSplit(s: string)
    requires AllHexDigits(s) && s != []
    ensures HexValue(s) % 16 == DigitValue(s[|s| - 1])
    ensures HexValue(s) / 16 == HexValue(s[..|s| - 1])
  {
  }

  /** Digit strings in upper case are determined by their length and value. */
  lemma {:induction false} HexValueInjective(s: string, t: string)
    requires AllHexDigits(s) && AllHexDigits(t) && |s| == |t|
    requires forall k :: 0 <= k < |s| ==> IsUpperHexDigit(s[k]) && IsUpperHexDigit(t[k])
    requires HexValue(s) == HexValue(t)
    ensures s == t
  {
    if s != [] {
      var n := |s| - 1;
      HexValueSplit(s);
      HexValueSplit(t);
      HexValueInjective(s[..n], t[..n]);
      UpperDigitUnique(s[n], t[n]);
      assert s == s[..n] + [s[n]] && t == t[..n] + [t[n]];
    }
  }

  lemma UpperDigitUnique(c: char, d: char)
    requires IsUpperHexDigit(c) && IsUpperHexDigit(d) && DigitValue(c) == DigitValue(d)
    ensures c == d
  {
  }

  lemma {:induction false} UpperValue(s: string)
    requires AllHexDigits(s)
    ensures HexValue(Upper(s)) == HexValue(s)
  {
    if s != [] {
      var n := |s| - 1;
      assert Upper(s)[..n] == Upper(s[..n]);
      UpperValue(s[..n]);
    }
  }

  /**
   * Parsing accepts either letter case, and the colour it returns is written
   * back as the same digits in upper case.
   */
  lemma ToHexOfParse(hex: string)
    requires ParseHex(hex).Some?
    ensures ToHex(ParseHex(hex).value) == "#" + Upper(hex[1..])
  {
    var c := ParseHex(hex).value;
    var s := ToHex(c);
    ToHexDigits(c);
    UpperValue(hex[1..]);
    HexValueInjective(s[1..], Upper(hex[1..]));
    assert s == "#" + s[1..];
  }
}
