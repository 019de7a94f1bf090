/**
 * Foreground choice for a background colour (utils/getForegroundColor.ts):
 * decode the hex colour, compute its WCAG 2.x relative luminance, and pick
 * white or black text by the WCAG 2.x contrast ratio, ties going to white.
 *
 * Arithmetic is over the reals. `Math.pow(x, 2.4)` in the sRGB transfer
 * function is the parameter `pow24`, of which only `IsTransferCurve` is known.
 */
module ForegroundColor {
  import opened Results
  import opened HexText
  import opened Reals

  datatype Rgb = Rgb(r: int, g: int, b: int)

  predicate IsByte(v: int) { 0 <= v <= 255 }

  predicate InByteRange(c: Rgb) { IsByte(c.r) && IsByte(c.g) && IsByte(c.b) }

  /** The three fields `(v >> 16) & 255`, `(v >> 8) & 255`, `v & 255` of a non-negative value below 2^31. */
  function Channels(v: nat): (c: Rgb)
    ensures InByteRange(c)
  {
    Rgb((v / 65536) % 256, (v / 256) % 256, v % 256)
  }

  /**
   * `hexToRgb`: null unless the text has 3 or 6 characters after one leading
   * '#' is removed; otherwise the three bytes of `parseInt(hex6, 16)`. A
   * NaN from `parseInt` becomes 0 under `>>`. At most six digits are read,
   * so the value stays below 2^24 and `>>` does not wrap.
   */
  function HexToRgb(hex: string): (rgb: Option<Rgb>)
    ensures rgb.None? <==> !ValidLength(hex)
    ensures rgb.Some? ==> InByteRange(rgb.value)
  {
    var sanitizedHex := StripHash(hex);
    if |sanitizedHex| != 3 && |sanitizedHex| != 6 then None
    else
      var hex6 := if |sanitizedHex| == 3 then Doubled(sanitizedHex) else sanitizedHex;
      var bigint := match ParseIntHex(hex6) case None => 0 case Some(v) => v;
      Some(Channels(bigint))
  }

  lemma ByteFields(hi: nat, mid: nat, lo: nat)
    requires hi < 256 && mid < 256 && lo < 256
    ensures Channels(hi * 65536 + mid * 256 + lo) == Rgb(hi, mid, lo)
  {
    var v := hi * 65536 + mid * 256 + lo;
    assert v / 65536 == hi;
    assert v / 256 == hi * 256 + mid;
    assert (hi * 256 + mid) % 256 == mid;
  }

  /** For hex-digit input the channels are the values of the digit pairs at offsets 0, 2 and 4. */
  lemma HexToRgbPairs(hex: string)
    requires ValidLength(hex) && AllHex(StripHash(hex))
    ensures var h := Expand(StripHash(hex));
      |h| == 6 && AllHex(h) &&
      HexToRgb(hex) == Some(Rgb(HexValue(h[0..2]), HexValue(h[2..4]), HexValue(h[4..6])))
  {
    var h := Expand(StripHash(hex));
    ExpandedIsHex(hex);
    HexValueOfSix(h);
    ByteFields(HexValue(h[0..2]), HexValue(h[2..4]), HexValue(h[4..6]));
  }

  /** The 3-digit form decodes to the same colour as the same digits each written twice. */
  lemma HexToRgbShortForm(short: string)
    requires |short| == 3
    ensures HexToRgb(short) == HexToRgb(Doubled(short))
  {
    var long := Doubled(short);
    assert long[0] == short[0];
  }

  /** The leading '#' is optional. */
  lemma HexToRgbHashOptional(s: string)
    requires s == [] || s[0] != '#'
    ensures HexToRgb("#" + s) == HexToRgb(s)
  {
    assert ("#" + s)[1..] == s;
  }

  /**
   * What is known of `x => Math.pow(x, 2.4)` on [0, 1]: it stays in [0, 1],
   * does not decrease, and maps 1 to 1.
   */
  ghost predicate IsTransferCurve(pow24: real -> real) {
    && pow24(1.0) == 1.0
    && (forall x :: 0.0 <= x <= 1.0 ==> 0.0 <= pow24(x) <= 1.0)
    && (forall x, y :: 0.0 <= x <= y <= 1.0 ==> pow24(x) <= pow24(y))
  }

  /** `toLinear`: the sRGB transfer function on a channel in 0..255. */
  function ToLinear(pow24: real -> real, channel: real): real {
    var c := channel / 255.0;
    if c <= 0.03928 then c / 12.92 else pow24((c + 0.055) / 1.055)
  }

  /** Linear intensities lie in [0, 1], with channel 0 at 0 and channel 255 at 1. */
  lemma ToLinearRange(pow24: real -> real, channel: real)
    requires IsTransferCurve(pow24) && 0.0 <= channel <= 255.0
    ensures 0.0 <= ToLinear(pow24, channel) <= 1.0
    ensures channel == 0.0 ==> ToLinear(pow24, channel) == 0.0
    ensures channel == 255.0 ==> ToLinear(pow24, channel) == 1.0
  {
    var c := channel / 255.0;
    if c > 0.03928 {
      var x := (c + 0.055) / 1.055;
      assert 0.0 <= x <= 1.0;
      assert channel == 255.0 ==> x == 1.0;
    }
  }

  /** On the linear branch (`c <= 0.03928`) the transfer is exactly `c / 12.92`, whatever `pow24` is. */
  lemma ToLinearLowBranch(pow24: real -> real, other: real -> real, channel: real)
    requires channel / 255.0 <= 0.03928
    ensures ToLinear(pow24, channel) == ToLinear(other, channel) == channel / 255.0 / 12.92
  {
  }

  /** `getLuminance`: the WCAG 2.x relative luminance. */
  function Luminance(pow24: real -> real, c: Rgb): real {
    var R := ToLinear(pow24, c.r as real);
    var G := ToLinear(pow24, c.g as real);
    var B := ToLinear(pow24, c.b as real);
    0.2126 * R + 0.7152 * G + 0.0722 * B
  }

  /**
   * The weights sum to 1, so the luminance of a byte-valued colour lies in
   * [0, 1]; black has luminance 0 and white luminance 1.
   */
  lemma LuminanceRange(pow24: real -> real, c: Rgb)
    requires IsTransferCurve(pow24) && InByteRange(c)
    ensures 0.0 <= Luminance(pow24, c) <= 1.0
    ensures c == Rgb(0, 0, 0) ==> Luminance(pow24, c) == 0.0
    ensures c == Rgb(255, 255, 255) ==> Luminance(pow24, c) == 1.0
  {
    ToLinearRange(pow24, c.r as real);
    ToLinearRange(pow24, c.g as real);
    ToLinearRange(pow24, c.b as real);
  }

  /** `getContrastRatio`: `(L1 + 0.05) / (L2 + 0.05)` with L1 the larger luminance. */
  function ContrastRatio(lum1: real, lum2: real): real
    requires Min(lum1, lum2) + 0.05 != 0.0
  {
    (Max(lum1, lum2) + 0.05) / (Min(lum1, lum2) + 0.05)
  }

  /** The ratio does not depend on argument order, is at least 1, and is 1 for equal luminances. */
  lemma ContrastRatioProperties(lum1: real, lum2: real)
    requires Min(lum1, lum2) + 0.05 > 0.0
    ensures ContrastRatio(lum1, lum2) == ContrastRatio(lum2, lum1)
    ensures ContrastRatio(lum1, lum2) >= 1.0
    ensures lum1 == lum2 ==> ContrastRatio(lum1, lum2) == 1.0
  {
    QuotientAtLeastOne(Max(lum1, lum2) + 0.05, Min(lum1, lum2) + 0.05);
    if lum1 == lum2 {
      var d := lum1 + 0.05;
      assert d / d == 1.0;
    }
  }

  lemma QuotientAtLeastOne(hi: real, lo: real)
    requires hi >= lo > 0.0
    ensures hi / lo >= 1.0
  {
    assert hi / lo * lo == hi;
  }

  const White: string := "#FFFFFF"
  const Black: string := "#000000"

  /**
   * `getForegroundColor`: throws "Invalid hex color" exactly when `hexToRgb`
   * returns null; otherwise white or black, whichever contrasts more with
   * the background, white on a tie.
   */
  function GetForegroundColor(pow24: real -> real, backgroundHex: string): (fg: Result<string>)
    requires IsTransferCurve(pow24)
    ensures fg.Err? <==> !ValidLength(backgroundHex)
    ensures fg.Err? ==> fg.message == "Invalid hex color"
    ensures fg.Ok? ==> fg.value == White || fg.value == Black
  {
    var rgb := HexToRgb(backgroundHex);
    if rgb.None? then Err("Invalid hex color")
    else
      LuminanceRange(pow24, rgb.value);
      LuminanceRange(pow24, Rgb(255, 255, 255));
      LuminanceRange(pow24, Rgb(0, 0, 0));
      var bgLuminance := Luminance(pow24, rgb.value);
      var whiteContrast := ContrastRatio(bgLuminance, Luminance(pow24, Rgb(255, 255, 255)));
      var blackContrast := ContrastRatio(bgLuminance, Luminance(pow24, Rgb(0, 0, 0)));
      Ok(if whiteContrast >= blackContrast then White else Black)
  }

  /** White is chosen exactly when (L + 0.05)^2 <= 1.05 * 0.05, ties included; black otherwise. */
  predicate PrefersWhite(lum: real) {
    (lum + 0.05) * (lum + 0.05) <= 1.05 * 0.05
  }

  lemma ContrastComparison(lum: real)
    requires 0.0 <= lum <= 1.0
    ensures ContrastRatio(lum, 1.0) == 1.05 / (lum + 0.05)
    ensures ContrastRatio(lum, 0.0) == (lum + 0.05) / 0.05
    ensures (ContrastRatio(lum, 1.0) >= ContrastRatio(lum, 0.0)) == PrefersWhite(lum)
  {
    var d := lum + 0.05;
    var w, k, m := 1.05 / d, d / 0.05, d * 0.05;
    assert w * d == 1.05;
    assert k * 0.05 == d;
    assert w * m == 1.05 * 0.05;
    assert k * m == d * d;
    ScaledComparison(w, k, m);
    assert (w >= k) == (1.05 * 0.05 >= d * d);
  }

  lemma ScaledComparison(x: real, y: real, m: real)
    requires m > 0.0
    ensures (x >= y) == (x * m >= y * m)
  {
    assert x * m - y * m == (x - y) * m;
  }

  /** The choice is a threshold on the background's luminance. */
  lemma ForegroundByLuminance(pow24: real -> real, backgroundHex: string)
    requires IsTransferCurve(pow24) && ValidLength(backgroundHex)
    ensures var rgb := HexToRgb(backgroundHex).value;
      GetForegroundColor(pow24, backgroundHex) ==
        Ok(if PrefersWhite(Luminance(pow24, rgb)) then White else Black)
  {
    var rgb := HexToRgb(backgroundHex).value;
    LuminanceRange(pow24, rgb);
    LuminanceRange(pow24, Rgb(255, 255, 255));
    LuminanceRange(pow24, Rgb(0, 0, 0));
    ContrastComparison(Luminance(pow24, rgb));
  }

  /** Black text on one background means black text on every background at least as luminous. */
  lemma ForegroundMonotone(pow24: real -> real, darker: string, lighter: string)
    requires IsTransferCurve(pow24) && ValidLength(darker) && ValidLength(lighter)
    requires Luminance(pow24, HexToRgb(darker).value) <= Luminance(pow24, HexToRgb(lighter).value)
    requires GetForegroundColor(pow24, darker) == Ok(Black)
    ensures GetForegroundColor(pow24, lighter) == Ok(Black)
  {
    ForegroundByLuminance(pow24, darker);
    ForegroundByLuminance(pow24, lighter);
    LuminanceRange(pow24, HexToRgb(darker).value);
    PrefersWhiteAntitone(Luminance(pow24, HexToRgb(darker).value), Luminance(pow24, HexToRgb(lighter).value));
  }

  lemma PrefersWhiteAntitone(l1: real, l2: real)
    requires 0.0 <= l1 <= l2 && !PrefersWhite(l1)
    ensures !PrefersWhite(l2)
  {
    var a, b := l1 + 0.05, l2 + 0.05;
    assert a * a <= a * b;
    assert a * b <= b * b;
  }

  /** A 3-digit background gets the same foreground as its doubled 6-digit form. */
  lemma ForegroundShortForm(pow24: real -> real, short: string)
    requires IsTransferCurve(pow24) && |short| == 3
    ensures GetForegroundColor(pow24, short) == GetForegroundColor(pow24, Doubled(short))
  {
    HexToRgbShortForm(short);
  }

  /** A '#' and three digits decode to each digit's value times 17. */
  lemma HexToRgbOfShort(hex: string, x: char, y: char, z: char)
    requires IsHexDigit(x) && IsHexDigit(y) && IsHexDigit(z) && hex == ['#', x, y, z]
    ensures ValidLength(hex) && AllHex(StripHash(hex))
    ensures HexToRgb(hex) == Some(Rgb(17 * DigitValue(x), 17 * DigitValue(y), 17 * DigitValue(z)))
  {
    var digits := hex[1..];
    assert digits == [x, y, z];
    assert StripHash(hex) == digits;
    ExpandShort(x, y, z);
    HexToRgbPairs(hex);
    HexValueOfPair(x);
    HexValueOfPair(y);
    HexValueOfPair(z);
  }

  /** A repeated digit, in the 6- or the 3-digit form with '#', decodes to three equal channels. */
  lemma HexToRgbOfRepeated(c: char, hex: string)
    requires IsHexDigit(c)
    requires hex == ['#', c, c, c, c, c, c] || hex == ['#', c, c, c]
    ensures HexToRgb(hex) == Some(Rgb(17 * DigitValue(c), 17 * DigitValue(c), 17 * DigitValue(c)))
  {
    if |hex| == 4 {
      HexToRgbOfShort(hex, c, c, c);
    } else {
      var digits := hex[1..];
      assert StripHash(hex) == digits;
      PairsOfRepeated(c, digits);
      HexToRgbPairs(hex);
      HexValueOfPair(c);
    }
  }

  const ShortWhite: string := "#FFF"
  const ShortBlack: string := "#000"

  /** Black and its short form both decode to black. */
  lemma BlackDecodes()
    ensures HexToRgb(Black) == Some(Rgb(0, 0, 0)) && HexToRgb(ShortBlack) == Some(Rgb(0, 0, 0))
  {
    HexToRgbOfRepeated('0', Black);
    HexToRgbOfRepeated('0', ShortBlack);
  }

  /** White and its short form both decode to white. */
  lemma WhiteDecodes()
    ensures HexToRgb(White) == Some(Rgb(255, 255, 255)) && HexToRgb(ShortWhite) == Some(Rgb(255, 255, 255))
  {
    HexToRgbOfRepeated('F', White);
    HexToRgbOfRepeated('F', ShortWhite);
  }

  /** Any text that decodes to black gets white text. */
  lemma WhiteOnBlack(pow24: real -> real, hex: string)
    requires IsTransferCurve(pow24) && HexToRgb(hex) == Some(Rgb(0, 0, 0))
    ensures GetForegroundColor(pow24, hex) == Ok(White)
  {
    ForegroundByLuminance(pow24, hex);
    LuminanceRange(pow24, Rgb(0, 0, 0));
  }

  /** Any text that decodes to white gets black text. */
  lemma BlackOnWhite(pow24: real -> real, hex: string)
    requires IsTransferCurve(pow24) && HexToRgb(hex) == Some(Rgb(255, 255, 255))
    ensures GetForegroundColor(pow24, hex) == Ok(Black)
  {
    ForegroundByLuminance(pow24, hex);
    LuminanceRange(pow24, Rgb(255, 255, 255));
  }

  /** Black backgrounds get white text, in either length. */
  lemma ForegroundOfBlack(pow24: real -> real)
    requires IsTransferCurve(pow24)
    ensures GetForegroundColor(pow24, Black) == Ok(White)
    ensures GetForegroundColor(pow24, ShortBlack) == Ok(White)
  {
    BlackDecodes();
    WhiteOnBlack(pow24, Black);
    WhiteOnBlack(pow24, ShortBlack);
  }

  /** White backgrounds get black text, in either length. */
  lemma ForegroundOfWhite(pow24: real -> real)
    requires IsTransferCurve(pow24)
    ensures GetForegroundColor(pow24, White) == Ok(Black)
    ensures GetForegroundColor(pow24, ShortWhite) == Ok(Black)
  {
    WhiteDecodes();
    BlackOnWhite(pow24, White);
    BlackOnWhite(pow24, ShortWhite);
  }
}
