/**
 * `hexToRgba` (utils/hexToRgba.ts): the same '#'-stripping and 3-digit
 * expansion as `hexToRgb`, then each pair of digits read with
 * `parseInt(pair, 16)` and the result written as `rgba(r, g, b, alpha)`.
 * Only the length is checked; a pair that does not start with a hex digit
 * reads as NaN and is written "NaN".
 *
 * `alpha` is a JavaScript number; the model takes the text that the
 * template literal writes for it, "1" by default.
 */
module Rgba {
  import opened Results
  import opened HexText
  import ForegroundColor

  /** The three `parseInt` results; `None` is NaN. */
  datatype PairValues = PairValues(r: Option<nat>, g: Option<nat>, b: Option<nat>)

  const DefaultAlpha: string := "1"

  /** Lines 4-21: strip, expand, check the length, read the pairs. */
  function ParseChannels(hex: string): (c: Result<PairValues>)
    ensures c.Ok? <==> ValidLength(hex)
    ensures c.Err? ==> c.message == "Invalid hex color format"
  {
    var hex := StripHash(hex);
    var hex := Expand(hex);
    if |hex| == 6 then
      Ok(PairValues(ParseIntHex(hex[0..2]), ParseIntHex(hex[2..4]), ParseIntHex(hex[4..6])))
    else
      Err("Invalid hex color format")
  }

  /** How `${v}` writes a `parseInt` result. */
  function ChannelText(v: Option<nat>): (t: string)
    ensures v.None? ==> t == "NaN"
    ensures v.Some? ==> (forall i :: 0 <= i < |t| ==> '0' <= t[i] <= '9') && DecimalValue(t) == v.value
  {
    match v
    case None => "NaN"
    case Some(n) => DecimalRoundTrip(n); DecimalText(n)
  }

  function HexToRgba(hex: string, alpha: string := DefaultAlpha): (out: Result<string>)
    ensures out.Ok? <==> ValidLength(hex)
    ensures out.Err? ==> out.message == "Invalid hex color format"
  {
    match ParseChannels(hex)
    case Err(e) => Err(e)
    case Ok(c) =>
      Ok("rgba(" + ChannelText(c.r) + ", " + ChannelText(c.g) + ", "
         + ChannelText(c.b) + ", " + alpha + ")")
  }

  /** A 3-digit colour gives the same text as its 6-digit expansion. */
  lemma ShortFormExpands(short: string, alpha: string)
    requires |short| == 3
    ensures HexToRgba(short, alpha) == HexToRgba(Doubled(short), alpha)
  {
    assert Doubled(short)[0] == short[0];
  }

  /** The leading '#' is optional. */
  lemma HashOptional(s: string, alpha: string)
    requires s == [] || s[0] != '#'
    ensures HexToRgba("#" + s, alpha) == HexToRgba(s, alpha)
  {
    assert ("#" + s)[1..] == s;
  }

  /**
   * For hex-digit input the channels are the pairs at offsets 0, 2 and 4
   * of the expanded text, each a byte, and they agree with `hexToRgb`.
   */
  lemma ChannelsOfHexDigits(hex: string)
    requires ValidLength(hex) && AllHex(StripHash(hex))
    ensures var h := Expand(StripHash(hex));
      |h| == 6 && AllHex(h) &&
      var rgb := ForegroundColor.HexToRgb(hex).value;
      ParseChannels(hex) == Ok(PairValues(Some(rgb.r), Some(rgb.g), Some(rgb.b))) &&
      rgb == ForegroundColor.Rgb(HexValue(h[0..2]), HexValue(h[2..4]), HexValue(h[4..6])) &&
      ForegroundColor.InByteRange(rgb)
  {
    ExpandedIsHex(hex);
    ForegroundColor.HexToRgbPairs(hex);
    PairsParse(Expand(StripHash(hex)));
  }

  /** Each pair of six hex digits parses to its value. */
  lemma PairsParse(h: string)
    requires |h| == 6 && AllHex(h)
    ensures ParseIntHex(h[0..2]) == Some(HexValue(h[0..2]))
    ensures ParseIntHex(h[2..4]) == Some(HexValue(h[2..4]))
    ensures ParseIntHex(h[4..6]) == Some(HexValue(h[4..6]))
  {
    forall k | 0 <= k < 3
      ensures AllHex(h[2 * k..2 * k + 2]) && h[2 * k..2 * k + 2] != []
    {
      var p := h[2 * k..2 * k + 2];
      assert p[0] == h[2 * k] && p[1] == h[2 * k + 1];
    }
  }

  /**
   * For hex-digit input the output is exactly
   * `"rgba(" + r + ", " + g + ", " + b + ", " + alpha + ")"` with r, g, b
   * the channels `hexToRgb` decodes, and the decimal text of each channel
   * reads back as that channel.
   */
  lemma RgbaText(hex: string, alpha: string)
    requires ValidLength(hex) && AllHex(StripHash(hex))
    ensures var rgb := ForegroundColor.HexToRgb(hex).value;
      && HexToRgba(hex, alpha) == Ok("rgba(" + DecimalText(rgb.r) + ", " + DecimalText(rgb.g) + ", "
                                     + DecimalText(rgb.b) + ", " + alpha + ")")
      && DecimalValue(DecimalText(rgb.r)) == rgb.r
      && DecimalValue(DecimalText(rgb.g)) == rgb.g
      && DecimalValue(DecimalText(rgb.b)) == rgb.b
  {
    ChannelsOfHexDigits(hex);
    var rgb := ForegroundColor.HexToRgb(hex).value;
    DecimalRoundTrip(rgb.r);
    DecimalRoundTrip(rgb.g);
    DecimalRoundTrip(rgb.b);
  }

  /** With the alpha left out, it is written as 1. */
  lemma DefaultAlphaIsOne(hex: string)
    ensures HexToRgba(hex) == HexToRgba(hex, "1")
  {
  }

  /** An example: "#abc" with alpha 0.5 is written "rgba(170, 187, 204, 0.5)". */
  lemma ExampleShortForm()
    ensures HexToRgba("#abc", "0.5") == Ok("rgba(170, 187, 204, 0.5)")
  {
    ExampleText();
    ExampleChannels();
    RgbaText("#abc", "0.5");
    ExampleDecimals();
    var text := "rgba(" + "170" + ", " + "187" + ", " + "204" + ", " + "0.5" + ")";
    assert HexToRgba("#abc", "0.5") == Ok(text);
  }

  lemma ExampleText()
    ensures "rgba(" + "170" + ", " + "187" + ", " + "204" + ", " + "0.5" + ")" == "rgba(170, 187, 204, 0.5)"
  {
  }

  lemma ExampleChannels()
    ensures ValidLength("#abc") && AllHex(StripHash("#abc"))
    ensures ForegroundColor.HexToRgb("#abc") == Some(ForegroundColor.Rgb(170, 187, 204))
  {
    ForegroundColor.HexToRgbOfShort("#abc", 'a', 'b', 'c');
  }

  lemma ExampleDecimals()
    ensures DecimalText(170) == "170" && DecimalText(187) == "187" && DecimalText(204) == "204"
  {
    assert DecimalText(17) == "17" && DecimalText(18) == "18" && DecimalText(20) == "20";
  }
}
