# Colour, throttle and chart-data utilities, modelled in Dafny

This project models the four utility modules of a small React Native
crypto-wallet prototype:

- `utils/getForegroundColor.ts` decodes a hex colour (`hexToRgb`). It computes
  the colour's WCAG 2.x relative luminance (`getLuminance`, with `toLinear`)
  and the WCAG 2.x contrast ratio (`getContrastRatio`). From those,
  `getForegroundColor` picks white or black text for a background. Modelled
  in `foreground_color.dfy`.
- `utils/hexToRgba.ts` turns a hex colour and an alpha into an
  `rgba(r, g, b, alpha)` string (`hex_to_rgba.dfy`).
- `utils/throttle.ts` wraps a callback so that it runs at most once per time
  window, replaying the latest suppressed call when the window closes
  (`throttle.dfy`).
- `utils/formatCharData.ts` generates synthetic price series
  (`generateRandomPrice`) and turns five precomputed tables into chart
  coordinates (`getPriceCoordinates`, `getRandomCoords`,
  `formatForChartData`) (`price_charts.dfy`).

Two more files hold shared pieces. `results.dfy` has the `Option` and
`Result` types: `None` stands for JavaScript's `null` and `NaN`, and `Err`
for a thrown `Error`. `hex_text.dfy` holds the text rules both colour
utilities share:
- removing one leading `#`;
- doubling each character of a 3-digit colour;
- reading hex digits the way `parseInt(s, 16)` does;
- writing a natural number in decimal, as a template literal does.

Modelling choices:

- **Arithmetic.** Colour arithmetic and prices are over `real`. The two
  places where the source relies on integer bit operations (`>>` and `& 255`
  in `hexToRgb`) are written out as division and remainder on the
  non-negative value, which is below 2^24 there.
- **Unknown functions.** `Math.pow(x, 2.4)` is the parameter `pow24`, and
  only `IsTransferCurve` is known of it: it maps [0, 1] into [0, 1], does not
  decrease, and maps 1 to 1.
- **Random draws.** The values of `Math.random()` are an input sequence of
  draws.
- **Dates.** `new Date(text).getTime()` and
  `toISOString().split("T")[0]` are the function parameters of `DateOps`.
  Parsing gives `None` for an Invalid Date. `toISOString` on an Invalid Date
  throws a RangeError, and the model returns that error.
- **Throttle.** The closure is the class `Throttling.Throttle`. Its fields
  are `inThrottle`, `lastArgs` and `lastThis`, together with:
  - the number of armed timers;
  - a log of the calls of `func`;
  - a ghost record of the calls of the wrapper.

  Each method is proved against the pure state machine
  `Throttling.ThrottledStep` / `Throttling.Expire`, and the properties are
  proved about that machine.
- **`generateRandomPrice`.** It is the method
  `PriceCharts.GenerateRandomPrice` with its `while` loop. It is proved equal
  to the function `PriceCharts.GeneratedPrices`, and the properties of the
  series are proved about that function.

## Model

| member | source | states |
|---|---|---|
| HexText.HexRunLength | utils/getForegroundColor.ts:16 | the leading run that `parseInt` reads: every character in it is a hex digit and the next one is not |
| HexText.ParseIntHex | utils/getForegroundColor.ts:16 | `parseInt(s, 16)` is NaN exactly when `s` is empty or does not start with a hex digit; on an all-hex string it is the string's value |
| HexText.HexValueConcat | utils/getForegroundColor.ts:16 | reading `a + b` is reading `a`, shifted by one hex place per character of `b`, plus `b` |
| HexText.HexValueOfSix | utils/getForegroundColor.ts:16-21 | six digits read as the high pair times 2^16 plus the middle pair times 2^8 plus the low pair, each pair below 256 |
| HexText.HexValueOfPair | utils/getForegroundColor.ts:8-14 | a doubled digit reads as 17 times the digit |
| HexText.Doubled | utils/getForegroundColor.ts:9-13 | `split("").map(c => c + c).join("")` has twice the length, and character `i` is input character `i / 2` |
| HexText.ExpandedIsHex | utils/getForegroundColor.ts:8-14 | a valid-length all-hex colour expands to six hex digits |
| HexText.ExpandShort | utils/hexToRgba.ts:8-13 | three digits expand to the pairs `xx`, `yy`, `zz` at offsets 0, 2 and 4 |
| HexText.StripHash | utils/getForegroundColor.ts:5 | the text is unchanged exactly when it is empty or does not start with '#'; otherwise it is the text after that one '#' |
| HexText.Expand | utils/getForegroundColor.ts:8-14 | a 3-character text becomes 6 characters with character `i` equal to input character `i / 2`; any other length is left as it is |
| HexText.DecimalText | utils/hexToRgba.ts:23 | the template literal writes at least one decimal digit, with a leading '0' only for zero |
| HexText.DecimalRoundTrip | utils/hexToRgba.ts:23 | reading back the written decimal text gives the number |
| ForegroundColor.Channels | utils/getForegroundColor.ts:17-21 | `(v >> 16) & 255`, `(v >> 8) & 255`, `v & 255` are each in 0..255 |
| ForegroundColor.ByteFields | utils/getForegroundColor.ts:17-21 | the three byte fields of `hi * 2^16 + mid * 2^8 + lo` are `hi`, `mid`, `lo` |
| ForegroundColor.HexToRgb | utils/getForegroundColor.ts:4-22 | null exactly when the length after removing one leading '#' is not 3 or 6, whatever the characters; otherwise three bytes |
| ForegroundColor.HexToRgbPairs | utils/getForegroundColor.ts:16-21 | for hex-digit input, r, g, b are the values of the pairs at offsets 0, 2, 4 of the expanded text |
| ForegroundColor.HexToRgbShortForm | utils/getForegroundColor.ts:8-14 | every 3-character colour, '#' included, decodes like its doubled 6-character form |
| ForegroundColor.HexToRgbHashOptional | utils/getForegroundColor.ts:5 | one leading '#' is optional |
| ForegroundColor.HexToRgbOfShort | utils/getForegroundColor.ts:8-21 | '#' and three digits decode to 17 times each digit |
| ForegroundColor.HexToRgbOfRepeated | utils/getForegroundColor.ts:8-21 | a repeated digit, in the 3- or 6-digit form, decodes to three equal channels |
| ForegroundColor.BlackDecodes | utils/getForegroundColor.ts:4-22 | "#000000" and "#000" decode to (0, 0, 0) |
| ForegroundColor.WhiteDecodes | utils/getForegroundColor.ts:4-22 | "#FFFFFF" and "#FFF" decode to (255, 255, 255) |
| ForegroundColor.ToLinear | utils/getForegroundColor.ts:36-39 | `toLinear`, with `Math.pow(_, 2.4)` as the parameter `pow24`; its range is stated by `ToLinearRange` and its low branch by `ToLinearLowBranch` |
| ForegroundColor.Luminance | utils/getForegroundColor.ts:27-45 | `getLuminance`, the weighted sum of the three linear channels; its range and its values at black and white are stated by `LuminanceRange` |
| ForegroundColor.ContrastRatio | utils/getForegroundColor.ts:50-54 | `getContrastRatio`, defined whenever the smaller luminance plus 0.05 is non-zero; its symmetry and lower bound are stated by `ContrastRatioProperties` |
| ForegroundColor.ToLinearRange | utils/getForegroundColor.ts:36-39 | `toLinear` maps channels 0..255 into [0, 1], with 0 at 0 and 255 at 1 |
| ForegroundColor.ToLinearLowBranch | utils/getForegroundColor.ts:37-38 | for `c = channel / 255 <= 0.03928` the result is exactly `c / 12.92`, whatever the power curve |
| ForegroundColor.LuminanceRange | utils/getForegroundColor.ts:40-44 | the weights sum to 1, so the luminance of a byte colour is in [0, 1]; black is 0 and white is 1 |
| ForegroundColor.ContrastRatioProperties | utils/getForegroundColor.ts:50-54 | the contrast ratio is symmetric, at least 1, and exactly 1 for equal luminances |
| ForegroundColor.GetForegroundColor | utils/getForegroundColor.ts:59-75 | throws "Invalid hex color" exactly when `hexToRgb` returns null; otherwise returns "#FFFFFF" or "#000000" |
| ForegroundColor.ContrastComparison | utils/getForegroundColor.ts:64-74 | against white the ratio is `1.05 / (L + 0.05)`, against black `(L + 0.05) / 0.05`; white wins, ties included, exactly when `(L + 0.05)^2 <= 1.05 * 0.05` |
| ForegroundColor.ForegroundByLuminance | utils/getForegroundColor.ts:63-74 | the result is white exactly when `(L + 0.05)^2 <= 1.05 * 0.05`, so equal contrasts give white |
| ForegroundColor.PrefersWhiteAntitone | utils/getForegroundColor.ts:74 | if a luminance does not prefer white, no higher luminance does |
| ForegroundColor.ForegroundMonotone | utils/getForegroundColor.ts:63-74 | black text on one background means black text on every background that is at least as luminous |
| ForegroundColor.ForegroundShortForm | utils/getForegroundColor.ts:8-14 | every 3-character background gets the same foreground as its doubled form |
| ForegroundColor.WhiteOnBlack | utils/getForegroundColor.ts:63-74 | any colour that decodes to black gets "#FFFFFF" |
| ForegroundColor.BlackOnWhite | utils/getForegroundColor.ts:63-74 | any colour that decodes to white gets "#000000" |
| ForegroundColor.ForegroundOfBlack | utils/getForegroundColor.ts:59-75 | "#000000" and "#000" get "#FFFFFF" |
| ForegroundColor.ForegroundOfWhite | utils/getForegroundColor.ts:59-75 | "#FFFFFF" and "#FFF" get "#000000" |
| Rgba.ParseChannels | utils/hexToRgba.ts:4-21 | throws "Invalid hex color format" exactly when the length after removing one leading '#' is not 3 or 6 |
| Rgba.HexToRgba | utils/hexToRgba.ts:1-24 | the same error rule for the whole conversion: the characters never cause it |
| Rgba.ShortFormExpands | utils/hexToRgba.ts:8-13 | `hexToRgba(s, a) == hexToRgba(doubled s, a)` for every 3-character `s` |
| Rgba.HashOptional | utils/hexToRgba.ts:4-6 | `hexToRgba("#" + s, a) == hexToRgba(s, a)` when `s` does not start with '#' |
| Rgba.ChannelsOfHexDigits | utils/hexToRgba.ts:15-18 | for hex-digit input the channels are the pairs at offsets 0, 2, 4, each a byte, and equal to what `hexToRgb` decodes |
| Rgba.ChannelText | utils/hexToRgba.ts:23 | a NaN channel is written "NaN"; a number is written in decimal digits that read back as the number |
| Rgba.RgbaText | utils/hexToRgba.ts:23 | for hex-digit input the output is exactly `"rgba(" + r + ", " + g + ", " + b + ", " + alpha + ")"`, and each decimal field reads back as its channel |
| Rgba.DefaultAlphaIsOne | utils/hexToRgba.ts:1 | leaving out alpha writes it as 1 |
| Rgba.ExampleChannels | utils/getForegroundColor.ts:8-21 | "#abc" is valid and decodes to (170, 187, 204) |
| Rgba.ExampleShortForm | utils/hexToRgba.ts:1-24 | `hexToRgba("#abc", 0.5)` is "rgba(170, 187, 204, 0.5)" |
| Throttling.ThrottledStep | utils/throttle.ts:14-31 | one run of the `throttled` body on the pure state; what it does is stated by `CallOutcome`, and the invariant it keeps by `ThrottledKeepsInv` |
| Throttling.Expire | utils/throttle.ts:19-26 | one run of the timer callback, defined only while a timer is armed; stated by `ExpireOutcome` and `ExpireKeepsInv` |
| Throttling.Run | utils/throttle.ts:9-34 | a trace of calls and timer expiries, `None` when a timer fires that was never armed; its invariant and ordering are stated by `RunKeepsOrder` and its composition by `RunAppend` |
| Throttling.InitialInv | utils/throttle.ts:10-12 | the fresh closure is open, stores nothing and has no timer |
| Throttling.ThrottledKeepsInv | utils/throttle.ts:14-31 | a call keeps the invariant "a timer is armed exactly while throttled, and a call is stored only then" |
| Throttling.ExpireKeepsInv | utils/throttle.ts:19-26 | a timer expiry keeps the same invariant, so at most one timer is ever outstanding |
| Throttling.CallOutcome | utils/throttle.ts:15-30 | an open call invokes `func` once with its args and receiver, throttles and arms one timer; a throttled call invokes nothing and replaces the stored call |
| Throttling.ExpireOutcome | utils/throttle.ts:19-25 | an expiry with a stored call invokes `func` with it, re-throttles with a new timer and clears the slot; without one it reopens and invokes nothing |
| Throttling.ThrottledKeepsOrder | utils/throttle.ts:14-31 | after a call, the invocations plus the stored call are still an ordered selection of the calls made |
| Throttling.ExpireKeepsOrder | utils/throttle.ts:19-25 | an expiry delivers nothing new: it moves the stored call into the log |
| Throttling.RunKeepsOrder | utils/throttle.ts:14-31 | over any trace of events, the invariant and the ordered-selection property hold |
| Throttling.InvocationsFollowCalls | utils/throttle.ts:9-34 | from the start, the invocation log is an order-preserving subsequence of the calls, so there are never more invocations than calls |
| Throttling.LastCallWins | utils/throttle.ts:27-30 | calls while throttled invoke nothing and leave the last of them stored |
| Throttling.RunAppend | utils/throttle.ts:14-31 | running two traces in sequence is running their concatenation |
| Throttling.SingleCall | utils/throttle.ts:15-26 | one call and its expiry: one immediate invocation, then open again with nothing stored |
| Throttling.FiveCallsOneExpiry | utils/throttle.ts:14-31 | five calls and one expiry invoke `func` exactly twice, with the first and the fifth call |
| Throttling.Throttle.constructor | utils/throttle.ts:9-12 | the new closure is in the initial state and keeps its invariant |
| Throttling.Throttle.Throttled | utils/throttle.ts:14-31 | the closure's fields change exactly as one step of the `throttled` body says |
| Throttling.Throttle.Call | utils/throttle.ts:14-31 | a user call changes the state as `throttled` does, records the call and keeps `Valid()` |
| Throttling.Throttle.TimerFire | utils/throttle.ts:19-26 | the timer callback, re-entering `throttled`, changes the state as an expiry does and keeps `Valid()` |
| PriceCharts.RandomFactor | utils/formatCharData.ts:82 | for a draw in [0, 1) and volatility `v >= 0`, the factor lies in [1 - v, 1 + v] |
| PriceCharts.AverageStepGrowth | utils/formatCharData.ts:75-76 | `(end - start) / (steps - 1)`, or 0 for `steps == 1`, where the source's quotient is never read; used by `PricesRecurrence` and `ZeroVolatilityIsLinear` |
| PriceCharts.Walk | utils/formatCharData.ts:74-89 | the values pushed by the loop: `n` of them, the first being `start` |
| PriceCharts.WalkPrefix | utils/formatCharData.ts:78-89 | a shorter run of the loop is a prefix of a longer one |
| PriceCharts.WalkStep | utils/formatCharData.ts:79-88 | each pushed value is the previous plus the average growth times its factor, capped at `end` |
| PriceCharts.WalkExtend | utils/formatCharData.ts:79-88 | one more round of the loop appends `min(previous + growth * factor, end)` |
| PriceCharts.WalkCapped | utils/formatCharData.ts:87-88 | no pushed value after the first exceeds `end` |
| PriceCharts.GeneratedPrices | utils/formatCharData.ts:74-92 | the result has `steps` values for `steps >= 1` and one value otherwise |
| PriceCharts.GenerateRandomPrice | utils/formatCharData.ts:68-95 | the loop computes exactly the series `GeneratedPrices` describes |
| PriceCharts.PricesShape | utils/formatCharData.ts:74-92 | length `steps` (or `[end]` for `steps <= 1`), never an error; the last value is `end`, the first is `start` for `steps >= 2`, none after the first exceeds `end` |
| PriceCharts.PricesRecurrence | utils/formatCharData.ts:75-88 | intermediate values are `min(values[i-1] + (end - start)/(steps - 1) * factor_i, end)` with `factor_i` in [1 - v, 1 + v] |
| PriceCharts.ZeroVolatilityIsLinear | utils/formatCharData.ts:76-88 | with volatility 0 and `end >= start`, `values[i] = start + i * (end - start)/(steps - 1)` |
| PriceCharts.WalkIsLinear | utils/formatCharData.ts:82-88 | with volatility 0 and no capping, the loop's values lie on a straight line |
| PriceCharts.WalkLastIsLinear | utils/formatCharData.ts:82-88 | the last value pushed so far, with volatility 0, is `start + i * growth` |
| PriceCharts.PresetTables | utils/formatCharData.ts:99-103 | the five tables have STEPS = 20 entries, start at their presets' start and end exactly at their presets' end |
| PriceCharts.RandomDate | utils/formatCharData.ts:63-66 | a label exactly when both anchors are valid dates and `end - start` is a valid time value; a RangeError otherwise |
| PriceCharts.RandomDateDependsOnDistance | utils/formatCharData.ts:63-66 | `getRandomDate` depends only on the distance between its anchors |
| PriceCharts.Series | utils/formatCharData.ts:121-127 | 20 points with the table's y values and the anchors' one label, or the RangeError of that label |
| PriceCharts.GetPriceCoordinates | utils/formatCharData.ts:112-182 | succeeds exactly when every history it reads the first and last entry of is non-empty and every pair of anchors, the fixed ones of `zero` included, gives a date label; the error is a TypeError or a RangeError, and a TypeError when `daily` is empty |
| PriceCharts.PriceCoordinatesShape | utils/formatCharData.ts:121-172 | six series of 20 points: y values from the matching table (zeros in `zero`), and one x label shared by each series, that of its anchors |
| PriceCharts.ForChart | utils/formatCharData.ts:192-200 | the labels are the points' x values and the one dataset their y values, in order |
| PriceCharts.FormatForChartData | utils/formatCharData.ts:189-234 | succeeds exactly when `getPriceCoordinates` does, and passes on its TypeError or RangeError |
| PriceCharts.ChartDataShape | utils/formatCharData.ts:189-233 | each chart series has the x values as labels and the table as its single dataset, 20 entries each |
| PriceCharts.GetRandomCoords | utils/formatCharData.ts:105-110 | 20 points, or a RangeError exactly when the fixed anchors give no date label |
| PriceCharts.RandomCoordsShape | utils/formatCharData.ts:105-110 | 20 points sharing one x label; the first y is 0.3, the last exactly 49.5, none above 49.5 |

## Left out

- Rendering code, navigation and animation are not part of this model; nor are `utils/normalizeDimensions` and `data/mock-coins`.
- Floating point: all colour and price arithmetic is exact real arithmetic, with no IEEE-754 rounding, infinities or NaN.
- `Math.pow((c + 0.055) / 1.055, 2.4)` is the parameter `pow24`. Only its range, its monotonicity and its value at 1 are assumed, so results that depend on its exact values are not derived.
- `parseInt(s, 16)`: leading blanks, a sign and a `0x` prefix are not modelled. Channel values are stated for all-hex-digit input. On other input the model follows the rules it does have: it reads the leading hex-digit run, the result is NaN when there is none, a NaN becomes 0 under `>>` in `hexToRgb`, and it is written "NaN" by `hexToRgba`.
- `hexToRgba`'s `alpha` is taken as the text the template literal writes for that number ("1" by default). Number-to-text conversion of non-integers is not modelled.
- `Math.random()` is an input sequence of draws. The tables computed when `formatCharData.ts` loads are a parameter (`Tables`), with `PresetTables` saying how they are made from draws.
- `Date` parsing and `toISOString` are the function parameters of `DateOps`: the model does not say which texts parse (whether "2025-3-31", which is not in ISO form, is a valid date is left to that parameter). `getRandomDate` formats the instant `end - start` milliseconds after the epoch, so each series has one x label.
- `getPriceCoordinates`'s `useTimestamps` parameter is accepted and never read by the source, so the model leaves it out.
- `generateRandomPrice` never fails: it returns `[end]` for `steps <= 1`. For `steps == 1` it divides by zero, but the quotient is never read, so the model puts 0 there.
- `throttle` accepts any `limit`. Time is not modelled, so `limit` is stored and never read, and the expiry is an explicit event.
- JavaScript `this` binding is not modelled: the receiver is an opaque value stored with the arguments. `lastArgs` and `lastThis` are kept as two fields of the class and as one pending slot in the pure state.
- ForegroundColor.ContrastRatio: it requires the smaller luminance plus 0.05 to be non-zero. JavaScript would divide by zero there, but this cannot happen for the luminances `getForegroundColor` passes, which lie in [0, 1].
- ForegroundColor.HexToRgb, Rgba.HexToRgba: a string is a sequence of Unicode scalar values, not of UTF-16 code units. JavaScript's `length` and `split("")` count code units, so a text with a character outside the Basic Multilingual Plane, such as "#😀a", has a different length there (3, a short form) than in the model (2, invalid).
- Throttling.Throttle: `func` is assumed to return normally and not to call the throttled wrapper itself. In the source, `func.apply` runs before `inThrottle = true`, so a throwing `func` leaves the wrapper open with no timer, and a nested call from `func` is invoked again. In the timer callback, a throwing replay leaves `lastArgs` stored.
- PriceCharts.GenerateRandomPrice: `steps` is a JavaScript number, taken here as an integer. A fractional `steps` runs the loop up to the next integer; every caller passes STEPS = 20.
