# gocolor in Dafny

A model of gocolor. This Go package has a colour value and two groups of
operations on it.

- The colour value has four `uint32` channels, R, G, B and A. It is valid when
  every channel, alpha included, is at most 255.
- The hex codec parses and prints the `#RGB`, `#RGBA`, `#RRGGBB` and
  `#RRGGBBAA` notations. The `#` is optional when parsing.
- The arithmetic is channel-wise subtraction, plus tints and shades. A tint
  moves a colour a fraction of the way toward white, and a shade toward
  black. Palettes of `n` tints or shades use the fractions `i / n`.

The whole package is the single file `color.go`. It is modelled in five
modules:

| file | module | what it holds |
|---|---|---|
| `color.dfy` | `Colors` | `Color`, its validity rule, `RGB`/`RGBA`, `Subtract`, `uint32` wrap-around, the error kinds |
| `hex.dfy` | `HexCodec` | `%02x` printing, `Color.Hex`/`HexA`, `Rmh`/`addh`/`norm`, the `fmt.Sscanf` scan, `Hex`/`ahex`, and the proofs about them |
| `rounding.dfy` | `Rounding` | `math.Round`, `bound`, and the arithmetic facts about shares and palette fractions |
| `tint.dfy` | `TintShade` | `diff`, `Tint`/`Shade`, `Tints`/`Shades` |
| `tint_props.dfy` | `TintShadeProperties` | ends, fixed points, monotonicity, palette order, test vectors |

## How the model is organised

Where Go changes things step by step, the model is imperative Dafny:

- `norm` fills a byte buffer in a loop and rewrites its result in a deferred
  function.
- `Hex` and `ahex` scan into out-variables.
- `Tint` and `Shade` update the fields of a copy one at a time, in `uint32`
  arithmetic.
- `Tints` and `Shades` fill an array in a counting loop and return early on
  an error.

Each of these methods is proved equal to a pure function: `Normalized`,
`Decoded`, `DecodedAlpha`, `Tinted` or `Shaded`. The properties are then
proved as lemmas about those functions.

A Go result pair `(Color, error)` becomes `(c, err: Option<Error>)` on the
methods and `Result<Color>` on the functions. `Colors.Returns` ties the two
together, and says that every error comes with the zero `Color{}`.

Some other modelling choices:

- A `uint32` is an `int` in `[0, 2^32)`. Every addition and subtraction that
  could wrap goes through `Add32` or `Sub32`.
- A `float64` fraction is an exact `real`.
- `math.Round` rounds halves away from zero.

### Where the code and its description differ

The model follows the code. Four of the code's behaviours depart from the
notation it describes or from its own comments:

- A 5-digit body is accepted. `"#fffff"` parses to (255, 255, 15), because
  the last `%02x` group reads the single digit left over.
- In a 6-digit body only the first five characters must be hex digits. The
  sixth is read only when it is a hex digit, so `"#fffffz"` also parses to
  (255, 255, 15).
- Several leading `#` do not always fail. `"##ffffff"` parses to `White`:
  `Rmh` strips one `#`, and `addh` does not add one back to a string that
  already starts with `#`.
- The comment on `Color.Hex` (color.go:59-62) says alpha is left out when
  A ≠ 255 unless `noAlpha[0]` is true. The code (color.go:64-65) and its
  tests (color_test.go:111-113) do the opposite: alpha is printed when
  A ≠ 255, unless `noAlpha[0]` is true. `HexCodec.ColorHex` follows the code.

## Model

| member | source | states |
|---|---|---|
| Colors.Add32 | color.go:102-105 | `+=` on `uint32` channels: the exact sum when it fits in 32 bits, the sum minus 2^32 otherwise |
| Colors.Sub32 | color.go:81-86 | `-` on `uint32`: the exact difference when it is not negative, the difference plus 2^32 otherwise |
| Colors.Color.RGBA | color.go:55-57 | the four returned channels rebuild exactly the colour they came from |
| Colors.Color.Subtract | color.go:74-91 | succeeds iff both operands are valid and no channel of `c2` exceeds the matching channel, alpha included; on success the result is the channel-wise difference; an invalid `c` is reported before an invalid `c2`; every error names an invalid colour |
| Colors.RGB | color.go:30-32 | the channels are `(r, g, b, 255)`; the colour is valid iff r, g and b are at most 255 |
| Colors.RGBA | color.go:34-36 | the channels are exactly the four arguments; the colour is valid iff all four are at most 255 |
| Colors.NamedColors | color.go:14-17 | `White` is (255, 255, 255, 255) and `Black` is (0, 0, 0, 255); both are valid |
| Colors.ValidityBoundary | color.go:150-152 | the validity rule: 255 is allowed on every channel, and 256 on any one channel, alpha included, makes the colour invalid |
| Colors.SubtractExamples | color_test.go:130-133 | White − White = `Color{}` (0,0,0,0); red − blue fails; a red channel of 300 is refused as source and as parameter; `White.RGBA()` is (255,255,255,255) |
| HexCodec.DigitValue | color.go:44 | `%x` reads a hex digit, either case, as a value below 16 |
| HexCodec.CaseInsensitive | color.go:44 | `%x` reads `A`–`F` as the same values as `a`–`f`, namely 10–15 |
| HexCodec.DecodedUpperCaseExample | color.go:38-49 | `"#FFF"` parses to `White`, as `"#fff"` does |
| HexCodec.DecodedUpperCaseFullExample | color.go:38-49 | `"#FF0000"` parses to red (255, 0, 0) |
| HexCodec.Digit | color.go:67 | `%x` prints a value below 16 as one lower-case hex digit, which reads back as that value |
| HexCodec.PairValue | color.go:44 | two hex digits read as one value below 256 |
| HexCodec.HexDigits | color.go:185-187 | `%x` prints lower-case hex digits: one digit iff n < 16, two iff 16 ≤ n < 256 |
| HexCodec.Format2 | color.go:185-187 | `%02x` prints at least two lower-case digits; exactly two iff n < 256, and then those two digits read back as n |
| HexCodec.ColorHexA | color.go:70-72 | `HexA` is `#` plus lower-case digits; it has exactly 9 characters iff the colour is valid, and then R, G, B and A are the two-digit pairs at positions 1, 3, 5 and 7 |
| HexCodec.ColorHex | color.go:59-68 | `Hex` starts with `#`; for a valid colour it has 7 characters when A = 255 or `noAlpha[0]` is true and 9 otherwise; R, G, B (and A when 9 long) are the two-digit pairs |
| HexCodec.Rmh | color.go:174-181 | reports a leading `#` exactly when there is one; the `#` put back before the rest gives the input |
| HexCodec.Addh | color.go:189-196 | the result starts with `#`; the input is returned unchanged iff it is longer than one character and starts with `#`; otherwise it is `#` + input |
| HexCodec.Doubled | color.go:163-167 | the buffer has twice the length, and character j is input character j / 2 |
| HexCodec.Normalized | color.go:154-172 | for a body without a second `#`, `norm` gives the optional `#` followed by the body with each digit doubled when it has 3 or 4 characters, or the body unchanged otherwise |
| HexCodec.Norm | color.go:155-172 | the buffer loop with the deferred `addh` computes `Normalized` |
| HexCodec.NormalizedIdempotent | color.go:202-203 | with at most one leading `#`, normalising twice equals normalising once, so the second `norm` inside `ahex` changes nothing |
| HexCodec.Groups | color.go:44 | n `%02x` verbs produce n values, each at most 255 |
| HexCodec.Scan | color.go:44 | `Sscanf` with the `#` pattern produces n values, each at most 255 |
| HexCodec.GroupsAccept | color.go:44 | scanning n ≥ 1 groups succeeds iff the first 2n − 1 characters are hex digits |
| HexCodec.GroupsPairs | color.go:208 | over 2n hex digits, group k is the value of digits 2k and 2k+1 |
| HexCodec.ScanColor | color.go:43-48 | the scan into r, g, b (and a) succeeds iff `Sscanf` does; the colour is valid, and A = 255 for three groups; a failure is a scan error |
| HexCodec.DecodedAlpha | color.go:202-213 | `ahex` yields only valid colours; a normalised input whose length is not 9 is refused with a length error, and one of length 9 is accepted iff the four-group scan succeeds |
| HexCodec.Decoded | color.go:38-49 | `Hex` yields only valid colours, and alpha is 255 whenever the normalised input is at most 7 characters long |
| HexCodec.AHex | color.go:202-213 | the step-by-step `ahex` returns exactly `DecodedAlpha`, with `Color{}` beside every error |
| HexCodec.Hex | color.go:38-49 | the step-by-step `Hex` returns exactly `Decoded`, with `Color{}` beside every error |
| HexCodec.Prepared | color.go:39 | with one optional `#` and a non-empty body, the string that is scanned is `#` followed by the expanded body |
| HexCodec.DecodedByLength | color.go:38-49 | `Hex` picks its path by the length of the expanded body: 6 or fewer characters scan three groups, 8 scan four, and any other length fails |
| HexCodec.ScanAfterHash | color.go:44 | after the literal `#`, the scan is the group scan of the rest |
| HexCodec.DoubledHex | color.go:162-168 | the doubled body, cut at 2·len − 1 or 2·len characters, is all hex iff the body is |
| HexCodec.EmptyRejected | color_test.go:63 | `""` and `"#"` fail with a scan error |
| HexCodec.BodyAccepts | color.go:40-48 | an expanded body is accepted iff it has 5 or 6 characters whose first five are hex, or 8 characters whose first seven are hex |
| HexCodec.ExpandScannable | color.go:162-168 | a body's expansion scans iff the body is 3 or 4 hex digits, or 5 or 6 characters with five leading hex digits, or 8 characters with seven |
| HexCodec.DecodedAccepts | color.go:38-49 | for every input with at most one leading `#`, `Hex` succeeds iff the body is of one of the accepted shapes; everything else, including the empty body, fails |
| HexCodec.BodyPairs | color.go:43-48 | 6 or 8 hex digits decode to their digit pairs, with A = 255 for 6 |
| HexCodec.DecodedPairs | color.go:38-49 | `Hex` on an input whose expanded body is 6 or 8 hex digits returns the digit pairs |
| HexCodec.DecodedShorthand | color.go:155-172 | a 3- or 4-digit body means each digit doubled, with alpha 255 for 3 digits |
| HexCodec.DecodedFull | color.go:38-49 | a 6- or 8-digit body reads as RGB with alpha 255, or as RGBA |
| HexCodec.RoundTrip | color.go:63-68 | for every valid colour c, `Hex(c.Hex())` returns c |
| HexCodec.RoundTripNoAlpha | color.go:63-67 | for every valid colour c, `Hex(c.Hex(true))` returns c with alpha 255 |
| HexCodec.RoundTripAlpha | color.go:70-72 | for every valid colour c, `ahex(c.HexA())` returns c |
| HexCodec.NormalizedShortExamples | color_test.go:201 | `norm("fff")` = `"ffffff"` |
| HexCodec.NormalizedShortHashExamples | color_test.go:203 | `norm("#fff")` = `"#ffffff"` |
| HexCodec.NormalizedAlphaExamples | color_test.go:205-206 | `norm("fffa")` = `"ffffffaa"`, `norm("#fff0")` = `"#ffffff00"` |
| HexCodec.NormalizedLongExamples | color_test.go:202-204 | six-digit inputs are left as they are, with or without `#` |
| HexCodec.DecodedOpaqueExamples | color_test.go:58-60 | `"#ffffff"` is `White` and `"#000000"` is `Black` |
| HexCodec.DecodedShorthandExample | color_test.go:59 | `"#fff"` is `White` |
| HexCodec.DecodedAlphaInputExamples | color_test.go:61-62 | `"#ff000000"` and `"ff000000"` are (255, 0, 0, 0) |
| HexCodec.DecodedRejects | color_test.go:63-65 | `""`, `"#00"` and `"#dfdsfadsfdsa"` fail |
| HexCodec.DecodedAlphaExamples | color_test.go:84 | `ahex("#ffffff80")` is (255, 255, 255, 128) |
| HexCodec.DecodedAlphaRejects | color_test.go:83-86 | `ahex` refuses `"#ffffff"`, `"#ffffff80ff"` and `"#ffffghff"` |
| HexCodec.DecodedFiveDigits | color.go:44 | `"#fffff"` parses to (255, 255, 15) |
| HexCodec.DecodedIgnoresLastCharacter | color.go:44 | `"#fffffz"` parses to (255, 255, 15) |
| HexCodec.DecodedDoubleHash | color.go:39 | `"##ffffff"` parses to `White` |
| HexCodec.ColorHexOpaqueExamples | color_test.go:108-110 | white, black and red print as `#ffffff`, `#000000` and `#ff0000` |
| HexCodec.ColorHexAlphaExamples | color_test.go:111-113 | alpha 128 prints as `#ffffff80`, also with `noAlpha` false, and as `#ffffff` with `noAlpha` true |
| Rounding.Round | color.go:223 | `math.Round`: the result is within one half of v, and a half is rounded away from zero |
| Rounding.Bound | color.go:222-224 | the result is in [0, 255]; it is the rounded value when that is in range, 255 when the rounded value is above 255, and 0 for v ≤ 0 |
| Rounding.BoundMonotone | color.go:222-224 | rounding and `bound` preserve the order of their arguments |
| Rounding.ShareMonotone | color.go:222-224 | `bound(a · p)` grows with p for a fixed byte amount a |
| Rounding.FractionBounds | color.go:113-114 | the palette fraction i / n lies in [0, 1), so the palette loop never hits the percent check |
| Rounding.FractionMonotone | color.go:113-114 | for i ≤ j the palette fraction i / n is no larger than j / n |
| TintShade.Diff | color.go:215-220 | `diff` is the exact channel-wise difference; between valid colours each difference lies in [−255, 255] |
| TintShade.Darken | color.go:129-133 | one shaded channel stays between 0 and its old value |
| TintShade.Lighten | color.go:100-105 | one tinted channel stays between its old value and 255 |
| TintShade.TintChannel | color.go:102-105 | adding `bound` of the share of the distance to 255 never wraps, and gives `Lighten` |
| TintShade.ShadeChannel | color.go:131-133 | subtracting `bound` of the share of the channel never wraps, and gives `Darken` |
| TintShade.ShadeAlpha | color.go:134 | the alpha difference to `Black` is never positive, so `Shade` subtracts 0 from alpha |
| TintShade.Tinted | color.go:93-107 | a fraction outside [0, 1] is refused before an invalid colour is; success iff the fraction is in range and the colour valid; the tint is valid and every channel, alpha included, lies between the original and 255 |
| TintShade.Shaded | color.go:122-136 | same refusals in the same order; the shade is valid, keeps alpha, and puts R, G, B between 0 and the original |
| TintShade.Tint | color.go:93-107 | the field-by-field `uint32` updates of the copy return exactly `Tinted`, with `Color{}` beside every error |
| TintShade.Shade | color.go:122-136 | the field-by-field `uint32` updates return exactly `Shaded`, with `Color{}` beside every error |
| TintShade.Tints | color.go:109-120 | the error is set iff n > 0 and the colour is invalid, and then the slice is nil; otherwise there are n colours and colour i is the tint at i / n |
| TintShade.Shades | color.go:138-148 | the error is set iff n > 0 and the colour is invalid, and then the slice is nil; otherwise there are n colours and colour i is the shade at i / n |
| TintShadeProperties.LightenEnds | color.go:100-105 | a channel tinted by 0 is unchanged; tinted by 1 it is 255 |
| TintShadeProperties.DarkenEnds | color.go:129-133 | a channel shaded by 0 is unchanged; shaded by 1 it is 0 |
| TintShadeProperties.TintEnds | color.go:93-107 | for a valid colour, `Tint(0)` is the colour and `Tint(1)` is `White` |
| TintShadeProperties.ShadeEnds | color.go:122-136 | for a valid colour, `Shade(0)` is the colour and `Shade(1)` is black with the colour's alpha |
| TintShadeProperties.FixedPoints | color.go:93-136 | `White` tints to itself and `Black` shades to itself at every fraction |
| TintShadeProperties.LightenMonotone | color.go:100-105 | a tinted channel grows with the fraction |
| TintShadeProperties.DarkenMonotone | color.go:129-133 | a shaded channel falls as the fraction grows |
| TintShadeProperties.TintMonotone | color.go:93-107 | every channel of a tint, alpha included, grows with the fraction |
| TintShadeProperties.ShadeMonotone | color.go:122-136 | R, G and B of a shade fall as the fraction grows |
| TintShadeProperties.PalettesStart | color.go:113-114 | colour 0 of both palettes is the colour itself |
| TintShadeProperties.TintsOrdered | color.go:109-120 | the tints palette lightens channel by channel from one colour to the next, alpha included |
| TintShadeProperties.ShadesOrdered | color.go:138-148 | the shades palette darkens channel by channel from one colour to the next |
| TintShadeProperties.RefusalExamples | color_test.go:156-157 | fraction 1.1 is refused, and so is a colour with red 300; the same vectors hold for `Shade` (color_test.go:179-180) |
| TintShadeProperties.HalfOf255 | color.go:223 | 127.5 rounds to 128 |
| TintShadeProperties.TintWhiteExample | color_test.go:158 | `White` tinted by 1 is white |
| TintShadeProperties.TintRedExample | color_test.go:159 | red tinted by 0.5 is (255, 128, 128) |
| TintShadeProperties.ShadeExamples | color_test.go:181-183 | `White` shaded by 1 is `Black`; red shaded by 0.5 is (127, 0, 0); red with alpha 128 shaded by 0.5 is (127, 0, 0, 128) |
| TintShadeProperties.Fifths | color.go:114 | the fractions i / 5 are in [0, 1), and `bound(255 · i / 5)` is 51 · i |
| TintShadeProperties.BlackTint | color_example_test.go:18-25 | colour i of `Black.Tints(5)` is the grey 51 · i: 0x00, 0x33, 0x66, 0x99, 0xcc |
| TintShadeProperties.WhiteShade | color_example_test.go:27-34 | colour i of `White.Shades(5)` is the grey 255 − 51 · i: 0xff, 0xcc, 0x99, 0x66, 0x33 |
| TintShadeProperties.GreyHex | color.go:67 | an opaque grey prints as `#` followed by its channel's two digits three times |
| TintShadeProperties.GreyDigits | color_example_test.go:18-34 | the palette greys' channels print as `00`, `33`, `66`, `99`, `cc` and `ff`; with `BlackTint`, `WhiteShade` and `GreyHex` this gives the printed palettes `#000000 #333333 #666666 #999999 #cccccc` and `#ffffff #cccccc #999999 #666666 #333333` |

## Left out

- `cmd/` and `web/` are not part of this model. They hold flag parsing, an HTTP server, templates and terminal colouring around the package.
- Floating point: fractions, `diff` and `bound` work on exact reals, not IEEE-754 `float64`. At a near-tie, `float64` rounding could differ from the exact value.
- HexCodec.Groups: the whitespace that `fmt.Sscanf` skips before a `%x` verb is not modelled; a non-hex character simply ends the scan.
- HexCodec.Norm: strings are sequences of characters. The byte length that `norm` tests and the runes it iterates over agree only on ASCII input, and non-ASCII input is not modelled.
- Colors.Error: errors carry their kind, and the text for a length error. The exact message texts of `fmt.Errorf` and `Sscanf` are not modelled.
- HexCodec.ColorHex: for an invalid colour the contract states only the leading `#`, the lower-case digits and a length of at least 7, not the wider `%02x` output digit by digit.
- HexCodec.DecodedAccepts: the exact acceptance rule is stated for inputs with at most one leading `#`. Inputs that start with `##` are covered only by `DecodedDoubleHash`.
- HexCodec.NormalizedIdempotent: stated for inputs with at most one leading `#`; `norm` is not idempotent on `"##…"` inputs.
- TintShade.Tints: `n` is a `nat`. With a negative `n`, Go's `make` panics, and that case is not modelled.
- TintShade.Shades: `n` is a `nat`, for the same reason.
- TintShadeProperties.GreyDigits: the printed palette strings follow from four lemmas together (`BlackTint` or `WhiteShade`, `GreyHex`, `GreyDigits`), not from a single lemma about the whole output line.
- `rptn` and the package-level patterns `ptn3` and `ptn4` are folded into `Format2`, `ColorHex` and `Scan` rather than modelled as format strings.
