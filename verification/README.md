# ReaLTaiizor Material helpers in Dafny

This project models the Material-design helpers of the ReaLTaiizor WinForms
library and proves properties about them:

- `MaterialColorHelper` converts HSL to RGB (`FromHsl`) with hard range checks
  and builds `Lighten` and `Darken` on top of it.
- `MaterialDrawHelper` builds rounded-rectangle paths, blends two colours, and
  lays out the two five-layer drop shadows.
- `MaterialLabel` maps `ContentAlignment` to the text renderer's flags. It
  keeps the cached flags in step with the `TextAlign` property, and chooses the
  paint colours and the preferred size.

Modules:

- `Numerics` (`numerics.dfy`) holds the two integer conversions the helpers
  use. `Convert.ToInt32` rounds to nearest with ties to even. The `(int)` cast
  truncates toward zero. It also holds the small interpolation functions whose
  contracts carry the nonlinear facts.
- `Drawing` (`drawing.dfy`) holds the System.Drawing values: `Color` with byte
  channels, `Rectangle`, `RectangleF` and `Size`. `Color.FromArgb`'s range
  exception becomes the subset type `Byte`, so every construction must prove
  it never throws.
- `MaterialColorHelper` (`color_helper.dfy`) models `FromHsl`, `Lighten` and
  `Darken`. The throwing cases are an `Outcome` value naming the parameter, as
  the exception does. The textbook HSL-to-RGB formula serves as an
  independent reference: the source's formula is proved equal to it on every
  accepted input.
- `MaterialDrawHelper` (`draw_helper.dfy`) models a path as the list of its arcs
  plus a closed flag, and a shadow as the list of fills it issues.
- `MaterialLabel` (`material_label.dfy`) models the label as an immutable
  record. A flags value is the set of flags or-ed together.

Floating-point numbers are modelled as mathematical reals. Where the written
documentation and the code differ, the model follows the code:

- `FromHsl` accepts hue 360. It falls in sextant 6, takes the table's default
  arm, and gives the colour of hue 0 (`Hue360IsHue0`).
- `FromHsl` throws on out-of-range arguments rather than clamping them.
- `Lighten` replaces the raised lightness with 0.1 only when it is at or below
  0. A lightness in (0, 0.1) passes through unchanged (`LightenOfBlack`).

## Model

| member | source | states |
|---|---|---|
| Numerics.RoundHalfEven | src/ReaLTaiizor/Helper/Material.cs:78 | `Convert.ToInt32` of a real gives an integer within 1/2 of it, strictly off a tie, and the even one on a tie |
| Numerics.RoundHalfEvenUnique | src/ReaLTaiizor/Helper/Material.cs:114-116 | the rounding contract determines the result: any integer meeting it is the rounded value |
| Numerics.RoundHalfEvenMonotone | src/ReaLTaiizor/Helper/Material.cs:114-116 | rounding preserves order, so max ≥ mid ≥ min survives the conversion to bytes |
| Numerics.RoundHalfEvenBounded | src/ReaLTaiizor/Helper/Material.cs:114-116 | a value between two integers rounds to a value between them, so a channel in [0, 1] scaled by 255 rounds into a byte |
| Numerics.TruncateToward0 | src/ReaLTaiizor/Helper/Material.cs:157-159 | the `(int)` cast returns the integer part: floor for non-negative values, ceiling for negative ones |
| Numerics.TruncateBetween | src/ReaLTaiizor/Helper/Material.cs:157-159 | a non-negative value between two integers truncates to a value between them |
| Numerics.Weighted | src/ReaLTaiizor/Helper/Material.cs:155-159 | background·invRatio + front·ratio, with non-negative weights summing to 1, lies between background and front |
| Numerics.Climb | src/ReaLTaiizor/Helper/Material.cs:105-108 | the even-sextant middle channel hue·(fMax − fMin) + fMin lies in [fMin, fMax] for a ramp in [0, 1] |
| Numerics.Descend | src/ReaLTaiizor/Helper/Material.cs:109-112 | the odd-sextant middle channel fMin − hue·(fMax − fMin) lies in [fMin, fMax] for a ramp in [−1, 0] |
| Drawing.FromRgb | src/ReaLTaiizor/Helper/Material.cs:160 | `Color.FromArgb(r, g, b)` is opaque and keeps the three channels |
| Drawing.ToRectangleF | src/ReaLTaiizor/Helper/Material.cs:143-151 | widening a `Rectangle` to a `RectangleF` keeps all four coordinates |
| MaterialColorHelper.FromHsl | src/ReaLTaiizor/Helper/Material.cs:54-127 | throws exactly when a parameter is out of its inclusive range; the parameter named is the first failing one in the order alpha, hue, saturation, lighting; alpha is kept; saturation 0 gives the grey round(L·255) |
| MaterialColorHelper.Chromatic | src/ReaLTaiizor/Helper/Material.cs:81-126 | the chromatic branch keeps alpha, and its largest and smallest channels are the rounded chroma bounds fMax·255 and fMin·255 |
| MaterialColorHelper.ChromaBounds | src/ReaLTaiizor/Helper/Material.cs:84-93 | the two formulas for (fMax, fMin) give 0 ≤ fMin ≤ fMax ≤ 1, centred on L (sum 2L) and the chroma (1 − \|2L − 1\|)·S apart |
| MaterialColorHelper.BoundsAreStandard | src/ReaLTaiizor/Helper/Material.cs:84-93 | fMax and fMin are the textbook C + m and m, with m = L − C/2 |
| MaterialColorHelper.Sextant | src/ReaLTaiizor/Helper/Material.cs:95 | floor(hue/60) lies in 0..6, brackets the hue, and is 6 exactly for hue 360 |
| MaterialColorHelper.Ramp | src/ReaLTaiizor/Helper/Material.cs:97-103 | the folded hue lies in [0, 1) in even sextants and in [−1, 0) in odd ones, and is 0 in sextant 6 |
| MaterialColorHelper.MidChannel | src/ReaLTaiizor/Helper/Material.cs:105-112 | the middle channel lies between fMin and fMax |
| MaterialColorHelper.MidIsStandard | src/ReaLTaiizor/Helper/Material.cs:95-112 | the folded ramp gives the textbook middle channel X + m with X = C·(1 − \|H′ mod 2 − 1\|), and the source's sextant equals the textbook's, with 6 read as 0 |
| MaterialColorHelper.Arrange | src/ReaLTaiizor/Helper/Material.cs:118-126 | the channel table keeps alpha and permutes (iMax, iMid, iMin) |
| MaterialColorHelper.ArrangeIsTextbook | src/ReaLTaiizor/Helper/Material.cs:118-126 | the source's switch is the textbook sextant table, its default arm serving sextants 0 and 6 |
| MaterialColorHelper.ArrangeExtremes | src/ReaLTaiizor/Helper/Material.cs:118-126 | whatever the sextant, the largest output channel is iMax and the smallest is iMin |
| MaterialColorHelper.ToChannel | src/ReaLTaiizor/Helper/Material.cs:114-116 | `Convert.ToInt32(f * 255)` of a channel in [0, 1] is a byte within 1/2 of f·255 |
| MaterialColorHelper.FromHslIsStandard | src/ReaLTaiizor/Helper/Material.cs:54-127 | every accepted input converts to the textbook HSL-to-RGB colour, each channel scaled to 255 and rounded half to even |
| MaterialColorHelper.ChromaticIsStandard | src/ReaLTaiizor/Helper/Material.cs:81-126 | the chromatic branch agrees with the textbook conversion |
| MaterialColorHelper.GreyIsStandard | src/ReaLTaiizor/Helper/Material.cs:76-79 | with saturation 0 the textbook colour is (L, L, L), matching the grey branch |
| MaterialColorHelper.ChannelsAreStandard | src/ReaLTaiizor/Helper/Material.cs:84-112 | the source's (fMax, fMid, fMin), ordered by its sextant, are the textbook RGB channels |
| MaterialColorHelper.OrderCommutesWithChannel | src/ReaLTaiizor/Helper/Material.cs:114-126 | converting to bytes before or after the sextant ordering gives the same channels |
| MaterialColorHelper.FromHslKeepsLightnessAndChroma | src/ReaLTaiizor/Helper/Material.cs:76-126 | the output's largest and smallest channels sum to 510·L and differ by 255·C, each within 1 |
| MaterialColorHelper.Hue360IsHue0 | src/ReaLTaiizor/Helper/Material.cs:61-63 | hue 360 is accepted and converts exactly like hue 0, for every other argument |
| MaterialColorHelper.GreyExample | src/ReaLTaiizor/Helper/Material.cs:76-79 | lighting 0.5 scales to the tie 127.5 and gives grey 128 |
| MaterialColorHelper.RedExample | src/ReaLTaiizor/Helper/Material.cs:84-126 | (255, 0, 1, 0.5) converts to opaque pure red |
| MaterialColorHelper.BoundaryExamples | src/ReaLTaiizor/Helper/Material.cs:56-74 | one step past either end of each range throws naming that parameter; both ends are accepted |
| MaterialColorHelper.ZeroLightingIsBlack | src/ReaLTaiizor/Helper/Material.cs:76-126 | lighting 0 gives black for every accepted hue and saturation |
| MaterialColorHelper.FullLightingIsWhite | src/ReaLTaiizor/Helper/Material.cs:76-126 | lighting 1 gives white for every accepted hue and saturation |
| MaterialColorHelper.LightenLighting | src/ReaLTaiizor/Helper/Material.cs:18-28 | the raised lightness l + l·p becomes 1 above 1 and 0.1 at or below 0, otherwise passes through; the result is in (0, 1] |
| MaterialColorHelper.DarkenLighting | src/ReaLTaiizor/Helper/Material.cs:37-47 | the lowered lightness l − l·p is clamped into [0, 1]: the result is the nearest point of [0, 1] to it |
| MaterialColorHelper.Lighten | src/ReaLTaiizor/Helper/Material.cs:16-33 | the lightness handed on never trips the lighting check: the result is a colour exactly when hue and saturation are valid, any exception names hue or saturation, and alpha is kept |
| MaterialColorHelper.Darken | src/ReaLTaiizor/Helper/Material.cs:35-52 | the same guarantees as `Lighten` for the darkened lightness |
| MaterialColorHelper.LightenNeverDarkens | src/ReaLTaiizor/Helper/Material.cs:18-28 | a non-negative percentage never lowers a valid lightness |
| MaterialColorHelper.DarkenScales | src/ReaLTaiizor/Helper/Material.cs:37-47 | a percentage in [0, 1] scales the lightness by 1 − p, never raising it |
| MaterialColorHelper.LightenOfBlack | src/ReaLTaiizor/Helper/Material.cs:25-28 | black lightens to lighting 0.1 whatever the percentage, while a lightness of 0.05 passes through unchanged |
| MaterialColorHelper.ZeroPercentKeepsLightness | src/ReaLTaiizor/Helper/Material.cs:16-52 | a zero percentage leaves the lightness alone (in (0, 1] for lighten, in [0, 1] for darken) |
| MaterialColorHelper.DarkenFullyIsBlack | src/ReaLTaiizor/Helper/Material.cs:35-52 | darkening by 100% gives black with the original alpha |
| MaterialColorHelper.LightenFarIsWhite | src/ReaLTaiizor/Helper/Material.cs:16-33 | once l + l·p reaches 1, lightening gives white with the original alpha |
| MaterialDrawHelper.CreateRoundRect | src/ReaLTaiizor/Helper/Material.cs:132-141 | a closed figure of four 90° arcs in 2r-by-2r boxes pinned to the top-right, bottom-right, bottom-left and top-left corners, starting at 270°, 0°, 90° and 180° |
| MaterialDrawHelper.RoundRectUnique | src/ReaLTaiizor/Helper/Material.cs:132-141 | that description is complete: it admits only `CreateRoundRect`'s path |
| MaterialDrawHelper.CreateRoundRectOfRectangle | src/ReaLTaiizor/Helper/Material.cs:143-146 | the `Rectangle` overload is the rounded rectangle of the rectangle's coordinates |
| MaterialDrawHelper.CreateRoundRectOfRectangleF | src/ReaLTaiizor/Helper/Material.cs:148-151 | the `RectangleF` overload is the rounded rectangle of the rectangle's coordinates |
| MaterialDrawHelper.RoundRectOverloadsAgree | src/ReaLTaiizor/Helper/Material.cs:143-151 | an integer rectangle and its floating-point widening give the same path |
| MaterialDrawHelper.RoundRectAnglesChain | src/ReaLTaiizor/Helper/Material.cs:135-139 | each arc ends at the angle where the next begins, and the last ends where the first begins |
| MaterialDrawHelper.RoundRectEdgesOnSides | src/ReaLTaiizor/Helper/Material.cs:135-139 | the straight joins between consecutive arcs run along the right, bottom, left and top sides |
| MaterialDrawHelper.RoundRectSpansRect | src/ReaLTaiizor/Helper/Material.cs:132-141 | with 2r within width and height, every corner box lies inside the rectangle and together they touch all four sides |
| MaterialDrawHelper.Mix | src/ReaLTaiizor/Helper/Material.cs:155-159 | one channel before the cast: blend 0 gives the background channel and blend 255 the front one |
| MaterialDrawHelper.BlendChannel | src/ReaLTaiizor/Helper/Material.cs:157-159 | the cast truncates the mix toward zero, so it is within one unit below a non-negative mix; blend 0 and 255 give the two inputs exactly |
| MaterialDrawHelper.BlendChannelBetween | src/ReaLTaiizor/Helper/Material.cs:155-159 | for blend in [0, 255] the real-valued mix, truncated, lies between the two inputs' channels, so it is a byte |
| MaterialDrawHelper.BlendFitsInRange | src/ReaLTaiizor/Helper/Material.cs:153-161 | for blend in [0, 255] `Color.FromArgb` accepts all three channels |
| MaterialDrawHelper.BlendColor | src/ReaLTaiizor/Helper/Material.cs:153-161 | the result is opaque; blend 0 gives the background's RGB and blend 255 the front's; for blend in [0, 255] each channel of the real-valued mix lies between the inputs' |
| MaterialDrawHelper.BlendColorByAlpha | src/ReaLTaiizor/Helper/Material.cs:163-166 | the two-argument overload always succeeds and is the three-argument one with the front colour's alpha; an opaque front wins, a transparent one leaves the background |
| MaterialDrawHelper.BlendWithItself | src/ReaLTaiizor/Helper/Material.cs:153-161 | over the reals, blending a colour with itself gives its opaque version, for any blend amount |
| MaterialDrawHelper.BlendSwap | src/ReaLTaiizor/Helper/Material.cs:153-161 | over the reals, swapping the colours and complementing the blend amount gives the same colour |
| MaterialDrawHelper.SquareLayer | src/ReaLTaiizor/Helper/Material.cs:172-181 | one shadow fill: the ARGB(12, 0, 0, 0) brush filling the rounded rectangle of the bounds moved by (dx, dy), grown by the given amount, with the given radius |
| MaterialDrawHelper.DrawSquareShadow | src/ReaLTaiizor/Helper/Material.cs:168-183 | five rounded-rectangle fills with the ARGB(12, 0, 0, 0) brush, offsets (−3.5, −1.5), (−2.5, −1.5), (−1.5, −0.5), (−0.5, 1.5), (−0.5, 2.5), growth 6, 4, 2, 0, 0 and radii 8, 6, 4, 4, 4 |
| MaterialDrawHelper.SquareShadowFallsBelow | src/ReaLTaiizor/Helper/Material.cs:168-183 | every layer starts left of the bounds and reaches below them, and the corner boxes never grow from one layer to the next |
| MaterialDrawHelper.RoundShadowRects | src/ReaLTaiizor/Helper/Material.cs:188-192 | the five ellipse rectangles in order; each spans the bounds horizontally, starts at most 2 below their top, and reaches below them |
| MaterialDrawHelper.DrawRoundShadow | src/ReaLTaiizor/Helper/Material.cs:185-193 | five ellipse fills with the same brush, in the fixed order of rectangles; each covers the bounds horizontally and reaches below them |
| MaterialLabel.Compose | src/ReaLTaiizor/Controls/Label/MaterialLabel.cs:93-101 | the `ContentAlignment` bit for a row and a column is one of the nine named values |
| MaterialLabel.AlignmentOf | src/ReaLTaiizor/Controls/Label/MaterialLabel.cs:89-104 | every value maps to exactly one vertical and one horizontal flag, and any unnamed value falls back to Top \| Left |
| MaterialLabel.AlignmentMatchesName | src/ReaLTaiizor/Controls/Label/MaterialLabel.cs:93-101 | each named alignment maps to the vertical flag of its row and the horizontal flag of its column |
| MaterialLabel.FlagsDetermineParts | src/ReaLTaiizor/Controls/Label/MaterialLabel.cs:93-101 | a vertical-or-horizontal flags value determines both of its flags |
| MaterialLabel.NamedAreComposed | src/ReaLTaiizor/Controls/Label/MaterialLabel.cs:93-101 | every named alignment is the bit of some row and column |
| MaterialLabel.AlignmentInjective | src/ReaLTaiizor/Controls/Label/MaterialLabel.cs:93-101 | two named alignments give the same flags exactly when they are the same alignment |
| MaterialLabel.SetTextAlign | src/ReaLTaiizor/Controls/Label/MaterialLabel.cs:29-38 | the setter stores the value, leaves the cached flags consistent with it, and changes no other field |
| MaterialLabel.NewLabel | src/ReaLTaiizor/Controls/Label/MaterialLabel.cs:63-67 | a new label has TextAlign TopLeft with flags Top \| Left and both emphasis switches off |
| MaterialLabel.SetAllKeepsConsistent | src/ReaLTaiizor/Controls/Label/MaterialLabel.cs:29-38 | after any run of assignments the label holds the last value with matching flags and nothing else has changed |
| MaterialLabel.SetTextAlignIdempotent | src/ReaLTaiizor/Controls/Label/MaterialLabel.cs:29-38 | assigning the same alignment twice is the same as assigning it once |
| MaterialLabel.TextRoleOf | src/ReaLTaiizor/Controls/Label/MaterialLabel.cs:116-120 | disabled exactly gives the disabled/hint colour; enabled without emphasis the high-emphasis text colour; with emphasis, accent or primary by `UseAccent` |
| MaterialLabel.ClearColor | src/ReaLTaiizor/Controls/Label/MaterialLabel.cs:109 | the parent's back colour unless Transparent; then the grandparent's unless missing or Transparent; else the system Control colour |
| MaterialLabel.ClearColorOpaque | src/ReaLTaiizor/Controls/Label/MaterialLabel.cs:109 | the clear colour is never Transparent while the system Control colour is not |
| MaterialLabel.Paint | src/ReaLTaiizor/Controls/Label/MaterialLabel.cs:106-124 | a label without a parent throws NullReferenceException, exactly; otherwise the paint clears to the chosen background, draws the text in the chosen role, and on a consistent label uses the flags of its current alignment |
| MaterialLabel.PaintUsesCurrentAlignment | src/ReaLTaiizor/Controls/Label/MaterialLabel.cs:26-124 | a constructed label with a parent, after any run of assignments, paints with the flags of its current alignment |
| MaterialLabel.PreferredSize | src/ReaLTaiizor/Controls/Label/MaterialLabel.cs:69-85 | without AutoSize the proposed size comes back unchanged; with it, the measured text size one pixel wider |
| MaterialLabel.PreferredSizeIgnores | src/ReaLTaiizor/Controls/Label/MaterialLabel.cs:69-85 | with AutoSize the proposal does not matter; without it the measurement does not |

## Left out

- `Color.GetHue`, `GetSaturation` and `GetBrightness` are System.Drawing calls
  outside this model. `Lighten` and `Darken` receive their results as an `Hsl`
  argument, so the hue and saturation checks inside `FromHsl` can still fire.
  No RGB-to-HSL round trip is stated, because the forward conversion is not
  part of this model.
- IEEE single and double rounding of the intermediate values is not modelled:
  arithmetic is over the reals. The only roundings modelled are
  `Convert.ToInt32` (half to even) and the `(int)` cast (toward zero).
- NaN is not modelled. Every range comparison in `FromHsl`
  (Material.cs:56-74) is false for NaN, so a NaN argument passes the checks.
  A NaN lighting, or a NaN saturation, reaches `Convert.ToInt32(NaN)`, which
  throws OverflowException rather than ArgumentOutOfRangeException. A NaN hue
  with saturation 0 throws nothing: the grey branch (Material.cs:76-79)
  never reads the hue and returns the grey of the lighting.
- MaterialDrawHelper.BlendChannelBetween: proved for the real-valued mix. The
  double result can truncate one lower when the two channels are equal: in
  binary64, 3·(1 − 5/255) + 3·(5/255) is 2.9999999999999996, so channels 3 and
  3 with blend 5 give 2.
- MaterialDrawHelper.BlendColor: the "between" clause is proved for the
  real-valued mix. In doubles, equal channels can come out one lower, as in
  the witness above (3, 3, blend 5 gives 2).
- MaterialDrawHelper.BlendWithItself: holds for the real-valued mix only. In
  doubles, blending a colour with red channel 3 with itself at blend 5 gives
  red channel 2.
- MaterialDrawHelper.BlendSwap: holds for the real-valued mix only. In
  doubles, background 0 and front 5 at blend 51 give 1.0, hence 1, while the
  swapped call at blend 204 gives 0.9999999999999998, hence 0.
- `BlendColor`'s `(int)` of a value beyond the 32-bit range is not modelled. For
  such a blend `Color.FromArgb` throws anyway, and the model states that as
  the `BlendFits` precondition.
- Rendering is left out: `AddArc`, `FillPath`, `FillEllipse`, `Graphics.Clear`,
  brushes and the disposal of paths and brushes. `DrawSquareShadow` disposes
  only its last path; that leak is not modelled. Paths and fills are data.
- `MaterialManager` (the skin singleton, colour scheme and font lookup) and the
  native text renderer are left out. The skin colours are named by
  `TextRole`, and the measured text size is a parameter of `PreferredSize`.
- The `FontType` property and its font lookup and `Refresh`, `InitLayout`, and
  the `Invalidate` calls are left out, as are the `Depth`, `SkinManager` and
  `MouseState` members. The constructor's `FontType = Body1` only reaches the
  font lookup.
- MaterialLabel.ClearColor: .NET `Color` equality also compares the known-colour
  identity and name, so a colour with Transparent's ARGB values that is not the
  named `Color.Transparent` compares unequal in the source. The model compares
  ARGB values only.
- MaterialLabel.PreferredSize: the 32-bit overflow of the measured width + 1
  is not modelled.
- MaterialDrawHelper.RoundShadowRects: the rectangle coordinates are
  unbounded integers. The unchecked 32-bit wrap of the sums at
  Material.cs:188-192 (`bounds.X - 2`, `bounds.Height + 6` and the like) is
  not modelled. The cover and falls-below clauses assume those sums fit in an
  `int`: with `bounds.Height` = 2147483645, `bounds.Height + 6` wraps to
  −2147483645 and the first ellipse no longer reaches below the bounds.
- MaterialDrawHelper.DrawRoundShadow: the same 32-bit wrap is not modelled;
  its rectangles and its cover and falls-below clauses assume the sums fit in
  an `int`.
- MaterialDrawHelper.DrawSquareShadow: the 32-bit sums `bounds.Width + 6`
  and the like at Material.cs:172-180 are taken over unbounded integers; the
  wrap before the conversion to `float` is not modelled.
- MaterialDrawHelper.SquareShadowFallsBelow: the falls-below facts assume
  the 32-bit sums at Material.cs:172-180 do not wrap.
- The other controls in the repository are not part of this model: the
  notification box, the picture box, and the two constant-font labels.
