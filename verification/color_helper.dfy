/** `MaterialColorHelper` (src/ReaLTaiizor/Helper/Material.cs): HSL to RGB
    conversion with hard range checks, and the lighten/darken operations built
    on it. Floating-point arithmetic is modelled over the reals. */
module MaterialColorHelper {
  import opened Numerics
  import opened Drawing

  /** The parameter an `ArgumentOutOfRangeException` names. */
  datatype HslParam = Alpha | Hue | Saturation | Lighting

  /** A converted colour, or the exception `FromHsl` throws. */
  datatype Outcome = Ok(color: Color) | ArgumentOutOfRange(paramName: HslParam)

  /** What the foreign `GetHue`, `GetSaturation` and `GetBrightness` report for
      a colour; the lighten/darken operations receive it as an argument. */
  datatype Hsl = Hsl(hue: real, saturation: real, lightness: real)

  predicate AlphaValid(alpha: int) { 0 <= alpha <= 255 }

  /** The hue check accepts both ends, 360 included. */
  predicate HueValid(hue: real) { 0.0 <= hue <= 360.0 }

  predicate UnitValid(v: real) { 0.0 <= v <= 1.0 }

  predicate HslValid(alpha: int, hue: real, saturation: real, lighting: real) {
    AlphaValid(alpha) && HueValid(hue) && UnitValid(saturation) && UnitValid(lighting)
  }

  function Abs(x: real): real { if x < 0.0 then -x else x }

  // ---------------------------------------------------------------------------
  // Reference: the textbook HSL to RGB conversion, on channels in [0, 1].
  // ---------------------------------------------------------------------------

  /** Chroma C = (1 - |2L - 1|) * S: the spread between the largest and the
      smallest channel. */
  function Chroma(lighting: real, saturation: real): real {
    (1.0 - Abs(2.0 * lighting - 1.0)) * saturation
  }

  /** The hue taken modulo 360 (only the accepted 360 changes). */
  function NormalHue(hue: real): real { if hue == 360.0 then 0.0 else hue }

  /** The textbook sextant floor(H'), H' = H / 60. */
  function TextbookSextant(hue: real): int { (NormalHue(hue) / 60.0).Floor }

  /** The textbook position of the middle channel, 1 - |H' mod 2 - 1|. */
  function TextbookFraction(hue: real): real {
    var hp := NormalHue(hue) / 60.0;
    1.0 - Abs(hp - 2.0 * (hp / 2.0).Floor as real - 1.0)
  }

  /** X = C * (1 - |H' mod 2 - 1|): the middle channel's share of the chroma. */
  function MidShare(c: real, hue: real): real {
    c * TextbookFraction(hue)
  }

  /** With m = L - C / 2, the colour is m added to (C, X, 0) permuted by the
      sextant floor(H'). */
  function StandardHslToRgb(hue: real, saturation: real, lighting: real): (real, real, real)
    requires HueValid(hue) && UnitValid(saturation) && UnitValid(lighting)
  {
    var c := Chroma(lighting, saturation);
    var m := lighting - c / 2.0;
    TextbookOrder(TextbookSextant(hue), c + m, MidShare(c, hue) + m, m)
  }

  /** The textbook sextant table, ordering (largest, middle, smallest) into
      (R, G, B). */
  function TextbookOrder<T>(k: int, hi: T, mid: T, lo: T): (T, T, T) {
    if k == 0 then (hi, mid, lo)
    else if k == 1 then (mid, hi, lo)
    else if k == 2 then (lo, hi, mid)
    else if k == 3 then (lo, mid, hi)
    else if k == 4 then (mid, lo, hi)
    else (hi, lo, mid)
  }

  // ---------------------------------------------------------------------------
  // FromHsl, step by step.
  // ---------------------------------------------------------------------------

  /** The chroma bounds (fMax, fMin), one formula on each side of L = 0.5.
      They are centred on the lightness and are the chroma apart. */
  function ChromaBounds(lighting: real, saturation: real): (bounds: (real, real))
    requires UnitValid(lighting) && UnitValid(saturation)
    ensures 0.0 <= bounds.1 <= bounds.0 <= 1.0
    ensures bounds.0 + bounds.1 == 2.0 * lighting
    ensures bounds.0 - bounds.1 == Chroma(lighting, saturation)
  {
    ProductBounds(lighting, saturation);
    ChromaExpanded(lighting, saturation);
    var ls := lighting * saturation;
    if 0.5 < lighting then
      (lighting - ls + saturation, lighting + ls - saturation)
    else
      assert 0.0 <= lighting - ls;
      assert lighting - ls <= lighting + ls;
      assert lighting + ls <= 1.0;
      (lighting + ls, lighting - ls)
  }

  lemma ProductBounds(l: real, s: real)
    requires UnitValid(l) && UnitValid(s)
    ensures 0.0 <= l * s <= l && l * s <= s
    ensures l + s - 1.0 <= l * s
  {
  }

  /** The chroma written out on each side of L = 0.5. */
  lemma ChromaExpanded(l: real, s: real)
    ensures Chroma(l, s) == if 0.5 < l then 2.0 * s - 2.0 * (l * s) else 2.0 * (l * s)
  {
    if 0.5 < l {
      assert Chroma(l, s) == (2.0 - 2.0 * l) * s;
    } else {
      assert Chroma(l, s) == (2.0 * l) * s;
    }
  }

  /** The sextant floor(hue / 60); the accepted hue 360 is the only one in
      sextant 6. */
  function Sextant(hue: real): (k: int)
    requires HueValid(hue)
    ensures 0 <= k <= 6
    ensures k as real * 60.0 <= hue < (k + 1) as real * 60.0
    ensures k == 6 <==> hue == 360.0
  {
    (hue / 60.0).Floor
  }

  /** The hue folded onto the ramp of its sextant: rising through [0, 1) in
      even sextants, through [-1, 0) in odd ones. */
  function Ramp(hue: real, sextant: int): (t: real)
    requires HueValid(hue) && sextant == Sextant(hue)
    ensures sextant % 2 == 0 ==> 0.0 <= t < 1.0
    ensures sextant % 2 == 1 ==> -1.0 <= t < 0.0
    ensures sextant == 6 ==> t == 0.0
  {
    var h := if 300.0 <= hue then hue - 360.0 else hue;
    h / 60.0 - 2.0 * ((((sextant + 1) % 6) as real / 2.0).Floor as real)
  }

  /** The middle channel, interpolated between the chroma bounds. */
  function MidChannel(t: real, sextant: int, fMax: real, fMin: real): (fMid: real)
    requires fMin <= fMax
    requires sextant % 2 == 0 ==> 0.0 <= t <= 1.0
    requires sextant % 2 != 0 ==> -1.0 <= t <= 0.0
    ensures fMin <= fMid <= fMax
  {
    if sextant % 2 == 0 then Climb(t, fMin, fMax - fMin)
    else Descend(t, fMin, fMax - fMin)
  }

  /** The six-way table placing (max, mid, min) into (R, G, B); sextant 0 and
      every value outside 1..5 take the default arm. */
  function Arrange(alpha: Byte, sextant: int, iMax: Byte, iMid: Byte, iMin: Byte): (c: Color)
    ensures c.a == alpha
    ensures multiset{c.r, c.g, c.b} == multiset{iMax, iMid, iMin}
  {
    match sextant
    case 1 => Color(alpha, iMid, iMax, iMin)
    case 2 => Color(alpha, iMin, iMax, iMid)
    case 3 => Color(alpha, iMin, iMid, iMax)
    case 4 => Color(alpha, iMid, iMin, iMax)
    case 5 => Color(alpha, iMax, iMin, iMid)
    case _ => Color(alpha, iMax, iMid, iMin)
  }

  /** The largest of a colour's three RGB channels. */
  function Largest(c: Color): int {
    if c.r >= c.g && c.r >= c.b then c.r else if c.g >= c.b then c.g else c.b
  }

  /** The smallest of a colour's three RGB channels. */
  function Smallest(c: Color): int {
    if c.r <= c.g && c.r <= c.b then c.r else if c.g <= c.b then c.g else c.b
  }

  /** With the three values in order, the table puts the largest and the
      smallest where `Largest` and `Smallest` find them, whatever the sextant. */
  lemma ArrangeExtremes(alpha: Byte, sextant: int, iMax: Byte, iMid: Byte, iMin: Byte)
    requires iMin <= iMid <= iMax
    ensures var c := Arrange(alpha, sextant, iMax, iMid, iMin);
            Largest(c) == iMax && Smallest(c) == iMin
  {
  }

  /** `Convert.ToInt32(f * 255)` for a channel value f in [0, 1]. */
  function ToChannel(f: real): (n: Byte)
    requires UnitValid(f)
    ensures IsNearest(f * 255.0, n)
  {
    RoundHalfEvenBounded(f * 255.0, 0, 255);
    RoundHalfEven(f * 255.0)
  }

  /** `FromHsl`: the four range checks in their source order, the grey case,
      then chroma bounds, sextant, ramp and the channel table. */
  function FromHsl(alpha: int, hue: real, saturation: real, lighting: real): (r: Outcome)
    ensures r.ArgumentOutOfRange? <==> !HslValid(alpha, hue, saturation, lighting)
    ensures r == ArgumentOutOfRange(Alpha) <==> !AlphaValid(alpha)
    ensures r == ArgumentOutOfRange(Hue) <==> AlphaValid(alpha) && !HueValid(hue)
    ensures r == ArgumentOutOfRange(Saturation) <==>
              AlphaValid(alpha) && HueValid(hue) && !UnitValid(saturation)
    ensures r == ArgumentOutOfRange(Lighting) <==>
              AlphaValid(alpha) && HueValid(hue) && UnitValid(saturation) && !UnitValid(lighting)
    ensures r.Ok? ==> r.color.a == alpha
    ensures r.Ok? && saturation == 0.0 ==>
              var grey := RoundHalfEven(lighting * 255.0);
              r.color.r == grey && r.color.g == grey && r.color.b == grey
  {
    if !AlphaValid(alpha) then ArgumentOutOfRange(Alpha)
    else if !HueValid(hue) then ArgumentOutOfRange(Hue)
    else if !UnitValid(saturation) then ArgumentOutOfRange(Saturation)
    else if !UnitValid(lighting) then ArgumentOutOfRange(Lighting)
    else if saturation == 0.0 then
      var grey := ToChannel(lighting);
      Ok(Color(alpha, grey, grey, grey))
    else
      Ok(Chromatic(alpha, hue, saturation, lighting))
  }

  /** The chromatic branch of `FromHsl`, reached once every check has passed
      and the saturation is not 0. */
  function Chromatic(alpha: Byte, hue: real, saturation: real, lighting: real): (c: Color)
    requires HueValid(hue) && UnitValid(saturation) && UnitValid(lighting)
    ensures c.a == alpha
    ensures Largest(c) == ToChannel(ChromaBounds(lighting, saturation).0)
    ensures Smallest(c) == ToChannel(ChromaBounds(lighting, saturation).1)
  {
    var bounds := ChromaBounds(lighting, saturation);
    var fMax, fMin := bounds.0, bounds.1;
    var sextant := Sextant(hue);
    var fMid := MidChannel(Ramp(hue, sextant), sextant, fMax, fMin);
    RoundHalfEvenMonotone(fMin * 255.0, fMid * 255.0);
    RoundHalfEvenMonotone(fMid * 255.0, fMax * 255.0);
    ArrangeExtremes(alpha, sextant, ToChannel(fMax), ToChannel(fMid), ToChannel(fMin));
    Arrange(alpha, sextant, ToChannel(fMax), ToChannel(fMid), ToChannel(fMin))
  }

  // ---------------------------------------------------------------------------
  // Properties of FromHsl.
  // ---------------------------------------------------------------------------

  /** For every accepted input, each channel `FromHsl` produces is the textbook
      channel value scaled to 255 and rounded half to even. */
  lemma FromHslIsStandard(alpha: int, hue: real, saturation: real, lighting: real)
    requires HslValid(alpha, hue, saturation, lighting)
    ensures var rgb := StandardHslToRgb(hue, saturation, lighting);
            var r := FromHsl(alpha, hue, saturation, lighting);
            && r.Ok?
            && r.color.r == RoundHalfEven(rgb.0 * 255.0)
            && r.color.g == RoundHalfEven(rgb.1 * 255.0)
            && r.color.b == RoundHalfEven(rgb.2 * 255.0)
  {
    if saturation == 0.0 {
      GreyIsStandard(alpha, hue, lighting);
    } else {
      ChromaticIsStandard(alpha, hue, saturation, lighting);
    }
  }

  lemma GreyIsStandard(alpha: int, hue: real, lighting: real)
    requires HslValid(alpha, hue, 0.0, lighting)
    ensures StandardHslToRgb(hue, 0.0, lighting) == (lighting, lighting, lighting)
  {
    var c := Chroma(lighting, 0.0);
    assert c == 0.0;
    assert MidShare(c, hue) == 0.0;
    assert lighting - c / 2.0 == lighting;
  }

  lemma ChromaticIsStandard(alpha: int, hue: real, saturation: real, lighting: real)
    requires HslValid(alpha, hue, saturation, lighting) && saturation != 0.0
    ensures var rgb := StandardHslToRgb(hue, saturation, lighting);
            var r := FromHsl(alpha, hue, saturation, lighting);
            && r.Ok?
            && r.color.r == RoundHalfEven(rgb.0 * 255.0)
            && r.color.g == RoundHalfEven(rgb.1 * 255.0)
            && r.color.b == RoundHalfEven(rgb.2 * 255.0)
  {
    var k := Sextant(hue);
    var bounds := ChromaBounds(lighting, saturation);
    var fMid := MidChannel(Ramp(hue, k), k, bounds.0, bounds.1);
    var textbookK := if k == 6 then 0 else k;
    FromHslChromatic(alpha, hue, saturation, lighting);
    ChromaticUnfolded(alpha, hue, saturation, lighting);
    ChannelsAreStandard(hue, saturation, lighting);
    var iMax, iMid, iMin := ToChannel(bounds.0), ToChannel(fMid), ToChannel(bounds.1);
    ArrangeIsTextbook(alpha, k, iMax, iMid, iMin);
    OrderCommutesWithChannel(textbookK, bounds.0, fMid, bounds.1);
  }

  lemma FromHslChromatic(alpha: int, hue: real, saturation: real, lighting: real)
    requires HslValid(alpha, hue, saturation, lighting) && saturation != 0.0
    ensures FromHsl(alpha, hue, saturation, lighting) == Ok(Chromatic(alpha, hue, saturation, lighting))
  {
  }

  lemma ChromaticUnfolded(alpha: Byte, hue: real, saturation: real, lighting: real)
    requires HueValid(hue) && UnitValid(saturation) && UnitValid(lighting)
    ensures var bounds := ChromaBounds(lighting, saturation);
            var k := Sextant(hue);
            Chromatic(alpha, hue, saturation, lighting)
            == Arrange(alpha, k, ToChannel(bounds.0),
                       ToChannel(MidChannel(Ramp(hue, k), k, bounds.0, bounds.1)), ToChannel(bounds.1))
  {
  }

  /** The source's (fMax, fMid, fMin), ordered by its sextant with 6 read as
      0, are the textbook channels. */
  lemma ChannelsAreStandard(hue: real, saturation: real, lighting: real)
    requires HueValid(hue) && UnitValid(saturation) && UnitValid(lighting)
    ensures var k := Sextant(hue);
            var bounds := ChromaBounds(lighting, saturation);
            var fMid := MidChannel(Ramp(hue, k), k, bounds.0, bounds.1);
            StandardHslToRgb(hue, saturation, lighting)
            == TextbookOrder(if k == 6 then 0 else k, bounds.0, fMid, bounds.1)
  {
    var c := Chroma(lighting, saturation);
    var m := lighting - c / 2.0;
    var k := Sextant(hue);
    BoundsAreStandard(lighting, saturation);
    MidIsStandard(hue, k, c, m);
    StandardUnfolded(hue, saturation, lighting);
  }

  /** The source's two formulas for (fMax, fMin) are the textbook's C + m and
      m, with m = L - C / 2. */
  lemma BoundsAreStandard(lighting: real, saturation: real)
    requires UnitValid(lighting) && UnitValid(saturation)
    ensures var c := Chroma(lighting, saturation);
            var m := lighting - c / 2.0;
            ChromaBounds(lighting, saturation) == (c + m, m)
  {
  }

  lemma StandardUnfolded(hue: real, saturation: real, lighting: real)
    requires HueValid(hue) && UnitValid(saturation) && UnitValid(lighting)
    ensures var c := Chroma(lighting, saturation);
            var m := lighting - c / 2.0;
            StandardHslToRgb(hue, saturation, lighting)
            == TextbookOrder(TextbookSextant(hue), c + m, MidShare(c, hue) + m, m)
  {
  }

  /** The source's channel table is the textbook table, sextant 6 reading as
      sextant 0. */
  lemma ArrangeIsTextbook(alpha: Byte, k: int, iMax: Byte, iMid: Byte, iMin: Byte)
    requires 0 <= k <= 6
    ensures var rgb := TextbookOrder(if k == 6 then 0 else k, iMax, iMid, iMin);
            Arrange(alpha, k, iMax, iMid, iMin) == Color(alpha, rgb.0, rgb.1, rgb.2)
  {
    // The branches are empty: they only split the sextants for the solver.
    if k == 0 || k == 6 {
    } else if k == 1 {
    } else if k == 2 {
    } else if k == 3 {
    } else if k == 4 {
    } else {
    }
  }

  /** Converting each channel to a byte and then ordering them is ordering
      them and then converting. */
  lemma OrderCommutesWithChannel(k: int, hi: real, mid: real, lo: real)
    requires UnitValid(hi) && UnitValid(mid) && UnitValid(lo)
    ensures var rgb := TextbookOrder(k, hi, mid, lo);
            TextbookOrder(k, ToChannel(hi), ToChannel(mid), ToChannel(lo))
            == (ToChannel(rgb.0), ToChannel(rgb.1), ToChannel(rgb.2))
  {
    // The branches are empty: they only split the sextants for the solver.
    if k == 0 {
    } else if k == 1 {
    } else if k == 2 {
    } else if k == 3 {
    } else if k == 4 {
    } else {
    }
  }

  /** The folded ramp reproduces the textbook middle channel X + m, and the
      two sextant numberings agree except that 6 reads as 0. */
  lemma MidIsStandard(hue: real, k: int, c: real, m: real)
    requires HueValid(hue) && k == Sextant(hue) && 0.0 <= c
    ensures MidChannel(Ramp(hue, k), k, c + m, m) == MidShare(c, hue) + m
    ensures TextbookSextant(hue) == if k == 6 then 0 else k
  {
    var hp := NormalHue(hue) / 60.0;
    var t := Ramp(hue, k);
    var mid := MidChannel(t, k, c + m, m);
    if k == 6 {
      assert hp == 0.0 && t == 0.0;
      assert mid == m;
      assert TextbookFraction(hue) == 0.0;
    } else {
      assert k as real <= hp < k as real + 1.0;
      assert hp.Floor == k;
      if k == 0 {
        assert (hp / 2.0).Floor == 0;
        assert t == hp;
        assert TextbookFraction(hue) == hp;
      } else if k == 1 {
        assert (hp / 2.0).Floor == 0;
        assert t == hp - 2.0;
        assert TextbookFraction(hue) == 2.0 - hp;
      } else if k == 2 {
        assert (hp / 2.0).Floor == 1;
        assert t == hp - 2.0;
        assert TextbookFraction(hue) == hp - 2.0;
      } else if k == 3 {
        assert (hp / 2.0).Floor == 1;
        assert t == hp - 4.0;
        assert TextbookFraction(hue) == 4.0 - hp;
      } else if k == 4 {
        assert (hp / 2.0).Floor == 2;
        assert t == hp - 4.0;
        assert TextbookFraction(hue) == hp - 4.0;
      } else {
        assert (hp / 2.0).Floor == 2;
        assert t == (hue - 360.0) / 60.0;
        assert t == hp - 6.0;
        assert TextbookFraction(hue) == 6.0 - hp;
      }
    }
  }

  /** Hue 360 falls into sextant 6, takes the table's default arm and yields
      exactly the colour of hue 0. */
  lemma Hue360IsHue0(alpha: int, saturation: real, lighting: real)
    ensures FromHsl(alpha, 360.0, saturation, lighting) == FromHsl(alpha, 0.0, saturation, lighting)
  {
    if HslValid(alpha, 0.0, saturation, lighting) && saturation != 0.0 {
      FromHslChromatic(alpha, 360.0, saturation, lighting);
      FromHslChromatic(alpha, 0.0, saturation, lighting);
      ChromaticUnfolded(alpha, 360.0, saturation, lighting);
      ChromaticUnfolded(alpha, 0.0, saturation, lighting);
      var bounds := ChromaBounds(lighting, saturation);
      assert Sextant(360.0) == 6 && Ramp(360.0, 6) == 0.0;
      assert Sextant(0.0) == 0 && Ramp(0.0, 0) == 0.0;
      assert MidChannel(0.0, 6, bounds.0, bounds.1) == MidChannel(0.0, 0, bounds.0, bounds.1);
    }
  }

  /** The achromatic example: lighting 0.5 scales to 127.5, a tie that rounds
      to the even 128. */
  lemma GreyExample()
    ensures FromHsl(255, 0.0, 0.0, 0.5) == Ok(Color(255, 128, 128, 128))
  {
    assert RoundHalfEven(127.5) == 128;
  }

  /** Pure red: hue 0 at full saturation and half lightness. */
  lemma RedExample()
    ensures FromHsl(255, 0.0, 1.0, 0.5) == Ok(Color(255, 255, 0, 0))
  {
    FromHslChromatic(255, 0.0, 1.0, 0.5);
    ChromaticUnfolded(255, 0.0, 1.0, 0.5);
    assert ChromaBounds(0.5, 1.0) == (1.0, 0.0);
    assert Sextant(0.0) == 0 && Ramp(0.0, 0) == 0.0;
    assert MidChannel(0.0, 0, 1.0, 0.0) == 0.0;
    assert ToChannel(1.0) == 255 by { assert RoundHalfEven(255.0) == 255; }
    assert ToChannel(0.0) == 0 by { assert RoundHalfEven(0.0) == 0; }
  }

  /** Each bound is inclusive, and one step past it on either side raises the
      exception naming that parameter. */
  lemma BoundaryExamples()
    ensures FromHsl(-1, 0.0, 0.0, 0.0) == ArgumentOutOfRange(Alpha)
    ensures FromHsl(256, 0.0, 0.0, 0.0) == ArgumentOutOfRange(Alpha)
    ensures FromHsl(0, -1.0, 0.0, 0.0) == ArgumentOutOfRange(Hue)
    ensures FromHsl(0, 361.0, 0.0, 0.0) == ArgumentOutOfRange(Hue)
    ensures FromHsl(0, 0.0, -0.1, 0.0) == ArgumentOutOfRange(Saturation)
    ensures FromHsl(0, 0.0, 1.1, 0.0) == ArgumentOutOfRange(Saturation)
    ensures FromHsl(0, 0.0, 0.0, -0.1) == ArgumentOutOfRange(Lighting)
    ensures FromHsl(0, 0.0, 0.0, 1.1) == ArgumentOutOfRange(Lighting)
    ensures FromHsl(255, 360.0, 1.0, 1.0).Ok?
    ensures FromHsl(0, 0.0, 0.0, 0.0).Ok?
  {
  }

  /** The lightness and chroma survive the conversion up to rounding: the
      largest and smallest channel of the result sum to 510 * L, and differ by
      255 * C, each within 1. */
  lemma FromHslKeepsLightnessAndChroma(alpha: int, hue: real, saturation: real, lighting: real)
    requires HslValid(alpha, hue, saturation, lighting)
    ensures var r := FromHsl(alpha, hue, saturation, lighting);
            && r.Ok?
            && -1.0 <= (Largest(r.color) + Smallest(r.color)) as real - 510.0 * lighting <= 1.0
            && -1.0 <= (Largest(r.color) - Smallest(r.color)) as real - 255.0 * Chroma(lighting, saturation) <= 1.0
  {
    var r := FromHsl(alpha, hue, saturation, lighting);
    if saturation == 0.0 {
      assert Chroma(lighting, saturation) == 0.0;
    } else {
      FromHslChromatic(alpha, hue, saturation, lighting);
    }
  }

  // ---------------------------------------------------------------------------
  // Lighten and Darken.
  // ---------------------------------------------------------------------------

  /** The lightness raised by a fraction of itself, before clamping. */
  function Raised(lighting: real, percent: real): real { lighting + lighting * percent }

  /** The lightness lowered by a fraction of itself, before clamping. */
  function Lowered(lighting: real, percent: real): real { lighting - lighting * percent }

  /** The lighting `Lighten` hands to `FromHsl`: l + l * percent, forced to 1
      above 1 and to 0.1 at or below 0, otherwise unchanged. It always lies in
      (0, 1], so the lighting check never fires. */
  function LightenLighting(lighting: real, percent: real): (l: real)
    ensures 0.0 < l <= 1.0
    ensures 0.0 < Raised(lighting, percent) <= 1.0 ==> l == Raised(lighting, percent)
    ensures 1.0 < Raised(lighting, percent) ==> l == 1.0
    ensures Raised(lighting, percent) <= 0.0 ==> l == 0.1
  {
    var raw := Raised(lighting, percent);
    if raw > 1.0 then 1.0
    else if raw <= 0.0 then 0.1
    else raw
  }

  /** The lighting `Darken` hands to `FromHsl`: l - l * percent clamped into
      [0, 1], i.e. the point of [0, 1] nearest to it. */
  function DarkenLighting(lighting: real, percent: real): (l: real)
    ensures UnitValid(l)
    ensures forall v :: UnitValid(v) ==> Abs(l - Lowered(lighting, percent)) <= Abs(v - Lowered(lighting, percent))
  {
    var raw := Lowered(lighting, percent);
    if raw > 1.0 then 1.0
    else if raw <= 0.0 then 0.0
    else raw
  }

  /** `Lighten`: raise the lightness by a fraction of itself and convert back;
      only the foreign hue and saturation can make `FromHsl` throw. */
  function Lighten(color: Color, hsl: Hsl, percent: real): (r: Outcome)
    ensures r.Ok? <==> HueValid(hsl.hue) && UnitValid(hsl.saturation)
    ensures r.ArgumentOutOfRange? ==> r.paramName == Hue || r.paramName == Saturation
    ensures r.Ok? ==> r.color.a == color.a
  {
    FromHsl(color.a, hsl.hue, hsl.saturation, LightenLighting(hsl.lightness, percent))
  }

  /** `Darken`: lower the lightness by a fraction of itself and convert back;
      only the foreign hue and saturation can make `FromHsl` throw. */
  function Darken(color: Color, hsl: Hsl, percent: real): (r: Outcome)
    ensures r.Ok? <==> HueValid(hsl.hue) && UnitValid(hsl.saturation)
    ensures r.ArgumentOutOfRange? ==> r.paramName == Hue || r.paramName == Saturation
    ensures r.Ok? ==> r.color.a == color.a
  {
    FromHsl(color.a, hsl.hue, hsl.saturation, DarkenLighting(hsl.lightness, percent))
  }

  /** Lightening by a non-negative percentage never lowers the lightness. */
  lemma LightenNeverDarkens(lighting: real, percent: real)
    requires UnitValid(lighting) && 0.0 <= percent
    ensures lighting <= LightenLighting(lighting, percent)
  {
    ProductNonneg(lighting, percent);
  }

  /** Darkening by a percentage in [0, 1] scales the lightness by 1 - percent. */
  lemma DarkenScales(lighting: real, percent: real)
    requires UnitValid(lighting) && UnitValid(percent)
    ensures DarkenLighting(lighting, percent) == lighting * (1.0 - percent)
    ensures DarkenLighting(lighting, percent) <= lighting
  {
    ShrinkBy(lighting, percent);
    assert lighting * (1.0 - percent) == lighting - lighting * percent;
  }

  /** Black lightens to lighting 0.1 whatever the percentage, and nothing
      else lightens below 0.1's branch: a lightness in (0, 0.1) passes through. */
  lemma LightenOfBlack(color: Color, hue: real, saturation: real, percent: real)
    ensures Lighten(color, Hsl(hue, saturation, 0.0), percent) == FromHsl(color.a, hue, saturation, 0.1)
    ensures Lighten(color, Hsl(hue, saturation, 0.05), 0.0) == FromHsl(color.a, hue, saturation, 0.05)
  {
  }

  /** A zero percentage leaves the lightness alone: lighten for any lightness
      in (0, 1], darken for any in [0, 1]. */
  lemma ZeroPercentKeepsLightness(color: Color, hsl: Hsl)
    ensures 0.0 < hsl.lightness <= 1.0 ==>
              Lighten(color, hsl, 0.0) == FromHsl(color.a, hsl.hue, hsl.saturation, hsl.lightness)
    ensures UnitValid(hsl.lightness) ==>
              Darken(color, hsl, 0.0) == FromHsl(color.a, hsl.hue, hsl.saturation, hsl.lightness)
  {
  }

  /** At lighting 0 every accepted hue and saturation gives black. */
  lemma ZeroLightingIsBlack(alpha: int, hue: real, saturation: real)
    requires HslValid(alpha, hue, saturation, 0.0)
    ensures FromHsl(alpha, hue, saturation, 0.0) == Ok(Color(alpha, 0, 0, 0))
  {
    if saturation != 0.0 {
      var k := Sextant(hue);
      assert ChromaBounds(0.0, saturation) == (0.0, 0.0);
      assert MidChannel(Ramp(hue, k), k, 0.0, 0.0) == 0.0;
      assert ToChannel(0.0) == 0;
    } else {
      assert RoundHalfEven(0.0) == 0;
    }
  }

  /** At lighting 1 every accepted hue and saturation gives white. */
  lemma FullLightingIsWhite(alpha: int, hue: real, saturation: real)
    requires HslValid(alpha, hue, saturation, 1.0)
    ensures FromHsl(alpha, hue, saturation, 1.0) == Ok(Color(alpha, 255, 255, 255))
  {
    if saturation != 0.0 {
      var k := Sextant(hue);
      assert ChromaBounds(1.0, saturation) == (1.0, 1.0);
      assert MidChannel(Ramp(hue, k), k, 1.0, 1.0) == 1.0;
      assert ToChannel(1.0) == 255;
    } else {
      assert RoundHalfEven(255.0) == 255;
    }
  }

  /** Darkening by 100% turns any colour black, keeping its alpha. */
  lemma DarkenFullyIsBlack(color: Color, hsl: Hsl)
    requires HueValid(hsl.hue) && UnitValid(hsl.saturation)
    ensures Darken(color, hsl, 1.0) == Ok(Color(color.a, 0, 0, 0))
  {
    assert DarkenLighting(hsl.lightness, 1.0) == 0.0;
    ZeroLightingIsBlack(color.a, hsl.hue, hsl.saturation);
  }

  /** Lightening far enough saturates at white, keeping the alpha. */
  lemma LightenFarIsWhite(color: Color, hsl: Hsl, percent: real)
    requires HueValid(hsl.hue) && UnitValid(hsl.saturation)
    requires 1.0 <= Raised(hsl.lightness, percent)
    ensures Lighten(color, hsl, percent) == Ok(Color(color.a, 255, 255, 255))
  {
    assert LightenLighting(hsl.lightness, percent) == 1.0;
    FullLightingIsWhite(color.a, hsl.hue, hsl.saturation);
  }
}
