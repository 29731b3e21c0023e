/** `MaterialDrawHelper` (src/ReaLTaiizor/Helper/Material.cs): rounded-rectangle
    paths, colour blending and the two layered drop shadows. A GDI+ path is
    modelled as its list of arcs; a shadow as the list of fills it issues. */
module MaterialDrawHelper {
  import opened Numerics
  import opened Drawing

  // ---------------------------------------------------------------------------
  // Paths.
  // ---------------------------------------------------------------------------

  /** One `AddArc` call: the bounding box of the ellipse, the start angle and
      the sweep, in degrees measured clockwise from the positive x axis (the
      y axis points down). */
  datatype Arc = Arc(x: real, y: real, width: real, height: real, startAngle: int, sweepAngle: int)

  /** A figure: its arcs in the order they were added, and whether
      `CloseFigure` has closed it. */
  datatype Path = Path(arcs: seq<Arc>, closed: bool)

  /** The direction of a quarter-turn angle as a unit vector (y down). */
  function Direction(angle: int): (real, real)
    requires angle % 90 == 0
  {
    var a := angle % 360;
    if a == 0 then (1.0, 0.0)
    else if a == 90 then (0.0, 1.0)
    else if a == 180 then (-1.0, 0.0)
    else (0.0, -1.0)
  }

  /** The point of an arc's ellipse at a quarter-turn angle. */
  function PointAt(arc: Arc, angle: int): (real, real)
    requires angle % 90 == 0
  {
    var d := Direction(angle);
    (arc.x + arc.width / 2.0 + d.0 * arc.width / 2.0,
     arc.y + arc.height / 2.0 + d.1 * arc.height / 2.0)
  }

  /** Where an arc begins and where it ends. */
  function StartPoint(arc: Arc): (real, real)
    requires arc.startAngle % 90 == 0
  {
    PointAt(arc, arc.startAngle)
  }

  function EndPoint(arc: Arc): (real, real)
    requires arc.startAngle % 90 == 0 && arc.sweepAngle % 90 == 0
  {
    PointAt(arc, arc.startAngle + arc.sweepAngle)
  }

  /** What makes `p` the rounded rectangle of (x, y, width, height) with the
      given corner radius: a closed figure of four quarter arcs, each in a
      2r-by-2r box pinned to one corner of the rectangle, visited top-right,
      bottom-right, bottom-left, top-left, starting at 270, 0, 90 and 180
      degrees. */
  predicate IsRoundRect(p: Path, x: real, y: real, width: real, height: real, radius: real) {
    && p.closed
    && |p.arcs| == 4
    && (forall i :: 0 <= i < 4 ==>
          p.arcs[i].width == radius * 2.0 && p.arcs[i].height == radius * 2.0 && p.arcs[i].sweepAngle == 90)
    // top-right corner
    && p.arcs[0].x + p.arcs[0].width == x + width && p.arcs[0].y == y && p.arcs[0].startAngle == 270
    // bottom-right corner
    && p.arcs[1].x + p.arcs[1].width == x + width && p.arcs[1].y + p.arcs[1].height == y + height
    && p.arcs[1].startAngle == 0
    // bottom-left corner
    && p.arcs[2].x == x && p.arcs[2].y + p.arcs[2].height == y + height && p.arcs[2].startAngle == 90
    // top-left corner
    && p.arcs[3].x == x && p.arcs[3].y == y && p.arcs[3].startAngle == 180
  }

  /** `CreateRoundRect(float x, float y, float width, float height, float radius)`. */
  function CreateRoundRect(x: real, y: real, width: real, height: real, radius: real): (p: Path)
    ensures IsRoundRect(p, x, y, width, height, radius)
  {
    Path([
      Arc(x + width - (radius * 2.0), y, radius * 2.0, radius * 2.0, 270, 90),
      Arc(x + width - (radius * 2.0), y + height - (radius * 2.0), radius * 2.0, radius * 2.0, 0, 90),
      Arc(x, y + height - (radius * 2.0), radius * 2.0, radius * 2.0, 90, 90),
      Arc(x, y, radius * 2.0, radius * 2.0, 180, 90)
    ], true)
  }

  /** `CreateRoundRect(Rectangle rect, float radius)`. */
  function CreateRoundRectOfRectangle(rect: Rectangle, radius: real): (p: Path)
    ensures IsRoundRect(p, rect.x as real, rect.y as real, rect.width as real, rect.height as real, radius)
  {
    CreateRoundRect(rect.x as real, rect.y as real, rect.width as real, rect.height as real, radius)
  }

  /** `CreateRoundRect(RectangleF rect, float radius)`. */
  function CreateRoundRectOfRectangleF(rect: RectangleF, radius: real): (p: Path)
    ensures IsRoundRect(p, rect.x, rect.y, rect.width, rect.height, radius)
  {
    CreateRoundRect(rect.x, rect.y, rect.width, rect.height, radius)
  }

  /** The characterisation is complete: only `CreateRoundRect`'s path meets it. */
  lemma RoundRectUnique(p: Path, x: real, y: real, width: real, height: real, radius: real)
    requires IsRoundRect(p, x, y, width, height, radius)
    ensures p == CreateRoundRect(x, y, width, height, radius)
  {
    var q := CreateRoundRect(x, y, width, height, radius);
    assert p.arcs[0] == q.arcs[0];
    assert p.arcs[1] == q.arcs[1];
    assert p.arcs[2] == q.arcs[2];
    assert p.arcs[3] == q.arcs[3];
    assert p.arcs == q.arcs;
  }

  /** An integer rectangle and its floating-point widening give the same path. */
  lemma RoundRectOverloadsAgree(rect: Rectangle, radius: real)
    ensures CreateRoundRectOfRectangle(rect, radius) == CreateRoundRectOfRectangleF(ToRectangleF(rect), radius)
  {
  }

  /** Each arc ends at the angle where the next one starts, and the last ends
      where the first starts, so the figure turns once around. */
  lemma RoundRectAnglesChain(x: real, y: real, width: real, height: real, radius: real)
    ensures var p := CreateRoundRect(x, y, width, height, radius);
            forall i :: 0 <= i < 4 ==>
              (p.arcs[i].startAngle + p.arcs[i].sweepAngle) % 360 == p.arcs[(i + 1) % 4].startAngle % 360
  {
    var p := CreateRoundRect(x, y, width, height, radius);
    forall i | 0 <= i < 4
      ensures (p.arcs[i].startAngle + p.arcs[i].sweepAngle) % 360 == p.arcs[(i + 1) % 4].startAngle % 360
    {
      if i == 0 {
        assert (270 + 90) % 360 == 0 % 360;
      } else if i == 1 {
        assert (0 + 90) % 360 == 90 % 360;
      } else if i == 2 {
        assert (90 + 90) % 360 == 180 % 360;
      } else {
        assert (180 + 90) % 360 == 270 % 360;
      }
    }
  }

  /** The four straight pieces joining consecutive arcs (and closing the
      figure) run along the rectangle's right, bottom, left and top sides. */
  lemma RoundRectEdgesOnSides(x: real, y: real, width: real, height: real, radius: real)
    ensures var p := CreateRoundRect(x, y, width, height, radius);
            && EndPoint(p.arcs[0]).0 == x + width && StartPoint(p.arcs[1]).0 == x + width
            && EndPoint(p.arcs[1]).1 == y + height && StartPoint(p.arcs[2]).1 == y + height
            && EndPoint(p.arcs[2]).0 == x && StartPoint(p.arcs[3]).0 == x
            && EndPoint(p.arcs[3]).1 == y && StartPoint(p.arcs[0]).1 == y
  {
  }

  /** With a radius that fits, every corner box lies inside the rectangle and
      together they reach all four of its sides: the figure's bounding box is
      the rectangle. */
  lemma RoundRectSpansRect(x: real, y: real, width: real, height: real, radius: real)
    requires 0.0 <= radius && radius * 2.0 <= width && radius * 2.0 <= height
    ensures var p := CreateRoundRect(x, y, width, height, radius);
            && (forall i :: 0 <= i < 4 ==>
                  && x <= p.arcs[i].x && p.arcs[i].x + p.arcs[i].width <= x + width
                  && y <= p.arcs[i].y && p.arcs[i].y + p.arcs[i].height <= y + height)
            && (exists i :: 0 <= i < 4 && p.arcs[i].x == x)
            && (exists i :: 0 <= i < 4 && p.arcs[i].x + p.arcs[i].width == x + width)
            && (exists i :: 0 <= i < 4 && p.arcs[i].y == y)
            && (exists i :: 0 <= i < 4 && p.arcs[i].y + p.arcs[i].height == y + height)
  {
    var p := CreateRoundRect(x, y, width, height, radius);
    assert p.arcs[3].x == x && p.arcs[3].y == y;
    assert p.arcs[1].x + p.arcs[1].width == x + width && p.arcs[1].y + p.arcs[1].height == y + height;
  }

  // ---------------------------------------------------------------------------
  // Blending.
  // ---------------------------------------------------------------------------

  /** One channel of the blend before the cast: background * (1 - ratio) +
      front * ratio, with ratio = blend / 255. */
  function Mix(back: int, front: int, blend: real): (m: real)
    ensures blend == 0.0 ==> m == back as real
    ensures blend == 255.0 ==> m == front as real
  {
    var ratio := blend / 255.0;
    back as real * (1.0 - ratio) + front as real * ratio
  }

  /** One channel after the `(int)` cast: the mix truncated toward zero, so
      the two ends of the blend range give the two inputs exactly. */
  function BlendChannel(back: int, front: int, blend: real): (n: int)
    ensures 0.0 <= Mix(back, front, blend) ==> n as real <= Mix(back, front, blend) < n as real + 1.0
    ensures Mix(back, front, blend) < 0.0 ==> n as real - 1.0 < Mix(back, front, blend) <= n as real
    ensures blend == 0.0 ==> n == back
    ensures blend == 255.0 ==> n == front
  {
    TruncateToward0(Mix(back, front, blend))
  }

  /** `Color.FromArgb` accepts the three blended channels. */
  predicate BlendFits(backgroundColor: Color, frontColor: Color, blend: real) {
    && IsByte(BlendChannel(backgroundColor.r, frontColor.r, blend))
    && IsByte(BlendChannel(backgroundColor.g, frontColor.g, blend))
    && IsByte(BlendChannel(backgroundColor.b, frontColor.b, blend))
  }

  predicate Between(v: int, a: int, b: int) {
    (a <= v <= b) || (b <= v <= a)
  }

  /** For a blend amount in [0, 255] each channel lands between the two
      inputs' channels, so `Color.FromArgb` never throws. */
  lemma BlendChannelBetween(back: Byte, front: Byte, blend: real)
    requires 0.0 <= blend <= 255.0
    ensures Between(BlendChannel(back, front, blend), back, front)
    ensures IsByte(BlendChannel(back, front, blend))
  {
    assert IsByte(back) && IsByte(front);
    var m := Mix(back, front, blend);
    var ratio := blend / 255.0;
    assert m == Weighted(back as real, 1.0 - ratio, front as real, ratio);
    if back <= front {
      assert back as real <= m <= front as real;
      TruncateBetween(m, back, front);
    } else {
      assert front as real <= m <= back as real;
      TruncateBetween(m, front, back);
    }
  }

  lemma BlendBetweenWhenInRange(backgroundColor: Color, frontColor: Color, blend: real)
    ensures 0.0 <= blend <= 255.0 ==>
              && Between(BlendChannel(backgroundColor.r, frontColor.r, blend), backgroundColor.r, frontColor.r)
              && Between(BlendChannel(backgroundColor.g, frontColor.g, blend), backgroundColor.g, frontColor.g)
              && Between(BlendChannel(backgroundColor.b, frontColor.b, blend), backgroundColor.b, frontColor.b)
  {
    if 0.0 <= blend <= 255.0 {
      BlendChannelBetween(backgroundColor.r, frontColor.r, blend);
      BlendChannelBetween(backgroundColor.g, frontColor.g, blend);
      BlendChannelBetween(backgroundColor.b, frontColor.b, blend);
    }
  }

  lemma BlendFitsInRange(backgroundColor: Color, frontColor: Color, blend: real)
    requires 0.0 <= blend <= 255.0
    ensures BlendFits(backgroundColor, frontColor, blend)
  {
    BlendChannelBetween(backgroundColor.r, frontColor.r, blend);
    BlendChannelBetween(backgroundColor.g, frontColor.g, blend);
    BlendChannelBetween(backgroundColor.b, frontColor.b, blend);
  }

  /** `BlendColor(backgroundColor, frontColor, blend)`: an opaque colour whose
      channels interpolate linearly from the background (blend 0) to the front
      colour (blend 255), truncated. */
  function BlendColor(backgroundColor: Color, frontColor: Color, blend: real): (c: Color)
    requires BlendFits(backgroundColor, frontColor, blend)
    ensures c.a == 255
    ensures blend == 0.0 ==>
              c.r == backgroundColor.r && c.g == backgroundColor.g && c.b == backgroundColor.b
    ensures blend == 255.0 ==>
              c.r == frontColor.r && c.g == frontColor.g && c.b == frontColor.b
    ensures 0.0 <= blend <= 255.0 ==>
              && Between(c.r, backgroundColor.r, frontColor.r)
              && Between(c.g, backgroundColor.g, frontColor.g)
              && Between(c.b, backgroundColor.b, frontColor.b)
  {
    BlendBetweenWhenInRange(backgroundColor, frontColor, blend);
    FromRgb(BlendChannel(backgroundColor.r, frontColor.r, blend),
            BlendChannel(backgroundColor.g, frontColor.g, blend),
            BlendChannel(backgroundColor.b, frontColor.b, blend))
  }

  /** `BlendColor(backgroundColor, frontColor)`: the blend amount is the front
      colour's own alpha, which always lies in [0, 255]. */
  function BlendColorByAlpha(backgroundColor: Color, frontColor: Color): (c: Color)
    ensures BlendFits(backgroundColor, frontColor, frontColor.a as real)
    ensures c == BlendColor(backgroundColor, frontColor, frontColor.a as real)
    ensures c.a == 255
    ensures frontColor.a == 255 ==>
              c.r == frontColor.r && c.g == frontColor.g && c.b == frontColor.b
    ensures frontColor.a == 0 ==>
              c.r == backgroundColor.r && c.g == backgroundColor.g && c.b == backgroundColor.b
  {
    BlendFitsInRange(backgroundColor, frontColor, frontColor.a as real);
    BlendColor(backgroundColor, frontColor, frontColor.a as real)
  }

  /** Blending a colour with itself returns its opaque version, whatever the
      blend amount. */
  lemma BlendWithItself(c: Color, blend: real)
    ensures BlendFits(c, c, blend)
    ensures BlendColor(c, c, blend) == Color(255, c.r, c.g, c.b)
  {
    SelfMix(c.r, blend);
    SelfMix(c.g, blend);
    SelfMix(c.b, blend);
  }

  lemma SelfMix(v: int, blend: real)
    ensures Mix(v, v, blend) == v as real
    ensures BlendChannel(v, v, blend) == v
  {
    var ratio := blend / 255.0;
    assert v as real * (1.0 - ratio) + v as real * ratio == v as real;
  }

  /** Swapping the two colours and complementing the amount gives the same
      blend. */
  lemma BlendSwap(backgroundColor: Color, frontColor: Color, blend: real)
    requires 0.0 <= blend <= 255.0
    ensures BlendFits(backgroundColor, frontColor, blend)
    ensures BlendFits(frontColor, backgroundColor, 255.0 - blend)
    ensures BlendColor(backgroundColor, frontColor, blend) == BlendColor(frontColor, backgroundColor, 255.0 - blend)
  {
    BlendFitsInRange(backgroundColor, frontColor, blend);
    BlendFitsInRange(frontColor, backgroundColor, 255.0 - blend);
    MixSwap(backgroundColor.r, frontColor.r, blend);
    MixSwap(backgroundColor.g, frontColor.g, blend);
    MixSwap(backgroundColor.b, frontColor.b, blend);
  }

  lemma MixSwap(back: int, front: int, blend: real)
    ensures Mix(back, front, blend) == Mix(front, back, 255.0 - blend)
  {
    var ratio := blend / 255.0;
    assert (255.0 - blend) / 255.0 == 1.0 - ratio;
  }

  // ---------------------------------------------------------------------------
  // Shadows.
  // ---------------------------------------------------------------------------

  /** One fill a shadow issues: a rounded-rectangle path or an ellipse. */
  datatype Shape = FillPath(path: Path) | FillEllipse(bounds: Rectangle)

  /** A fill with its brush colour. */
  datatype Layer = Layer(brush: Color, shape: Shape)

  /** Every shadow layer is drawn with this nearly transparent black. */
  const ShadowBrush := Color(12, 0, 0, 0)

  /** `DrawSquareShadow`'s five layers: x and y offsets, growth of width and
      height, and corner radius. */
  const SquareShadowDx: seq<real> := [-3.5, -2.5, -1.5, -0.5, -0.5]
  const SquareShadowDy: seq<real> := [-1.5, -1.5, -0.5, 1.5, 2.5]
  const SquareShadowGrowth: seq<real> := [6.0, 4.0, 2.0, 0.0, 0.0]
  const SquareShadowRadius: seq<real> := [8.0, 6.0, 4.0, 4.0, 4.0]

  /** One layer of `DrawSquareShadow`: the shadow brush filling the rounded
      rectangle of the bounds moved by (dx, dy) and grown by `growth`. */
  function SquareLayer(bounds: Rectangle, dx: real, dy: real, growth: real, radius: real): (layer: Layer)
    ensures layer.brush == ShadowBrush && layer.shape.FillPath?
    ensures IsRoundRect(layer.shape.path, bounds.x as real + dx, bounds.y as real + dy,
                        bounds.width as real + growth, bounds.height as real + growth, radius)
  {
    Layer(ShadowBrush, FillPath(CreateRoundRectOfRectangleF(
      RectangleF(bounds.x as real + dx, bounds.y as real + dy,
                 bounds.width as real + growth, bounds.height as real + growth), radius)))
  }

  /** `DrawSquareShadow`: five rounded-rectangle fills, in order. */
  function DrawSquareShadow(bounds: Rectangle): (layers: seq<Layer>)
    ensures |layers| == 5
    ensures forall i :: 0 <= i < 5 ==>
              && layers[i].brush == ShadowBrush
              && layers[i].shape.FillPath?
              && IsRoundRect(layers[i].shape.path,
                             bounds.x as real + SquareShadowDx[i], bounds.y as real + SquareShadowDy[i],
                             bounds.width as real + SquareShadowGrowth[i],
                             bounds.height as real + SquareShadowGrowth[i],
                             SquareShadowRadius[i])
  {
    [ SquareLayer(bounds, -3.5, -1.5, 6.0, 8.0),
      SquareLayer(bounds, -2.5, -1.5, 4.0, 6.0),
      SquareLayer(bounds, -1.5, -0.5, 2.0, 4.0),
      SquareLayer(bounds, -0.5, 1.5, 0.0, 4.0),
      SquareLayer(bounds, -0.5, 2.5, 0.0, 4.0) ]
  }

  /** Every square-shadow layer starts left of the bounds and reaches below
      them, so the stack shows as a drop shadow; the corner boxes never grow
      from one layer to the next. */
  lemma SquareShadowFallsBelow(bounds: Rectangle)
    ensures var layers := DrawSquareShadow(bounds);
            forall i :: 0 <= i < 5 ==>
              var arcs := layers[i].shape.path.arcs;
              && arcs[3].x < bounds.x as real
              && arcs[1].y + arcs[1].height > (bounds.y + bounds.height) as real
    ensures var layers := DrawSquareShadow(bounds);
            forall i, j :: 0 <= i < j < 5 ==>
              layers[j].shape.path.arcs[0].width <= layers[i].shape.path.arcs[0].width
  {
  }

  /** `DrawRoundShadow`'s five layers: x and y offsets and growth of width and
      height. */
  const RoundShadowDx: seq<int> := [-2, -1, 0, 0, 0]
  const RoundShadowDy: seq<int> := [-1, -1, 0, 2, 1]
  const RoundShadowDw: seq<int> := [4, 2, 0, 0, 0]
  const RoundShadowDh: seq<int> := [6, 4, 2, 0, 0]

  /** `DrawRoundShadow`'s five ellipse rectangles, in order. */
  function RoundShadowRects(bounds: Rectangle): (rects: seq<Rectangle>)
    ensures |rects| == 5
    ensures forall i :: 0 <= i < 5 ==>
              rects[i] == Rectangle(bounds.x + RoundShadowDx[i], bounds.y + RoundShadowDy[i],
                                    bounds.width + RoundShadowDw[i], bounds.height + RoundShadowDh[i])
    ensures forall i :: 0 <= i < 5 ==>
              && rects[i].x <= bounds.x && bounds.x + bounds.width <= rects[i].x + rects[i].width
              && rects[i].y <= bounds.y + 2
              && bounds.y + bounds.height < rects[i].y + rects[i].height
  {
    [ Rectangle(bounds.x - 2, bounds.y - 1, bounds.width + 4, bounds.height + 6),
      Rectangle(bounds.x - 1, bounds.y - 1, bounds.width + 2, bounds.height + 4),
      Rectangle(bounds.x - 0, bounds.y - 0, bounds.width + 0, bounds.height + 2),
      Rectangle(bounds.x - 0, bounds.y + 2, bounds.width + 0, bounds.height + 0),
      Rectangle(bounds.x - 0, bounds.y + 1, bounds.width + 0, bounds.height + 0) ]
  }

  /** `DrawRoundShadow`: five ellipse fills, in order. */
  function DrawRoundShadow(bounds: Rectangle): (layers: seq<Layer>)
    ensures |layers| == 5
    ensures forall i :: 0 <= i < 5 ==>
              && layers[i].brush == ShadowBrush
              && layers[i].shape.FillEllipse?
              && layers[i].shape.bounds
                 == Rectangle(bounds.x + RoundShadowDx[i], bounds.y + RoundShadowDy[i],
                              bounds.width + RoundShadowDw[i], bounds.height + RoundShadowDh[i])
    ensures forall i :: 0 <= i < 5 ==>
              var e := layers[i].shape.bounds;
              && e.x <= bounds.x && bounds.x + bounds.width <= e.x + e.width
              && e.y <= bounds.y + 2
              && bounds.y + bounds.height < e.y + e.height
  {
    var rects := RoundShadowRects(bounds);
    seq(5, i requires 0 <= i < 5 => Layer(ShadowBrush, FillEllipse(rects[i])))
  }
}
