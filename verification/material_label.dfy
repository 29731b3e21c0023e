/** `MaterialLabel` (src/ReaLTaiizor/Controls/Label/MaterialLabel.cs): the
    mapping from `ContentAlignment` to the text renderer's alignment flags, the
    `TextAlign` property that keeps the two in step, and the decisions
    `OnPaint` and `GetPreferredSize` make. Rendering and measuring are foreign
    and enter as parameters. */
module MaterialLabel {
  import opened Drawing

  datatype Option<T> = None | Some(value: T)

  // ---------------------------------------------------------------------------
  // ContentAlignment and the renderer's flags.
  // ---------------------------------------------------------------------------

  /** `System.Drawing.ContentAlignment` is an integer enumeration: any integer
      can be stored in it, and the nine named members are single bits, one
      nibble per row (1, 16, 256) and one bit per column within it (1, 2, 4). */
  type ContentAlignment = int

  const TopLeft: ContentAlignment := 0x001
  const TopCenter: ContentAlignment := 0x002
  const TopRight: ContentAlignment := 0x004
  const MiddleLeft: ContentAlignment := 0x010
  const MiddleCenter: ContentAlignment := 0x020
  const MiddleRight: ContentAlignment := 0x040
  const BottomLeft: ContentAlignment := 0x100
  const BottomCenter: ContentAlignment := 0x200
  const BottomRight: ContentAlignment := 0x400

  /** The nine named alignments. */
  const NamedAlignments: set<ContentAlignment> :=
    {TopLeft, TopCenter, TopRight, MiddleLeft, MiddleCenter, MiddleRight, BottomLeft, BottomCenter, BottomRight}

  datatype Vertical = Top | Middle | Bottom
  datatype Horizontal = Left | Center | Right

  /** One flag of the text renderer's `TextAlignFlags`; a flags value is the
      set of flags or-ed together. */
  datatype AlignFlag = V(vertical: Vertical) | H(horizontal: Horizontal)

  /** `v | h`: one vertical and one horizontal flag combined. */
  function Flags(v: Vertical, h: Horizontal): set<AlignFlag> {
    {V(v), H(h)}
  }

  /** The named alignment for a row and a column, by the enumeration's bit
      layout: the row picks the nibble, the column the bit within it. */
  function Compose(v: Vertical, h: Horizontal): (a: ContentAlignment)
    ensures a in NamedAlignments
  {
    var row := match v case Top => 0x001 case Middle => 0x010 case Bottom => 0x100;
    var column := match h case Left => 1 case Center => 2 case Right => 4;
    row * column
  }

  /** `updateAligment`: the switch from `ContentAlignment` to renderer flags;
      any value outside the nine named ones falls back to Top | Left. */
  function AlignmentOf(textAlign: ContentAlignment): (flags: set<AlignFlag>)
    ensures exists v, h :: flags == Flags(v, h)
    ensures textAlign !in NamedAlignments ==> flags == Flags(Top, Left)
  {
    if textAlign == TopLeft then Flags(Top, Left)
    else if textAlign == TopCenter then Flags(Top, Center)
    else if textAlign == TopRight then Flags(Top, Right)
    else if textAlign == MiddleLeft then Flags(Middle, Left)
    else if textAlign == MiddleCenter then Flags(Middle, Center)
    else if textAlign == MiddleRight then Flags(Middle, Right)
    else if textAlign == BottomLeft then Flags(Bottom, Left)
    else if textAlign == BottomCenter then Flags(Bottom, Center)
    else if textAlign == BottomRight then Flags(Bottom, Right)
    else Flags(Top, Left)
  }

  /** A flags value made of one vertical and one horizontal flag determines
      both. */
  lemma FlagsDetermineParts(v: Vertical, h: Horizontal, v': Vertical, h': Horizontal)
    ensures Flags(v, h) == Flags(v', h') <==> v == v' && h == h'
  {
    if Flags(v, h) == Flags(v', h') {
      assert V(v) in Flags(v', h');
      assert H(h) in Flags(v', h');
    }
  }

  /** Every named alignment maps to the flags its name spells: the vertical
      flag of its row and the horizontal flag of its column. */
  lemma AlignmentMatchesName(v: Vertical, h: Horizontal)
    ensures AlignmentOf(Compose(v, h)) == Flags(v, h)
  {
  }

  /** Every named alignment is `Compose` of exactly one row and column. */
  lemma NamedAreComposed(a: ContentAlignment)
    requires a in NamedAlignments
    ensures exists v, h :: a == Compose(v, h)
  {
    if a == TopLeft { assert a == Compose(Top, Left); }
    else if a == TopCenter { assert a == Compose(Top, Center); }
    else if a == TopRight { assert a == Compose(Top, Right); }
    else if a == MiddleLeft { assert a == Compose(Middle, Left); }
    else if a == MiddleCenter { assert a == Compose(Middle, Center); }
    else if a == MiddleRight { assert a == Compose(Middle, Right); }
    else if a == BottomLeft { assert a == Compose(Bottom, Left); }
    else if a == BottomCenter { assert a == Compose(Bottom, Center); }
    else { assert a == Compose(Bottom, Right); }
  }

  /** No two named alignments share their flags. */
  lemma AlignmentInjective(a: ContentAlignment, b: ContentAlignment)
    requires a in NamedAlignments && b in NamedAlignments
    ensures AlignmentOf(a) == AlignmentOf(b) <==> a == b
  {
    NamedAreComposed(a);
    NamedAreComposed(b);
    var va, ha :| a == Compose(va, ha);
    var vb, hb :| b == Compose(vb, hb);
    AlignmentMatchesName(va, ha);
    AlignmentMatchesName(vb, hb);
    FlagsDetermineParts(va, ha, vb, hb);
  }

  // ---------------------------------------------------------------------------
  // The label's state.
  // ---------------------------------------------------------------------------

  /** The fields of a `MaterialLabel` the model follows: the stored
      `TextAlign`, the cached renderer `Alignment`, the two emphasis switches,
      and the inherited `Enabled` and `AutoSize`. */
  datatype Label = Label(
    textAlign: ContentAlignment,
    alignment: set<AlignFlag>,
    highEmphasis: bool,
    useAccent: bool,
    enabled: bool,
    autoSize: bool)

  /** The cached flags are those of the stored alignment. */
  predicate Consistent(state: Label) {
    state.alignment == AlignmentOf(state.textAlign)
  }

  /** The `TextAlign` setter: store the value and recompute the flags; no other
      field changes. */
  function SetTextAlign(state: Label, value: ContentAlignment): (state': Label)
    ensures state'.textAlign == value
    ensures Consistent(state')
    ensures state'.(textAlign := state.textAlign, alignment := state.alignment) == state
  {
    state.(textAlign := value, alignment := AlignmentOf(value))
  }

  /** The constructor: `TextAlign` is set to TopLeft through the setter, so
      the flags are Top | Left; the switches keep their defaults. */
  function NewLabel(enabled: bool, autoSize: bool): (state: Label)
    ensures Consistent(state)
    ensures state.textAlign == TopLeft && state.alignment == Flags(Top, Left)
    ensures !state.highEmphasis && !state.useAccent
    ensures state.enabled == enabled && state.autoSize == autoSize
  {
    var initial := Label(TopLeft, {}, false, false, enabled, autoSize);
    SetTextAlign(initial, TopLeft)
  }

  /** A run of `TextAlign` assignments, one after another. */
  function SetAll(state: Label, values: seq<ContentAlignment>): Label
    decreases |values|
  {
    if |values| == 0 then state
    else SetAll(SetTextAlign(state, values[0]), values[1..])
  }

  /** After any non-empty run of assignments the label holds the last value
      with matching flags, and the other fields are untouched; an empty run
      changes nothing. */
  lemma {:induction false} SetAllKeepsConsistent(state: Label, values: seq<ContentAlignment>)
    ensures |values| == 0 ==> SetAll(state, values) == state
    ensures |values| > 0 ==>
              && SetAll(state, values).textAlign == values[|values| - 1]
              && Consistent(SetAll(state, values))
    ensures SetAll(state, values).(textAlign := state.textAlign, alignment := state.alignment) == state
    decreases |values|
  {
    if |values| > 0 {
      var next := SetTextAlign(state, values[0]);
      SetAllKeepsConsistent(next, values[1..]);
      if |values| > 1 {
        assert values[1..][|values[1..]| - 1] == values[|values| - 1];
      }
    }
  }

  /** Setting the same value twice is the same as setting it once. */
  lemma SetTextAlignIdempotent(state: Label, value: ContentAlignment)
    ensures SetTextAlign(SetTextAlign(state, value), value) == SetTextAlign(state, value)
  {
  }

  // ---------------------------------------------------------------------------
  // OnPaint and GetPreferredSize.
  // ---------------------------------------------------------------------------

  /** Which colour of the skin draws the text. */
  datatype TextRole = AccentColor | PrimaryColor | TextHighEmphasisColor | TextDisabledOrHintColor

  /** The text colour choice in `OnPaint`. */
  function TextRoleOf(enabled: bool, highEmphasis: bool, useAccent: bool): (role: TextRole)
    ensures role == TextDisabledOrHintColor <==> !enabled
    ensures role == TextHighEmphasisColor <==> enabled && !highEmphasis
    ensures role == AccentColor <==> enabled && highEmphasis && useAccent
    ensures role == PrimaryColor <==> enabled && highEmphasis && !useAccent
  {
    if enabled then
      if highEmphasis then
        if useAccent then AccentColor else PrimaryColor
      else TextHighEmphasisColor
    else TextDisabledOrHintColor
  }

  /** The colour `OnPaint` clears to: the parent's back colour unless it is
      Transparent; then the grandparent's, unless there is none or it is
      Transparent too, in which case the system Control colour. */
  function ClearColor(parentBack: Color, grandparentBack: Option<Color>, systemControl: Color): (c: Color)
    ensures c == parentBack || c == systemControl || (grandparentBack.Some? && c == grandparentBack.value)
    ensures parentBack != Transparent ==> c == parentBack
    ensures parentBack == Transparent && grandparentBack.Some? && grandparentBack.value != Transparent ==>
              c == grandparentBack.value
    ensures parentBack == Transparent && (grandparentBack.None? || grandparentBack.value == Transparent) ==>
              c == systemControl
  {
    if parentBack == Transparent then
      if grandparentBack.None? || grandparentBack.value == Transparent then systemControl
      else grandparentBack.value
    else parentBack
  }

  /** The background is never Transparent as long as the system Control colour
      is not: the first non-Transparent colour up the chain wins. */
  lemma ClearColorOpaque(parentBack: Color, grandparentBack: Option<Color>, systemControl: Color)
    requires systemControl != Transparent
    ensures ClearColor(parentBack, grandparentBack, systemControl) != Transparent
  {
  }

  /** What one `OnPaint` call does: the colour it clears to, the colour role of
      the text, and the alignment flags it hands the renderer. */
  datatype PaintPlan = PaintPlan(clear: Color, text: TextRole, flags: set<AlignFlag>)

  /** The result of `OnPaint`: a plan, or the NullReferenceException thrown
      when the label has no parent whose back colour can be read. */
  datatype PaintOutcome = Painted(plan: PaintPlan) | NullReference

  /** `OnPaint`. `parentBack` is the parent's back colour, `None` when the
      label has no parent; `grandparentBack` is the grandparent's. */
  function Paint(state: Label, parentBack: Option<Color>, grandparentBack: Option<Color>,
                 systemControl: Color): (r: PaintOutcome)
    ensures r.NullReference? <==> parentBack.None?
    ensures r.Painted? ==> r.plan.clear == ClearColor(parentBack.value, grandparentBack, systemControl)
    ensures r.Painted? ==> r.plan.text == TextRoleOf(state.enabled, state.highEmphasis, state.useAccent)
    ensures r.Painted? && Consistent(state) ==> r.plan.flags == AlignmentOf(state.textAlign)
  {
    if parentBack.None? then NullReference
    else
      Painted(PaintPlan(ClearColor(parentBack.value, grandparentBack, systemControl),
                        TextRoleOf(state.enabled, state.highEmphasis, state.useAccent),
                        state.alignment))
  }

  /** Any state built by the constructor and then given any run of `TextAlign`
      assignments paints, once it has a parent, with the flags of its current
      alignment. */
  lemma PaintUsesCurrentAlignment(enabled: bool, autoSize: bool, values: seq<ContentAlignment>,
                                  parentBack: Color, grandparentBack: Option<Color>, systemControl: Color)
    ensures var state := SetAll(NewLabel(enabled, autoSize), values);
            var r := Paint(state, Some(parentBack), grandparentBack, systemControl);
            r.Painted? && r.plan.flags == AlignmentOf(state.textAlign)
  {
    SetAllKeepsConsistent(NewLabel(enabled, autoSize), values);
  }

  /** `GetPreferredSize`: without AutoSize the proposed size comes back
      unchanged; with it, the measured text size one pixel wider. */
  function PreferredSize(autoSize: bool, proposedSize: Size, measured: Size): (s: Size)
    ensures !autoSize ==> s == proposedSize
    ensures autoSize ==> s.width == measured.width + 1 && s.height == measured.height
  {
    if autoSize then Size(measured.width + 1, measured.height)
    else proposedSize
  }

  /** With AutoSize the proposal is ignored; without it the measurement is. */
  lemma PreferredSizeIgnores(autoSize: bool, p1: Size, p2: Size, m1: Size, m2: Size)
    ensures autoSize ==> PreferredSize(autoSize, p1, m1) == PreferredSize(autoSize, p2, m1)
    ensures !autoSize ==> PreferredSize(autoSize, p1, m1) == PreferredSize(autoSize, p1, m2)
  {
  }
}
