/** How the cut parts fit together: the teeth of each wing pair land in the
    slots of the side panels, and the tabs of the side panels land in the
    notches and tap holes of the covers.  Stated on the strokes a renderer
    makes when it draws each path: a tooth, notch, tab or hole is the stroke
    that runs along one line, and its extent along that line is an `Interval`. */
module RackJoints {
  import opened Paths
  import opened Rack

  /** Slot `s` of a side panel, as an interval along the depth from the panel's front. */
  function SlotInterval(depth: nat, s: nat): Interval
    requires WingsFit(depth) && s < 4
  {
    Interval(WingHoleSlotY(depth, s) as real, (WingHoleSlotY(depth, s) + SideWingSlotWidth) as real)
  }

  /** Tap `k` (0 at the front, 1 at the back) along the depth, as the
      cover outline spells it. */
  function TapInterval(depth: nat, k: nat): Interval
    requires CoverOutlineFits(depth) && k < 2
  {
    if k == 0 then Interval(SideTapFromFront as real, (SideTapFromFront + SideTapWidth) as real)
    else Interval(Sub(depth, SideTapFromFront + SideTapWidth) as real, Sub(depth, SideTapFromFront) as real)
  }

  /** An interval moved along its axis. */
  function Shift(i: Interval, offset: real): Interval
  {
    Interval(i.lo + offset, i.hi + offset)
  }

  /** The slots of a side panel are apart from each other and in order from
      front to back exactly when the box is at least 150 deep; below that
      the two middle slots meet or cross. */
  lemma SlotsOrdered(depth: nat)
    requires WingsFit(depth)
    ensures (forall s :: 0 <= s < 3 ==> SlotInterval(depth, s).hi <= SlotInterval(depth, s + 1).lo)
        <==> 150 <= depth
  {
    if 150 <= depth {
      forall s | 0 <= s < 3
        ensures SlotInterval(depth, s).hi <= SlotInterval(depth, s + 1).lo
      {
      }
    } else {
      assert SlotInterval(depth, 1).hi > SlotInterval(depth, 2).lo;
    }
  }

  /** Every slot is `SIDE_WING_SLOT_WIDTH` long and lies within the depth
      (at the smallest depth, 75, slot 1 reaches the back and slot 2 the front). */
  lemma SlotsWithinDepth(depth: nat, s: nat)
    requires WingsFit(depth) && s < 4
    ensures SlotInterval(depth, s).hi - SlotInterval(depth, s).lo == SideWingSlotWidth as real
    ensures 0.0 <= SlotInterval(depth, s).lo && SlotInterval(depth, s).hi <= depth as real
  {
  }

  // --------------------------------------------------------------- teeth

  /** The teeth of the wing hang `t` below its body, along the line
      `y = sy + w + t`, and fill slots 0 and 2. */
  lemma WingTeeth(sx: real, sy: real, t: real, depth: nat, w: nat)
    requires WingsFit(depth) && 0.0 < t
    ensures HorizontalRuns(SideWingPath(sx, sy, t, depth, w).Strokes(), sy + w as real + t)
      == [SlotInterval(depth, 0), SlotInterval(depth, 2)]
  {
    RunsUnfold();
  }

  /** The teeth of the inverted wing stand `t` above its body, along its top
      line `y = sy`, and fill slots 1 and 3. */
  lemma InvertedWingTeeth(sx: real, sy: real, t: real, depth: nat, w: nat)
    requires WingsFit(depth) && 0.0 < t
    ensures HorizontalRuns(SideWingInvertedPath(sx, sy, t, depth, w).Strokes(), sy)
      == [SlotInterval(depth, 1), SlotInterval(depth, 3)]
  {
    RunsUnfold();
  }

  /** Every side of a wing tooth is exactly `t` long, from the body line
      `y = sy + w` to the tooth line.  Stated for the origin `x = 0` the
      drawing uses, since the wing's horizontal targets ignore its origin. */
  lemma WingToothDepth(sy: real, t: real, depth: nat, w: nat)
    requires 150 <= depth && 0.0 < t
    ensures forall s :: s in {0, 2} ==>
      && VerticalRuns(SideWingPath(0.0, sy, t, depth, w).Strokes(), SlotInterval(depth, s).lo)
           == [Interval(sy + w as real, sy + w as real + t)]
      && VerticalRuns(SideWingPath(0.0, sy, t, depth, w).Strokes(), SlotInterval(depth, s).hi)
           == [Interval(sy + w as real, sy + w as real + t)]
  {
    RunsUnfold();
  }

  /** Every side of an inverted-wing tooth is exactly `t` long, from the top
      line to the body line `y = sy + t`. */
  lemma InvertedWingToothDepth(sy: real, t: real, depth: nat, w: nat)
    requires 150 <= depth && 0.0 < t
    ensures forall s :: s in {1, 3} ==>
      && VerticalRuns(SideWingInvertedPath(0.0, sy, t, depth, w).Strokes(), SlotInterval(depth, s).lo)
           == [Interval(sy, sy + t)]
      && VerticalRuns(SideWingInvertedPath(0.0, sy, t, depth, w).Strokes(), SlotInterval(depth, s).hi)
           == [Interval(sy, sy + t)]
  {
    RunsUnfold();
  }

  // --------------------------------------------------------------- holes

  /** A wing hole is `t` wide and a slot long: its two long sides run along
      `x` and `x + t` over `[y, y + 20]`, and its short sides span `[x, x + t]`. */
  lemma WingHoleShape(x: real, y: real, t: real)
    requires 0.0 < t
    ensures VerticalRuns(SidePanelWingHoles(x, y, t).Strokes(), x) == [Interval(y, y + SideWingSlotWidth as real)]
    ensures VerticalRuns(SidePanelWingHoles(x, y, t).Strokes(), x + t) == [Interval(y, y + SideWingSlotWidth as real)]
    ensures HorizontalRuns(SidePanelWingHoles(x, y, t).Strokes(), y) == [Interval(x, x + t)]
    ensures HorizontalRuns(SidePanelWingHoles(x, y, t).Strokes(), y + SideWingSlotWidth as real) == [Interval(x, x + t)]
  {
    RunsUnfold();
  }

  /** Hole `q` of a panel whose top is at `y` lies over slot `q % 4`,
      measured from the panel's top: the slot a tooth of wing `q % 2` fills. */
  lemma WingHoleInSlot(sx: real, y: real, d: Dimensions, t: real, q: nat)
    requires WingsFit(d.depth) && 0.0 < t
    ensures WingHolePart(sx, y, d, t, q).x == sx + WingHoleRowX(d, t, q / 4)
    ensures VerticalRuns(PathData(WingHolePart(sx, y, d, t, q)).Strokes(), WingHolePart(sx, y, d, t, q).x)
      == [Shift(SlotInterval(d.depth, q % 4), y)]
  {
    var h := WingHolePart(sx, y, d, t, q);
    WingHoleShape(h.x, h.y, t);
  }

  /** The slots of a side panel are exactly the teeth of a wing pair: the
      wing's teeth followed by the inverted wing's teeth give slots 0, 2, 1, 3. */
  lemma SlotsMatchTeeth(sx: real, sy: real, t: real, depth: nat, w: nat)
    requires WingsFit(depth) && 0.0 < t
    ensures
      var teeth := HorizontalRuns(SideWingPath(sx, sy, t, depth, w).Strokes(), sy + w as real + t)
        + HorizontalRuns(SideWingInvertedPath(sx, sy, t, depth, w).Strokes(), sy);
      && teeth == [SlotInterval(depth, 0), SlotInterval(depth, 2), SlotInterval(depth, 1), SlotInterval(depth, 3)]
      && forall s :: 0 <= s < 4 ==> SlotInterval(depth, s) in teeth
  {
    WingTeeth(sx, sy, t, depth, w);
    InvertedWingTeeth(sx, sy, t, depth, w);
  }

  // ---------------------------------------------------------------- taps

  /** The front notches of a cover: along `x = sx + t` the outline runs over
      the two tap intervals, front first. */
  lemma CoverFrontNotches(d: Dimensions, sx: real, sy: real, columns: nat, columnWidth: real, t: real)
    requires CoverOutlineFits(d.depth) && 1 <= columns && 0.0 < columnWidth && 0.0 < t
    ensures VerticalRuns(TopPath(d, sx, sy, columns, columnWidth, t).Strokes(), sx + t)
      == [Shift(TapInterval(d.depth, 0), sy), Shift(TapInterval(d.depth, 1), sy)]
  {
    assert t < TopWidth(columnWidth, columns, t) - t by { PositiveProduct(columnWidth, columns); }
    RunsUnfold();
  }

  /** The back notches of a cover: along `x = sx + top_width - t` the outline
      runs over the same two intervals, back first, as it is drawn round. */
  lemma CoverBackNotches(d: Dimensions, sx: real, sy: real, columns: nat, columnWidth: real, t: real)
    requires CoverOutlineFits(d.depth) && 1 <= columns && 0.0 < columnWidth && 0.0 < t
    ensures VerticalRuns(TopPath(d, sx, sy, columns, columnWidth, t).Strokes(), sx + TopWidth(columnWidth, columns, t) - t)
      == [Shift(TapInterval(d.depth, 1), sy), Shift(TapInterval(d.depth, 0), sy)]
  {
    assert t < TopWidth(columnWidth, columns, t) - t by { PositiveProduct(columnWidth, columns); }
    RunsUnfold();
  }

  /** A positive length taken at least once is at least that length. */
  lemma PositiveProduct(a: real, n: nat)
    requires 0.0 < a && 1 <= n
    ensures a <= a * n as real
  {
    assert a * n as real == a + a * (n - 1) as real;
  }

  /** The front tabs of a side panel: along its edge `x = sx` the outline
      runs over the two tap intervals, front first. */
  lemma PanelFrontTabs(sx: real, sy: real, d: Dimensions, rows: nat, t: real)
    requires CoverOutlineFits(d.depth) && 0.0 < t
    ensures VerticalRuns(SidePanelOutlinePath(sx, sy, d, rows, t).Strokes(), sx)
      == [Shift(TapInterval(d.depth, 0), sy), Shift(TapInterval(d.depth, 1), sy)]
  {
    RunsUnfold();
  }

  /** The back tabs of a side panel: along its far edge
      `x = sx + rows * height + 2t` the outline runs over the same two
      intervals, back first. */
  lemma PanelBackTabs(sx: real, sy: real, d: Dimensions, rows: nat, t: real)
    requires CoverOutlineFits(d.depth) && 0.0 < t
    ensures VerticalRuns(SidePanelOutlinePath(sx, sy, d, rows, t).Strokes(), sx + (d.height * rows) as real + 2.0 * t)
      == [Shift(TapInterval(d.depth, 1), sy), Shift(TapInterval(d.depth, 0), sy)]
  {
    assert 0.0 <= (d.height * rows) as real;
    RunsUnfold();
  }

  /** A tap hole is `t` wide and a tap long: both long sides run over `[y, y + 30]`. */
  lemma TapHoleShape(x: real, y: real, t: real)
    requires 0.0 < t
    ensures VerticalRuns(SideTapPath(x, y, t).Strokes(), x) == [Interval(y, y + SideTapWidth as real)]
    ensures VerticalRuns(SideTapPath(x, y, t).Strokes(), x + t) == [Interval(y, y + SideTapWidth as real)]
    ensures HorizontalRuns(SideTapPath(x, y, t).Strokes(), y) == [Interval(x, x + t)]
    ensures HorizontalRuns(SideTapPath(x, y, t).Strokes(), y + SideTapWidth as real) == [Interval(x, x + t)]
  {
    RunsUnfold();
  }

  /** Tap hole `k` of a cover whose top is at `sy` lies over the front tap
      when `k` is even and over the back tap when `k` is odd: the same
      intervals as the cover's notches and the side panels' tabs. */
  lemma TapHolesMatchTabs(d: Dimensions, sx: real, sy: real, columnWidth: real, t: real, k: nat)
    requires CoverTapHolesFit(d.depth) && 0.0 < t
    ensures VerticalRuns(PathData(CoverTapHolePart(d, sx, sy, columnWidth, t, k)).Strokes(), CoverTapX(sx, columnWidth, k / 2))
      == [Shift(TapInterval(d.depth, k % 2), sy)]
  {
    var h := CoverTapHolePart(d, sx, sy, columnWidth, t, k);
    TapHoleShape(h.x, h.y, t);
  }
}
