/** The rack generator of `src/rack/mod.rs`: canvas size, region origins and
    the three panel generators (wing pairs, top/bottom covers, side panels),
    each emitting axis-aligned path data.

    `usize` quantities are `nat`; a `usize` subtraction, which panics on
    underflow, is `Sub` and carries its precondition.  `f32` lengths are exact
    `real`s.  Stroke colours are not modelled. */
module Rack {
  import opened Paths
  import opened Blocks

  // All measurements are in millimetres.
  const SideWingSlotFromFront: nat := 20
  const SideWingSlotWidth: nat := 20
  const SideWingSlotSpacing: nat := 15
  const ClearanceBetweenPaths: nat := 3
  const SideTapFromFront: nat := 30
  const SideTapWidth: nat := 30
  const ClearanceForContainerWidth: nat := 4

  datatype Dimensions = Dimensions(
    width: nat,
    depth: nat,
    height: nat,
    sideWingFromBoxTop: nat,
    sideWingWidth: nat)

  datatype Container = Container(
    vendor: string,
    model: string,
    description: string,
    links: seq<string>,
    dimensions: Dimensions)

  /** A generated drawing: declared width and height (the view box is
      `0 0 width height`) and the paths in draw order. */
  datatype Document = Document(width: real, height: real, paths: seq<Data>)

  /** `usize` subtraction: it panics instead of going below zero. */
  function Sub(a: nat, b: nat): nat
    requires b <= a
  {
    a - b
  }

  // ---------------------------------------------------------------- keys

  predicate IsAsciiUpper(c: char)
  {
    'A' <= c <= 'Z'
  }

  /** `char::to_lowercase` on ASCII letters. */
  function ToLowerAscii(c: char): char
  {
    if IsAsciiUpper(c) then (c as int + 32) as char else c
  }

  /** The per-character effect of `.to_lowercase().replace(" ", "_")`. */
  function KeyChar(c: char): char
  {
    if c == ' ' then '_' else ToLowerAscii(c)
  }

  /** `Container::key`: "vendor-model", lower-cased, spaces replaced by `_`. */
  function Key(c: Container): (k: string)
    ensures |k| == |c.vendor| + 1 + |c.model|
    ensures k[|c.vendor|] == '-'
    ensures forall i :: 0 <= i < |c.vendor| ==> k[i] == KeyChar(c.vendor[i])
    ensures forall i :: 0 <= i < |c.model| ==> k[|c.vendor| + 1 + i] == KeyChar(c.model[i])
    ensures forall i :: 0 <= i < |k| ==> k[i] != ' ' && !IsAsciiUpper(k[i])
  {
    var formatted := c.vendor + "-" + c.model;
    var lowered := seq(|formatted|, i requires 0 <= i < |formatted| => ToLowerAscii(formatted[i]));
    seq(|lowered|, i requires 0 <= i < |lowered| => if lowered[i] == ' ' then '_' else lowered[i])
  }

  // ------------------------------------------------------- tooth positions

  /** Leading edge of the third wing tooth, mirrored from the back. */
  function ThirdSideWingTapPositionFromFront(boxDepth: nat): nat
    requires SideWingSlotFromFront + SideWingSlotWidth + SideWingSlotSpacing + SideWingSlotWidth <= boxDepth
  {
    Sub(boxDepth, SideWingSlotFromFront + SideWingSlotWidth + SideWingSlotSpacing + SideWingSlotWidth)
  }

  /** Leading edge of the second wing tooth (the first of the inverted wing). */
  function SecondSideWingTapPositionFromFront(): nat
  {
    SideWingSlotFromFront + SideWingSlotWidth + SideWingSlotSpacing
  }

  /** Leading edge of the fourth wing tooth (the second of the inverted wing). */
  function FourthSideWingTapPositionFromFront(boxDepth: nat): nat
    requires SideWingSlotFromFront + SideWingSlotWidth <= boxDepth
  {
    Sub(boxDepth, SideWingSlotFromFront + SideWingSlotWidth)
  }

  // ------------------------------------------------------------ layout

  function ColumnWidth(d: Dimensions): nat
  {
    d.width + ClearanceForContainerWidth
  }

  /** Vertical extent of one wing pair (two wings, the gap, one tooth depth). */
  function HeightOfTwoSideWings(sideWingWidth: nat, t: real): real
  {
    (sideWingWidth * 2 + ClearanceBetweenPaths) as real + t
  }

  /** Vertical distance from one wing pair to the next. */
  function WingPairStride(d: Dimensions, t: real): real
  {
    HeightOfTwoSideWings(d.sideWingWidth, t) + ClearanceBetweenPaths as real
  }

  /** Width of a cover for `columns` columns of width `columnWidth`. */
  function TopWidth(columnWidth: real, columns: nat, t: real): real
  {
    (t + columnWidth * columns as real) + t
  }

  /** Height of the wing stack: one stride per container. */
  function WingStackExtent(rows: nat, columns: nat, t: real, d: Dimensions): real
  {
    (rows * columns) as real * WingPairStride(d, t)
  }

  /** Height of the two stacked covers. */
  function CoverPairExtent(d: Dimensions): real
  {
    (2 * d.depth + ClearanceBetweenPaths) as real
  }

  /** Height of the row of `columns + 1` side panels. */
  function SidePanelRowExtent(columns: nat, d: Dimensions): real
  {
    ((columns + 1) * (d.depth + ClearanceBetweenPaths)) as real
  }

  function Max(a: real, b: real): real
  {
    if a <= b then b else a
  }

  function TotalWidth(rows: nat, columns: nat, t: real, d: Dimensions): real
  {
    (d.depth + ClearanceBetweenPaths * 3) as real
      + TopWidth(ColumnWidth(d) as real, columns, t)
      + (d.height * rows) as real
      + 2.0 * t
  }

  /** The three regions sit side by side, so the canvas is as tall as the
      tallest of them (a fold of `f32::max` from negative infinity). */
  function TotalHeight(rows: nat, columns: nat, t: real, d: Dimensions): (h: real)
    ensures h >= WingStackExtent(rows, columns, t, d)
    ensures h >= CoverPairExtent(d)
    ensures h >= SidePanelRowExtent(columns, d)
    ensures h == WingStackExtent(rows, columns, t, d) || h == CoverPairExtent(d) || h == SidePanelRowExtent(columns, d)
  {
    Max(Max(WingStackExtent(rows, columns, t, d), CoverPairExtent(d)), SidePanelRowExtent(columns, d))
  }

  /** Left edge of the cover region. */
  function CoverRegionX(d: Dimensions): real
  {
    (d.depth + ClearanceBetweenPaths) as real
  }

  /** Left edge of the side-panel region, allotted from `top_width(column_width, ...)`. */
  function SidePanelRegionX(columns: nat, t: real, d: Dimensions): real
  {
    CoverRegionX(d) + TopWidth(ColumnWidth(d) as real, columns, t) + ClearanceBetweenPaths as real
  }

  // ------------------------------------------------------------- wings

  /** Tooth positions of both wings need the depth to hold two slots, the spacing and the front offset. */
  predicate WingsFit(depth: nat)
  {
    SideWingSlotFromFront + SideWingSlotWidth + SideWingSlotSpacing + SideWingSlotWidth <= depth
  }

  /** `generate_side_wing_path`: the comb whose two teeth hang down by `t`.
      Its horizontal targets are absolute and ignore `sx`. */
  function SideWingPath(sx: real, sy: real, t: real, boxDepth: nat, wingWidth: nat): Data
    requires WingsFit(boxDepth)
  {
    MoveTo(sx, sy)
      .VerticalLineTo(sy + wingWidth as real)
      .HorizontalLineTo(SideWingSlotFromFront as real)
      .VerticalLineTo(sy + t + wingWidth as real)
      .HorizontalLineTo((SideWingSlotFromFront + SideWingSlotWidth) as real)
      .VerticalLineTo(sy + wingWidth as real)
      .HorizontalLineTo(ThirdSideWingTapPositionFromFront(boxDepth) as real)
      .VerticalLineTo(sy + wingWidth as real + t)
      .HorizontalLineTo((ThirdSideWingTapPositionFromFront(boxDepth) + SideWingSlotWidth) as real)
      .VerticalLineTo(sy + wingWidth as real)
      .HorizontalLineTo(boxDepth as real)
      .VerticalLineTo(sy)
      .Close()
  }

  /** `generate_side_wing_inverted_path`: the mating comb whose two teeth
      stand up by `t` in the gaps of the other wing. */
  function SideWingInvertedPath(sx: real, sy: real, t: real, boxDepth: nat, wingWidth: nat): Data
    requires WingsFit(boxDepth)
  {
    MoveTo(sx, sy + t)
      .HorizontalLineTo(SecondSideWingTapPositionFromFront() as real)
      .VerticalLineTo(sy)
      .HorizontalLineTo((SecondSideWingTapPositionFromFront() + SideWingSlotWidth) as real)
      .VerticalLineTo(sy + t)
      .HorizontalLineTo(FourthSideWingTapPositionFromFront(boxDepth) as real)
      .VerticalLineTo(sy)
      .HorizontalLineTo(Sub(boxDepth, SideWingSlotFromFront) as real)
      .VerticalLineTo(sy + t)
      .HorizontalLineTo(boxDepth as real)
      .VerticalLineTo(sy + t + wingWidth as real)
      .HorizontalLineTo(sx)
      .Close()
  }

  // ------------------------------------------------------------ covers

  /** The cover and side-panel outlines need room for both tap notches. */
  predicate CoverOutlineFits(depth: nat)
  {
    SideTapFromFront + SideTapWidth <= depth
  }

  /** The back tap hole of a cover starts `depth - 90` below the front one. */
  predicate CoverTapHolesFit(depth: nat)
  {
    SideTapFromFront + SideTapWidth * 2 <= depth
  }

  /** `generate_side_tap_path`: a `t` by `SIDE_TAP_WIDTH` rectangle. */
  function SideTapPath(x: real, y: real, t: real): Data
  {
    MoveTo(x, y)
      .VerticalLineTo(y + SideTapWidth as real)
      .HorizontalLineTo(x + t)
      .VerticalLineTo(y)
      .Close()
  }

  /** `generate_top_path`: a `top_width` by `depth` rectangle with a notch
      `t` deep at front and back on both long sides. */
  function TopPath(d: Dimensions, sx: real, sy: real, columns: nat, columnWidth: real, t: real): Data
    requires CoverOutlineFits(d.depth)
  {
    NotchedOutline(d, sx, sy, TopWidth(columnWidth, columns, t), t)
  }

  /** The outline `generate_top_path` draws once `top_width` is known. */
  function NotchedOutline(d: Dimensions, sx: real, sy: real, topWidth: real, t: real): Data
    requires CoverOutlineFits(d.depth)
  {
    MoveTo(sx, sy)
      .VerticalLineTo(sy + SideTapFromFront as real)
      .HorizontalLineTo(sx + t)
      .VerticalLineTo(sy + (SideTapFromFront + SideTapWidth) as real)
      .HorizontalLineTo(sx)
      .VerticalLineTo(sy + Sub(d.depth, SideTapFromFront + SideTapWidth) as real)
      .HorizontalLineTo(sx + t)
      .VerticalLineTo(sy + Sub(d.depth, SideTapFromFront) as real)
      .HorizontalLineTo(sx)
      .VerticalLineTo(sy + d.depth as real)
      .HorizontalLineTo(sx + topWidth)
      .VerticalLineTo(sy + Sub(d.depth, SideTapFromFront) as real)
      .HorizontalLineTo(sx - t + topWidth)
      .VerticalLineTo(sy + Sub(d.depth, SideTapFromFront + SideTapWidth) as real)
      .HorizontalLineTo(sx + topWidth)
      .VerticalLineTo(sy + (SideTapFromFront + SideTapWidth) as real)
      .HorizontalLineTo(sx - t + topWidth)
      .VerticalLineTo(sy + SideTapFromFront as real)
      .HorizontalLineTo(sx + topWidth)
      .VerticalLineTo(sy)
      .Close()
  }

  // ------------------------------------------------------- side panels

  /** `generate_side_panel_wing_holes`: a `t` by `SIDE_WING_SLOT_WIDTH` rectangle. */
  function SidePanelWingHoles(x: real, y: real, t: real): Data
  {
    MoveTo(x, y)
      .VerticalLineTo(y + SideWingSlotWidth as real)
      .HorizontalLineTo(x + t)
      .VerticalLineTo(y)
      .Close()
  }

  /** `generate_side_panel_outline_path`: a panel `rows * height + 2t` wide
      and `depth` long whose two short sides carry tabs `t` proud at the tap positions. */
  function SidePanelOutlinePath(sx: real, sy: real, d: Dimensions, rows: nat, t: real): Data
    requires CoverOutlineFits(d.depth)
  {
    TabbedOutline(sx, sy, d, (d.height * rows) as real, t)
  }

  /** The outline `generate_side_panel_outline_path` draws once the panel's
      inner height is known. */
  function TabbedOutline(sx: real, sy: real, d: Dimensions, panelInnerHeight: real, t: real): Data
    requires CoverOutlineFits(d.depth)
  {
    MoveTo(sx + t, sy)
      .VerticalLineTo(sy + SideTapFromFront as real)
      .HorizontalLineTo(sx)
      .VerticalLineTo(sy + (SideTapFromFront + SideTapWidth) as real)
      .HorizontalLineTo(sx + t)
      .VerticalLineTo(sy + Sub(Sub(d.depth, SideTapFromFront), SideTapWidth) as real)
      .HorizontalLineTo(sx)
      .VerticalLineTo(sy + Sub(d.depth, SideTapFromFront) as real)
      .HorizontalLineTo(sx + t)
      .VerticalLineTo(sy + d.depth as real)
      .HorizontalLineTo(sx + panelInnerHeight + 1.0 * t)
      .VerticalLineTo(sy + Sub(d.depth, SideTapFromFront) as real)
      .HorizontalLineTo(sx + panelInnerHeight + 2.0 * t)
      .VerticalLineTo(sy + Sub(Sub(d.depth, SideTapFromFront), SideTapWidth) as real)
      .HorizontalLineTo(sx + panelInnerHeight + 1.0 * t)
      .VerticalLineTo(sy + (SideTapFromFront + SideTapWidth) as real)
      .HorizontalLineTo(sx + panelInnerHeight + 2.0 * t)
      .VerticalLineTo(sy + SideTapFromFront as real)
      .HorizontalLineTo(sx + panelInnerHeight + 1.0 * t)
      .VerticalLineTo(sy)
      .Close()
  }

  // ------------------------------------------------------ emitted paths

  /** One `Path` element of the drawing, recorded as the generator call
      that produced its data (`PathData` replays the call). */
  datatype Part =
    | Wing(sx: real, sy: real, t: real, boxDepth: nat, wingWidth: nat)
    | InvertedWing(sx: real, sy: real, t: real, boxDepth: nat, wingWidth: nat)
    | Cover(dims: Dimensions, sx: real, sy: real, columns: nat, columnWidth: real, t: real)
    | TapHole(x: real, y: real, t: real)
    | PanelOutline(sx: real, sy: real, dims: Dimensions, rows: nat, t: real)
    | WingHole(x: real, y: real, t: real)

  /** The call does not underflow. */
  predicate Drawable(p: Part)
  {
    match p
    case Wing(_, _, _, boxDepth, _) => WingsFit(boxDepth)
    case InvertedWing(_, _, _, boxDepth, _) => WingsFit(boxDepth)
    case Cover(dims, _, _, _, _, _) => CoverOutlineFits(dims.depth)
    case PanelOutline(_, _, dims, _, _) => CoverOutlineFits(dims.depth)
    case TapHole(_, _, _) => true
    case WingHole(_, _, _) => true
  }

  /** The path data a part's generator call returns: a path that opens
      with a move-to and whose renderer state matches its commands. */
  function PathData(p: Part): (data: Data)
    requires Drawable(p)
    ensures data.Valid()
  {
    match p
    case Wing(sx, sy, t, boxDepth, wingWidth) =>
      WingPathValid(sx, sy, t, boxDepth, wingWidth);
      SideWingPath(sx, sy, t, boxDepth, wingWidth)
    case InvertedWing(sx, sy, t, boxDepth, wingWidth) =>
      InvertedWingPathValid(sx, sy, t, boxDepth, wingWidth);
      SideWingInvertedPath(sx, sy, t, boxDepth, wingWidth)
    case Cover(dims, sx, sy, columns, columnWidth, t) =>
      TopPathValid(dims, sx, sy, columns, columnWidth, t);
      TopPath(dims, sx, sy, columns, columnWidth, t)
    case TapHole(x, y, t) =>
      SideTapPathValid(x, y, t);
      SideTapPath(x, y, t)
    case PanelOutline(sx, sy, dims, rows, t) =>
      PanelOutlineValid(sx, sy, dims, rows, t);
      SidePanelOutlinePath(sx, sy, dims, rows, t)
    case WingHole(x, y, t) =>
      WingHolesValid(x, y, t);
      SidePanelWingHoles(x, y, t)
  }

  lemma WingPathValid(sx: real, sy: real, t: real, boxDepth: nat, wingWidth: nat)
    requires WingsFit(boxDepth)
    ensures SideWingPath(sx, sy, t, boxDepth, wingWidth).Valid()
  {
  }

  lemma InvertedWingPathValid(sx: real, sy: real, t: real, boxDepth: nat, wingWidth: nat)
    requires WingsFit(boxDepth)
    ensures SideWingInvertedPath(sx, sy, t, boxDepth, wingWidth).Valid()
  {
  }

  lemma TopPathValid(d: Dimensions, sx: real, sy: real, columns: nat, columnWidth: real, t: real)
    requires CoverOutlineFits(d.depth)
    ensures TopPath(d, sx, sy, columns, columnWidth, t).Valid()
  {
  }

  lemma SideTapPathValid(x: real, y: real, t: real)
    ensures SideTapPath(x, y, t).Valid()
  {
  }

  lemma PanelOutlineValid(sx: real, sy: real, d: Dimensions, rows: nat, t: real)
    requires CoverOutlineFits(d.depth)
    ensures SidePanelOutlinePath(sx, sy, d, rows, t).Valid()
  {
  }

  lemma WingHolesValid(x: real, y: real, t: real)
    ensures SidePanelWingHoles(x, y, t).Valid()
  {
  }

  // ----------------------------------------------------------- wing stack

  /** `generate_side_wing_pair`: the two wings, the inverted one
      `side_wing_width + CLEARANCE_BETWEEN_PATHS` further down. */
  function SideWingPair(d: Dimensions, sx: real, sy: real, t: real): seq<Part>
  {
    [ Wing(sx, sy, t, d.depth, d.sideWingWidth),
      InvertedWing(sx, sy + (d.sideWingWidth + ClearanceBetweenPaths) as real, t, d.depth, d.sideWingWidth) ]
  }

  /** Top of the wing pair of box `i`. */
  function WingPairY(d: Dimensions, t: real, i: nat): real
  {
    0.0 + WingPairStride(d, t) * i as real
  }

  /** The `k`-th path of the wing stack: box `k / 2`, inverted when `k` is odd. */
  function WingStackPart(d: Dimensions, t: real, k: nat): Part
  {
    SideWingPair(d, 0.0, WingPairY(d, t, k / 2), t)[k % 2]
  }

  /** The wing loop of `generate_svg`: one pair per box, boxes in order. */
  function SideWings(d: Dimensions, t: real, boxes: nat): (ps: seq<Part>)
    ensures |ps| == 2 * boxes
    ensures forall k :: 0 <= k < |ps| ==> ps[k] == WingStackPart(d, t, k)
  {
    if boxes == 0 then []
    else
      var earlier := SideWings(d, t, boxes - 1);
      assert forall k :: 2 * (boxes - 1) <= k < 2 * boxes ==> k / 2 == boxes - 1 && k % 2 == k - 2 * (boxes - 1);
      earlier + SideWingPair(d, 0.0, WingPairY(d, t, boxes - 1), t)
  }

  // ---------------------------------------------------------- cover pair

  /** Left edge of the tap holes of inner divider `i` of a cover. */
  function CoverTapX(sx: real, columnWidth: real, i: nat): real
  {
    sx + columnWidth + i as real * columnWidth
  }

  /** Offset of the back tap hole from the front one: `depth - 30 - 2 * 30`. */
  function BackTapOffset(depth: nat): nat
    requires CoverTapHolesFit(depth)
  {
    Sub(Sub(depth, SideTapFromFront), SideTapWidth * 2)
  }

  /** The `k`-th tap hole of a cover: divider `k / 2`, the back one when `k` is odd. */
  function CoverTapHolePart(d: Dimensions, sx: real, sy: real, columnWidth: real, t: real, k: nat): Part
    requires CoverTapHolesFit(d.depth)
  {
    var x := CoverTapX(sx, columnWidth, k / 2);
    var y := sy + SideTapFromFront as real;
    if k % 2 == 0 then TapHole(x, y, t) else TapHole(x, y + BackTapOffset(d.depth) as real, t)
  }

  /** The tap-hole loop of `generate_cover_path` over the first `n` inner dividers. */
  function SideTapHoles(d: Dimensions, sx: real, sy: real, columnWidth: real, t: real, n: nat): (ps: seq<Part>)
    requires n == 0 || CoverTapHolesFit(d.depth)
    ensures |ps| == 2 * n
    ensures forall k :: 0 <= k < |ps| ==> ps[k] == CoverTapHolePart(d, sx, sy, columnWidth, t, k)
  {
    if n == 0 then []
    else
      var earlier := SideTapHoles(d, sx, sy, columnWidth, t, n - 1);
      var x := CoverTapX(sx, columnWidth, n - 1);
      var y := sy + SideTapFromFront as real;
      assert forall k :: 2 * (n - 1) <= k < 2 * n ==> k / 2 == n - 1 && (k % 2 == 0 <==> k == 2 * (n - 1));
      earlier + [TapHole(x, y, t), TapHole(x, y + BackTapOffset(d.depth) as real, t)]
  }

  /** What `generate_svg` and its callees demand so that no `usize`
      subtraction underflows: at least one column (the tap loop runs to
      `columns - 1`); room for the tap notches; room for the wing teeth and
      wing holes once there is a row; room for the back tap hole once there
      is an inner divider. */
  predicate Supported(rows: nat, columns: nat, depth: nat)
  {
    && 1 <= columns
    && CoverOutlineFits(depth)
    && (1 <= rows ==> WingsFit(depth))
    && (2 <= columns ==> CoverTapHolesFit(depth))
  }

  /** `generate_cover_path`: the outline, then the two tap holes of every inner divider. */
  function CoverPath(d: Dimensions, sx: real, sy: real, columns: nat, columnWidth: real, t: real): (ps: seq<Part>)
    requires 1 <= columns && (2 <= columns ==> CoverTapHolesFit(d.depth))
    ensures |ps| == 2 * columns - 1
  {
    [Cover(d, sx, sy, columns, columnWidth, t)] + SideTapHoles(d, sx, sy, columnWidth, t, columns - 1)
  }

  /** Top of the second (bottom) cover. */
  function BottomCoverY(d: Dimensions): real
  {
    (d.depth + ClearanceBetweenPaths) as real
  }

  /** `generate_top_and_bottom_pieces`: the top cover at height 0, the bottom one below it. */
  function TopAndBottomPieces(d: Dimensions, sx: real, columns: nat, columnWidth: real, t: real): (ps: seq<Part>)
    requires 1 <= columns && (2 <= columns ==> CoverTapHolesFit(d.depth))
    ensures |ps| == 2 * (2 * columns - 1)
  {
    CoverPath(d, sx, 0.0, columns, columnWidth, t) + CoverPath(d, sx, BottomCoverY(d), columns, columnWidth, t)
  }

  // --------------------------------------------------------- panel row

  /** Top of side panel `j`. */
  function SidePanelY(d: Dimensions, j: nat): real
  {
    (j * (d.depth + ClearanceBetweenPaths)) as real
  }

  /** Offset of wing-hole row `r` across the panel: `t + from_top + r * height`. */
  function WingHoleRowX(d: Dimensions, t: real, r: nat): real
  {
    t + (d.sideWingFromBoxTop + r * d.height) as real
  }

  /** Offset along the depth of slot `s` (0 to 3) of a side panel, each
      spelled out as `generate_side_panels` writes it. */
  function WingHoleSlotY(depth: nat, s: nat): nat
    requires WingsFit(depth) && s < 4
  {
    if s == 0 then SideWingSlotFromFront
    else if s == 1 then SideWingSlotFromFront + SideWingSlotWidth + SideWingSlotSpacing
    else if s == 2 then Sub(Sub(Sub(depth, SideWingSlotFromFront), 2 * SideWingSlotWidth), SideWingSlotSpacing)
    else Sub(Sub(depth, SideWingSlotFromFront), SideWingSlotWidth)
  }

  /** The `q`-th wing hole of a panel whose top is at `y`: row `q / 4`, slot `q % 4`. */
  function WingHolePart(sx: real, y: real, d: Dimensions, t: real, q: nat): Part
    requires WingsFit(d.depth)
  {
    WingHole(sx + WingHoleRowX(d, t, q / 4), y + WingHoleSlotY(d.depth, q % 4) as real, t)
  }

  /** The row loop of `generate_side_panels` over the first `n` rows. */
  function WingHoleRows(sx: real, y: real, d: Dimensions, t: real, n: nat): (ps: seq<Part>)
    requires n == 0 || WingsFit(d.depth)
    ensures |ps| == 4 * n
    ensures forall q :: 0 <= q < |ps| ==> ps[q] == WingHolePart(sx, y, d, t, q)
  {
    if n == 0 then []
    else
      var earlier := WingHoleRows(sx, y, d, t, n - 1);
      var x := sx + WingHoleRowX(d, t, n - 1);
      assert forall q :: 4 * (n - 1) <= q < 4 * n ==> q / 4 == n - 1 && q % 4 == q - 4 * (n - 1);
      earlier + [ WingHole(x, y + WingHoleSlotY(d.depth, 0) as real, t),
                  WingHole(x, y + WingHoleSlotY(d.depth, 1) as real, t),
                  WingHole(x, y + WingHoleSlotY(d.depth, 2) as real, t),
                  WingHole(x, y + WingHoleSlotY(d.depth, 3) as real, t) ]
  }

  /** Side panel `j`: its outline, then its `4 * rows` wing holes. */
  function SidePanel(sx: real, d: Dimensions, rows: nat, t: real, j: nat): (ps: seq<Part>)
    requires rows == 0 || WingsFit(d.depth)
    ensures |ps| == 1 + 4 * rows
  {
    [PanelOutline(sx, SidePanelY(d, j), d, rows, t)] + WingHoleRows(sx, SidePanelY(d, j), d, t, rows)
  }

  /** `generate_side_panels`: panels `0 .. n`, each outline followed by its holes. */
  function SidePanels(sx: real, d: Dimensions, rows: nat, t: real, n: nat): (ps: seq<Part>)
    requires rows == 0 || WingsFit(d.depth)
    ensures |ps| == n * (1 + 4 * rows)
  {
    FlattenLength(PanelBlocks(sx, d, rows, t, n), 1 + 4 * rows);
    Flatten(PanelBlocks(sx, d, rows, t, n))
  }

  /** Panels `0 .. n`, one block of parts each. */
  function PanelBlocks(sx: real, d: Dimensions, rows: nat, t: real, n: nat): (blocks: seq<seq<Part>>)
    requires rows == 0 || WingsFit(d.depth)
    ensures |blocks| == n
    ensures forall j :: 0 <= j < n ==> blocks[j] == SidePanel(sx, d, rows, t, j)
  {
    seq(n, j requires 0 <= j < n => SidePanel(sx, d, rows, t, j))
  }

  // ---------------------------------------------------------- document

  /** The `Path` elements `generate_svg` appends, in order: the wing stack
      at the origin, the covers at `depth + 3` (built with `column_width + t`),
      and the side panels right of the covers (placed with
      `top_width(column_width, ...)`). */
  function EmittedParts(rows: nat, columns: nat, t: real, c: Container): (ps: seq<Part>)
    requires Supported(rows, columns, c.dimensions.depth)
    ensures |ps| == 2 * (rows * columns) + 2 * (2 * columns - 1) + (columns + 1) * (1 + 4 * rows)
  {
    var d := c.dimensions;
    var columnWidth := ColumnWidth(d);
    var amountOfBoxes := rows * columns;
    SideWings(d, t, amountOfBoxes)
      + TopAndBottomPieces(d, CoverRegionX(d), columns, columnWidth as real + t, t)
      + SidePanels(SidePanelRegionX(columns, t, d), d, rows, t, columns + 1)
  }

  /** The emitted parts are the wing stack, then the covers, then the panels. */
  lemma EmittedSections(rows: nat, columns: nat, t: real, c: Container)
    requires Supported(rows, columns, c.dimensions.depth)
    ensures EmittedParts(rows, columns, t, c)
      == SideWings(c.dimensions, t, rows * columns)
        + TopAndBottomPieces(c.dimensions, CoverRegionX(c.dimensions), columns, ColumnWidth(c.dimensions) as real + t, t)
        + SidePanels(SidePanelRegionX(columns, t, c.dimensions), c.dimensions, rows, t, columns + 1)
  {
  }

  /** Every emitted part has data: no subtraction of `generate_svg` underflows. */
  lemma EmittedPartsDrawable(rows: nat, columns: nat, t: real, c: Container)
    requires Supported(rows, columns, c.dimensions.depth)
    ensures forall p :: p in EmittedParts(rows, columns, t, c) ==> Drawable(p)
  {
    var d := c.dimensions;
    var wings := SideWings(d, t, rows * columns);
    var covers := TopAndBottomPieces(d, CoverRegionX(d), columns, ColumnWidth(d) as real + t, t);
    var panels := SidePanels(SidePanelRegionX(columns, t, d), d, rows, t, columns + 1);
    WingsDrawable(d, t, rows * columns);
    CoversDrawable(d, CoverRegionX(d), columns, ColumnWidth(d) as real + t, t);
    PanelsDrawable(SidePanelRegionX(columns, t, d), d, rows, t, columns + 1);
  }

  lemma WingsDrawable(d: Dimensions, t: real, boxes: nat)
    requires boxes == 0 || WingsFit(d.depth)
    ensures forall p :: p in SideWings(d, t, boxes) ==> Drawable(p)
  {
  }

  lemma CoversDrawable(d: Dimensions, sx: real, columns: nat, columnWidth: real, t: real)
    requires 1 <= columns && CoverOutlineFits(d.depth) && (2 <= columns ==> CoverTapHolesFit(d.depth))
    ensures forall p :: p in TopAndBottomPieces(d, sx, columns, columnWidth, t) ==> Drawable(p)
  {
  }

  lemma PanelsDrawable(sx: real, d: Dimensions, rows: nat, t: real, n: nat)
    requires CoverOutlineFits(d.depth) && (rows == 0 || WingsFit(d.depth))
    ensures forall p :: p in SidePanels(sx, d, rows, t, n) ==> Drawable(p)
  {
    var panels := PanelBlocks(sx, d, rows, t, n);
    forall p | p in SidePanels(sx, d, rows, t, n)
      ensures Drawable(p)
    {
      FlattenFrom(panels, p);
    }
  }

  /** `generate_svg`: canvas size and the data of every emitted path. */
  function GenerateSvg(rows: nat, columns: nat, t: real, c: Container): (doc: Document)
    requires Supported(rows, columns, c.dimensions.depth)
    ensures doc.width == TotalWidth(rows, columns, t, c.dimensions)
    ensures doc.height == TotalHeight(rows, columns, t, c.dimensions)
    ensures forall k :: 0 <= k < |EmittedParts(rows, columns, t, c)| ==> Drawable(EmittedParts(rows, columns, t, c)[k])
    ensures |doc.paths| == |EmittedParts(rows, columns, t, c)|
    ensures forall k :: 0 <= k < |doc.paths| ==> doc.paths[k] == PathData(EmittedParts(rows, columns, t, c)[k])
  {
    var parts := EmittedParts(rows, columns, t, c);
    EmittedPartsDrawable(rows, columns, t, c);
    Document(
      TotalWidth(rows, columns, t, c.dimensions),
      TotalHeight(rows, columns, t, c.dimensions),
      seq(|parts|, k requires 0 <= k < |parts| => PathData(parts[k])))
  }
}
