/** Where the parts land on the sheet: the rectangle each path occupies, the
    order `generate_svg` emits them in, how the wing pairs stack, and how the
    three regions relate to the canvas and to each other. */
module RackLayout {
  import opened Paths
  import opened Rack
  import opened Blocks

  // ---------------------------------------------------------------- areas

  /** A wing drawn at the origin spans the whole depth, from its top edge
      down to the tips of its teeth. */
  lemma WingArea(sy: real, t: real, depth: nat, w: nat)
    requires WingsFit(depth) && 0.0 <= t
    ensures SideWingPath(0.0, sy, t, depth, w).Area() == Box(0.0, sy, depth as real, sy + w as real + t)
  {
    var e := Box(0.0, sy, depth as real, sy + w as real + t);
    TrailUnfold();
    BoundsExact(SideWingPath(0.0, sy, t, depth, w).Strokes(), e,
      Point(0.0, sy), Point(0.0, sy), Point(e.right, sy), Point(20.0, e.bottom));
  }

  /** An inverted wing drawn at the origin spans the whole depth, from the
      tips of its teeth down to its bottom edge. */
  lemma InvertedWingArea(sy: real, t: real, depth: nat, w: nat)
    requires WingsFit(depth) && 0.0 <= t
    ensures SideWingInvertedPath(0.0, sy, t, depth, w).Area() == Box(0.0, sy, depth as real, sy + t + w as real)
  {
    var e := Box(0.0, sy, depth as real, sy + t + w as real);
    TrailUnfold();
    BoundsExact(SideWingInvertedPath(0.0, sy, t, depth, w).Strokes(), e,
      Point(0.0, sy + t), Point(55.0, sy), Point(e.right, e.bottom), Point(e.right, e.bottom));
  }

  /** A cover outline is `top_width` across and `depth` long; its notches cut inwards. */
  lemma NotchedOutlineArea(d: Dimensions, sx: real, sy: real, topWidth: real, t: real)
    requires CoverOutlineFits(d.depth) && 0.0 <= t && 2.0 * t <= topWidth
    ensures NotchedOutline(d, sx, sy, topWidth, t).Area() == Box(sx, sy, sx + topWidth, sy + d.depth as real)
  {
    var e := Box(sx, sy, sx + topWidth, sy + d.depth as real);
    TrailUnfold();
    BoundsExact(NotchedOutline(d, sx, sy, topWidth, t).Strokes(), e,
      Point(sx, sy), Point(sx, sy), Point(e.right, sy), Point(sx, e.bottom));
  }

  /** A cover is `top_width` across and `depth` long. */
  lemma CoverArea(d: Dimensions, sx: real, sy: real, columns: nat, columnWidth: real, t: real)
    requires CoverOutlineFits(d.depth) && 0.0 <= t && 0.0 <= columnWidth
    ensures TopPath(d, sx, sy, columns, columnWidth, t).Area()
      == Box(sx, sy, sx + TopWidth(columnWidth, columns, t), sy + d.depth as real)
  {
    assert 0.0 <= columnWidth * columns as real;
    NotchedOutlineArea(d, sx, sy, TopWidth(columnWidth, columns, t), t);
  }

  /** A tabbed outline is `panelInnerHeight + 2t` across, tabs included, and `depth` long. */
  lemma TabbedOutlineArea(sx: real, sy: real, d: Dimensions, panelInnerHeight: real, t: real)
    requires CoverOutlineFits(d.depth) && 0.0 <= t && 0.0 <= panelInnerHeight
    ensures TabbedOutline(sx, sy, d, panelInnerHeight, t).Area()
      == Box(sx, sy, sx + panelInnerHeight + 2.0 * t, sy + d.depth as real)
  {
    var e := Box(sx, sy, sx + panelInnerHeight + 2.0 * t, sy + d.depth as real);
    TrailUnfold();
    BoundsExact(TabbedOutline(sx, sy, d, panelInnerHeight, t).Strokes(), e,
      Point(sx, sy + 30.0), Point(sx + t, sy), Point(e.right, sy + 30.0), Point(sx + t, e.bottom));
  }

  /** A side panel is `rows * height + 2t` across, tabs included, and `depth` long. */
  lemma PanelArea(sx: real, sy: real, d: Dimensions, rows: nat, t: real)
    requires CoverOutlineFits(d.depth) && 0.0 <= t
    ensures SidePanelOutlinePath(sx, sy, d, rows, t).Area()
      == Box(sx, sy, sx + (d.height * rows) as real + 2.0 * t, sy + d.depth as real)
  {
    TabbedOutlineArea(sx, sy, d, (d.height * rows) as real, t);
  }

  /** A tap hole occupies `t` by `SIDE_TAP_WIDTH` from its corner. */
  lemma TapHoleArea(x: real, y: real, t: real)
    requires 0.0 <= t
    ensures SideTapPath(x, y, t).Area() == Box(x, y, x + t, y + SideTapWidth as real)
  {
    var e := Box(x, y, x + t, y + SideTapWidth as real);
    TrailUnfold();
    BoundsExact(SideTapPath(x, y, t).Strokes(), e, Point(x, y), Point(x, y), Point(x + t, y), Point(x, e.bottom));
  }

  /** A wing hole occupies `t` by `SIDE_WING_SLOT_WIDTH` from its corner. */
  lemma WingHoleArea(x: real, y: real, t: real)
    requires 0.0 <= t
    ensures SidePanelWingHoles(x, y, t).Area() == Box(x, y, x + t, y + SideWingSlotWidth as real)
  {
    var e := Box(x, y, x + t, y + SideWingSlotWidth as real);
    TrailUnfold();
    BoundsExact(SidePanelWingHoles(x, y, t).Strokes(), e, Point(x, y), Point(x, y), Point(x + t, y), Point(x, e.bottom));
  }

  // --------------------------------------------------------- wing stack

  /** The wing stack alternates: even paths are plain wings at the top of
      their pair, odd paths inverted wings `side_wing_width + 3` below. */
  lemma WingStackAlternates(d: Dimensions, t: real, k: nat)
    ensures WingStackPart(d, t, k).Wing? <==> k % 2 == 0
    ensures WingStackPart(d, t, k).InvertedWing? <==> k % 2 == 1
    ensures WingStackPart(d, t, k).sx == 0.0
    ensures WingStackPart(d, t, k).sy
      == WingPairY(d, t, k / 2) + (if k % 2 == 0 then 0.0 else (d.sideWingWidth + ClearanceBetweenPaths) as real)
  {
  }

  /** Pair `i` spans exactly `height_of_two_side_wings` from its top: the
      wing from the top down to its teeth, the inverted wing from
      `side_wing_width + 3` below the top to the bottom of the pair. */
  lemma WingPairSpan(d: Dimensions, t: real, i: nat)
    requires WingsFit(d.depth) && 0.0 <= t
    ensures PathData(WingStackPart(d, t, 2 * i)).Area()
      == Box(0.0, WingPairY(d, t, i), d.depth as real, WingPairY(d, t, i) + d.sideWingWidth as real + t)
    ensures PathData(WingStackPart(d, t, 2 * i + 1)).Area()
      == Box(0.0, WingPairY(d, t, i) + (d.sideWingWidth + ClearanceBetweenPaths) as real,
             d.depth as real, WingPairY(d, t, i) + HeightOfTwoSideWings(d.sideWingWidth, t))
  {
    var y := WingPairY(d, t, i);
    assert WingStackPart(d, t, 2 * i) == Wing(0.0, y, t, d.depth, d.sideWingWidth);
    assert WingStackPart(d, t, 2 * i + 1)
      == InvertedWing(0.0, y + (d.sideWingWidth + ClearanceBetweenPaths) as real, t, d.depth, d.sideWingWidth);
    WingArea(y, t, d.depth, d.sideWingWidth);
    InvertedWingArea(y + (d.sideWingWidth + ClearanceBetweenPaths) as real, t, d.depth, d.sideWingWidth);
  }

  /** Consecutive pairs are `CLEARANCE_BETWEEN_PATHS` apart: pair `i + 1`
      starts 3 below the bottom of pair `i`. */
  lemma WingPairsClear(d: Dimensions, t: real, i: nat)
    ensures WingPairY(d, t, i + 1) == WingPairY(d, t, i) + HeightOfTwoSideWings(d.sideWingWidth, t) + ClearanceBetweenPaths as real
  {
  }

  /** The pairs never overlap: every pair ends above the top of every later pair. */
  lemma {:induction false} WingPairsApart(d: Dimensions, t: real, i: nat, j: nat)
    requires 0.0 <= t && i < j
    ensures WingPairY(d, t, i) + HeightOfTwoSideWings(d.sideWingWidth, t) < WingPairY(d, t, j)
    decreases j - i
  {
    WingPairsClear(d, t, i);
    if i + 1 < j {
      WingPairsApart(d, t, i + 1, j);
    }
  }

  // ------------------------------------------------------ emission order

  /** The first `2 * rows * columns` paths are the wing stack, in order. */
  lemma WingsComeFirst(rows: nat, columns: nat, t: real, c: Container, k: nat)
    requires Supported(rows, columns, c.dimensions.depth) && k < 2 * (rows * columns)
    ensures EmittedParts(rows, columns, t, c)[k] == WingStackPart(c.dimensions, t, k)
  {
  }

  /** A cover path is its outline followed by the tap holes of its dividers. */
  lemma CoverPathAt(d: Dimensions, sx: real, sy: real, columns: nat, columnWidth: real, t: real, k: nat)
    requires 1 <= columns && (2 <= columns ==> CoverTapHolesFit(d.depth)) && k < 2 * columns - 1
    ensures CoverPath(d, sx, sy, columns, columnWidth, t)[k]
      == if k == 0 then Cover(d, sx, sy, columns, columnWidth, t)
         else CoverTapHolePart(d, sx, sy, columnWidth, t, k - 1)
  {
    var holes := SideTapHoles(d, sx, sy, columnWidth, t, columns - 1);
    assert CoverPath(d, sx, sy, columns, columnWidth, t) == [Cover(d, sx, sy, columns, columnWidth, t)] + holes;
  }

  /** Then the two covers: after the wing stack come the cover pieces in
      the order `TopAndBottomPieces` lists them. */
  lemma CoversComeNext(rows: nat, columns: nat, t: real, c: Container, i: nat)
    requires Supported(rows, columns, c.dimensions.depth) && i < 2 * (2 * columns - 1)
    ensures EmittedParts(rows, columns, t, c)[2 * (rows * columns) + i]
      == TopAndBottomPieces(c.dimensions, CoverRegionX(c.dimensions), columns, ColumnWidth(c.dimensions) as real + t, t)[i]
  {
    var d := c.dimensions;
    EmittedSections(rows, columns, t, c);
    InMiddle(SideWings(d, t, rows * columns), TopAndBottomPieces(d, CoverRegionX(d), columns, ColumnWidth(d) as real + t, t),
      SidePanels(SidePanelRegionX(columns, t, d), d, rows, t, columns + 1), i);
  }

  /** The top cover comes first, then the bottom one, each as its outline
      followed by the `2 * (columns - 1)` tap holes of its inner dividers. */
  lemma TopAndBottomAt(d: Dimensions, sx: real, columns: nat, columnWidth: real, t: real, m: nat, k: nat)
    requires 1 <= columns && (2 <= columns ==> CoverTapHolesFit(d.depth)) && m < 2 && k < 2 * columns - 1
    ensures
      var sy := if m == 0 then 0.0 else BottomCoverY(d);
      TopAndBottomPieces(d, sx, columns, columnWidth, t)[m * (2 * columns - 1) + k]
        == if k == 0 then Cover(d, sx, sy, columns, columnWidth, t)
           else CoverTapHolePart(d, sx, sy, columnWidth, t, k - 1)
  {
    var sy := if m == 0 then 0.0 else BottomCoverY(d);
    var top := CoverPath(d, sx, 0.0, columns, columnWidth, t);
    var bottom := CoverPath(d, sx, BottomCoverY(d), columns, columnWidth, t);
    assert m * (2 * columns - 1) + k == if m == 0 then k else |top| + k;
    CoverPathAt(d, sx, sy, columns, columnWidth, t, k);
  }

  /** Position `|a| + i` of `a + b + c` is position `i` of `b`. */
  lemma InMiddle<T>(a: seq<T>, b: seq<T>, c: seq<T>, i: nat)
    requires i < |b|
    ensures (a + b + c)[|a| + i] == b[i]
  {
  }

  /** Position `|a| + |b| + i` of `a + b + c` is position `i` of `c`. */
  lemma AtEnd<T>(a: seq<T>, b: seq<T>, c: seq<T>, i: nat)
    requires i < |c|
    ensures (a + b + c)[|a| + |b| + i] == c[i]
  {
  }

  /** Part 0 of side panel `j` is its outline; part `q >= 1` is wing hole `q - 1`. */
  lemma SidePanelAt(sx: real, d: Dimensions, rows: nat, t: real, j: nat, q: nat)
    requires (rows == 0 || WingsFit(d.depth)) && q < 1 + 4 * rows
    ensures SidePanel(sx, d, rows, t, j)[q]
      == if q == 0 then PanelOutline(sx, SidePanelY(d, j), d, rows, t)
         else WingHolePart(sx, SidePanelY(d, j), d, t, q - 1)
  {
    var y := SidePanelY(d, j);
    var holes := WingHoleRows(sx, y, d, t, rows);
    assert SidePanel(sx, d, rows, t, j) == [PanelOutline(sx, y, d, rows, t)] + holes;
    if 0 < q {
      assert SidePanel(sx, d, rows, t, j)[q] == holes[q - 1];
    }
  }

  /** The side-panel loop emits panel `j`'s parts, in order, from position `j * (1 + 4 * rows)`. */
  lemma SidePanelsAt(sx: real, d: Dimensions, rows: nat, t: real, n: nat, j: nat, q: nat)
    requires (rows == 0 || WingsFit(d.depth)) && j < n && q < 1 + 4 * rows
    ensures BlockStart(j, 1 + 4 * rows) + q < |SidePanels(sx, d, rows, t, n)|
    ensures SidePanels(sx, d, rows, t, n)[BlockStart(j, 1 + 4 * rows) + q] == SidePanel(sx, d, rows, t, j)[q]
  {
    var blocks := PanelBlocks(sx, d, rows, t, n);
    BlockAt(blocks, 1 + 4 * rows, j, q);
  }

  /** Last the side panels, in the order `SidePanels` lists them. */
  lemma PanelsComeLast(rows: nat, columns: nat, t: real, c: Container, i: nat)
    requires Supported(rows, columns, c.dimensions.depth) && i < (columns + 1) * (1 + 4 * rows)
    ensures EmittedParts(rows, columns, t, c)[2 * (rows * columns) + 2 * (2 * columns - 1) + i]
      == SidePanels(SidePanelRegionX(columns, t, c.dimensions), c.dimensions, rows, t, columns + 1)[i]
  {
    var d := c.dimensions;
    AtEnd(SideWings(d, t, rows * columns), TopAndBottomPieces(d, CoverRegionX(d), columns, ColumnWidth(d) as real + t, t),
      SidePanels(SidePanelRegionX(columns, t, d), d, rows, t, columns + 1), i);
  }

  // --------------------------------------------------------------- canvas

  /** The canvas is wide enough for every region and grows with the rack:
      it is positive and does not shrink when rows, columns or the
      thickness grow. */
  lemma TotalWidthMonotone(rows: nat, columns: nat, t: real, rows': nat, columns': nat, t': real, d: Dimensions)
    requires 0.0 <= t <= t' && rows <= rows' && columns <= columns'
    ensures 0.0 < TotalWidth(rows, columns, t, d)
    ensures TotalWidth(rows, columns, t, d) <= TotalWidth(rows', columns', t', d)
  {
    var cw := ColumnWidth(d) as real;
    assert cw * columns as real <= cw * columns' as real by {
      assert cw * columns' as real == cw * columns as real + cw * (columns' - columns) as real;
    }
    assert d.height * rows <= d.height * rows' by {
      assert d.height * rows' == d.height * rows + d.height * (rows' - rows);
    }
  }

  /** The side panels end 3 short of the canvas's right edge. */
  lemma PanelsEndInsideCanvas(rows: nat, columns: nat, t: real, c: Container, j: nat)
    requires Supported(rows, columns, c.dimensions.depth) && 0.0 <= t
    ensures
      var d := c.dimensions;
      var a := SidePanelOutlinePath(SidePanelRegionX(columns, t, d), SidePanelY(d, j), d, rows, t).Area();
      a.Box? && a.right == TotalWidth(rows, columns, t, d) - ClearanceBetweenPaths as real
  {
    var d := c.dimensions;
    PanelArea(SidePanelRegionX(columns, t, d), SidePanelY(d, j), d, rows, t);
  }

  /** Every wing ends at or above the bottom of the canvas: the last pair
      ends 3 short of the wing region. */
  lemma WingsEndInsideCanvas(rows: nat, columns: nat, t: real, c: Container, k: nat)
    requires Supported(rows, columns, c.dimensions.depth) && 0.0 <= t && k < 2 * (rows * columns)
    ensures PathData(WingStackPart(c.dimensions, t, k)).Area().Box?
    ensures PathData(WingStackPart(c.dimensions, t, k)).Area().bottom
      <= WingStackExtent(rows, columns, t, c.dimensions) - ClearanceBetweenPaths as real
    ensures PathData(WingStackPart(c.dimensions, t, k)).Area().bottom <= TotalHeight(rows, columns, t, c.dimensions)
  {
    WingBottomWithin(c.dimensions, t, k, rows, columns);
  }

  /** Path `k` of the stack of `rows * columns` pairs ends 3 short of the stack's extent. */
  lemma WingBottomWithin(d: Dimensions, t: real, k: nat, rows: nat, columns: nat)
    requires WingsFit(d.depth) && 0.0 <= t && k < 2 * (rows * columns)
    ensures PathData(WingStackPart(d, t, k)).Area().Box?
    ensures PathData(WingStackPart(d, t, k)).Area().bottom <= WingStackExtent(rows, columns, t, d) - ClearanceBetweenPaths as real
  {
    WingPartBottom(d, t, k);
    WingPairEnds(d, t, k / 2, rows * columns);
  }

  /** Each path of the wing stack ends no lower than the bottom of its pair. */
  lemma WingPartBottom(d: Dimensions, t: real, k: nat)
    requires WingsFit(d.depth) && 0.0 <= t
    ensures PathData(WingStackPart(d, t, k)).Area().Box?
    ensures PathData(WingStackPart(d, t, k)).Area().bottom <= WingPairY(d, t, k / 2) + HeightOfTwoSideWings(d.sideWingWidth, t)
  {
    var p := WingStackPart(d, t, k);
    WingStackAlternates(d, t, k);
    if k % 2 == 0 {
      WingArea(p.sy, t, d.depth, d.sideWingWidth);
    } else {
      InvertedWingArea(p.sy, t, d.depth, d.sideWingWidth);
    }
  }

  /** Pair `i` of `n` ends 3 short of `n` strides. */
  lemma WingPairEnds(d: Dimensions, t: real, i: nat, n: nat)
    requires 0.0 <= t && i < n
    ensures WingPairY(d, t, i) + HeightOfTwoSideWings(d.sideWingWidth, t)
      <= n as real * WingPairStride(d, t) - ClearanceBetweenPaths as real
  {
    var stride := WingPairStride(d, t);
    assert WingPairY(d, t, i) + HeightOfTwoSideWings(d.sideWingWidth, t) == (i + 1) as real * stride - 3.0;
    ScaleMonotone(stride, i + 1, n);
  }

  /** Scaling a non-negative length by more copies does not make it shorter. */
  lemma ScaleMonotone(a: real, m: nat, n: nat)
    requires 0.0 <= a && m <= n
    ensures m as real * a <= n as real * a
  {
    assert n as real * a == m as real * a + (n - m) as real * a;
  }

  /** The bottom cover ends exactly at the bottom of the cover region. */
  lemma CoversEndInsideCanvas(rows: nat, columns: nat, t: real, c: Container)
    requires Supported(rows, columns, c.dimensions.depth) && 0.0 <= t
    ensures
      var d := c.dimensions;
      var a := TopPath(d, CoverRegionX(d), BottomCoverY(d), columns, ColumnWidth(d) as real + t, t).Area();
      a.Box? && a.bottom == CoverPairExtent(d) && a.bottom <= TotalHeight(rows, columns, t, d)
  {
    var d := c.dimensions;
    CoverArea(d, CoverRegionX(d), BottomCoverY(d), columns, ColumnWidth(d) as real + t, t);
  }

  /** Every side panel ends at or above the bottom of the canvas; the last
      one 3 short of the panel region. */
  lemma PanelsEndAboveCanvasBottom(rows: nat, columns: nat, t: real, c: Container, j: nat)
    requires Supported(rows, columns, c.dimensions.depth) && 0.0 <= t && j <= columns
    ensures
      var d := c.dimensions;
      var a := SidePanelOutlinePath(SidePanelRegionX(columns, t, d), SidePanelY(d, j), d, rows, t).Area();
      && a.Box?
      && a.bottom <= TotalHeight(rows, columns, t, d)
      && (j == columns ==> a.bottom == SidePanelRowExtent(columns, d) - ClearanceBetweenPaths as real)
  {
    var d := c.dimensions;
    var step := d.depth + ClearanceBetweenPaths;
    PanelArea(SidePanelRegionX(columns, t, d), SidePanelY(d, j), d, rows, t);
    StepsMonotone(step, j + 1, columns + 1);
    assert j * step + step == (j + 1) * step;
  }
  // ------------------------------------------------------ the document

  /** Every wing path of the generated document ends inside its canvas. */
  lemma DocumentWingsInside(rows: nat, columns: nat, t: real, c: Container, k: nat)
    requires Supported(rows, columns, c.dimensions.depth) && 0.0 <= t && k < 2 * (rows * columns)
    ensures
      var doc := GenerateSvg(rows, columns, t, c);
      k < |doc.paths| && doc.paths[k].Area().Box? && doc.paths[k].Area().bottom <= doc.height
  {
    WingsComeFirst(rows, columns, t, c, k);
    WingsEndInsideCanvas(rows, columns, t, c, k);
  }

  /** The outlines of both covers in the generated document end inside its canvas height. */
  lemma DocumentCoversInside(rows: nat, columns: nat, t: real, c: Container, m: nat)
    requires Supported(rows, columns, c.dimensions.depth) && 0.0 <= t && m < 2
    ensures
      var doc := GenerateSvg(rows, columns, t, c);
      var k := 2 * (rows * columns) + m * (2 * columns - 1);
      k < |doc.paths| && doc.paths[k].Area().Box? && doc.paths[k].Area().bottom <= doc.height
  {
    var k := 2 * (rows * columns) + m * (2 * columns - 1);
    CoverOutlineEmitted(rows, columns, t, c, m);
    var doc := GenerateSvg(rows, columns, t, c);
    CoverOutlineBottom(rows, columns, t, c, m);
  }

  /** The outline of every side panel in the generated document ends inside
      its canvas height and exactly 3 short of its canvas width. */
  lemma DocumentPanelsInside(rows: nat, columns: nat, t: real, c: Container, j: nat)
    requires Supported(rows, columns, c.dimensions.depth) && 0.0 <= t && j <= columns
    ensures
      var doc := GenerateSvg(rows, columns, t, c);
      var k := 2 * (rows * columns) + 2 * (2 * columns - 1) + BlockStart(j, 1 + 4 * rows);
      && k < |doc.paths| && doc.paths[k].Area().Box?
      && doc.paths[k].Area().right == doc.width - ClearanceBetweenPaths as real
      && doc.paths[k].Area().bottom <= doc.height
  {
    var k := 2 * (rows * columns) + 2 * (2 * columns - 1) + BlockStart(j, 1 + 4 * rows);
    PanelOutlineEmitted(rows, columns, t, c, j);
    var doc := GenerateSvg(rows, columns, t, c);
    PanelsEndInsideCanvas(rows, columns, t, c, j);
    PanelsEndAboveCanvasBottom(rows, columns, t, c, j);
  }

  /** Cover `m`'s outline is emitted right after the wings and, for the
      bottom cover, after the top cover's parts. */
  lemma CoverOutlineEmitted(rows: nat, columns: nat, t: real, c: Container, m: nat)
    requires Supported(rows, columns, c.dimensions.depth) && m < 2
    ensures
      var d := c.dimensions;
      var k := 2 * (rows * columns) + m * (2 * columns - 1);
      && k < |EmittedParts(rows, columns, t, c)|
      && EmittedParts(rows, columns, t, c)[k]
        == Cover(d, CoverRegionX(d), if m == 0 then 0.0 else BottomCoverY(d), columns, ColumnWidth(d) as real + t, t)
  {
    var d := c.dimensions;
    TopAndBottomAt(d, CoverRegionX(d), columns, ColumnWidth(d) as real + t, t, m, 0);
    CoversComeNext(rows, columns, t, c, m * (2 * columns - 1));
  }

  /** Both cover outlines end inside the canvas height. */
  lemma CoverOutlineBottom(rows: nat, columns: nat, t: real, c: Container, m: nat)
    requires Supported(rows, columns, c.dimensions.depth) && 0.0 <= t && m < 2
    ensures
      var d := c.dimensions;
      var a := PathData(Cover(d, CoverRegionX(d), if m == 0 then 0.0 else BottomCoverY(d), columns, ColumnWidth(d) as real + t, t)).Area();
      a.Box? && a.bottom <= TotalHeight(rows, columns, t, d)
  {
    var d := c.dimensions;
    CoverArea(d, CoverRegionX(d), 0.0, columns, ColumnWidth(d) as real + t, t);
    CoversEndInsideCanvas(rows, columns, t, c);
  }

  /** Panel `j`'s outline is emitted at the start of its block, after the wings and covers. */
  lemma PanelOutlineEmitted(rows: nat, columns: nat, t: real, c: Container, j: nat)
    requires Supported(rows, columns, c.dimensions.depth) && j <= columns
    ensures
      var d := c.dimensions;
      var k := 2 * (rows * columns) + 2 * (2 * columns - 1) + BlockStart(j, 1 + 4 * rows);
      && k < |EmittedParts(rows, columns, t, c)|
      && EmittedParts(rows, columns, t, c)[k] == PanelOutline(SidePanelRegionX(columns, t, d), SidePanelY(d, j), d, rows, t)
  {
    var d := c.dimensions;
    var sx := SidePanelRegionX(columns, t, d);
    SidePanelsAt(sx, d, rows, t, columns + 1, j, 0);
    SidePanelAt(sx, d, rows, t, j, 0);
    PanelsComeLast(rows, columns, t, c, BlockStart(j, 1 + 4 * rows));
  }



  /** More whole steps reach at least as far. */
  lemma StepsMonotone(step: nat, m: nat, n: nat)
    requires m <= n
    ensures m * step <= n * step
  {
    assert n * step == m * step + (n - m) * step;
  }

  // ------------------------------------------------------------ regions

  /** Closed rectangles that share a point. */
  predicate Meet(a: Extent, b: Extent)
  {
    a.Box? && b.Box? && a.left <= b.right && b.left <= a.right && a.top <= b.bottom && b.top <= a.bottom
  }

  /** The covers are cut `t * columns` wider than the room left for them:
      the first side panel starts `3 - t * columns` right of the top
      cover's right edge, a negative gap once `t * columns > 3`. */
  lemma CoverPanelGap(rows: nat, columns: nat, t: real, c: Container)
    requires Supported(rows, columns, c.dimensions.depth) && 0.0 <= t
    ensures
      var d := c.dimensions;
      var cover := TopPath(d, CoverRegionX(d), 0.0, columns, ColumnWidth(d) as real + t, t).Area();
      var panel := SidePanelOutlinePath(SidePanelRegionX(columns, t, d), SidePanelY(d, 0), d, rows, t).Area();
      && cover.Box? && panel.Box?
      && panel.left - cover.right == ClearanceBetweenPaths as real - t * columns as real
      && (Meet(cover, panel) <==> ClearanceBetweenPaths as real <= t * columns as real)
  {
    var d := c.dimensions;
    var cw := ColumnWidth(d) as real;
    var x := CoverRegionX(d);
    var panelWidth := (d.height * rows) as real + 2.0 * t;
    CoverArea(d, x, 0.0, columns, cw + t, t);
    PanelArea(SidePanelRegionX(columns, t, d), SidePanelY(d, 0), d, rows, t);
    BoxesGap(x, cw, columns, t, d.depth as real, panelWidth);
  }

  /** A cover built `column_width + t` per column, against a panel placed
      after the room for one built `column_width` per column and a clearance. */
  lemma BoxesGap(x: real, cw: real, columns: nat, t: real, depth: real, panelWidth: real)
    requires 0.0 <= cw && 0.0 <= t && 0.0 <= depth && 0.0 <= panelWidth
    ensures
      var cover := Box(x, 0.0, x + TopWidth(cw + t, columns, t), depth);
      var left := x + TopWidth(cw, columns, t) + ClearanceBetweenPaths as real;
      var panel := Box(left, 0.0, left + panelWidth, depth);
      && panel.left - cover.right == ClearanceBetweenPaths as real - t * columns as real
      && (Meet(cover, panel) <==> ClearanceBetweenPaths as real <= t * columns as real)
  {
    CoverWiderThanRoom(cw, columns, t);
    assert 0.0 <= cw * columns as real;
  }

  /** A cover built `column_width + t` per column is `t * columns` wider
      than one built `column_width` per column. */
  lemma CoverWiderThanRoom(cw: real, columns: nat, t: real)
    ensures TopWidth(cw + t, columns, t) == TopWidth(cw, columns, t) + t * columns as real
  {
    assert (cw + t) * columns as real == cw * columns as real + t * columns as real;
  }

  /** The tap holes of a cover lie strictly inside its outline: hole `k`
      sits `(k / 2 + 1) * column_width` from the cover's left edge, at
      most `(columns - 1) * column_width`, against a cover
      `2t + columns * column_width` wide. */
  lemma TapHolesInsideCover(d: Dimensions, sx: real, sy: real, columns: nat, columnWidth: real, t: real, k: nat)
    requires CoverTapHolesFit(d.depth) && 0.0 < columnWidth && 0.0 <= t && k < 2 * (columns - 1)
    ensures
      var hole := PathData(CoverTapHolePart(d, sx, sy, columnWidth, t, k)).Area();
      var cover := PathData(Cover(d, sx, sy, columns, columnWidth, t)).Area();
      && hole.Box? && cover.Box?
      && cover.left < hole.left && hole.right < cover.right
      && cover.top < hole.top && hole.bottom < cover.bottom
  {
    var h := CoverTapHolePart(d, sx, sy, columnWidth, t, k);
    TapHoleArea(h.x, h.y, t);
    CoverArea(d, sx, sy, columns, columnWidth, t);
    TapHoleOffsets(d, sx, sy, columns, columnWidth, t, k);
  }

  /** Where tap hole `k` sits relative to the cover's corner. */
  lemma TapHoleOffsets(d: Dimensions, sx: real, sy: real, columns: nat, columnWidth: real, t: real, k: nat)
    requires CoverTapHolesFit(d.depth) && 0.0 < columnWidth && 0.0 <= t && k < 2 * (columns - 1)
    ensures
      var h := CoverTapHolePart(d, sx, sy, columnWidth, t, k);
      && sx < h.x && h.x + t < sx + TopWidth(columnWidth, columns, t)
      && sy < h.y && h.y + SideTapWidth as real < sy + d.depth as real
  {
    var i := k / 2;
    ScaleMonotone(columnWidth, i + 2, columns);
    assert CoverTapX(sx, columnWidth, i) == sx + (i + 1) as real * columnWidth;
  }
}
