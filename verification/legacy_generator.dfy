/** The first, fixed-size wing generator of `src/generator/mod.rs`: one box
    shape baked into constants, every coordinate a `u8`.  Rust's `u8`
    arithmetic panics on overflow (debug builds), so every sum and product
    here is taken in the `u8` newtype, where Dafny checks that it stays below
    256; the preconditions below are exactly what keeps it there.

    The paths it draws are those of the rack generator for a box 210 deep
    with 8 mm wings, so the joint and layout facts proved there carry over. */
module LegacyGenerator {
  import opened Paths
  import Rack
  import RackJoints
  import RackLayout

  newtype u8 = x: int | 0 <= x < 256

  // All measurements are in millimetres.
  const BoxWidthUnderLid: u8 := 155
  const BoxWidthWithLid: u8 := 174
  const BoxDepth: u8 := 210
  const BoxBlockHeight: u8 := 55
  const SideWingFromBoxTop: u8 := 14
  const SideWingWidth: u8 := 8
  const SideWingSlotFromFront: u8 := 20
  const SideWingSlotWidth: u8 := 20
  const SideWingSlotSpacing: u8 := 15
  const ClearanceBetweenTwoWingsInPair: u8 := 3

  /** The legacy box as rack dimensions.  Only the depth and the wing width
      enter the wing paths. */
  const Shape: Rack.Dimensions := Rack.Dimensions(
    BoxWidthUnderLid as nat, BoxDepth as nat, BoxBlockHeight as nat, SideWingFromBoxTop as nat, SideWingWidth as nat)

  /** The drawing `generate_svg` returns: fixed "100mm" sides and the paths. */
  datatype Sheet = Sheet(width: string, height: string, paths: seq<Data>)

  // ------------------------------------------------------ tooth positions

  function ThirdSideWingTapPositionFromFront(): u8
  {
    BoxDepth - (SideWingSlotFromFront + SideWingSlotWidth + SideWingSlotSpacing + SideWingSlotWidth)
  }

  function SecondSideWingTapPositionFromFront(): u8
  {
    SideWingSlotFromFront + SideWingSlotWidth + SideWingSlotSpacing
  }

  function FourthSideWingTapPositionFromFront(): u8
  {
    BoxDepth - (SideWingSlotFromFront + SideWingSlotWidth)
  }

  /** The three helpers are the rack helpers at depth 210: teeth start at
      135, 55 and 170. */
  lemma PositionHelpersMatchRack()
    ensures ThirdSideWingTapPositionFromFront() as nat == Rack.ThirdSideWingTapPositionFromFront(BoxDepth as nat) == 135
    ensures SecondSideWingTapPositionFromFront() as nat == Rack.SecondSideWingTapPositionFromFront() == 55
    ensures FourthSideWingTapPositionFromFront() as nat == Rack.FourthSideWingTapPositionFromFront(BoxDepth as nat) == 170
  {
  }

  // -------------------------------------------------------------- widths

  /** `height_of_two_side_wings`: `8 * 2 + t + 3`, taken left to right. */
  function HeightOfTwoSideWings(t: u8): u8
    requires t as int + 19 < 256
  {
    SideWingWidth * 2 + t + ClearanceBetweenTwoWingsInPair
  }

  /** `top_width` never overflows `u8`: the sum `t + 174`, its product with
      the columns, and the final `+ t` all stay below 256. */
  predicate TopWidthFits(columns: u8, t: u8)
  {
    && t as int + BoxWidthWithLid as int < 256
    && (t as int + BoxWidthWithLid as int) * columns as int < 256
    && (t as int + BoxWidthWithLid as int) * columns as int + t as int < 256
  }

  /** `top_width`: `(t + 174) * columns + t`.  Nothing calls it. */
  function TopWidth(columns: u8, t: u8): u8
    requires TopWidthFits(columns, t)
  {
    (t + BoxWidthWithLid) * columns + t
  }

  /** `top_width` fits a `u8` only for no column (with `t <= 81`) or one
      column (with `t <= 40`): any two columns of 174 mm overflow. */
  lemma TopWidthOverflows(columns: u8, t: u8)
    ensures TopWidthFits(columns, t) <==> (columns == 0 && t <= 81) || (columns == 1 && t <= 40)
  {
    if 2 <= columns && t as int + BoxWidthWithLid as int < 256 {
      assert (t as int + BoxWidthWithLid as int) * columns as int >= (t as int + BoxWidthWithLid as int) * 2;
    }
  }

  // --------------------------------------------------------------- wings

  /** `generate_side_wing_path`, whose horizontal targets ignore `sx`. */
  function SideWingPath(sx: u8, sy: u8, t: u8): Data
    requires sy as int + SideWingWidth as int + t as int < 256
  {
    MoveTo(sx as real, sy as real)
      .VerticalLineTo((sy + SideWingWidth) as real)
      .HorizontalLineTo(SideWingSlotFromFront as real)
      .VerticalLineTo((sy + SideWingWidth + t) as real)
      .HorizontalLineTo((SideWingSlotFromFront + SideWingSlotWidth) as real)
      .VerticalLineTo((sy + SideWingWidth) as real)
      .HorizontalLineTo(ThirdSideWingTapPositionFromFront() as real)
      .VerticalLineTo((sy + SideWingWidth + t) as real)
      .HorizontalLineTo((ThirdSideWingTapPositionFromFront() + SideWingSlotWidth) as real)
      .VerticalLineTo((sy + SideWingWidth) as real)
      .HorizontalLineTo(BoxDepth as real)
      .VerticalLineTo(sy as real)
      .Close()
  }

  /** `generate_side_wing_inverted_path`. */
  function SideWingInvertedPath(sx: u8, sy: u8, t: u8): Data
    requires sy as int + t as int + SideWingWidth as int < 256
  {
    MoveTo(sx as real, (sy + t) as real)
      .HorizontalLineTo(SecondSideWingTapPositionFromFront() as real)
      .VerticalLineTo(sy as real)
      .HorizontalLineTo((SecondSideWingTapPositionFromFront() + SideWingSlotWidth) as real)
      .VerticalLineTo((sy + t) as real)
      .HorizontalLineTo(FourthSideWingTapPositionFromFront() as real)
      .VerticalLineTo(sy as real)
      .HorizontalLineTo((BoxDepth - SideWingSlotFromFront) as real)
      .VerticalLineTo((sy + t) as real)
      .HorizontalLineTo(BoxDepth as real)
      .VerticalLineTo((sy + t + SideWingWidth) as real)
      .HorizontalLineTo(sx as real)
      .Close()
  }

  /** The plain wing is the rack's wing for the legacy box. */
  lemma WingMatchesRack(sx: u8, sy: u8, t: u8)
    requires sy as int + SideWingWidth as int + t as int < 256
    ensures SideWingPath(sx, sy, t) == Rack.SideWingPath(sx as real, sy as real, t as real, Shape.depth, Shape.sideWingWidth)
  {
  }

  /** The inverted wing is the rack's inverted wing for the legacy box. */
  lemma InvertedWingMatchesRack(sx: u8, sy: u8, t: u8)
    requires sy as int + t as int + SideWingWidth as int < 256
    ensures SideWingInvertedPath(sx, sy, t)
      == Rack.SideWingInvertedPath(sx as real, sy as real, t as real, Shape.depth, Shape.sideWingWidth)
  {
  }

  /** `generate_side_wings`: the plain wing, then the inverted one
      `8 + 3` further down. */
  function GenerateSideWings(sx: u8, sy: u8, t: u8): (pair: seq<Data>)
    requires sy as int + 19 + t as int < 256
    ensures |pair| == 2
  {
    [ SideWingPath(sx, sy, t),
      SideWingInvertedPath(sx, sy + SideWingWidth + ClearanceBetweenTwoWingsInPair, t) ]
  }

  // ----------------------------------------------------------- the sheet

  /** Top of wing pair `i`: `(height_of_two_side_wings + 3) * i`. */
  function PairTop(t: u8, i: nat): int
  {
    (t as int + 22) * i
  }

  /** No `u8` computation of `generate_svg` overflows: the box count, the
      pair height, and (once there is a box) the stride and the bottom of
      the last pair's inverted wing, `(22 + t) * (n - 1) + 19 + t`. */
  predicate Fits(rows: u8, columns: u8, t: u8)
  {
    var n := rows as int * columns as int;
    && n < 256
    && t as int + 19 < 256
    && (1 <= n ==> t as int + 22 < 256 && PairTop(t, n - 1) + 19 + t as int < 256)
  }

  /** Every pair, not just the last, ends below 256. */
  predicate EveryPairFits(rows: u8, columns: u8, t: u8)
  {
    var n := rows as int * columns as int;
    && n < 256
    && t as int + 19 < 256
    && (1 <= n ==> t as int + 22 < 256)
    && forall i :: 0 <= i < n ==> PairTop(t, i) + 19 + t as int < 256
  }

  /** The precondition of `generate_svg` is exactly that every wing pair it
      draws stays inside `u8`: the last pair is the lowest. */
  lemma {:induction false} FitsExactly(rows: u8, columns: u8, t: u8)
    ensures Fits(rows, columns, t) <==> EveryPairFits(rows, columns, t)
  {
    var n := rows as int * columns as int;
    if Fits(rows, columns, t) && 1 <= n {
      forall i | 0 <= i < n
        ensures PairTop(t, i) + 19 + t as int < 256
      {
        StrideMonotone(t, i, n - 1);
      }
    }
  }

  /** Later pairs start lower. */
  lemma StrideMonotone(t: u8, i: nat, j: nat)
    requires i <= j
    ensures PairTop(t, i) <= PairTop(t, j)
  {
    assert (t as int + 22) * j == (t as int + 22) * i + (t as int + 22) * (j - i);
  }

  /** Path `k` of the legacy drawing: the rack's wing stack for the legacy box. */
  function StackPath(t: u8, k: nat): Data
  {
    Rack.PathData(Rack.WingStackPart(Shape, t as real, k))
  }

  /** Pair `i`, drawn at `y = (22 + t) * i`, is paths `2i` and `2i + 1` of the stack. */
  lemma PairMatchesStack(t: u8, i: nat, y: u8)
    requires y as int == PairTop(t, i) && y as int + 19 + t as int < 256
    ensures GenerateSideWings(0, y, t)[0] == StackPath(t, 2 * i)
    ensures GenerateSideWings(0, y, t)[1] == StackPath(t, 2 * i + 1)
  {
    var pairTop := Rack.WingPairY(Shape, t as real, i);
    assert pairTop == y as real;
    assert Rack.WingStackPart(Shape, t as real, 2 * i) == Rack.Wing(0.0, pairTop, t as real, 210, 8);
    assert Rack.WingStackPart(Shape, t as real, 2 * i + 1) == Rack.InvertedWing(0.0, pairTop + 11.0, t as real, 210, 8);
    WingMatchesRack(0, y, t);
    InvertedWingMatchesRack(0, y + 11, t);
  }

  /** `generate_svg`: one wing pair per box, box `i` at `(h + 3) * i`, on a
      sheet declared 100 mm square. */
  method GenerateSvg(rows: u8, columns: u8, t: u8) returns (doc: Sheet)
    requires Fits(rows, columns, t)
    ensures doc.width == "100mm" && doc.height == "100mm"
    ensures |doc.paths| == 2 * (rows as int * columns as int)
    ensures forall k :: 0 <= k < |doc.paths| ==> doc.paths[k] == StackPath(t, k)
  {
    var startingPointX: u8 := 0;
    var startingPointY: u8 := 0;
    var amountOfBoxes := rows * columns;
    var heightOfTwoSideWings := HeightOfTwoSideWings(t);
    var paths: seq<Data> := [];
    var i: u8 := 0;
    while i < amountOfBoxes
      invariant i <= amountOfBoxes
      invariant |paths| == 2 * i as int
      invariant forall k :: 0 <= k < |paths| ==> paths[k] == StackPath(t, k)
    {
      StrideMonotone(t, i as nat, amountOfBoxes as nat - 1);
      var y := startingPointY + (heightOfTwoSideWings + ClearanceBetweenTwoWingsInPair) * i;
      PairMatchesStack(t, i as nat, y);
      paths := paths + GenerateSideWings(startingPointX, y, t);
      i := i + 1;
    }
    doc := Sheet("100mm", "100mm", paths);
  }

  // ----------------------------------------------------------- the teeth

  /** The plain wing's teeth hang `t` below its body and fill [20, 40] and [135, 155]. */
  lemma LegacyWingTeeth(sy: u8, t: u8)
    requires sy as int + SideWingWidth as int + t as int < 256 && 0 < t
    ensures HorizontalRuns(SideWingPath(0, sy, t).Strokes(), (sy + SideWingWidth + t) as real)
      == [Interval(20.0, 40.0), Interval(135.0, 155.0)]
    ensures forall x :: x in {20.0, 40.0, 135.0, 155.0} ==>
      VerticalRuns(SideWingPath(0, sy, t).Strokes(), x) == [Interval((sy + SideWingWidth) as real, (sy + SideWingWidth + t) as real)]
  {
    WingMatchesRack(0, sy, t);
    RackJoints.WingTeeth(0.0, sy as real, t as real, 210, 8);
    RackJoints.WingToothDepth(sy as real, t as real, 210, 8);
    assert RackJoints.SlotInterval(210, 0) == Interval(20.0, 40.0);
    assert RackJoints.SlotInterval(210, 2) == Interval(135.0, 155.0);
  }

  /** The inverted wing's teeth stand `t` above its body and fill [55, 75] and [170, 190]. */
  lemma LegacyInvertedWingTeeth(sy: u8, t: u8)
    requires sy as int + t as int + SideWingWidth as int < 256 && 0 < t
    ensures HorizontalRuns(SideWingInvertedPath(0, sy, t).Strokes(), sy as real)
      == [Interval(55.0, 75.0), Interval(170.0, 190.0)]
    ensures forall x :: x in {55.0, 75.0, 170.0, 190.0} ==>
      VerticalRuns(SideWingInvertedPath(0, sy, t).Strokes(), x) == [Interval(sy as real, (sy + t) as real)]
  {
    InvertedWingMatchesRack(0, sy, t);
    RackJoints.InvertedWingTeeth(0.0, sy as real, t as real, 210, 8);
    RackJoints.InvertedWingToothDepth(sy as real, t as real, 210, 8);
    assert RackJoints.SlotInterval(210, 1) == Interval(55.0, 75.0);
    assert RackJoints.SlotInterval(210, 3) == Interval(170.0, 190.0);
  }

  // ------------------------------------------------------------ stacking

  /** Pair `i` occupies `[y, y + 19 + t]` for `y = (22 + t) * i`: the plain
      wing from `y` to its teeth at `y + 8 + t`, the inverted wing from
      `y + 11` down; the next pair starts 3 below. */
  lemma LegacyPairSpan(t: u8, i: nat)
    ensures
      var y := ((t as int + 22) * i) as real;
      && StackPath(t, 2 * i).Area() == Box(0.0, y, 210.0, y + 8.0 + t as real)
      && StackPath(t, 2 * i + 1).Area() == Box(0.0, y + 11.0, 210.0, y + 19.0 + t as real)
      && Rack.WingPairY(Shape, t as real, i + 1) == y + 19.0 + t as real + 3.0
  {
    RackLayout.WingPairSpan(Shape, t as real, i);
    LegacyPairTop(t, i);
    LegacyPairTop(t, i + 1);
  }

  /** The rack's pair top for the legacy box is the legacy `(22 + t) * i`. */
  lemma LegacyPairTop(t: u8, i: nat)
    ensures Rack.WingPairY(Shape, t as real, i) == PairTop(t, i) as real
  {
    assert Rack.WingPairStride(Shape, t as real) == (t as int + 22) as real;
  }
}
