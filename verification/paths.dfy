/** Path data as the drawing layer builds it: absolute move/line/close
    commands appended one at a time, together with what a renderer does
    when it draws them (the strokes it makes and the area it covers).
    Coordinates are millimetres, kept as exact reals. */
module Paths {

  /** One absolute path command: `M x y`, `H x`, `V y`, `Z`. */
  datatype Segment = M(x: real, y: real) | H(x: real) | V(y: real) | Z

  datatype Point = Point(x: real, y: real)

  /** What the pen has done so far, most recent last: jumps to a point
      without drawing, and straight strokes from one point to another. */
  datatype Trail =
    | Blank
    | Move(before: Trail, to: Point)
    | Line(before: Trail, from: Point, to: Point)

  /** The trail reaches `p`: it jumps there, or a stroke starts or ends there. */
  predicate Reaches(tr: Trail, p: Point)
  {
    match tr
    case Blank => false
    case Move(before, q) => q == p || Reaches(before, p)
    case Line(before, a, q) => a == p || q == p || Reaches(before, p)
  }

  /** A renderer's state: the current point, the first point of the current
      subpath (where `Z` returns to) and what it has drawn. */
  datatype Pen = Pen(at: Point, subpathStart: Point, trail: Trail)

  /** A stroke from the current point to `q`. */
  function LineTo(p: Pen, q: Point): Pen
  {
    Pen(q, p.subpathStart, Line(p.trail, p.at, q))
  }

  /** The effect of one command on the renderer. */
  function Step(p: Pen, s: Segment): Pen
  {
    match s
    case M(x, y) => Pen(Point(x, y), Point(x, y), Move(p.trail, Point(x, y)))
    case H(x) => LineTo(p, Point(x, p.at.y))
    case V(y) => LineTo(p, Point(p.at.x, y))
    case Z => LineTo(p, p.subpathStart)
  }

  /** Draws the commands `ss` front to back, the way a renderer reads them. */
  function Draw(p: Pen, ss: seq<Segment>): Pen
    decreases |ss|
  {
    if ss == [] then p else Draw(Step(p, ss[0]), ss[1..])
  }

  /** Drawing one more command after `ss` is one more step. */
  lemma {:induction false} DrawAppend(p: Pen, ss: seq<Segment>, s: Segment)
    ensures Draw(p, ss + [s]) == Step(Draw(p, ss), s)
    decreases |ss|
  {
    if ss == [] {
      assert [s][1..] == [];
    } else {
      assert (ss + [s])[1..] == ss[1..] + [s];
      DrawAppend(Step(p, ss[0]), ss[1..], s);
    }
  }

  /** A renderer that has drawn nothing yet. */
  const Fresh := Pen(Point(0.0, 0.0), Point(0.0, 0.0), Blank)

  /** The commands of a path in the order they were appended: a first one,
      then one more at a time. */
  datatype Commands = Start(first: Segment) | Then(earlier: Commands, last: Segment)
  {
    /** The first command, the one the path opens with. */
    function First(): Segment
    {
      match this
      case Start(s) => s
      case Then(earlier, _) => earlier.First()
    }

    /** The commands as the list a path's `d` attribute spells out. */
    function Segments(): (ss: seq<Segment>)
      ensures ss != [] && ss[0] == First()
    {
      match this
      case Start(s) => [s]
      case Then(earlier, s) => earlier.Segments() + [s]
    }
  }

  /** The renderer's state after drawing all of `cs` on a fresh canvas. */
  function Render(cs: Commands): Pen
  {
    match cs
    case Start(s) => Step(Fresh, s)
    case Then(earlier, s) => Step(Render(earlier), s)
  }

  /** Rendering commands as they were appended is reading them front to back. */
  lemma {:induction false} RenderReadsInOrder(cs: Commands)
    ensures Render(cs) == Draw(Fresh, cs.Segments())
  {
    match cs
    case Start(s) =>
      assert [s][1..] == [];
    case Then(earlier, s) =>
      RenderReadsInOrder(earlier);
      DrawAppend(Fresh, earlier.Segments(), s);
  }

  /** Path data under construction: the commands emitted so far and the
      renderer's state after them, kept in step by every builder call. */
  datatype Data = Data(commands: Commands, pen: Pen)
  {
    /** The pen really is what rendering the commands produces, and the
        path opens with a move-to, as every path of the drawing does. */
    ghost predicate Valid()
    {
      && commands.First().M?
      && pen == Render(commands)
    }

    /** The strokes the path is drawn with. */
    function Strokes(): Trail
    {
      pen.trail
    }

    /** The rectangle the path occupies. */
    function Area(): Extent
    {
      Bounds(pen.trail)
    }

    /** `horizontal_line_to(x)`. */
    function HorizontalLineTo(x: real): (d: Data)
      ensures Valid() ==> d.Valid()
      ensures d.commands == Then(commands, H(x))
    {
      Data(Then(commands, H(x)), Step(pen, H(x)))
    }

    /** `vertical_line_to(y)`. */
    function VerticalLineTo(y: real): (d: Data)
      ensures Valid() ==> d.Valid()
      ensures d.commands == Then(commands, V(y))
    {
      Data(Then(commands, V(y)), Step(pen, V(y)))
    }

    /** `close()`. */
    function Close(): (d: Data)
      ensures Valid() ==> d.Valid()
      ensures d.commands == Then(commands, Z)
    {
      Data(Then(commands, Z), Step(pen, Z))
    }
  }

  /** `Data::new().move_to((x, y))`. */
  function MoveTo(x: real, y: real): (d: Data)
    ensures d.Valid()
    ensures d.commands == Start(M(x, y))
  {
    Data(Start(M(x, y)), Step(Fresh, M(x, y)))
  }

  // ----------------------------------------------------------- extents

  /** The smallest axis-aligned rectangle around the points seen so far. */
  datatype Extent = Empty | Box(left: real, top: real, right: real, bottom: real)
  {
    predicate Contains(q: Point)
    {
      Box? && left <= q.x <= right && top <= q.y <= bottom
    }

    /** The extent grown to take in `q`. */
    function Add(q: Point): (e: Extent)
      ensures e.Contains(q)
      ensures forall r :: Contains(r) ==> e.Contains(r)
    {
      if Empty? then Box(q.x, q.y, q.x, q.y)
      else Box(if q.x < left then q.x else left, if q.y < top then q.y else top,
               if right < q.x then q.x else right, if bottom < q.y then q.y else bottom)
    }
  }

  /** The extent of a trail: the rectangle around every point it visits. */
  function Bounds(tr: Trail): Extent
  {
    match tr
    case Blank => Empty
    case Move(before, q) => Bounds(before).Add(q)
    case Line(before, a, q) => Bounds(before).Add(a).Add(q)
  }

  /** Every point the trail reaches lies in its extent. */
  lemma {:induction false} ReachesBounds(tr: Trail, p: Point)
    requires Reaches(tr, p)
    ensures Bounds(tr).Contains(p)
  {
    match tr
    case Blank =>
    case Move(before, q) =>
      if q != p {
        ReachesBounds(before, p);
      }
    case Line(before, a, q) =>
      if a != p && q != p {
        ReachesBounds(before, p);
      }
  }

  /** The extent is no larger than it must be: it is empty only for a trail
      that reaches nothing, and each of its four sides touches a point the
      trail reaches. */
  lemma {:induction false} BoundsTight(tr: Trail)
    ensures Bounds(tr).Empty? <==> tr.Blank?
    ensures Bounds(tr).Box? ==>
      && (exists p :: Reaches(tr, p) && p.x == Bounds(tr).left)
      && (exists p :: Reaches(tr, p) && p.y == Bounds(tr).top)
      && (exists p :: Reaches(tr, p) && p.x == Bounds(tr).right)
      && (exists p :: Reaches(tr, p) && p.y == Bounds(tr).bottom)
  {
    match tr
    case Blank =>
    case Move(before, q) =>
      BoundsTight(before);
    case Line(before, a, q) =>
      BoundsTight(before);
  }

  /** Every point the trail reaches lies in `e`. */
  predicate Within(tr: Trail, e: Extent)
  {
    match tr
    case Blank => true
    case Move(before, q) => Within(before, e) && e.Contains(q)
    case Line(before, a, q) => Within(before, e) && e.Contains(a) && e.Contains(q)
  }

  /** A rectangle holding every point of the trail holds its extent. */
  lemma {:induction false} WithinBounds(tr: Trail, e: Extent)
    requires Within(tr, e) && e.Box?
    ensures Bounds(tr).Box? ==>
      && e.left <= Bounds(tr).left && e.top <= Bounds(tr).top
      && Bounds(tr).right <= e.right && Bounds(tr).bottom <= e.bottom
  {
    match tr
    case Blank =>
    case Move(before, _) => WithinBounds(before, e);
    case Line(before, _, _) => WithinBounds(before, e);
  }

  lemma LeftBound(tr: Trail, e: Extent, p: Point)
    requires e.Box? && Within(tr, e) && Reaches(tr, p) && p.x == e.left
    ensures Bounds(tr).Box? && Bounds(tr).left == e.left
  {
    WithinBounds(tr, e);
    ReachesBounds(tr, p);
  }

  lemma TopBound(tr: Trail, e: Extent, p: Point)
    requires e.Box? && Within(tr, e) && Reaches(tr, p) && p.y == e.top
    ensures Bounds(tr).Box? && Bounds(tr).top == e.top
  {
    WithinBounds(tr, e);
    ReachesBounds(tr, p);
  }

  lemma RightBound(tr: Trail, e: Extent, p: Point)
    requires e.Box? && Within(tr, e) && Reaches(tr, p) && p.x == e.right
    ensures Bounds(tr).Box? && Bounds(tr).right == e.right
  {
    WithinBounds(tr, e);
    ReachesBounds(tr, p);
  }

  lemma BottomBound(tr: Trail, e: Extent, p: Point)
    requires e.Box? && Within(tr, e) && Reaches(tr, p) && p.y == e.bottom
    ensures Bounds(tr).Box? && Bounds(tr).bottom == e.bottom
  {
    WithinBounds(tr, e);
    ReachesBounds(tr, p);
  }

  /** A rectangle that holds every point of a trail and whose four sides
      each touch a point the trail reaches is the trail's extent. */
  lemma BoundsExact(tr: Trail, e: Extent, l: Point, t: Point, r: Point, b: Point)
    requires e.Box? && Within(tr, e)
    requires Reaches(tr, l) && l.x == e.left && Reaches(tr, t) && t.y == e.top
    requires Reaches(tr, r) && r.x == e.right && Reaches(tr, b) && b.y == e.bottom
    ensures Bounds(tr) == e
  {
    LeftBound(tr, e, l);
    TopBound(tr, e, t);
    RightBound(tr, e, r);
    BottomBound(tr, e, b);
  }

  /** The definitions of `Within` and `Reaches`, one stroke at a time, for a
      trail of any length (see `RunsUnfold`). */
  lemma TrailUnfold()
    ensures forall b, q, e {:trigger Within(Move(b, q), e)} ::
      Within(Move(b, q), e) == (Within(b, e) && e.Contains(q))
    ensures forall b, a, q, e {:trigger Within(Line(b, a, q), e)} ::
      Within(Line(b, a, q), e) == (Within(b, e) && e.Contains(a) && e.Contains(q))
    ensures forall b, q, p {:trigger Reaches(Move(b, q), p)} ::
      Reaches(Move(b, q), p) == (q == p || Reaches(b, p))
    ensures forall b, a, q, p {:trigger Reaches(Line(b, a, q), p)} ::
      Reaches(Line(b, a, q), p) == (a == p || q == p || Reaches(b, p))
  {
  }

  // ------------------------------------------------------------- runs

  /** A closed stretch `[lo, hi]` of one axis. */
  datatype Interval = Interval(lo: real, hi: real)

  /** The stretch between two coordinates, in either order. */
  function Between(a: real, b: real): Interval
  {
    if a <= b then Interval(a, b) else Interval(b, a)
  }

  /** The x-extents of the strokes that run along height `y`, in drawing order. */
  function HorizontalRuns(tr: Trail, y: real): seq<Interval>
  {
    match tr
    case Blank => []
    case Move(before, _) => HorizontalRuns(before, y)
    case Line(before, a, q) =>
      HorizontalRuns(before, y) + (if a.y == y && q.y == y then [Between(a.x, q.x)] else [])
  }

  /** The y-extents of the strokes that run along abscissa `x`, in drawing order. */
  function VerticalRuns(tr: Trail, x: real): seq<Interval>
  {
    match tr
    case Blank => []
    case Move(before, _) => VerticalRuns(before, x)
    case Line(before, a, q) =>
      VerticalRuns(before, x) + (if a.x == x && q.x == x then [Between(a.y, q.y)] else [])
  }

  /** The definitions of the runs, one stroke at a time, for a trail of any
      length: a proof about a particular path calls this once and the
      verifier takes the path apart stroke by stroke. */
  lemma RunsUnfold()
    ensures forall b, a, q, y {:trigger HorizontalRuns(Line(b, a, q), y)} ::
      HorizontalRuns(Line(b, a, q), y)
        == HorizontalRuns(b, y) + (if a.y == y && q.y == y then [Between(a.x, q.x)] else [])
    ensures forall b, a, q, x {:trigger VerticalRuns(Line(b, a, q), x)} ::
      VerticalRuns(Line(b, a, q), x)
        == VerticalRuns(b, x) + (if a.x == x && q.x == x then [Between(a.y, q.y)] else [])
    ensures forall b, q, y {:trigger HorizontalRuns(Move(b, q), y)} :: HorizontalRuns(Move(b, q), y) == HorizontalRuns(b, y)
    ensures forall b, q, x {:trigger VerticalRuns(Move(b, q), x)} :: VerticalRuns(Move(b, q), x) == VerticalRuns(b, x)
  {
  }
}
