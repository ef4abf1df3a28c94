/**
  Rendering of one closed or open bezier shape (rectangle, polygon, oval
  or text-frame box) into a sequence of PDF drawing calls.

  The PDF library's calls are recorded as a trace of `DrawCall` values.
  Colour and object-style lookups are functions supplied in `Resources`;
  how they resolve ids is outside this model.
*/
module Polygon {
  import opened Wrappers
  import opened Transforms

  // ---------------------------------------------------------------------
  // Shapes as the renderer sees them
  // ---------------------------------------------------------------------

  /** One path point: an anchor and its two bezier handles, each [x, y]. */
  datatype PathPointType = PathPointType(
    anchor: Option<seq<real>>,
    leftDirection: Option<seq<real>>,
    rightDirection: Option<seq<real>>)

  datatype PathPointArray = PathPointArray(pathPoints: seq<PathPointType>)

  datatype GeometryPathType = GeometryPathType(pathOpen: bool, pathPointArrays: seq<PathPointArray>)

  datatype PathGeometry = PathGeometry(geometryPathType: GeometryPathType)

  datatype Properties = Properties(pathGeometry: Option<PathGeometry>)

  /**
    What a rectangle, polygon, oval or text frame exposes to the renderer:
    its geometry, its own transform, its own paint attributes and the id of
    its object style. All four kinds expose these the same way.
  */
  datatype Shape = Shape(
    properties: Option<Properties>,
    itemTransform: Option<seq<real>>,
    fillColor: Option<string>,
    strokeColor: Option<string>,
    strokeWeight: Option<real>,
    objectStyle: Option<string>)

  /** The paint attributes an object style may define. */
  datatype ObjectStyle = ObjectStyle(
    fillColor: Option<string>,
    strokeColor: Option<string>,
    strokeWeight: Option<real>)

  datatype Color = Cmyk(c: real, m: real, y: real, k: real) | Rgb(r: real, g: real, b: real)

  /** Lookup of colours and object styles by id. */
  datatype Resources = Resources(
    colorFromId: string -> Result<Color, string>,
    objectStyleFromId: string -> Option<ObjectStyle>)

  /** One call into the PDF library. */
  datatype DrawCall =
    | GSave
    | SetLineWidth(width: real)
    | SetCmykFill(c: real, m: real, y: real, k: real)
    | SetRgbFill(r: real, g: real, b: real)
    | SetCmykStroke(c: real, m: real, y: real, k: real)
    | SetRgbStroke(r: real, g: real, b: real)
    | MoveTo(to: Point)
    | CurveTo(p1: Point, p2: Point, p3: Point)
    | Fill
    | Stroke
    | FillStroke
    | ClosePathStroke
    | ClosePathFillStroke
    | EndPath
    | GRestore

  /** The calls made, and whether rendering ran to the end or panicked after them. */
  datatype RenderResult = Completed(trace: seq<DrawCall>) | Panicked(trace: seq<DrawCall>)

  predicate IsFillColor(c: DrawCall) { c.SetCmykFill? || c.SetRgbFill? }
  predicate IsStrokeColor(c: DrawCall) { c.SetCmykStroke? || c.SetRgbStroke? }
  predicate IsLineWidth(c: DrawCall) { c.SetLineWidth? }
  predicate IsMoveTo(c: DrawCall) { c.MoveTo? }
  predicate IsCurveTo(c: DrawCall) { c.CurveTo? }
  predicate IsGSave(c: DrawCall) { c.GSave? }
  predicate IsGRestore(c: DrawCall) { c.GRestore? }

  /** A call that changes the graphics state rather than the path. */
  predicate IsStateCall(c: DrawCall) { IsLineWidth(c) || IsFillColor(c) || IsStrokeColor(c) }

  /** A call that constructs the path. */
  predicate IsPathCall(c: DrawCall) { c.MoveTo? || c.CurveTo? }

  /** A call that ends the path, painting it or not. */
  predicate IsTerminal(c: DrawCall)
  {
    c.Fill? || c.Stroke? || c.FillStroke? || c.ClosePathStroke? || c.ClosePathFillStroke? || c.EndPath?
  }

  /** The terminal call fills the path. */
  predicate Fills(c: DrawCall) { c.Fill? || c.FillStroke? || c.ClosePathFillStroke? }

  /** The terminal call strokes the path. */
  predicate Strokes(c: DrawCall) { c.Stroke? || c.FillStroke? || c.ClosePathStroke? || c.ClosePathFillStroke? }

  /** The terminal call closes the path first. */
  predicate Closes(c: DrawCall) { c.ClosePathStroke? || c.ClosePathFillStroke? }

  /** The number of calls in `t` that satisfy `p`. */
  function CountOf(t: seq<DrawCall>, p: DrawCall -> bool): nat
  {
    if |t| == 0 then 0 else (if p(t[0]) then 1 else 0) + CountOf(t[1..], p)
  }

  /** 1 for true, 0 for false. */
  function Indicator(b: bool): nat { if b then 1 else 0 }

  lemma CountOfAppend(a: seq<DrawCall>, b: seq<DrawCall>, p: DrawCall -> bool)
    ensures CountOf(a + b, p) == CountOf(a, p) + CountOf(b, p)
  {
    if |a| == 0 {
      assert a + b == b;
    } else {
      assert (a + b)[0] == a[0];
      assert (a + b)[1..] == a[1..] + b;
      CountOfAppend(a[1..], b, p);
    }
  }

  lemma CountOfNone(t: seq<DrawCall>, p: DrawCall -> bool)
    requires forall i | 0 <= i < |t| :: !p(t[i])
    ensures CountOf(t, p) == 0
  {
    if |t| > 0 {
      CountOfNone(t[1..], p);
    }
  }

  lemma CountOfAll(t: seq<DrawCall>, p: DrawCall -> bool)
    requires forall i | 0 <= i < |t| :: p(t[i])
    ensures CountOf(t, p) == |t|
  {
    if |t| > 0 {
      CountOfAll(t[1..], p);
    }
  }

  // ---------------------------------------------------------------------
  // Point extraction
  // ---------------------------------------------------------------------

  /** The path-point arrays of the shape; none when it has no properties or no path geometry. */
  function PathArrays(shape: Shape): seq<PathPointArray>
  {
    match shape.properties
    case Some(Properties(Some(geometry))) => geometry.geometryPathType.pathPointArrays
    case _ => []
  }

  /** Whether the path is closed: only a present, non-open geometry is. */
  function ClosedPath(shape: Shape): (r: bool)
    ensures r ==> shape.properties.Some? && shape.properties.value.pathGeometry.Some?
    ensures shape.properties.Some? && shape.properties.value.pathGeometry.Some? ==>
              (r <==> !shape.properties.value.pathGeometry.value.geometryPathType.pathOpen)
  {
    match shape.properties
    case Some(Properties(Some(geometry))) => !geometry.geometryPathType.pathOpen
    case _ => false
  }

  function Present(v: Option<seq<real>>): seq<seq<real>>
  {
    if v.Some? then [v.value] else []
  }

  /** The coordinates one path point contributes: left handle, anchor, right handle, absent ones dropped. */
  function Handles(p: PathPointType): (r: seq<seq<real>>)
    ensures |r| == Indicator(p.leftDirection.Some?) + Indicator(p.anchor.Some?) + Indicator(p.rightDirection.Some?)
    ensures p.leftDirection.Some? ==> r[0] == p.leftDirection.value
    ensures p.anchor.Some? ==> r[Indicator(p.leftDirection.Some?)] == p.anchor.value
    ensures p.rightDirection.Some? ==> r[|r| - 1] == p.rightDirection.value
  {
    Present(p.leftDirection) + Present(p.anchor) + Present(p.rightDirection)
  }

  /** How many of a point's left handle, anchor and right handle are present. */
  function PresentCount(p: PathPointType): nat
  {
    Indicator(p.leftDirection.Some?) + Indicator(p.anchor.Some?) + Indicator(p.rightDirection.Some?)
  }

  /** The number of present handles and anchors over a run of path points. */
  function PresentTotal(pts: seq<PathPointType>): nat
  {
    if |pts| == 0 then 0 else PresentCount(pts[0]) + PresentTotal(pts[1..])
  }

  /** The coordinates of a run of path points, in order. */
  function PointsOfArray(pts: seq<PathPointType>): (r: seq<seq<real>>)
    ensures |r| <= 3 * |pts|
  {
    if |pts| == 0 then [] else Handles(pts[0]) + PointsOfArray(pts[1..])
  }

  /** The coordinates of all path-point arrays, one array after another. */
  function PointsOfArrays(arrays: seq<PathPointArray>): seq<seq<real>>
  {
    if |arrays| == 0 then [] else PointsOfArray(arrays[0].pathPoints) + PointsOfArrays(arrays[1..])
  }

  /** The untransformed coordinates of the shape, in drawing order. */
  function RawPoints(shape: Shape): seq<seq<real>>
  {
    PointsOfArrays(PathArrays(shape))
  }

  /** A run of path points yields one coordinate vector per present handle or anchor: absent ones are dropped, not substituted. */
  lemma {:induction false} PointsOfArrayCount(pts: seq<PathPointType>)
    ensures |PointsOfArray(pts)| == PresentTotal(pts)
  {
    if |pts| > 0 {
      PointsOfArrayCount(pts[1..]);
    }
  }

  /** Path points are read in document order: the coordinates of a concatenation are concatenated. */
  lemma {:induction false} PointsOfArrayAppend(a: seq<PathPointType>, b: seq<PathPointType>)
    ensures PointsOfArray(a + b) == PointsOfArray(a) + PointsOfArray(b)
  {
    if |a| == 0 {
      assert a + b == b;
    } else {
      assert (a + b)[0] == a[0];
      assert (a + b)[1..] == a[1..] + b;
      PointsOfArrayAppend(a[1..], b);
    }
  }

  /** Path-point arrays are read one after another in document order. */
  lemma {:induction false} PointsOfArraysAppend(a: seq<PathPointArray>, b: seq<PathPointArray>)
    ensures PointsOfArrays(a + b) == PointsOfArrays(a) + PointsOfArrays(b)
  {
    if |a| == 0 {
      assert a + b == b;
    } else {
      assert (a + b)[0] == a[0];
      assert (a + b)[1..] == a[1..] + b;
      PointsOfArraysAppend(a[1..], b);
    }
  }

  /** Every point that has both handles and an anchor. */
  predicate FullyPopulated(pts: seq<PathPointType>)
  {
    forall i | 0 <= i < |pts| ::
      pts[i].leftDirection.Some? && pts[i].anchor.Some? && pts[i].rightDirection.Some?
  }

  /** With every handle present, point i contributes entries 3i, 3i+1, 3i+2 as left, anchor, right. */
  lemma {:induction false} PointsOfArrayLayout(pts: seq<PathPointType>)
    requires FullyPopulated(pts)
    ensures |PointsOfArray(pts)| == 3 * |pts|
    ensures forall i | 0 <= i < |pts| ::
              && PointsOfArray(pts)[3 * i] == pts[i].leftDirection.value
              && PointsOfArray(pts)[3 * i + 1] == pts[i].anchor.value
              && PointsOfArray(pts)[3 * i + 2] == pts[i].rightDirection.value
  {
    if |pts| > 0 {
      var rest := PointsOfArray(pts[1..]);
      PointsOfArrayLayout(pts[1..]);
      var h := Handles(pts[0]);
      assert h == [pts[0].leftDirection.value, pts[0].anchor.value, pts[0].rightDirection.value];
      forall i | 0 <= i < |pts|
        ensures PointsOfArray(pts)[3 * i] == pts[i].leftDirection.value
        ensures PointsOfArray(pts)[3 * i + 1] == pts[i].anchor.value
        ensures PointsOfArray(pts)[3 * i + 2] == pts[i].rightDirection.value
      {
        if i > 0 {
          assert pts[i] == pts[1..][i - 1];
          assert 3 * i == 3 + 3 * (i - 1);
        }
      }
    }
  }

  /** Every coordinate vector has at least an x and a y. */
  predicate WellFormed(raw: seq<seq<real>>)
  {
    forall i | 0 <= i < |raw| :: |raw[i]| >= 2
  }

  /** The transform applied to the shape's points: its own, then its parent's. */
  function PointTransform(shape: Shape, parent: Transform): Transform
  {
    Combine(FromVec(shape.itemTransform), parent)
  }

  /**
    The shape's points mapped to page space. A coordinate vector with
    fewer than two entries makes `render` index out of bounds, which is
    None here.
  */
  function ExtractPoints(shape: Shape, parent: Transform): (r: Option<seq<Point>>)
    ensures r.Some? <==> WellFormed(RawPoints(shape))
    ensures r.Some? ==> |r.value| == |RawPoints(shape)|
  {
    var raw := RawPoints(shape);
    if WellFormed(raw) then
      var t := PointTransform(shape, parent);
      Some(seq(|raw|, i requires 0 <= i < |raw| => TransformPoint(Point(raw[i][0], raw[i][1]), t)))
    else
      None
  }

  /** Each extracted point is its raw point mapped by the shape's own transform and then by the parent's. */
  lemma ExtractedPointsAreComposed(shape: Shape, parent: Transform, i: nat)
    requires ExtractPoints(shape, parent).Some? && i < |RawPoints(shape)|
    ensures var raw := RawPoints(shape)[i];
            ExtractPoints(shape, parent).value[i]
              == TransformPoint(TransformPoint(Point(raw[0], raw[1]), FromVec(shape.itemTransform)), parent)
  {
    var raw := RawPoints(shape)[i];
    CombineSequential(FromVec(shape.itemTransform), parent, Point(raw[0], raw[1]));
  }

  // ---------------------------------------------------------------------
  // Paint resolution
  // ---------------------------------------------------------------------

  /** The resolved fill and stroke colour lookups and the stroke weight. */
  datatype Paint = Paint(fill: Result<Color, string>, stroke: Result<Color, string>, weight: Option<real>)

  /** The shape's object style, when it names one that resolves. */
  function StyleOf(shape: Shape, res: Resources): Option<ObjectStyle>
  {
    if shape.objectStyle.Some? then res.objectStyleFromId(shape.objectStyle.value) else None
  }

  /**
    Start from the colour "Swatch/None" and no weight; let a resolved
    object style replace the colours it defines and the weight; then let
    the shape's own attributes replace what they define.
  */
  function ResolvePaint(shape: Shape, res: Resources): (p: Paint)
    ensures p.fill == res.colorFromId(
      if shape.fillColor.Some? then shape.fillColor.value
      else if StyleOf(shape, res).Some? && StyleOf(shape, res).value.fillColor.Some? then StyleOf(shape, res).value.fillColor.value
      else "Swatch/None")
    ensures p.stroke == res.colorFromId(
      if shape.strokeColor.Some? then shape.strokeColor.value
      else if StyleOf(shape, res).Some? && StyleOf(shape, res).value.strokeColor.Some? then StyleOf(shape, res).value.strokeColor.value
      else "Swatch/None")
    ensures p.weight == (
      if shape.strokeWeight.Some? then shape.strokeWeight
      else if StyleOf(shape, res).Some? then StyleOf(shape, res).value.strokeWeight
      else None)
  {
    var initial := Paint(res.colorFromId("Swatch/None"), res.colorFromId("Swatch/None"), None);
    var styled :=
      match StyleOf(shape, res)
      case None => initial
      case Some(style) =>
        Paint(
          if style.fillColor.Some? then res.colorFromId(style.fillColor.value) else initial.fill,
          if style.strokeColor.Some? then res.colorFromId(style.strokeColor.value) else initial.stroke,
          style.strokeWeight);
    Paint(
      if shape.fillColor.Some? then res.colorFromId(shape.fillColor.value) else styled.fill,
      if shape.strokeColor.Some? then res.colorFromId(shape.strokeColor.value) else styled.stroke,
      if shape.strokeWeight.Some? then shape.strokeWeight else styled.weight)
  }

  /** An object style id that does not resolve has the same effect as no object style. */
  lemma UnresolvedStyleChangesNothing(shape: Shape, res: Resources)
    requires shape.objectStyle.Some? && res.objectStyleFromId(shape.objectStyle.value).None?
    ensures ResolvePaint(shape, res) == ResolvePaint(shape.(objectStyle := None), res)
  {
  }

  /** A shape that sets fill, stroke and weight itself is painted the same whatever its object style. */
  lemma ShapeAttributesWin(shape: Shape, res: Resources, style: Option<string>)
    requires shape.fillColor.Some? && shape.strokeColor.Some? && shape.strokeWeight.Some?
    ensures ResolvePaint(shape, res) == ResolvePaint(shape.(objectStyle := style), res)
    ensures ResolvePaint(shape, res)
              == Paint(res.colorFromId(shape.fillColor.value), res.colorFromId(shape.strokeColor.value), shape.strokeWeight)
  {
  }

  // ---------------------------------------------------------------------
  // The draw calls
  // ---------------------------------------------------------------------

  /** The width call, when a weight was resolved. */
  function WidthCalls(paint: Paint): seq<DrawCall>
  {
    if paint.weight.Some? then [SetLineWidth(paint.weight.value)] else []
  }

  /** The colour a fill or stroke colour call sets, read back from its channels. */
  function CallColor(c: DrawCall): Color
    requires IsFillColor(c) || IsStrokeColor(c)
  {
    match c
    case SetCmykFill(c, m, y, k) => Cmyk(c, m, y, k)
    case SetRgbFill(r, g, b) => Rgb(r, g, b)
    case SetCmykStroke(c, m, y, k) => Cmyk(c, m, y, k)
    case SetRgbStroke(r, g, b) => Rgb(r, g, b)
  }

  /** The fill colour call for a successful lookup; nothing for a failed one. */
  function FillColorCalls(c: Result<Color, string>): (r: seq<DrawCall>)
    ensures |r| == (if c.Success? then 1 else 0)
    ensures forall i | 0 <= i < |r| :: IsFillColor(r[i])
    ensures c.Success? ==> CallColor(r[0]) == c.value
  {
    match c
    case Success(Cmyk(c, m, y, k)) => [SetCmykFill(c, m, y, k)]
    case Success(Rgb(r, g, b)) => [SetRgbFill(r, g, b)]
    case Failure(_) => []
  }

  /** The stroke colour call for a successful lookup; nothing for a failed one. */
  function StrokeColorCalls(c: Result<Color, string>): (r: seq<DrawCall>)
    ensures |r| == (if c.Success? then 1 else 0)
    ensures forall i | 0 <= i < |r| :: IsStrokeColor(r[i])
    ensures c.Success? ==> CallColor(r[0]) == c.value
  {
    match c
    case Success(Cmyk(c, m, y, k)) => [SetCmykStroke(c, m, y, k)]
    case Success(Rgb(r, g, b)) => [SetRgbStroke(r, g, b)]
    case Failure(_) => []
  }

  /** Save the graphics state, then set the line width and the colours that resolved. */
  function Prologue(paint: Paint): (r: seq<DrawCall>)
    ensures |r| == 1 + Indicator(paint.weight.Some?) + Indicator(paint.fill.Success?) + Indicator(paint.stroke.Success?)
    ensures r[0] == GSave
    ensures forall i | 1 <= i < |r| :: IsStateCall(r[i])
    ensures paint.weight.Some? ==> r[1] == SetLineWidth(paint.weight.value)
    ensures paint.fill.Success? ==>
              var k := 1 + Indicator(paint.weight.Some?);
              IsFillColor(r[k]) && CallColor(r[k]) == paint.fill.value
    ensures paint.stroke.Success? ==>
              var k := 1 + Indicator(paint.weight.Some?) + Indicator(paint.fill.Success?);
              IsStrokeColor(r[k]) && CallColor(r[k]) == paint.stroke.value
  {
    [GSave] + WidthCalls(paint) + FillColorCalls(paint.fill)
    + StrokeColorCalls(paint.stroke)
  }

  /**
    The call that ends the path, from whether the path is closed and
    whether the fill and stroke colours resolved.
  */
  function TerminalOp(closed: bool, fillOk: bool, strokeOk: bool): (c: DrawCall)
    ensures IsTerminal(c)
    ensures Fills(c) <==> fillOk
    ensures Strokes(c) <==> strokeOk
    ensures Closes(c) <==> closed && strokeOk
  {
    match (closed, fillOk, strokeOk)
    case (_, true, false) => Fill
    case (false, false, true) => Stroke
    case (false, true, true) => FillStroke
    case (true, false, true) => ClosePathStroke
    case (true, true, true) => ClosePathFillStroke
    case _ => EndPath
  }

  /** The terminal call is the only one that fills, strokes and closes as asked. */
  lemma TerminalOpUnique(closed: bool, fillOk: bool, strokeOk: bool, c: DrawCall)
    requires IsTerminal(c)
    requires Fills(c) == fillOk && Strokes(c) == strokeOk && Closes(c) == (closed && strokeOk)
    ensures c == TerminalOp(closed, fillOk, strokeOk)
  {
  }

  /** The eight cases spelled out. */
  lemma TerminalOpTable()
    ensures TerminalOp(false, true, false) == Fill && TerminalOp(true, true, false) == Fill
    ensures TerminalOp(false, false, true) == Stroke
    ensures TerminalOp(false, true, true) == FillStroke
    ensures TerminalOp(true, false, true) == ClosePathStroke
    ensures TerminalOp(true, true, true) == ClosePathFillStroke
    ensures TerminalOp(false, false, false) == EndPath && TerminalOp(true, false, false) == EndPath
  {
  }

  /** The last element moved to the front; the empty sequence is left as it is. */
  function RotateRight<T>(s: seq<T>): (r: seq<T>)
    ensures |r| == |s|
    ensures |s| > 0 ==> r[0] == s[|s| - 1]
    ensures forall i | 0 <= i < |s| - 1 :: r[i + 1] == s[i]
  {
    if |s| == 0 then s else [s[|s| - 1]] + s[..|s| - 1]
  }

  /** Every element moves one place to the right, the last one wrapping round to the front. */
  lemma RotateRightIsRotation<T>(s: seq<T>)
    ensures forall i | 0 <= i < |s| :: RotateRight(s)[(i + 1) % |s|] == s[i]
  {
    var r := RotateRight(s);
    forall i | 0 <= i < |s|
      ensures r[(i + 1) % |s|] == s[i]
    {
      if i < |s| - 1 {
        assert (i + 1) % |s| == i + 1;
      } else {
        assert (i + 1) % |s| == 0;
      }
    }
  }

  /**
    `rotate_right(1)` as `render` calls it: the standard library asserts
    that the rotation does not exceed the length, so an empty sequence
    panics (None).
  */
  function RotateRightAsWritten<T>(s: seq<T>): (r: Option<seq<T>>)
    ensures r.None? <==> |s| == 0
    ensures r.Some? ==> r.value == RotateRight(s)
  {
    if 1 <= |s| then Some([s[|s| - 1]] + s[..|s| - 1]) else None
  }

  /** One curve per full chunk of three points; a trailing chunk of one or two is skipped. */
  function CurveCalls(r: seq<Point>): (c: seq<DrawCall>)
    ensures |c| == |r| / 3
    ensures forall i | 0 <= i < |c| :: c[i] == CurveTo(r[3 * i], r[3 * i + 1], r[3 * i + 2])
  {
    if |r| < 3 then []
    else
      var rest := CurveCalls(r[3..]);
      assert forall i | 0 <= i < |rest| :: r[3..][3 * i] == r[3 * (i + 1)];
      assert forall i | 0 <= i < |rest| :: r[3..][3 * i + 1] == r[3 * (i + 1) + 1];
      assert forall i | 0 <= i < |rest| :: r[3..][3 * i + 2] == r[3 * (i + 1) + 2];
      [CurveTo(r[0], r[1], r[2])] + rest
  }

  /**
    Move to the last point of the rotated list, which is the second-to-last
    point (the only one, for a single point), then draw the curves of its
    chunks.
  */
  function PathCalls(points: seq<Point>): (c: seq<DrawCall>)
    ensures |points| == 0 ==> c == []
    ensures |points| > 0 ==> |c| == 1 + |points| / 3 && forall i | 1 <= i < |c| :: IsCurveTo(c[i])
    ensures |points| == 1 ==> c[0] == MoveTo(points[0])
    ensures |points| >= 2 ==> c[0] == MoveTo(points[|points| - 2])
    ensures |points| >= 3 ==> c[1] == CurveTo(points[|points| - 1], points[0], points[1])
    ensures forall i | 1 <= i < |points| / 3 :: c[1 + i] == CurveTo(points[3 * i - 1], points[3 * i], points[3 * i + 1])
  {
    if |points| == 0 then []
    else
      var r := RotateRight(points);
      var curves := CurveCalls(r);
      assert forall i | 1 <= i < |points| / 3 ::
        r[3 * i] == points[3 * i - 1] && r[3 * i + 1] == points[3 * i] && r[3 * i + 2] == points[3 * i + 1];
      [MoveTo(r[|r| - 1])] + curves
  }

  /**
    The calls for a list of page-space points: the prologue, the path, the
    terminal call and the restore.
  */
  function Trace(points: seq<Point>, paint: Paint, closed: bool): (t: seq<DrawCall>)
    ensures |t| == 3 + Indicator(paint.weight.Some?) + Indicator(paint.fill.Success?) + Indicator(paint.stroke.Success?)
                   + Indicator(|points| > 0) + |points| / 3
  {
    Prologue(paint) + PathCalls(points) + [TerminalOp(closed, paint.fill.Success?, paint.stroke.Success?), GRestore]
  }

  /**
    The rendering as written: extract points, resolve the paint, save the
    state, set width and colours, rotate, build the path, end it and
    restore the state. An empty point list panics at the rotation.
  */
  function RenderAsWritten(shape: Shape, parent: Transform, res: Resources): (r: RenderResult)
    ensures r.Completed? <==> WellFormed(RawPoints(shape)) && |RawPoints(shape)| > 0
    ensures r.Panicked? && |RawPoints(shape)| > 0 ==> r.trace == []
  {
    match ExtractPoints(shape, parent)
    case None => Panicked([])
    case Some(points) =>
      var paint := ResolvePaint(shape, res);
      var prologue := Prologue(paint);
      match RotateRightAsWritten(points)
      case None => Panicked(prologue)
      case Some(r) =>
        Completed(prologue + ([MoveTo(r[|r| - 1])] + CurveCalls(r))
                  + [TerminalOp(ClosedPath(shape), paint.fill.Success?, paint.stroke.Success?), GRestore])
  }

  /** The rendering with the rotation skipped for an empty point list. */
  function Render(shape: Shape, parent: Transform, res: Resources): (r: RenderResult)
    ensures r.Completed? <==> WellFormed(RawPoints(shape))
    ensures r.Panicked? ==> r.trace == []
    ensures r.Completed? ==>
              r.trace == Trace(ExtractPoints(shape, parent).value, ResolvePaint(shape, res), ClosedPath(shape))
  {
    match ExtractPoints(shape, parent)
    case None => Panicked([])
    case Some(points) =>
      Completed(Trace(points, ResolvePaint(shape, res), ClosedPath(shape)))
  }

  // ---------------------------------------------------------------------
  // Properties of the trace
  // ---------------------------------------------------------------------

  /** The state is saved first and restored last, and the terminal call comes just before the restore. */
  lemma TraceBracketed(points: seq<Point>, paint: Paint, closed: bool)
    ensures var t := Trace(points, paint, closed);
            && |t| >= 3
            && t[0] == GSave
            && t[|t| - 1] == GRestore
            && t[|t| - 2] == TerminalOp(closed, paint.fill.Success?, paint.stroke.Success?)
  {
  }

  /** The line width is the second call exactly when a weight was resolved. */
  lemma TraceLineWidth(points: seq<Point>, paint: Paint, closed: bool)
    ensures var t := Trace(points, paint, closed);
            && (IsLineWidth(t[1]) <==> paint.weight.Some?)
            && (paint.weight.Some? ==> t[1] == SetLineWidth(paint.weight.value))
  {
  }

  /** When the fill lookup succeeded, the call after the optional width sets exactly the looked-up fill colour. */
  lemma TraceFillColorIsResolved(points: seq<Point>, paint: Paint, closed: bool)
    requires paint.fill.Success?
    ensures var t := Trace(points, paint, closed);
            var k := 1 + Indicator(paint.weight.Some?);
            k < |t| && IsFillColor(t[k]) && CallColor(t[k]) == paint.fill.value
  {
    var pro := Prologue(paint);
    var t := Trace(points, paint, closed);
    assert t[1 + Indicator(paint.weight.Some?)] == pro[1 + Indicator(paint.weight.Some?)];
  }

  /** When the stroke lookup succeeded, the call after the optional width and fill sets exactly the looked-up stroke colour. */
  lemma TraceStrokeColorIsResolved(points: seq<Point>, paint: Paint, closed: bool)
    requires paint.stroke.Success?
    ensures var t := Trace(points, paint, closed);
            var k := 1 + Indicator(paint.weight.Some?) + Indicator(paint.fill.Success?);
            k < |t| && IsStrokeColor(t[k]) && CallColor(t[k]) == paint.stroke.value
  {
    var pro := Prologue(paint);
    var t := Trace(points, paint, closed);
    var k := 1 + Indicator(paint.weight.Some?) + Indicator(paint.fill.Success?);
    assert t[k] == pro[k];
  }

  /** The prologue builds no path. */
  lemma PrologueHasNoPathCalls(paint: Paint)
    ensures forall i | 0 <= i < |Prologue(paint)| :: !IsPathCall(Prologue(paint)[i])
  {
    var w := WidthCalls(paint);
    var f := FillColorCalls(paint.fill);
    var s := StrokeColorCalls(paint.stroke);
    var pro := Prologue(paint);
    forall i | 0 <= i < |pro|
      ensures !IsPathCall(pro[i])
    {
      if i == 0 {
      } else if i < 1 + |w| {
        assert pro[i] == w[i - 1];
      } else if i < 1 + |w| + |f| {
        assert pro[i] == f[i - 1 - |w|];
      } else {
        assert pro[i] == s[i - 1 - |w| - |f|];
      }
    }
  }

  /** In a concatenation of calls, state calls of the first part come before path calls of the second. */
  lemma StateCallsFirst(pro: seq<DrawCall>, path: seq<DrawCall>, tail: seq<DrawCall>)
    requires forall i | 0 <= i < |pro| :: !IsPathCall(pro[i])
    requires forall i | 0 <= i < |path| :: IsPathCall(path[i])
    requires forall i | 0 <= i < |tail| :: !IsStateCall(tail[i]) && !IsPathCall(tail[i])
    ensures var t := pro + path + tail;
            && (forall i | 0 <= i < |t| && IsStateCall(t[i]) :: i < |pro|)
            && (forall j | 0 <= j < |t| && IsPathCall(t[j]) :: |pro| <= j)
  {
    var t := pro + path + tail;
    var k := |pro|;
    assert forall i | 0 <= i < k :: t[i] == pro[i];
    assert forall i | k <= i < k + |path| :: t[i] == path[i - k];
    assert forall i | k + |path| <= i < |t| :: t[i] == tail[i - k - |path|];
  }

  /**
    Width and colours are all set before the path is built: every state
    call lies within the prologue and every path call after it.
  */
  lemma TraceStateBeforePath(points: seq<Point>, paint: Paint, closed: bool)
    ensures var t := Trace(points, paint, closed);
            && (forall i | 0 <= i < |t| && IsStateCall(t[i]) :: i < |Prologue(paint)|)
            && (forall j | 0 <= j < |t| && IsPathCall(t[j]) :: |Prologue(paint)| <= j)
  {
    var path := PathCalls(points);
    var tail := [TerminalOp(closed, paint.fill.Success?, paint.stroke.Success?), GRestore];
    PrologueHasNoPathCalls(paint);
    assert forall i | 0 <= i < |path| :: IsPathCall(path[i]);
    StateCallsFirst(Prologue(paint), path, tail);
  }

  /**
    The rendered path is closed before it is painted exactly when the shape
    has a path geometry that is not open and the stroke colour resolved.
  */
  lemma ClosingNeedsClosedGeometry(shape: Shape, parent: Transform, res: Resources)
    requires Render(shape, parent, res).Completed?
    ensures var t := Render(shape, parent, res).trace;
            |t| >= 2
            && (Closes(t[|t| - 2]) <==>
                  && shape.properties.Some? && shape.properties.value.pathGeometry.Some?
                  && !shape.properties.value.pathGeometry.value.geometryPathType.pathOpen
                  && ResolvePaint(shape, res).stroke.Success?)
  {
  }

  /** The count of calls of one kind in a trace, part by part. */
  lemma TraceCountSplit(points: seq<Point>, paint: Paint, closed: bool, p: DrawCall -> bool)
    ensures CountOf(Trace(points, paint, closed), p)
            == Indicator(p(GSave)) + CountOf(WidthCalls(paint), p)
               + CountOf(FillColorCalls(paint.fill), p) + CountOf(StrokeColorCalls(paint.stroke), p)
               + CountOf(PathCalls(points), p)
               + Indicator(p(TerminalOp(closed, paint.fill.Success?, paint.stroke.Success?))) + Indicator(p(GRestore))
  {
    var term := TerminalOp(closed, paint.fill.Success?, paint.stroke.Success?);
    var parts := [[GSave], WidthCalls(paint), FillColorCalls(paint.fill), StrokeColorCalls(paint.stroke),
                  PathCalls(points), [term, GRestore]];
    assert Trace(points, paint, closed) == parts[0] + parts[1] + parts[2] + parts[3] + parts[4] + parts[5];
    CountParts(parts, Trace(points, paint, closed), p);
    assert [term, GRestore][1..] == [GRestore];
    assert [GRestore][1..] == [];
    assert [GSave][1..] == [];
  }

  /** The graphics state is saved exactly once. */
  lemma TraceSavesOnce(points: seq<Point>, paint: Paint, closed: bool)
    ensures CountOf(Trace(points, paint, closed), IsGSave) == 1
  {
    var path := PathCalls(points);
    assert forall i | 0 <= i < |path| :: IsPathCall(path[i]);
    TraceCountSplit(points, paint, closed, IsGSave);
    CountOfNone(WidthCalls(paint), IsGSave);
    CountOfNone(FillColorCalls(paint.fill), IsGSave);
    CountOfNone(StrokeColorCalls(paint.stroke), IsGSave);
    CountOfNone(path, IsGSave);
  }

  /** The graphics state is restored exactly once. */
  lemma TraceRestoresOnce(points: seq<Point>, paint: Paint, closed: bool)
    ensures CountOf(Trace(points, paint, closed), IsGRestore) == 1
  {
    var path := PathCalls(points);
    assert forall i | 0 <= i < |path| :: IsPathCall(path[i]);
    TraceCountSplit(points, paint, closed, IsGRestore);
    CountOfNone(WidthCalls(paint), IsGRestore);
    CountOfNone(FillColorCalls(paint.fill), IsGRestore);
    CountOfNone(StrokeColorCalls(paint.stroke), IsGRestore);
    CountOfNone(path, IsGRestore);
  }

  /** Exactly one call ends the path. */
  lemma TraceEndsPathOnce(points: seq<Point>, paint: Paint, closed: bool)
    ensures CountOf(Trace(points, paint, closed), IsTerminal) == 1
  {
    var path := PathCalls(points);
    assert forall i | 0 <= i < |path| :: IsPathCall(path[i]);
    TraceCountSplit(points, paint, closed, IsTerminal);
    CountOfNone(WidthCalls(paint), IsTerminal);
    CountOfNone(FillColorCalls(paint.fill), IsTerminal);
    CountOfNone(StrokeColorCalls(paint.stroke), IsTerminal);
    CountOfNone(path, IsTerminal);
  }

  /** The line width is set exactly when a weight was resolved. */
  lemma TraceLineWidthCount(points: seq<Point>, paint: Paint, closed: bool)
    ensures CountOf(Trace(points, paint, closed), IsLineWidth) == Indicator(paint.weight.Some?)
  {
    var path := PathCalls(points);
    assert forall i | 0 <= i < |path| :: IsPathCall(path[i]);
    TraceCountSplit(points, paint, closed, IsLineWidth);
    CountOfAll(WidthCalls(paint), IsLineWidth);
    CountOfNone(FillColorCalls(paint.fill), IsLineWidth);
    CountOfNone(StrokeColorCalls(paint.stroke), IsLineWidth);
    CountOfNone(path, IsLineWidth);
  }

  /** The fill colour is set exactly when its lookup succeeded. */
  lemma TraceFillColorCount(points: seq<Point>, paint: Paint, closed: bool)
    ensures CountOf(Trace(points, paint, closed), IsFillColor) == Indicator(paint.fill.Success?)
  {
    var path := PathCalls(points);
    assert forall i | 0 <= i < |path| :: IsPathCall(path[i]);
    TraceCountSplit(points, paint, closed, IsFillColor);
    CountOfNone(WidthCalls(paint), IsFillColor);
    CountOfAll(FillColorCalls(paint.fill), IsFillColor);
    CountOfNone(StrokeColorCalls(paint.stroke), IsFillColor);
    CountOfNone(path, IsFillColor);
  }

  /** The stroke colour is set exactly when its lookup succeeded. */
  lemma TraceStrokeColorCount(points: seq<Point>, paint: Paint, closed: bool)
    ensures CountOf(Trace(points, paint, closed), IsStrokeColor) == Indicator(paint.stroke.Success?)
  {
    var path := PathCalls(points);
    assert forall i | 0 <= i < |path| :: IsPathCall(path[i]);
    TraceCountSplit(points, paint, closed, IsStrokeColor);
    CountOfNone(WidthCalls(paint), IsStrokeColor);
    CountOfNone(FillColorCalls(paint.fill), IsStrokeColor);
    CountOfAll(StrokeColorCalls(paint.stroke), IsStrokeColor);
    CountOfNone(path, IsStrokeColor);
  }

  /** One move-to when there are points, and one curve per full chunk of three. */
  lemma TraceCountsPath(points: seq<Point>, paint: Paint, closed: bool)
    ensures var t := Trace(points, paint, closed);
            && CountOf(t, IsMoveTo) == Indicator(|points| > 0)
            && CountOf(t, IsCurveTo) == |points| / 3
  {
    var path := PathCalls(points);
    TraceCountSplit(points, paint, closed, IsMoveTo);
    TraceCountSplit(points, paint, closed, IsCurveTo);
    CountOfNone(WidthCalls(paint), IsMoveTo);
    CountOfNone(WidthCalls(paint), IsCurveTo);
    CountOfNone(FillColorCalls(paint.fill), IsMoveTo);
    CountOfNone(FillColorCalls(paint.fill), IsCurveTo);
    CountOfNone(StrokeColorCalls(paint.stroke), IsMoveTo);
    CountOfNone(StrokeColorCalls(paint.stroke), IsCurveTo);
    if |points| > 0 {
      assert path == [path[0]] + path[1..];
      CountOfAppend([path[0]], path[1..], IsMoveTo);
      CountOfAppend([path[0]], path[1..], IsCurveTo);
      CountOfNone(path[1..], IsMoveTo);
      CountOfAll(path[1..], IsCurveTo);
    }
  }

  /** The count over six consecutive parts is the sum of the counts over the parts. */
  lemma CountParts(parts: seq<seq<DrawCall>>, t: seq<DrawCall>, p: DrawCall -> bool)
    requires |parts| == 6
    requires t == parts[0] + parts[1] + parts[2] + parts[3] + parts[4] + parts[5]
    ensures CountOf(t, p) == CountOf(parts[0], p) + CountOf(parts[1], p) + CountOf(parts[2], p)
                             + CountOf(parts[3], p) + CountOf(parts[4], p) + CountOf(parts[5], p)
  {
    CountOfAppend(parts[0] + parts[1] + parts[2] + parts[3] + parts[4], parts[5], p);
    CountOfAppend(parts[0] + parts[1] + parts[2] + parts[3], parts[4], p);
    CountOfAppend(parts[0] + parts[1] + parts[2], parts[3], p);
    CountOfAppend(parts[0] + parts[1], parts[2], p);
    CountOfAppend(parts[0], parts[1], p);
  }

  /** Six points with all handles give the move-to and the two curves below. */
  lemma RotationExample(l1: Point, a1: Point, r1: Point, l2: Point, a2: Point, r2: Point)
    ensures PathCalls([l1, a1, r1, l2, a2, r2]) == [MoveTo(a2), CurveTo(r2, l1, a1), CurveTo(r1, l2, a2)]
  {
    var r := RotateRight([l1, a1, r1, l2, a2, r2]);
    assert r == [r2, l1, a1, r1, l2, a2];
    assert r[3..] == [r1, l2, a2];
  }

  // ---------------------------------------------------------------------
  // The rotation of an empty point list
  // ---------------------------------------------------------------------

  /** With at least one point, `render` as written and the corrected rendering agree. */
  lemma RenderAgreesWithPoints(shape: Shape, parent: Transform, res: Resources)
    requires ExtractPoints(shape, parent).Some? && |ExtractPoints(shape, parent).value| > 0
    ensures RenderAsWritten(shape, parent, res) == Render(shape, parent, res)
  {
  }

  /**
    As written, a shape without points (no properties, no path geometry or
    no path points) panics after the colours are set, before any path or
    terminal call and without restoring the graphics state.
  */
  lemma RenderAsWrittenPanicsWithoutPoints(shape: Shape, parent: Transform, res: Resources)
    requires |RawPoints(shape)| == 0
    ensures RenderAsWritten(shape, parent, res) == Panicked(Prologue(ResolvePaint(shape, res)))
  {
  }

  /** As written, a coordinate vector without x and y panics before any call is made. */
  lemma RenderAsWrittenPanicsOnShortVector(shape: Shape, parent: Transform, res: Resources)
    requires !WellFormed(RawPoints(shape))
    ensures RenderAsWritten(shape, parent, res) == Panicked([])
  {
  }

  /** A shape with no properties at all is one such shape. */
  lemma NoPropertiesPanicsAsWritten(shape: Shape, parent: Transform, res: Resources)
    requires shape.properties.None?
    ensures RenderAsWritten(shape, parent, res).Panicked?
  {
    RenderAsWrittenPanicsWithoutPoints(shape, parent, res);
  }

  /** The corrected rendering of a shape without points still saves, ends the path and restores. */
  lemma RenderWithoutPoints(shape: Shape, parent: Transform, res: Resources)
    requires |RawPoints(shape)| == 0
    ensures var paint := ResolvePaint(shape, res);
            Render(shape, parent, res)
              == Completed(Prologue(paint)
                           + [TerminalOp(ClosedPath(shape), paint.fill.Success?, paint.stroke.Success?), GRestore])
  {
  }
}
