/** The point operators of the symmetry engine: translation, rotation, line
    reflection and glide. Each maps a point and a `relative` flag to a point;
    a relative point is a direction (an SVG relative coordinate), and every
    operator then ignores its anchor. Operators are data, interpreted by one
    evaluator, `Apply`. */
module Geometry {

  datatype Point = Point(x: real, y: real)

  function Add(p: Point, q: Point): Point {
    Point(p.x + q.x, p.y + q.y)
  }

  /** Squared Euclidean distance. */
  function Dist2(p: Point, q: Point): real {
    (p.x - q.x) * (p.x - q.x) + (p.y - q.y) * (p.y - q.y)
  }

  /** An operator. A rotation carries the cosine and sine of its angle in
      place of the angle in degrees. `Glide(mirror, shift)` applies `mirror`
      and then `shift`, both with the same `relative` flag. */
  datatype Op =
    | Translate(dx: real, dy: real)
    | Rotate(h: real, k: real, cos: real, sin: real)
    | Reflect(a: real, b: real, c: real)
    | Glide(mirror: Op, shift: Op)

  /** The sum of squares a^2 + b^2 of a mirror line's normal (a, b). */
  function NormSq(a: real, b: real): real {
    a * a + b * b
  }

  /** An operator the evaluator can apply: every mirror line a*x + b*y + c = 0
      has a non-zero normal (a, b), since the reflection divides by
      a^2 + b^2. */
  predicate ValidOp(op: Op) {
    match op
    case Translate(_, _) => true
    case Rotate(_, _, _, _) => true
    case Reflect(a, b, _) => NormSq(a, b) > 0.0
    case Glide(mirror, shift) => ValidOp(mirror) && ValidOp(shift)
  }

  /** Every rotation of the operator has its cosine and sine on the unit
      circle, as the cosine and sine of an angle are. */
  predicate UnitRotations(op: Op) {
    match op
    case Translate(_, _) => true
    case Rotate(_, _, cos, sin) => cos * cos + sin * sin == 1.0
    case Reflect(_, _, _) => true
    case Glide(mirror, shift) => UnitRotations(mirror) && UnitRotations(shift)
  }

  /** Rotation by 180 degrees about (h, k), the only angle the catalog uses. */
  function HalfTurn(h: real, k: real): Op {
    Rotate(h, k, -1.0, 0.0)
  }

  /** Rotation by 90 degrees about (h, k). */
  function QuarterTurn(h: real, k: real): Op {
    Rotate(h, k, 0.0, 1.0)
  }

  function TranslatePoint(p: Point, relative: bool, dx: real, dy: real): Point {
    if relative then p else Point(p.x + dx, p.y + dy)
  }

  /** A relative point turns about the origin (h and k taken as 0). */
  function RotatePoint(p: Point, relative: bool, h: real, k: real, cos: real, sin: real): Point {
    var h0 := if relative then 0.0 else h;
    var k0 := if relative then 0.0 else k;
    var r := h0 * (1.0 - cos) + k0 * sin;
    var s := -h0 * sin + k0 * (1.0 - cos);
    Point(p.x * cos - p.y * sin + r, p.x * sin + p.y * cos + s)
  }

  /** The signed offset a*x + b*y + c of a point from a mirror line. */
  function Offset(p: Point, a: real, b: real, c: real): real {
    a * p.x + b * p.y + c
  }

  /** How far along the normal a reflection moves a point at offset d. */
  function Ratio(d: real, sumSquares: real): real
    requires sumSquares > 0.0
  {
    2.0 * d / sumSquares
  }

  /** The point p moved back along the normal (a, b) by r times its length. */
  function Moved(p: Point, a: real, b: real, r: real): Point {
    Point(p.x - a * r, p.y - b * r)
  }

  /** A relative point is mirrored in the parallel line through the origin
      (c taken as 0). */
  function ReflectPoint(p: Point, relative: bool, a: real, b: real, c: real): Point
    requires NormSq(a, b) > 0.0
  {
    var c0 := if relative then 0.0 else c;
    Moved(p, a, b, Ratio(Offset(p, a, b, c0), NormSq(a, b)))
  }

  /** The evaluator: what the operator closures of the page compute. */
  function Apply(op: Op, p: Point, relative: bool): Point
    requires ValidOp(op)
  {
    match op
    case Translate(dx, dy) => TranslatePoint(p, relative, dx, dy)
    case Rotate(h, k, cos, sin) => RotatePoint(p, relative, h, k, cos, sin)
    case Reflect(a, b, c) => ReflectPoint(p, relative, a, b, c)
    case Glide(mirror, shift) => Apply(shift, Apply(mirror, p, relative), relative)
  }

  // ---------------------------------------------------------------------
  // The value of each formula, written out

  lemma NormSqValue(a: real, b: real)
    ensures NormSq(a, b) == a * a + b * b
  {
  }

  lemma OffsetValue(p: Point, a: real, b: real, c: real)
    ensures Offset(p, a, b, c) == a * p.x + b * p.y + c
  {
  }

  lemma RotateValue(p: Point, h: real, k: real, cos: real, sin: real)
    ensures RotatePoint(p, false, h, k, cos, sin).x == p.x * cos - p.y * sin + (h * (1.0 - cos) + k * sin)
    ensures RotatePoint(p, false, h, k, cos, sin).y == p.x * sin + p.y * cos + (-h * sin + k * (1.0 - cos))
  {
  }

  /** Helper: how much the rotation of p + q differs from that of p. */
  lemma RotateDifference(p: Point, q: Point, h: real, k: real, cos: real, sin: real)
    ensures RotatePoint(Add(p, q), false, h, k, cos, sin).x - RotatePoint(p, false, h, k, cos, sin).x
         == Add(p, q).x * cos - Add(p, q).y * sin - (p.x * cos - p.y * sin)
    ensures RotatePoint(Add(p, q), false, h, k, cos, sin).y - RotatePoint(p, false, h, k, cos, sin).y
         == Add(p, q).x * sin + Add(p, q).y * cos - (p.x * sin + p.y * cos)
  {
  }

  lemma ReflectValue(p: Point, a: real, b: real, c: real)
    requires NormSq(a, b) > 0.0
    ensures ReflectPoint(p, false, a, b, c).x == p.x - a * Ratio(Offset(p, a, b, c), NormSq(a, b))
    ensures ReflectPoint(p, false, a, b, c).y == p.y - b * Ratio(Offset(p, a, b, c), NormSq(a, b))
  {
  }

  // ---------------------------------------------------------------------
  // Steps of real arithmetic, each stated on named quantities

  lemma MulAddLeft(a: real, u: real, v: real, w: real)
    requires w == u + v
    ensures a * w == a * u + a * v
  {
  }

  lemma MulNeg(a: real, u: real, w: real)
    requires w == -u
    ensures a * w == -(a * u)
  {
  }

  lemma MulZero(a: real, z: real)
    requires z == 0.0
    ensures a * z == 0.0
  {
  }

  lemma RatioScaled(d: real, ss: real)
    requires ss > 0.0
    ensures ss * Ratio(d, ss) == 2.0 * d
  {
  }

  lemma RatioNeg(d: real, e: real, ss: real)
    requires ss > 0.0 && e == -d
    ensures Ratio(e, ss) == -Ratio(d, ss)
  {
  }

  lemma RatioAdd(d: real, e: real, f: real, ss: real)
    requires ss > 0.0 && f == d + e
    ensures Ratio(f, ss) == Ratio(d, ss) + Ratio(e, ss)
  {
  }

  lemma RatioZero(d: real, ss: real)
    requires ss > 0.0 && d == 0.0
    ensures Ratio(d, ss) == 0.0
  {
  }

  /** The offset of a point moved along the normal by r. */
  lemma OffsetMoved(x: real, y: real, a: real, b: real, c: real, r: real, qx: real, qy: real, ss: real)
    requires qx == x - a * r && qy == y - b * r && ss == a * a + b * b
    ensures a * qx + b * qy + c == (a * x + b * y + c) - ss * r
  {
  }

  /** A point moved along the normal by the reflection ratio keeps its
      squared length, up to r times a quantity that is zero. */
  lemma MirrorLength(u: real, v: real, a: real, b: real, r: real, mx: real, my: real, ss: real, d: real)
    requires mx == u - a * r && my == v - b * r && ss == a * a + b * b && d == a * u + b * v + 0.0
    ensures mx * mx + my * my == u * u + v * v + r * (ss * r - 2.0 * d)
  {
  }

  lemma TurnDifference(px: real, py: real, qx: real, qy: real, sx: real, sy: real, cos: real, sin: real)
    requires sx == px + qx && sy == py + qy
    ensures sx * cos - sy * sin - (px * cos - py * sin) == qx * cos - qy * sin
    ensures sx * sin + sy * cos - (px * sin + py * cos) == qx * sin + qy * cos
  {
  }

  /** The squared distance of u from v is the squared length of their difference e. */
  lemma DifferenceLength(u: Point, v: Point, e: Point)
    requires u.x - v.x == e.x && u.y - v.y == e.y
    ensures Dist2(u, v) == e.x * e.x + e.y * e.y
  {
  }

  /** Turning a difference scales its squared length by cos^2 + sin^2. */
  lemma TurnLength(p: Point, q: Point, u: Point, v: Point, cos: real, sin: real, n: real)
    requires u.x - v.x == p.x * cos - p.y * sin - (q.x * cos - q.y * sin)
    requires u.y - v.y == p.x * sin + p.y * cos - (q.x * sin + q.y * cos)
    requires n == cos * cos + sin * sin
    ensures Dist2(u, v) == Dist2(p, q) * n
  {
  }

  // ---------------------------------------------------------------------
  // Translation

  /** A relative point is left alone whatever the offset; an absolute one is
      moved by the offset, so the zero translation is the identity. */
  lemma TranslateMeaning(p: Point, dx: real, dy: real)
    ensures TranslatePoint(p, true, dx, dy) == p
    ensures TranslatePoint(p, false, dx, dy) == Add(p, Point(dx, dy))
    ensures TranslatePoint(p, false, 0.0, 0.0) == p
  {
  }

  // ---------------------------------------------------------------------
  // Rotation

  /** A relative point turns about the origin whatever the centre is. */
  lemma RotateRelativeAboutOrigin(p: Point, h: real, k: real, cos: real, sin: real)
    ensures RotatePoint(p, true, h, k, cos, sin) == RotatePoint(p, false, 0.0, 0.0, cos, sin)
  {
  }

  /** A rotation fixes its centre. */
  lemma RotateFixesCentre(h: real, k: real, cos: real, sin: real)
    ensures RotatePoint(Point(h, k), false, h, k, cos, sin) == Point(h, k)
  {
  }

  /** A half-turn about (h, k) maps (x, y) to (2h - x, 2k - y); a relative
      point is negated. */
  lemma HalfTurnFormula(p: Point, h: real, k: real)
    ensures RotatePoint(p, false, h, k, -1.0, 0.0) == Point(2.0 * h - p.x, 2.0 * k - p.y)
    ensures RotatePoint(p, true, h, k, -1.0, 0.0) == Point(-p.x, -p.y)
  {
  }

  /** A half-turn applied twice is the identity, for either kind of point. */
  lemma HalfTurnInvolution(p: Point, h: real, k: real, relative: bool)
    ensures RotatePoint(RotatePoint(p, relative, h, k, -1.0, 0.0), relative, h, k, -1.0, 0.0) == p
  {
    HalfTurnFormula(p, h, k);
    HalfTurnFormula(RotatePoint(p, relative, h, k, -1.0, 0.0), h, k);
  }

  /** A quarter-turn applied four times is the identity. */
  lemma QuarterTurnOrder(p: Point, h: real, k: real, relative: bool)
    ensures var q := QuarterTurn(h, k);
      Apply(q, Apply(q, Apply(q, Apply(q, p, relative), relative), relative), relative) == p
  {
    var q1 := RotatePoint(p, relative, h, k, 0.0, 1.0);
    var q2 := RotatePoint(q1, relative, h, k, 0.0, 1.0);
    var q3 := RotatePoint(q2, relative, h, k, 0.0, 1.0);
    assert RotatePoint(q3, relative, h, k, 0.0, 1.0) == p;
  }

  // ---------------------------------------------------------------------
  // Reflection

  /** A relative point is mirrored in the parallel line through the origin
      (c taken as 0), whatever c is. */
  lemma ReflectRelativeThroughOrigin(p: Point, a: real, b: real, c: real)
    requires NormSq(a, b) > 0.0
    ensures ReflectPoint(p, true, a, b, c) == ReflectPoint(p, false, a, b, 0.0)
  {
  }

  /** A point on the mirror line a*x + b*y + c = 0 is fixed. */
  lemma ReflectFixesMirror(p: Point, a: real, b: real, c: real)
    requires NormSq(a, b) > 0.0
    requires a * p.x + b * p.y + c == 0.0
    ensures ReflectPoint(p, false, a, b, c) == p
  {
    var d := Offset(p, a, b, c);
    var r := Ratio(d, NormSq(a, b));
    ReflectValue(p, a, b, c);
    OffsetValue(p, a, b, c);
    RatioZero(d, NormSq(a, b));
    MulZero(a, r);
    MulZero(b, r);
  }

  /** Helper: the image's offset from the mirror is the opposite of the
      point's. */
  lemma ReflectNegatesOffset(p: Point, a: real, b: real, c: real)
    requires NormSq(a, b) > 0.0
    ensures Offset(ReflectPoint(p, false, a, b, c), a, b, c) == -Offset(p, a, b, c)
  {
    var q := ReflectPoint(p, false, a, b, c);
    var d := Offset(p, a, b, c);
    var r := Ratio(d, NormSq(a, b));
    ReflectValue(p, a, b, c);
    OffsetValue(p, a, b, c);
    OffsetValue(q, a, b, c);
    NormSqValue(a, b);
    OffsetMoved(p.x, p.y, a, b, c, r, q.x, q.y, NormSq(a, b));
    RatioScaled(d, NormSq(a, b));
  }

  /** Helper: ReflectInvolution for an absolute point. */
  lemma ReflectTwice(p: Point, a: real, b: real, c: real)
    requires NormSq(a, b) > 0.0
    ensures ReflectPoint(ReflectPoint(p, false, a, b, c), false, a, b, c) == p
  {
    var q := ReflectPoint(p, false, a, b, c);
    var d, e := Offset(p, a, b, c), Offset(q, a, b, c);
    var r, r' := Ratio(d, NormSq(a, b)), Ratio(e, NormSq(a, b));
    ReflectValue(p, a, b, c);
    ReflectValue(q, a, b, c);
    ReflectNegatesOffset(p, a, b, c);
    RatioNeg(d, e, NormSq(a, b));
    MulNeg(a, r, r');
    MulNeg(b, r, r');
  }

  /** A reflection applied twice is the identity, for either kind of point. */
  lemma ReflectInvolution(p: Point, a: real, b: real, c: real, relative: bool)
    requires NormSq(a, b) > 0.0
    ensures ReflectPoint(ReflectPoint(p, relative, a, b, c), relative, a, b, c) == p
  {
    if relative {
      ReflectRelativeThroughOrigin(p, a, b, c);
      ReflectRelativeThroughOrigin(ReflectPoint(p, true, a, b, c), a, b, c);
      ReflectTwice(p, a, b, 0.0);
    } else {
      ReflectTwice(p, a, b, c);
    }
  }

  // ---------------------------------------------------------------------
  // Glide

  /** A glide of a reflection and a translation: an absolute point is
      reflected and then moved by the offset; a relative point is only
      reflected, in the parallel mirror through the origin. */
  lemma GlideMeaning(p: Point, a: real, b: real, c: real, dx: real, dy: real)
    requires NormSq(a, b) > 0.0
    ensures ValidOp(Glide(Reflect(a, b, c), Translate(dx, dy)))
    ensures Apply(Glide(Reflect(a, b, c), Translate(dx, dy)), p, false)
         == Add(ReflectPoint(p, false, a, b, c), Point(dx, dy))
    ensures Apply(Glide(Reflect(a, b, c), Translate(dx, dy)), p, true)
         == ReflectPoint(p, false, a, b, 0.0)
  {
    ReflectRelativeThroughOrigin(p, a, b, c);
  }

  /** Helper: a direction along the mirror is left alone. */
  lemma ReflectKeepsDirection(dx: real, dy: real, a: real, b: real, c: real)
    requires NormSq(a, b) > 0.0
    requires a * dx + b * dy == 0.0
    ensures ReflectPoint(Point(dx, dy), true, a, b, c) == Point(dx, dy)
  {
    ReflectRelativeThroughOrigin(Point(dx, dy), a, b, c);
    ReflectFixesMirror(Point(dx, dy), a, b, 0.0);
  }

  /** A glide whose offset runs along its mirror (a*dx + b*dy = 0), applied
      twice to an absolute point, is the translation by twice the offset. */
  lemma GlideTwice(p: Point, a: real, b: real, c: real, dx: real, dy: real)
    requires NormSq(a, b) > 0.0
    requires a * dx + b * dy == 0.0
    ensures ValidOp(Glide(Reflect(a, b, c), Translate(dx, dy)))
    ensures var g := Glide(Reflect(a, b, c), Translate(dx, dy));
      Apply(g, Apply(g, p, false), false) == Add(p, Point(2.0 * dx, 2.0 * dy))
  {
    var d := Point(dx, dy);
    var q := ReflectPoint(p, false, a, b, c);
    GlideMeaning(p, a, b, c, dx, dy);
    GlideMeaning(Add(q, d), a, b, c, dx, dy);
    // The shift along the mirror commutes with the reflection.
    ReflectSplit(q, d, false, a, b, c);
    ReflectKeepsDirection(dx, dy, a, b, c);
    ReflectTwice(p, a, b, c);
  }

  // ---------------------------------------------------------------------
  // Properties of every operator

  /** Helper: rotation of an absolute point splits over a sum. */
  lemma RotateSplitAbsolute(p: Point, q: Point, h: real, k: real, cos: real, sin: real)
    ensures RotatePoint(Add(p, q), false, h, k, cos, sin)
         == Add(RotatePoint(p, false, h, k, cos, sin), RotatePoint(q, false, 0.0, 0.0, cos, sin))
  {
    var s := Add(p, q);
    RotateDifference(p, q, h, k, cos, sin);
    RotateValue(q, 0.0, 0.0, cos, sin);
    TurnDifference(p.x, p.y, q.x, q.y, s.x, s.y, cos, sin);
  }

  /** Helper: rotation splits over a sum. */
  lemma RotateSplit(p: Point, q: Point, relative: bool, h: real, k: real, cos: real, sin: real)
    ensures RotatePoint(Add(p, q), relative, h, k, cos, sin)
         == Add(RotatePoint(p, relative, h, k, cos, sin), RotatePoint(q, true, h, k, cos, sin))
  {
    RotateRelativeAboutOrigin(q, h, k, cos, sin);
    if relative {
      RotateRelativeAboutOrigin(Add(p, q), h, k, cos, sin);
      RotateRelativeAboutOrigin(p, h, k, cos, sin);
      RotateSplitAbsolute(p, q, 0.0, 0.0, cos, sin);
    } else {
      RotateSplitAbsolute(p, q, h, k, cos, sin);
    }
  }

  /** Helper: the offset splits over a sum. */
  lemma OffsetSplit(p: Point, q: Point, a: real, b: real, c: real)
    ensures Offset(Add(p, q), a, b, c) == Offset(p, a, b, c) + Offset(q, a, b, 0.0)
  {
    var s := Add(p, q);
    OffsetValue(s, a, b, c);
    OffsetValue(p, a, b, c);
    OffsetValue(q, a, b, 0.0);
    MulAddLeft(a, p.x, q.x, s.x);
    MulAddLeft(b, p.y, q.y, s.y);
  }

  lemma ShiftSum(s: real, u: real, v: real, a: real, r: real, ru: real, rv: real)
    requires s == u + v && r == ru + rv
    ensures s - a * r == (u - a * ru) + (v - a * rv)
  {
    MulAddLeft(a, ru, rv, r);
  }

  /** A sum of two points, each moved along the normal (a, b). */
  lemma MovedSum(p: Point, q: Point, a: real, b: real, r: real, rp: real, rq: real)
    requires r == rp + rq
    ensures Moved(Add(p, q), a, b, r) == Add(Moved(p, a, b, rp), Moved(q, a, b, rq))
  {
    ShiftSum(Add(p, q).x, p.x, q.x, a, r, rp, rq);
    ShiftSum(Add(p, q).y, p.y, q.y, b, r, rp, rq);
  }

  /** Helper: reflection of an absolute point splits over a sum. */
  lemma ReflectSplitAbsolute(p: Point, q: Point, a: real, b: real, c: real)
    requires NormSq(a, b) > 0.0
    ensures ReflectPoint(Add(p, q), false, a, b, c)
         == Add(ReflectPoint(p, false, a, b, c), ReflectPoint(q, false, a, b, 0.0))
  {
    var ss := NormSq(a, b);
    var dp, dq, ds := Offset(p, a, b, c), Offset(q, a, b, 0.0), Offset(Add(p, q), a, b, c);
    OffsetSplit(p, q, a, b, c);
    RatioAdd(dp, dq, ds, ss);
    MovedSum(p, q, a, b, Ratio(ds, ss), Ratio(dp, ss), Ratio(dq, ss));
  }

  /** Helper: reflection splits over a sum. */
  lemma ReflectSplit(p: Point, q: Point, relative: bool, a: real, b: real, c: real)
    requires NormSq(a, b) > 0.0
    ensures ReflectPoint(Add(p, q), relative, a, b, c)
         == Add(ReflectPoint(p, relative, a, b, c), ReflectPoint(q, true, a, b, c))
  {
    ReflectRelativeThroughOrigin(q, a, b, c);
    if relative {
      ReflectRelativeThroughOrigin(Add(p, q), a, b, c);
      ReflectRelativeThroughOrigin(p, a, b, c);
      ReflectSplitAbsolute(p, q, a, b, 0.0);
    } else {
      ReflectSplitAbsolute(p, q, a, b, c);
    }
  }

  /** Every operator is affine, and its linear part is what it does to
      relative points: the image of p + q is the image of p plus the relative
      image of q. So a relative segment drawn from pen position p is mapped
      consistently with its absolute end point. */
  lemma {:induction false} AffineSplit(op: Op, p: Point, q: Point, relative: bool)
    requires ValidOp(op)
    ensures Apply(op, Add(p, q), relative) == Add(Apply(op, p, relative), Apply(op, q, true))
    decreases op
  {
    match op
    case Translate(dx, dy) =>
    case Rotate(h, k, cos, sin) =>
      RotateSplit(p, q, relative, h, k, cos, sin);
    case Reflect(a, b, c) =>
      ReflectSplit(p, q, relative, a, b, c);
    case Glide(mirror, shift) =>
      AffineSplit(mirror, p, q, relative);
      AffineSplit(shift, Apply(mirror, p, relative), Apply(mirror, q, true), relative);
  }

  /** Helper: a rotation of absolute points scales squared distances by
      n = cos^2 + sin^2. */
  lemma RotateScalesDistance(p: Point, q: Point, h: real, k: real, cos: real, sin: real, n: real)
    requires n == cos * cos + sin * sin
    ensures Dist2(RotatePoint(p, false, h, k, cos, sin), RotatePoint(q, false, h, k, cos, sin)) == Dist2(p, q) * n
  {
    RotateValue(p, h, k, cos, sin);
    RotateValue(q, h, k, cos, sin);
    TurnLength(p, q, RotatePoint(p, false, h, k, cos, sin), RotatePoint(q, false, h, k, cos, sin), cos, sin, n);
  }

  /** Helper: a rotation keeps squared distances between points. */
  lemma RotateKeepsDistance(p: Point, q: Point, relative: bool, h: real, k: real, cos: real, sin: real)
    requires cos * cos + sin * sin == 1.0
    ensures Dist2(RotatePoint(p, relative, h, k, cos, sin), RotatePoint(q, relative, h, k, cos, sin)) == Dist2(p, q)
  {
    if relative {
      RotateRelativeAboutOrigin(p, h, k, cos, sin);
      RotateRelativeAboutOrigin(q, h, k, cos, sin);
      RotateScalesDistance(p, q, 0.0, 0.0, cos, sin, 1.0);
    } else {
      RotateScalesDistance(p, q, h, k, cos, sin, 1.0);
    }
  }

  /** Helper: a reflection through the origin keeps squared lengths. */
  lemma MirrorKeepsLength(e: Point, a: real, b: real)
    requires NormSq(a, b) > 0.0
    ensures ReflectPoint(e, false, a, b, 0.0).x * ReflectPoint(e, false, a, b, 0.0).x
          + ReflectPoint(e, false, a, b, 0.0).y * ReflectPoint(e, false, a, b, 0.0).y
         == e.x * e.x + e.y * e.y
  {
    var m := ReflectPoint(e, false, a, b, 0.0);
    var d := Offset(e, a, b, 0.0);
    var r := Ratio(d, NormSq(a, b));
    ReflectValue(e, a, b, 0.0);
    OffsetValue(e, a, b, 0.0);
    NormSqValue(a, b);
    MirrorLength(e.x, e.y, a, b, r, m.x, m.y, NormSq(a, b), d);
    RatioScaled(d, NormSq(a, b));
    MulZero(r, NormSq(a, b) * r - 2.0 * d);
  }

  /** Helper: a reflection keeps squared distances between points. */
  lemma ReflectKeepsDistance(p: Point, q: Point, relative: bool, a: real, b: real, c: real)
    requires NormSq(a, b) > 0.0
    ensures Dist2(ReflectPoint(p, relative, a, b, c), ReflectPoint(q, relative, a, b, c)) == Dist2(p, q)
  {
    var e := Point(p.x - q.x, p.y - q.y);
    assert p == Add(q, e);
    var rp, rq := ReflectPoint(p, relative, a, b, c), ReflectPoint(q, relative, a, b, c);
    ReflectSplit(q, e, relative, a, b, c);
    ReflectRelativeThroughOrigin(e, a, b, c);
    MirrorKeepsLength(e, a, b);
    DifferenceLength(rp, rq, ReflectPoint(e, false, a, b, 0.0));
    DifferenceLength(p, q, e);
  }

  /** Every operator whose rotations are true rotations is an isometry: it
      keeps the distance between any two points of the same kind. */
  lemma {:induction false} Isometry(op: Op, p: Point, q: Point, relative: bool)
    requires ValidOp(op) && UnitRotations(op)
    ensures Dist2(Apply(op, p, relative), Apply(op, q, relative)) == Dist2(p, q)
    decreases op
  {
    match op
    case Translate(dx, dy) =>
    case Rotate(h, k, cos, sin) =>
      RotateKeepsDistance(p, q, relative, h, k, cos, sin);
    case Reflect(a, b, c) =>
      ReflectKeepsDistance(p, q, relative, a, b, c);
    case Glide(mirror, shift) =>
      Isometry(mirror, p, q, relative);
      Isometry(shift, Apply(mirror, p, relative), Apply(mirror, q, relative), relative);
  }

  /** A half-turn or a reflection undoes itself: the operators of the
      catalog's rotation and mirror groups are involutions. */
  lemma SelfInverse(op: Op, p: Point, relative: bool)
    requires ValidOp(op)
    requires op.Reflect? || (op.Rotate? && op.cos == -1.0 && op.sin == 0.0)
    ensures Apply(op, Apply(op, p, relative), relative) == p
  {
    match op
    case Rotate(h, k, _, _) =>
      HalfTurnInvolution(p, h, k, relative);
    case Reflect(a, b, c) =>
      ReflectInvolution(p, a, b, c, relative);
  }

  // ---------------------------------------------------------------------
  // Compositions

  /** Two half-turns, about (h1, k1) and then about (h2, k2), make the
      translation by twice the step from the first centre to the second; a
      relative point, turned about the origin twice, comes back. */
  lemma HalfTurnsCompose(p: Point, h1: real, k1: real, h2: real, k2: real)
    ensures RotatePoint(RotatePoint(p, false, h1, k1, -1.0, 0.0), false, h2, k2, -1.0, 0.0)
         == Add(p, Point(2.0 * (h2 - h1), 2.0 * (k2 - k1)))
    ensures RotatePoint(RotatePoint(p, true, h1, k1, -1.0, 0.0), true, h2, k2, -1.0, 0.0) == p
  {
    HalfTurnFormula(p, h1, k1);
    HalfTurnFormula(RotatePoint(p, false, h1, k1, -1.0, 0.0), h2, k2);
    HalfTurnFormula(RotatePoint(p, true, h1, k1, -1.0, 0.0), h2, k2);
  }

  /** A glide applied twice to an absolute point is the translation by its
      offset plus the mirror image of its offset. */
  lemma GlideSquare(p: Point, a: real, b: real, c: real, dx: real, dy: real)
    requires NormSq(a, b) > 0.0
    ensures ValidOp(Glide(Reflect(a, b, c), Translate(dx, dy)))
    ensures Apply(Glide(Reflect(a, b, c), Translate(dx, dy)), Apply(Glide(Reflect(a, b, c), Translate(dx, dy)), p, false), false)
         == Add(p, Add(Point(dx, dy), ReflectPoint(Point(dx, dy), true, a, b, c)))
  {
    var d := Point(dx, dy);
    var q := ReflectPoint(p, false, a, b, c);
    GlideMeaning(p, a, b, c, dx, dy);
    GlideMeaning(Add(q, d), a, b, c, dx, dy);
    ReflectSplit(q, d, false, a, b, c);
    ReflectTwice(p, a, b, c);
  }

  /** Helper: two moves along the same normal add up. */
  lemma MovedTwice(p: Point, a: real, b: real, r1: real, r2: real, r: real)
    requires r == r1 + r2
    ensures Moved(Moved(p, a, b, r1), a, b, r2) == Moved(p, a, b, r)
  {
    MulAddLeft(a, r1, r2, r);
    MulAddLeft(b, r1, r2, r);
    SubTwice(p.x, a * r1, a * r2, a * r);
    SubTwice(p.y, b * r1, b * r2, b * r);
  }

  /** Helper: taking away two amounts is taking away their sum. */
  lemma SubTwice(x: real, s1: real, s2: real, s: real)
    requires s == s1 + s2
    ensures (x - s1) - s2 == x - s
  {
  }

  /** Helper: moving the mirror changes a point's offset by the change in c. */
  lemma OffsetShift(p: Point, a: real, b: real, c1: real, c2: real)
    ensures Offset(p, a, b, c2) == Offset(p, a, b, c1) + (c2 - c1)
  {
    OffsetValue(p, a, b, c1);
    OffsetValue(p, a, b, c2);
  }

  /** Reflections in two parallel mirrors, a*x + b*y + c1 = 0 and then
      a*x + b*y + c2 = 0, make a translation along their common normal; a
      relative point is mirrored twice in the same line through the origin,
      and comes back. */
  lemma ParallelMirrors(p: Point, a: real, b: real, c1: real, c2: real)
    requires NormSq(a, b) > 0.0
    ensures ReflectPoint(ReflectPoint(p, false, a, b, c1), false, a, b, c2)
         == Moved(p, a, b, Ratio(c2 - c1, NormSq(a, b)))
    ensures ReflectPoint(ReflectPoint(p, true, a, b, c1), true, a, b, c2) == p
  {
    ReflectRelativeThroughOrigin(p, a, b, c1);
    ReflectRelativeThroughOrigin(ReflectPoint(p, true, a, b, c1), a, b, c2);
    ReflectTwice(p, a, b, 0.0);
    var q := ReflectPoint(p, false, a, b, c1);
    var d1, d2 := Offset(p, a, b, c1), Offset(q, a, b, c2);
    ReflectNegatesOffset(p, a, b, c1);
    OffsetShift(q, a, b, c1, c2);
    RatioAdd(d1, d2, c2 - c1, NormSq(a, b));
    MovedTwice(p, a, b, Ratio(d1, NormSq(a, b)), Ratio(d2, NormSq(a, b)), Ratio(c2 - c1, NormSq(a, b)));
  }
}
