/** The segment of src/features/Placement/src/line.ts: construction, length,
    comparison by length, the segment-crossing test and selection by length.

    `length` is `Math.sqrt(dx² + dy²)`. Square roots are not modelled: the
    model measures a line by its squared length. Since the square root is
    strictly increasing on non-negative numbers, comparing squared lengths
    answers every `*ByLength` comparison exactly as comparing lengths does. */
module Lines {
  import opened Wrappers
  import opened Common
  import opened Vectors

  datatype Line = Line(v1: Vector, v2: Vector)

  /** `new Line(v1, v2)`: both endpoints go through `new Vector`, so a number
      endpoint lands on both axes. */
  function NewLine(v1: Operand, v2: Operand): Line
  {
    Line(FromOperand(v1), FromOperand(v2))
  }

  lemma NewLineBroadcasts(n: real, m: real, v: Vector)
    ensures NewLine(Num(n), Vec(v)) == Line(Vector(n, n), v)
    ensures NewLine(Vec(v), Num(m)) == Line(v, Vector(m, m))
  {
  }

  // ---------------------- REAL ARITHMETIC HELPERS ----------------------

  lemma ProductPositive(a: real, b: real, s: real)
    requires a > 0.0 && b > 0.0 && s == a * b
    ensures s > 0.0
  {
  }

  lemma MulBoth(x: real, y: real, z: real)
    requires x == y
    ensures x * z == y * z
  {
  }

  lemma Cancel(x: real, y: real, d: real)
    requires d != 0.0 && x * d == y * d
    ensures x == y
  {
    assert (x - y) * d == 0.0;
  }

  lemma DivideOut(x: real, d: real, n: real)
    requires d != 0.0 && x * d == n
    ensures x == n / d
  {
  }

  lemma TimesQuotient(d: real, n: real)
    requires d != 0.0
    ensures (n / d) * d == n
  {
  }

  function Sq(p: real): real { p * p }

  /** A square is never negative and is 0 only for 0. */
  lemma SqSign(p: real)
    ensures Sq(p) >= 0.0
    ensures Sq(p) == 0.0 <==> p == 0.0
    ensures Sq(-p) == Sq(p)
  {
    if p < 0.0 {
      ProductPositive(-p, -p, Sq(p));
    } else if p > 0.0 {
      ProductPositive(p, p, Sq(p));
    }
  }

  // ---------------------- LENGTH ----------------------

  /** `length * length`, that is `dx² + dy²`. */
  function SquaredLength(l: Line): real
  {
    Sq(l.v2.x - l.v1.x) + Sq(l.v2.y - l.v1.y)
  }

  /** The length is never negative, is 0 exactly for a line whose endpoints
      coincide, and does not depend on the direction of the line. */
  lemma LengthProperties(l: Line)
    ensures SquaredLength(l) >= 0.0
    ensures SquaredLength(l) == 0.0 <==> l.v1 == l.v2
    ensures SquaredLength(Line(l.v2, l.v1)) == SquaredLength(l)
  {
    SqSign(l.v2.x - l.v1.x);
    SqSign(l.v2.y - l.v1.y);
    assert l.v1.x - l.v2.x == -(l.v2.x - l.v1.x);
    assert l.v1.y - l.v2.y == -(l.v2.y - l.v1.y);
  }

  /** The 3-4-5 triangle: the line from (0, 0) to (3, 4) has length 5. */
  lemma LengthExample()
    ensures SquaredLength(Line(Vector(0.0, 0.0), Vector(3.0, 4.0))) == 5.0 * 5.0
  {
  }

  // ---------------------- COMPARISON ----------------------

  predicate EqByLength(a: Line, b: Line) { EqBy(a, b, SquaredLength) }
  predicate LtByLength(a: Line, b: Line) { LtBy(a, b, SquaredLength) }
  predicate GtByLength(a: Line, b: Line) { GtBy(a, b, SquaredLength) }
  predicate LeByLength(a: Line, b: Line) { LeBy(a, b, SquaredLength) }
  predicate GeByLength(a: Line, b: Line) { GeBy(a, b, SquaredLength) }

  /** `leByLength` is `ltByLength || eqByLength`, `geByLength` is
      `gtByLength || eqByLength`, and exactly one of lt, eq, gt holds. */
  lemma LengthComparisons(a: Line, b: Line)
    ensures LeByLength(a, b) <==> LtByLength(a, b) || EqByLength(a, b)
    ensures GeByLength(a, b) <==> GtByLength(a, b) || EqByLength(a, b)
    ensures LeByLength(a, b) <==> !GtByLength(a, b)
    ensures GeByLength(a, b) <==> !LtByLength(a, b)
    ensures LtByLength(a, b) <==> GtByLength(b, a)
  {
    Trichotomy(a, b, SquaredLength);
  }

  // ---------------------- CROSSING ----------------------

  /** The determinant of the two direction vectors. */
  function Det(a: Line, b: Line): real
  {
    (a.v2.x - a.v1.x) * (b.v2.y - b.v1.y) - (b.v2.x - b.v1.x) * (a.v2.y - a.v1.y)
  }

  /** The numerator of `lambda`, the parameter along `a`. */
  function LambdaNum(a: Line, b: Line): real
  {
    (b.v2.y - b.v1.y) * (b.v2.x - a.v1.x) + (b.v1.x - b.v2.x) * (b.v2.y - a.v1.y)
  }

  /** The numerator of `gamma`, the parameter along `b` measured from `b.v2`. */
  function GammaNum(a: Line, b: Line): real
  {
    (a.v1.y - a.v2.y) * (b.v2.x - a.v1.x) + (a.v2.x - a.v1.x) * (b.v2.y - a.v1.y)
  }

  /** `crossByLine`: no crossing when the determinant is 0; otherwise both
      parameters of the intersection must lie strictly between 0 and 1. */
  predicate CrossByLine(a: Line, b: Line)
  {
    var det := Det(a, b);
    if det == 0.0 then false
    else
      var lambda := LambdaNum(a, b) / det;
      var gamma := GammaNum(a, b) / det;
      (0.0 < lambda && lambda < 1.0) && (0.0 < gamma && gamma < 1.0)
  }

  /** The point a fraction `t` of the way from `l.v1` to `l.v2`. */
  function PointAt(l: Line, t: real): Vector
  {
    Vector(l.v1.x + t * (l.v2.x - l.v1.x), l.v1.y + t * (l.v2.y - l.v1.y))
  }

  /** The two segments meet at a point strictly inside both of them. */
  ghost predicate MeetInside(a: Line, b: Line)
  {
    exists s, t :: 0.0 < s < 1.0 && 0.0 < t < 1.0 && PointAt(a, s) == PointAt(b, t)
  }

  /** Cramer's rule for `s·da + g·db == w`, solved for `s` and `g`. */
  lemma CramerSolves(dax: real, day: real, dbx: real, dby: real, wx: real, wy: real, d: real, s: real, g: real)
    requires d == dax * dby - dbx * day && d != 0.0
    requires s * d == dby * wx - dbx * wy
    requires g * d == dax * wy - day * wx
    ensures s * dax + g * dbx == wx
    ensures s * day + g * dby == wy
  {
    MulBoth(s * d, dby * wx - dbx * wy, dax);
    MulBoth(g * d, dax * wy - day * wx, dbx);
    MulBoth(d, dax * dby - dbx * day, wx);
    assert (s * dax + g * dbx) * d == wx * d;
    Cancel(s * dax + g * dbx, wx, d);
    MulBoth(s * d, dby * wx - dbx * wy, day);
    MulBoth(g * d, dax * wy - day * wx, dby);
    MulBoth(d, dax * dby - dbx * day, wy);
    assert (s * day + g * dby) * d == wy * d;
    Cancel(s * day + g * dby, wy, d);
  }

  /** Any solution of `s·da + g·db == w` satisfies Cramer's equations. */
  lemma CramerNecessary(dax: real, day: real, dbx: real, dby: real, wx: real, wy: real, d: real, s: real, g: real)
    requires d == dax * dby - dbx * day
    requires s * dax + g * dbx == wx
    requires s * day + g * dby == wy
    ensures s * d == dby * wx - dbx * wy
    ensures g * d == dax * wy - day * wx
  {
    MulBoth(s * dax + g * dbx, wx, dby);
    MulBoth(s * day + g * dby, wy, dbx);
    MulBoth(d, dax * dby - dbx * day, s);
    MulBoth(s * dax + g * dbx, wx, day);
    MulBoth(s * day + g * dby, wy, dax);
    MulBoth(d, dax * dby - dbx * day, g);
  }

  /** The parameters of any meeting point of the two lines satisfy
      `s·det == lambda numerator` and `(1 - t)·det == gamma numerator`. */
  lemma MeetingParameters(a: Line, b: Line, s: real, t: real)
    requires PointAt(a, s) == PointAt(b, t)
    ensures s * Det(a, b) == LambdaNum(a, b)
    ensures (1.0 - t) * Det(a, b) == GammaNum(a, b)
  {
    var dax, day := a.v2.x - a.v1.x, a.v2.y - a.v1.y;
    var dbx, dby := b.v2.x - b.v1.x, b.v2.y - b.v1.y;
    var wx, wy := b.v2.x - a.v1.x, b.v2.y - a.v1.y;
    CramerNecessary(dax, day, dbx, dby, wx, wy, Det(a, b), s, 1.0 - t);
  }

  /** With a non-zero determinant, `lambda` along `a` and `1 - gamma` along
      `b` name the same point. */
  lemma CrossingPoint(a: Line, b: Line)
    requires Det(a, b) != 0.0
    ensures PointAt(a, LambdaNum(a, b) / Det(a, b)) == PointAt(b, 1.0 - GammaNum(a, b) / Det(a, b))
  {
    var det := Det(a, b);
    var s, g := LambdaNum(a, b) / det, GammaNum(a, b) / det;
    var dax, day := a.v2.x - a.v1.x, a.v2.y - a.v1.y;
    var dbx, dby := b.v2.x - b.v1.x, b.v2.y - b.v1.y;
    var wx, wy := b.v2.x - a.v1.x, b.v2.y - a.v1.y;
    NegatedFactor(dbx, wy);
    NegatedFactor(day, wx);
    assert LambdaNum(a, b) == dby * wx - dbx * wy;
    assert GammaNum(a, b) == dax * wy - day * wx;
    TimesQuotient(det, LambdaNum(a, b));
    TimesQuotient(det, GammaNum(a, b));
    CramerSolves(dax, day, dbx, dby, wx, wy, det, s, g);
    SameComponent(a.v1.x, dax, b.v1.x, dbx, s, g);
    SameComponent(a.v1.y, day, b.v1.y, dby, s, g);
    assert PointAt(a, s) == Vector(a.v1.x + s * dax, a.v1.y + s * day);
    assert PointAt(b, 1.0 - g) == Vector(b.v1.x + (1.0 - g) * dbx, b.v1.y + (1.0 - g) * dby);
  }

  lemma NegatedFactor(x: real, y: real)
    ensures (-x) * y == -(x * y)
  {
  }

  lemma SameComponent(a1: real, da: real, b1: real, db: real, s: real, g: real)
    requires s * da + g * db == (b1 + db) - a1
    ensures a1 + s * da == b1 + (1.0 - g) * db
  {
    assert (1.0 - g) * db == db - g * db;
  }

  /** `crossByLine` holds exactly when the determinant is not 0 and the two
      segments meet at a point strictly inside both: a touch at an endpoint
      is not a crossing. */
  lemma CrossByLineMeansMeetInside(a: Line, b: Line)
    ensures CrossByLine(a, b) <==> Det(a, b) != 0.0 && MeetInside(a, b)
  {
    var det := Det(a, b);
    if det != 0.0 {
      var s, g := LambdaNum(a, b) / det, GammaNum(a, b) / det;
      if CrossByLine(a, b) {
        CrossingPoint(a, b);
        assert 0.0 < 1.0 - g < 1.0;
      }
      if MeetInside(a, b) {
        var s', t' :| 0.0 < s' < 1.0 && 0.0 < t' < 1.0 && PointAt(a, s') == PointAt(b, t');
        MeetingParameters(a, b, s', t');
        DivideOut(s', det, LambdaNum(a, b));
        DivideOut(1.0 - t', det, GammaNum(a, b));
      }
    }
  }

  /** Parallel, collinear and zero-length segments never cross. */
  lemma ZeroDeterminantNeverCrosses(a: Line, b: Line)
    requires Det(a, b) == 0.0 || a.v1 == a.v2 || b.v1 == b.v2
    ensures !CrossByLine(a, b)
  {
    var dax, day := a.v2.x - a.v1.x, a.v2.y - a.v1.y;
    var dbx, dby := b.v2.x - b.v1.x, b.v2.y - b.v1.y;
    if a.v1 == a.v2 {
      MulBoth(dax, 0.0, dby);
      MulBoth(day, 0.0, dbx);
    } else if b.v1 == b.v2 {
      MulBoth(dby, 0.0, dax);
      MulBoth(dbx, 0.0, day);
    }
  }

  /** Crossing does not depend on the order of the two segments. */
  lemma CrossByLineSymmetric(a: Line, b: Line)
    ensures CrossByLine(a, b) <==> CrossByLine(b, a)
  {
    CrossByLineMeansMeetInside(a, b);
    CrossByLineMeansMeetInside(b, a);
    assert Det(b, a) == -Det(a, b);
    if MeetInside(a, b) {
      var s, t :| 0.0 < s < 1.0 && 0.0 < t < 1.0 && PointAt(a, s) == PointAt(b, t);
      assert PointAt(b, t) == PointAt(a, s);
    }
    if MeetInside(b, a) {
      var s, t :| 0.0 < s < 1.0 && 0.0 < t < 1.0 && PointAt(b, s) == PointAt(a, t);
      assert PointAt(a, t) == PointAt(b, s);
    }
  }

  /** Segments that share an endpoint do not cross. */
  lemma SharedEndpointNeverCrosses(a: Line, b: Line)
    requires a.v1 == b.v1 || a.v1 == b.v2 || a.v2 == b.v1 || a.v2 == b.v2
    ensures !CrossByLine(a, b)
  {
    CrossByLineMeansMeetInside(a, b);
    var det := Det(a, b);
    if det != 0.0 && MeetInside(a, b) {
      var s, t :| 0.0 < s < 1.0 && 0.0 < t < 1.0 && PointAt(a, s) == PointAt(b, t);
      MeetingParameters(a, b, s, t);
      var s', t' := if a.v1 == b.v1 || a.v1 == b.v2 then 0.0 else 1.0,
                    if a.v1 == b.v1 || a.v2 == b.v1 then 0.0 else 1.0;
      assert PointAt(a, s') == PointAt(b, t');
      MeetingParameters(a, b, s', t');
      Cancel(s, s', det);
    }
  }

  /** The three examples of the design notes: the diagonals of a square
      cross, parallel lines do not, and an endpoint touch does not. */
  lemma CrossByLineExamples()
    ensures CrossByLine(Line(Vector(0.0, 0.0), Vector(4.0, 4.0)), Line(Vector(0.0, 4.0), Vector(4.0, 0.0)))
    ensures !CrossByLine(Line(Vector(0.0, 0.0), Vector(4.0, 0.0)), Line(Vector(0.0, 1.0), Vector(4.0, 1.0)))
    ensures !CrossByLine(Line(Vector(0.0, 0.0), Vector(2.0, 0.0)), Line(Vector(2.0, 0.0), Vector(2.0, 2.0)))
  {
  }

  // ---------------------- SELECTION ----------------------

  /** `maxByLength` */
  function MaxByLength(items: seq<Line>): Option<Line> { SelectBy(items, GtByLength) }

  /** `minByLength` */
  function MinByLength(items: seq<Line>): Option<Line> { SelectBy(items, LtByLength) }

  /** `maxByLength` is null exactly for no lines, and otherwise the first
      line that no other line is longer than. */
  lemma MaxByLengthIsFirstLongest(items: seq<Line>)
    ensures MaxByLength(items).None? <==> |items| == 0
    ensures |items| > 0 ==> exists k :: (0 <= k < |items| && MaxByLength(items) == Some(items[k])
      && (forall j :: 0 <= j < |items| ==> SquaredLength(items[j]) <= SquaredLength(items[k]))
      && (forall j :: 0 <= j < k ==> SquaredLength(items[j]) < SquaredLength(items[k])))
  {
    if |items| > 0 {
      assert StrictWeakOrder(GtByLength);
      SelectByIsFirstExtreme(items, GtByLength);
    }
  }

  /** `minByLength` is null exactly for no lines, and otherwise the first
      line that no other line is shorter than. */
  lemma MinByLengthIsFirstShortest(items: seq<Line>)
    ensures MinByLength(items).None? <==> |items| == 0
    ensures |items| > 0 ==> exists k :: (0 <= k < |items| && MinByLength(items) == Some(items[k])
      && (forall j :: 0 <= j < |items| ==> SquaredLength(items[k]) <= SquaredLength(items[j]))
      && (forall j :: 0 <= j < k ==> SquaredLength(items[k]) < SquaredLength(items[j])))
  {
    if |items| > 0 {
      assert StrictWeakOrder(LtByLength);
      SelectByIsFirstExtreme(items, LtByLength);
    }
  }
}
