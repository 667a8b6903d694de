/** The axis-aligned rectangle of src/features/Placement/square.ts: two
    corners, the derived width, height and size, containment tests, the 3×3
    grid of anchor points, the bounding box of several rectangles and the
    lines through a rectangle. */
module Squares {
  import opened Wrappers
  import opened Common
  import opened Vectors
  import opened Lines

  /** A rectangle given by two opposite corners. Nothing forces `v1` to be
      the smaller corner. */
  datatype Square = Square(v1: Vector, v2: Vector)

  /** `new Square(v1, v2_or_width, height?)` as written: the width/height
      form is chosen only when `height` is truthy, so a height of 0 falls
      into the two-corner form. The overloads only admit a number width
      together with a height. */
  function NewSquare(first: Operand, second: Operand, height: Option<real>): Square
    requires height.Some? ==> second.Num?
  {
    var v1 := FromOperand(first);
    if height.Some? && height.value != 0.0 then Square(v1, Vector(v1.x + second.n, v1.y + height.value))
    else Square(v1, FromOperand(second))
  }

  /** The constructor as its overloads describe it: whenever a height is
      given, the second corner is `v1 + (width, height)`. */
  function NewSquareIntended(first: Operand, second: Operand, height: Option<real>): Square
    requires height.Some? ==> second.Num?
  {
    var v1 := FromOperand(first);
    if height.Some? then Square(v1, Vector(v1.x + second.n, v1.y + height.value))
    else Square(v1, FromOperand(second))
  }

  function Abs(r: real): real { if r < 0.0 then -r else r }

  /** `width` */
  function Width(s: Square): real { Abs(s.v1.x - s.v2.x) }

  /** `height` */
  function Height(s: Square): real { Abs(s.v1.y - s.v2.y) }

  /** `size` */
  function Size(s: Square): Vector { Vector(Width(s), Height(s)) }

  /** The start corner is the smaller one on both axes. */
  predicate Normalized(s: Square) { s.v1.x <= s.v2.x && s.v1.y <= s.v2.y }

  /** The two-corner form keeps both corners, a number corner going to both
      axes; the width/height form with a non-zero height puts the second
      corner at `v1 + (width, height)`. */
  lemma NewSquareForms(first: Operand, second: Operand, w: real, h: real)
    ensures NewSquare(first, second, None) == Square(FromOperand(first), FromOperand(second))
    ensures NewSquare(first, Num(w), None).v2 == Vector(w, w)
    ensures h != 0.0 ==> NewSquare(first, Num(w), Some(h)).v2 == Vector(FromOperand(first).x + w, FromOperand(first).y + h)
    ensures h != 0.0 ==> Size(NewSquare(first, Num(w), Some(h))) == Vector(Abs(w), Abs(h))
  {
  }

  /** As written, a height of 0 discards the width: `new Square(v, 5, 0)`
      spans from (1, 1) to (5, 5) instead of being the flat rectangle from
      (1, 1) to (6, 1). */
  lemma ZeroHeightDropsWidth()
    ensures NewSquare(Vec(Vector(1.0, 1.0)), Num(5.0), Some(0.0)) == Square(Vector(1.0, 1.0), Vector(5.0, 5.0))
    ensures NewSquareIntended(Vec(Vector(1.0, 1.0)), Num(5.0), Some(0.0)) == Square(Vector(1.0, 1.0), Vector(6.0, 1.0))
  {
  }

  /** With the intended constructor, the size of a rectangle built from a
      width and a height is exactly their absolute values, 0 included, and
      the result agrees with the written one whenever the height is not 0. */
  lemma NewSquareIntendedSize(first: Operand, w: real, h: real)
    ensures Size(NewSquareIntended(first, Num(w), Some(h))) == Vector(Abs(w), Abs(h))
    ensures NewSquareIntended(first, Num(w), Some(h)).v1 == FromOperand(first)
    ensures h != 0.0 ==> NewSquareIntended(first, Num(w), Some(h)) == NewSquare(first, Num(w), Some(h))
  {
    var s := NewSquareIntended(first, Num(w), Some(h));
    assert s.v1.x - s.v2.x == -w && s.v1.y - s.v2.y == -h;
  }

  /** `width` and `height` are never negative, do not depend on which corner
      comes first, and are the plain differences for a normalised rectangle. */
  lemma DimensionsProperties(s: Square)
    ensures Width(s) >= 0.0 && Height(s) >= 0.0
    ensures Width(Square(s.v2, s.v1)) == Width(s) && Height(Square(s.v2, s.v1)) == Height(s)
    ensures Size(s) == Vector(Width(s), Height(s))
    ensures s.v1.x <= s.v2.x ==> Width(s) == s.v2.x - s.v1.x
    ensures s.v1.y <= s.v2.y ==> Height(s) == s.v2.y - s.v1.y
  {
  }

  // ---------------------- COMPARISON ----------------------

  /** `pointInSquare`: the closed test `v1 <= p <= v2` on both axes. */
  predicate PointInSquare(a: Square, p: Vector)
  {
    a.v1.x <= p.x && p.x <= a.v2.x && a.v1.y <= p.y && p.y <= a.v2.y
  }

  /** A rectangle whose start corner is beyond its end corner on some axis
      contains no point at all; a normalised one contains both its corners. */
  lemma PointInSquareNeedsOrder(a: Square, p: Vector)
    ensures PointInSquare(a, p) ==> Normalized(a)
    ensures Normalized(a) ==> PointInSquare(a, a.v1) && PointInSquare(a, a.v2)
  {
  }

  /** `inSquare`: every corner of `b` is in `a`. */
  predicate InSquare(a: Square, b: Square)
  {
    var corners := SquareCornerPoints(b);
    forall i :: 0 <= i < |corners| ==> PointInSquare(a, corners[i])
  }

  /** `outSquare`: no corner of `b` is in `a`. */
  predicate OutSquare(a: Square, b: Square)
  {
    var corners := SquareCornerPoints(b);
    forall i :: 0 <= i < |corners| ==> !PointInSquare(a, corners[i])
  }

  /** `crossSquare` */
  predicate CrossSquare(a: Square, b: Square)
  {
    !InSquare(a, b) && !OutSquare(a, b)
  }

  /** Exactly one of `inSquare`, `outSquare` and `crossSquare` holds, since
      there is always at least one corner. */
  lemma ExactlyOneRelation(a: Square, b: Square)
    ensures InSquare(a, b) || OutSquare(a, b) || CrossSquare(a, b)
    ensures !(InSquare(a, b) && OutSquare(a, b))
    ensures !(InSquare(a, b) && CrossSquare(a, b))
    ensures !(OutSquare(a, b) && CrossSquare(a, b))
  {
    var corners := SquareCornerPoints(b);
    assert PointInSquare(a, corners[0]) || !PointInSquare(a, corners[0]);
  }

  /** Containment examples: a small rectangle inside a large one, one far
      away, and one straddling the large one's corner. */
  lemma ContainmentExamples()
    ensures InSquare(NewSquare(Num(0.0), Num(10.0), Some(10.0)), NewSquare(Num(2.0), Num(1.0), Some(1.0)))
    ensures OutSquare(NewSquare(Num(0.0), Num(10.0), Some(10.0)), NewSquare(Num(20.0), Num(1.0), Some(1.0)))
    ensures CrossSquare(NewSquare(Num(0.0), Num(10.0), Some(10.0)), NewSquare(Num(9.0), Num(2.0), Some(2.0)))
  {
    var big := NewSquare(Num(0.0), Num(10.0), Some(10.0));
    var far := NewSquare(Num(20.0), Num(1.0), Some(1.0));
    var edge := NewSquare(Num(9.0), Num(2.0), Some(2.0));
    assert SquareCornerPoints(edge)[0] == Vector(9.0, 9.0);
    assert SquareCornerPoints(edge)[3] == Vector(11.0, 11.0);
    assert PointInSquare(big, SquareCornerPoints(edge)[0]);
    assert !PointInSquare(big, SquareCornerPoints(edge)[3]);
  }

  /** Only corners are tested: two bars crossing like a plus sign share the
      point (5, 5), yet neither has a corner inside the other. */
  lemma PlusShapeCountsAsOut()
    ensures var a, b := Square(Vector(0.0, 4.0), Vector(10.0, 6.0)), Square(Vector(4.0, 0.0), Vector(6.0, 10.0));
      && PointInSquare(a, Vector(5.0, 5.0)) && PointInSquare(b, Vector(5.0, 5.0))
      && OutSquare(a, b) && OutSquare(b, a)
  {
  }

  // ---------------------- SELECTION ----------------------

  /** `LineVector`: where on an axis an anchor sits. */
  datatype Anchor = Start | Center | End

  /** `LineVectorHandler[anchor](pos, length)` */
  function AnchorAt(anchor: Anchor, pos: real, length: real): real
  {
    match anchor
    case Start => pos
    case Center => pos + length / 2.0
    case End => pos + length
  }

  /** `bySquarePoint` */
  function BySquarePoint(item: Square, x: Anchor, y: Anchor): Vector
  {
    Vector(AnchorAt(x, item.v1.x, Width(item)), AnchorAt(y, item.v1.y, Height(item)))
  }

  /** Start is `v1`, end is `v1 + size` and center is half-way between them;
      the end anchor lands on `v2` on an axis exactly when `v1 <= v2` there. */
  lemma BySquarePointAnchors(item: Square)
    ensures BySquarePoint(item, Start, Start) == item.v1
    ensures BySquarePoint(item, End, End) == Vector(item.v1.x + Size(item).x, item.v1.y + Size(item).y)
    ensures var c, e := BySquarePoint(item, Center, Center), BySquarePoint(item, End, End);
      c == Vector((item.v1.x + e.x) / 2.0, (item.v1.y + e.y) / 2.0)
    ensures BySquarePoint(item, End, End).x == item.v2.x <==> item.v1.x <= item.v2.x
    ensures BySquarePoint(item, End, End).y == item.v2.y <==> item.v1.y <= item.v2.y
    ensures BySquarePoint(item, End, End) == item.v2 <==> Normalized(item)
  {
  }

  /** The anchors of the rectangle from (0, 0) to (10, 20). */
  lemma BySquarePointExamples()
    ensures BySquarePoint(Square(Vector(0.0, 0.0), Vector(10.0, 20.0)), Center, Center) == Vector(5.0, 10.0)
    ensures BySquarePoint(Square(Vector(0.0, 0.0), Vector(10.0, 20.0)), End, Start) == Vector(10.0, 0.0)
  {
  }

  /** `items.map((item) => bySquarePoint(item, x, y))` */
  function AnchorPoints(items: seq<Square>, x: Anchor, y: Anchor): (r: seq<Vector>)
    ensures |r| == |items|
    ensures forall i :: 0 <= i < |items| ==> r[i] == BySquarePoint(items[i], x, y)
  {
    seq(|items|, i requires 0 <= i < |items| => BySquarePoint(items[i], x, y))
  }

  /** `outline`: null for no rectangles, otherwise the rectangle from the
      per-axis minimum of the start corners to the per-axis maximum of the
      end corners. */
  function Outline(items: seq<Square>): Option<Square>
  {
    if |items| == 0 then None
    else
      var endCorner := MaxByXY(AnchorPoints(items, End, End)).value;
      var startCorner := MinByXY(AnchorPoints(items, Start, Start)).value;
      Some(NewSquare(Vec(startCorner), Vec(endCorner), None))
  }

  /** The outline is null exactly for no rectangles. Otherwise it is
      normalised, contains every rectangle, and is the smallest such box:
      each of its sides touches some rectangle. */
  lemma OutlineContainsAll(items: seq<Square>)
    ensures Outline(items).None? <==> |items| == 0
    ensures Outline(items).Some? ==>
      var o := Outline(items).value;
      && Normalized(o)
      && (forall i :: 0 <= i < |items| ==> InSquare(o, items[i]))
      && IsLowerCorner(AnchorPoints(items, Start, Start), o.v1)
      && IsUpperCorner(AnchorPoints(items, End, End), o.v2)
  {
    if |items| > 0 {
      var starts, ends := AnchorPoints(items, Start, Start), AnchorPoints(items, End, End);
      MinByXYIsLowerCorner(starts);
      MaxByXYIsUpperCorner(ends);
      var o := Outline(items).value;
      assert o == Square(MinByXY(starts).value, MaxByXY(ends).value);
      forall i | 0 <= i < |items|
        ensures InSquare(o, items[i])
      {
        var b := items[i];
        assert starts[i] == b.v1;
        assert ends[i] == Vector(b.v1.x + Width(b), b.v1.y + Height(b));
        var corners := SquareCornerPoints(b);
        forall k | 0 <= k < |corners|
          ensures PointInSquare(o, corners[k])
        {
        }
      }
      assert starts[0].x <= ends[0].x && starts[0].y <= ends[0].y;
    }
  }

  /** The bounding box of (0, 0)-(2, 2) and (3, 3)-(5, 5) is (0, 0)-(5, 5). */
  lemma OutlineExample()
    ensures Outline([Square(Vector(0.0, 0.0), Vector(2.0, 2.0)), Square(Vector(3.0, 3.0), Vector(5.0, 5.0))])
      == Some(Square(Vector(0.0, 0.0), Vector(5.0, 5.0)))
  {
    var items := [Square(Vector(0.0, 0.0), Vector(2.0, 2.0)), Square(Vector(3.0, 3.0), Vector(5.0, 5.0))];
    var starts, ends := AnchorPoints(items, Start, Start), AnchorPoints(items, End, End);
    assert starts == [Vector(0.0, 0.0), Vector(3.0, 3.0)];
    assert ends == [Vector(2.0, 2.0), Vector(5.0, 5.0)];
    assert MinByXY(starts) == Some(Vector(0.0, 0.0)) by {
      MinByXYIsLowerCorner(starts);
    }
    assert MaxByXY(ends) == Some(Vector(5.0, 5.0)) by {
      MaxByXYIsUpperCorner(ends);
    }
  }

  /** The lines of `squareLines`. */
  datatype SquareLinesResult = SquareLinesResult(vertical: seq<Line>, horizontal: seq<Line>, diagonal: seq<Line>)

  function Segment(item: Square, x1: Anchor, y1: Anchor, x2: Anchor, y2: Anchor): Line
  {
    NewLine(Vec(BySquarePoint(item, x1, y1)), Vec(BySquarePoint(item, x2, y2)))
  }

  /** `squareLines` */
  function SquareLines(item: Square): SquareLinesResult
  {
    SquareLinesResult(
      [Segment(item, Start, Start, Start, End), Segment(item, Center, Start, Center, End), Segment(item, End, Start, End, End)],
      [Segment(item, Start, Start, End, Start), Segment(item, Start, Center, End, Center), Segment(item, Start, End, End, End)],
      [Segment(item, Start, Start, End, End), Segment(item, End, Start, Start, End)])
  }

  /** Three vertical lines at the start, center and end x, each spanning the
      full height; three horizontal ones at the start, center and end y, each
      spanning the full width; and the two diagonals between opposite
      corners. */
  lemma SquareLinesShape(item: Square)
    ensures var r := SquareLines(item);
      && |r.vertical| == 3 && |r.horizontal| == 3 && |r.diagonal| == 2
      && (forall i :: 0 <= i < 3 ==> (r.vertical[i].v1.x == r.vertical[i].v2.x
            && r.vertical[i].v1.y == item.v1.y && r.vertical[i].v2.y == item.v1.y + Height(item)))
      && (forall i :: 0 <= i < 3 ==> (r.horizontal[i].v1.y == r.horizontal[i].v2.y
            && r.horizontal[i].v1.x == item.v1.x && r.horizontal[i].v2.x == item.v1.x + Width(item)))
      && r.vertical[0].v1.x == item.v1.x && r.vertical[1].v1.x == item.v1.x + Width(item) / 2.0
      && r.vertical[2].v1.x == item.v1.x + Width(item)
      && r.horizontal[0].v1.y == item.v1.y && r.horizontal[1].v1.y == item.v1.y + Height(item) / 2.0
      && r.horizontal[2].v1.y == item.v1.y + Height(item)
      && r.diagonal[0] == Line(BySquarePoint(item, Start, Start), BySquarePoint(item, End, End))
      && r.diagonal[1] == Line(BySquarePoint(item, End, Start), BySquarePoint(item, Start, End))
  {
  }

  /** In a rectangle of non-zero width and height the two diagonals of
      `squareLines` cross, at the center anchor. */
  lemma DiagonalsCross(item: Square)
    requires Width(item) > 0.0 && Height(item) > 0.0
    ensures var d := SquareLines(item).diagonal;
      CrossByLine(d[0], d[1])
      && PointAt(d[0], 0.5) == PointAt(d[1], 0.5) == BySquarePoint(item, Center, Center)
  {
    var d := SquareLines(item).diagonal;
    var w, h := Width(item), Height(item);
    ProductPositive(w, h, w * h);
    assert Det(d[0], d[1]) == 2.0 * (w * h);
    assert PointAt(d[0], 0.5) == PointAt(d[1], 0.5);
    assert MeetInside(d[0], d[1]);
    CrossByLineMeansMeetInside(d[0], d[1]);
  }

  /** The nine anchors in x-major order over start, center, end. */
  const Anchors: seq<Anchor> := [Start, Center, End]

  /** `squarePoints` */
  function SquarePoints(item: Square): seq<Vector>
  {
    [ BySquarePoint(item, Start, Start), BySquarePoint(item, Start, Center), BySquarePoint(item, Start, End),
      BySquarePoint(item, Center, Start), BySquarePoint(item, Center, Center), BySquarePoint(item, Center, End),
      BySquarePoint(item, End, Start), BySquarePoint(item, End, Center), BySquarePoint(item, End, End) ]
  }

  /** `squareCornerPoints` */
  function SquareCornerPoints(item: Square): seq<Vector>
  {
    [ BySquarePoint(item, Start, Start), BySquarePoint(item, Start, End),
      BySquarePoint(item, End, Start), BySquarePoint(item, End, End) ]
  }

  /** `squarePoints` is the full 3×3 grid, point `3·i + j` at the `i`-th x
      anchor and the `j`-th y anchor; the corner points are its four corners,
      in the same order. */
  lemma SquarePointsGrid(item: Square)
    ensures |SquarePoints(item)| == 9
    ensures forall i, j :: 0 <= i < 3 && 0 <= j < 3 ==>
      SquarePoints(item)[3 * i + j] == BySquarePoint(item, Anchors[i], Anchors[j])
    ensures var p := SquarePoints(item);
      SquareCornerPoints(item) == [p[0], p[2], p[6], p[8]]
  {
  }
}
