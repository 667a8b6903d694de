/** The 2D vector of src/features/Placement/src/vector.ts: construction,
    per-axis arithmetic on any vector-like value, comparisons, selection of
    extremes and filtering. */
module Vectors {
  import opened Wrappers
  import opened Common

  /** A point or a displacement. */
  datatype Vector = Vector(x: real, y: real)

  /** `ZeroVector` */
  const Zero := Vector(0.0, 0.0)

  /** An argument typed `number | Vector`. */
  datatype Operand = Num(n: real) | Vec(v: Vector)

  /** `new Vector(x_or_point, y?)`: with a number `y` the pair form, else a
      number is put on both axes and a vector is copied. The overloads only
      admit a number as the first argument of the pair form. */
  function NewVector(first: Operand, y: Option<real>): Vector
    requires y.Some? ==> first.Num?
  {
    if y.Some? then Vector(first.n, y.value)
    else match first
      case Num(n) => Vector(n, n)
      case Vec(v) => Vector(v.x, v.y)
  }

  /** `new Vector(point)`, the one-argument form. */
  function FromOperand(o: Operand): Vector
  {
    NewVector(o, None)
  }

  /** The three ways of building a vector. */
  lemma ConstructorForms(n: real, x: real, y: real, v: Vector)
    ensures NewVector(Num(n), None) == Vector(n, n)
    ensures NewVector(Num(x), Some(y)) == Vector(x, y)
    ensures NewVector(Vec(v), None) == v
  {
  }

  /** A value of a type `T extends Vector`: its coordinates and the rest of
      the caller's fields, which every operation hands back untouched. */
  datatype VectorLike<E> = VectorLike(at: Vector, rest: E)

  /** A plain `Vector` used where the source calls a generic operation on one. */
  function Plain(v: Vector): VectorLike<()>
  {
    VectorLike(v, ())
  }

  // ---------------------- MOVING ----------------------

  /** `moveByX` */
  function MoveByX<E>(item: VectorLike<E>, delta: Operand): VectorLike<E>
  {
    item.(at := item.at.(x := item.at.x + FromOperand(delta).x))
  }

  /** `moveByY` */
  function MoveByY<E>(item: VectorLike<E>, delta: Operand): VectorLike<E>
  {
    item.(at := item.at.(y := item.at.y + FromOperand(delta).y))
  }

  /** `moveByXY` */
  function MoveByXY<E>(item: VectorLike<E>, delta: Operand): VectorLike<E>
  {
    var d := FromOperand(delta);
    item.(at := Vector(item.at.x + d.x, item.at.y + d.y))
  }

  /** `addByX`, an alias of `moveByX`. */
  function AddByX<E>(item: VectorLike<E>, delta: Operand): VectorLike<E> { MoveByX(item, delta) }

  /** `addByY`, an alias of `moveByY`. */
  function AddByY<E>(item: VectorLike<E>, delta: Operand): VectorLike<E> { MoveByY(item, delta) }

  /** `addByXY`, an alias of `moveByXY`. */
  function AddByXY<E>(item: VectorLike<E>, delta: Operand): VectorLike<E> { MoveByXY(item, delta) }

  /** The delta negated as the source does it: `multiplyByXY(new Vector(delta), -1)`. */
  function Negated(delta: Operand): Operand
  {
    Vec(MultiplyByXY(Plain(FromOperand(delta)), Num(-1.0)).at)
  }

  /** `subtractByX` */
  function SubtractByX<E>(item: VectorLike<E>, delta: Operand): VectorLike<E>
  {
    MoveByX(item, Negated(delta))
  }

  /** `subtractByY` */
  function SubtractByY<E>(item: VectorLike<E>, delta: Operand): VectorLike<E>
  {
    MoveByY(item, Negated(delta))
  }

  /** `subtractByXY` */
  function SubtractByXY<E>(item: VectorLike<E>, delta: Operand): VectorLike<E>
  {
    MoveByXY(item, Negated(delta))
  }

  /** `multiplyByX` */
  function MultiplyByX<E>(item: VectorLike<E>, delta: Operand): VectorLike<E>
  {
    item.(at := item.at.(x := item.at.x * FromOperand(delta).x))
  }

  /** `multiplyByY` */
  function MultiplyByY<E>(item: VectorLike<E>, delta: Operand): VectorLike<E>
  {
    item.(at := item.at.(y := item.at.y * FromOperand(delta).y))
  }

  /** `multiplyByXY` */
  function MultiplyByXY<E>(item: VectorLike<E>, delta: Operand): VectorLike<E>
  {
    var d := FromOperand(delta);
    item.(at := Vector(item.at.x * d.x, item.at.y * d.y))
  }

  /** One axis of `divideBy*`: a zero divisor leaves the coordinate as it is. */
  function DivideAxis(value: real, divisor: real): real
  {
    if divisor != 0.0 then value / divisor else value
  }

  /** `divideByX` */
  function DivideByX<E>(item: VectorLike<E>, delta: Operand): VectorLike<E>
  {
    item.(at := item.at.(x := DivideAxis(item.at.x, FromOperand(delta).x)))
  }

  /** `divideByY` */
  function DivideByY<E>(item: VectorLike<E>, delta: Operand): VectorLike<E>
  {
    item.(at := item.at.(y := DivideAxis(item.at.y, FromOperand(delta).y)))
  }

  /** `divideByXY` */
  function DivideByXY<E>(item: VectorLike<E>, delta: Operand): VectorLike<E>
  {
    var d := FromOperand(delta);
    item.(at := Vector(DivideAxis(item.at.x, d.x), DivideAxis(item.at.y, d.y)))
  }

  /** A per-axis operation changes its own axis only and hands back the
      caller's other fields; a number delta acts on both axes. */
  lemma MoveChangesOnlyItsAxes<E>(item: VectorLike<E>, delta: Operand)
    ensures MoveByX(item, delta).at.y == item.at.y && MoveByX(item, delta).rest == item.rest
    ensures MoveByY(item, delta).at.x == item.at.x && MoveByY(item, delta).rest == item.rest
    ensures MoveByXY(item, delta).rest == item.rest
    ensures MoveByXY(item, delta) == MoveByY(MoveByX(item, delta), delta)
    ensures delta.Num? ==> MoveByXY(item, delta).at == Vector(item.at.x + delta.n, item.at.y + delta.n)
    ensures AddByX(item, delta) == MoveByX(item, delta)
    ensures AddByY(item, delta) == MoveByY(item, delta)
    ensures AddByXY(item, delta) == MoveByXY(item, delta)
  {
  }

  /** Subtracting a delta undoes moving by it, on each axis and on both. */
  lemma SubtractUndoesMove<E>(item: VectorLike<E>, delta: Operand)
    ensures SubtractByX(MoveByX(item, delta), delta) == item
    ensures SubtractByY(MoveByY(item, delta), delta) == item
    ensures SubtractByXY(MoveByXY(item, delta), delta) == item
    ensures MoveByXY(SubtractByXY(item, delta), delta) == item
  {
  }

  /** Identities: moving by 0, multiplying by 1 and dividing by 0 change
      nothing. */
  lemma ArithmeticIdentities<E>(item: VectorLike<E>)
    ensures MoveByXY(item, Num(0.0)) == item
    ensures MultiplyByXY(item, Num(1.0)) == item
    ensures DivideByXY(item, Num(0.0)) == item
  {
  }

  /** Dividing undoes multiplying on an axis whose divisor is not 0; on an
      axis whose divisor is 0 the coordinate stays the product, 0. */
  lemma DivideUndoesMultiply<E>(item: VectorLike<E>, delta: Operand)
    ensures var d := FromOperand(delta); var r := DivideByXY(MultiplyByXY(item, delta), delta);
      && r.rest == item.rest
      && r.at.x == (if d.x != 0.0 then item.at.x else 0.0)
      && r.at.y == (if d.y != 0.0 then item.at.y else 0.0)
  {
  }

  // ---------------------- COMPARISON ----------------------

  function XOf(v: Vector): real { v.x }
  function YOf(v: Vector): real { v.y }

  predicate EqByX(a: Vector, b: Vector) { EqBy(a, b, XOf) }
  predicate EqByY(a: Vector, b: Vector) { EqBy(a, b, YOf) }
  predicate EqByXY(a: Vector, b: Vector) { EqByX(a, b) && EqByY(a, b) }
  predicate LtByX(a: Vector, b: Vector) { LtBy(a, b, XOf) }
  predicate LtByY(a: Vector, b: Vector) { LtBy(a, b, YOf) }
  predicate LtByXY(a: Vector, b: Vector) { LtByX(a, b) && LtByY(a, b) }
  predicate GtByX(a: Vector, b: Vector) { GtBy(a, b, XOf) }
  predicate GtByY(a: Vector, b: Vector) { GtBy(a, b, YOf) }
  predicate GtByXY(a: Vector, b: Vector) { GtByX(a, b) && GtByY(a, b) }
  predicate LeByX(a: Vector, b: Vector) { LeBy(a, b, XOf) }
  predicate LeByY(a: Vector, b: Vector) { LeBy(a, b, YOf) }
  predicate GeByX(a: Vector, b: Vector) { GeBy(a, b, XOf) }
  predicate GeByY(a: Vector, b: Vector) { GeBy(a, b, YOf) }

  /** `leByXY` as written: `ltByXY(a, b) && eqByXY(a, b)`. */
  predicate LeByXY(a: Vector, b: Vector) { LtByXY(a, b) && EqByXY(a, b) }

  /** `geByXY` as written: `gtByXY(a, b) && eqByXY(a, b)`. */
  predicate GeByXY(a: Vector, b: Vector) { GtByXY(a, b) && EqByXY(a, b) }

  /** The combined comparisons ask for the relation on both axes, and
      `eqByXY` is equality of the coordinates. */
  lemma CombinedComparisons(a: Vector, b: Vector)
    ensures EqByXY(a, b) <==> a == b
    ensures LtByXY(a, b) <==> a.x < b.x && a.y < b.y
    ensures GtByXY(a, b) <==> a.x > b.x && a.y > b.y
    ensures LtByXY(a, b) <==> GtByXY(b, a)
    ensures LeByX(a, b) <==> !GtByX(a, b)
    ensures GeByY(a, b) <==> !LtByY(a, b)
  {
  }

  /** As written, `leByXY` and `geByXY` never hold: a strict order and
      equality on the same axis exclude each other. */
  lemma LeGeByXYNeverHold(a: Vector, b: Vector)
    ensures !LeByXY(a, b) && !GeByXY(a, b)
  {
  }

  /** `leByXY` as its name and `leBy` intend: `ltByXY || eqByXY`. */
  predicate LeByXYIntended(a: Vector, b: Vector) { LtByXY(a, b) || EqByXY(a, b) }

  /** `geByXY` as its name and `geBy` intend: `gtByXY || eqByXY`. */
  predicate GeByXYIntended(a: Vector, b: Vector) { GtByXY(a, b) || EqByXY(a, b) }

  /** The intended `leByXY` is a partial order (reflexive, antisymmetric,
      transitive) that contains `ltByXY`, and `geByXY` is its converse. */
  lemma IntendedLeByXYIsPartialOrder(a: Vector, b: Vector, c: Vector)
    ensures LeByXYIntended(a, a)
    ensures LtByXY(a, b) ==> LeByXYIntended(a, b)
    ensures LeByXYIntended(a, b) && LeByXYIntended(b, a) ==> a == b
    ensures LeByXYIntended(a, b) && LeByXYIntended(b, c) ==> LeByXYIntended(a, c)
    ensures GeByXYIntended(a, b) <==> LeByXYIntended(b, a)
  {
  }

  // ---------------------- SELECTION ----------------------

  /** `maxByX` */
  function MaxByX(items: seq<Vector>): Option<Vector> { SelectBy(items, GtByX) }

  /** `maxByY` */
  function MaxByY(items: seq<Vector>): Option<Vector> { SelectBy(items, GtByY) }

  /** `minByX` */
  function MinByX(items: seq<Vector>): Option<Vector> { SelectBy(items, LtByX) }

  /** `minByY` */
  function MinByY(items: seq<Vector>): Option<Vector> { SelectBy(items, LtByY) }

  /** `maxByX` returns the first item whose x is the largest. */
  lemma MaxByXIsFirstMax(items: seq<Vector>)
    requires |items| > 0
    ensures exists k :: (0 <= k < |items| && MaxByX(items) == Some(items[k])
      && (forall j :: 0 <= j < |items| ==> items[j].x <= items[k].x)
      && (forall j :: 0 <= j < k ==> items[j].x < items[k].x))
  {
    assert StrictWeakOrder(GtByX);
    SelectByIsFirstExtreme(items, GtByX);
  }

  /** `maxByY` returns the first item whose y is the largest. */
  lemma MaxByYIsFirstMax(items: seq<Vector>)
    requires |items| > 0
    ensures exists k :: (0 <= k < |items| && MaxByY(items) == Some(items[k])
      && (forall j :: 0 <= j < |items| ==> items[j].y <= items[k].y)
      && (forall j :: 0 <= j < k ==> items[j].y < items[k].y))
  {
    assert StrictWeakOrder(GtByY);
    SelectByIsFirstExtreme(items, GtByY);
  }

  /** `minByX` returns the first item whose x is the smallest. */
  lemma MinByXIsFirstMin(items: seq<Vector>)
    requires |items| > 0
    ensures exists k :: (0 <= k < |items| && MinByX(items) == Some(items[k])
      && (forall j :: 0 <= j < |items| ==> items[k].x <= items[j].x)
      && (forall j :: 0 <= j < k ==> items[k].x < items[j].x))
  {
    assert StrictWeakOrder(LtByX);
    SelectByIsFirstExtreme(items, LtByX);
  }

  /** `minByY` returns the first item whose y is the smallest. */
  lemma MinByYIsFirstMin(items: seq<Vector>)
    requires |items| > 0
    ensures exists k :: (0 <= k < |items| && MinByY(items) == Some(items[k])
      && (forall j :: 0 <= j < |items| ==> items[k].y <= items[j].y)
      && (forall j :: 0 <= j < k ==> items[k].y < items[j].y))
  {
    assert StrictWeakOrder(LtByY);
    SelectByIsFirstExtreme(items, LtByY);
  }

  /** `maxByXY`: the x of `maxByX` and the y of `maxByY`, recombined. */
  function MaxByXY(items: seq<Vector>): Option<Vector>
  {
    if |items| == 0 then None
    else Some(Vector(MaxByX(items).value.x, MaxByY(items).value.y))
  }

  /** `minByXY`: the x of `minByX` and the y of `minByY`, recombined. */
  function MinByXY(items: seq<Vector>): Option<Vector>
  {
    if |items| == 0 then None
    else Some(Vector(MinByX(items).value.x, MinByY(items).value.y))
  }

  /** `m` is the largest x and the largest y among `items`, each reached by
      some item (not necessarily the same one). */
  ghost predicate IsUpperCorner(items: seq<Vector>, m: Vector)
  {
    && (forall i :: 0 <= i < |items| ==> items[i].x <= m.x && items[i].y <= m.y)
    && (exists i :: 0 <= i < |items| && items[i].x == m.x)
    && (exists i :: 0 <= i < |items| && items[i].y == m.y)
  }

  /** `m` is the smallest x and the smallest y among `items`, each reached by
      some item. */
  ghost predicate IsLowerCorner(items: seq<Vector>, m: Vector)
  {
    && (forall i :: 0 <= i < |items| ==> m.x <= items[i].x && m.y <= items[i].y)
    && (exists i :: 0 <= i < |items| && items[i].x == m.x)
    && (exists i :: 0 <= i < |items| && items[i].y == m.y)
  }

  /** `maxByXY` is null exactly for no items; otherwise it is the per-axis
      maximum. */
  lemma MaxByXYIsUpperCorner(items: seq<Vector>)
    ensures MaxByXY(items).None? <==> |items| == 0
    ensures MaxByXY(items).Some? ==> IsUpperCorner(items, MaxByXY(items).value)
  {
    if |items| > 0 {
      MaxByXIsFirstMax(items);
      MaxByYIsFirstMax(items);
    }
  }

  /** `minByXY` is null exactly for no items; otherwise it is the per-axis
      minimum. */
  lemma MinByXYIsLowerCorner(items: seq<Vector>)
    ensures MinByXY(items).None? <==> |items| == 0
    ensures MinByXY(items).Some? ==> IsLowerCorner(items, MinByXY(items).value)
  {
    if |items| > 0 {
      MinByXIsFirstMin(items);
      MinByYIsFirstMin(items);
    }
  }

  /** The per-axis maximum need not be one of the items. */
  lemma MaxByXYNeedNotBeAnItem()
    ensures MaxByXY([Vector(1.0, 0.0), Vector(0.0, 1.0)]) == Some(Vector(1.0, 1.0))
  {
    var items := [Vector(1.0, 0.0), Vector(0.0, 1.0)];
    MaxByXYIsUpperCorner(items);
  }

  /** `avgByXY`: the centre of the bounding box of the items, per axis
      `min + (max - min) / 2`. */
  function AvgByXY(items: seq<Vector>): Option<Vector>
  {
    if |items| == 0 then None
    else
      var maxV := MaxByXY(items).value;
      var minV := MinByXY(items).value;
      Some(Vector(minV.x + (maxV.x - minV.x) / 2.0, minV.y + (maxV.y - minV.y) / 2.0))
  }

  /** `avgByXY` is null exactly for no items; otherwise each coordinate is
      the midpoint of that axis's minimum and maximum, so it lies between
      them. */
  lemma AvgByXYIsMidpoint(items: seq<Vector>)
    ensures AvgByXY(items).None? <==> |items| == 0
    ensures |items| > 0 ==>
      var a := AvgByXY(items).value;
      var lo := MinByXY(items).value;
      var hi := MaxByXY(items).value;
      && IsLowerCorner(items, lo) && IsUpperCorner(items, hi)
      && a == Vector((lo.x + hi.x) / 2.0, (lo.y + hi.y) / 2.0)
      && lo.x <= a.x <= hi.x && lo.y <= a.y <= hi.y
  {
    if |items| > 0 {
      MaxByXYIsUpperCorner(items);
      MinByXYIsLowerCorner(items);
      assert IsLowerCorner(items, MinByXY(items).value);
      assert IsUpperCorner(items, MaxByXY(items).value);
      var lo, hi := MinByXY(items).value, MaxByXY(items).value;
      assert lo.x <= items[0].x <= hi.x;
      assert lo.y <= items[0].y <= hi.y;
    }
  }

  // ---------------------- FILTERING ----------------------

  /** `items.filter(keep)` */
  function Filter<T>(items: seq<T>, keep: T -> bool): (r: seq<T>)
    ensures |r| <= |items|
  {
    if items == [] then []
    else Filter(items[..|items| - 1], keep) + (if keep(items[|items| - 1]) then [items[|items| - 1]] else [])
  }

  /** A filter keeps exactly the items that pass, each as often as it occurs. */
  lemma {:induction false} FilterKeepsExactlyThePassing<T>(items: seq<T>, keep: T -> bool)
    ensures forall v :: v in Filter(items, keep) <==> v in items && keep(v)
    ensures forall v :: keep(v) ==> multiset(Filter(items, keep))[v] == multiset(items)[v]
  {
    if items != [] {
      var p := items[..|items| - 1];
      FilterKeepsExactlyThePassing(p, keep);
      assert items == p + [items[|items| - 1]];
    }
  }

  /** A filter keeps the order of the items: filtering a concatenation is
      concatenating the filtered parts. */
  lemma {:induction false} FilterDistributes<T>(a: seq<T>, b: seq<T>, keep: T -> bool)
    ensures Filter(a + b, keep) == Filter(a, keep) + Filter(b, keep)
    decreases |b|
  {
    if b != [] {
      var b' := b[..|b| - 1];
      assert (a + b)[..|a + b| - 1] == a + b';
      FilterDistributes(a, b', keep);
    } else {
      assert a + b == a;
    }
  }

  /** `sameByX`: the items whose x equals the reference's, in order. */
  function SameByX<E>(items: seq<VectorLike<E>>, item: Vector): seq<VectorLike<E>>
  {
    Filter(items, (i: VectorLike<E>) => EqByX(item, i.at))
  }

  /** `sameByY`: the items whose y equals the reference's, in order. */
  function SameByY<E>(items: seq<VectorLike<E>>, item: Vector): seq<VectorLike<E>>
  {
    Filter(items, (i: VectorLike<E>) => EqByY(item, i.at))
  }

  /** `sameByXY`: the items at the reference point, in order. */
  function SameByXY<E>(items: seq<VectorLike<E>>, item: Vector): seq<VectorLike<E>>
  {
    Filter(items, (i: VectorLike<E>) => EqByXY(item, i.at))
  }

  /** The `sameBy*` filters keep exactly the items that agree with the
      reference on their axis or axes, keep their order, and `sameByXY` is
      `sameByY` applied after `sameByX`. */
  lemma {:induction false} SameByKeepsMatching<E>(items: seq<VectorLike<E>>, item: Vector)
    ensures forall v :: v in SameByX(items, item) <==> v in items && v.at.x == item.x
    ensures forall v :: v in SameByY(items, item) <==> v in items && v.at.y == item.y
    ensures forall v :: v in SameByXY(items, item) <==> v in items && v.at == item
    ensures SameByXY(items, item) == SameByY(SameByX(items, item), item)
    decreases |items|
  {
    FilterKeepsExactlyThePassing(items, (i: VectorLike<E>) => EqByX(item, i.at));
    FilterKeepsExactlyThePassing(items, (i: VectorLike<E>) => EqByY(item, i.at));
    FilterKeepsExactlyThePassing(items, (i: VectorLike<E>) => EqByXY(item, i.at));
    if items != [] {
      var p, z := items[..|items| - 1], items[|items| - 1];
      var keepY := (i: VectorLike<E>) => EqByY(item, i.at);
      SameByKeepsMatching(p, item);
      var tail := if EqByX(item, z.at) then [z] else [];
      assert SameByX(items, item) == SameByX(p, item) + tail;
      FilterDistributes(SameByX(p, item), tail, keepY);
    }
  }
}
