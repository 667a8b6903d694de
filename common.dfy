/** Field comparators and the select-the-extreme fold
    (src/features/Placement/src/common.ts). A field of an item is modelled by
    a selector function from the item to the number stored in that field. */
module Common {
  import Js
  import opened Wrappers

  /** `a[selector] === b[selector]` */
  predicate EqBy<T>(a: T, b: T, field: T -> real) { field(a) == field(b) }

  /** `a[selector] < b[selector]` */
  predicate LtBy<T>(a: T, b: T, field: T -> real) { field(a) < field(b) }

  /** `a[selector] > b[selector]` */
  predicate GtBy<T>(a: T, b: T, field: T -> real) { field(a) > field(b) }

  /** `ltBy || eqBy` */
  predicate LeBy<T>(a: T, b: T, field: T -> real) { LtBy(a, b, field) || EqBy(a, b, field) }

  /** `gtBy || eqBy` */
  predicate GeBy<T>(a: T, b: T, field: T -> real) { GtBy(a, b, field) || EqBy(a, b, field) }

  /** On a real-valued field exactly one of lt, eq and gt holds, so le is the
      negation of gt and ge the negation of lt. */
  lemma Trichotomy<T>(a: T, b: T, field: T -> real)
    ensures LtBy(a, b, field) || EqBy(a, b, field) || GtBy(a, b, field)
    ensures !(LtBy(a, b, field) && EqBy(a, b, field))
    ensures !(LtBy(a, b, field) && GtBy(a, b, field))
    ensures !(EqBy(a, b, field) && GtBy(a, b, field))
    ensures LeBy(a, b, field) <==> !GtBy(a, b, field)
    ensures GeBy(a, b, field) <==> !LtBy(a, b, field)
  {
  }

  /** `typeof value === 'number'` */
  function IsNumber(v: Js.Json): (r: bool)
    ensures r <==> Js.TypeOf(v) == "number"
  {
    v.Num?
  }

  /** A comparator that behaves like `<` or `>` on some ranking: it is
      irreflexive, transitive, and being-incomparable is transitive. `gtBy`
      and `ltBy` on a field are such comparators. */
  ghost predicate StrictWeakOrder<T(!new)>(compare: (T, T) -> bool)
  {
    && (forall a :: !compare(a, a))
    && (forall a, b, c :: compare(a, b) && compare(b, c) ==> compare(a, c))
    && (forall a, b, c :: compare(a, c) ==> compare(a, b) || compare(b, c))
  }

  /** The running winner of the loop of `compareAndSelectBy` after it has
      visited `items`, having started from `winner`: each item that compares
      true against the current winner replaces it. */
  function Fold<T>(items: seq<T>, winner: T, compare: (T, T) -> bool): T
    decreases |items|
  {
    if items == [] then winner
    else
      var w := Fold(items[..|items| - 1], winner, compare);
      var item := items[|items| - 1];
      if compare(item, w) then item else w
  }

  /** The fold only ever returns its start or one of the items. */
  lemma {:induction false} FoldIn<T>(items: seq<T>, winner: T, compare: (T, T) -> bool)
    ensures Fold(items, winner, compare) == winner || Fold(items, winner, compare) in items
    decreases |items|
  {
    if items != [] {
      FoldIn(items[..|items| - 1], winner, compare);
    }
  }

  /** `compareAndSelectBy`: null for no items, otherwise the winner of the
      fold that starts from the first item. */
  function SelectBy<T>(items: seq<T>, compare: (T, T) -> bool): (r: Option<T>)
    ensures r.None? <==> |items| == 0
    ensures r.Some? ==> r.value in items
  {
    if |items| == 0 then None
    else
      FoldIn(items, items[0], compare);
      Some(Fold(items, items[0], compare))
  }

  /** The loop of `compareAndSelectBy`: start with the first item and replace
      the winner by every item that compares true against it. */
  method CompareAndSelectBy<T>(items: seq<T>, compare: (T, T) -> bool) returns (r: Option<T>)
    ensures r == SelectBy(items, compare)
  {
    if |items| == 0 {
      return None;
    }
    var line := items[0];
    for i := 0 to |items|
      invariant line == Fold(items[..i], items[0], compare)
    {
      if compare(items[i], line) {
        line := items[i];
      }
      assert items[..i + 1][..i] == items[..i];
    }
    assert items[..|items|] == items;
    return Some(line);
  }

  /** Item `k` is the first extreme of `items`: no item compares true against
      it, and it compares true against every item before it. */
  ghost predicate FirstExtremeAt<T>(items: seq<T>, k: int, compare: (T, T) -> bool)
  {
    && 0 <= k < |items|
    && (forall j :: 0 <= j < |items| ==> !compare(items[j], items[k]))
    && (forall j :: 0 <= j < k ==> compare(items[k], items[j]))
  }

  /** Under a strict weak order nothing beats the fold's result, and the
      result is either the start or an item that beats the start and every
      item before it. */
  lemma {:induction false} FoldIsFirstExtreme<T(!new)>(items: seq<T>, start: T, compare: (T, T) -> bool)
    requires StrictWeakOrder(compare)
    ensures var r := Fold(items, start, compare);
      && !compare(start, r)
      && (forall j :: 0 <= j < |items| ==> !compare(items[j], r))
      && (r == start ||
          exists k :: 0 <= k < |items| && r == items[k] && compare(r, start)
                      && forall j :: 0 <= j < k ==> compare(r, items[j]))
    decreases |items|
  {
    if items != [] {
      var p := items[..|items| - 1];
      var z := items[|items| - 1];
      FoldIsFirstExtreme(p, start, compare);
      var w := Fold(p, start, compare);
      var r := Fold(items, start, compare);
      assert forall j :: 0 <= j < |p| ==> items[j] == p[j];
      if compare(z, w) {
        assert r == z;
        forall j | 0 <= j < |p|
          ensures compare(z, p[j])
        {
          var x := p[j];
          assert compare(z, x) || compare(x, w);
        }
        assert compare(z, start) || compare(start, w);
        assert r == items[|items| - 1];
      } else {
        assert r == w;
        if w != start {
          var k :| 0 <= k < |p| && w == p[k] && compare(w, start)
                   && forall j :: 0 <= j < k ==> compare(w, p[j]);
          assert w == items[k];
        }
      }
    }
  }

  /** With a strict comparator such as `gtBy`, `compareAndSelectBy` returns
      the first item that no other item beats: ties keep the earliest. */
  lemma SelectByIsFirstExtreme<T(!new)>(items: seq<T>, compare: (T, T) -> bool)
    requires StrictWeakOrder(compare)
    requires |items| > 0
    ensures exists k :: FirstExtremeAt(items, k, compare) && SelectBy(items, compare) == Some(items[k])
  {
    FoldIsFirstExtreme(items, items[0], compare);
    var r := Fold(items, items[0], compare);
    if r == items[0] {
      assert FirstExtremeAt(items, 0, compare);
    } else {
      var k :| 0 <= k < |items| && r == items[k] && compare(r, items[0])
               && forall j :: 0 <= j < k ==> compare(r, items[j]);
      assert FirstExtremeAt(items, k, compare);
    }
  }

  /** The first extreme is unique, so `FirstExtremeAt` pins the result of
      `compareAndSelectBy` down. */
  lemma FirstExtremeUnique<T(!new)>(items: seq<T>, k1: int, k2: int, compare: (T, T) -> bool)
    requires StrictWeakOrder(compare)
    requires FirstExtremeAt(items, k1, compare) && FirstExtremeAt(items, k2, compare)
    ensures k1 == k2
  {
    var e1, e2 := items[k1], items[k2];
    assert k1 < k2 ==> compare(e2, e1);
    assert k2 < k1 ==> compare(e1, e2);
  }

  /** `gtBy` on any field is a strict weak order. */
  lemma GtByIsStrictWeakOrder<T(!new)>(field: T -> real)
    ensures StrictWeakOrder((a: T, b: T) => GtBy(a, b, field))
  {
  }

  /** `ltBy` on any field is a strict weak order. */
  lemma LtByIsStrictWeakOrder<T(!new)>(field: T -> real)
    ensures StrictWeakOrder((a: T, b: T) => LtBy(a, b, field))
  {
  }
}
