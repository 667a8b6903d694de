/** The simpler `recursiveToMap` and `toPathMap`
    (src/features/SimpleImplementation.ts). Every level of the result is a
    plain object filled from `{}` with one assignment per entry of
    `Object.entries`: a non-null object value (an array included) is walked
    into, any other value is replaced by the value selector's result. */
module Simple {
  import opened Wrappers
  import opened Js
  import R = Recursive

  /** `valueSelector(item, path, resource)`, where `resource` is the level
      that holds the item. */
  type Selector = (Json, seq<string>, Json) -> Json

  /** Which keys get the `_` prefix. The code prefixes the key of an
      array-valued entry; its documentation prefixes the indexes of an
      array and leaves the array's own key alone. */
  datatype KeyRule = ArrayValues | ArrayIndexes

  /** The property name entry `i` of `node` is written under. */
  function OutKey(rule: KeyRule, node: Json, i: nat): string
    requires i < R.EntryCount(node)
  {
    var name := KeyText(R.EntryKey(node, i));
    var prefixed := match rule
      case ArrayValues => R.EntryValue(node, i).Arr?
      case ArrayIndexes => node.Arr?;
    if prefixed then "_" + name else name
  }

  /** The value written for entry `i`: the nested map of a container, the
      selector's result for anything else. The path grows by the entry's
      key. */
  function Image(rule: KeyRule, selector: Selector, path: seq<string>, node: Json, i: nat): Json
    requires node.IsContainer() && i < R.EntryCount(node)
    decreases node, 0
  {
    var child := R.EntryValue(node, i);
    var p := path + [KeyText(R.EntryKey(node, i))];
    assert node.Arr? ==> child == node.items[i];
    assert node.Obj? ==> child == node.entries[i].1 && node.entries[i] in node.entries;
    if child.IsContainer() then ToMap(rule, selector, p, child) else selector(child, p, node)
  }

  /** The assignments `reduce` makes at one level, in order: each entry's
      output key and image. */
  function Assignments(rule: KeyRule, selector: Selector, path: seq<string>, node: Json): (pairs: seq<(string, Json)>)
    requires node.IsContainer()
    ensures |pairs| == R.EntryCount(node)
    ensures forall j :: 0 <= j < |pairs| ==> pairs[j].0 == OutKey(rule, node, j)
    decreases node, 1
  {
    seq(R.EntryCount(node), j requires 0 <= j < R.EntryCount(node) =>
      (OutKey(rule, node, j), Image(rule, selector, path, node, j)))
  }

  /** `{}` after `acc[key] = value` for each pair in order. */
  function Assign(pairs: seq<(string, Json)>): (r: Json)
    ensures r.Obj?
  {
    if pairs == [] then Obj([])
    else Set(Assign(pairs[..|pairs| - 1]), Name(pairs[|pairs| - 1].0), pairs[|pairs| - 1].1)
  }

  /** `recursiveToMap(node, valueSelector, path)`. */
  function ToMap(rule: KeyRule, selector: Selector, path: seq<string>, node: Json): (r: Json)
    requires node.IsContainer()
    ensures r.Obj?
    decreases node, 2
  {
    Assign(Assignments(rule, selector, path, node))
  }

  /** The `reduce` of `recursiveToMap`: assign each entry's image to its
      output key in a fresh object, walking into containers. */
  method RecursiveToMap(rule: KeyRule, selector: Selector, path: seq<string>, node: Json) returns (acc: Json)
    requires node.IsContainer()
    ensures acc == ToMap(rule, selector, path, node)
    decreases node
  {
    ghost var pairs := Assignments(rule, selector, path, node);
    acc := Obj([]);
    var i := 0;
    while i < R.EntryCount(node)
      invariant i <= R.EntryCount(node)
      invariant acc == Assign(pairs[..i])
    {
      var item := R.EntryValue(node, i);
      var p := path + [KeyText(R.EntryKey(node, i))];
      var image;
      if item.IsContainer() {
        assert node.Obj? ==> node.entries[i] in node.entries;
        image := RecursiveToMap(rule, selector, p, item);
      } else {
        image := selector(item, p, node);
      }
      AssignStep(rule, selector, path, node, i);
      acc := Set(acc, Name(OutKey(rule, node, i)), image);
      i := i + 1;
    }
    assert pairs[..i] == pairs;
  }

  /** One more assignment of the `reduce` in `recursiveToMap`. */
  lemma AssignStep(rule: KeyRule, selector: Selector, path: seq<string>, node: Json, i: nat)
    requires node.IsContainer() && i < R.EntryCount(node)
    ensures var pairs := Assignments(rule, selector, path, node);
      Assign(pairs[..i + 1]) == Set(Assign(pairs[..i]), Name(OutKey(rule, node, i)), Image(rule, selector, path, node, i))
  {
    var pairs := Assignments(rule, selector, path, node);
    assert pairs[..i + 1][..i] == pairs[..i];
    assert pairs[i] == (OutKey(rule, node, i), Image(rule, selector, path, node, i));
  }

  /** No two entries of the level are written under the same name. */
  ghost predicate DistinctOut(rule: KeyRule, node: Json)
  {
    forall i, j :: 0 <= i < j < R.EntryCount(node) ==> OutKey(rule, node, i) != OutKey(rule, node, j)
  }

  /** The assigned object has a property exactly for each assigned key. */
  lemma {:induction false} AssignKeys(pairs: seq<(string, Json)>, k: string)
    ensures Lookup(Assign(pairs), Name(k)).Some? <==> exists j :: 0 <= j < |pairs| && pairs[j].0 == k
    decreases |pairs|
  {
    if pairs != [] {
      var init := pairs[..|pairs| - 1];
      AssignKeys(init, k);
      SetObjLookup(Assign(init).entries, Name(pairs[|pairs| - 1].0), pairs[|pairs| - 1].1, Name(k));
      if exists j :: 0 <= j < |init| && init[j].0 == k {
        var j :| 0 <= j < |init| && init[j].0 == k;
        assert pairs[j].0 == k;
      }
      if exists j :: 0 <= j < |pairs| && pairs[j].0 == k {
        var j :| 0 <= j < |pairs| && pairs[j].0 == k;
        if j < |init| {
          assert init[j].0 == k;
        }
      }
    }
  }

  /** When no key is assigned twice, each key holds its assigned value. */
  lemma {:induction false} AssignValue(pairs: seq<(string, Json)>, j: nat)
    requires j < |pairs|
    requires forall a, b :: 0 <= a < b < |pairs| ==> pairs[a].0 != pairs[b].0
    ensures Lookup(Assign(pairs), Name(pairs[j].0)) == Some(pairs[j].1)
    decreases |pairs|
  {
    var init := pairs[..|pairs| - 1];
    SetObjLookup(Assign(init).entries, Name(pairs[|pairs| - 1].0), pairs[|pairs| - 1].1, Name(pairs[j].0));
    if j < |init| {
      AssignValue(init, j);
    }
  }

  /** The map has a property exactly for each output key. */
  lemma ToMapKeys(rule: KeyRule, selector: Selector, path: seq<string>, node: Json, k: string)
    requires node.IsContainer()
    ensures Lookup(ToMap(rule, selector, path, node), Name(k)).Some?
            <==> exists i :: 0 <= i < R.EntryCount(node) && OutKey(rule, node, i) == k
  {
    AssignKeys(Assignments(rule, selector, path, node), k);
  }

  /** When output keys do not collide, the property written for entry `i`
      holds the nested map of a container entry and the selector's result,
      given the path extended by the entry's key and the level itself, for
      any other entry. */
  lemma ToMapEntry(rule: KeyRule, selector: Selector, path: seq<string>, node: Json, i: nat)
    requires node.IsContainer() && i < R.EntryCount(node)
    requires DistinctOut(rule, node)
    ensures var child := R.EntryValue(node, i);
      var p := path + [KeyText(R.EntryKey(node, i))];
      Lookup(ToMap(rule, selector, path, node), Name(OutKey(rule, node, i)))
      == Some(if child.IsContainer() then ToMap(rule, selector, p, child) else selector(child, p, node))
  {
    var pairs := Assignments(rule, selector, path, node);
    assert pairs[i] == (OutKey(rule, node, i), Image(rule, selector, path, node, i));
    AssignValue(pairs, i);
  }

  /** Under either rule an array's keys never collide: each is its index's
      digits, perhaps after `_`. */
  lemma ArrayKeysDistinct(rule: KeyRule, node: Json)
    requires node.Arr?
    ensures DistinctOut(rule, node)
  {
    forall i, j | 0 <= i < j < |node.items|
      ensures OutKey(rule, node, i) != OutKey(rule, node, j)
    {
      IndexOfNatText(i);
      IndexOfNatText(j);
      var a, b := OutKey(rule, node, i), OutKey(rule, node, j);
      assert a == NatText(i) || a == "_" + NatText(i);
      assert b == NatText(j) || b == "_" + NatText(j);
      assert ("_" + NatText(i))[1..] == NatText(i);
      assert ("_" + NatText(j))[1..] == NatText(j);
      assert IsDigit(NatText(i)[0]) && IsDigit(NatText(j)[0]);
    }
  }

  /** With the documented rule an object's keys collide only if the object
      repeats a name, and an array's never do. */
  lemma IndexKeysDistinct(node: Json)
    requires node.IsContainer()
    requires node.Obj? ==> forall i, j :: 0 <= i < j < |node.entries| ==> node.entries[i].0 != node.entries[j].0
    ensures DistinctOut(ArrayIndexes, node)
  {
    if node.Arr? {
      ArrayKeysDistinct(ArrayIndexes, node);
    }
  }

  //
  // Routes from the root to a leaf.
  //

  /** `ps` picks an entry at each level, passing through containers only,
      and ends at a value that is not a container. */
  ghost predicate LeafRoute(node: Json, ps: seq<nat>)
    decreases |ps|
  {
    && node.IsContainer() && |ps| >= 1 && ps[0] < R.EntryCount(node)
    && (if |ps| == 1 then !R.EntryValue(node, ps[0]).IsContainer()
        else LeafRoute(R.EntryValue(node, ps[0]), ps[1..]))
  }

  /** The source keys along a route. */
  function KeyPath(node: Json, ps: seq<nat>): seq<string>
    decreases |ps|
  {
    if ps == [] || ps[0] >= R.EntryCount(node) then []
    else [KeyText(R.EntryKey(node, ps[0]))] + KeyPath(R.EntryValue(node, ps[0]), ps[1..])
  }

  /** The output keys along a route. */
  function OutPath(rule: KeyRule, node: Json, ps: seq<nat>): seq<string>
    decreases |ps|
  {
    if ps == [] || ps[0] >= R.EntryCount(node) then []
    else [OutKey(rule, node, ps[0])] + OutPath(rule, R.EntryValue(node, ps[0]), ps[1..])
  }

  /** The leaf a route ends at, and the level that holds it. */
  function LeafAt(node: Json, ps: seq<nat>): (Json, Json)
    decreases |ps|
  {
    if ps == [] || ps[0] >= R.EntryCount(node) then (node, node)
    else if |ps| == 1 then (R.EntryValue(node, ps[0]), node)
    else LeafAt(R.EntryValue(node, ps[0]), ps[1..])
  }

  /** Property access along a list of names, as `map.a.b.c` reads it. */
  function Descend(v: Json, names: seq<string>): Option<Json>
    decreases |names|
  {
    if names == [] then Some(v)
    else match Lookup(v, Name(names[0]))
      case None => None
      case Some(c) => Descend(c, names[1..])
  }

  /** Output keys do not collide at any level along the route. */
  ghost predicate RouteDistinct(rule: KeyRule, node: Json, ps: seq<nat>)
    decreases |ps|
  {
    ps != [] && ps[0] < R.EntryCount(node) ==>
      DistinctOut(rule, node) && RouteDistinct(rule, R.EntryValue(node, ps[0]), ps[1..])
  }

  /** Reading the map along a route's output keys reaches the selector's
      result for the route's leaf, called with the full key path from the
      root and the level holding the leaf. */
  lemma {:induction false} ToMapRoute(rule: KeyRule, selector: Selector, path: seq<string>, node: Json, ps: seq<nat>)
    requires LeafRoute(node, ps) && RouteDistinct(rule, node, ps)
    ensures Descend(ToMap(rule, selector, path, node), OutPath(rule, node, ps))
         == Some(selector(LeafAt(node, ps).0, path + KeyPath(node, ps), LeafAt(node, ps).1))
    decreases |ps|
  {
    var i := ps[0];
    var child := R.EntryValue(node, i);
    var key := KeyText(R.EntryKey(node, i));
    var out := OutKey(rule, node, i);
    if |ps| == 1 {
      assert OutPath(rule, node, ps) == [out] + [];
      assert KeyPath(node, ps) == [key];
      LeafStep(rule, selector, path, node, i);
    } else {
      var rest := ps[1..];
      ToMapRoute(rule, selector, path + [key], child, rest);
      RouteCons(rule, node, ps);
      InnerStep(rule, selector, path, node, i, OutPath(rule, child, rest));
      assert path + KeyPath(node, ps) == path + [key] + KeyPath(child, rest);
    }
  }

  /** A route of more than one step is its first step and a route from
      there. */
  lemma RouteCons(rule: KeyRule, node: Json, ps: seq<nat>)
    requires |ps| > 1 && ps[0] < R.EntryCount(node)
    ensures var child := R.EntryValue(node, ps[0]);
      && OutPath(rule, node, ps) == [OutKey(rule, node, ps[0])] + OutPath(rule, child, ps[1..])
      && KeyPath(node, ps) == [KeyText(R.EntryKey(node, ps[0]))] + KeyPath(child, ps[1..])
      && LeafAt(node, ps) == LeafAt(child, ps[1..])
  {
  }

  /** Reading a name no entry is written under finds nothing. */
  lemma MissingStep(rule: KeyRule, selector: Selector, path: seq<string>, node: Json, name: string, rest: seq<string>)
    requires node.IsContainer()
    requires forall i :: 0 <= i < R.EntryCount(node) ==> OutKey(rule, node, i) != name
    ensures Descend(ToMap(rule, selector, path, node), [name] + rest) == None
  {
    ToMapKeys(rule, selector, path, node, name);
    DescendCons(ToMap(rule, selector, path, node), name, rest);
  }

  /** The last step of a route: the leaf's property holds the selector's
      result. */
  lemma LeafStep(rule: KeyRule, selector: Selector, path: seq<string>, node: Json, i: nat)
    requires node.IsContainer() && i < R.EntryCount(node) && DistinctOut(rule, node)
    requires !R.EntryValue(node, i).IsContainer()
    ensures Descend(ToMap(rule, selector, path, node), [OutKey(rule, node, i)] + [])
         == Some(selector(R.EntryValue(node, i), path + [KeyText(R.EntryKey(node, i))], node))
  {
    ToMapEntry(rule, selector, path, node, i);
    DescendCons(ToMap(rule, selector, path, node), OutKey(rule, node, i), []);
  }

  /** An inner step of a route: the container's property holds its nested
      map. */
  lemma InnerStep(rule: KeyRule, selector: Selector, path: seq<string>, node: Json, i: nat, rest: seq<string>)
    requires node.IsContainer() && i < R.EntryCount(node) && DistinctOut(rule, node)
    requires R.EntryValue(node, i).IsContainer()
    ensures Descend(ToMap(rule, selector, path, node), [OutKey(rule, node, i)] + rest)
         == Descend(ToMap(rule, selector, path + [KeyText(R.EntryKey(node, i))], R.EntryValue(node, i)), rest)
  {
    ToMapEntry(rule, selector, path, node, i);
    DescendCons(ToMap(rule, selector, path, node), OutKey(rule, node, i), rest);
  }

  /** One step of property access. */
  lemma DescendCons(v: Json, name: string, rest: seq<string>)
    ensures Descend(v, [name] + rest)
         == match Lookup(v, Name(name))
            case None => None
            case Some(c) => Descend(c, rest)
  {
    assert ([name] + rest)[1..] == rest;
  }

  /** Objects never repeat a name, at any depth. */
  lemma RouteDistinctIndexes(node: Json, ps: seq<nat>)
    requires R.DistinctKeys(node)
    ensures RouteDistinct(ArrayIndexes, node, ps)
    decreases |ps|
  {
    if ps != [] && ps[0] < R.EntryCount(node) {
      IndexKeysDistinct(node);
      RouteDistinctIndexes(R.EntryValue(node, ps[0]), ps[1..]);
    }
  }

  //
  // toPathMap
  //

  /** The value selector of `toPathMap`: the path joined by `buildKey`. */
  function PathSelector(separator: Option<string>): (selector: Selector)
    ensures forall v, path, parent :: selector(v, path, parent) == Str(R.BuildKey(path, separator))
  {
    (v: Json, path: seq<string>, parent: Json) => Str(R.BuildKey(path, separator))
  }

  /** `toPathMap(resource)` as written: array-valued keys prefixed, paths
      joined with `buildKey`'s default `,`. */
  function ToPathMap(resource: Json): (r: Json)
    requires resource.IsContainer()
    ensures r.Obj?
  {
    ToMap(ArrayValues, PathSelector(None), [], resource)
  }

  /** As written, following a route's output keys in `toPathMap`'s result
      reaches the route's source keys joined with `,`. */
  lemma ToPathMapRoute(resource: Json, ps: seq<nat>)
    requires LeafRoute(resource, ps) && RouteDistinct(ArrayValues, resource, ps)
    ensures Descend(ToPathMap(resource), OutPath(ArrayValues, resource, ps))
         == Some(Str(Join(KeyPath(resource, ps), ",")))
  {
    ToMapRoute(ArrayValues, PathSelector(None), [], resource, ps);
    assert [] + KeyPath(resource, ps) == KeyPath(resource, ps);
  }

  /** `toPathMap` as documented: array indexes prefixed, paths joined with
      `.`. */
  function ToPathMapDocumented(resource: Json): (r: Json)
    requires resource.IsContainer()
    ensures r.Obj?
  {
    ToMap(ArrayIndexes, PathSelector(Some(".")), [], resource)
  }

  /** The documented reading `map.KEY_5._1.KEY_6`: following any route's
      output keys in the documented map reaches a string that splits on `.`
      into the route's source keys, so it names the leaf's own path. */
  lemma ToPathMapDocumentedRoute(resource: Json, ps: seq<nat>)
    requires LeafRoute(resource, ps) && R.DistinctKeys(resource)
    requires forall k :: 0 <= k < |KeyPath(resource, ps)| ==> '.' !in KeyPath(resource, ps)[k]
    ensures exists s :: Descend(ToPathMapDocumented(resource), OutPath(ArrayIndexes, resource, ps)) == Some(Str(s))
                        && Split(s, '.') == KeyPath(resource, ps)
  {
    RouteDistinctIndexes(resource, ps);
    ToMapRoute(ArrayIndexes, PathSelector(Some(".")), [], resource, ps);
    var kp := KeyPath(resource, ps);
    assert [] + kp == kp;
    KeyPathNonEmpty(resource, ps);
    SplitJoin(kp, '.');
    assert R.BuildKey(kp, Some(".")) == Join(kp, ".");
  }

  lemma KeyPathNonEmpty(node: Json, ps: seq<nat>)
    requires LeafRoute(node, ps)
    ensures |KeyPath(node, ps)| == |ps|
    decreases |ps|
  {
    if |ps| > 1 {
      KeyPathNonEmpty(R.EntryValue(node, ps[0]), ps[1..]);
    }
  }

  /** An object holding one array-valued entry whose only element is not a
      container: the smallest case of the documented example's `KEY_5`. */
  ghost predicate OneArrayEntry(resource: Json)
  {
    && resource.Obj? && |resource.entries| == 1
    && resource.entries[0].1.Arr? && |resource.entries[0].1.items| == 1
    && !resource.entries[0].1.items[0].IsContainer()
  }

  /** As written, the documented reading `map.K._0` of an array under `K`
      finds nothing. */
  lemma AsWrittenMissesDocumentedKey(resource: Json, selector: Selector)
    requires OneArrayEntry(resource)
    ensures Descend(ToMap(ArrayValues, selector, [], resource), [resource.entries[0].0, "_0"]) == None
  {
    var k := resource.entries[0].0;
    assert OutKey(ArrayValues, resource, 0) == "_" + k;
    assert |"_" + k| != |k|;
    assert [k, "_0"] == [k] + ["_0"];
    MissingStep(ArrayValues, selector, [], resource, k, ["_0"]);
  }

  /** As written, an array entry is read as `map._K.0`: the array's own key
      carries the prefix and its indexes do not. */
  lemma AsWrittenArrayEntry(selector: Selector, path: seq<string>, node: Json, i: nat, j: nat)
    requires node.Obj? && DistinctOut(ArrayValues, node) && i < |node.entries|
    requires var arr := node.entries[i].1; arr.Arr? && j < |arr.items| && !arr.items[j].IsContainer()
    ensures var name := node.entries[i].0;
      var arr := node.entries[i].1;
      Descend(ToMap(ArrayValues, selector, path, node), ["_" + name, NatText(j)])
      == Some(selector(arr.items[j], path + [name, NatText(j)], arr))
  {
    var name := node.entries[i].0;
    var arr := node.entries[i].1;
    assert OutKey(ArrayValues, node, i) == "_" + name;
    assert OutKey(ArrayValues, arr, j) == NatText(j);
    assert ["_" + name, NatText(j)] == ["_" + name] + [NatText(j)];
    InnerStep(ArrayValues, selector, path, node, i, [NatText(j)]);
    assert [NatText(j)] == [NatText(j)] + [];
    assert path + [name] + [NatText(j)] == path + [name, NatText(j)];
    ArrayKeysDistinct(ArrayValues, arr);
    LeafStep(ArrayValues, selector, path + [name], arr, j);
  }

  /** With the documented rule an array entry reads as documented,
      `map.K._0`: the array's own key is bare and its indexes carry the
      prefix. */
  lemma DocumentedArrayEntry(selector: Selector, path: seq<string>, node: Json, i: nat, j: nat)
    requires node.Obj? && DistinctOut(ArrayIndexes, node) && i < |node.entries|
    requires var arr := node.entries[i].1; arr.Arr? && j < |arr.items| && !arr.items[j].IsContainer()
    ensures var name := node.entries[i].0;
      var arr := node.entries[i].1;
      Descend(ToMap(ArrayIndexes, selector, path, node), [name, "_" + NatText(j)])
      == Some(selector(arr.items[j], path + [name, NatText(j)], arr))
  {
    var name := node.entries[i].0;
    var arr := node.entries[i].1;
    assert OutKey(ArrayIndexes, node, i) == name;
    assert OutKey(ArrayIndexes, arr, j) == "_" + NatText(j);
    assert [name, "_" + NatText(j)] == [name] + ["_" + NatText(j)];
    InnerStep(ArrayIndexes, selector, path, node, i, ["_" + NatText(j)]);
    assert ["_" + NatText(j)] == ["_" + NatText(j)] + [];
    assert path + [name] + [NatText(j)] == path + [name, NatText(j)];
    ArrayKeysDistinct(ArrayIndexes, arr);
    LeafStep(ArrayIndexes, selector, path + [name], arr, j);
  }
}
