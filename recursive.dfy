/** The tree-to-map transformer of src/features/recursive/recursive.utils.ts:
    `recursive` folds over the entries of an object or array with lodash
    `reduce`, `set`ting into an accumulator a nested result for each
    container entry and a `mutator` result for each entry marked mutable;
    `recursiveDefault`, `recursiveToMap` and `toPathMap` are option wirings
    of it. */
module Recursive {
  import opened Wrappers
  import opened Js

  /** `RecursiveTreeNode`: which entries the mutator applies to. */
  datatype TreeNode = Leaf | Branch | Both

  /** `isMarkedAsMutable`: `overSome` of the branch test and the leaf test. */
  function IsMarkedAsMutable(isNestedItem: bool, mutate: TreeNode): bool
  {
    (isNestedItem && mutate in [Branch, Both]) || (!isNestedItem && mutate in [Leaf, Both])
  }

  /** A nested item is mutable unless only leaves are, a non-nested item
      unless only branches are; `Both` marks every item and no mode marks
      nothing. */
  lemma IsMarkedAsMutableCases(mutate: TreeNode)
    ensures IsMarkedAsMutable(true, mutate) <==> mutate != Leaf
    ensures IsMarkedAsMutable(false, mutate) <==> mutate != Branch
    ensures mutate == Both <==> IsMarkedAsMutable(true, mutate) && IsMarkedAsMutable(false, mutate)
    ensures IsMarkedAsMutable(true, mutate) || IsMarkedAsMutable(false, mutate)
  {
  }

  /** `RecursiveItemOptions`: what every selector is given. `isNestable` and
      `isMutable` are absent while `shouldBeNested` decides. */
  datatype Item = Item(node: Json, key: Key, path: seq<string>, resource: Json,
                       isNestable: Option<bool>, isMutable: Option<bool>)

  /** `RecursiveOptions` with every field filled in. */
  datatype Options = Options(
    mutate: TreeNode,
    nestedKeySelector: Item -> Key,
    nodeSelector: Item -> Json,
    keySelector: Item -> Key,
    mutator: Item -> (Key, Json),
    initObject: Item -> Json,
    shouldBeNested: Item -> bool,
    shouldBeMutated: Item -> bool)

  /** `RecursiveOptions` as a caller passes them: every field optional. */
  datatype PartialOptions = PartialOptions(
    mutate: Option<TreeNode>,
    nestedKeySelector: Option<Item -> Key>,
    nodeSelector: Option<Item -> Json>,
    keySelector: Option<Item -> Key>,
    mutator: Option<Item -> (Key, Json)>,
    initObject: Option<Item -> Json>,
    shouldBeNested: Option<Item -> bool>,
    shouldBeMutated: Option<Item -> bool>)

  const NoOptions: PartialOptions :=
    PartialOptions(None, None, None, None, None, None, None, None)

  /** `defaults(options, DEFAULT_RECURSIVE_OPTIONS)`: each absent field takes
      its default. The default mutator pairs the resolved `keySelector` and
      `nodeSelector` (it reads them through `this`, the filled-in options). */
  function WithDefaults(p: PartialOptions): (o: Options)
    ensures p.nodeSelector.Some? ==> o.nodeSelector == p.nodeSelector.value
    ensures p.mutator.Some? ==> o.mutator == p.mutator.value
  {
    var keySelector := if p.keySelector.Some? then p.keySelector.value else (i: Item) => i.key;
    var nodeSelector := if p.nodeSelector.Some? then p.nodeSelector.value else (i: Item) => i.node;
    Options(
      if p.mutate.Some? then p.mutate.value else Leaf,
      if p.nestedKeySelector.Some? then p.nestedKeySelector.value else (i: Item) => i.key,
      nodeSelector,
      keySelector,
      if p.mutator.Some? then p.mutator.value else (i: Item) => (keySelector(i), nodeSelector(i)),
      if p.initObject.Some? then p.initObject.value
      else (i: Item) => if i.node.Arr? then Arr([]) else Obj([]),
      if p.shouldBeNested.Some? then p.shouldBeNested.value else (i: Item) => i.node.IsContainer(),
      if p.shouldBeMutated.Some? then p.shouldBeMutated.value else (i: Item) => i.isMutable == Some(true))
  }

  /** The number of entries `reduce` visits: array elements or own object
      entries; other values have none. */
  function EntryCount(node: Json): nat
  {
    match node
    case Arr(items) => |items|
    case Obj(entries) => |entries|
    case _ => 0
  }

  /** The key `reduce` passes for entry `i`: the number index of an array
      element, the name of an object entry. */
  function EntryKey(node: Json, i: nat): Key
    requires i < EntryCount(node)
  {
    if node.Arr? then Index(i) else Name(node.entries[i].0)
  }

  /** The value `reduce` passes for entry `i`. */
  function EntryValue(node: Json, i: nat): Json
    requires i < EntryCount(node)
  {
    if node.Arr? then node.items[i] else node.entries[i].1
  }

  /** The item for entry `i` of `node` once `shouldBeNested` has decided. */
  function EntryItem(resource: Json, opts: Options, path: seq<string>, node: Json, i: nat): (item: Item)
    requires i < EntryCount(node)
    ensures item.isNestable.Some? && item.isMutable.Some?
    ensures item.isMutable.value == IsMarkedAsMutable(item.isNestable.value, opts.mutate)
  {
    var key := EntryKey(node, i);
    var bare := Item(EntryValue(node, i), key, path + [KeyText(key)], resource, None, None);
    var nestable := opts.shouldBeNested(bare);
    bare.(isNestable := Some(nestable), isMutable := Some(IsMarkedAsMutable(nestable, opts.mutate)))
  }

  /** The body of the `reduce` callback, given the nested result: the nested
      `set` when the item is nestable, then the mutator's `set` when the item
      should be mutated. */
  function Apply(opts: Options, item: Item, nested: Json, acc: Json): Json
  {
    var acc1 := if item.isNestable == Some(true) then Set(acc, opts.nestedKeySelector(item), nested) else acc;
    if opts.shouldBeMutated(item) then Set(acc1, opts.mutator(item).0, opts.mutator(item).1) else acc1
  }

  /** The item of the level itself (`objectOptions`), whose key is the last
      path segment or `''`. */
  function LevelItem(resource: Json, path: seq<string>, node: Json): Item
  {
    Item(node, Name(if |path| > 0 then path[|path| - 1] else ""), path, resource, None, None)
  }

  /** The result of `recursive` for the level at `path` whose node is `node`:
      the fold from `initObject` over all entries. */
  function Level(resource: Json, opts: Options, path: seq<string>, node: Json): Json
    decreases node, 1
  {
    LevelFrom(resource, opts, path, node, 0, opts.initObject(LevelItem(resource, path, node)))
  }

  /** The fold from entry `i` on, with accumulator `acc`. A nestable entry is
      transformed as the level at its own path. */
  function LevelFrom(resource: Json, opts: Options, path: seq<string>, node: Json, i: nat, acc: Json): Json
    requires i <= EntryCount(node)
    decreases node, 0, EntryCount(node) - i
  {
    if i == EntryCount(node) then acc
    else
      var item := EntryItem(resource, opts, path, node, i);
      var child := if node.Arr? then node.items[i] else node.entries[i].1;
      var nested := if item.isNestable == Some(true) then Level(resource, opts, item.path, child) else Undefined;
      LevelFrom(resource, opts, path, node, i + 1, Apply(opts, item, nested, acc))
  }

  /** One step of the fold: entry `i`'s nested result, when it is
      nestable, and its `set`s applied to the accumulator. */
  lemma LevelFromStep(resource: Json, opts: Options, path: seq<string>, node: Json, i: nat, acc: Json)
    requires i < EntryCount(node)
    ensures var item := EntryItem(resource, opts, path, node, i);
      var nested := if item.isNestable == Some(true) then Level(resource, opts, item.path, item.node) else Undefined;
      LevelFrom(resource, opts, path, node, i, acc) == LevelFrom(resource, opts, path, node, i + 1, Apply(opts, item, nested, acc))
  {
    assert EntryItem(resource, opts, path, node, i).node == if node.Arr? then node.items[i] else node.entries[i].1;
  }

  /** Past the last entry the fold is its accumulator. */
  lemma LevelFromEnd(resource: Json, opts: Options, path: seq<string>, node: Json, acc: Json)
    ensures LevelFrom(resource, opts, path, node, EntryCount(node), acc) == acc
  {
  }

  /** `recursive(resource, options, path)`: the level at the start path, or
      the resource itself for the empty path. */
  function Recursive(resource: Json, options: PartialOptions, path: seq<string>): Json
  {
    Level(resource, WithDefaults(options), path, if |path| > 0 then Get(resource, path) else resource)
  }

  /** The `reduce` loop of `recursive`, writing into `acc` entry by entry and
      recursing into nestable entries. */
  method Walk(resource: Json, opts: Options, path: seq<string>, node: Json) returns (acc: Json)
    ensures acc == Level(resource, opts, path, node)
    decreases node, 1
  {
    acc := opts.initObject(LevelItem(resource, path, node));
    var i := 0;
    while i < EntryCount(node)
      invariant i <= EntryCount(node)
      invariant LevelFrom(resource, opts, path, node, i, acc) == Level(resource, opts, path, node)
      decreases EntryCount(node) - i
    {
      var item := EntryItem(resource, opts, path, node, i);
      var child := if node.Arr? then node.items[i] else node.entries[i].1;
      if item.isNestable == Some(true) {
        var nested := Walk(resource, opts, item.path, child);
        acc := Set(acc, opts.nestedKeySelector(item), nested);
      }
      if opts.shouldBeMutated(item) {
        var (newKey, newValue) := opts.mutator(item);
        acc := Set(acc, newKey, newValue);
      }
      i := i + 1;
    }
  }

  /** `recursive` itself: fill in the defaults, find the start node, walk. */
  method RunRecursive(resource: Json, options: PartialOptions, path: seq<string>) returns (r: Json)
    ensures r == Recursive(resource, options, path)
  {
    var opts := WithDefaults(options);
    var node := if |path| > 0 then Get(resource, path) else resource;
    r := Walk(resource, opts, path, node);
  }

  /** Within one item the mutator's `set` runs after the nested one, so when
      both write the same key the mutator's value is the one left. */
  lemma MutatorWins(opts: Options, item: Item, nested: Json, acc: Json)
    requires item.isNestable == Some(true) && opts.shouldBeMutated(item)
    requires opts.nestedKeySelector(item) == opts.mutator(item).0
    requires Settable(acc, opts.mutator(item).0)
    ensures Lookup(Apply(opts, item, nested, acc), opts.mutator(item).0) == Some(opts.mutator(item).1)
  {
  }

  /** Object keys are distinct at every level, as in every JavaScript
      object. */
  ghost predicate DistinctKeys(node: Json)
  {
    match node
    case Arr(items) => forall i :: 0 <= i < |items| ==> DistinctKeys(items[i])
    case Obj(entries) =>
      && (forall i, j :: 0 <= i < j < |entries| ==> entries[i].0 != entries[j].0)
      && (forall i :: 0 <= i < |entries| ==> DistinctKeys(entries[i].1))
    case _ => true
  }

  /** The first `n` entries of a container. */
  function Take(node: Json, n: nat): Json
    requires node.IsContainer() && n <= EntryCount(node)
  {
    if node.Arr? then Arr(node.items[..n]) else Obj(node.entries[..n])
  }

  //
  // The default walk: same containers, leaves replaced.
  //

  /** Reference for `recursive` with default options and a `nodeSelector`:
      every container keeps its kind and its keys in order, every other value
      becomes the selector's result for it. */
  function MapLeaves(resource: Json, selector: Item -> Json, path: seq<string>, node: Json): (r: Json)
    requires node.IsContainer()
    ensures r.Arr? <==> node.Arr?
    ensures EntryCount(r) == EntryCount(node)
    ensures r.Obj? ==> forall i :: 0 <= i < |r.entries| ==> r.entries[i].0 == node.entries[i].0
    decreases node, 0
  {
    match node
    case Arr(items) =>
      Arr(seq(|items|, i requires 0 <= i < |items| => MapChild(resource, selector, path, Index(i), items[i])))
    case Obj(entries) =>
      Obj(seq(|entries|, i requires 0 <= i < |entries| =>
        (entries[i].0, MapChild(resource, selector, path, Name(entries[i].0), entries[i].1))))
  }

  /** What `MapLeaves` puts at one key. */
  function MapChild(resource: Json, selector: Item -> Json, path: seq<string>, key: Key, child: Json): Json
    decreases child, 1
  {
    var p := path + [KeyText(key)];
    if child.IsContainer() then MapLeaves(resource, selector, p, child)
    else selector(Item(child, key, p, resource, Some(false), Some(true)))
  }

  /** The options `recursive(resource, { nodeSelector })` runs with. */
  function SelectorOptions(selector: Item -> Json): PartialOptions
  {
    NoOptions.(nodeSelector := Some(selector))
  }

  lemma {:induction false} LevelIsMapLeaves(resource: Json, selector: Item -> Json, path: seq<string>, node: Json)
    requires node.IsContainer() && DistinctKeys(node)
    ensures Level(resource, WithDefaults(SelectorOptions(selector)), path, node)
         == MapLeaves(resource, selector, path, node)
    decreases node, 1
  {
    var opts := WithDefaults(SelectorOptions(selector));
    var m := MapLeaves(resource, selector, path, node);
    assert opts.initObject(LevelItem(resource, path, node)) == Take(m, 0);
    LevelFromIsMapLeaves(resource, selector, path, node, 0);
  }

  /** The `reduce` callback of the default walk sets a container entry to
      its nested result and any other entry to the selector's result. */
  lemma ApplyDefault(selector: Item -> Json, item: Item, nested: Json, acc: Json)
    requires item.isNestable == Some(item.node.IsContainer())
    requires item.isMutable == Some(!item.node.IsContainer())
    ensures Apply(WithDefaults(SelectorOptions(selector)), item, nested, acc)
         == Set(acc, item.key, if item.node.IsContainer() then nested else selector(item))
  {
  }

  /** Setting the slot just past the end of an array appends. */
  lemma SetAppendsSlot(items: seq<Json>, v: Json)
    ensures Set(Arr(items), Index(|items|), v) == Arr(items + [v])
  {
    assert seq(0, _ => Undefined) == [];
    assert items + seq(0, _ => Undefined) == items;
  }

  /** One step of the default walk appends the entry's image. */
  lemma StepMapsLeaves(resource: Json, selector: Item -> Json, path: seq<string>, node: Json, i: nat)
    requires node.IsContainer() && DistinctKeys(node) && i < EntryCount(node)
    requires var child := EntryValue(node, i);
      var childPath := path + [KeyText(EntryKey(node, i))];
      child.IsContainer() ==> Level(resource, WithDefaults(SelectorOptions(selector)), childPath, child)
                              == MapLeaves(resource, selector, childPath, child)
    ensures var opts := WithDefaults(SelectorOptions(selector));
      var m := MapLeaves(resource, selector, path, node);
      LevelFrom(resource, opts, path, node, i, Take(m, i)) == LevelFrom(resource, opts, path, node, i + 1, Take(m, i + 1))
  {
    var opts := WithDefaults(SelectorOptions(selector));
    var m := MapLeaves(resource, selector, path, node);
    var item := EntryItem(resource, opts, path, node, i);
    var key := EntryKey(node, i);
    var bare := Item(EntryValue(node, i), key, path + [KeyText(key)], resource, None, None);
    assert opts.shouldBeNested(bare) == bare.node.IsContainer();
    assert opts.mutate == Leaf;
    var nested := if item.isNestable == Some(true) then Level(resource, opts, item.path, item.node) else Undefined;
    ApplyDefault(selector, item, nested, Take(m, i));
    var v := MapChild(resource, selector, path, key, item.node);
    assert v == (if item.node.IsContainer() then nested else selector(item));
    TakeGrows(resource, selector, path, node, i);
  }

  /** Entry `i` of the mapped container, set on its first `i` entries, gives
      its first `i + 1`. */
  lemma TakeGrows(resource: Json, selector: Item -> Json, path: seq<string>, node: Json, i: nat)
    requires node.IsContainer() && DistinctKeys(node) && i < EntryCount(node)
    ensures var m := MapLeaves(resource, selector, path, node);
      Set(Take(m, i), EntryKey(node, i), MapChild(resource, selector, path, EntryKey(node, i), EntryValue(node, i)))
      == Take(m, i + 1)
  {
    var m := MapLeaves(resource, selector, path, node);
    var v := MapChild(resource, selector, path, EntryKey(node, i), EntryValue(node, i));
    if node.Arr? {
      assert m.items[i] == v;
      ArrayPrefixGrows(m.items, i);
    } else {
      var k := node.entries[i].0;
      assert m.entries[i] == (k, v);
      assert forall j :: 0 <= j < i ==> m.entries[j].0 == node.entries[j].0 != k;
      ObjectPrefixGrows(m.entries, i);
    }
  }

  /** Setting index `i` on the first `i` items gives the first `i + 1`. */
  lemma ArrayPrefixGrows(items: seq<Json>, i: nat)
    requires i < |items|
    ensures Set(Arr(items[..i]), Index(i), items[i]) == Arr(items[..i + 1])
  {
    SetAppendsSlot(items[..i], items[i]);
    assert items[..i] + [items[i]] == items[..i + 1];
  }

  /** Setting a name new to the first `i` entries to entry `i`'s value gives
      the first `i + 1`. */
  lemma ObjectPrefixGrows(entries: seq<(string, Json)>, i: nat)
    requires i < |entries|
    requires forall j :: 0 <= j < i ==> entries[j].0 != entries[i].0
    ensures Set(Obj(entries[..i]), Name(entries[i].0), entries[i].1) == Obj(entries[..i + 1])
  {
    SetAppends(entries[..i], entries[i].0, entries[i].1);
    assert entries[..i] + [entries[i]] == entries[..i + 1];
  }

  /** Taking every entry of a container gives the container back. */
  lemma TakeAll(node: Json)
    requires node.IsContainer()
    ensures Take(node, EntryCount(node)) == node
  {
    if node.Arr? {
      assert node.items[..|node.items|] == node.items;
    } else {
      assert node.entries[..|node.entries|] == node.entries;
    }
  }

  /** Every entry of a container with distinct keys has distinct keys. */
  lemma EntryDistinct(node: Json, i: nat)
    requires node.IsContainer() && DistinctKeys(node) && i < EntryCount(node)
    ensures DistinctKeys(EntryValue(node, i))
  {
  }

  lemma {:induction false} LevelFromIsMapLeaves(resource: Json, selector: Item -> Json, path: seq<string>,
                                                 node: Json, i: nat)
    requires node.IsContainer() && DistinctKeys(node) && i <= EntryCount(node)
    ensures var m := MapLeaves(resource, selector, path, node);
      LevelFrom(resource, WithDefaults(SelectorOptions(selector)), path, node, i, Take(m, i)) == m
    decreases node, 0, EntryCount(node) - i
  {
    var m := MapLeaves(resource, selector, path, node);
    if i == EntryCount(node) {
      TakeAll(m);
    } else {
      var child := EntryValue(node, i);
      if child.IsContainer() {
        EntryDistinct(node, i);
        LevelIsMapLeaves(resource, selector, path + [KeyText(EntryKey(node, i))], child);
      }
      StepMapsLeaves(resource, selector, path, node, i);
      LevelFromIsMapLeaves(resource, selector, path, node, i + 1);
    }
  }

  /** With only a `nodeSelector`, `recursive` keeps every container's kind and
      keys and replaces each non-container value by the selector's result. */
  lemma RecursiveMapsLeaves(resource: Json, selector: Item -> Json)
    requires resource.IsContainer() && DistinctKeys(resource)
    ensures Recursive(resource, SelectorOptions(selector), []) == MapLeaves(resource, selector, [], resource)
  {
    LevelIsMapLeaves(resource, selector, [], resource);
  }

  /** Following one more key from a level reaches that key's entry, so the
      nested call, which reads its node with `get(resource, path)`, walks the
      entry's own value. */
  lemma ChildAtPath(resource: Json, path: seq<string>, node: Json, i: nat)
    requires path != [] ==> Get(resource, path) == node
    requires path == [] ==> resource == node
    requires DistinctKeys(node) && i < EntryCount(node)
    ensures Get(resource, path + [KeyText(EntryKey(node, i))]) == EntryValue(node, i)
  {
    var p := path + [KeyText(EntryKey(node, i))];
    assert p[..|p| - 1] == path;
    assert Follow(resource, path) == node;
    if node.Arr? {
      IndexOfNatText(i);
    } else {
      KeyIndexIs(node.entries, node.entries[i].0, i);
    }
  }

  /** Given a start path, `recursive` transforms only the subtree found at
      that path, as the level at that path. */
  lemma RecursiveFromPath(resource: Json, selector: Item -> Json, path: seq<string>)
    requires path != []
    requires Get(resource, path).IsContainer() && DistinctKeys(Get(resource, path))
    ensures Recursive(resource, SelectorOptions(selector), path)
         == MapLeaves(resource, selector, path, Get(resource, path))
  {
    LevelIsMapLeaves(resource, selector, path, Get(resource, path));
  }

  //
  // recursiveDefault
  //

  /** The second argument of `recursiveDefault`: a value or a selector. */
  datatype Fallback = Value(v: Json) | Selector(f: Item -> Json)

  /** The `nodeSelector` `recursiveDefault` builds: a null or undefined node
      becomes the fallback, any other node stays. */
  function DefaultSelector(fallback: Fallback): (selector: Item -> Json)
    ensures forall item: Item :: !(item.node.Null? || item.node.Undefined?) ==> selector(item) == item.node
    ensures forall item: Item :: (item.node.Null? || item.node.Undefined?) && fallback.Value? ==> selector(item) == fallback.v
    ensures forall item: Item :: (item.node.Null? || item.node.Undefined?) && fallback.Selector? ==> selector(item) == fallback.f(item)
  {
    (item: Item) =>
      if item.node.Null? || item.node.Undefined? then
        (match fallback case Selector(f) => f(item) case Value(v) => v)
      else item.node
  }

  /** `recursiveDefault(resource, selectorOrValue)`. */
  function RecursiveDefault(resource: Json, fallback: Fallback): Json
  {
    Recursive(resource, SelectorOptions(DefaultSelector(fallback)), [])
  }

  /** Reference: `node` with every null or undefined value below it replaced
      by `v`. */
  function FillNil(node: Json, v: Json): (r: Json)
    decreases node
  {
    match node
    case Arr(items) => Arr(seq(|items|, i requires 0 <= i < |items| => FillNil(items[i], v)))
    case Obj(entries) => Obj(seq(|entries|, i requires 0 <= i < |entries| => (entries[i].0, FillNil(entries[i].1, v))))
    case Null => v
    case Undefined => v
    case _ => node
  }

  /** No null or undefined value anywhere in the tree. */
  ghost predicate NoNil(node: Json)
  {
    match node
    case Arr(items) => forall i :: 0 <= i < |items| ==> NoNil(items[i])
    case Obj(entries) => forall i :: 0 <= i < |entries| ==> NoNil(entries[i].1)
    case Null => false
    case Undefined => false
    case _ => true
  }

  lemma {:induction false} MapLeavesFillsNil(resource: Json, v: Json, path: seq<string>, node: Json)
    requires node.IsContainer()
    ensures MapLeaves(resource, DefaultSelector(Value(v)), path, node) == FillNil(node, v)
    decreases node
  {
    var sel := DefaultSelector(Value(v));
    var m := MapLeaves(resource, sel, path, node);
    var f := FillNil(node, v);
    match node
    case Arr(items) =>
      forall i | 0 <= i < |items|
        ensures m.items[i] == f.items[i]
      {
        var p := path + [KeyText(Index(i))];
        assert m.items[i] == MapChild(resource, sel, path, Index(i), items[i]);
        if items[i].IsContainer() {
          MapLeavesFillsNil(resource, v, p, items[i]);
        } else {
          var it := Item(items[i], Index(i), p, resource, Some(false), Some(true));
          assert m.items[i] == sel(it);
          assert sel(it) == FillNil(items[i], v);
        }
      }
      assert m.items == f.items;
    case Obj(entries) =>
      forall i | 0 <= i < |entries|
        ensures m.entries[i] == f.entries[i]
      {
        var k := entries[i].0;
        var p := path + [KeyText(Name(k))];
        assert m.entries[i] == (k, MapChild(resource, sel, path, Name(k), entries[i].1));
        if entries[i].1.IsContainer() {
          MapLeavesFillsNil(resource, v, p, entries[i].1);
        } else {
          var it := Item(entries[i].1, Name(k), p, resource, Some(false), Some(true));
          assert m.entries[i].1 == sel(it);
          assert f.entries[i] == (k, FillNil(entries[i].1, v));
          assert sel(it) == FillNil(entries[i].1, v);
        }
      }
      assert m.entries == f.entries;
  }

  /** `recursiveDefault` with a value replaces exactly the null and undefined
      values of the tree by that value and keeps everything else. */
  lemma RecursiveDefaultFillsNil(resource: Json, v: Json)
    requires resource.IsContainer() && DistinctKeys(resource)
    ensures RecursiveDefault(resource, Value(v)) == FillNil(resource, v)
  {
    RecursiveMapsLeaves(resource, DefaultSelector(Value(v)));
    MapLeavesFillsNil(resource, v, [], resource);
  }

  /** A tree with no null or undefined value comes back unchanged. */
  lemma {:induction false} FillNilKeepsComplete(node: Json, v: Json)
    requires NoNil(node)
    ensures FillNil(node, v) == node
    decreases node
  {
    match node
    case Arr(items) =>
      forall i | 0 <= i < |items| ensures FillNil(items[i], v) == items[i] {
        FillNilKeepsComplete(items[i], v);
      }
      assert FillNil(node, v).items == items;
    case Obj(entries) =>
      forall i | 0 <= i < |entries| ensures FillNil(entries[i].1, v) == entries[i].1 {
        FillNilKeepsComplete(entries[i].1, v);
      }
      assert FillNil(node, v).entries == entries;
    case _ =>
  }

  /** After filling with a value that is neither null nor undefined, none is
      left. */
  lemma {:induction false} FillNilLeavesNone(node: Json, v: Json)
    requires NoNil(v)
    ensures NoNil(FillNil(node, v))
    decreases node
  {
    match node
    case Arr(items) =>
      forall i | 0 <= i < |items| ensures NoNil(FillNil(items[i], v)) {
        FillNilLeavesNone(items[i], v);
      }
    case Obj(entries) =>
      forall i | 0 <= i < |entries| ensures NoNil(FillNil(entries[i].1, v)) {
        FillNilLeavesNone(entries[i].1, v);
      }
    case _ =>
  }

  /** `recursiveDefault` with a selector is the default walk with a selector
      that calls it on exactly the null and undefined values. */
  lemma RecursiveDefaultSelects(resource: Json, f: Item -> Json)
    requires resource.IsContainer() && DistinctKeys(resource)
    ensures RecursiveDefault(resource, Selector(f)) == MapLeaves(resource, DefaultSelector(Selector(f)), [], resource)
  {
    RecursiveMapsLeaves(resource, DefaultSelector(Selector(f)));
  }

  //
  // recursiveToMap
  //

  /** `RecursiveMapOptions` as a caller passes them. */
  datatype MapOptions = MapOptions(fullMap: Option<bool>, postfix: Option<string>,
                                   valueSelector: Option<Item -> Json>)

  /** The map options once `DEFAULT_RECURSIVE_MAP_OPTIONS` are filled in and
      the postfix is dropped when `fullMap` is off. */
  datatype MapConfig = MapConfig(fullMap: bool, postfix: string, valueSelector: Item -> Json)

  function Resolve(o: MapOptions): (c: MapConfig)
    ensures !c.fullMap ==> c.postfix == ""
  {
    var fullMap := o.fullMap == Some(true);
    MapConfig(
      fullMap,
      if fullMap then (if o.postfix.Some? then o.postfix.value else "$") else "",
      if o.valueSelector.Some? then o.valueSelector.value else (i: Item) => i.node)
  }

  /** The key `recursiveToMap` writes for an entry: `_` before a number key
      and before any key `parseFloat` reads as a number. */
  function MapKey(key: Key): string
  {
    var prefix := if key.Index? || ParseFloatSucceeds(KeyText(key)) then "_" else "";
    prefix + KeyText(key)
  }

  /** Array indexes are always prefixed; a name is prefixed exactly when it
      reads as a number, and otherwise kept as it is. */
  lemma MapKeyCases(key: Key)
    ensures key.Index? ==> MapKey(key) == "_" + NatText(key.i)
    ensures key.Name? && ParseFloatSucceeds(key.s) ==> MapKey(key) == "_" + key.s
    ensures key.Name? && !ParseFloatSucceeds(key.s) ==> MapKey(key) == key.s
  {
  }

  /** The options `recursiveToMap` hands to `recursive`. */
  function ToMapOptions(c: MapConfig): PartialOptions
  {
    NoOptions.(
      mutate := Some(if c.fullMap then Both else Leaf),
      nestedKeySelector := Some((i: Item) => Name(MapKey(i.key))),
      mutator := Some((i: Item) => (Name(MapKey(i.key) + c.postfix), c.valueSelector(i))),
      initObject := Some((i: Item) => Obj([])))
  }

  /** `recursiveToMap(resource, options)`. */
  function RecursiveToMap(resource: Json, o: MapOptions): Json
  {
    Recursive(resource, ToMapOptions(Resolve(o)), [])
  }

  /** The keys one entry contributes: a container its nested map under the
      plain key (and with `fullMap` the selected value under the postfixed
      key), a leaf its selected value under the postfixed key. */
  function StepKeys(c: MapConfig, node: Json, j: nat): seq<string>
    requires j < EntryCount(node)
  {
    KeysFor(c, EntryKey(node, j), EntryValue(node, j).IsContainer())
  }

  function KeysFor(c: MapConfig, key: Key, isContainer: bool): seq<string>
  {
    var nk := MapKey(key);
    if isContainer then [nk] + (if c.fullMap then [nk + c.postfix] else []) else [nk + c.postfix]
  }

  /** The keys the first `n` entries contribute, in order. */
  function GeneratedKeys(c: MapConfig, node: Json, n: nat): seq<string>
    requires n <= EntryCount(node)
  {
    if n == 0 then [] else GeneratedKeys(c, node, n - 1) + StepKeys(c, node, n - 1)
  }

  lemma {:induction false} GeneratedKeysPrefix(c: MapConfig, node: Json, i: nat, n: nat)
    requires i <= n <= EntryCount(node)
    ensures |GeneratedKeys(c, node, i)| <= |GeneratedKeys(c, node, n)|
    ensures GeneratedKeys(c, node, i) == GeneratedKeys(c, node, n)[..|GeneratedKeys(c, node, i)|]
    decreases n - i
  {
    if i < n {
      GeneratedKeysPrefix(c, node, i, n - 1);
      var gi, gm, gn := GeneratedKeys(c, node, i), GeneratedKeys(c, node, n - 1), GeneratedKeys(c, node, n);
      assert gn == gm + StepKeys(c, node, n - 1);
      PrefixOfLonger(gm, StepKeys(c, node, n - 1), |gi|);
    }
  }

  lemma PrefixOfLonger(a: seq<string>, b: seq<string>, m: nat)
    requires m <= |a|
    ensures (a + b)[..m] == a[..m]
  {
  }

  ghost predicate Distinct(keys: seq<string>)
  {
    forall a, b :: 0 <= a < b < |keys| ==> keys[a] != keys[b]
  }

  lemma DistinctPrefix(keys: seq<string>, m: nat)
    requires Distinct(keys) && m <= |keys|
    ensures Distinct(keys[..m])
  {
  }

  /** The keys `recursiveToMap` generates never collide, at any level (keys
      such as `1` and `_1` side by side would). */
  ghost predicate Separated(c: MapConfig, node: Json)
  {
    && Distinct(GeneratedKeys(c, node, EntryCount(node)))
    && (forall j :: 0 <= j < EntryCount(node) && EntryValue(node, j).IsContainer() ==>
          Separated(c, EntryValue(node, j)))
  }

  /** The keys of the first `m` entries of a separated level never collide. */
  lemma PrefixKeysDistinct(c: MapConfig, node: Json, m: nat)
    requires Separated(c, node) && m <= EntryCount(node)
    ensures Distinct(GeneratedKeys(c, node, m))
  {
    GeneratedKeysPrefix(c, node, m, EntryCount(node));
    DistinctPrefix(GeneratedKeys(c, node, EntryCount(node)), |GeneratedKeys(c, node, m)|);
  }

  lemma ChildSeparated(c: MapConfig, node: Json, i: nat)
    requires Separated(c, node) && i < EntryCount(node) && EntryValue(node, i).IsContainer()
    ensures Separated(c, EntryValue(node, i))
  {
  }

  /** The item the value selector is given for a mutated entry. */
  function MutatedItem(resource: Json, path: seq<string>, node: Json, j: nat): Item
    requires j < EntryCount(node)
  {
    var key := EntryKey(node, j);
    var child := EntryValue(node, j);
    Item(child, key, path + [KeyText(key)], resource, Some(child.IsContainer()), Some(true))
  }

  /** Reference for `recursiveToMap` when no generated keys collide: every
      level becomes a plain object listing, entry by entry, the nested map
      and the selected value under their generated keys. */
  function ToMapRef(resource: Json, c: MapConfig, path: seq<string>, node: Json): (r: Json)
    ensures r.Obj?
    decreases node, 1
  {
    Obj(ToMapEntries(resource, c, path, node, EntryCount(node)))
  }

  function ToMapEntries(resource: Json, c: MapConfig, path: seq<string>, node: Json, n: nat)
    : seq<(string, Json)>
    requires n <= EntryCount(node)
    decreases node, 0, n
  {
    if n == 0 then []
    else ToMapEntries(resource, c, path, node, n - 1) + StepEntries(resource, c, path, node, n - 1)
  }

  /** The entries entry `j` contributes. */
  function StepEntries(resource: Json, c: MapConfig, path: seq<string>, node: Json, j: nat)
    : seq<(string, Json)>
    requires j < EntryCount(node)
    decreases node, 0, 0
  {
    var key := EntryKey(node, j);
    var child := if node.Arr? then node.items[j] else node.entries[j].1;
    var nested := if child.IsContainer() then ToMapRef(resource, c, path + [KeyText(key)], child) else Undefined;
    ToMapStep(c, key, child.IsContainer(), nested, c.valueSelector(MutatedItem(resource, path, node, j)))
  }

  /** The entries one entry contributes, given its nested map and its
      selected value. */
  function ToMapStep(c: MapConfig, key: Key, isContainer: bool, nested: Json, value: Json): seq<(string, Json)>
  {
    var nk := MapKey(key);
    if isContainer then [(nk, nested)] + (if c.fullMap then [(nk + c.postfix, value)] else [])
    else [(nk + c.postfix, value)]
  }

  /** The reference entries carry exactly the generated keys, in order. */
  lemma {:induction false} EntriesKeys(resource: Json, c: MapConfig, path: seq<string>, node: Json, n: nat)
    requires n <= EntryCount(node)
    ensures var r := ToMapEntries(resource, c, path, node, n);
      && |r| == |GeneratedKeys(c, node, n)|
      && forall k :: 0 <= k < |r| ==> r[k].0 == GeneratedKeys(c, node, n)[k]
  {
    if n > 0 {
      EntriesKeys(resource, c, path, node, n - 1);
      var st := StepEntries(resource, c, path, node, n - 1);
      assert |st| == |StepKeys(c, node, n - 1)|;
      assert forall k :: 0 <= k < |st| ==> st[k].0 == StepKeys(c, node, n - 1)[k];
    }
  }

  /** How the filled-in options of `recursiveToMap` treat one item. */
  lemma ToMapOptionsAt(c: MapConfig, item: Item)
    ensures var opts := WithDefaults(ToMapOptions(c));
      && opts.mutate == (if c.fullMap then Both else Leaf)
      && opts.nestedKeySelector(item) == Name(MapKey(item.key))
      && opts.shouldBeNested(item) == item.node.IsContainer()
      && opts.shouldBeMutated(item) == (item.isMutable == Some(true))
      && opts.mutator(item) == (Name(MapKey(item.key) + c.postfix), c.valueSelector(item))
      && opts.initObject(item) == Obj([])
  {
  }

  /** What the walk of `recursiveToMap` needs of its filled-in options. */
  ghost predicate ToMapOpts(c: MapConfig, opts: Options)
  {
    && opts.mutate == (if c.fullMap then Both else Leaf)
    && (forall item :: opts.nestedKeySelector(item) == Name(MapKey(item.key)))
    && (forall item :: opts.shouldBeNested(item) == item.node.IsContainer())
    && (forall item :: opts.shouldBeMutated(item) == (item.isMutable == Some(true)))
    && (forall item :: opts.mutator(item) == (Name(MapKey(item.key) + c.postfix), c.valueSelector(item)))
    && (forall item :: opts.initObject(item) == Obj([]))
  }

  lemma ToMapOptsHold(c: MapConfig)
    ensures ToMapOpts(c, WithDefaults(ToMapOptions(c)))
  {
    forall item {
      ToMapOptionsAt(c, item);
    }
  }

  /** Setting a name that is not yet a key appends it. */
  lemma SetAppends(entries: seq<(string, Json)>, k: string, v: Json)
    requires forall j :: 0 <= j < |entries| ==> entries[j].0 != k
    ensures Set(Obj(entries), Name(k), v) == Obj(entries + [(k, v)])
  {
    KeyIndexIs(entries, k, |entries|);
  }

  /** Setting two new names in turn appends both. */
  lemma SetAppendsTwo(entries: seq<(string, Json)>, k1: string, v1: Json, k2: string, v2: Json)
    requires k1 != k2
    requires forall j :: 0 <= j < |entries| ==> entries[j].0 != k1 && entries[j].0 != k2
    ensures Set(Set(Obj(entries), Name(k1), v1), Name(k2), v2) == Obj(entries + ([(k1, v1)] + [(k2, v2)]))
  {
    SetAppends(entries, k1, v1);
    var e1 := entries + [(k1, v1)];
    SetAppends(e1, k2, v2);
    assert e1 + [(k2, v2)] == entries + ([(k1, v1)] + [(k2, v2)]);
  }

  /** The `reduce` callback of `recursiveToMap` appends the item's entries
      when their keys are new. */
  lemma ApplyToMap(c: MapConfig, opts: Options, item: Item, nested: Json, e: seq<(string, Json)>)
    requires ToMapOpts(c, opts)
    requires item.isNestable == Some(item.node.IsContainer())
    requires item.isMutable == Some(IsMarkedAsMutable(item.node.IsContainer(), if c.fullMap then Both else Leaf))
    requires forall q :: 0 <= q < |e| ==> e[q].0 !in KeysFor(c, item.key, item.node.IsContainer())
    requires item.node.IsContainer() && c.fullMap ==> c.postfix != ""
    ensures Apply(opts, item, nested, Obj(e))
         == Obj(e + ToMapStep(c, item.key, item.node.IsContainer(), nested, c.valueSelector(item)))
  {
    var nk := MapKey(item.key);
    var v := c.valueSelector(item);
    if item.node.IsContainer() {
      if c.fullMap {
        assert nk + c.postfix != nk by {
          assert |nk + c.postfix| > |nk|;
        }
        SetAppendsTwo(e, nk, nested, nk + c.postfix, v);
      } else {
        SetAppends(e, nk, nested);
        assert [(nk, nested)] + [] == [(nk, nested)];
      }
    } else {
      SetAppends(e, nk + c.postfix, v);
    }
  }

  /** One step of the walk of `recursiveToMap` appends the entry's
      reference entries. */
  lemma StepToMap(resource: Json, c: MapConfig, opts: Options, path: seq<string>, node: Json, i: nat)
    requires !c.fullMap ==> c.postfix == ""
    requires ToMapOpts(c, opts)
    requires i < EntryCount(node) && Distinct(GeneratedKeys(c, node, i + 1))
    requires var item := EntryItem(resource, opts, path, node, i);
      item.node.IsContainer() ==> Level(resource, opts, item.path, item.node) == ToMapRef(resource, c, item.path, item.node)
    ensures var item := EntryItem(resource, opts, path, node, i);
      var nested := if item.isNestable == Some(true) then Level(resource, opts, item.path, item.node) else Undefined;
      Apply(opts, item, nested, Obj(ToMapEntries(resource, c, path, node, i)))
        == Obj(ToMapEntries(resource, c, path, node, i + 1))
  {
    var item := EntryItem(resource, opts, path, node, i);
    var key := EntryKey(node, i);
    var container := item.node.IsContainer();
    assert item.isNestable == Some(container);
    var nested := if container then Level(resource, opts, item.path, item.node) else Undefined;
    var e := ToMapEntries(resource, c, path, node, i);
    var g := GeneratedKeys(c, node, i + 1);
    EntriesKeys(resource, c, path, node, i);
    var nk := MapKey(item.key);
    var ks := KeysFor(c, key, container);
    assert g == GeneratedKeys(c, node, i) + ks;
    forall q | 0 <= q < |e| ensures e[q].0 !in ks {
      assert e[q].0 == g[q];
      forall r | 0 <= r < |ks| ensures e[q].0 != ks[r] {
        assert ks[r] == g[|e| + r];
      }
    }
    if container && c.fullMap {
      assert ks[0] != ks[1] by {
        assert ks[0] == g[|e|] && ks[1] == g[|e| + 1];
      }
    }
    ApplyToMap(c, opts, item, nested, e);
    var v := c.valueSelector(MutatedItem(resource, path, node, i));
    assert ToMapStep(c, item.key, container, nested, c.valueSelector(item)) == ToMapStep(c, key, container, nested, v) by {
      if !container || c.fullMap {
        assert item == MutatedItem(resource, path, node, i);
      }
    }
    assert ToMapEntries(resource, c, path, node, i + 1) == e + StepEntries(resource, c, path, node, i);
  }

  lemma LevelIsToMapRef(resource: Json, c: MapConfig, path: seq<string>, node: Json)
    requires !c.fullMap ==> c.postfix == ""
    requires Separated(c, node)
    ensures Level(resource, WithDefaults(ToMapOptions(c)), path, node) == ToMapRef(resource, c, path, node)
  {
    ToMapOptsHold(c);
    LevelIsToMapRefFor(resource, c, WithDefaults(ToMapOptions(c)), path, node);
  }

  /** The walk is the reference for any options that act as those of
      `recursiveToMap`. */
  lemma {:induction false} LevelIsToMapRefFor(resource: Json, c: MapConfig, opts: Options, path: seq<string>, node: Json)
    requires !c.fullMap ==> c.postfix == ""
    requires ToMapOpts(c, opts) && Separated(c, node)
    ensures Level(resource, opts, path, node) == ToMapRef(resource, c, path, node)
    decreases node, 1
  {
    var i: nat := EntryCount(node);
    LevelFromEnd(resource, opts, path, node, Obj(ToMapEntries(resource, c, path, node, i)));
    while i > 0
      invariant i <= EntryCount(node)
      invariant LevelFrom(resource, opts, path, node, i, Obj(ToMapEntries(resource, c, path, node, i)))
             == ToMapRef(resource, c, path, node)
    {
      i := i - 1;
      NextLevelFrom(resource, c, opts, path, node, i);
    }
  }

  /** Entry `i` moves the fold on by its reference entries, its own level
      being its reference map when it is a container. */
  lemma {:induction false} NextLevelFrom(resource: Json, c: MapConfig, opts: Options, path: seq<string>, node: Json, i: nat)
    requires !c.fullMap ==> c.postfix == ""
    requires ToMapOpts(c, opts) && Separated(c, node) && i < EntryCount(node)
    ensures LevelFrom(resource, opts, path, node, i, Obj(ToMapEntries(resource, c, path, node, i)))
         == LevelFrom(resource, opts, path, node, i + 1, Obj(ToMapEntries(resource, c, path, node, i + 1)))
    decreases node, 0
  {
    var item := EntryItem(resource, opts, path, node, i);
    if item.node.IsContainer() {
      ChildSeparated(c, node, i);
      LevelIsToMapRefFor(resource, c, opts, item.path, item.node);
    }
    PrefixKeysDistinct(c, node, i + 1);
    AdvanceLevel(resource, c, opts, path, node, i);
  }

  /** One step of the fold, given that entry `i`'s own level is its
      reference map when it is a container. */
  lemma AdvanceLevel(resource: Json, c: MapConfig, opts: Options, path: seq<string>, node: Json, i: nat)
    requires !c.fullMap ==> c.postfix == ""
    requires ToMapOpts(c, opts) && i < EntryCount(node) && Distinct(GeneratedKeys(c, node, i + 1))
    requires var item := EntryItem(resource, opts, path, node, i);
      item.node.IsContainer() ==> Level(resource, opts, item.path, item.node) == ToMapRef(resource, c, item.path, item.node)
    ensures LevelFrom(resource, opts, path, node, i, Obj(ToMapEntries(resource, c, path, node, i)))
         == LevelFrom(resource, opts, path, node, i + 1, Obj(ToMapEntries(resource, c, path, node, i + 1)))
  {
    LevelFromStep(resource, opts, path, node, i, Obj(ToMapEntries(resource, c, path, node, i)));
    StepToMap(resource, c, opts, path, node, i);
  }

  /** When no generated keys collide, `recursiveToMap` is the reference:
      every level, arrays included, becomes a plain object. */
  lemma RecursiveToMapIsRef(resource: Json, o: MapOptions)
    requires Separated(Resolve(o), resource)
    ensures RecursiveToMap(resource, o) == ToMapRef(resource, Resolve(o), [], resource)
  {
    LevelIsToMapRef(resource, Resolve(o), [], resource);
  }

  lemma {:induction false} ToMapEntriesPrefix(resource: Json, c: MapConfig, path: seq<string>, node: Json, i: nat, n: nat)
    requires i <= n <= EntryCount(node)
    ensures |ToMapEntries(resource, c, path, node, i)| <= |ToMapEntries(resource, c, path, node, n)|
    ensures ToMapEntries(resource, c, path, node, i)
         == ToMapEntries(resource, c, path, node, n)[..|ToMapEntries(resource, c, path, node, i)|]
    decreases n - i
  {
    if i < n {
      ToMapEntriesPrefix(resource, c, path, node, i, n - 1);
      var ei := ToMapEntries(resource, c, path, node, i);
      var em := ToMapEntries(resource, c, path, node, n - 1);
      var en := ToMapEntries(resource, c, path, node, n);
      assert en == em + StepEntries(resource, c, path, node, n - 1);
      assert en[..|ei|] == em[..|ei|];
    }
  }

  /** What the map of one level holds for entry `j`: a container's nested
      map under the prefixed key and, with `fullMap`, its selected value
      under the postfixed key; a leaf's selected value under the postfixed
      key (which is the prefixed key when `fullMap` is off). */
  lemma ToMapRefEntry(resource: Json, c: MapConfig, path: seq<string>, node: Json, j: nat)
    requires Distinct(GeneratedKeys(c, node, EntryCount(node))) && j < EntryCount(node)
    ensures var r := ToMapRef(resource, c, path, node);
      var key := EntryKey(node, j);
      var child := EntryValue(node, j);
      var nk := MapKey(key);
      var v := c.valueSelector(MutatedItem(resource, path, node, j));
      && (child.IsContainer() ==> Lookup(r, Name(nk)) == Some(ToMapRef(resource, c, path + [KeyText(key)], child)))
      && (child.IsContainer() && c.fullMap ==> Lookup(r, Name(nk + c.postfix)) == Some(v))
      && (!child.IsContainer() ==> Lookup(r, Name(nk + c.postfix)) == Some(v))
  {
    var st := StepEntries(resource, c, path, node, j);
    StepEntryFound(resource, c, path, node, j, 0);
    if |st| == 2 {
      StepEntryFound(resource, c, path, node, j, 1);
    }
  }

  /** Each reference entry of entry `j` is what a lookup of its key finds. */
  lemma StepEntryFound(resource: Json, c: MapConfig, path: seq<string>, node: Json, j: nat, k: nat)
    requires Distinct(GeneratedKeys(c, node, EntryCount(node))) && j < EntryCount(node)
    requires k < |StepEntries(resource, c, path, node, j)|
    ensures var st := StepEntries(resource, c, path, node, j);
      Lookup(ToMapRef(resource, c, path, node), Name(st[k].0)) == Some(st[k].1)
  {
    var n := EntryCount(node);
    var full := ToMapEntries(resource, c, path, node, n);
    var e := ToMapEntries(resource, c, path, node, j);
    var st := StepEntries(resource, c, path, node, j);
    ToMapEntriesPrefix(resource, c, path, node, j + 1, n);
    EntriesKeys(resource, c, path, node, n);
    FoundAfterPrefix(full, e, st, GeneratedKeys(c, node, n), k);
  }

  lemma FoundAfterPrefix(full: seq<(string, Json)>, e: seq<(string, Json)>, st: seq<(string, Json)>,
                         g: seq<string>, k: nat)
    requires |e| + |st| <= |full| && full[..|e| + |st|] == e + st && k < |st|
    requires Distinct(g) && |full| == |g|
    requires forall q :: 0 <= q < |full| ==> full[q].0 == g[q]
    ensures Lookup(Obj(full), Name(st[k].0)) == Some(st[k].1)
  {
    assert full[|e| + k] == (e + st)[|e| + k] == st[k];
    FirstAt(full, g, |e| + k);
  }

  /** In entries whose keys are distinct, the entry at `p` is the one a
      lookup of its key finds. */
  lemma FirstAt(full: seq<(string, Json)>, g: seq<string>, p: nat)
    requires Distinct(g) && |full| == |g| && p < |full|
    requires forall k :: 0 <= k < |full| ==> full[k].0 == g[k]
    ensures Lookup(Obj(full), Name(full[p].0)) == Some(full[p].1)
  {
    forall q | 0 <= q < p ensures full[q].0 != full[p].0 {
      assert g[q] != g[p];
    }
    KeyIndexIs(full, full[p].0, p);
  }

  /** The map of one level has exactly the generated keys. */
  lemma ToMapRefKeys(resource: Json, c: MapConfig, path: seq<string>, node: Json, k: string)
    ensures Lookup(ToMapRef(resource, c, path, node), Name(k)).Some?
        <==> k in GeneratedKeys(c, node, EntryCount(node))
  {
    EntriesKeys(resource, c, path, node, EntryCount(node));
    NamesFound(ToMapEntries(resource, c, path, node, EntryCount(node)), GeneratedKeys(c, node, EntryCount(node)), k);
  }

  /** An object whose entries carry the names `names`, in order, has a
      property exactly for each of them. */
  lemma NamesFound(entries: seq<(string, Json)>, names: seq<string>, k: string)
    requires |entries| == |names|
    requires forall q :: 0 <= q < |entries| ==> entries[q].0 == names[q]
    ensures Lookup(Obj(entries), Name(k)).Some? <==> k in names
  {
    var q := KeyIndex(entries, k);
    if q < |entries| {
      assert names[q] == k;
    }
    if k in names {
      var a :| 0 <= a < |names| && names[a] == k;
      assert entries[a].0 == k;
    }
  }

  //
  // buildKey and toPathMap
  //

  /** `buildKey(path, separator)`: `path.join(separator)`, where an absent
      separator means JavaScript's default `,`. */
  function BuildKey(path: seq<string>, separator: Option<string>): string
  {
    Join(path, if separator.Some? then separator.value else ",")
  }

  /** The value selector of `toPathMap`: the item's path joined by
      `buildKey`. */
  function PathSelector(separator: Option<string>): (selector: Item -> Json)
    ensures forall item: Item :: selector(item) == Str(BuildKey(item.path, separator))
  {
    (item: Item) => Str(BuildKey(item.path, separator))
  }

  /** `toPathMap(resource, fullMap)` as written: `buildKey(options.path)`
      with no separator. */
  function ToPathMap(resource: Json, fullMap: Option<bool>): Json
  {
    RecursiveToMap(resource, MapOptions(fullMap, None, Some(PathSelector(None))))
  }

  /** `toPathMap` with the `.` separator its tests and documentation
      expect. */
  function ToPathMapDotted(resource: Json, fullMap: Option<bool>): Json
  {
    RecursiveToMap(resource, MapOptions(fullMap, None, Some(PathSelector(Some(".")))))
  }

  /** A one-letter key is written as it is. */
  lemma LetterKey(k: string)
    requires |k| == 1 && 'a' <= k[0] <= 'z'
    ensures MapKey(Name(k)) == k
  {
    ParseFloatOfLetter(k);
    assert KeyText(Name(k)) == k;
  }

  /** A one-entry level with a one-letter key generates just that key. */
  lemma SingleEntryKeys(c: MapConfig, node: Json, k: string)
    requires node.Obj? && |node.entries| == 1 && node.entries[0].0 == k
    requires |k| == 1 && 'a' <= k[0] <= 'z'
    requires !c.fullMap && c.postfix == ""
    ensures GeneratedKeys(c, node, 1) == [k]
  {
    LetterKey(k);
    assert EntryKey(node, 0) == Name(k);
    if EntryValue(node, 0).IsContainer() {
      assert StepKeys(c, node, 0) == [k] + [];
    } else {
      assert k + "" == k;
      assert StepKeys(c, node, 0) == [k + ""];
    }
    assert GeneratedKeys(c, node, 1) == GeneratedKeys(c, node, 0) + StepKeys(c, node, 0);
  }

  /** The generated keys of `{ a: { b: <leaf> } }` do not collide. */
  lemma NestedSeparated(resource: Json, c: MapConfig)
    requires NestedShape(resource)
    requires !c.fullMap && c.postfix == ""
    ensures Separated(c, resource)
  {
    var inner := resource.entries[0].1;
    SingleEntryKeys(c, inner, "b");
    assert !EntryValue(inner, 0).IsContainer();
    assert Separated(c, inner);
    SingleEntryKeys(c, resource, "a");
    assert EntryValue(resource, 0) == inner;
  }

  /** The reference map of a one-entry object with a one-letter key. */
  lemma SingleEntryRef(resource: Json, c: MapConfig, path: seq<string>, node: Json, k: string)
    requires node.Obj? && |node.entries| == 1 && node.entries[0].0 == k
    requires |k| == 1 && 'a' <= k[0] <= 'z'
    requires !c.fullMap && c.postfix == ""
    ensures var child := node.entries[0].1;
      ToMapRef(resource, c, path, node)
        == Obj([(k, if child.IsContainer() then ToMapRef(resource, c, path + [k], child)
                    else c.valueSelector(MutatedItem(resource, path, node, 0)))])
  {
    LetterKey(k);
    assert KeyText(Name(k)) == k;
    assert k + "" == k;
    var child := node.entries[0].1;
    var nested := if child.IsContainer() then ToMapRef(resource, c, path + [k], child) else Undefined;
    var v := c.valueSelector(MutatedItem(resource, path, node, 0));
    assert StepEntries(resource, c, path, node, 0) == ToMapStep(c, Name(k), child.IsContainer(), nested, v);
    assert ToMapEntries(resource, c, path, node, 1) == ToMapEntries(resource, c, path, node, 0) + StepEntries(resource, c, path, node, 0);
  }

  /** `{ a: { b: <leaf> } }`. */
  predicate NestedShape(resource: Json)
  {
    && resource.Obj? && |resource.entries| == 1 && resource.entries[0].0 == "a"
    && var inner := resource.entries[0].1;
       inner.Obj? && |inner.entries| == 1 && inner.entries[0].0 == "b" && !inner.entries[0].1.IsContainer()
  }

  /** The reference map of `{ a: { b: <leaf> } }`. */
  lemma NestedRef(resource: Json, c: MapConfig)
    requires NestedShape(resource)
    requires !c.fullMap && c.postfix == ""
    ensures ToMapRef(resource, c, [], resource)
         == Obj([("a", Obj([("b", c.valueSelector(MutatedItem(resource, ["a"], resource.entries[0].1, 0)))]))])
  {
    var inner := resource.entries[0].1;
    SingleEntryRef(resource, c, ["a"], inner, "b");
    SingleEntryRef(resource, c, [], resource, "a");
    assert [] + ["a"] == ["a"];
  }

  /** `toPathMap` on `{ a: { b: <leaf> } }` with either separator. */
  lemma NestedPathMap(resource: Json, separator: Option<string>)
    requires NestedShape(resource)
    ensures RecursiveToMap(resource, MapOptions(None, None, Some(PathSelector(separator))))
         == Obj([("a", Obj([("b", Str(BuildKey(["a", "b"], separator)))]))])
  {
    var o := MapOptions(None, None, Some(PathSelector(separator)));
    var c := Resolve(o);
    NestedSeparated(resource, c);
    RecursiveToMapIsRef(resource, o);
    NestedRef(resource, c);
    var item := MutatedItem(resource, ["a"], resource.entries[0].1, 0);
    assert item.path == ["a", "b"];
  }

  /** As written, a nested leaf's value is its path joined by commas: the map
      of `{ a: { b: <leaf> } }` holds `'a,b'` where `'a.b'` is expected. */
  lemma ToPathMapJoinsWithComma(resource: Json)
    requires NestedShape(resource)
    ensures ToPathMap(resource, None) == Obj([("a", Obj([("b", Str("a,b"))]))])
    ensures ToPathMapDotted(resource, None) == Obj([("a", Obj([("b", Str("a.b"))]))])
  {
    NestedPathMap(resource, None);
    NestedPathMap(resource, Some("."));
    assert Join(["a", "b"], ",") == "a,b";
    assert Join(["a", "b"], ".") == "a.b";
  }

  lemma ParseFloatOfLetter(s: string)
    requires |s| == 1 && 'a' <= s[0] <= 'z'
    ensures !ParseFloatSucceeds(s)
  {
    var c := s[0];
    assert !IsSpace(c);
    assert TrimStart(s) == s;
    assert c != '+' && c != '-';
    assert DropSign(s) == s;
    assert !IsDigit(c) && c != '.';
  }

  /** With the `.` separator every leaf of the map holds a path that, split at
      its dots, leads lodash `get` from the resource back to that leaf (for
      keys without dots). */
  lemma DottedLeafResolves(resource: Json, path: seq<string>, node: Json, j: nat)
    requires path != [] ==> Get(resource, path) == node
    requires path == [] ==> resource == node
    requires DistinctKeys(node) && j < EntryCount(node)
    requires forall q :: 0 <= q < |path| ==> '.' !in path[q]
    requires '.' !in KeyText(EntryKey(node, j))
    ensures var c := Resolve(MapOptions(None, None, Some(PathSelector(Some(".")))));
      var v := c.valueSelector(MutatedItem(resource, path, node, j));
      v.Str? && Get(resource, Split(v.s, '.')) == EntryValue(node, j)
  {
    var c := Resolve(MapOptions(None, None, Some(PathSelector(Some(".")))));
    var item := MutatedItem(resource, path, node, j);
    var p := path + [KeyText(EntryKey(node, j))];
    assert item.path == p;
    assert c.valueSelector(item) == Str(Join(p, "."));
    SplitJoin(p, '.');
    ChildAtPath(resource, path, node, j);
  }
}
