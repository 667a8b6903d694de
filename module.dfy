/** The service module (src/features/module/module.ts): a tree of handlers
    registered under dotted names, and shared options that wrapped handlers
    receive as their last argument when they are called. */
module Service {
  import opened Wrappers
  import opened Js

  /** A node of the tree: a plain object of named sub-nodes, or a function.
      A JavaScript function is an object too, so it can carry properties
      that `register` adds to it. */
  datatype Node =
    | Tree(entries: seq<(string, Node)>)
    | Fn(callee: Callee, props: seq<(string, Node)>)

  /** What a function does when called: an original handler, or the
      `withOptions` wrapper, which calls `inner` with the options its module
      holds at call time appended to the arguments. */
  datatype Callee =
    | Handler(id: nat)
    | WithOptions(inner: Node, owner: Module)

  /** The argument list an original handler is finally called with. */
  datatype Invocation = Invocation(handler: nat, args: seq<Json>)

  /** What `currentNode` holds during the walk of `register`: `undefined`, or
      a node. */
  datatype Slot = Missing | At(node: Node)

  /** The second argument of `register`: a node, or another module. */
  datatype Registrable = Plain(node: Node) | Sub(sub: Module)

  //
  // Properties of nodes
  //

  /** The own properties of a node. */
  function Props(n: Node): seq<(string, Node)>
  {
    if n.Tree? then n.entries else n.props
  }

  /** The first entry named `key`. */
  function Find(entries: seq<(string, Node)>, key: string): Slot
  {
    if entries == [] then Missing
    else if entries[0].0 == key then At(entries[0].1)
    else Find(entries[1..], key)
  }

  /** `node[key]`. */
  function Prop(n: Node, key: string): Slot
  {
    Find(Props(n), key)
  }

  /** `entries[key] = value` on an object's entries: replace the first entry
      of that name in place, or append a new one. */
  function Assigned(entries: seq<(string, Node)>, key: string, value: Node): (r: seq<(string, Node)>)
    ensures Find(r, key) == At(value)
  {
    if entries == [] then [(key, value)]
    else if entries[0].0 == key then [(key, value)] + entries[1..]
    else [entries[0]] + Assigned(entries[1..], key, value)
  }

  /** Assigning one property leaves every other property as it was. */
  lemma {:induction false} AssignedKeepsOthers(entries: seq<(string, Node)>, key: string, value: Node, other: string)
    requires other != key
    ensures Find(Assigned(entries, key, value), other) == Find(entries, other)
    decreases |entries|
  {
    if entries != [] && entries[0].0 != key {
      AssignedKeepsOthers(entries[1..], key, value, other);
      assert ([entries[0]] + Assigned(entries[1..], key, value))[1..] == Assigned(entries[1..], key, value);
    } else if entries != [] {
      assert ([(key, value)] + entries[1..])[1..] == entries[1..];
    }
  }

  /** `node[key] = value`. */
  function SetProp(n: Node, key: string, value: Node): (r: Node)
    ensures Prop(r, key) == At(value)
    ensures r.Tree? == n.Tree?
  {
    match n
    case Tree(entries) => Tree(Assigned(entries, key, value))
    case Fn(callee, props) => Fn(callee, Assigned(props, key, value))
  }

  //
  // Calling and wrapping handlers
  //

  /** The modules whose options a call of `n` reads. */
  function Owners(n: Node): set<Module>
  {
    match n
    case Tree(_) => {}
    case Fn(callee, _) =>
      match callee
      case Handler(_) => {}
      case WithOptions(inner, owner) => {owner} + Owners(inner)
  }

  /** Calling node `n` with `params`: a plain object cannot be called (a
      `TypeError`); a wrapper appends its module's current options and calls
      what it wraps. */
  function Call(n: Node, params: seq<Json>): Option<Invocation>
    reads Owners(n)
  {
    match n
    case Tree(_) => None
    case Fn(callee, _) =>
      match callee
      case Handler(id) => Some(Invocation(id, params))
      case WithOptions(inner, owner) => Call(inner, params + [owner.options])
  }

  /** `_wrapHandlers(node)` for the module `owner`: a function becomes a
      fresh `withOptions` wrapper (with no properties of its own); a plain
      object has each of its entries wrapped in turn, keeping its keys. */
  function Wrapped(n: Node, owner: Module): Node
    decreases n
  {
    match n
    case Fn(_, _) => Fn(WithOptions(n, owner), [])
    case Tree(entries) =>
      Tree(seq(|entries|, i requires 0 <= i < |entries| =>
        assert entries[i] in entries;
        (entries[i].0, Wrapped(entries[i].1, owner))))
  }

  /** A wrapped handler is called with the caller's arguments followed by
      the options its module holds when the call happens. */
  lemma WrappedCall(n: Node, owner: Module, params: seq<Json>)
    requires n.Fn?
    ensures Call(Wrapped(n, owner), params) == Call(n, params + [owner.options])
  {
  }

  /** Wrapping a plain object keeps its keys and wraps the value under each. */
  lemma {:induction false} WrappedFind(entries: seq<(string, Node)>, owner: Module, key: string)
    ensures var w := Wrapped(Tree(entries), owner);
      Find(w.entries, key) == match Find(entries, key)
        case Missing => Missing
        case At(v) => At(Wrapped(v, owner))
    decreases |entries|
  {
    var w := Wrapped(Tree(entries), owner);
    if entries != [] && entries[0].0 != key {
      WrappedFind(entries[1..], owner, key);
      var rest := Wrapped(Tree(entries[1..]), owner);
      assert w.entries[1..] == rest.entries;
    }
  }

  /** A path that passes through plain objects only. */
  ghost predicate TreePath(n: Node, path: seq<string>)
    decreases |path|
  {
    path != [] ==> n.Tree? && Prop(n, path[0]).At? && TreePath(Prop(n, path[0]).node, path[1..])
  }

  /** Following property reads from a slot; `undefined` stays `undefined`. */
  function Reach(s: Slot, path: seq<string>): (r: Slot)
    ensures s.Missing? ==> r.Missing?
    decreases |path|
  {
    if path == [] || s.Missing? then s else Reach(Prop(s.node, path[0]), path[1..])
  }

  /** Every handler reachable through plain objects is wrapped in place in
      the wrapped tree: the same path reaches its wrapper. */
  lemma {:induction false} WrappedReach(n: Node, owner: Module, path: seq<string>)
    requires TreePath(n, path)
    ensures Reach(At(n), path).At?
    ensures Reach(At(Wrapped(n, owner)), path) == At(Wrapped(Reach(At(n), path).node, owner))
    decreases |path|
  {
    if path != [] {
      WrappedFind(n.entries, owner, path[0]);
      WrappedReach(Prop(n, path[0]).node, owner, path[1..]);
    }
  }

  //
  // Registration
  //

  /** `keys.reduce((currentNode, key) => currentNode[key], rootNode)`:
      `None` when it reads a property of `undefined`, which throws. */
  function WalkFrom(s: Slot, keys: seq<string>): Option<Slot>
    decreases |keys|
  {
    if keys == [] then Some(s)
    else match s
      case Missing => None
      case At(n) => WalkFrom(Prop(n, keys[0]), keys[1..])
  }

  /** The walk throws exactly when a strict prefix of the keys already reads
      `undefined`; otherwise it ends where the property reads lead. */
  lemma {:induction false} WalkIsReach(s: Slot, keys: seq<string>)
    ensures WalkFrom(s, keys).None? <==> |keys| > 0 && Reach(s, keys[..|keys| - 1]).Missing?
    ensures WalkFrom(s, keys).Some? ==> WalkFrom(s, keys).value == Reach(s, keys)
    decreases |keys|
  {
    if keys != [] && s.At? {
      var rest := keys[1..];
      WalkIsReach(Prop(s.node, keys[0]), rest);
      if |rest| > 0 {
        assert keys[..|keys| - 1][1..] == rest[..|rest| - 1];
      }
    }
  }

  /** The root with `value` stored under `last` in the node the keys lead to,
      every node on the way rebuilt with its updated child. */
  function Put(n: Node, keys: seq<string>, last: string, value: Node): Node
    requires Reach(At(n), keys).At?
    decreases |keys|
  {
    if keys == [] then SetProp(n, last, value)
    else SetProp(n, keys[0], Put(Prop(n, keys[0]).node, keys[1..], last, value))
  }

  /** The effect of `register` on the tree, for the segments `keys` of the
      name: `None` when it throws, the tree unchanged when the last segment
      is empty, otherwise the tree with `value` stored under the last segment
      of the node the others lead to. */
  function RegisterKeys(root: Node, keys: seq<string>, value: Node): Option<Node>
    requires |keys| >= 1
  {
    var inner := keys[..|keys| - 1];
    var last := keys[|keys| - 1];
    match WalkFrom(At(root), inner)
    case None => None
    case Some(slot) =>
      if last == "" then Some(root)
      else if slot.Missing? then None
      else
        WalkIsReach(At(root), inner);
        Some(Put(root, inner, last, value))
  }

  /** `register(name, value)` splits the name on `.`. */
  function RegisterTree(root: Node, name: string, value: Node): Option<Node>
  {
    RegisterKeys(root, Split(name, '.'), value)
  }

  /** When `register` succeeds with a non-empty last segment, the value can
      be read back under the whole dotted path. */
  lemma RegisterStores(root: Node, keys: seq<string>, value: Node)
    requires |keys| >= 1 && keys[|keys| - 1] != ""
    requires RegisterKeys(root, keys, value).Some?
    ensures Reach(At(RegisterKeys(root, keys, value).value), keys) == At(value)
  {
    var inner := keys[..|keys| - 1];
    var last := keys[|keys| - 1];
    RegisterKeysPut(root, keys, value);
    PutReach(root, inner, last, value);
    assert inner + [last] == keys;
  }

  /** A registration that succeeds with a non-empty last segment is `Put`. */
  lemma RegisterKeysPut(root: Node, keys: seq<string>, value: Node)
    requires |keys| >= 1 && keys[|keys| - 1] != ""
    requires RegisterKeys(root, keys, value).Some?
    ensures Reach(At(root), keys[..|keys| - 1]).At?
    ensures RegisterKeys(root, keys, value) == Some(Put(root, keys[..|keys| - 1], keys[|keys| - 1], value))
  {
    WalkIsReach(At(root), keys[..|keys| - 1]);
  }

  lemma {:induction false} PutReach(n: Node, keys: seq<string>, last: string, value: Node)
    requires Reach(At(n), keys).At?
    ensures Reach(At(Put(n, keys, last, value)), keys + [last]) == At(value)
    decreases |keys|
  {
    if keys != [] {
      PutReach(Prop(n, keys[0]).node, keys[1..], last, value);
      assert (keys + [last])[1..] == keys[1..] + [last];
    } else {
      assert [last][1..] == [];
    }
  }

  /** `path` leaves the dotted path `full` at some position: it is not a
      prefix of it and does not extend it. */
  ghost predicate Diverges(path: seq<string>, full: seq<string>)
  {
    exists j :: 0 <= j < |path| && j < |full| && path[..j] == full[..j] && path[j] != full[j]
  }

  /** `register` changes nothing that lies off the dotted path it writes. */
  lemma RegisterKeepsOthers(root: Node, keys: seq<string>, value: Node, path: seq<string>)
    requires |keys| >= 1
    requires RegisterKeys(root, keys, value).Some?
    requires Diverges(path, keys)
    ensures Reach(At(RegisterKeys(root, keys, value).value), path) == Reach(At(root), path)
  {
    var inner := keys[..|keys| - 1];
    var last := keys[|keys| - 1];
    if last != "" {
      WalkIsReach(At(root), inner);
      assert inner + [last] == keys;
      var j :| 0 <= j < |path| && j < |keys| && path[..j] == keys[..j] && path[j] != keys[j];
      PutKeepsOthers(root, inner, last, value, path, j);
    }
  }

  lemma {:induction false} PutKeepsOthers(n: Node, keys: seq<string>, last: string, value: Node, path: seq<string>, j: nat)
    requires Reach(At(n), keys).At?
    requires j < |path| && j <= |keys| && path[..j] == keys[..j]
    requires path[j] != (keys + [last])[j]
    ensures Reach(At(Put(n, keys, last, value)), path) == Reach(At(n), path)
    decreases |keys|
  {
    var r := Put(n, keys, last, value);
    if j == 0 {
      if keys == [] {
        AssignedKeepsOthers(Props(n), last, value, path[0]);
      } else {
        AssignedKeepsOthers(Props(n), keys[0], Put(Prop(n, keys[0]).node, keys[1..], last, value), path[0]);
      }
      assert Prop(r, path[0]) == Prop(n, path[0]);
    } else {
      assert path[0] == keys[0] by {
        assert path[..j][0] == keys[..j][0];
      }
      var child := Prop(n, keys[0]).node;
      assert path[1..][..j - 1] == keys[1..][..j - 1];
      assert (keys[1..] + [last])[j - 1] == (keys + [last])[j];
      PutKeepsOthers(child, keys[1..], last, value, path[1..], j - 1);
    }
  }

  /** `register` throws exactly when a segment before the last reads
      `undefined` and something is still to be read from or written to it;
      with an empty last segment it never changes the tree. */
  lemma RegisterOutcome(root: Node, keys: seq<string>, value: Node)
    requires |keys| >= 1
    ensures var inner := keys[..|keys| - 1];
      var last := keys[|keys| - 1];
      && (last != "" ==> (RegisterKeys(root, keys, value).None? <==> Reach(At(root), inner).Missing?))
      && (last == "" ==> (RegisterKeys(root, keys, value).None?
                          <==> |inner| > 0 && Reach(At(root), inner[..|inner| - 1]).Missing?))
      && (last == "" && RegisterKeys(root, keys, value).Some? ==> RegisterKeys(root, keys, value).value == root)
  {
    var inner := keys[..|keys| - 1];
    WalkIsReach(At(root), inner);
    if |inner| > 0 && Reach(At(root), inner[..|inner| - 1]).Missing? {
      ReachPrefixMissing(At(root), inner[..|inner| - 1], [inner[|inner| - 1]]);
      assert inner[..|inner| - 1] + [inner[|inner| - 1]] == inner;
    }
  }

  /** Once a prefix reads `undefined`, so does every extension of it. */
  lemma {:induction false} ReachPrefixMissing(s: Slot, p: seq<string>, q: seq<string>)
    requires Reach(s, p).Missing?
    ensures Reach(s, p + q).Missing?
    decreases |p|
  {
    if p != [] && s.At? {
      ReachPrefixMissing(Prop(s.node, p[0]), p[1..], q);
      assert (p + q)[1..] == p[1..] + q;
    } else if p == [] {
      assert p + q == q;
    }
  }

  /** What `register` is given once another module's root has been read:
      a node to store, or the registering module's own root. */
  datatype Source = Given(node: Node) | OwnRoot

  /** The source for `register`'s second argument: another module's root
      object (the wrap flag is ignored), or the node itself, wrapped when
      asked. */
  function SourceOf(reg: Registrable, wrapHandlers: bool, owner: Module): Source
    reads if reg.Sub? && reg.sub != owner then {reg.sub} else {}
  {
    match reg
    case Sub(m) => if m == owner then OwnRoot else Given(m.rootNode)
    case Plain(n) => Given(if wrapHandlers then Wrapped(n, owner) else n)
  }

  /** The node stored from a source when the module's root is `root`. */
  function StoredFrom(src: Source, root: Node): Node
  {
    match src
    case Given(n) => n
    case OwnRoot => root
  }

  /** `registers(entries)`: `register` for each entry in order; the first
      one that throws stops the rest, and what was registered before it
      stays. The flag says whether all of them went through. */
  function RegisterAll(root: Node, entries: seq<(string, Source)>): (Node, bool)
    decreases |entries|
  {
    if entries == [] then (root, true)
    else
      match RegisterTree(root, entries[0].0, StoredFrom(entries[0].1, root))
      case None => (root, false)
      case Some(r) => RegisterAll(r, entries[1..])
  }

  /** A registration that throws leaves the tree as the earlier ones left
      it and reports failure, whatever follows it. */
  lemma {:induction false} RegisterAllStops(root: Node, done: seq<(string, Source)>, failing: (string, Source), rest: seq<(string, Source)>)
    requires RegisterAll(root, done).1
    requires var mid := RegisterAll(root, done).0;
      RegisterTree(mid, failing.0, StoredFrom(failing.1, mid)).None?
    ensures RegisterAll(root, done + [failing] + rest) == (RegisterAll(root, done).0, false)
    decreases |done|
  {
    if done == [] {
      assert done + [failing] + rest == [failing] + rest;
    } else {
      var r := RegisterTree(root, done[0].0, StoredFrom(done[0].1, root));
      RegisterAllStops(r.value, done[1..], failing, rest);
      assert (done + [failing] + rest)[1..] == done[1..] + [failing] + rest;
    }
  }

  lemma AppendTail<T>(a: seq<T>, b: seq<T>)
    requires a != []
    ensures (a + b)[0] == a[0] && (a + b)[1..] == a[1..] + b
  {
  }

  /** Registrations that all succeed compose: registering `done` and then
      `rest` is registering `rest` into the tree `done` left. */
  lemma {:induction false} RegisterAllSplits(root: Node, done: seq<(string, Source)>, rest: seq<(string, Source)>)
    requires RegisterAll(root, done).1
    ensures RegisterAll(root, done + rest) == RegisterAll(RegisterAll(root, done).0, rest)
    decreases |done|
  {
    if done == [] {
      assert done + rest == rest;
    } else {
      var r := RegisterTree(root, done[0].0, StoredFrom(done[0].1, root));
      assert r.Some? && RegisterAll(root, done) == RegisterAll(r.value, done[1..]);
      RegisterAllSplits(r.value, done[1..], rest);
      AppendTail(done, rest);
    }
  }

  /** `RegisterAll` from entry `i` on is entry `i` followed by the rest. */
  lemma RegisterAllAt(root: Node, entries: seq<(string, Source)>, i: nat)
    requires i < |entries|
    ensures RegisterAll(root, entries[i..])
         == match RegisterTree(root, entries[i].0, StoredFrom(entries[i].1, root))
            case None => (root, false)
            case Some(r) => RegisterAll(r, entries[i + 1..])
  {
    assert entries[i..][0] == entries[i] && entries[i..][1..] == entries[i + 1..];
  }

  /** The entries of `registers` with each module argument read. */
  function Sources(nodes: seq<(string, Registrable)>, wrapHandlers: bool, owner: Module): (r: seq<(string, Source)>)
    reads set i | 0 <= i < |nodes| && nodes[i].1.Sub? && nodes[i].1.sub != owner :: nodes[i].1.sub
    ensures |r| == |nodes|
  {
    seq(|nodes|, i requires 0 <= i < |nodes|
        reads set i | 0 <= i < |nodes| && nodes[i].1.Sub? && nodes[i].1.sub != owner :: nodes[i].1.sub
        => (nodes[i].0, SourceOf(nodes[i].1, wrapHandlers, owner)))
  }

  /** `Module`: the shared options and the root of the registered tree. */
  class Module {
    var options: Json
    var rootNode: Node

    /** `new Module(options)`: an empty root object. */
    constructor(options: Json)
      ensures this.options == options && rootNode == Tree([])
    {
      this.options := options;
      rootNode := Tree([]);
    }

    /** `opt(callback)`: replace the options by the callback's result and
        return the module itself. */
    method Opt(callback: Json -> Json) returns (self: Module)
      modifies this
      ensures self == this
      ensures options == callback(old(options)) && rootNode == old(rootNode)
    {
      options := callback(options);
      return this;
    }

    /** `_wrapHandlers(node)`: wrap a function, or overwrite each entry of
        an object with its wrapped value. */
    method WrapHandlers(node: Node) returns (r: Node)
      ensures r == Wrapped(node, this)
      decreases node
    {
      if node.Fn? {
        return Fn(WithOptions(node, this), []);
      }
      var entries := node.entries;
      for i := 0 to |entries|
        invariant |entries| == |node.entries|
        invariant forall j :: 0 <= j < i ==> entries[j] == (node.entries[j].0, Wrapped(node.entries[j].1, this))
        invariant forall j :: i <= j < |entries| ==> entries[j] == node.entries[j]
      {
        var (name, sub) := entries[i];
        assert node.entries[i] in node.entries;
        var w := WrapHandlers(sub);
        entries := entries[i := (name, w)];
      }
      return Tree(entries);
    }

    /** `register(name, node, wrapHandlers)`: walk the intermediate segments
        of the dotted name, then store under the last one. `ok` is false
        when the source throws. */
    method Register(name: string, node: Registrable, wrapHandlers: bool) returns (ok: bool)
      modifies this
      ensures options == old(options)
      ensures RegisterTree(old(rootNode), name, StoredFrom(old(SourceOf(node, wrapHandlers, this)), old(rootNode)))
           == if ok then Some(rootNode) else None
      ensures !ok ==> rootNode == old(rootNode)
    {
      var keys := Split(name, '.');
      var lastKey := keys[|keys| - 1];
      keys := keys[..|keys| - 1];
      var current := At(rootNode);
      var i := 0;
      while i < |keys|
        invariant 0 <= i <= |keys|
        invariant WalkFrom(At(rootNode), keys) == WalkFrom(current, keys[i..])
      {
        if current.Missing? {
          return false;
        }
        assert keys[i..][1..] == keys[i + 1..];
        current := Prop(current.node, keys[i]);
        i := i + 1;
      }
      WalkIsReach(At(rootNode), keys);
      if lastKey != "" {
        var value: Node;
        if node.Sub? {
          value := node.sub.rootNode;
        } else if wrapHandlers {
          value := WrapHandlers(node.node);
        } else {
          value := node.node;
        }
        if current.Missing? {
          return false;
        }
        rootNode := Put(rootNode, keys, lastKey, value);
      }
      return true;
    }

    /** `registers(nodes, wrapHandlers)`: `register` for each entry. */
    method Registers(nodes: seq<(string, Registrable)>, wrapHandlers: bool) returns (ok: bool)
      modifies this
      ensures options == old(options)
      ensures (rootNode, ok) == RegisterAll(old(rootNode), old(Sources(nodes, wrapHandlers, this)))
    {
      ghost var sources := Sources(nodes, wrapHandlers, this);
      ghost var start := rootNode;
      var i := 0;
      while i < |nodes|
        invariant 0 <= i <= |nodes|
        invariant options == old(options)
        invariant forall j :: i <= j < |nodes| ==> sources[j] == (nodes[j].0, SourceOf(nodes[j].1, wrapHandlers, this))
        invariant RegisterAll(start, sources) == RegisterAll(rootNode, sources[i..])
      {
        ghost var before := rootNode;
        RegisterAllAt(before, sources, i);
        ok := Register(nodes[i].0, nodes[i].1, wrapHandlers);
        if !ok {
          return false;
        }
        i := i + 1;
      }
      assert sources[i..] == [];
      return true;
    }
  }
}
