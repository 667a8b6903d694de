/** The JavaScript values the secondary cores walk over: a JSON-like tree
    (null, undefined, booleans, numbers, strings, arrays and plain objects),
    property keys, the `typeof` operator, the decimal text of an array index
    and the test `!isNaN(parseFloat(s))`. */
module Js {
  import opened Wrappers

  /** A JavaScript value as the tree walkers see it. Numbers are `real`; an
      object is the list of its own enumerable entries in enumeration order. */
  datatype Json =
    | Null
    | Undefined
    | Bool(b: bool)
    | Num(n: real)
    | Str(s: string)
    | Arr(items: seq<Json>)
    | Obj(entries: seq<(string, Json)>)
  {
    /** Arrays and plain objects: the values a walker descends into. */
    predicate IsContainer() { Arr? || Obj? }
  }

  /** A property key as the walkers produce it: the number index of an array
      element, or a string. */
  datatype Key = Index(i: nat) | Name(s: string)

  /** The `typeof` operator on the values of `Json`. */
  function TypeOf(v: Json): (t: string)
    ensures t == "object" <==> v.Null? || v.IsContainer()
    ensures t == "number" <==> v.Num?
    ensures t == "string" <==> v.Str?
  {
    match v
    case Null => "object"
    case Undefined => "undefined"
    case Bool(_) => "boolean"
    case Num(_) => "number"
    case Str(_) => "string"
    case Arr(_) => "object"
    case Obj(_) => "object"
  }

  predicate IsDigit(c: char) { '0' <= c <= '9' }

  function DigitChar(d: nat): (c: char)
    requires d < 10
    ensures IsDigit(c)
  {
    "0123456789"[d]
  }

  function DigitValue(c: char): (d: nat)
    requires IsDigit(c)
    ensures d < 10
  {
    (c as int - '0' as int) as nat
  }

  /** The value of a string of decimal digits. */
  function DigitsValue(s: string): nat
    requires forall i :: 0 <= i < |s| ==> IsDigit(s[i])
  {
    if s == [] then 0 else 10 * DigitsValue(s[..|s| - 1]) + DigitValue(s[|s| - 1])
  }

  /** The decimal text JavaScript gives a non-negative integer (`String(n)`),
      which is also the text of an array index used as a property key. */
  function NatText(n: nat): (s: string)
    ensures |s| >= 1
    ensures forall i :: 0 <= i < |s| ==> IsDigit(s[i])
    ensures |s| > 1 ==> s[0] != '0'
    decreases n
  {
    if n < 10 then [DigitChar(n)] else NatText(n / 10) + [DigitChar(n % 10)]
  }

  /** Reading the decimal text back gives the number: `NatText` loses nothing. */
  lemma {:induction false} NatTextRoundTrip(n: nat)
    ensures DigitsValue(NatText(n)) == n
    decreases n
  {
    if n >= 10 {
      var s := NatText(n);
      assert s[..|s| - 1] == NatText(n / 10);
      NatTextRoundTrip(n / 10);
    }
  }

  /** Two indexes have the same text only if they are equal. */
  lemma NatTextInjective(m: nat, n: nat)
    requires NatText(m) == NatText(n)
    ensures m == n
  {
    NatTextRoundTrip(m);
    NatTextRoundTrip(n);
  }

  /** The text of a key, as JavaScript converts a property key or a path
      segment to a string. */
  function KeyText(k: Key): string
  {
    match k
    case Index(i) => NatText(i)
    case Name(s) => s
  }

  /** The leading white space `parseFloat` skips: JavaScript's white space
      (tab, vertical tab, form feed, the byte-order mark and every Unicode
      space separator) and its line terminators. */
  predicate IsSpace(c: char)
  {
    || c == '\t' || c == '\U{B}' || c == '\U{C}' || c == ' ' || c == '\U{A0}' || c == '\U{FEFF}'
    || c == '\U{1680}' || ('\U{2000}' <= c <= '\U{200A}') || c == '\U{202F}' || c == '\U{205F}'
    || c == '\U{3000}'
    || c == '\n' || c == '\r' || c == '\U{2028}' || c == '\U{2029}'
  }

  /** `s` without its leading white space. */
  function TrimStart(s: string): (r: string)
    ensures |r| <= |s|
    ensures r != [] ==> !IsSpace(r[0])
  {
    if s != [] && IsSpace(s[0]) then TrimStart(s[1..]) else s
  }

  function DropSign(s: string): (r: string)
    ensures |r| <= |s|
  {
    if s != [] && (s[0] == '+' || s[0] == '-') then s[1..] else s
  }

  /** `!isNaN(parseFloat(s))`: after leading white space and an optional
      sign, the text starts with `Infinity`, a digit, or a point followed by
      a digit. */
  predicate ParseFloatSucceeds(s: string)
  {
    var t := DropSign(TrimStart(s));
    (|t| >= 8 && t[..8] == "Infinity")
    || (|t| >= 1 && IsDigit(t[0]))
    || (|t| >= 2 && t[0] == '.' && IsDigit(t[1]))
  }

  /** Every array index, read back from its text, parses as a number. */
  lemma IndexTextParses(n: nat)
    ensures ParseFloatSucceeds(NatText(n))
  {
    var s := NatText(n);
    assert !IsSpace(s[0]) && s[0] != '+' && s[0] != '-';
  }

  /** The array index a property name denotes: the canonical decimal text of
      a number ("0", "7", "12", not "07" or ""). */
  function IndexOf(s: string): (r: Option<nat>)
    ensures r.Some? ==> |s| >= 1 && forall i :: 0 <= i < |s| ==> IsDigit(s[i])
  {
    if |s| >= 1 && (forall i :: 0 <= i < |s| ==> IsDigit(s[i])) && (|s| == 1 || s[0] != '0')
    then Some(DigitsValue(s))
    else None
  }

  /** The text of an index names that index. */
  lemma IndexOfNatText(n: nat)
    ensures IndexOf(NatText(n)) == Some(n)
  {
    NatTextRoundTrip(n);
  }

  /** The array slot a key addresses, if any. */
  function ArrayIndex(k: Key): Option<nat>
  {
    match k
    case Index(i) => Some(i)
    case Name(s) => IndexOf(s)
  }

  /** The position of the first entry named `k`, or `|entries|` if none is. */
  function KeyIndex(entries: seq<(string, Json)>, k: string): (r: nat)
    ensures r <= |entries|
    ensures r < |entries| ==> entries[r].0 == k
    ensures forall j :: 0 <= j < r ==> entries[j].0 != k
  {
    if entries == [] then 0
    else if entries[0].0 == k then 0
    else 1 + KeyIndex(entries[1..], k)
  }

  /** Reading one property, as `target[key]` does: the entry or the array
      element, or nothing when it is absent or the target has no properties. */
  function Lookup(target: Json, key: Key): (r: Option<Json>)
    ensures r.Some? ==> target.IsContainer()
  {
    match target
    case Obj(entries) =>
      var j := KeyIndex(entries, KeyText(key));
      if j < |entries| then Some(entries[j].1) else None
    case Arr(items) =>
      var slot := ArrayIndex(key);
      if slot.Some? && slot.value < |items| then Some(items[slot.value]) else None
    case _ => None
  }

  /** One step of lodash `get`: the property, or `undefined`. */
  function Step(v: Json, segment: string): Json
  {
    var r := Lookup(v, Name(segment));
    if r.Some? then r.value else Undefined
  }

  /** The value reached by following `path` from `v`; `v` itself for the
      empty path. */
  function Follow(v: Json, path: seq<string>): Json
  {
    if path == [] then v else Step(Follow(v, path[..|path| - 1]), path[|path| - 1])
  }

  /** lodash `get(v, path)` on a path of strings. An empty path gives
      `undefined`, as lodash does. */
  function Get(v: Json, path: seq<string>): (r: Json)
    ensures path != [] ==> r == Follow(v, path)
  {
    if path == [] then Undefined else Follow(v, path)
  }

  /** `KeyIndex` is pinned down by its contract. */
  lemma KeyIndexIs(entries: seq<(string, Json)>, k: string, j: nat)
    requires j <= |entries|
    requires j < |entries| ==> entries[j].0 == k
    requires forall i :: 0 <= i < j ==> entries[i].0 != k
    ensures KeyIndex(entries, k) == j
  {
  }

  /** Whether `set` with this key changes the target: objects always,
      arrays when the key addresses a slot. */
  predicate Settable(target: Json, key: Key)
  {
    target.Obj? || (target.Arr? && ArrayIndex(key).Some?)
  }

  /** lodash `set(target, key, value)` with a one-segment path. An object
      overwrites the entry of that name where it stands or appends a new one;
      an array overwrites the addressed element, or grows with `undefined`
      holes up to it. Values that hold no properties are left as they are. */
  function Set(target: Json, key: Key, value: Json): (r: Json)
    ensures target.Obj? ==> r.Obj?
    ensures target.Arr? ==> r.Arr?
    ensures Settable(target, key) ==> Lookup(r, key) == Some(value)
    ensures !Settable(target, key) ==> r == target
  {
    match target
    case Obj(entries) =>
      var k := KeyText(key);
      var j := KeyIndex(entries, k);
      if j < |entries| then
        var es := entries[j := (k, value)];
        KeyIndexIs(es, k, j);
        Obj(es)
      else
        var es := entries + [(k, value)];
        KeyIndexIs(es, k, j);
        Obj(es)
    case Arr(items) =>
      var slot := ArrayIndex(key);
      if slot.None? then target
      else if slot.value < |items| then Arr(items[slot.value := value])
      else Arr(items + seq(slot.value - |items|, _ => Undefined) + [value])
    case _ => target
  }

  /** Properties under other names keep their values (for an array, other
      slots that already existed). */
  lemma SetKeepsOthers(target: Json, key: Key, value: Json, other: Key)
    requires target.Obj? ==> KeyText(other) != KeyText(key)
    requires target.Arr? ==> ArrayIndex(other) != ArrayIndex(key)
    requires target.Arr? && ArrayIndex(other).Some? ==> ArrayIndex(other).value < |target.items|
    ensures Lookup(Set(target, key, value), other) == Lookup(target, other)
  {
    if target.Obj? {
      SetKeepsOtherNames(target.entries, key, value, other);
    } else if target.Arr? && ArrayIndex(key).Some? {
      SetKeepsOtherSlots(target.items, ArrayIndex(key).value, value, ArrayIndex(other));
    }
  }

  /** Reading an object after `set`: the new value under the same name,
      the old reading under any other. */
  lemma SetObjLookup(entries: seq<(string, Json)>, key: Key, value: Json, other: Key)
    ensures Lookup(Set(Obj(entries), key, value), other)
         == if KeyText(other) == KeyText(key) then Some(value) else Lookup(Obj(entries), other)
  {
    var r := Set(Obj(entries), key, value);
    if KeyText(other) == KeyText(key) {
      assert Lookup(r, key) == Some(value);
      assert Lookup(r, other) == Lookup(r, key);
    } else {
      SetKeepsOtherNames(entries, key, value, other);
    }
  }

  lemma SetKeepsOtherNames(entries: seq<(string, Json)>, key: Key, value: Json, other: Key)
    requires KeyText(other) != KeyText(key)
    ensures Lookup(Set(Obj(entries), key, value), other) == Lookup(Obj(entries), other)
  {
    var r := Set(Obj(entries), key, value);
    var o, k := KeyText(other), KeyText(key);
    var j, k0 := KeyIndex(entries, k), KeyIndex(entries, o);
    if j < |entries| {
      assert r.entries == entries[j := (k, value)];
      assert forall i :: 0 <= i < |entries| ==> r.entries[i].0 == entries[i].0;
      KeyIndexIs(r.entries, o, k0);
      assert k0 < |entries| ==> k0 != j;
    } else {
      assert r.entries == entries + [(k, value)];
      assert forall i :: 0 <= i < |entries| ==> r.entries[i] == entries[i];
      KeyIndexIs(r.entries, o, if k0 < |entries| then k0 else |r.entries|);
    }
  }

  lemma SetKeepsOtherSlots(items: seq<Json>, slot: nat, value: Json, other: Option<nat>)
    requires other != Some(slot)
    requires other.Some? ==> other.value < |items|
    ensures var r := Set(Arr(items), Index(slot), value);
      r.Arr? && (other.Some? ==> other.value < |r.items| && r.items[other.value] == items[other.value])
  {
  }

  /** `parts.join(separator)`. */
  function Join(parts: seq<string>, separator: string): (r: string)
    ensures |parts| == 1 ==> r == parts[0]
  {
    if parts == [] then ""
    else if |parts| == 1 then parts[0]
    else Join(parts[..|parts| - 1], separator) + separator + parts[|parts| - 1]
  }

  /** `s.split(c)` for a one-character separator: the pieces between the
      separators, at least one. */
  function Split(s: string, c: char): (r: seq<string>)
    ensures |r| >= 1
  {
    if s == [] then [""]
    else
      var init := Split(s[..|s| - 1], c);
      if s[|s| - 1] == c then init + [""]
      else init[..|init| - 1] + [init[|init| - 1] + [s[|s| - 1]]]
  }

  lemma {:induction false} SplitAfter(a: string, c: char, b: string)
    requires c !in b
    ensures Split(a + [c] + b, c) == Split(a, c) + [b]
    decreases |b|
  {
    if b == [] {
      assert (a + [c] + b)[..|a + [c] + b| - 1] == a;
    } else {
      var b' := b[..|b| - 1];
      assert (a + [c] + b)[..|a + [c] + b| - 1] == a + [c] + b';
      SplitAfter(a, c, b');
      assert b' + [b[|b| - 1]] == b;
    }
  }

  lemma {:induction false} SplitPlain(b: string, c: char)
    requires c !in b
    ensures Split(b, c) == [b]
    decreases |b|
  {
    if b != [] {
      var b' := b[..|b| - 1];
      SplitPlain(b', c);
      assert b' + [b[|b| - 1]] == b;
    }
  }

  /** Joining with a one-character separator that no part contains and
      splitting again gives the parts back. */
  lemma {:induction false} SplitJoin(parts: seq<string>, c: char)
    requires |parts| >= 1
    requires forall i :: 0 <= i < |parts| ==> c !in parts[i]
    ensures Split(Join(parts, [c]), c) == parts
    decreases |parts|
  {
    if |parts| == 1 {
      SplitPlain(parts[0], c);
    } else {
      var init := parts[..|parts| - 1];
      SplitJoin(init, c);
      SplitAfter(Join(init, [c]), c, parts[|parts| - 1]);
      assert init + [parts[|parts| - 1]] == parts;
    }
  }
}
