/** `task` and the runtime array checks it is built on: `isTypedArray`
    tests every element's `typeof`, and `task` adds its arguments when they
    are all numbers and joins them with `" | "` otherwise. */
module Task {
  import opened Js

  /** `isTypedArray(arr, kind)`: `arr.every(item => typeof item === kind)`,
      which stops at the first element of another type. */
  function IsTypedArray(arr: seq<Json>, kind: string): (r: bool)
    ensures r <==> forall i :: 0 <= i < |arr| ==> TypeOf(arr[i]) == kind
  {
    arr == [] || (TypeOf(arr[0]) == kind && IsTypedArray(arr[1..], kind))
  }

  function IsStringArray(arr: seq<Json>): (r: bool)
    ensures r <==> forall i :: 0 <= i < |arr| ==> arr[i].Str?
  {
    IsTypedArray(arr, "string")
  }

  function IsNumberArray(arr: seq<Json>): (r: bool)
    ensures r <==> forall i :: 0 <= i < |arr| ==> arr[i].Num?
  {
    IsTypedArray(arr, "number")
  }

  function IsBooleanArray(arr: seq<Json>): (r: bool)
    ensures r <==> forall i :: 0 <= i < |arr| ==> arr[i].Bool?
  {
    IsTypedArray(arr, "boolean")
  }

  /** `typeof null` is `"object"`, so nulls pass along with arrays and
      objects. */
  function IsObjectArray(arr: seq<Json>): (r: bool)
    ensures r <==> forall i :: 0 <= i < |arr| ==> arr[i].Null? || arr[i].IsContainer()
  {
    IsTypedArray(arr, "object")
  }

  /** No value of `Json` is a symbol, so only the empty array passes. */
  function IsSymbolArray(arr: seq<Json>): (r: bool)
    ensures r <==> arr == []
  {
    IsTypedArray(arr, "symbol")
  }

  /** `nums.reduce((sum, num) => sum + num, 0)`: adds from the left,
      starting at 0. */
  function Reduce(nums: seq<Json>): real
    requires IsNumberArray(nums)
  {
    if nums == [] then 0.0 else Reduce(nums[..|nums| - 1]) + nums[|nums| - 1].n
  }

  /** The sum of the numbers, taken from the front. */
  function Sum(nums: seq<Json>): real
    requires IsNumberArray(nums)
  {
    if nums == [] then 0.0 else nums[0].n + Sum(nums[1..])
  }

  /** Adding up from the left gives the sum. */
  lemma {:induction false} ReduceIsSum(nums: seq<Json>)
    requires IsNumberArray(nums)
    ensures Reduce(nums) == Sum(nums)
    decreases |nums|
  {
    if nums != [] {
      ReduceIsSum(nums[..|nums| - 1]);
      SumSnoc(nums[..|nums| - 1], nums[|nums| - 1]);
      assert nums[..|nums| - 1] + [nums[|nums| - 1]] == nums;
    }
  }

  lemma {:induction false} SumSnoc(nums: seq<Json>, last: Json)
    requires IsNumberArray(nums) && last.Num?
    ensures IsNumberArray(nums + [last])
    ensures Sum(nums + [last]) == Sum(nums) + last.n
    decreases |nums|
  {
    if nums != [] {
      SumSnoc(nums[1..], last);
      assert (nums + [last])[1..] == nums[1..] + [last];
    }
  }

  /** The text `join` puts in for an element: nothing for null and
      undefined, the elements joined with `","` for an array, and
      `show(n)` for a number, `show` standing for the engine's
      number-to-string conversion. */
  function Text(v: Json, show: real -> string): string
  {
    match v
    case Null => ""
    case Undefined => ""
    case Bool(b) => if b then "true" else "false"
    case Num(n) => show(n)
    case Str(s) => s
    case Arr(items) => Join(seq(|items|, i requires 0 <= i < |items| => Text(items[i], show)), ",")
    case Obj(_) => "[object Object]"
  }

  /** `params.join(" | ")`. */
  function JoinAll(params: seq<Json>, show: real -> string): (r: string)
  {
    Join(seq(|params|, i requires 0 <= i < |params| => Text(params[i], show)), " | ")
  }

  /** `task(...params)`: the sum when every argument is a number, the
      arguments joined with `" | "` otherwise. */
  function Run(params: seq<Json>, show: real -> string): (r: Json)
    ensures r.Num? <==> forall i :: 0 <= i < |params| ==> params[i].Num?
  {
    if IsNumberArray(params) then Num(Reduce(params)) else Str(JoinAll(params, show))
  }

  /** All numbers: `task` returns their sum. */
  lemma RunAdds(params: seq<Json>, show: real -> string)
    requires forall i :: 0 <= i < |params| ==> params[i].Num?
    ensures IsNumberArray(params)
    ensures Run(params, show) == Num(Sum(params))
  {
    ReduceIsSum(params);
  }

  /** No arguments: the all-numbers test holds vacuously and the result is
      0, not the empty string. */
  lemma RunEmpty(show: real -> string)
    ensures Run([], show) == Num(0.0)
  {
  }

  /** One argument that is not a number makes the result the join of all of
      them, the numbers included. */
  lemma RunJoins(params: seq<Json>, show: real -> string, k: nat)
    requires k < |params| && !params[k].Num?
    ensures Run(params, show) == Str(JoinAll(params, show))
  {
  }

  /** The joined text puts the separator between neighbouring elements:
      the first element's text, the separator, and the join of the rest. */
  lemma {:induction false} JoinFront(parts: seq<string>, separator: string)
    requires |parts| >= 2
    ensures Join(parts, separator) == parts[0] + separator + Join(parts[1..], separator)
    decreases |parts|
  {
    if |parts| > 2 {
      JoinFront(parts[..|parts| - 1], separator);
      assert parts[..|parts| - 1][1..] == parts[1..][..|parts[1..]| - 1];
    }
  }

  /** The length of a join: the parts plus one separator between each pair. */
  lemma {:induction false} JoinLength(parts: seq<string>, separator: string)
    requires |parts| >= 1
    ensures |Join(parts, separator)| == TotalLength(parts) + (|parts| - 1) * |separator|
    decreases |parts|
  {
    if |parts| > 1 {
      JoinFront(parts, separator);
      JoinLength(parts[1..], separator);
    }
  }

  function TotalLength(parts: seq<string>): nat
  {
    if parts == [] then 0 else |parts[0]| + TotalLength(parts[1..])
  }
}
