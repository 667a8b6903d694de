# Placement geometry, recursive tree maps, a handler registry and `task`, in Dafny

This project models the core of the `features` package and proves properties
of that model. The package is a TypeScript utility collection.

- **Placement** (`Common`, `Vectors`, `Lines`, `Squares`): 2D vectors,
  segments and axis-aligned rectangles.
  - Field comparators and the select-the-extreme loop `compareAndSelectBy`.
  - Per-axis vector arithmetic on any vector-like value, and vector
    comparison, extremes, averages and filters.
  - Segment length, comparison by length and the crossing test.
  - Rectangle dimensions, containment tests, the 3×3 anchor grid, the
    outline of several rectangles and the lines through a rectangle.
- **recursive** (`Recursive`, with the value model in `Js`): `recursive`
  folds over an object's or array's entries with lodash `reduce` and writes
  results into an accumulator with lodash `set`. Also modelled are the
  option wirings built on it (`recursiveDefault`, `recursiveToMap`,
  `toPathMap`) and `buildKey`.
- **SimpleImplementation** (`Simple`): the smaller `recursiveToMap`, built on
  `Object.entries`, and its `toPathMap`.
- **module** (`Service`): the `Module` class. It holds shared options and a
  tree of handlers registered under dotted names. Handlers are wrapped so
  that they receive the module's current options as their last argument.
- **task** (`Task`): runtime array type tests, and `task`. `task` sums its
  arguments when they are all numbers and joins them with `" | "` otherwise.

JavaScript values are the datatype `Js.Json`: null, undefined, booleans,
numbers as `real`, strings, arrays, and objects as ordered entry lists. The
lodash and built-in operations the core relies on are modelled in `Js`:
`typeof`, `set`, `get`, `join`, `split`, `parseFloat`'s number test and the
decimal text of an index.

Where the code and its documentation disagree, the model follows the code.
It proves the discrepancy, and where it can it also models the documented
behaviour next to it (see "## Findings").

Each method with a loop is proved against a specification function. The
function's properties are proved as lemmas:
- `Common.CompareAndSelectBy` against `SelectBy`.
- `Recursive.Walk` against `Level`.
- `Simple.RecursiveToMap` against `ToMap`.
- `Service.Module.WrapHandlers` against `Wrapped`.
- `Service.Module.Register` against `RegisterTree`.
- `Service.Module.Registers` against `RegisterAll`.

## Model

| member | source | states |
|---|---|---|
| Common.Trichotomy | src/features/Placement/src/common.ts:9-49 | for `EqBy`, `LtBy`, `GtBy`, `LeBy`, `GeBy`: on a numeric field exactly one of `ltBy`, `eqBy`, `gtBy` holds; `leBy` is the negation of `gtBy`, `geBy` of `ltBy` |
| Common.IsNumber | src/features/Placement/src/common.ts:51 | holds iff `typeof value` is `"number"` |
| Common.FoldIn | src/features/Placement/src/common.ts:64-70 | for `Fold`: the running winner is always the start item or one of the items |
| Common.SelectBy | src/features/Placement/src/common.ts:59-73 | null exactly for no items; otherwise the result is one of the items |
| Common.CompareAndSelectBy | src/features/Placement/src/common.ts:59-73 | the loop returns what `SelectBy` specifies |
| Common.FoldIsFirstExtreme | src/features/Placement/src/common.ts:64-70 | under a strict weak order nothing beats the winner, and the winner is the start or an item that beats the start and every earlier item |
| Common.SelectByIsFirstExtreme | src/features/Placement/src/common.ts:59-72 | with a strict comparator the result is the first item that no item beats (ties keep the earliest) |
| Common.FirstExtremeUnique | src/features/Placement/src/common.ts:64-70 | the first unbeaten item is unique, so it pins the result down |
| Common.GtByIsStrictWeakOrder | src/features/Placement/src/common.ts:29 | `gtBy` on any field is a strict weak order |
| Common.LtByIsStrictWeakOrder | src/features/Placement/src/common.ts:19 | `ltBy` on any field is a strict weak order |
| Vectors.ConstructorForms | src/features/Placement/src/vector.ts:9-20 | for `NewVector`, `FromOperand`: a number goes on both axes, the pair form takes x and y, a vector is copied |
| Vectors.MoveChangesOnlyItsAxes | src/features/Placement/src/vector.ts:38-117 | for `MoveByX`, `MoveByY`, `MoveByXY`, `AddByX`, `AddByY`, `AddByXY`: `moveByX`/`moveByY` change only their axis and keep the caller's other fields; `moveByXY` is both moves; a number delta acts on both axes; `addBy*` equal `moveBy*` |
| Vectors.SubtractUndoesMove | src/features/Placement/src/vector.ts:126-150 | for `SubtractByX`, `SubtractByY`, `SubtractByXY`: subtracting a delta undoes moving by it, on each axis and on both, in either order |
| Vectors.ArithmeticIdentities | src/features/Placement/src/vector.ts:74-260 | moving by 0, multiplying by 1 and dividing by 0 leave the value unchanged |
| Vectors.DivideUndoesMultiply | src/features/Placement/src/vector.ts:195-260 | for `MultiplyByX`, `MultiplyByY`, `MultiplyByXY`, `DivideByX`, `DivideByY`, `DivideByXY`: dividing undoes multiplying on each axis with a non-zero divisor; on an axis with divisor 0 the coordinate stays 0 |
| Vectors.CombinedComparisons | src/features/Placement/src/vector.ts:271-388 | for `EqByX`, `EqByY`, `EqByXY`, `LtByX`, `LtByY`, `LtByXY`, `GtByX`, `GtByY`, `GtByXY`, `LeByX`, `LeByY`, `GeByX`, `GeByY`: `eqByXY` is equality, `ltByXY`/`gtByXY` need the relation on both axes and are converses; `leByX`/`geByY` negate `gtByX`/`ltByY` |
| Vectors.LeGeByXYNeverHold | src/features/Placement/src/vector.ts:370-397 | for `LeByXY`, `GeByXY`: as written, `leByXY` and `geByXY` are false for every pair of vectors |
| Vectors.IntendedLeByXYIsPartialOrder | src/features/Placement/src/vector.ts:352-397 | the intended `leByXY`, `ltByXY` or `eqByXY`, is reflexive, antisymmetric and transitive, contains `ltByXY`, and its converse is the intended `geByXY`, `gtByXY` or `eqByXY` |
| Vectors.MaxByXIsFirstMax | src/features/Placement/src/vector.ts:408 | for `MaxByX`: on non-empty input the result is the first item with the largest x |
| Vectors.MaxByYIsFirstMax | src/features/Placement/src/vector.ts:416 | for `MaxByY`: on non-empty input the result is the first item with the largest y |
| Vectors.MinByXIsFirstMin | src/features/Placement/src/vector.ts:441 | for `MinByX`: on non-empty input the result is the first item with the smallest x |
| Vectors.MinByYIsFirstMin | src/features/Placement/src/vector.ts:449 | for `MinByY`: on non-empty input the result is the first item with the smallest y |
| Vectors.MaxByXYIsUpperCorner | src/features/Placement/src/vector.ts:424-433 | for `MaxByXY`: null exactly for no items; otherwise the largest x and the largest y, each reached by some item |
| Vectors.MinByXYIsLowerCorner | src/features/Placement/src/vector.ts:457-466 | for `MinByXY`: null exactly for no items; otherwise the smallest x and the smallest y, each reached by some item |
| Vectors.MaxByXYNeedNotBeAnItem | src/features/Placement/src/vector.ts:424-433 | the per-axis maximum of (1, 0) and (0, 1) is (1, 1), which is not an item |
| Vectors.AvgByXYIsMidpoint | src/features/Placement/src/vector.ts:474-486 | for `AvgByXY`: null exactly for no items; otherwise the midpoint of the per-axis minimum and maximum, lying between them |
| Vectors.Filter | src/features/Placement/src/vector.ts:495-519 | a filter never lengthens the list |
| Vectors.FilterKeepsExactlyThePassing | src/features/Placement/src/vector.ts:495-519 | a filter keeps exactly the passing items, each as often as it occurs |
| Vectors.FilterDistributes | src/features/Placement/src/vector.ts:495-519 | filtering keeps order: the filter of a concatenation is the concatenation of the filters |
| Vectors.SameByKeepsMatching | src/features/Placement/src/vector.ts:495-519 | for `SameByX`, `SameByY`, `SameByXY`: `sameByX`/`sameByY`/`sameByXY` keep exactly the items agreeing with the reference on their axes; `sameByXY` is `sameByY` after `sameByX` |
| Lines.NewLineBroadcasts | src/features/Placement/src/line.ts:8-11 | for `NewLine`: a number endpoint lands on both axes, a vector endpoint is kept |
| Lines.LengthProperties | src/features/Placement/src/line.ts:13-15 | for `SquaredLength`: the length is non-negative, 0 exactly when the endpoints coincide, and the same in both directions |
| Lines.LengthExample | src/features/Placement/src/line.ts:13-15 | the segment from (0, 0) to (3, 4) has squared length 25, so length 5 |
| Lines.LengthComparisons | src/features/Placement/src/line.ts:27-63 | for `EqByLength`, `LtByLength`, `GtByLength`, `LeByLength`, `GeByLength`: `leByLength` is lt-or-eq and the negation of gt; `geByLength` likewise; lt and gt are converses |
| Lines.MeetingParameters | src/features/Placement/src/line.ts:72-82 | the parameters of any common point of the two lines satisfy the `lambda` and `gamma` equations |
| Lines.CrossingPoint | src/features/Placement/src/line.ts:72-82 | with a non-zero determinant, `lambda` along `a` and `1 - gamma` along `b` give the same point |
| Lines.CrossByLineMeansMeetInside | src/features/Placement/src/line.ts:72-82 | for `CrossByLine`, `Det`, `LambdaNum`, `GammaNum`: `crossByLine` holds iff the determinant is non-zero and the segments meet strictly inside both |
| Lines.ZeroDeterminantNeverCrosses | src/features/Placement/src/line.ts:73-76 | parallel, collinear and zero-length segments never cross |
| Lines.CrossByLineSymmetric | src/features/Placement/src/line.ts:72-82 | crossing does not depend on the order of the segments |
| Lines.SharedEndpointNeverCrosses | src/features/Placement/src/line.ts:72-82 | segments sharing an endpoint do not cross |
| Lines.CrossByLineExamples | src/features/Placement/src/line.ts:72-82 | the diagonals of a square cross; parallel lines and an endpoint touch do not |
| Lines.MaxByLengthIsFirstLongest | src/features/Placement/src/line.ts:92 | for `MaxByLength`: null exactly for no lines; otherwise the first longest line |
| Lines.MinByLengthIsFirstShortest | src/features/Placement/src/line.ts:100 | for `MinByLength`: null exactly for no lines; otherwise the first shortest line |
| Squares.NewSquareForms | src/features/Placement/square.ts:10-18 | for `NewSquare`: the two-corner form keeps both corners; a non-zero height puts `v2` at `v1 + (width, height)`, with size `(abs width, abs height)` |
| Squares.ZeroHeightDropsWidth | src/features/Placement/square.ts:13-17 | as written, `new Square((1,1), 5, 0)` spans to (5, 5); the intended constructor gives (6, 1) |
| Squares.NewSquareIntendedSize | src/features/Placement/square.ts:8-17 | for `NewSquareIntended`: the intended constructor's size is `(abs width, abs height)` for every height, and agrees with the written one for non-zero heights |
| Squares.DimensionsProperties | src/features/Placement/square.ts:20-36 | for `Width`, `Height`, `Size`: width and height are non-negative, symmetric in the corners, plain differences for a normalised rectangle; size is (width, height) |
| Squares.PointInSquareNeedsOrder | src/features/Placement/square.ts:41-43 | for `PointInSquare`: a rectangle that is not normalised contains no point; a normalised one contains both corners |
| Squares.ExactlyOneRelation | src/features/Placement/square.ts:45-52 | for `InSquare`, `OutSquare`, `CrossSquare`: exactly one of `inSquare`, `outSquare`, `crossSquare` holds |
| Squares.ContainmentExamples | src/features/Placement/square.ts:45-52 | a small rectangle inside, one far away outside, one over the corner crossing |
| Squares.PlusShapeCountsAsOut | src/features/Placement/square.ts:45-49 | two bars crossing like a plus share a point yet each is `outSquare` of the other, since only corners are tested |
| Squares.BySquarePointAnchors | src/features/Placement/square.ts:58-81 | for `BySquarePoint`: start is `v1`, end is `v1 + size`, center is half-way; the end anchor is `v2` exactly on the axes where `v1 <= v2` |
| Squares.BySquarePointExamples | src/features/Placement/square.ts:58-81 | the center and end/start anchors of (0, 0)-(10, 20) |
| Squares.OutlineContainsAll | src/features/Placement/square.ts:89-98 | for `Outline`, `AnchorPoints`: null exactly for no rectangles; otherwise normalised, containing every rectangle, with each side touching one |
| Squares.OutlineExample | src/features/Placement/square.ts:89-98 | the outline of (0, 0)-(2, 2) and (3, 3)-(5, 5) is (0, 0)-(5, 5) |
| Squares.SquareLinesShape | src/features/Placement/square.ts:106-121 | for `SquareLines`: three full-height verticals at the start, center (half the width in) and end x, three full-width horizontals at the start, center and end y, and the two corner-to-corner diagonals |
| Squares.DiagonalsCross | src/features/Placement/square.ts:117-120 | in a rectangle of non-zero width and height the diagonals cross, at the center anchor |
| Squares.SquarePointsGrid | src/features/Placement/square.ts:129-152 | for `SquarePoints`, `SquareCornerPoints`: `squarePoints` is the 3×3 grid in x-major order; `squareCornerPoints` are its four corners in the same order |
| Js.TypeOf | src/features/task.ts:2 | `typeof` is `"object"` exactly for null, arrays and objects, `"number"` exactly for numbers, `"string"` exactly for strings |
| Js.NatTextRoundTrip | src/features/recursive/recursive.utils.ts:388-389 | for `NatText`: the decimal text of an index reads back as that index |
| Js.IndexTextParses | src/features/recursive/recursive.utils.ts:388 | for `ParseFloatSucceeds`: the text of every array index passes the `parseFloat` test |
| Js.Set | src/features/recursive/recursive.utils.ts:160-165 | `set` on an object or a slot-addressed array stores the value under the key; on other values it changes nothing |
| Js.SetKeepsOthers | src/features/recursive/recursive.utils.ts:160-165 | `set` leaves every other name (every other existing slot) as it was |
| Js.SplitJoin | src/features/module/module.ts:195 | for `Split`, `Join`: splitting a join on a one-character separator that no part contains gives the parts back |
| Recursive.IsMarkedAsMutableCases | src/features/recursive/recursive.utils.ts:33-36 | for `IsMarkedAsMutable`: nested items are mutable unless only leaves are, others unless only branches are; `both` marks all |
| Recursive.WithDefaults | src/features/recursive/recursive.utils.ts:38-47 | a given `nodeSelector` or `mutator` is kept by `defaults` |
| Recursive.EntryItem | src/features/recursive/recursive.utils.ts:155-157 | every item has `isNestable` set and `isMutable` decided by `isMarkedAsMutable` |
| Recursive.Walk | src/features/recursive/recursive.utils.ts:154-169 | for `Level`: the `reduce` loop computes the level's fold `Level` |
| Recursive.RunRecursive | src/features/recursive/recursive.utils.ts:140-170 | for `Recursive`: `recursive` walks the node at the start path with the filled-in options |
| Recursive.MutatorWins | src/features/recursive/recursive.utils.ts:159-166 | when the nested and the mutator `set` write the same key, the mutator's value stays |
| Recursive.MapLeaves | src/features/recursive/recursive.utils.ts:140-170 | the reference keeps each container's kind, entry count and keys in order |
| Recursive.LevelIsMapLeaves | src/features/recursive/recursive.utils.ts:154-169 | with only a `nodeSelector`, every level of `recursive` is the reference `MapLeaves` |
| Recursive.RecursiveMapsLeaves | src/features/recursive/recursive.utils.ts:140-170 | `recursive(resource, { nodeSelector })` keeps every container and key and replaces each leaf by the selector's result |
| Recursive.ChildAtPath | src/features/recursive/recursive.utils.ts:148-155 | for `Js.Get`: the nested call's `get(resource, path)` finds the entry it descends into |
| Recursive.RecursiveFromPath | src/features/recursive/recursive.utils.ts:145-154 | with a start path, `recursive` transforms only the subtree at that path |
| Recursive.MapLeavesFillsNil | src/features/recursive/recursive.utils.ts:312-321 | the walk with the default selector is the reference `FillNil` |
| Recursive.RecursiveDefaultFillsNil | src/features/recursive/recursive.utils.ts:312-321 | for `RecursiveDefault`, `DefaultSelector`: `recursiveDefault` with a value replaces exactly the null and undefined values |
| Recursive.FillNilKeepsComplete | src/features/recursive/recursive.utils.ts:312-321 | a tree with no null or undefined value comes back unchanged |
| Recursive.FillNilLeavesNone | src/features/recursive/recursive.utils.ts:312-321 | after filling with a non-nil value no null or undefined value is left |
| Recursive.RecursiveDefaultSelects | src/features/recursive/recursive.utils.ts:312-321 | for `RecursiveDefault`, `DefaultSelector`: `recursiveDefault` with a selector calls it on exactly the null and undefined values |
| Recursive.Resolve | src/features/recursive/recursive.utils.ts:383-385 | the postfix is dropped when `fullMap` is off |
| Recursive.MapKeyCases | src/features/recursive/recursive.utils.ts:387-390 | for `MapKey`: index keys always get `_`; a name gets it exactly when `parseFloat` reads it as a number |
| Recursive.ToMapOptionsAt | src/features/recursive/recursive.utils.ts:383-396 | the filled-in options of `recursiveToMap`: mutate mode, prefixed nested key, postfixed mutator key, empty object start |
| Recursive.ToMapRef | src/features/recursive/recursive.utils.ts:379-396 | the reference map of every level is a plain object |
| Recursive.LevelIsToMapRef | src/features/recursive/recursive.utils.ts:154-169 | when generated keys do not collide, every level of the walk is the reference map |
| Recursive.RecursiveToMapIsRef | src/features/recursive/recursive.utils.ts:379-396 | for `RecursiveToMap`, `ToMapOptions`: `recursiveToMap` is the reference map, arrays included becoming plain objects |
| Recursive.ToMapRefEntry | src/features/recursive/recursive.utils.ts:387-396 | a container entry holds its nested map under the prefixed key (and with `fullMap` its value under the postfixed key); a leaf holds its value under the postfixed key |
| Recursive.ToMapRefKeys | src/features/recursive/recursive.utils.ts:387-396 | the map of a level has exactly the generated keys |
| Recursive.NestedPathMap | src/features/recursive/recursive.utils.ts:263-267 | for `ToPathMap`, `BuildKey`, `PathSelector`: `toPathMap` of `{ a: { b: leaf } }` is `{ a: { b: buildKey(['a','b']) } }` |
| Recursive.ToPathMapJoinsWithComma | src/features/recursive/recursive.utils.ts:264 | as written the leaf of `{ a: { b } }` maps to `'a,b'`; with the `.` separator it maps to `'a.b'` |
| Recursive.DottedLeafResolves | src/features/recursive/recursive.utils.ts:189-191 | for `ToPathMapDotted`, `PathSelector`, `Js.Get`: with the `.` separator each leaf's path string, split at dots, leads lodash `get` back to that leaf |
| Simple.ToMap | src/features/SimpleImplementation.ts:47-63 | the result of every level is a plain object |
| Simple.RecursiveToMap | src/features/SimpleImplementation.ts:47-63 | the `reduce` loop with its recursion computes `ToMap` |
| Simple.AssignKeys | src/features/SimpleImplementation.ts:48-62 | for `Assign`: the assigned object has a property exactly for each assigned key |
| Simple.AssignValue | src/features/SimpleImplementation.ts:48-62 | with no key assigned twice, each key holds its assigned value |
| Simple.ToMapKeys | src/features/SimpleImplementation.ts:48-62 | for `Assignments`, `OutKey`: the map has a property exactly for each output key |
| Simple.ToMapEntry | src/features/SimpleImplementation.ts:53-57 | for `Assignments`, `Image`: a container entry holds its nested map; any other entry holds the selector's result for the extended path and the level |
| Simple.ArrayKeysDistinct | src/features/SimpleImplementation.ts:51 | an array's output keys never collide, under either prefix rule |
| Simple.IndexKeysDistinct | src/features/SimpleImplementation.ts:32-34 | with the documented rule, output keys collide only if the object repeats a name |
| Simple.ToMapRoute | src/features/SimpleImplementation.ts:47-63 | reading the map along a route's output keys reaches the selector's result for that leaf with its full path |
| Simple.ToPathMap | src/features/SimpleImplementation.ts:108-111 | the path map is a plain object |
| Simple.ToPathMapRoute | src/features/SimpleImplementation.ts:108-111 | for `PathSelector`: as written a route's output keys reach its source keys joined with `,` |
| Simple.ToPathMapDocumented | src/features/SimpleImplementation.ts:86-101 | the documented path map is a plain object |
| Simple.ToPathMapDocumentedRoute | src/features/SimpleImplementation.ts:86-101 | documented reading: a route's output keys reach a string that splits on `.` into the route's source keys |
| Simple.AsWrittenMissesDocumentedKey | src/features/SimpleImplementation.ts:51 | as written, the documented reading `map.K._0` of an array under `K` finds nothing |
| Simple.AsWrittenArrayEntry | src/features/SimpleImplementation.ts:51 | as written an array element is read as `map._K.0` |
| Simple.DocumentedArrayEntry | src/features/SimpleImplementation.ts:32-34 | with the documented rule an array element is read as `map.K._0` |
| Service.Assigned | src/features/module/module.ts:200-202 | after `entries[key] = value` the key reads the value |
| Service.AssignedKeepsOthers | src/features/module/module.ts:200-202 | assigning one property leaves every other as it was |
| Service.SetProp | src/features/module/module.ts:200-202 | `node[key] = value` stores the value and keeps the node a function or an object |
| Service.WrappedCall | src/features/module/module.ts:138-143 | for `Call`: a wrapped handler calls the original with the module's options at call time appended |
| Service.WrappedFind | src/features/module/module.ts:145-149 | for `Wrapped`: wrapping an object keeps its keys and wraps the value under each |
| Service.Reach | src/features/module/module.ts:197 | once a property read gives `undefined`, further reads stay `undefined` |
| Service.WrappedReach | src/features/module/module.ts:137-150 | every handler reachable through objects is replaced by its wrapper at the same path |
| Service.WalkIsReach | src/features/module/module.ts:197 | for `WalkFrom`: the walk throws exactly when a strict prefix reads `undefined`; otherwise it ends where the reads lead |
| Service.RegisterStores | src/features/module/module.ts:194-206 | for `RegisterTree`, `RegisterKeys`: after a successful `register` with a non-empty last segment the value is read back under the dotted name |
| Service.RegisterKeepsOthers | src/features/module/module.ts:194-206 | `register` changes nothing off the dotted path it writes |
| Service.RegisterOutcome | src/features/module/module.ts:195-203 | when `register` throws, in terms of which prefix reads `undefined`; an empty last segment leaves the tree unchanged |
| Service.RegisterAllStops | src/features/module/module.ts:228-232 | for `RegisterAll`: the first registration that throws stops the rest and keeps the earlier ones |
| Service.RegisterAllSplits | src/features/module/module.ts:228-232 | for `RegisterAll`: when every registration of a first batch succeeds, `registers` over the batch and a rest is `registers` of the rest into the tree the batch left |
| Service.Module.constructor | src/features/module/module.ts:81-85 | a new module has the given options and an empty root |
| Service.Module.Opt | src/features/module/module.ts:105-109 | the options become the callback's result; the root is unchanged; the module is returned |
| Service.Module.WrapHandlers | src/features/module/module.ts:137-150 | the loop computes `Wrapped` |
| Service.Module.Register | src/features/module/module.ts:194-206 | the new root is `RegisterTree` of the old one with the module's root, the wrapped node or the node; a throw changes nothing |
| Service.Module.Registers | src/features/module/module.ts:228-232 | the root and the outcome are `RegisterAll` over the entries |
| Task.IsTypedArray | src/features/task.ts:1-3 | holds iff every element's `typeof` is the given type; true for no elements |
| Task.IsStringArray | src/features/task.ts:5-7 | holds iff every element is a string |
| Task.IsNumberArray | src/features/task.ts:9-11 | holds iff every element is a number |
| Task.IsBooleanArray | src/features/task.ts:13-15 | holds iff every element is a boolean |
| Task.IsObjectArray | src/features/task.ts:17-19 | holds iff every element is null, an array or an object |
| Task.IsSymbolArray | src/features/task.ts:21-23 | holds only for the empty array, since no modelled value is a symbol |
| Task.ReduceIsSum | src/features/task.ts:29 | for `Reduce`: the left-to-right `reduce` from 0 is the sum of the numbers |
| Task.Run | src/features/task.ts:25-33 | the result is a number exactly when every argument is a number |
| Task.RunAdds | src/features/task.ts:28-30 | with only numbers, `task` returns their sum |
| Task.RunEmpty | src/features/task.ts:28-30 | with no arguments, `task` returns 0 |
| Task.RunJoins | src/features/task.ts:32 | for `Text`, `JoinAll`: with any non-number argument, `task` returns all arguments joined with `" \| "` |
| Task.JoinFront | src/features/task.ts:32 | a join is the first part, the separator and the join of the rest |
| Task.JoinLength | src/features/task.ts:32 | a join's length is the parts' lengths plus one separator between each pair |

## Left out

- Floating point: numbers are exact reals. NaN, ±Infinity, rounding and `Math.sqrt` are not modelled. So `MinimalVector`/`MaximalVector` and the NaN branches of the comparators and of `divideBy*` are not modelled.
- Lines.SquaredLength: `length` is modelled by the squared length. The square root is strictly increasing, so every `*ByLength` comparison and selection gives the same answer.
- Malformed constructor arguments (objects without `x`/`y`): an argument is a number or a vector.
- lodash path parsing: a key is one path segment. The source's `set(acc, key, …)` receives a string key and splits keys containing `.`, `[` or `]`, so its results for such keys differ from the model; a string start path given to `recursive` is split the same way. `get` and the nested calls receive arrays, which lodash does not split. Recursive.DottedLeafResolves and Simple.ToPathMapDocumentedRoute require keys without `.`.
- lodash `reduce` over a string resource, and sparse arrays: containers are dense arrays and plain objects.
- Recursive.Level, Recursive.Walk, Recursive.LevelIsMapLeaves, Recursive.LevelIsToMapRef, Recursive.MapLeavesFillsNil, Recursive.ToPathMapJoinsWithComma, Recursive.RecursiveMapsLeaves, Recursive.RecursiveFromPath, Recursive.RecursiveDefaultFillsNil, Recursive.RecursiveDefaultSelects, Recursive.RecursiveToMapIsRef, Recursive.NestedPathMap, Recursive.DottedLeafResolves: lodash `reduce` treats an object whose `length` property is a non-negative integer as array-like and visits indexes `0` to `length - 1` instead of its keys; the model walks such an object's entries. So `recursive({ length: 0, a: 1 }, …)` gives `{}` in the source, and `toPathMap({ length: 1, unit: 'm' })` gives `{ _0: '0' }`. The `Simple` functions use `Object.entries` and are not affected.
- Non-index properties on arrays, and array indexes at or above 2^32 - 1: an array is its list of elements.
- JavaScript's ordering of integer-like object keys: objects keep their entries in insertion order.
- `defaults` filling the caller's options object in place: the filled-in options are computed as a value.
- Recursive.RecursiveToMapIsRef, Recursive.LevelIsToMapRef: proved only where generated keys do not collide (`Separated`). Keys such as `1` and `_1` side by side would overwrite each other.
- Recursive.LevelIsMapLeaves: proved for objects whose keys are distinct (`DistinctKeys`), as in every JavaScript object.
- Simple.ToMapEntry, Simple.ToMapRoute, Simple.ToPathMapRoute: stated where output keys do not collide (`DistinctOut`, and `RouteDistinct` along a route). With the prefix rule as written, keys `a` and `_a` can collide.
- Number path elements: paths are strings. `recursive` receives an array index as a number key but uses its decimal text in paths.
- Service: registering a module stores a snapshot of its root; the source stores a shared reference. Aliasing, cycles (a module registered into itself) and later in-place changes through a shared reference are not modelled.
- Service.Module.WrapHandlers: it builds a new tree; the source overwrites each entry of the given object in place.
- Service.Module.Register: `register` returns `this` or throws. The model returns a flag, false exactly where the source throws.
- Service.RegisterOutcome: property reads in `register` see own properties only. JavaScript's `currentNode[key]` also reads through the prototype chain, so a name such as `toString.a` reaches `Object.prototype.toString` and stores `a` there instead of throwing, and a `__proto__` segment replaces the prototype instead of adding an entry. The "throws exactly when" statement and `Service.Module.Register` hold only for names whose segments are not `Object.prototype` or `Function.prototype` members.
- Js.Set: writes every key. Recent lodash 4.17 releases make `set` skip the keys `__proto__`, `constructor` and `prototype`, so `recursive` and `recursiveToMap` differ from the model on objects with such keys.
- Service: a Module object nested inside a plain tree passed to `register`, and the built-in properties of function values (`name`, `length`, `call`), are not modelled.
- Handlers are opaque: calling one yields the handler's identity and its argument list. Promises and what a handler does are left out.
- `conf` on Module is not part of this model: it only calls back with the options and the module.
- Task.IsSymbolArray: no modelled value is a symbol or a function, so the symbol check holds only for the empty array.
- Task.Text: a number's text is a parameter `show`, standing for the engine's number-to-string conversion.
- The module-level example calls at the end of task.ts, and TypeScript's static types and overloads, are not modelled.

## Findings

| source | as written | input that shows it | evidently intended | confidence | as-written member | corrected member |
|---|---|---|---|---|---|---|
| src/features/Placement/src/vector.ts:370-397 | `leByXY` is `ltByXY && eqByXY`, `geByXY` is `gtByXY && eqByXY` | any pair, e.g. (0, 0) and (0, 0): `leByXY` is false | `ltByXY \|\| eqByXY` and `gtByXY \|\| eqByXY`, as `leBy`/`geBy` do | high; not executed | Vectors.LeGeByXYNeverHold | Vectors.IntendedLeByXYIsPartialOrder |
| src/features/Placement/square.ts:13-17 | the width/height form is chosen only when `height` is truthy | `new Square(new Vector(1, 1), 5, 0)` spans (1, 1)-(5, 5) | a flat rectangle (1, 1)-(6, 1) | medium; not executed | Squares.ZeroHeightDropsWidth | Squares.NewSquareIntendedSize |
| src/features/recursive/recursive.utils.ts:264 | `buildKey(options.path)` without a separator joins with `,` | `toPathMap({ a: { b: 1 } })` gives `{ a: { b: 'a,b' } }` | `'a.b'`, as the documentation and recursive.test.ts:56 expect | high; not executed | Recursive.ToPathMapJoinsWithComma | Recursive.DottedLeafResolves |
| src/features/SimpleImplementation.ts:109 | `buildKey(path)` without a separator joins with `,` | `toPathMap({ a: { b: 1 } })` gives `{ a: { b: 'a,b' } }` | `'a.b'`, as the documented example `'KEY_2.KEY_3'` shows | high; not executed | Simple.ToPathMapRoute | Simple.ToPathMapDocumentedRoute |
| src/features/SimpleImplementation.ts:51 | the `_` prefix goes on the key of an array-valued entry | `recursiveToMap({ K: [1] }, sel)` gives `{ _K: { 0: … } }`, so `map.K._0` is undefined | `{ K: { _0: … } }`, as the documented example `KEY_5: { '_0': … }` shows | high; not executed | Simple.AsWrittenMissesDocumentedKey | Simple.DocumentedArrayEntry |
