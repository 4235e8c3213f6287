# fast-keys in Dafny

A model of `fast-keys`, a JavaScript utility whose factory `K(object)` wraps an object in
a `FastKeys` view. The view answers enumeration queries (`length`, `some`, `every`, `map`,
`filter`, `forEach`, `find`, `toSet`) over the object's *qualifying keys*. A key qualifies
when it is a string, is the object's own property (not inherited), and is enumerable.

Every operation in the source has the same shape. A `for...in` loop visits the
enumerable string keys, including inherited ones. A guard (`typeof key !== 'string' ||
!object.hasOwnProperty(key)`) skips the rest. Then the loop updates an accumulator,
returns early, or calls the callback. The model keeps that shape:

- `Host` gives the object explicitly, since Dafny has no reflection. A `JsObject` holds a
  sequence of `Entry` values, in the host's enumeration order. Each entry has a string or
  symbol key and `own` and `enumerable` flags. Inherited properties are entries with
  `own == false`. `JsObject` is a class, so it is a reference. A caller can change it
  between two calls on a view, and the next call sees the change.
- `Qualifying` defines the qualifying predicate once (`Qualifies`). It also defines the
  specification functions the operations are proved against: `QualifyingKeys`,
  `KeySet`, `FilterKeys`, `ScanUntil` (the keys a short-circuiting scan passes to its
  callback) and `FoldKeys`, each with lemmas about what it means.
- `FastKeysView` is the class `FastKeys`. It has a single `host` field, set by the
  constructor, like `this.__object`. Each operation is a `while` loop over the host's
  properties, with `continue` for the entries that do not qualify. Each is proved equal
  to a specification function of the qualifying keys. Each operation that takes a
  callback also returns a ghost `trace`: the keys it passed to the callback, in order.
  This states short-circuiting exactly, and shows that the callback gets only the key.
  `K` returns a `Result`; it fails with the source's `TypeError` on `null` or `undefined`.
- `Wrappers` holds the `Option` (for `find`'s `undefined`) and `Result` datatypes.

No `FastKeys` method has a `modifies` clause. So Dafny's frame rules prove that no
operation changes the wrapped object.

## Model

| member | source | states |
|---|---|---|
| `FastKeysView.FastKeys.constructor` | src/index.js:4-6 | the view holds the object it was given |
| `FastKeysView.K` | src/index.js:113-119 | fails with TypeError "Cannot convert undefined or null to object" exactly when the argument is null or undefined; otherwise returns a new view holding that same object |
| `Qualifying.Qualifies` | src/index.js:11-14 | a property takes part exactly when `for...in` visits it (enumerable, string-keyed) and the guard does not skip it (string key, own property); together: string-keyed, own and enumerable |
| `Qualifying.QualifyingKeys` | src/index.js:11-14 | the scan every operation is proved against: the keys of the qualifying properties, in enumeration order; there are never more than there are properties |
| `Qualifying.KeySet` | src/index.js:47-57 | the specification of `toSet`: a key is in the set iff some string-keyed, own, enumerable property carries it |
| `Qualifying.FoldKeys` | src/index.js:88-96 | the specification of `forEach`: the caller state after applying the callback to each qualifying key in turn, starting from the state before the call |
| `FastKeysView.FastKeys.Length` | src/index.js:8-18 | the count is the number of qualifying keys of the object as it is at the call |
| `Qualifying.KeysCountQualifyingProperties` | src/index.js:8-18 | the number of qualifying keys equals the number of properties that are string-keyed, own and enumerable |
| `Qualifying.KeysMembership` | src/index.js:11-14 | a key is qualifying iff some string-keyed, own, enumerable property carries it |
| `Qualifying.KeysPositions` | src/index.js:11-14 | the qualifying keys are exactly the keys of the qualifying properties, in the properties' order (a strictly increasing list of positions covering every qualifying property) |
| `Qualifying.ExcludedPropertiesIgnored` | test/index.test.js:20-28 | inserting inherited, non-enumerable or symbol-keyed properties anywhere leaves the qualifying keys unchanged |
| `Qualifying.NonQualifyingContributeNothing` | src/index.js:12-13 | an object with no qualifying properties has no qualifying keys |
| `Qualifying.KeysAppend` | src/index.js:11 | the scan of a concatenation of property lists yields the concatenation of their qualifying keys |
| `Qualifying.KeysDistinct` | src/index.js:11-14 | when own keys are distinct (as in any JavaScript object), the qualifying keys have no duplicates |
| `FastKeysView.FastKeys.Some` | src/index.js:20-32 | the result is true iff some qualifying key satisfies the predicate (so false with no keys); the keys passed to the predicate are exactly those up to and including the first that satisfies it |
| `Qualifying.ScanUntilCharacterization` | src/index.js:27-29 | a short-circuiting scan passes only keys that fail the stop test except possibly its last; the last passes iff some key does; with no such key it passes all of them |
| `Qualifying.ScanUntil` | src/index.js:20-32 | the keys a short-circuiting scan passes form a prefix of the qualifying keys |
| `Qualifying.ScanNoneStops` | src/index.js:30-31 | a scan over keys none of which stops it passes every key |
| `Qualifying.ScanStopsAt` | src/index.js:27-29 | a scan ends at the first key that stops it; no later key is passed |
| `Qualifying.SomeIffFilterNonEmpty` | src/index.js:20-32 | some key satisfies the predicate iff filtering by it gives a non-empty list |
| `FastKeysView.FastKeys.Every` | src/index.js:59-71 | the result is true iff every qualifying key satisfies the predicate (so true with no keys); the keys passed are exactly those up to and including the first failing one |
| `Qualifying.EveryIffFilterKeepsAll` | src/index.js:59-71 | every key satisfies the predicate iff filtering by it keeps the whole list |
| `FastKeysView.FastKeys.Map` | src/index.js:34-45 | the result has one element per qualifying key, the i-th being the transform of the i-th key; every qualifying key is passed once, in order, and nothing else is passed |
| `FastKeysView.FastKeys.Filter` | src/index.js:73-86 | the result is the qualifying keys filtered by the predicate; every qualifying key is passed once, in order |
| `Qualifying.FilterKeys` | src/index.js:73-86 | the filtered list is no longer than the input |
| `Qualifying.FilterMembership` | src/index.js:81-83 | a key is in the filtered list iff it is in the input and satisfies the predicate |
| `Qualifying.FilterPositions` | src/index.js:76-84 | the filtered list is the order-preserving subsequence of the input at exactly the positions where the predicate holds |
| `Qualifying.FilterAlways` | src/index.js:73-86 | `filter(_ => true)` returns every qualifying key, in order |
| `FastKeysView.FastKeys.ForEach` | src/index.js:88-96 | the caller state after the call is the result of applying the callback to each qualifying key in turn; every qualifying key is passed once, in order |
| `Qualifying.FoldRecordsEveryKey` | src/index.js:90-95 | a callback that records its argument ends with exactly the qualifying keys in order, each once |
| `FastKeysView.FastKeys.Find` | src/index.js:98-110 | the result is undefined iff no qualifying key satisfies the predicate; otherwise it is the first qualifying key that does; no key after it is passed to the predicate |
| `FastKeysView.FastKeys.ToSet` | src/index.js:47-57 | the result is the set of keys of the string-keyed, own, enumerable properties |
| `Qualifying.KeySetIsElementsOfKeys` | src/index.js:50-55 | the set of qualifying keys is the set of elements of the qualifying key list |
| `Qualifying.KeySetMatchesKeys` | src/index.js:47-86 | the set equals the elements of `filter(_ => true)`; its size is at most `length`, and equal to it when own keys are distinct |
| `Qualifying.ElementsBound` | src/index.js:49-56 | a list has at most as many distinct elements as entries, and exactly as many when it has no duplicates |
| `FastKeysView.ReadYourWrites` | src/index.js:9 | the view keeps no cache: a property added between two `length` calls is counted by the second exactly when it qualifies |

## Left out

- The host's real `for...in` order (integer-like keys first, ascending) is not modelled. The order of `JsObject.properties` is the enumeration order. For non-integer keys listed in insertion order, this gives the order that test/index.test.js:110 expects from `map`. The comment at test/index.test.js:59-61 disclaims order only for the integer-keyed object of that test.
- Shadowing is not modelled: an own property hiding an inherited one with the same key. Each entry is judged on its own flags.
- Objects that override `hasOwnProperty` are not modelled. Neither are objects with no `hasOwnProperty` method at all, such as a null-prototype object made by `Object.create(null)`. The source calls `object.hasOwnProperty(key)` as a method (src/index.js:12, 23, 38, 51, 62, 77, 91, 101). So on a null-prototype object, every operation throws a `TypeError` at the first key `for...in` yields, while `K` itself succeeds. In the model every operation returns normally and uses the entry's `own` flag.
- `K` on primitives (numbers, strings) is not modelled. JavaScript coerces those to wrapper objects. `JsValue` has only `null`, `undefined` and objects.
- Property values are not modelled, because no operation reads or passes them.
- Callbacks are pure total functions, so exceptions thrown by a callback and their propagation are not modelled.
- ForEach: the callback's side effects are modelled as a caller state threaded through the calls, not as arbitrary effects on the heap.
- `toSet` returns a Dafny `set<string>`, not a JavaScript `Set` object. Its identity and insertion order are not modelled.
- The performance comment on why a class is used (src/index.js:1-2) has no behaviour to model.
- index.d.ts is not part of this model. It has type declarations only, and it has no declaration for `find`.
- The fixture builders in test/index.test.js serve as evidence for the properties only. They are not modelled.
