# Dependency metadata and the binding registry, in Dafny

This project models two parts of an inversion-of-control container.

The first is the **lookup**: an ordered multimap from a service identifier (a token) to the list of values registered under it. `lookup.dfy` (module `Lookups`) has a class `Lookup` whose fields are the source's private JavaScript `Map`:

- `keys` holds the map's keys in order of first insertion;
- `entries` holds the list stored under each key.

Its methods change those fields in place, as `add`, `remove`, `removeByCondition` and `clone` do. Each method's contract ties the new state to a specification function of the old state: `Added`, `Removed`, `Purged`, `Cloned`. Lemmas then prove what the lookup promises:

- values come back in the order they were added;
- a present key never maps to an empty list;
- `remove` undoes a first `add`;
- `removeByCondition` is idempotent;
- a clone is independent of its original.

The second is **target resolution**: from the metadata the decorators recorded for a class, it computes the ordered list of injection targets. `reflection.dfy` (module `Reflection`) models this part.

- A class contributes one target per managed constructor argument. Then come one target per injected property of the class, and one per injected property of each class it extends.
- JavaScript values are a datatype `Value`. JavaScript's truthiness and `||` are defined for that datatype.
- Each loop of the source is a method with a loop invariant. Each method is proved equal to a recursive specification function.
- Lemmas about those functions state:
  - the precedence of the identifiers;
  - when resolution fails, and with which error;
  - that the targets come in order: constructor arguments by position, then properties from the most derived class up the chain.

`wrappers.dfy` holds `Option`, `Result` and `Outcome`. A thrown error becomes a `Failure`/`Fail` value, and `null`/`undefined` arguments become `None`.

Three behaviours of the code worth knowing:

- A `LazyServiceIdentifer` is unwrapped when the constructor-argument target is built (`reflection.ts:91-93`). Its evaluation is not deferred to the point of use.
- For a constructor that declares no parameters but carries user metadata, the resolver runs positions `0 .. n-1`, where `n` is the number of metadata keys (`reflection.ts:47-49, 127-139`). It does not visit the keys themselves. `SparseMetadataReadByPosition` shows the consequence: metadata stored only under index 2 is never read, and position 0 fails.
- `clone` clones every stored value with the value's own `clone` (`lookup.ts:102`), although the comment above it (`lookup.ts:95-96`) says the contents stay the same.

## Model

| member | source | states |
|---|---|---|
| Lookups.Lookup.constructor | packages/common/decorators/lookup.ts:9-11 | a new lookup is valid and holds no key |
| Lookups.Lookup.SetEntry | packages/common/decorators/lookup.ts:39-41 | `Map.set`: the new state is `MapSet` of the old state, under which a new key goes last in the key order and a present key keeps its place |
| Lookups.Lookup.DeleteEntry | packages/common/decorators/lookup.ts:68 | `Map.delete`: returns whether the key was present; the new state is `MapDelete` of the old |
| Lookups.MapSet | packages/common/decorators/lookup.ts:39-41 | setting a key keeps the key order a listing of exactly the table's keys, each once |
| Lookups.MapDelete | packages/common/decorators/lookup.ts:68 | deleting keeps that invariant, leaves the key absent, and changes nothing when the key was absent |
| Lookups.Added | packages/common/decorators/lookup.ts:36-42 | appending a value preserves the lookup's invariant that no key maps to an empty list |
| Lookups.Removed | packages/common/decorators/lookup.ts:68-70 | removing a key preserves the invariant and leaves the key absent |
| Lookups.Lookup.Add | packages/common/decorators/lookup.ts:26-43 | a missing token or value fails with a null-argument error and changes nothing; otherwise the value is appended to the token's list, which is created when absent; the invariant is kept |
| Lookups.Lookup.Get | packages/common/decorators/lookup.ts:46-59 | null-argument error for a missing token, key-not-found error for an absent one, else the token's stored list, which is never empty |
| Lookups.Lookup.Remove | packages/common/decorators/lookup.ts:62-72 | null-argument error, or key-not-found error with the state unchanged; otherwise the key and its list are deleted; afterwards the token is absent in every case |
| Lookups.Lookup.RemoveByCondition | packages/common/decorators/lookup.ts:74-83 | the new state is `Purged` of the old: every list filtered by the negated condition, and keys whose list became empty deleted; the invariant is kept |
| Lookups.Lookup.VisitKey | packages/common/decorators/lookup.ts:75-82 | one turn of the `forEach` callback: after key `i` is visited, the state is the old state purged up to and including that key, with the later keys untouched |
| Lookups.Lookup.HasKey | packages/common/decorators/lookup.ts:86-93 | null-argument error for a missing token, else whether the token is a key |
| Lookups.Lookup.Clone | packages/common/decorators/lookup.ts:97-106 | returns a freshly allocated, valid lookup whose state is `Cloned` of the original |
| Lookups.Without | packages/common/decorators/lookup.ts:68 | the key order after a delete holds exactly the other keys, and is unchanged when the key was absent |
| Lookups.WithoutDistinct | packages/common/decorators/lookup.ts:68 | deleting a key keeps the key order free of duplicates |
| Lookups.Reject | packages/common/decorators/lookup.ts:76 | filtering never lengthens a list |
| Lookups.RejectMembers | packages/common/decorators/lookup.ts:76 | an element survives the filter if and only if it was in the list and does not satisfy the condition |
| Lookups.RejectNoMatch | packages/common/decorators/lookup.ts:76 | a list with no matching element is returned unchanged |
| Lookups.RejectIdempotent | packages/common/decorators/lookup.ts:76 | filtering twice equals filtering once |
| Lookups.SurvivingMembers | packages/common/decorators/lookup.ts:77-81 | a key stays in the order if and only if it was there and its filtered list is non-empty |
| Lookups.SurvivingDistinct | packages/common/decorators/lookup.ts:77-81 | the surviving key order has no duplicates |
| Lookups.SurvivingAll | packages/common/decorators/lookup.ts:77-81 | when every key keeps a value, no key is dropped |
| Lookups.Purged | packages/common/decorators/lookup.ts:74-83 | purging preserves the lookup's invariant |
| Lookups.PurgedContents | packages/common/decorators/lookup.ts:74-83 | after a purge, a key is present if and only if it had a value not satisfying the condition; its list is its old list filtered; no stored value satisfies the condition; the key order is `Surviving` of the old one |
| Lookups.SurvivingInOrder | packages/common/decorators/lookup.ts:77-81 | the surviving keys are a subsequence of the old key order |
| Lookups.PurgedKeepsOrder | packages/common/decorators/lookup.ts:74-83 | after `removeByCondition`, the remaining keys are a subsequence of the old key order: none is moved |
| Lookups.PurgedIdempotent | packages/common/decorators/lookup.ts:74-83 | removing by the same condition twice equals removing once |
| Lookups.PurgedUnchanged | packages/common/decorators/lookup.ts:74-83 | a purge that matches nothing leaves the lookup unchanged |
| Lookups.VisitedEnd | packages/common/decorators/lookup.ts:75-82 | once the `forEach` has visited every key, the state is `Purged` of the state it started from |
| Lookups.VisitedStep | packages/common/decorators/lookup.ts:76-81 | the key visited next is still present with its original list; after the visit it keeps its place with the filtered list, or is deleted when that list is empty |
| Lookups.AddedFrame | packages/common/decorators/lookup.ts:36-42 | after `add`, the key is present with its old list plus the value, or with a one-element list as a new last key; every other key is unchanged |
| Lookups.AddedAll | packages/common/decorators/lookup.ts:36-42 | a sequence of adds preserves the invariant |
| Lookups.AddedAllInOrder | packages/common/decorators/lookup.ts:26-59 | after adding `v1 … vn` under a key, its list is its old list, or the empty list, followed by `v1 … vn` in that order |
| Lookups.AddedAllFrame | packages/common/decorators/lookup.ts:36-42 | adds under one key change neither the presence nor the list of any other key |
| Lookups.RemovedUndoesAdded | packages/common/decorators/lookup.ts:36-70 | removing a key that the previous add created restores the lookup exactly |
| Lookups.RemovedFrame | packages/common/decorators/lookup.ts:68-70 | `remove` deletes only that key; the other keys keep their order, presence and lists |
| Lookups.DeleteUndoesSet | packages/common/decorators/lookup.ts:39-68 | `Map.delete` of a key that the previous `Map.set` inserted restores the map |
| Lookups.Cloned | packages/common/decorators/lookup.ts:97-106 | a cloned lookup satisfies the invariant |
| Lookups.ClonedShape | packages/common/decorators/lookup.ts:97-106 | the clone has the same keys in the same order, and each list is the element-wise clone of the original list |
| Lookups.CopiedEnd | packages/common/decorators/lookup.ts:101-103 | the clone's nested `forEach` loops, run to the end, build exactly `Cloned` |
| Lookups.CopiedStep | packages/common/decorators/lookup.ts:102 | each inner turn is one `add` of the next value's clone under its key |
| Lookups.CloneIsIndependent | packages/common/decorators/lookup.ts:97-106 | an `add` on the clone leaves the original's state unchanged, and the clone is a different object |
| Reflection.FormatTargetMetadata | packages/common/decorators/reflection.ts:187-203 | the loop over the tags builds the record `Format` describes: the four recognised tags read from the tag map |
| Reflection.TagMapKeys | packages/common/decorators/reflection.ts:190-193 | the tag map's keys are exactly the keys of the tags |
| Reflection.TagMapLastWins | packages/common/decorators/reflection.ts:191-193 | a key maps to the value of its last tag |
| Reflection.FormatReadsLastTag | packages/common/decorators/reflection.ts:196-201 | a recognised field is `undefined` when no tag has its key, and otherwise the value of the last tag with that key |
| Reflection.ArgIdentifier | packages/common/decorators/reflection.ts:84-93 | a truthy `inject` tag wins, then a truthy `multiInject` tag, then the compiler-emitted type, which is `undefined` past its end; whichever of the three is chosen, a lazy identifier is replaced by the value its supplier returns |
| Reflection.ConstructorArgAsTarget | packages/common/decorators/reflection.ts:72-116 | no target exactly when the argument carries `unmanaged: true`; an error exactly when, outside a base-class pass, a managed argument's identifier is `Object`, `Function` or `undefined`, and it names this index and class; otherwise a constructor-argument target with the name tag, the resolved identifier and the raw tags, whose identifier is never ambiguous outside a base-class pass |
| Reflection.GetConstructorArgsAsTargets | packages/common/decorators/reflection.ts:118-142 | the loop's result equals the recursive definition over indices `0 .. iterations-1`, including the early exit on the first error |
| Reflection.FailureIsFinal | packages/common/decorators/reflection.ts:127-139 | once an index fails, every longer run fails with the same error |
| Reflection.ManagedIndicesSound | packages/common/decorators/reflection.ts:82 | every index listed as managed is below the bound and lacks `unmanaged: true` |
| Reflection.ManagedIndicesIncreasing | packages/common/decorators/reflection.ts:127-139 | managed indices are listed in strictly increasing order |
| Reflection.ManagedIndicesComplete | packages/common/decorators/reflection.ts:127-139 | every managed index below the bound is listed |
| Reflection.ConstructorArgsSucceed | packages/common/decorators/reflection.ts:97-139 | resolution of the arguments succeeds if and only if it is a base-class pass or no managed argument has an `Object`, `Function` or `undefined` identifier |
| Reflection.ConstructorArgsInOrder | packages/common/decorators/reflection.ts:118-142 | on success, the targets are exactly those of the managed arguments, in positional order, each carrying its name tag, its resolved identifier and its raw tag list |
| Reflection.ConstructorArgsStep | packages/common/decorators/reflection.ts:136-138 | a successful run extends the run one shorter by the target of the last index, or by nothing when that argument is unmanaged |
| Reflection.ConstructorArgsFirstAmbiguous | packages/common/decorators/reflection.ts:104-107 | a failure happens only outside a base-class pass; it is a missing-inject error for this class, naming the first ambiguous managed argument |
| Reflection.Iterations | packages/common/decorators/reflection.ts:47-49 | the iteration count is never below the declared arity; a zero-arity constructor with user metadata runs as many iterations as there are metadata keys, and every other constructor runs its declared arity |
| Reflection.PropertyTarget | packages/common/decorators/reflection.ts:153-167 | a class-property target carrying the raw tags, named by a truthy name tag or else by the key (so truthy for a non-empty key), identified by a truthy `inject` tag or else the `multiInject` tag, with no lazy unwrap; the identifier is truthy exactly when one of those tags is |
| Reflection.OwnTargetsCover | packages/common/decorators/reflection.ts:150-168 | every own property yields its target, and every own target comes from an own property |
| Reflection.OwnPropertyTargets | packages/common/decorators/reflection.ts:150-168 | one target per own property key, in key order |
| Reflection.GetClassPropsAsTargets | packages/common/decorators/reflection.ts:144-185 | the loop plus recursion equal the own-then-base definition |
| Reflection.PropertyTargetsOwnThenBase | packages/common/decorators/reflection.ts:150-182 | each own key yields a class-property target named by its name tag or else the key, identified by its `inject` or else `multiInject` tag; the base class's targets follow, and nothing follows when the class extends `Object` |
| Reflection.ClassPropsCoverChain | packages/common/decorators/reflection.ts:144-185 | every property of every class in the chain yields its target, and every target is a property target of some class in the chain |
| Reflection.GetTargets | packages/common/decorators/reflection.ts:26-70 | the method computes `Targets`: missing-injectable error, else the first argument error, else the argument targets followed by the property targets |
| Reflection.TargetsMissingInjectable | packages/common/decorators/reflection.ts:36-42 | a class without compiler-emitted metadata fails with a missing-injectable error naming it; a base-class pass fails only for that reason |
| Reflection.TargetsOnSuccess | packages/common/decorators/reflection.ts:45-66 | on success, the result is the managed argument targets in order followed by the property targets of the class chain |
| Reflection.TargetsKindsOrdered | packages/common/decorators/reflection.ts:63-66 | every constructor-argument target precedes every class-property target |
| Reflection.FunctionName | packages/common/decorators/reflection.ts:8-16 | the class's `name` when non-empty, else the fallback name; empty only when both are |
| Reflection.GetDependencies | packages/common/decorators/reflection.ts:18-24 | the class is resolved under its function name, not as a base class |
| Reflection.DependenciesErrors | packages/common/decorators/reflection.ts:8-24 | any error names the class by its function name, which is its `name` when that is non-empty; a missing-inject error names an ambiguous argument below the iteration count |
| Reflection.TwoTypedArguments | packages/common/decorators/reflection.ts:26-70 | two parameters typed `A` and `B` with no user metadata yield two constructor-argument targets `A`, `B` in that order |
| Reflection.InterfaceParameterFails | packages/common/decorators/reflection.ts:95-107 | a parameter typed by an interface (emitted as `Object`) with no `inject` tag fails with a missing-inject error for argument 0 |
| Reflection.InterfaceParameterInBaseClass | packages/common/decorators/reflection.ts:97-111 | the same parameter in a base-class pass yields a target with the `Object` identifier instead of failing |
| Reflection.LazyInjectUnwrapped | packages/common/decorators/reflection.ts:86-93 | an `inject` tag holding a lazy identifier resolves to the token its supplier returns |
| Reflection.SubclassPropertyFirst | packages/common/decorators/reflection.ts:144-185 | a subclass's injected property precedes the one it inherits |
| Reflection.SparseMetadataReadByPosition | packages/common/decorators/reflection.ts:47-49 | a zero-arity constructor whose only user metadata is under index 2 runs one iteration, at index 0, and fails there |

## Left out

- `getMap` (`lookup.ts:13-15`) hands out the private map itself, so callers can alias it. The model does not expose the fields beyond the class.
- `addProvider` (`lookup.ts:17-23`) only throws "not implemented". It is not modelled.
- Lookups.Lookup.Get returns a copy of the stored list. The source returns the stored array by reference, so a caller can change it later. `add` pushes onto that same array (`lookup.ts:38`); the model builds a new list.
- Lookups.Lookup.Clone takes the values' `clone` as a function `cloneOf` and assumes it always returns a value. Object identity of the cloned values is not modelled.
- Tag keys are compared by `toString()` in the source (`reflection.ts:192`). The metadata-key constants module is not part of this model, so the four recognised keys are distinct constructors and every other key is `OtherTag`.
- The `Target` class, `LazyServiceIdentifer` and the target-type enum live in modules that are not part of this model. A target is a value of its kind, name, identifier and raw tags. A lazy identifier is a `Lazy` value holding what its supplier returns, so the supplier is taken to return the same value on every call.
- The metadata reader's implementation is not part of this model. It is a pair of total functions.
- A class's identity is its `id` field. The model does not force two values with the same `id` to agree in their other fields, as one JavaScript function object would.
- The prototype chain (`reflection.ts:171-173`) is the `base` field of a class. A class whose chain is cyclic cannot be built, so the source's unbounded recursion on such a chain is not modelled.
- Reflection.FunctionName models only the `name` branch of `getFunctionName`. The regex fallback over the function's source text (`reflection.ts:12-14`) is taken as the given field `textName`.
- JavaScript values outside `Value` (numbers, `NaN`, arbitrary objects) are left out, and so is their truthiness. The text of error messages is replaced by the error's kind, the index and the class name.
- Object keys of user metadata are natural numbers in the model. In the source they are strings that parse as indices.
- Lookups.Lookup.RemoveByCondition takes `condition` as a pure function that always returns. In the source it is a callback run inside `Map.forEach` (`lookup.ts:75-76`). A callback that throws part way would leave the keys already visited filtered and the rest untouched; that is the state `Visited(s0, i)` describes, but the method does not return it. A callback that adds a key to the same lookup would make `forEach` visit that key too; this is not modelled.
- Concurrency and the logger are left out; the source is single-threaded and synchronous.
