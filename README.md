# schmancy-oo: C3 linearization and method combination, in Dafny

This project models the two core pieces of schmancy-oo, a PHP library for
method combination. Proofs cover both.

- **`C3Linearization::mro`** computes the method resolution order of a class or trait. It uses the C3 algorithm: the unit itself first, then the merge of the orders of its traits (in declaration order) and its parent class. The results are memoized by unit name.
- **`MethodCombinator`** walks that order. It collects the methods of one name that each unit declares itself; with traits included, a trait's method is found under a per-trait prefix. It calls them and folds their results with a combining function from an initial value. The defined methods are memoized by trait mode, class and method name.

PHP reflection is replaced by a descriptor map from unit names to `Unit`
values: the parent, the used traits, whether the unit is a trait, and the
method names it declares. Units are compared by name.

Files:

- `wrappers.dfy`: `Option`, `Result`, and the "memo only grows" predicate.
- `hierarchy.dfy`: unit descriptors, the local precedence list, and the acyclicity predicate `Ranked`.
- `c3_merge.dfy`:
  - `notHead` and the C3 merge, as functions;
  - the C3 merge again in the loop shape of `merge` (`MergeSeqs`), proved equal to the function;
  - soundness and completeness of the C3 merge;
  - `merge` as the PHP text runs it, including a by-reference leak between rounds (`MergeAsWritten`; see Findings).
- `c3_linearization.dfy`:
  - `mro` as a recursive function;
  - the memoizing `Linearizer` class, proved equal to that function;
  - what an order contains and which orders it keeps.
- `method_combinator.dfy`:
  - the `$instanceClass`-threading walk of `getImmediateMethod`;
  - a stateless reference description of what the walk finds;
  - the fold of `execute`;
  - the memoizing `MethodCombinator` class.
- `test_hierarchy.dfy`, `test_combinator.dfy`: the hierarchy of the repository's tests and the results those tests expect, proved for the model.
- `test_leak.dfy`: a hierarchy for which C3 has no order. The C3 model throws on it, while the PHP text returns an order.

## Model

| member | source | states |
|---|---|---|
| Hierarchy.Parents | lib/C3Linearization.php:56-60 | `$parents`: the traits in declaration order, then the parent class when there is one, and nothing else |
| C3Merge.NotHead | lib/C3Linearization.php:14-21 | `notHead` answers true only when some sequence holds the candidate past its head (both directions: `NotHeadSpec`) |
| C3Merge.NotHeadSpec | lib/C3Linearization.php:14-21 | `notHead` is true exactly when some sequence holds the candidate past its first position |
| C3Merge.NonEmpty | lib/C3Linearization.php:27 | `array_values(array_filter($seqs, 'count'))`: the result holds no empty sequence (which ones it keeps is `NonEmptyMembers`) |
| C3Merge.NonEmptyFacts | lib/C3Linearization.php:27 | dropping the empty sequences keeps the number of names to place, and changes nothing when no sequence is empty |
| C3Merge.NonEmptyMembers | lib/C3Linearization.php:27 | the filtered list holds exactly the non-empty input sequences |
| C3Merge.FindCandidateFrom | lib/C3Linearization.php:29-34 | the candidate search with its `break`: the position it returns is a sequence at or after the start (which one is `FindCandidateFromSpec`) |
| C3Merge.FindCandidateFromSpec | lib/C3Linearization.php:29-34 | the candidate search returns the first sequence whose head is in no tail, and finds none exactly when every head is in some tail |
| C3Merge.RemoveHead | lib/C3Linearization.php:37-41 | the strip pass keeps the number of sequences (what it does to each is `RemoveHeadFacts`) |
| C3Merge.RemoveHeadFacts | lib/C3Linearization.php:37-41 | the strip pass removes the chosen head from exactly the sequences it heads, and strictly shrinks what is left to place |
| C3Merge.DropHeads | lib/C3Linearization.php:37-41 | the by-reference loop leaves every sequence with the chosen head dropped from its front where it was there |
| C3Merge.Merge | lib/C3Linearization.php:24-44 | the C3 merge that `merge` is written to compute (without the leak of Findings): its only exception is `IndeterminateHierarchy` |
| C3Merge.MergeSeqs | lib/C3Linearization.php:24-44 | the loop shape of `merge` (filter, breaking search, in-place strip), without the by-reference leak of Findings, computes the C3 merge: the same order, or `IndeterminateHierarchy` in the same cases |
| C3Merge.MergeRound | lib/C3Linearization.php:29-41 | one round places the first eligible head, then merges what the strip leaves |
| C3Merge.MergeFiltered | lib/C3Linearization.php:27 | filtering the input first does not change the merge |
| C3Merge.MergeContents | lib/C3Linearization.php:24-44 | a successful merge places every name of the inputs once and nothing else |
| C3Merge.MergeRespectsSeq | lib/C3Linearization.php:24-44 | a successful merge keeps the order of each input sequence |
| C3Merge.MergeSound | lib/C3Linearization.php:24-44 | a successful merge is a duplicate-free order of exactly the input names that keeps every input sequence's order |
| C3Merge.CandidateExists | lib/C3Linearization.php:29-35 | when some order respects every remaining sequence, a round finds a candidate, so line 35 does not throw |
| C3Merge.MergeComplete | lib/C3Linearization.php:24-44 | when some order respects every input sequence, the merge succeeds |
| C3Merge.MergeSucceedsIff | lib/C3Linearization.php:35 | the C3 merge throws `IndeterminateHierarchy` exactly when no order of the names keeps every input sequence's order; the PHP text can return an order where it should throw (Findings) |
| C3Merge.ScanAsWritten | lib/C3Linearization.php:27-34 | the candidate search as the PHP text runs it, with `$seq` still bound to the last slot: the head it returns is in no tail of the sequences as the search leaves them, and without the leak it leaves them unchanged |
| C3Merge.ScanAsWrittenElems | lib/C3Linearization.php:27-34 | the leaking search leaves no empty sequence, and brings in no new name |
| C3Merge.ScanWithoutLeak | lib/C3Linearization.php:29-34 | without the leak, the search of the PHP text is the C3 candidate search |
| C3Merge.FewerNamesAsWritten | lib/C3Linearization.php:27-41 | every round of the PHP text removes the placed name everywhere, so the loop ends |
| C3Merge.MergeAsWritten | lib/C3Linearization.php:24-44 | `merge` as the PHP text runs it, leak included: its only exception is `IndeterminateHierarchy` |
| C3Linearization.MroInputs | lib/C3Linearization.php:56-61 | `merge` receives the seed `[u]`, the parents' orders in order, and the local precedence list (traits, then parent), in that order |
| C3Linearization.Linearization | lib/C3Linearization.php:52-62 | `mro` over the C3 merge: its only exception is `IndeterminateHierarchy` |
| C3Linearization.LinearizeAll | lib/C3Linearization.php:61 | `array_map('self::mro', $parents)` gives one order per parent, or `IndeterminateHierarchy` |
| C3Linearization.LinearizeAllPointwise | lib/C3Linearization.php:61 | the parents' orders succeed exactly when each parent's `mro` does, and each entry is that parent's `mro` |
| C3Linearization.LinearizationMembers | lib/C3Linearization.php:52-62 | every unit of an order is a described unit that ranks no higher than the unit ordered |
| C3Linearization.UnitNotInParentOrders | lib/C3Linearization.php:56-61 | in an acyclic hierarchy a unit is neither its own parent nor in a parent's order |
| C3Linearization.SeedIsEligible | lib/C3Linearization.php:29-61 | the seed `[u]` comes first among the merge inputs and its head is eligible |
| C3Linearization.LinearizationStartsWithUnit | lib/C3Linearization.php:61 | `mro(U)` starts with `U` |
| C3Linearization.LinearizationOfLeaf | lib/C3Linearization.php:56-61 | a unit with no parent and no traits is ordered `[U]` |
| C3Linearization.LinearizationKeepsOrder | lib/C3Linearization.php:56-61 | a successful C3 `mro` has no duplicates, keeps the local precedence list, and keeps the order of every parent; the PHP text can break the local precedence list (Findings) |
| C3Linearization.LinearizationKeepsAncestorOrders | lib/C3Linearization.php:52-62 | monotonicity over every ancestor: each unit in a successful C3 `mro(U)` has an order, and `mro(U)` keeps that order |
| C3Linearization.LinearizationContents | lib/C3Linearization.php:56-61 | a successful `mro(U)` holds exactly `U` and the units of its parents' orders |
| C3Linearization.OrderMembersFromInputs | lib/C3Linearization.php:56-61 | every unit of `mro(U)` is `U` or in the order of one of its parents |
| C3Linearization.InputMembersInOrder | lib/C3Linearization.php:56-61 | `U` and every unit in a parent's order are in `mro(U)` |
| C3Linearization.LinearizationSucceedsIff | lib/C3Linearization.php:35-61 | C3 `mro` throws exactly when a parent's order throws, or when no order keeps the seed, every parent's order and the local precedence list at once |
| C3Linearization.LinearizationOfParentOrders | lib/C3Linearization.php:61 | given its parents' orders, the order of a unit is their merge with the seed and the local precedence list |
| C3Linearization.Linearizer.constructor | lib/C3Linearization.php:53 | the memo starts empty |
| C3Linearization.Linearizer.Mro | lib/C3Linearization.php:52-62 | the memoized `mro` returns what a fresh computation gives, whether or not the cache hits; it stores only successful orders and never drops or changes an entry |
| C3Linearization.Linearizer.ParentMros | lib/C3Linearization.php:56-61 | the loop over the parents computes the parents' orders through the same memo, aborting on the first exception |
| Combinator.ImmediateMethod | lib/MethodCombinator.php:46-62 | `getImmediateMethod` throws `BadMethodCall` exactly when traits are included, the unit is a trait and the prefix is the default; a method is returned only when the unit it is looked up on declares it |
| Combinator.Walk | lib/MethodCombinator.php:64-85 | `array_filter(array_map(invoker, $classes))` with `$instanceClass` threaded through: its only exception is `BadMethodCall`, raised by the prefix |
| Combinator.WalkKeys | lib/MethodCombinator.php:64-85 | every method the walk finds is keyed by a position of the order at or after the start |
| Combinator.DefinedMethods | lib/MethodCombinator.php:76-90 | `getDefinedMethods` without its memo: its exceptions are `IndeterminateHierarchy` from `mro` and `BadMethodCall` from the prefix (exactly when is `DefinedMethodsSpec`) |
| Combinator.DefinedMethodsOfOrder | lib/MethodCombinator.php:82-85 | `getDefinedMethods` passes on the exception of `mro`, or walks the order `mro` returns |
| Combinator.LastClassIndex | lib/MethodCombinator.php:52-55 | the last class before a position is a class, with only traits between it and the position |
| Combinator.LastClassFound | lib/MethodCombinator.php:47-55 | with traits included, the instance class a unit meets is the last class before it, or none when only traits precede it |
| Combinator.WalkIsGather | lib/MethodCombinator.php:64-85 | the walk that threads `$instanceClass` throws exactly when the default prefix meets a trait, and otherwise finds what the stateless description gives |
| Combinator.GatherEntries | lib/MethodCombinator.php:83-85 | every entry holds a position of the order and the method found there, with keys strictly increasing; every position where a method is found has its entry |
| Combinator.LookupExcludingTraits | lib/MethodCombinator.php:55-61 | excluding traits, a unit contributes exactly when it declares the method under its plain name |
| Combinator.LookupIncludingTraits | lib/MethodCombinator.php:47-61 | including traits, a class contributes its own method under the plain name; a trait contributes its prefixed method, as declared by the nearest class before it, or by the trait itself when no class precedes it |
| Combinator.DefinedMethodsSpec | lib/MethodCombinator.php:76-90 | `getDefinedMethods` throws `IndeterminateHierarchy` when `mro` does, and `BadMethodCall` exactly when traits are included with the default prefix and the order holds a trait; otherwise it returns the stateless description |
| Combinator.FoldAppend | lib/MethodCombinator.php:104-107 | folding two runs of methods folds the second from where the first ends |
| Combinator.Results | lib/MethodCombinator.php:106 | the results are the value of each method's call, in order |
| Combinator.FoldConcat | lib/MethodCombinator.php:104-107 | with `array_merge` of lists as the operation, `execute` returns the initial list followed by every method's result, in order |
| Combinator.ExecutionOfNothing | lib/MethodCombinator.php:104-108 | a class defining no method of the name in its order combines to the initial value |
| Combinator.Execution | lib/MethodCombinator.php:101-109 | `execute` without its memos: it throws `UnknownClass` exactly for a class that is not loaded; its other exceptions are those of `mro` and the prefix |
| Combinator.MethodCombinator.constructor | lib/MethodCombinator.php:22-26 | the combinator keeps its initial value, combining function and trait mode; its memo starts empty |
| Combinator.MethodCombinator.ImmediateMethods | lib/MethodCombinator.php:64-85 | the loop over the order, with `$instanceClass` held in a local updated at each step, computes the walk |
| Combinator.MethodCombinator.GetDefinedMethods | lib/MethodCombinator.php:76-90 | the memoized `getDefinedMethods` returns what a fresh computation gives, hit or miss; a success is stored under (trait mode, class, method name); neither its memo nor the memo of `mro` loses or changes an entry |
| Combinator.MethodCombinator.Execute | lib/MethodCombinator.php:101-109 | `execute` returns the left fold of the method results from the initial value, or the exception of `mro`, the prefix, or an unknown class name; both memos only grow |
| Combinator.MethodCombinator.Invoke | lib/MethodCombinator.php:112-114 | `invoke` is `execute` on the class of the instance; both memos only grow |
| TestHierarchy.Acyclic | t/C3LinearizationTest.php:36-47 | the test hierarchy is closed and acyclic |
| TestHierarchy.OrderOfRoot | t/C3LinearizationTest.php:10 | the order of `Root` is `[Root]` |
| TestHierarchy.OrderOfSub1 | t/C3LinearizationTest.php:11 | the order of `Sub1` is `[Sub1, Root]` |
| TestHierarchy.OrderOfSub1Sub | t/C3LinearizationTest.php:12 | the order of `Sub1Sub` is `[Sub1Sub, Sub1, Root]` |
| TestHierarchy.OrderOfSub2 | t/C3LinearizationTest.php:13 | the order of `Sub2` is `[Sub2, Root]` |
| TestHierarchy.OrderOfTrait1 | t/C3LinearizationTest.php:15 | the order of `Trait1` is `[Trait1]` |
| TestHierarchy.OrderOfTrait2 | t/C3LinearizationTest.php:16 | the order of `Trait2` is `[Trait2]` |
| TestHierarchy.OrderOfSubTrait | t/C3LinearizationTest.php:17 | the order of `SubTrait` is `[SubTrait, Trait1]` |
| TestHierarchy.OrderOfSubWithTrait1 | t/C3LinearizationTest.php:19 | the order of `SubWithTrait1` is `[SubWithTrait1, Trait1, Sub2, Root]` |
| TestHierarchy.OrderOfSubWithTrait2 | t/C3LinearizationTest.php:20 | the order of `SubWithTrait2` is `[SubWithTrait2, Trait2, Sub1, Root]` |
| TestHierarchy.OrderOfSubWithTrait3 | t/C3LinearizationTest.php:21 | the order of `SubWithTrait3` is `[SubWithTrait3, SubTrait, Trait1, SubWithTrait2, Trait2, Sub1, Root]` |
| TestCombinator.StaticSubWithTrait3 | t/MethodCombinatorTest.php:21 | including traits, `static_merge` on `SubWithTrait3` combines to `[SubWithTrait3, SubTrait, Trait1, Root]` |
| TestCombinator.StaticSubTrait | t/MethodCombinatorTest.php:17 | including traits, `static_merge` on `SubTrait` combines to `[SubTrait, Trait1]` |
| TestCombinator.StaticSubWithTrait2 | t/MethodCombinatorTest.php:20 | including traits, `static_merge` on `SubWithTrait2` combines to `[Root]` |
| TestCombinator.StaticTrait2 | t/MethodCombinatorTest.php:16 | including traits, `static_merge` on `Trait2` combines to the initial `[]` |
| TestCombinator.InstanceSubWithTrait3 | t/MethodCombinatorTest.php:45 | excluding traits, `merge` on `SubWithTrait3` combines to `[SubWithTrait3, Root, uniq]` |
| TestCombinator.InstanceSubWithTrait1 | t/MethodCombinatorTest.php:43 | excluding traits, `merge` on `SubWithTrait1` combines to `[SubWithTrait1, Sub2, Root, uniq]` |
| TestCombinator.TraitInstanceSubWithTrait3 | t/MethodCombinatorTest.php:71 | including traits, `merge` on `SubWithTrait3` combines to `[SubWithTrait3, SubTrait, Trait1, Root, uniq]` |
| TestLeak.IndeterminateC | lib/C3Linearization.php:35-61 | for `trait T`, `class P { use T; }`, `class C extends P { use T; }`, C3 `mro(C)` throws `IndeterminateHierarchy`: `[T, P]` and the order `[P, T]` of `P` clash |
| TestLeak.AsWrittenMergesC | lib/C3Linearization.php:24-44 | the PHP text of `merge` returns `[C, P, T]` for the inputs of `C` |
| TestLeak.AsWrittenBreaksPrecedence | lib/C3Linearization.php:56-61 | `[C, P, T]` does not keep the local precedence list `[T, P]` of `C` |

## Left out

- Reflection (`ReflectionClass`, `hasMethod`, `getMethod`, `getDeclaringClass`, `isTrait`, `getTraits`, `getParentClass`) is replaced by the descriptor map `Graph`. A unit's `ownMethods` are the names whose declaring class reflection reports as that unit. PHP's method-name case-insensitivity is not modelled.
- `setAccessible(true)` (lib/MethodCombinator.php:86-88) changes visibility only and is not modelled.
- Method invocation (`invokeArgs`, `call_user_func`) is a parameter `call` from a found method to its result. The instance and the arguments are folded into `call`, and side effects of the methods are not modelled.
- `execute` accepts a class name or a `ReflectionClass`. The model takes the name; an unloaded name gives `UnknownClass` in place of the `ReflectionException`. `invoke` takes the instance's class name in place of calling `get_class`.
- C3Linearization.Linearizer.Mro: requires the unit to be described (`u in h`), because a `ReflectionClass` always exists for it. The unknown-name case is handled one level up, in `Execute`.
- Acyclicity of the hierarchy (`Ranked`) is assumed of every hierarchy, as PHP guarantees it for loaded classes. The model needs it for termination of `mro`.
- The two static caches are fields of per-object memo classes (`Linearizer`, `MethodCombinator`). PHP keeps one cache per method, shared by all objects. For `mro` this changes no result, since every hit equals a fresh computation. The `getDefinedMethods` key (trait mode, class, method name) leaves out the trait-method prefix. So combinator subclasses with different prefixes that share the cache could get each other's entries. With one prefix per memo, the model does not capture that.
- Units are compared by name. With `===` on `ReflectionClass` objects, `merge` could see two different objects for one class, e.g. the cached order of a parent and the parent object of a subclass. The model does not capture this.
- C3Linearization.Linearization: `mro` is modelled over the C3 merge, not over the PHP text of `merge`. That text leaks a reference between rounds (see Findings). With the leak, a hierarchy C3 rejects can still get an order, and that order can break the local precedence list. Example: `trait T {}`, `class P { use T; }`, `class C extends P { use T; }`; C3 throws, the PHP text gives `[C, P, T]`. The properties of `mro` above hold for C3, not for the PHP text. `MergeAsWritten` models that text for one merge; no `mro` is built over it.
- The falsiness test `!$cand` (lib/C3Linearization.php:35) is modelled as "no candidate found", since a `ReflectionClass` object is never falsy.
- The `uniq` value of the instance tests comes from `time()`. It is a parameter of the fixture lemmas.
- The `C3LT_`/`MCT_` name prefixes of the test classes are dropped; the test combinator's prefix is the short name followed by `_`.
- Of the combinator tests (t/MethodCombinatorTest.php), seven expectations are proved: four static, two instance and one trait-instance. The other rows run on the same hierarchy and are not restated.

## Findings

| source | as written | input that shows it | evidently intended | confidence | as-written member | corrected member |
|---|---|---|---|---|---|---|
| lib/C3Linearization.php:29-41 | the strip pass (line 37) iterates by reference and leaves `$seq` bound to the last slot of `$seqs`. The next round's search (line 29) iterates by value into that same `$seq`, so each sequence it reads is copied over the last slot, and the search and the strip see a changed list | `trait T {}`, `class P { use T; }`, `class C extends P { use T; }`: merge inputs `[[C], [T], [P, T], [T, P]]` give `[C, P, T]` instead of `IndeterminateHierarchy` | the C3 merge: throw when no order keeps every input sequence, and otherwise keep all of them | high; not executed | TestLeak.AsWrittenMergesC | C3Merge.MergeSucceedsIff |
