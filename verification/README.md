# EqualsTester, modelled in Dafny

A model of Guava's `EqualsTester` (guava-testlib), the test helper that checks
a class's `equals` and `hashCode` against *equality groups*: values within a
group must be equal to each other and hash alike, values of different groups
must be unequal, and no value may equal `null` or an instance of an unrelated
class.

The model is functional:

- `Wrappers` holds `Option` and `Result`. An `Option` argument is a Java
  reference that may be `null`; an `Option` outcome of a check is `None` when
  nothing failed. A `Result` is a value, or the exception or assertion failure
  the Java code would raise.
- `EqualsTester` holds the tester state, group registration, the traversal
  `testEquals` makes, the per-item checks of `testItems`, the two assertions of
  the anonymous `RelationshipAssertion`, and methods that run those checks and
  return the first failure.
- `EqualsTesterFacts` holds the properties: registration order, what a passing
  verdict certifies about `equals`/`hashCode`, the verdict for classes that keep
  the contract, the effect of adding groups, and two scenarios with strings.

The class under test is the type parameter `T`. Its values are non-null object
references, and Dafny's `==` on `T` is Java's reference identity. The class's
`equals(Object)` and `hashCode()` are the fields of a `Behaviour<T>`:
`equals: (T, Obj<T>) -> bool`, where `Obj<T>` is `Null`, the private sentinel
`EqualToNothing` (the `NotAnInstance` enum), or `Instance(v)`. Nothing assumes
these functions are lawful; the point of the tester is to detect when they are
not. `testEquals` becomes the predicate `Passes(t, u)` and the method
`TestEquals`, which returns the same tester or the first failure.

Points of the source worth knowing:

- A null array makes `checkNotNull` throw `NullPointerException`; the model
  returns `Failure(NullArgument)`.
- There is no `addEqualObject` method, although the class comment mentions it.
  The default group is a field that no operation fills. The model keeps it and
  registers it only when non-empty, as `testEquals` does.
- `assertUnrelated` uses `Objects.equal`, which is true for two identical
  references before `equals` is consulted. The model keeps that identity test.
  `UnrelatedIdentityRedundant` shows it adds nothing once the item checks pass.

## Model

| member | source | states |
|---|---|---|
| `EqualsTester.AddEqualityGroup` | guava-testlib/src/com/google/common/testing/EqualsTester.java:101-105 | A null array fails with `NullArgument` and only then. Otherwise exactly one group, equal element for element to the argument, is appended after the earlier groups, which are kept. The default group is unchanged. An empty array is accepted. |
| `EqualsTester.AddAll` | guava-testlib/src/com/google/common/testing/EqualsTester.java:40-44 | A fluent chain of `addEqualityGroup` calls leaves the default group alone and appends the given groups after the existing ones, in call order. |
| `EqualsTester.Registered` | guava-testlib/src/com/google/common/testing/EqualsTester.java:127-132 | The groups handed to the relationship checker: the default group first, and only when it is non-empty, followed by the added groups in insertion order. |
| `EqualsTester.FirstItemFailure` | guava-testlib/src/com/google/common/testing/EqualsTester.java:142-146 | Reports no failure exactly when the item is unequal to null, unequal to the sentinel and equal to itself (the hash-consistency check always holds). A reported check really fails, and every check the code makes before it holds. |
| `EqualsTester.TestItems` | guava-testlib/src/com/google/common/testing/EqualsTester.java:140-148 | Passes exactly when every traversed item passes its checks. A failure names the first failing item in traversal order, with that item's first failing check. |
| `EqualsTester.AssertRelated` | guava-testlib/src/com/google/common/testing/EqualsTester.java:113-119 | A related pair passes exactly when `item.equals(related)` and the two hash codes are equal. Inequality is reported before any hash mismatch. |
| `EqualsTester.AssertUnrelated` | guava-testlib/src/com/google/common/testing/EqualsTester.java:121-125 | An unrelated pair passes exactly when the two references differ and `item.equals(unrelated)` is false. Hash codes are not constrained. |
| `EqualsTester.CheckRelationships` | guava-testlib/src/com/google/common/testing/EqualsTester.java:111-135 | Passes exactly when every ordered pair of registered items passes: the related assertion within a group, the unrelated one across groups. A failure names a pair of positions that really fails the named assertion. |
| `EqualsTester.TestEquals` | guava-testlib/src/com/google/common/testing/EqualsTester.java:110-138 | Succeeds exactly when a single run of the item and pair checks passes, so repeating the run `REPETITIONS` times gives the verdict of one run. On success it returns the same tester, groups untouched. An item failure is the first in traversal order. A pair failure is reported only when every item has passed, and it names a genuinely failing pair. |
| `EqualsTesterFacts.ConcatPrepend` | guava-testlib/src/com/google/common/testing/EqualsTester.java:141 | Concatenating a group in front of others puts its items before all the others. |
| `EqualsTesterFacts.ConcatMembers` | guava-testlib/src/com/google/common/testing/EqualsTester.java:141 | The traversal contains every item of every group, and nothing that is not in some group. |
| `EqualsTesterFacts.ItemsAreRegisteredItems` | guava-testlib/src/com/google/common/testing/EqualsTester.java:127-141 | The items `testItems` visits are exactly the items of the groups registered with the relationship checker, in the same order. An empty default group contributes nothing to either. |
| `EqualsTesterFacts.AddedGroupComesLast` | guava-testlib/src/com/google/common/testing/EqualsTester.java:101-105 | After `addEqualityGroup(g)`, the registered groups are the earlier ones followed by `g`. The traversal is the earlier traversal followed by `g`'s items. |
| `EqualsTesterFacts.EqualIffSameGroup` | guava-testlib/src/com/google/common/testing/EqualsTester.java:113-125 | When all pair assertions pass, two registered items are `equals` exactly when they sit in the same group. Items in the same group hash alike, and items in different groups are different references. |
| `EqualsTesterFacts.PassingCertifiesEquivalence` | guava-testlib/src/com/google/common/testing/EqualsTester.java:46-55 | If `testEquals` passes, then on the exhibited values `equals` is reflexive, symmetric and transitive. It never holds against null or the sentinel, and equal values have equal hash codes. |
| `EqualsTesterFacts.LawfulVerdict` | guava-testlib/src/com/google/common/testing/EqualsTester.java:36-38 | For a class whose `equals` is an equivalence consistent with `hashCode` and false against null and the sentinel, `testEquals` passes exactly when the groups partition the values the way `equals` does. |
| `EqualsTesterFacts.AddingGroupOnlyTightens` | guava-testlib/src/com/google/common/testing/EqualsTester.java:101-105 | If a tester passes after a group is added, it passed before. Adding a group only adds obligations. |
| `EqualsTesterFacts.EmptyGroupIsInert` | guava-testlib/src/com/google/common/testing/EqualsTester.java:101-103 | Adding an empty group leaves the verdict unchanged, in both directions. |
| `EqualsTesterFacts.SelfPairsRedundant` | guava-testlib/src/com/google/common/testing/EqualsTester.java:113-146 | The verdict is the same whether or not the relationship checker pairs an item with itself, because the item checks already demand reflexivity. |
| `EqualsTesterFacts.UnrelatedIdentityRedundant` | guava-testlib/src/com/google/common/testing/EqualsTester.java:121-125 | For an item that passes its checks, `assertUnrelated` passes exactly when `equals` is false. The identity test in `Objects.equal` changes nothing. |
| `EqualsTesterFacts.HelloWorldPasses` | guava-testlib/src/com/google/common/testing/EqualsTester.java:40-44 | The class-comment example (`"hello"` and `"h" + "ello"`, then `"world"` and `"wor" + "ld"`) passes with `String.equals` and any hash function, including one under which the two groups collide. |
| `EqualsTesterFacts.HelloTwiceFails` | guava-testlib/src/com/google/common/testing/EqualsTester.java:36-38 | Putting `"hello"` in one group and again in a second group fails with `String.equals`, whatever the hash function. |

## Left out

- `RelationshipTester` is outside this model; its pair-visiting order and its `$ITEM`/`$RELATED` message substitution are not modelled. `CheckRelationships` covers every ordered pair, self-pairs included. `SelfPairsRedundant` shows the verdict does not depend on whether self-pairs are visited.
- EqualsTester.CheckRelationships: states that the reported pair really fails, not which failing pair the relationship checker reports first, because its pair-visiting order is not modelled.
- EqualsTester.TestEquals: for a pair failure, states only that the reported pair really fails, not that it is the first one, for the same reason.
- `GuavaAsserts` is not part of this model. A failure is a `TestFailure` value naming the check and the positions, not an exception with a message. `assertEquals(expected, actual)` on a non-null `expected` is read as `expected.equals(actual)`.
- Nondeterministic `hashCode`. `equals` and `hashCode` are pure functions, so the hash-consistency check (line 146) always holds. Repeating the protocol `REPETITIONS` times therefore cannot change the verdict. The model runs the loop and proves that, rather than simulating mutable state.
- Exceptions thrown by the class under test are not modelled. `equals` and `hashCode` are total functions, so a `hashCode` that throws cannot be expressed at all, and an `equals` that throws (a `NullPointerException` against `null` at line 142, a `ClassCastException` against the sentinel at lines 143-144) can only be written as the boolean that fails the check. In Java such an exception fails `testEquals`; in the model a `hashCode` cannot fail that way. `toString`, used only in failure messages, is not modelled either.
- Null elements inside a group are not modelled. `ImmutableList.copyOf` rejects them, and `T` stands for non-null references.
- Mixing unrelated classes in one tester is not modelled. The class comment does this with `addEqualityGroup(2, 1 + 1)`, but in the model every tester checks values of one type `T`.
- Java's 32-bit `int` width of `hashCode` is not modelled. Hash codes are only compared for equality, so unbounded integers give the same verdicts.
- Mutating the caller's array after `addEqualityGroup` is not modelled, because groups are immutable values. Concurrent use, the annotations and the build configuration are also left out.
