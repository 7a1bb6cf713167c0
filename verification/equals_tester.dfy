/** A model of Guava's `EqualsTester`: a builder that collects equality groups
    and then checks a class's `equals` and `hashCode` against them.

    The class under test is the type parameter `T`, whose values are non-null
    object references; Dafny's `==` on `T` is Java's reference identity (`==`).
    The class's own `equals(Object)` and `hashCode()` are the fields of a
    `Behaviour`, so nothing here assumes that they are lawful. */
module EqualsTester {
  import opened Wrappers

  /** How many times `testEquals` repeats the whole protocol. */
  const REPETITIONS: nat := 3

  /** An argument of `equals(Object)`: `null`, the private sentinel
      `NotAnInstance.EQUAL_TO_NOTHING`, or an instance of the class under test.
      The sentinel is a constructor of its own, so no caller value is ever it. */
  datatype Obj<T> = Null | EqualToNothing | Instance(value: T)

  /** The class under test: its `equals(Object)` and its `hashCode()`. */
  datatype Behaviour<!T> = Behaviour(equals: (T, Obj<T>) -> bool, hashCode: T -> int)

  /** `x.equals(y)` for an instance `y`. */
  predicate Eq<T>(u: Behaviour<T>, x: T, y: T) {
    u.equals(x, Instance(y))
  }

  /** Guava's `Objects.equal(x, y)` for a non-null `x`: identity, else `equals`. */
  predicate ObjectsEqual<T(==)>(u: Behaviour<T>, x: T, y: T) {
    x == y || Eq(u, x, y)
  }

  // ---------------------------------------------------------------------------
  // Tester state and group registration
  // ---------------------------------------------------------------------------

  /** The tester's two fields: the default group (which no operation of the
      class fills) and the equality groups in the order they were added. Both
      are values, so a group is an immutable copy of what the caller passed. */
  datatype Tester<T> = Tester(defaultEqualObjects: seq<T>, equalityGroups: seq<seq<T>>)

  /** A freshly constructed tester. */
  function NewTester<T>(): Tester<T> {
    Tester([], [])
  }

  /** `checkNotNull` failing on a null varargs array. */
  datatype Error = NullArgument

  /** `addEqualityGroup(Object...)`: a null array is rejected (and, the model
      being functional, the caller's tester is untouched); any other array,
      the empty one included, is appended as one new group. */
  function AddEqualityGroup<T>(t: Tester<T>, equalityGroup: Option<seq<T>>): (r: Result<Tester<T>, Error>)
    ensures r.Failure? <==> equalityGroup.None?
    ensures r.Failure? ==> r.error == NullArgument
    ensures r.Success? ==>
              && r.value.defaultEqualObjects == t.defaultEqualObjects
              && |r.value.equalityGroups| == |t.equalityGroups| + 1
              && r.value.equalityGroups[..|t.equalityGroups|] == t.equalityGroups
              && r.value.equalityGroups[|t.equalityGroups|] == equalityGroup.value
  {
    match equalityGroup
    case None => Failure(NullArgument)
    case Some(group) => Success(Tester(t.defaultEqualObjects, t.equalityGroups + [group]))
  }

  /** A fluent chain `t.addEqualityGroup(g0).addEqualityGroup(g1)...` over
      non-null arrays: the groups end up after the existing ones, in call order. */
  function AddAll<T>(t: Tester<T>, groups: seq<seq<T>>): (r: Tester<T>)
    ensures r.defaultEqualObjects == t.defaultEqualObjects
    ensures r.equalityGroups == t.equalityGroups + groups
    decreases |groups|
  {
    if |groups| == 0 then t
    else
      var next := AddEqualityGroup(t, Some(groups[0])).value;
      assert next.equalityGroups + groups[1..] == t.equalityGroups + groups;
      AddAll(next, groups[1..])
  }

  // ---------------------------------------------------------------------------
  // What testEquals traverses
  // ---------------------------------------------------------------------------

  /** `Iterables.concat` of a list of groups: their items, group after group. */
  function Concat<T>(groups: seq<seq<T>>): seq<T> {
    if |groups| == 0 then []
    else Concat(groups[..|groups| - 1]) + groups[|groups| - 1]
  }

  /** The groups handed to the relationship checker, in order: the default
      group only when it is non-empty, then every added group. */
  function Registered<T>(t: Tester<T>): (groups: seq<seq<T>>)
    ensures |t.defaultEqualObjects| > 0 ==> |groups| == |t.equalityGroups| + 1 && groups[0] == t.defaultEqualObjects && groups[1..] == t.equalityGroups
    ensures |t.defaultEqualObjects| == 0 ==> groups == t.equalityGroups
  {
    (if |t.defaultEqualObjects| > 0 then [t.defaultEqualObjects] else []) + t.equalityGroups
  }

  /** The items `testItems` visits: the default group's, then each added group's. */
  function Items<T>(t: Tester<T>): seq<T> {
    t.defaultEqualObjects + Concat(t.equalityGroups)
  }

  // ---------------------------------------------------------------------------
  // Per-item checks (testItems)
  // ---------------------------------------------------------------------------

  /** The four assertions made of every item. */
  datatype ItemCheck = UnequalToNull | UnequalToSentinel | EqualToItself | ConsistentHash

  /** The position of a check in the order the code makes them. */
  function Rank(c: ItemCheck): nat {
    match c
    case UnequalToNull => 0
    case UnequalToSentinel => 1
    case EqualToItself => 2
    case ConsistentHash => 3
  }

  /** Whether item `x` satisfies check `c`. With `hashCode` a function, the
      consistency check compares a value with itself and always holds. */
  predicate ItemHolds<T>(u: Behaviour<T>, x: T, c: ItemCheck) {
    match c
    case UnequalToNull => !u.equals(x, Null)
    case UnequalToSentinel => !u.equals(x, EqualToNothing)
    case EqualToItself => Eq(u, x, x)
    case ConsistentHash => u.hashCode(x) == u.hashCode(x)
  }

  /** Item `x` passes every check. */
  predicate ItemPasses<T>(u: Behaviour<T>, x: T) {
    forall c :: ItemHolds(u, x, c)
  }

  /** The first of the item checks, in the code's order, that `x` fails. */
  function FirstItemFailure<T>(u: Behaviour<T>, x: T): (r: Option<ItemCheck>)
    ensures r.None? <==> ItemPasses(u, x)
    ensures r.Some? ==> !ItemHolds(u, x, r.value)
    ensures r.Some? ==> forall c :: Rank(c) < Rank(r.value) ==> ItemHolds(u, x, c)
  {
    if u.equals(x, Null) then
      assert !ItemHolds(u, x, UnequalToNull);
      Some(UnequalToNull)
    else if u.equals(x, EqualToNothing) then
      assert !ItemHolds(u, x, UnequalToSentinel);
      Some(UnequalToSentinel)
    else if !Eq(u, x, x) then
      assert !ItemHolds(u, x, EqualToItself);
      Some(EqualToItself)
    else None
  }

  /** Every item of the traversal passes every check. */
  predicate AllItemsPass<T>(u: Behaviour<T>, items: seq<T>) {
    forall k :: 0 <= k < |items| ==> ItemPasses(u, items[k])
  }

  // ---------------------------------------------------------------------------
  // Per-pair assertions (the anonymous RelationshipAssertion)
  // ---------------------------------------------------------------------------

  /** The assertions a pair can fail: the two of `assertRelated`, in order,
      and the one of `assertUnrelated`. */
  datatype PairCheck = MustBeEqual | HashMustBeEqual | MustBeUnequal

  /** `assertRelated(item, related)`: first `item.equals(related)`, then equal
      hash codes. */
  function AssertRelated<T>(u: Behaviour<T>, item: T, related: T): (r: Option<PairCheck>)
    ensures r.None? <==> Eq(u, item, related) && u.hashCode(item) == u.hashCode(related)
    ensures r == Some(MustBeEqual) <==> !Eq(u, item, related)
    ensures r.Some? ==> r.value != MustBeUnequal
  {
    if !Eq(u, item, related) then Some(MustBeEqual)
    else if u.hashCode(item) != u.hashCode(related) then Some(HashMustBeEqual)
    else None
  }

  /** `assertUnrelated(item, unrelated)`: `Objects.equal(item, unrelated)` must
      be false; hash codes are not looked at. */
  function AssertUnrelated<T(==)>(u: Behaviour<T>, item: T, unrelated: T): (r: Option<PairCheck>)
    ensures r.None? <==> item != unrelated && !Eq(u, item, unrelated)
    ensures r.Some? ==> r.value == MustBeUnequal
  {
    if ObjectsEqual(u, item, unrelated) then Some(MustBeUnequal) else None
  }

  /** Item `i` of group `g` against item `j` of group `h`: related when the
      groups are the same, unrelated otherwise. */
  function PairVerdict<T(==)>(u: Behaviour<T>, groups: seq<seq<T>>, g: nat, i: nat, h: nat, j: nat): Option<PairCheck>
    requires g < |groups| && i < |groups[g]| && h < |groups| && j < |groups[h]|
  {
    if g == h then AssertRelated(u, groups[g][i], groups[h][j])
    else AssertUnrelated(u, groups[g][i], groups[h][j])
  }

  predicate PairPasses<T(==)>(u: Behaviour<T>, groups: seq<seq<T>>, g: nat, i: nat, h: nat, j: nat)
    requires g < |groups| && i < |groups[g]| && h < |groups| && j < |groups[h]|
  {
    PairVerdict(u, groups, g, i, h, j).None?
  }

  /** Item `i` of group `g` passes against every item of group `h`. */
  predicate AgainstGroupPasses<T(==)>(u: Behaviour<T>, groups: seq<seq<T>>, g: nat, i: nat, h: nat)
    requires g < |groups| && i < |groups[g]| && h < |groups|
  {
    forall j :: 0 <= j < |groups[h]| ==> PairPasses(u, groups, g, i, h, j)
  }

  /** Item `i` of group `g` passes against every registered item. */
  predicate ItemPairsPass<T(==)>(u: Behaviour<T>, groups: seq<seq<T>>, g: nat, i: nat)
    requires g < |groups| && i < |groups[g]|
  {
    forall h :: 0 <= h < |groups| ==> AgainstGroupPasses(u, groups, g, i, h)
  }

  /** Every item of group `g` passes against every registered item. */
  predicate GroupPairsPass<T(==)>(u: Behaviour<T>, groups: seq<seq<T>>, g: nat)
    requires g < |groups|
  {
    forall i :: 0 <= i < |groups[g]| ==> ItemPairsPass(u, groups, g, i)
  }

  /** Every ordered pair of registered items passes its assertion. Pairs of an
      item with itself are included; the item checks make them redundant. */
  predicate RelationshipsHold<T(==)>(u: Behaviour<T>, groups: seq<seq<T>>) {
    forall g :: 0 <= g < |groups| ==> GroupPairsPass(u, groups, g)
  }

  /** The verdict of `testEquals`: every visited item passes its checks and
      every pair of registered items passes its assertion. */
  predicate Passes<T(==)>(t: Tester<T>, u: Behaviour<T>) {
    AllItemsPass(u, Items(t)) && RelationshipsHold(u, Registered(t))
  }

  // ---------------------------------------------------------------------------
  // Failures and the checking procedures
  // ---------------------------------------------------------------------------

  /** The assertion failure `testEquals` stops at. Positions are 0-based here;
      the messages number groups and items from 1. */
  datatype TestFailure<T> =
    | ItemFailed(position: nat, item: T, itemCheck: ItemCheck)
    | PairFailed(group: nat, index: nat, otherGroup: nat, otherIndex: nat, pairCheck: PairCheck)

  /** `f` is the failure of the first item of the traversal that fails a check. */
  predicate IsFirstItemFailure<T(==)>(u: Behaviour<T>, items: seq<T>, f: TestFailure<T>) {
    && f.ItemFailed?
    && f.position < |items|
    && f.item == items[f.position]
    && FirstItemFailure(u, f.item) == Some(f.itemCheck)
    && forall k :: 0 <= k < f.position ==> ItemPasses(u, items[k])
  }

  /** `f` names a pair of registered items that fails the assertion `f.pairCheck`. */
  predicate IsPairViolation<T(==)>(u: Behaviour<T>, groups: seq<seq<T>>, f: TestFailure<T>) {
    && f.PairFailed?
    && f.group < |groups| && f.index < |groups[f.group]|
    && f.otherGroup < |groups| && f.otherIndex < |groups[f.otherGroup]|
    && PairVerdict(u, groups, f.group, f.index, f.otherGroup, f.otherIndex) == Some(f.pairCheck)
  }

  /** `testItems`: runs the item checks over the traversal, stopping at the
      first failure. */
  method TestItems<T(==)>(u: Behaviour<T>, items: seq<T>) returns (r: Option<TestFailure<T>>)
    ensures r.None? <==> AllItemsPass(u, items)
    ensures r.Some? ==> IsFirstItemFailure(u, items, r.value)
  {
    var k := 0;
    while k < |items|
      invariant 0 <= k <= |items|
      invariant forall k' :: 0 <= k' < k ==> ItemPasses(u, items[k'])
    {
      var failed := FirstItemFailure(u, items[k]);
      if failed.Some? {
        return Some(ItemFailed(k, items[k], failed.value));
      }
      k := k + 1;
    }
    return None;
  }

  /** Item `i` of group `g` against every item of group `h`. */
  method CheckAgainstGroup<T(==)>(u: Behaviour<T>, groups: seq<seq<T>>, g: nat, i: nat, h: nat) returns (r: Option<TestFailure<T>>)
    requires g < |groups| && i < |groups[g]| && h < |groups|
    ensures r.None? <==> AgainstGroupPasses(u, groups, g, i, h)
    ensures r.Some? ==> IsPairViolation(u, groups, r.value)
  {
    var j := 0;
    while j < |groups[h]|
      invariant 0 <= j <= |groups[h]|
      invariant forall j' :: 0 <= j' < j ==> PairPasses(u, groups, g, i, h, j')
    {
      var failed := PairVerdict(u, groups, g, i, h, j);
      if failed.Some? {
        assert !PairPasses(u, groups, g, i, h, j);
        return Some(PairFailed(g, i, h, j, failed.value));
      }
      j := j + 1;
    }
    return None;
  }

  /** Item `i` of group `g` against every registered item. */
  method CheckItemPairs<T(==)>(u: Behaviour<T>, groups: seq<seq<T>>, g: nat, i: nat) returns (r: Option<TestFailure<T>>)
    requires g < |groups| && i < |groups[g]|
    ensures r.None? <==> ItemPairsPass(u, groups, g, i)
    ensures r.Some? ==> IsPairViolation(u, groups, r.value)
  {
    var h := 0;
    while h < |groups|
      invariant 0 <= h <= |groups|
      invariant forall h' :: 0 <= h' < h ==> AgainstGroupPasses(u, groups, g, i, h')
    {
      r := CheckAgainstGroup(u, groups, g, i, h);
      if r.Some? {
        return;
      }
      h := h + 1;
    }
    return None;
  }

  /** Every item of group `g` against every registered item. */
  method CheckGroupPairs<T(==)>(u: Behaviour<T>, groups: seq<seq<T>>, g: nat) returns (r: Option<TestFailure<T>>)
    requires g < |groups|
    ensures r.None? <==> GroupPairsPass(u, groups, g)
    ensures r.Some? ==> IsPairViolation(u, groups, r.value)
  {
    var i := 0;
    while i < |groups[g]|
      invariant 0 <= i <= |groups[g]|
      invariant forall i' :: 0 <= i' < i ==> ItemPairsPass(u, groups, g, i')
    {
      r := CheckItemPairs(u, groups, g, i);
      if r.Some? {
        return;
      }
      i := i + 1;
    }
    return None;
  }

  /** The relationship checker's `test()` over the registered groups: every
      ordered pair, stopping at a failing one. */
  method CheckRelationships<T(==)>(u: Behaviour<T>, groups: seq<seq<T>>) returns (r: Option<TestFailure<T>>)
    ensures r.None? <==> RelationshipsHold(u, groups)
    ensures r.Some? ==> IsPairViolation(u, groups, r.value)
  {
    var g := 0;
    while g < |groups|
      invariant 0 <= g <= |groups|
      invariant forall g' :: 0 <= g' < g ==> GroupPairsPass(u, groups, g')
    {
      r := CheckGroupPairs(u, groups, g);
      if r.Some? {
        return;
      }
      g := g + 1;
    }
    return None;
  }

  /** `testEquals`: registers the groups, then runs the item checks and the
      pair checks `REPETITIONS` times. It returns the same tester when every
      check passes, and otherwise the first failure it meets: a failing item
      is the first in traversal order, and a failing pair is reported only
      when every item has passed. Repeating the run does not change the
      verdict of a single run. */
  method TestEquals<T(==)>(t: Tester<T>, u: Behaviour<T>) returns (r: Result<Tester<T>, TestFailure<T>>)
    ensures r.Success? <==> Passes(t, u)
    ensures r.Success? ==> r.value == t
    ensures r.Failure? && r.error.ItemFailed? ==> IsFirstItemFailure(u, Items(t), r.error)
    ensures r.Failure? && r.error.PairFailed? ==> AllItemsPass(u, Items(t)) && IsPairViolation(u, Registered(t), r.error)
  {
    var groups := Registered(t);
    var items := Items(t);
    var run := 0;
    while run < REPETITIONS
      invariant 0 <= run <= REPETITIONS
      invariant run > 0 ==> Passes(t, u)
    {
      var failed := TestItems(u, items);
      if failed.Some? {
        return Failure(failed.value);
      }
      failed := CheckRelationships(u, groups);
      if failed.Some? {
        return Failure(failed.value);
      }
      run := run + 1;
    }
    return Success(t);
  }
}
