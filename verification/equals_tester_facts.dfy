/** Properties of the `EqualsTester` model: how registration shapes what is
    traversed, what a passing verdict certifies about `equals` and
    `hashCode`, when a lawful class passes, and how adding groups changes the
    verdict. */
module EqualsTesterFacts {
  import opened Wrappers
  import opened EqualsTester

  // ---------------------------------------------------------------------------
  // Traversal order
  // ---------------------------------------------------------------------------

  /** Concatenating a group in front puts its items first. */
  lemma {:induction false} ConcatPrepend<T>(group: seq<T>, groups: seq<seq<T>>)
    ensures Concat([group] + groups) == group + Concat(groups)
    decreases |groups|
  {
    if |groups| == 0 {
      assert [group] + groups == [group];
      assert [group][..0] == [];
    } else {
      var n := |groups|;
      var init := groups[..n - 1];
      assert ([group] + groups)[..n] == [group] + init;
      assert ([group] + groups)[n] == groups[n - 1];
      ConcatPrepend(group, init);
    }
  }

  /** `testItems` visits exactly the items of the registered groups, in
      registration order: the default group's only when it is non-empty
      (an empty one has none to visit), then every added group's. */
  lemma ItemsAreRegisteredItems<T>(t: Tester<T>)
    ensures Items(t) == Concat(Registered(t))
  {
    if |t.defaultEqualObjects| > 0 {
      ConcatPrepend(t.defaultEqualObjects, t.equalityGroups);
    } else {
      assert t.defaultEqualObjects == [];
    }
  }

  /** Adding a group appends it to the registered groups, and appends its
      items, and nothing else, to the traversal. */
  lemma AddedGroupComesLast<T>(t: Tester<T>, group: seq<T>)
    ensures Registered(AddEqualityGroup(t, Some(group)).value) == Registered(t) + [group]
    ensures Items(AddEqualityGroup(t, Some(group)).value) == Items(t) + group
  {
  }

  // ---------------------------------------------------------------------------
  // Reading the nested verdict
  // ---------------------------------------------------------------------------

  /** Every pair of registered items, spelled out. */
  ghost predicate AllPairsPass<T>(u: Behaviour<T>, groups: seq<seq<T>>) {
    forall g, i, h, j :: 0 <= g < |groups| && 0 <= i < |groups[g]| && 0 <= h < |groups| && 0 <= j < |groups[h]| ==>
      PairPasses(u, groups, g, i, h, j)
  }

  /** The relationship verdict is the verdict on every ordered pair. */
  lemma RelationshipsHoldIff<T>(u: Behaviour<T>, groups: seq<seq<T>>)
    ensures RelationshipsHold(u, groups) <==> AllPairsPass(u, groups)
  {
    if RelationshipsHold(u, groups) {
      forall g, i, h, j | 0 <= g < |groups| && 0 <= i < |groups[g]| && 0 <= h < |groups| && 0 <= j < |groups[h]|
        ensures PairPasses(u, groups, g, i, h, j)
      {
        assert GroupPairsPass(u, groups, g);
        assert ItemPairsPass(u, groups, g, i);
        assert AgainstGroupPasses(u, groups, g, i, h);
      }
    }
    if AllPairsPass(u, groups) {
      forall g | 0 <= g < |groups|
        ensures GroupPairsPass(u, groups, g)
      {
        forall i | 0 <= i < |groups[g]|
          ensures ItemPairsPass(u, groups, g, i)
        {
          forall h | 0 <= h < |groups|
            ensures AgainstGroupPasses(u, groups, g, i, h)
          {
          }
        }
      }
    }
  }

  /** Every value the concatenation holds comes from a position in one of
      the groups, and every such position contributes its value. */
  lemma {:induction false} ConcatMembers<T>(groups: seq<seq<T>>)
    ensures forall g, i :: 0 <= g < |groups| && 0 <= i < |groups[g]| ==> groups[g][i] in Concat(groups)
    ensures forall x :: x in Concat(groups) ==> exists g :: 0 <= g < |groups| && x in groups[g]
    decreases |groups|
  {
    if |groups| > 0 {
      var init := groups[..|groups| - 1];
      ConcatMembers(init);
      assert forall g :: 0 <= g < |init| ==> groups[g] == init[g];
    }
  }

  /** Position of a traversed item among the groups. */
  lemma Locate<T>(groups: seq<seq<T>>, x: T) returns (g: nat, i: nat)
    requires x in Concat(groups)
    ensures g < |groups| && i < |groups[g]| && groups[g][i] == x
  {
    ConcatMembers(groups);
    var g' :| 0 <= g' < |groups| && x in groups[g'];
    var i' :| 0 <= i' < |groups[g']| && groups[g'][i'] == x;
    g, i := g', i';
  }

  /** When the relationships hold, two registered items are equal exactly
      when they were registered in the same group; equal ones hash alike. */
  lemma EqualIffSameGroup<T>(u: Behaviour<T>, groups: seq<seq<T>>, g: nat, i: nat, h: nat, j: nat)
    requires RelationshipsHold(u, groups)
    requires g < |groups| && i < |groups[g]| && h < |groups| && j < |groups[h]|
    ensures Eq(u, groups[g][i], groups[h][j]) <==> g == h
    ensures g == h ==> u.hashCode(groups[g][i]) == u.hashCode(groups[h][j])
    ensures g != h ==> groups[g][i] != groups[h][j]
  {
    RelationshipsHoldIff(u, groups);
    assert PairPasses(u, groups, g, i, h, j);
  }

  // ---------------------------------------------------------------------------
  // What a passing verdict certifies
  // ---------------------------------------------------------------------------

  /** A passing tester certifies that, on the exhibited values, `equals` is
      an equivalence relation that never holds against null or the sentinel,
      and that equal values have equal hash codes. */
  lemma PassingCertifiesEquivalence<T>(t: Tester<T>, u: Behaviour<T>)
    requires Passes(t, u)
    ensures forall x :: x in Items(t) ==> !u.equals(x, Null) && !u.equals(x, EqualToNothing) && Eq(u, x, x)
    ensures forall x, y :: x in Items(t) && y in Items(t) && Eq(u, x, y) ==> Eq(u, y, x) && u.hashCode(x) == u.hashCode(y)
    ensures forall x, y, z :: x in Items(t) && y in Items(t) && z in Items(t) && Eq(u, x, y) && Eq(u, y, z) ==> Eq(u, x, z)
  {
    var groups := Registered(t);
    ItemsAreRegisteredItems(t);
    forall x | x in Items(t)
      ensures !u.equals(x, Null) && !u.equals(x, EqualToNothing) && Eq(u, x, x)
    {
      var k :| 0 <= k < |Items(t)| && Items(t)[k] == x;
      assert ItemPasses(u, x);
      assert ItemHolds(u, x, UnequalToNull) && ItemHolds(u, x, UnequalToSentinel) && ItemHolds(u, x, EqualToItself);
    }
    forall x, y | x in Items(t) && y in Items(t) && Eq(u, x, y)
      ensures Eq(u, y, x) && u.hashCode(x) == u.hashCode(y)
    {
      var g, i := Locate(groups, x);
      var h, j := Locate(groups, y);
      EqualIffSameGroup(u, groups, g, i, h, j);
      EqualIffSameGroup(u, groups, h, j, g, i);
    }
    forall x, y, z | x in Items(t) && y in Items(t) && z in Items(t) && Eq(u, x, y) && Eq(u, y, z)
      ensures Eq(u, x, z)
    {
      var g, i := Locate(groups, x);
      var h, j := Locate(groups, y);
      var k, l := Locate(groups, z);
      EqualIffSameGroup(u, groups, g, i, h, j);
      EqualIffSameGroup(u, groups, h, j, k, l);
      EqualIffSameGroup(u, groups, g, i, k, l);
    }
  }

  // ---------------------------------------------------------------------------
  // Which lawful classes pass
  // ---------------------------------------------------------------------------

  /** A class that keeps the contract of `equals` and `hashCode`. */
  ghost predicate Lawful<T(!new)>(u: Behaviour<T>) {
    && (forall x :: !u.equals(x, Null) && !u.equals(x, EqualToNothing))
    && (forall x :: Eq(u, x, x))
    && (forall x, y :: Eq(u, x, y) ==> Eq(u, y, x))
    && (forall x, y, z :: Eq(u, x, y) && Eq(u, y, z) ==> Eq(u, x, z))
    && (forall x, y :: Eq(u, x, y) ==> u.hashCode(x) == u.hashCode(y))
  }

  /** The groups partition their values the way `equals` does: every item
      equals the first item of its group, and the first items of two
      different groups are unequal. */
  ghost predicate GroupsMatch<T>(u: Behaviour<T>, groups: seq<seq<T>>) {
    && (forall g, i :: 0 <= g < |groups| && 0 <= i < |groups[g]| ==> Eq(u, groups[g][i], groups[g][0]))
    && (forall g, h :: 0 <= g < |groups| && 0 <= h < |groups| && g != h && |groups[g]| > 0 && |groups[h]| > 0 ==>
          !Eq(u, groups[g][0], groups[h][0]))
  }

  /** For a lawful class the verdict is exactly whether the registered
      groups partition the values the way `equals` does. */
  lemma LawfulVerdict<T(!new)>(t: Tester<T>, u: Behaviour<T>)
    requires Lawful(u)
    ensures Passes(t, u) <==> GroupsMatch(u, Registered(t))
  {
    var groups := Registered(t);
    if Passes(t, u) {
      forall g, i | 0 <= g < |groups| && 0 <= i < |groups[g]|
        ensures Eq(u, groups[g][i], groups[g][0])
      {
        EqualIffSameGroup(u, groups, g, i, g, 0);
      }
      forall g, h | 0 <= g < |groups| && 0 <= h < |groups| && g != h && |groups[g]| > 0 && |groups[h]| > 0
        ensures !Eq(u, groups[g][0], groups[h][0])
      {
        EqualIffSameGroup(u, groups, g, 0, h, 0);
      }
    }
    if GroupsMatch(u, groups) {
      forall x | x in Items(t)
        ensures ItemPasses(u, x)
      {
        forall c
          ensures ItemHolds(u, x, c)
        {
        }
      }
      forall g, i, h, j | 0 <= g < |groups| && 0 <= i < |groups[g]| && 0 <= h < |groups| && 0 <= j < |groups[h]|
        ensures PairPasses(u, groups, g, i, h, j)
      {
        var a, b := groups[g][i], groups[h][j];
        if g == h {
          assert Eq(u, a, groups[g][0]) && Eq(u, groups[g][0], b);
        } else {
          assert Eq(u, groups[g][0], a) && Eq(u, b, groups[h][0]);
          assert !Eq(u, a, b);
        }
      }
      RelationshipsHoldIff(u, groups);
    }
  }

  // ---------------------------------------------------------------------------
  // Adding groups
  // ---------------------------------------------------------------------------

  /** Pairs among the first groups do not depend on a group added after them. */
  lemma PrefixPairs<T>(u: Behaviour<T>, groups: seq<seq<T>>, group: seq<T>, g: nat, i: nat, h: nat, j: nat)
    requires g < |groups| && i < |groups[g]| && h < |groups| && j < |groups[h]|
    ensures PairPasses(u, groups + [group], g, i, h, j) <==> PairPasses(u, groups, g, i, h, j)
  {
  }

  /** A tester that passes still passes with its last group removed: adding
      a group can only add obligations. */
  lemma AddingGroupOnlyTightens<T>(t: Tester<T>, group: seq<T>, u: Behaviour<T>)
    ensures Passes(AddEqualityGroup(t, Some(group)).value, u) ==> Passes(t, u)
  {
    var t' := AddEqualityGroup(t, Some(group)).value;
    AddedGroupComesLast(t, group);
    var groups := Registered(t);
    if Passes(t', u) {
      assert forall k :: 0 <= k < |Items(t)| ==> Items(t)[k] == Items(t')[k];
      RelationshipsHoldIff(u, groups + [group]);
      forall g, i, h, j | 0 <= g < |groups| && 0 <= i < |groups[g]| && 0 <= h < |groups| && 0 <= j < |groups[h]|
        ensures PairPasses(u, groups, g, i, h, j)
      {
        PrefixPairs(u, groups, group, g, i, h, j);
      }
      RelationshipsHoldIff(u, groups);
    }
  }

  /** Adding an empty group leaves the verdict as it was. */
  lemma EmptyGroupIsInert<T>(t: Tester<T>, u: Behaviour<T>)
    ensures Passes(AddEqualityGroup(t, Some([])).value, u) <==> Passes(t, u)
  {
    var t' := AddEqualityGroup(t, Some([])).value;
    AddedGroupComesLast(t, []);
    AddingGroupOnlyTightens(t, [], u);
    var groups := Registered(t);
    var groups' := Registered(t');
    assert Items(t') == Items(t);
    if Passes(t, u) {
      RelationshipsHoldIff(u, groups);
      forall g, i, h, j | 0 <= g < |groups'| && 0 <= i < |groups'[g]| && 0 <= h < |groups'| && 0 <= j < |groups'[h]|
        ensures PairPasses(u, groups', g, i, h, j)
      {
        assert g < |groups| && h < |groups|;
        PrefixPairs(u, groups, [], g, i, h, j);
      }
      RelationshipsHoldIff(u, groups');
    }
  }

  // ---------------------------------------------------------------------------
  // Redundant parts of the pair assertions
  // ---------------------------------------------------------------------------

  /** Every ordered pair of two different registered positions passes. */
  ghost predicate DistinctPairsPass<T>(u: Behaviour<T>, groups: seq<seq<T>>) {
    forall g, i, h, j :: 0 <= g < |groups| && 0 <= i < |groups[g]| && 0 <= h < |groups| && 0 <= j < |groups[h]| && (g != h || i != j) ==>
      PairPasses(u, groups, g, i, h, j)
  }

  /** The verdict is the same whether or not the relationship checker pairs
      an item with itself: the item checks already demand reflexivity. */
  lemma SelfPairsRedundant<T>(t: Tester<T>, u: Behaviour<T>)
    ensures Passes(t, u) <==> AllItemsPass(u, Items(t)) && DistinctPairsPass(u, Registered(t))
  {
    var groups := Registered(t);
    RelationshipsHoldIff(u, groups);
    ItemsAreRegisteredItems(t);
    if AllItemsPass(u, Items(t)) && DistinctPairsPass(u, groups) {
      forall g, i | 0 <= g < |groups| && 0 <= i < |groups[g]|
        ensures PairPasses(u, groups, g, i, g, i)
      {
        var x := groups[g][i];
        ConcatMembers(groups);
        var k :| 0 <= k < |Items(t)| && Items(t)[k] == x;
        assert ItemHolds(u, x, EqualToItself);
      }
    }
  }

  /** For an item that passes its checks, the identity shortcut of
      `Objects.equal` in `assertUnrelated` adds nothing: the assertion passes
      exactly when `equals` is false. */
  lemma UnrelatedIdentityRedundant<T>(u: Behaviour<T>, item: T, unrelated: T)
    requires ItemPasses(u, item)
    ensures AssertUnrelated(u, item, unrelated).None? <==> !Eq(u, item, unrelated)
  {
    assert ItemHolds(u, item, EqualToItself);
  }

  // ---------------------------------------------------------------------------
  // Scenarios with string values
  // ---------------------------------------------------------------------------

  /** `String.equals`, whatever hash code stands beside it. */
  function StringBehaviour(hashCode: string -> int): Behaviour<string> {
    Behaviour((x: string, o: Obj<string>) => o.Instance? && o.value == x, hashCode)
  }

  /** `String.equals` keeps the contract with every hash code: equal strings
      are the same value, so any function of them hashes them alike. */
  lemma StringEqualsIsLawful(hashCode: string -> int)
    ensures Lawful(StringBehaviour(hashCode))
  {
  }

  /** The class-comment example: `"hello"` twice, then `"world"` twice,
      passes for any deterministic hash code, colliding ones included. */
  lemma HelloWorldPasses(hashCode: string -> int)
    ensures Passes(AddAll(NewTester(), [["hello", "h" + "ello"], ["world", "wor" + "ld"]]), StringBehaviour(hashCode))
  {
    var u := StringBehaviour(hashCode);
    var t := AddAll(NewTester(), [["hello", "h" + "ello"], ["world", "wor" + "ld"]]);
    StringEqualsIsLawful(hashCode);
    assert "h" + "ello" == "hello" && "wor" + "ld" == "world";
    var groups := Registered(t);
    assert groups == [["hello", "hello"], ["world", "world"]];
    assert "hello" != "world" by { assert "hello"[0] != "world"[0]; }
    LawfulVerdict(t, u);
  }

  /** The same value in two groups fails, whatever the hash code. */
  lemma HelloTwiceFails(hashCode: string -> int)
    ensures !Passes(AddAll(NewTester(), [["hello"], ["world", "hello"]]), StringBehaviour(hashCode))
  {
    var u := StringBehaviour(hashCode);
    var t := AddAll(NewTester(), [["hello"], ["world", "hello"]]);
    var groups := Registered(t);
    assert groups == [["hello"], ["world", "hello"]];
    assert !PairPasses(u, groups, 0, 0, 1, 1);
    RelationshipsHoldIff(u, groups);
  }
}
