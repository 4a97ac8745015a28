/**
 * `groupedAddOns`: the item's add-ons grouped by `category` with a
 * `reduce` into a record. A record with string keys enumerates its
 * entries in insertion order, so it is modelled as a list of groups in
 * the order their categories were first met.
 */
module Grouping {
  import opened Wrappers
  import opened Catalog

  /** One record entry: a category and the add-ons pushed under it. */
  datatype Group = Group(category: string, addOns: seq<AddOn>)

  /** `groups[category]` lookup: the index of the group with that key, or -1. */
  function IndexOfCategory(groups: seq<Group>, c: string): (r: int)
    ensures -1 <= r < |groups|
    ensures r == -1 <==> forall k :: 0 <= k < |groups| ==> groups[k].category != c
    ensures 0 <= r ==> groups[r].category == c
  {
    if |groups| == 0 then -1
    else if groups[0].category == c then 0
    else
      var k := IndexOfCategory(groups[1..], c);
      if k == -1 then -1 else k + 1
  }

  /**
   * The reducer body: create the group when its key is missing, then push
   * the add-on onto it.
   */
  function AddToGroups(groups: seq<Group>, a: AddOn): (r: seq<Group>)
    ensures |r| == if IndexOfCategory(groups, a.category) < 0 then |groups| + 1 else |groups|
  {
    var i := IndexOfCategory(groups, a.category);
    if i < 0 then groups + [Group(a.category, [a])]
    else groups[i := groups[i].(addOns := groups[i].addOns + [a])]
  }

  /** `addOns.reduce(reducer, {})`: a left fold over the item's add-ons. */
  function GroupAddOns(addOns: seq<AddOn>): (r: seq<Group>)
    ensures |r| <= |addOns|
    ensures |addOns| > 0 ==> |r| > 0
  {
    if |addOns| == 0 then []
    else AddToGroups(GroupAddOns(addOns[..|addOns| - 1]), addOns[|addOns| - 1])
  }

  /**
   * The keys a plain object `{}` inherits from `Object.prototype`. Looking
   * one of them up in the accumulator gives a truthy inherited value, not
   * `undefined`, so no array is created for it and `push` on it throws a
   * `TypeError`.
   */
  const InheritedKeys: set<string> := {
    "constructor", "hasOwnProperty", "isPrototypeOf", "propertyIsEnumerable",
    "toLocaleString", "toString", "valueOf", "__proto__",
    "__defineGetter__", "__defineSetter__", "__lookupGetter__", "__lookupSetter__"}

  /** The `TypeError` of `push` on an inherited, non-array value. */
  datatype GroupFault = NotAnArray(category: string)

  /**
   * The reduce exactly as written, with the accumulator inheriting from
   * `Object.prototype`: it throws as soon as it meets a category that names
   * an inherited member, and otherwise agrees with `GroupAddOns`.
   */
  function GroupAddOnsAsWritten(addOns: seq<AddOn>): (r: Result<seq<Group>, GroupFault>)
    ensures r.Err? <==> exists k :: 0 <= k < |addOns| && addOns[k].category in InheritedKeys
    ensures r.Ok? ==> r.value == GroupAddOns(addOns)
  {
    if |addOns| == 0 then Ok([])
    else
      var p, x := addOns[..|addOns| - 1], addOns[|addOns| - 1];
      assert forall k :: 0 <= k < |p| ==> p[k] == addOns[k];
      match GroupAddOnsAsWritten(p)
      case Err(f) => Err(f)
      case Ok(groups) =>
        if x.category in InheritedKeys then Err(NotAnArray(x.category))
        else Ok(AddToGroups(groups, x))
  }

  /**
   * One add-on whose category is "toString" makes the reduce as written
   * throw, while the grouping the card evidently intends gives it its own
   * group.
   */
  lemma InheritedCategoryThrows()
    ensures var rice := AddOn("r", "Rice", 15, "toString");
      && GroupAddOnsAsWritten([rice]) == Err(NotAnArray("toString"))
      && GroupAddOns([rice]) == [Group("toString", [rice])]
  {
    var rice := AddOn("r", "Rice", 15, "toString");
    assert [rice][..0] == [];
  }

  /** The add-ons of category `c`, in catalog order (the reference for one group). */
  function InCategory(addOns: seq<AddOn>, c: string): seq<AddOn> {
    if |addOns| == 0 then []
    else (if addOns[0].category == c then [addOns[0]] else []) + InCategory(addOns[1..], c)
  }

  /** All groups concatenated, in record order. */
  function Concat(groups: seq<Group>): seq<AddOn> {
    if |groups| == 0 then [] else groups[0].addOns + Concat(groups[1..])
  }

  /** No two groups share a key. */
  ghost predicate KeysUnique(groups: seq<Group>) {
    forall i, j :: 0 <= i < j < |groups| ==> groups[i].category != groups[j].category
  }

  /** Each group holds exactly the add-ons of its key, in catalog order. */
  ghost predicate Filtered(groups: seq<Group>, addOns: seq<AddOn>) {
    forall i :: 0 <= i < |groups| ==> groups[i].addOns == InCategory(addOns, groups[i].category)
  }

  /** No group is empty. */
  ghost predicate NonEmpty(groups: seq<Group>) {
    forall i :: 0 <= i < |groups| ==> |groups[i].addOns| > 0
  }

  /** Every add-on's category is a key. */
  ghost predicate Covered(groups: seq<Group>, addOns: seq<AddOn>) {
    forall x :: x in addOns ==> IndexOfCategory(groups, x.category) >= 0
  }

  /** The grouping invariant. */
  ghost predicate GroupsOf(groups: seq<Group>, addOns: seq<AddOn>) {
    KeysUnique(groups) && Filtered(groups, addOns) && NonEmpty(groups) && Covered(groups, addOns)
  }

  /** The filter keeps exactly the add-ons of the category. */
  lemma {:induction false} InCategoryMembers(addOns: seq<AddOn>, c: string)
    ensures forall x :: x in InCategory(addOns, c) <==> x in addOns && x.category == c
  {
    if |addOns| > 0 {
      InCategoryMembers(addOns[1..], c);
      assert addOns == [addOns[0]] + addOns[1..];
    }
  }

  lemma {:induction false} InCategorySnoc(addOns: seq<AddOn>, x: AddOn, c: string)
    ensures InCategory(addOns + [x], c) == InCategory(addOns, c) + (if x.category == c then [x] else [])
  {
    if |addOns| == 0 {
      assert addOns + [x] == [x];
      assert [x][1..] == [];
    } else {
      var head := if addOns[0].category == c then [addOns[0]] else [];
      assert (addOns + [x])[0] == addOns[0];
      assert (addOns + [x])[1..] == addOns[1..] + [x];
      InCategorySnoc(addOns[1..], x, c);
      assert InCategory(addOns + [x], c) == head + InCategory(addOns[1..] + [x], c);
    }
  }

  lemma InCategoryEmpty(addOns: seq<AddOn>, c: string)
    requires forall x :: x in addOns ==> x.category != c
    ensures InCategory(addOns, c) == []
  {
    InCategoryMembers(addOns, c);
  }

  /** One reducer step keeps the invariant for the extended prefix. */
  lemma AddToGroupsKeepsGroupsOf(groups: seq<Group>, p: seq<AddOn>, x: AddOn)
    requires GroupsOf(groups, p)
    ensures GroupsOf(AddToGroups(groups, x), p + [x])
  {
    forall c ensures InCategory(p + [x], c) == InCategory(p, c) + (if x.category == c then [x] else []) {
      InCategorySnoc(p, x, c);
    }
    if IndexOfCategory(groups, x.category) < 0 {
      NewGroupKeepsGroupsOf(groups, p, x);
    } else {
      PushKeepsGroupsOf(groups, p, x);
    }
  }

  /** Reducer step for a category met for the first time: a new last group. */
  lemma NewGroupKeepsGroupsOf(groups: seq<Group>, p: seq<AddOn>, x: AddOn)
    requires GroupsOf(groups, p) && IndexOfCategory(groups, x.category) < 0
    requires forall c :: InCategory(p + [x], c) == InCategory(p, c) + (if x.category == c then [x] else [])
    ensures GroupsOf(AddToGroups(groups, x), p + [x])
  {
    var g := Group(x.category, [x]);
    assert AddToGroups(groups, x) == groups + [g];
    NewGroupKeys(groups, g);
    forall y | y in p ensures y.category != x.category {
      assert IndexOfCategory(groups, y.category) >= 0;
    }
    InCategoryEmpty(p, x.category);
    NewGroupFiltered(groups, p, x);
    NewGroupCovered(groups, p, x);
  }

  /** Reducer step for a known category: push onto its group, in place. */
  lemma PushKeepsGroupsOf(groups: seq<Group>, p: seq<AddOn>, x: AddOn)
    requires GroupsOf(groups, p) && IndexOfCategory(groups, x.category) >= 0
    requires forall c :: InCategory(p + [x], c) == InCategory(p, c) + (if x.category == c then [x] else [])
    ensures GroupsOf(AddToGroups(groups, x), p + [x])
  {
    var i := IndexOfCategory(groups, x.category);
    var r := AddToGroups(groups, x);
    assert r == groups[i := groups[i].(addOns := groups[i].addOns + [x])];
    PushKeys(groups, i, r[i]);
    PushFiltered(groups, p, x, i);
    PushCovered(groups, p, x, i);
  }

  lemma NewGroupKeys(groups: seq<Group>, g: Group)
    requires KeysUnique(groups) && IndexOfCategory(groups, g.category) < 0
    ensures KeysUnique(groups + [g])
  {
    var r := groups + [g];
    forall i, j | 0 <= i < j < |r| ensures r[i].category != r[j].category {
      assert r[i] == groups[i];
      if j < |groups| { assert r[j] == groups[j]; }
    }
  }

  lemma NewGroupFiltered(groups: seq<Group>, p: seq<AddOn>, x: AddOn)
    requires Filtered(groups, p) && IndexOfCategory(groups, x.category) < 0
    requires InCategory(p, x.category) == []
    requires forall c :: InCategory(p + [x], c) == InCategory(p, c) + (if x.category == c then [x] else [])
    ensures Filtered(groups + [Group(x.category, [x])], p + [x])
  {
    var r := groups + [Group(x.category, [x])];
    forall i | 0 <= i < |r| ensures r[i].addOns == InCategory(p + [x], r[i].category) {
      if i < |groups| {
        assert r[i] == groups[i];
        assert groups[i].category != x.category;
      } else {
        assert InCategory(p + [x], x.category) == [] + [x];
      }
    }
  }

  lemma NewGroupCovered(groups: seq<Group>, p: seq<AddOn>, x: AddOn)
    requires Covered(groups, p)
    ensures Covered(groups + [Group(x.category, [x])], p + [x])
  {
    var r := groups + [Group(x.category, [x])];
    forall y | y in p + [x] ensures IndexOfCategory(r, y.category) >= 0 {
      if y in p {
        var k := IndexOfCategory(groups, y.category);
        assert r[k].category == y.category;
      } else {
        assert r[|groups|].category == y.category;
      }
    }
  }

  lemma PushKeys(groups: seq<Group>, i: int, g: Group)
    requires KeysUnique(groups) && 0 <= i < |groups| && g.category == groups[i].category
    ensures KeysUnique(groups[i := g])
  {
    var r := groups[i := g];
    assert forall k :: 0 <= k < |groups| ==> r[k].category == groups[k].category;
  }

  lemma PushFiltered(groups: seq<Group>, p: seq<AddOn>, x: AddOn, i: int)
    requires KeysUnique(groups) && Filtered(groups, p)
    requires 0 <= i < |groups| && groups[i].category == x.category
    requires forall c :: InCategory(p + [x], c) == InCategory(p, c) + (if x.category == c then [x] else [])
    ensures Filtered(groups[i := groups[i].(addOns := groups[i].addOns + [x])], p + [x])
  {
    var r := groups[i := groups[i].(addOns := groups[i].addOns + [x])];
    forall k | 0 <= k < |r| ensures r[k].addOns == InCategory(p + [x], r[k].category) {
      if k != i {
        assert r[k] == groups[k];
        assert groups[k].category != x.category;
        assert InCategory(p + [x], r[k].category) == InCategory(p, r[k].category) + [];
      }
    }
  }

  lemma PushCovered(groups: seq<Group>, p: seq<AddOn>, x: AddOn, i: int)
    requires Covered(groups, p) && 0 <= i < |groups| && groups[i].category == x.category
    ensures Covered(groups[i := groups[i].(addOns := groups[i].addOns + [x])], p + [x])
  {
    var r := groups[i := groups[i].(addOns := groups[i].addOns + [x])];
    assert forall k :: 0 <= k < |groups| ==> r[k].category == groups[k].category;
    forall y | y in p + [x] ensures IndexOfCategory(r, y.category) >= 0 {
      if y in p {
        var k := IndexOfCategory(groups, y.category);
        assert r[k].category == y.category;
      } else {
        assert r[i].category == y.category;
      }
    }
  }

  lemma {:induction false} GroupAddOnsIsGroupsOf(addOns: seq<AddOn>)
    ensures GroupsOf(GroupAddOns(addOns), addOns)
  {
    if |addOns| > 0 {
      var p, x := addOns[..|addOns| - 1], addOns[|addOns| - 1];
      assert p + [x] == addOns;
      assert GroupAddOns(addOns) == AddToGroups(GroupAddOns(p), x);
      GroupAddOnsIsGroupsOf(p);
      AddToGroupsKeepsGroupsOf(GroupAddOns(p), p, x);
    }
  }

  /**
   * Every add-on lands in exactly the group keyed by its category, keys are
   * unique, no group is empty, and within a group the catalog order is kept.
   */
  lemma GroupAddOnsPartition(addOns: seq<AddOn>)
    ensures forall i, j :: 0 <= i < j < |GroupAddOns(addOns)| ==>
              GroupAddOns(addOns)[i].category != GroupAddOns(addOns)[j].category
    ensures forall i :: 0 <= i < |GroupAddOns(addOns)| ==>
              GroupAddOns(addOns)[i].addOns == InCategory(addOns, GroupAddOns(addOns)[i].category)
    ensures forall i :: 0 <= i < |GroupAddOns(addOns)| ==> |GroupAddOns(addOns)[i].addOns| > 0
    ensures forall x :: x in addOns ==>
              var k := IndexOfCategory(GroupAddOns(addOns), x.category);
              0 <= k && x in GroupAddOns(addOns)[k].addOns
  {
    GroupAddOnsIsGroupsOf(addOns);
    var groups := GroupAddOns(addOns);
    forall x | x in addOns
      ensures var k := IndexOfCategory(groups, x.category); 0 <= k && x in groups[k].addOns
    {
      var k := IndexOfCategory(groups, x.category);
      InCategoryMembers(addOns, x.category);
    }
  }

  // ---------------------------------------------------------------------
  // The concatenation of all groups is a permutation of the add-ons.
  // ---------------------------------------------------------------------

  lemma {:induction false} ConcatSnoc(groups: seq<Group>, g: Group)
    ensures Concat(groups + [g]) == Concat(groups) + g.addOns
  {
    if |groups| == 0 {
      assert groups + [g] == [g];
      assert [g][1..] == [];
    } else {
      assert (groups + [g])[0] == groups[0];
      assert (groups + [g])[1..] == groups[1..] + [g];
      ConcatSnoc(groups[1..], g);
    }
  }

  lemma {:induction false} ConcatUpdate(groups: seq<Group>, i: int, g: Group)
    requires 0 <= i < |groups|
    ensures multiset(Concat(groups[i := g])) + multiset(groups[i].addOns) ==
              multiset(Concat(groups)) + multiset(g.addOns)
  {
    var r := groups[i := g];
    assert Concat(r) == r[0].addOns + Concat(r[1..]);
    assert Concat(groups) == groups[0].addOns + Concat(groups[1..]);
    if i == 0 {
      assert r[1..] == groups[1..];
    } else {
      assert r[1..] == groups[1..][i - 1 := g];
      assert groups[1..][i - 1] == groups[i];
      assert r[0] == groups[0];
      var head, rest, rest' := groups[0].addOns, Concat(groups[1..]), Concat(r[1..]);
      calc {
        multiset(Concat(r)) + multiset(groups[i].addOns);
        multiset(head) + multiset(rest') + multiset(groups[i].addOns);
        multiset(head) + (multiset(rest') + multiset(groups[1..][i - 1].addOns));
        { ConcatUpdate(groups[1..], i - 1, g); }
        multiset(head) + (multiset(rest) + multiset(g.addOns));
        multiset(Concat(groups)) + multiset(g.addOns);
      }
    }
  }

  /** One reducer step adds exactly the pushed add-on to the concatenation. */
  lemma AddToGroupsMultiset(groups: seq<Group>, x: AddOn)
    ensures multiset(Concat(AddToGroups(groups, x))) == multiset(Concat(groups)) + multiset{x}
  {
    var i := IndexOfCategory(groups, x.category);
    if i < 0 {
      ConcatSnoc(groups, Group(x.category, [x]));
    } else {
      var g := groups[i].(addOns := groups[i].addOns + [x]);
      var after, before, gi := multiset(Concat(groups[i := g])), multiset(Concat(groups)), multiset(groups[i].addOns);
      ConcatUpdate(groups, i, g);
      assert multiset(g.addOns) == gi + multiset{x};
      assert after + gi == before + gi + multiset{x};
      assert forall y :: after[y] == (before + multiset{x})[y] by {
        forall y ensures after[y] == (before + multiset{x})[y] {
          assert (after + gi)[y] == (before + gi + multiset{x})[y];
        }
      }
      assert after == before + multiset{x};
    }
  }

  /** The concatenation of all groups is a permutation of the item's add-ons. */
  lemma {:induction false} GroupAddOnsPermutation(addOns: seq<AddOn>)
    ensures multiset(Concat(GroupAddOns(addOns))) == multiset(addOns)
  {
    if |addOns| > 0 {
      var p, x := addOns[..|addOns| - 1], addOns[|addOns| - 1];
      assert GroupAddOns(addOns) == AddToGroups(GroupAddOns(p), x);
      GroupAddOnsPermutation(p);
      AddToGroupsMultiset(GroupAddOns(p), x);
      assert multiset(addOns) == multiset(p) + multiset{x} by {
        assert p + [x] == addOns;
      }
    }
  }
}
