/**
 * The card's `selectedAddOns` state: an ordered list of add-ons, each with
 * the quantity the customer chose, and the one operation that changes it,
 * `updateAddOnQuantity`.
 */
module Selection {
  import opened Wrappers
  import opened Catalog

  /** One list entry: the add-on's own fields together with its quantity. */
  datatype Chosen = Chosen(addOn: AddOn, quantity: int)

  /** The ids present in a selection list. */
  function Ids(sel: seq<Chosen>): set<string> {
    set k | 0 <= k < |sel| :: sel[k].addOn.id
  }

  /** No id occurs twice in the list. */
  predicate UniqueIds(sel: seq<Chosen>) {
    forall i, j :: 0 <= i < j < |sel| ==> sel[i].addOn.id != sel[j].addOn.id
  }

  /** `findIndex(a => a.id === id)`: the first index holding `id`, or -1. */
  function IndexOfId(sel: seq<Chosen>, id: string): (r: int)
    ensures -1 <= r < |sel|
    ensures r == -1 <==> id !in Ids(sel)
    ensures 0 <= r ==> sel[r].addOn.id == id
    ensures 0 <= r ==> forall k :: 0 <= k < r ==> sel[k].addOn.id != id
  {
    if |sel| == 0 then -1
    else if sel[0].addOn.id == id then 0
    else
      var k := IndexOfId(sel[1..], id);
      assert Ids(sel) == {sel[0].addOn.id} + Ids(sel[1..]) by { IdsCons(sel); }
      if k == -1 then -1 else k + 1
  }

  /** `find(a => a.id === id)`: the first entry holding `id`, if any. */
  function Find(sel: seq<Chosen>, id: string): (r: Option<Chosen>)
    ensures r.None? <==> id !in Ids(sel)
    ensures r.Some? ==> r.value in sel && r.value.addOn.id == id
    ensures r.Some? ==>
              exists i :: 0 <= i < |sel| && sel[i] == r.value &&
                forall k :: 0 <= k < i ==> sel[k].addOn.id != id
  {
    var i := IndexOfId(sel, id);
    if i < 0 then None else Some(sel[i])
  }

  /** The selected quantity of `id`; 0 stands for "not selected". */
  function QuantityOf(sel: seq<Chosen>, id: string): int {
    match Find(sel, id)
    case None => 0
    case Some(c) => c.quantity
  }

  /** `prev.filter(a => a.id !== id)`. */
  function Without(sel: seq<Chosen>, id: string): (r: seq<Chosen>)
    ensures Ids(r) == Ids(sel) - {id}
    ensures forall c :: c in r <==> c in sel && c.addOn.id != id
    ensures |r| <= |sel|
    ensures UniqueIds(sel) ==> UniqueIds(r)
  {
    if |sel| == 0 then []
    else
      var rest := Without(sel[1..], id);
      IdsCons(sel);
      UniqueIdsCons(sel);
      if sel[0].addOn.id == id then rest
      else
        var r := [sel[0]] + rest;
        assert r[1..] == rest;
        IdsCons(r);
        UniqueIdsCons(r);
        r
  }

  /**
   * `updateAddOnQuantity(addOn, quantity)`: quantity 0 removes every entry
   * with the add-on's id; otherwise the first entry with that id gets the
   * new quantity in place, or a new entry is appended. Negative quantities
   * are stored as given: the code does not clamp them.
   */
  function UpdateAddOnQuantity(sel: seq<Chosen>, a: AddOn, q: int): (r: seq<Chosen>)
    ensures q == 0 ==> Find(r, a.id).None?
    ensures q != 0 ==> Find(r, a.id).Some? && Find(r, a.id).value.quantity == q
    ensures q != 0 && Find(sel, a.id).Some? ==>
              Find(r, a.id).value.addOn == Find(sel, a.id).value.addOn
    ensures q != 0 && Find(sel, a.id).None? ==> Find(r, a.id) == Some(Chosen(a, q))
    ensures forall id :: id != a.id ==> Find(r, id) == Find(sel, id)
    ensures Ids(r) == if q == 0 then Ids(sel) - {a.id} else Ids(sel) + {a.id}
    ensures UniqueIds(sel) ==> UniqueIds(r)
  {
    var i := IndexOfId(sel, a.id);
    if q == 0 then
      var r := Without(sel, a.id);
      forall id | id != a.id ensures Find(r, id) == Find(sel, id) {
        FindWithout(sel, a.id, id);
      }
      r
    else if i >= 0 then
      var r := sel[i := sel[i].(quantity := q)];
      SameIdsSameIndex(sel, r);
      r
    else
      var r := sel + [Chosen(a, q)];
      AppendIds(sel, Chosen(a, q));
      AppendUnique(sel, Chosen(a, q));
      forall id ensures IndexOfId(r, id) == if id == a.id then |sel| else IndexOfId(sel, id) {
        AppendIndex(sel, Chosen(a, q), id);
      }
      r
  }

  // ---------------------------------------------------------------------
  // Positional facts: what the update does to the list itself.
  // ---------------------------------------------------------------------

  /** With unique ids, removal deletes exactly the one slot holding the id. */
  lemma {:induction false} RemoveDeletesSlot(sel: seq<Chosen>, a: AddOn, i: int)
    requires UniqueIds(sel) && 0 <= i < |sel| && sel[i].addOn.id == a.id
    ensures UpdateAddOnQuantity(sel, a, 0) == sel[..i] + sel[i + 1..]
  {
    WithoutDeletesSlot(sel, i);
  }

  /**
   * Removal is a filter on any list, unique ids or not: it works entry by
   * entry, drops exactly the entries with the id and keeps the others in
   * their original order.
   */
  lemma {:induction false} RemoveFilters(s: seq<Chosen>, t: seq<Chosen>, a: AddOn)
    ensures UpdateAddOnQuantity(s + t, a, 0) ==
              UpdateAddOnQuantity(s, a, 0) + UpdateAddOnQuantity(t, a, 0)
    ensures forall c :: UpdateAddOnQuantity([c], a, 0) == if c.addOn.id == a.id then [] else [c]
  {
    WithoutConcat(s, t, a.id);
    forall c ensures Without([c], a.id) == if c.addOn.id == a.id then [] else [c] {
      assert [c][1..] == [];
    }
  }

  /** Removing an id that is not present leaves the list as it was. */
  lemma RemoveAbsentIsIdentity(sel: seq<Chosen>, a: AddOn)
    requires a.id !in Ids(sel)
    ensures UpdateAddOnQuantity(sel, a, 0) == sel
  {
    WithoutAbsent(sel, a.id);
  }

  /**
   * A non-zero update of a present id keeps the length and every position,
   * and changes only the quantity of the first entry with that id (the
   * stored add-on fields stay). This holds on every list, unique ids or not.
   */
  lemma UpdatePresentInPlace(sel: seq<Chosen>, a: AddOn, q: int, i: int)
    requires 0 <= i < |sel| && i == IndexOfId(sel, a.id) && q != 0
    ensures UpdateAddOnQuantity(sel, a, q) == sel[i := Chosen(sel[i].addOn, q)]
  {
  }

  /** A non-zero update of an absent id appends `{...addOn, quantity}` at the end. */
  lemma UpdateAbsentAppends(sel: seq<Chosen>, a: AddOn, q: int)
    requires a.id !in Ids(sel) && q != 0
    ensures UpdateAddOnQuantity(sel, a, q) == sel + [Chosen(a, q)]
  {
  }

  // ---------------------------------------------------------------------
  // Helpers
  // ---------------------------------------------------------------------

  lemma IdsCons(sel: seq<Chosen>)
    requires |sel| > 0
    ensures Ids(sel) == {sel[0].addOn.id} + Ids(sel[1..])
  {
    var rest := sel[1..];
    forall id | id in Ids(sel) ensures id in {sel[0].addOn.id} + Ids(rest) {
      var k :| 0 <= k < |sel| && sel[k].addOn.id == id;
      if k > 0 { assert rest[k - 1] == sel[k]; }
    }
    forall id | id in Ids(rest) ensures id in Ids(sel) {
      var k :| 0 <= k < |rest| && rest[k].addOn.id == id;
      assert sel[k + 1] == rest[k];
    }
  }

  /** With unique ids, the first slot holding an entry's id is that entry's own. */
  lemma UniqueIndex(sel: seq<Chosen>, i: int)
    requires UniqueIds(sel) && 0 <= i < |sel|
    ensures IndexOfId(sel, sel[i].addOn.id) == i
  {
  }

  lemma UniqueIdsCons(sel: seq<Chosen>)
    requires |sel| > 0
    ensures UniqueIds(sel) <==> sel[0].addOn.id !in Ids(sel[1..]) && UniqueIds(sel[1..])
  {
    var rest := sel[1..];
    if UniqueIds(sel) {
      forall i, j | 0 <= i < j < |rest| ensures rest[i].addOn.id != rest[j].addOn.id {
        assert rest[i] == sel[i + 1] && rest[j] == sel[j + 1];
      }
    }
    if sel[0].addOn.id !in Ids(rest) && UniqueIds(rest) {
      forall i, j | 0 <= i < j < |sel| ensures sel[i].addOn.id != sel[j].addOn.id {
        assert sel[j] == rest[j - 1];
        if i > 0 { assert sel[i] == rest[i - 1]; }
        else { assert sel[j].addOn.id in Ids(rest); }
      }
    }
  }

  /** Lists with the same ids at the same positions agree on every `IndexOfId`. */
  lemma SameIdsSameIndex(s: seq<Chosen>, t: seq<Chosen>)
    requires |s| == |t|
    requires forall k :: 0 <= k < |s| ==> s[k].addOn.id == t[k].addOn.id
    ensures Ids(s) == Ids(t)
    ensures forall id :: IndexOfId(s, id) == IndexOfId(t, id)
    ensures UniqueIds(s) ==> UniqueIds(t)
  {
    assert Ids(s) == Ids(t);
    forall id ensures IndexOfId(s, id) == IndexOfId(t, id) {
      var i := IndexOfId(s, id);
      if 0 <= i { assert t[i].addOn.id == id; }
    }
  }

  lemma AppendIds(sel: seq<Chosen>, c: Chosen)
    ensures Ids(sel + [c]) == Ids(sel) + {c.addOn.id}
  {
    var t := sel + [c];
    forall id | id in Ids(t) ensures id in Ids(sel) + {c.addOn.id} {
      var k :| 0 <= k < |t| && t[k].addOn.id == id;
      if k < |sel| { assert t[k] == sel[k]; }
    }
    forall id | id in Ids(sel) ensures id in Ids(t) {
      var k :| 0 <= k < |sel| && sel[k].addOn.id == id;
      assert t[k] == sel[k];
    }
    assert t[|sel|] == c;
  }

  /** Appending one entry does not move the first occurrence of an earlier id. */
  lemma AppendIndex(sel: seq<Chosen>, c: Chosen, id: string)
    ensures IndexOfId(sel + [c], id) ==
              if id in Ids(sel) then IndexOfId(sel, id)
              else if id == c.addOn.id then |sel| else -1
  {
    var t := sel + [c];
    AppendIds(sel, c);
    assert forall k :: 0 <= k < |sel| ==> t[k] == sel[k];
    assert t[|sel|] == c;
    var i := IndexOfId(t, id);
    if id in Ids(sel) {
      var j := IndexOfId(sel, id);
      assert t[j].addOn.id == id;
      assert i <= j;
      assert sel[i].addOn.id == id;
    }
  }

  lemma AppendUnique(sel: seq<Chosen>, c: Chosen)
    ensures UniqueIds(sel) && c.addOn.id !in Ids(sel) ==> UniqueIds(sel + [c])
  {
    var t := sel + [c];
    if UniqueIds(sel) && c.addOn.id !in Ids(sel) {
      forall i, j | 0 <= i < j < |t| ensures t[i].addOn.id != t[j].addOn.id {
        assert t[i] == sel[i];
        if j < |sel| { assert t[j] == sel[j]; }
      }
    }
  }

  lemma FindCons(sel: seq<Chosen>, id: string)
    requires |sel| > 0
    ensures Find(sel, id) == if sel[0].addOn.id == id then Some(sel[0]) else Find(sel[1..], id)
  {
  }

  lemma {:induction false} FindWithout(sel: seq<Chosen>, gone: string, id: string)
    requires id != gone
    ensures Find(Without(sel, gone), id) == Find(sel, id)
  {
    if |sel| > 0 {
      var rest := Without(sel[1..], gone);
      FindCons(sel, id);
      FindWithout(sel[1..], gone, id);
      if sel[0].addOn.id != gone {
        var r := [sel[0]] + rest;
        assert r[1..] == rest;
        FindCons(r, id);
      }
    }
  }

  lemma {:induction false} WithoutConcat(s: seq<Chosen>, t: seq<Chosen>, id: string)
    ensures Without(s + t, id) == Without(s, id) + Without(t, id)
  {
    if |s| == 0 {
      assert s + t == t;
    } else {
      assert (s + t)[0] == s[0];
      assert (s + t)[1..] == s[1..] + t;
      WithoutConcat(s[1..], t, id);
    }
  }

  lemma {:induction false} WithoutAbsent(sel: seq<Chosen>, id: string)
    requires id !in Ids(sel)
    ensures Without(sel, id) == sel
  {
    if |sel| > 0 {
      IdsCons(sel);
      WithoutAbsent(sel[1..], id);
      assert [sel[0]] + sel[1..] == sel;
    }
  }

  lemma {:induction false} WithoutDeletesSlot(sel: seq<Chosen>, i: int)
    requires UniqueIds(sel) && 0 <= i < |sel|
    ensures Without(sel, sel[i].addOn.id) == sel[..i] + sel[i + 1..]
  {
    var id := sel[i].addOn.id;
    UniqueIdsCons(sel);
    if i == 0 {
      WithoutAbsent(sel[1..], id);
    } else {
      var tail := sel[1..];
      assert tail[i - 1] == sel[i];
      assert sel[0].addOn.id != id;
      assert Without(sel, id) == [sel[0]] + Without(tail, id);
      WithoutDeletesSlot(tail, i - 1);
      assert tail[..i - 1] == sel[1..i] && tail[i..] == sel[i + 1..];
      assert [sel[0]] + sel[1..i] == sel[..i];
    }
  }
}
