/**
 * `calculatePrice`: the running total shown in the customisation modal,
 * and how each add-on update moves it.
 */
module Pricing {
  import opened Wrappers
  import opened Catalog
  import opened Selection

  /**
   * `item.effectivePrice || item.basePrice`: JavaScript's `||` falls back
   * when the left side is falsy, and for a number that means both
   * `undefined` and `0`.
   */
  function EffectiveBase(item: MenuItem): (r: int)
    ensures item.effectivePrice.None? ==> r == item.basePrice
    ensures item.effectivePrice == Some(0) ==> r == item.basePrice
    ensures item.effectivePrice.Some? && item.effectivePrice.value != 0 ==>
              r == item.effectivePrice.value
  {
    match item.effectivePrice
    case Some(p) => if p != 0 then p else item.basePrice
    case None => item.basePrice
  }

  /** The price change of the selected variation; none selected adds nothing. */
  function VariationDelta(v: Option<Variation>): int {
    match v
    case Some(variation) => variation.price
    case None => 0
  }

  /** What one list entry adds to the total: `addOn.price * addOn.quantity`. */
  function LineTotal(c: Chosen): int {
    c.addOn.price * c.quantity
  }

  /** Σ price × quantity over the selection list. */
  function AddOnTerm(sel: seq<Chosen>): int {
    if |sel| == 0 then 0
    else LineTotal(sel[0]) + AddOnTerm(sel[1..])
  }

  /** Every entry has a non-negative unit price and quantity. */
  ghost predicate NoNegativeLines(sel: seq<Chosen>) {
    forall i :: 0 <= i < |sel| ==> sel[i].addOn.price >= 0 && sel[i].quantity >= 0
  }

  /** Entries with no negative price or quantity add nothing negative. */
  lemma {:induction false} AddOnTermNonNegative(sel: seq<Chosen>)
    ensures NoNegativeLines(sel) ==> AddOnTerm(sel) >= 0
  {
    if |sel| > 0 && NoNegativeLines(sel) {
      assert NoNegativeLines(sel[1..]) by {
        forall i | 0 <= i < |sel[1..]| ensures sel[1..][i] == sel[i + 1] { }
      }
      AddOnTermNonNegative(sel[1..]);
    }
  }

  /**
   * `calculatePrice()` for a card's current variation and add-on list. With
   * nothing selected it is the base plus the variation's change, and add-ons
   * of non-negative price never bring it below that.
   */
  function CalculatePrice(item: MenuItem, v: Option<Variation>, sel: seq<Chosen>): (r: int)
    ensures sel == [] ==> r == EffectiveBase(item) + VariationDelta(v)
    ensures NoNegativeLines(sel) ==> r >= EffectiveBase(item) + VariationDelta(v)
  {
    AddOnTermNonNegative(sel);
    EffectiveBase(item) + VariationDelta(v) + AddOnTerm(sel)
  }

  /** The unit price by which an update of `a` moves the total: that of the stored entry, if any. */
  function UnitPrice(sel: seq<Chosen>, a: AddOn): int {
    match Find(sel, a.id)
    case Some(c) => c.addOn.price
    case None => a.price
  }

  /** The add-on term is additive over concatenation of selection lists. */
  lemma {:induction false} AddOnTermConcat(s: seq<Chosen>, t: seq<Chosen>)
    ensures AddOnTerm(s + t) == AddOnTerm(s) + AddOnTerm(t)
  {
    if |s| == 0 {
      assert s + t == t;
    } else {
      assert (s + t)[0] == s[0];
      assert (s + t)[1..] == s[1..] + t;
      AddOnTermConcat(s[1..], t);
    }
  }

  /** Changing one entry's quantity moves the term by unit price × the change. */
  lemma AddOnTermSetQuantity(sel: seq<Chosen>, i: int, q: int)
    requires 0 <= i < |sel|
    ensures AddOnTerm(sel[i := sel[i].(quantity := q)]) ==
              AddOnTerm(sel) + sel[i].addOn.price * (q - sel[i].quantity)
  {
    var pre, post := sel[..i], sel[i + 1..];
    var before, after := sel[i], sel[i].(quantity := q);
    assert sel == pre + [before] + post;
    assert sel[i := after] == pre + [after] + post;
    AddOnTermSplit(pre, before, post);
    AddOnTermSplit(pre, after, post);
  }

  /** The term of a list with one entry singled out. */
  lemma AddOnTermSplit(pre: seq<Chosen>, c: Chosen, post: seq<Chosen>)
    ensures AddOnTerm(pre + [c] + post) ==
              AddOnTerm(pre) + LineTotal(c) + AddOnTerm(post)
  {
    calc {
      AddOnTerm(pre + [c] + post);
      { AddOnTermConcat(pre + [c], post); }
      AddOnTerm(pre + [c]) + AddOnTerm(post);
      { AddOnTermConcat(pre, [c]); }
      AddOnTerm(pre) + AddOnTerm([c]) + AddOnTerm(post);
      { assert [c][1..] == []; }
      AddOnTerm(pre) + LineTotal(c) + AddOnTerm(post);
    }
  }

  /** Deleting one slot takes that entry's price × quantity out of the term. */
  lemma AddOnTermDeleteSlot(sel: seq<Chosen>, i: int)
    requires 0 <= i < |sel|
    ensures AddOnTerm(sel[..i] + sel[i + 1..]) ==
              AddOnTerm(sel) - LineTotal(sel[i])
  {
    SplitAt(sel, i);
    AddOnTermDelete(sel[..i], sel[i], sel[i + 1..]);
  }

  /** A list is its prefix, the entry at `i` and its suffix. */
  lemma SplitAt(sel: seq<Chosen>, i: int)
    requires 0 <= i < |sel|
    ensures sel[..i] + [sel[i]] + sel[i + 1..] == sel
  {
  }

  lemma AddOnTermDelete(pre: seq<Chosen>, c: Chosen, post: seq<Chosen>)
    ensures AddOnTerm(pre + post) == AddOnTerm(pre + [c] + post) - LineTotal(c)
  {
    AddOnTermConcat(pre, post);
    AddOnTermSplit(pre, c, post);
  }

  /** The add-on term after any `updateAddOnQuantity` call. */
  lemma AddOnTermAfterUpdate(sel: seq<Chosen>, a: AddOn, q: int)
    requires UniqueIds(sel)
    ensures q == 0 ==>
              AddOnTerm(UpdateAddOnQuantity(sel, a, q)) ==
              AddOnTerm(sel) - UnitPrice(sel, a) * QuantityOf(sel, a.id)
    ensures q != 0 ==>
              AddOnTerm(UpdateAddOnQuantity(sel, a, q)) ==
              AddOnTerm(sel) + UnitPrice(sel, a) * (q - QuantityOf(sel, a.id))
  {
    var i := IndexOfId(sel, a.id);
    if i < 0 {
      if q == 0 {
        RemoveAbsentIsIdentity(sel, a);
      } else {
        AddOnTermAfterAppend(sel, a, q);
      }
    } else {
      assert Find(sel, a.id) == Some(sel[i]);
      if q == 0 {
        AddOnTermAfterRemove(sel, a, i);
      } else {
        AddOnTermAfterSet(sel, a, q, i);
      }
    }
  }

  lemma AddOnTermAfterAppend(sel: seq<Chosen>, a: AddOn, q: int)
    requires a.id !in Ids(sel) && q != 0
    ensures AddOnTerm(UpdateAddOnQuantity(sel, a, q)) == AddOnTerm(sel) + a.price * q
  {
    UpdateAbsentAppends(sel, a, q);
    AddOnTermConcat(sel, [Chosen(a, q)]);
    assert AddOnTerm([Chosen(a, q)]) == a.price * q;
  }

  lemma AddOnTermAfterRemove(sel: seq<Chosen>, a: AddOn, i: int)
    requires UniqueIds(sel) && 0 <= i < |sel| && sel[i].addOn.id == a.id
    ensures AddOnTerm(UpdateAddOnQuantity(sel, a, 0)) ==
              AddOnTerm(sel) - sel[i].addOn.price * sel[i].quantity
  {
    RemoveDeletesSlot(sel, a, i);
    AddOnTermDeleteSlot(sel, i);
  }

  lemma AddOnTermAfterSet(sel: seq<Chosen>, a: AddOn, q: int, i: int)
    requires UniqueIds(sel) && 0 <= i < |sel| && sel[i].addOn.id == a.id && q != 0
    ensures AddOnTerm(UpdateAddOnQuantity(sel, a, q)) ==
              AddOnTerm(sel) + sel[i].addOn.price * (q - sel[i].quantity)
  {
    UniqueIndex(sel, i);
    UpdatePresentInPlace(sel, a, q, i);
    AddOnTermSetQuantity(sel, i, q);
  }

  /**
   * Every add-on update moves the total by exactly the unit price times the
   * change in quantity; removal takes the whole line out. The displayed
   * price never drifts from the selection.
   */
  lemma PriceAfterUpdate(item: MenuItem, v: Option<Variation>, sel: seq<Chosen>, a: AddOn, q: int)
    requires UniqueIds(sel)
    ensures q == 0 ==>
              CalculatePrice(item, v, UpdateAddOnQuantity(sel, a, q)) ==
              CalculatePrice(item, v, sel) - UnitPrice(sel, a) * QuantityOf(sel, a.id)
    ensures q != 0 ==>
              CalculatePrice(item, v, UpdateAddOnQuantity(sel, a, q)) ==
              CalculatePrice(item, v, sel) + UnitPrice(sel, a) * (q - QuantityOf(sel, a.id))
  {
    AddOnTermAfterUpdate(sel, a, q);
  }
}
