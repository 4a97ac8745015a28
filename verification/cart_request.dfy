/**
 * What the card hands to the cart store: the `onAddToCart` and
 * `onUpdateQuantity` calls as request values, and the flattening of the
 * quantified add-on list into plain repeated add-ons on confirm.
 */
module CartRequest {
  import opened Wrappers
  import opened Catalog
  import opened Selection
  import opened Pricing

  /** A call into the cart store, recorded instead of performed. */
  datatype Request =
    | AddToCart(item: MenuItem, quantity: int, variation: Option<Variation>, addOns: Option<seq<AddOn>>)
    | UpdateQuantity(itemId: string, quantity: int)

  /** `Array(n)` throws a RangeError when `n` is negative. */
  datatype Fault = InvalidArrayLength

  /** `Array(n).fill(addOn)`: `n` copies of one add-on. */
  function Repeat(a: AddOn, n: nat): (r: seq<AddOn>)
    ensures |r| == n
    ensures forall k :: 0 <= k < n ==> r[k] == a
  {
    seq(n, _ => a)
  }

  /** Σ quantity over the selection list. */
  function TotalQuantity(sel: seq<Chosen>): int {
    if |sel| == 0 then 0 else sel[0].quantity + TotalQuantity(sel[1..])
  }

  /** Σ price over a flat list of add-ons. */
  function SumPrices(s: seq<AddOn>): int {
    if |s| == 0 then 0 else s[0].price + SumPrices(s[1..])
  }

  /** How many add-ons in a flat list carry `id`. */
  function CountId(s: seq<AddOn>, id: string): nat {
    if |s| == 0 then 0 else (if s[0].id == id then 1 else 0) + CountId(s[1..], id)
  }

  /**
   * `selectedAddOns.flatMap(a => Array(a.quantity).fill({...a, quantity: undefined}))`:
   * each entry becomes `quantity` copies of its add-on, in list order. A
   * negative quantity makes `Array` throw. In the code the copies are one
   * shared object with its own `quantity` key set to `undefined`; as values
   * here they are simply equal add-ons.
   */
  function Flatten(sel: seq<Chosen>): (r: Result<seq<AddOn>, Fault>)
    ensures r.Err? <==> exists k :: 0 <= k < |sel| && sel[k].quantity < 0
    ensures r.Ok? ==> |r.value| == TotalQuantity(sel)
    ensures r.Ok? ==> forall x :: x in r.value ==> exists k :: 0 <= k < |sel| && sel[k].addOn == x
  {
    if |sel| == 0 then Ok([])
    else if sel[0].quantity < 0 then Err(InvalidArrayLength)
    else
      match Flatten(sel[1..])
      case Err(e) => Err(e)
      case Ok(rest) =>
        var r := Repeat(sel[0].addOn, sel[0].quantity) + rest;
        assert forall x :: x in rest ==> exists k :: 0 <= k < |sel| && sel[k].addOn == x by {
          forall x | x in rest ensures exists k :: 0 <= k < |sel| && sel[k].addOn == x {
            var k :| 0 <= k < |sel[1..]| && sel[1..][k].addOn == x;
            assert sel[k + 1].addOn == x;
          }
        }
        Ok(r)
  }

  // ---------------------------------------------------------------------
  // Flattening keeps the price: the base, the variation's change and the
  // prices of the emitted add-on list add up to the total the modal showed.
  // ---------------------------------------------------------------------

  lemma {:induction false} SumPricesConcat(s: seq<AddOn>, t: seq<AddOn>)
    ensures SumPrices(s + t) == SumPrices(s) + SumPrices(t)
  {
    if |s| == 0 {
      assert s + t == t;
    } else {
      assert (s + t)[0] == s[0];
      assert (s + t)[1..] == s[1..] + t;
      SumPricesConcat(s[1..], t);
    }
  }

  lemma {:induction false} SumPricesRepeat(a: AddOn, n: nat)
    ensures SumPrices(Repeat(a, n)) == a.price * n
  {
    if n > 0 {
      assert Repeat(a, n)[1..] == Repeat(a, n - 1);
      SumPricesRepeat(a, n - 1);
    }
  }

  /**
   * The prices of the flattened cart add-ons sum to the add-on term of
   * `calculatePrice`.
   */
  lemma {:induction false} FlattenPrice(sel: seq<Chosen>)
    requires Flatten(sel).Ok?
    ensures SumPrices(Flatten(sel).value) == AddOnTerm(sel)
  {
    if |sel| > 0 {
      var c := sel[0];
      FlattenPrice(sel[1..]);
      SumPricesConcat(Repeat(c.addOn, c.quantity), Flatten(sel[1..]).value);
      SumPricesRepeat(c.addOn, c.quantity);
    }
  }

  // ---------------------------------------------------------------------
  // Multiplicity and order of the flattened list.
  // ---------------------------------------------------------------------

  lemma {:induction false} CountIdConcat(s: seq<AddOn>, t: seq<AddOn>, id: string)
    ensures CountId(s + t, id) == CountId(s, id) + CountId(t, id)
  {
    if |s| == 0 {
      assert s + t == t;
    } else {
      assert (s + t)[0] == s[0];
      assert (s + t)[1..] == s[1..] + t;
      CountIdConcat(s[1..], t, id);
    }
  }

  lemma {:induction false} CountIdRepeat(a: AddOn, n: nat, id: string)
    ensures CountId(Repeat(a, n), id) == if a.id == id then n else 0
  {
    if n > 0 {
      assert Repeat(a, n)[1..] == Repeat(a, n - 1);
      CountIdRepeat(a, n - 1, id);
    }
  }

  /**
   * With unique ids, every add-on id occurs in the flattened list exactly
   * as many times as its selected quantity (0 when it is not selected).
   */
  lemma {:induction false} FlattenCount(sel: seq<Chosen>, id: string)
    requires UniqueIds(sel) && Flatten(sel).Ok?
    ensures CountId(Flatten(sel).value, id) == QuantityOf(sel, id)
  {
    if |sel| > 0 {
      var c := sel[0];
      UniqueIdsCons(sel);
      FlattenCount(sel[1..], id);
      CountIdConcat(Repeat(c.addOn, c.quantity), Flatten(sel[1..]).value, id);
      CountIdRepeat(c.addOn, c.quantity, id);
      FindCons(sel, id);
    }
  }

  /**
   * Flattening is compositional: the flat list of `s + t` is the flat list
   * of `s` followed by that of `t`, so the copies of each entry form one
   * block and the blocks follow the selection order.
   */
  lemma {:induction false} FlattenConcat(s: seq<Chosen>, t: seq<Chosen>)
    ensures Flatten(s + t).Ok? <==> Flatten(s).Ok? && Flatten(t).Ok?
    ensures Flatten(s + t).Ok? ==> Flatten(s + t).value == Flatten(s).value + Flatten(t).value
  {
    if |s| == 0 {
      assert s + t == t;
    } else {
      assert (s + t)[0] == s[0];
      assert (s + t)[1..] == s[1..] + t;
      FlattenConcat(s[1..], t);
      if Flatten(s + t).Ok? {
        var block := Repeat(s[0].addOn, s[0].quantity);
        assert block + (Flatten(s[1..]).value + Flatten(t).value)
            == (block + Flatten(s[1..]).value) + Flatten(t).value;
      }
    }
  }

  /** A single entry with a non-negative quantity flattens to exactly its block. */
  lemma FlattenSingle(c: Chosen)
    requires c.quantity >= 0
    ensures Flatten([c]) == Ok(Repeat(c.addOn, c.quantity))
  {
    assert [c][1..] == [];
    assert Repeat(c.addOn, c.quantity) + [] == Repeat(c.addOn, c.quantity);
  }
}
