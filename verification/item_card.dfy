/**
 * The menu-item card as a state machine: its local state
 * (`showCustomization`, `selectedVariation`, `selectedAddOns`), one
 * transition per click handler, the conditions under which each control is
 * rendered at all, and the requests it sends to the cart store.
 */
module ItemCard {
  import opened Wrappers
  import opened Catalog
  import opened Selection
  import opened Pricing
  import opened CartRequest
  import opened Grouping

  /** The card's local state for one catalog item. */
  datatype Card = Card(
    item: MenuItem,
    showCustomization: bool,
    selectedVariation: Option<Variation>,
    selectedAddOns: seq<Chosen>)

  /** The state after one handler, and the cart-store call it made, if any. */
  datatype Transition = Transition(card: Card, emitted: Option<Request>)

  /** The card as first rendered: modal hidden, first variation preselected, no add-ons. */
  function Mount(item: MenuItem): (c: Card)
    ensures c.item == item && !c.showCustomization && c.selectedAddOns == []
    ensures c.selectedVariation.Some? <==> |item.variations| > 0
    ensures c.selectedVariation.Some? ==> c.selectedVariation.value == item.variations[0]
  {
    Card(item, false, if |item.variations| > 0 then Some(item.variations[0]) else None, [])
  }

  /** `item.variations?.length || item.addOns?.length`. */
  predicate Customizable(item: MenuItem) {
    |item.variations| > 0 || |item.addOns| > 0
  }

  /** The total the modal displays for the card's current selection. */
  function Total(card: Card): int {
    CalculatePrice(card.item, card.selectedVariation, card.selectedAddOns)
  }

  // ---------------------------------------------------------------------
  // Handlers
  // ---------------------------------------------------------------------

  /**
   * `handleAddToCart`: an item with variations or add-ons opens the modal
   * and emits nothing; any other item goes straight to the cart with
   * quantity 1 and no variation or add-ons.
   */
  function HandleAddToCart(card: Card): (t: Transition)
    ensures t.emitted.None? <==> Customizable(card.item)
    ensures t.emitted.Some? ==> t.emitted.value == AddToCart(card.item, 1, None, None)
    ensures t.card.showCustomization <==> card.showCustomization || Customizable(card.item)
    ensures t.card.item == card.item
    ensures t.card.selectedVariation == card.selectedVariation
    ensures t.card.selectedAddOns == card.selectedAddOns
  {
    if Customizable(card.item) then Transition(card.(showCustomization := true), None)
    else Transition(card, Some(AddToCart(card.item, 1, None, None)))
  }

  /**
   * `handleCustomizedAddToCart`: flatten the add-ons, send one request of
   * quantity 1 carrying the current variation, close the modal and clear
   * the add-ons. The variation is kept. When flattening throws, nothing is
   * sent and the state stays as it was.
   */
  function HandleCustomizedAddToCart(card: Card): (r: Result<Transition, Fault>)
    ensures r.Err? <==> exists k :: 0 <= k < |card.selectedAddOns| && card.selectedAddOns[k].quantity < 0
    ensures r.Ok? ==> r.value.card == card.(showCustomization := false, selectedAddOns := [])
    ensures r.Ok? ==> r.value.emitted.Some? && r.value.emitted.value.AddToCart?
    ensures r.Ok? ==>
              var req := r.value.emitted.value;
              && req.item == card.item
              && req.quantity == 1
              && req.variation == card.selectedVariation
              && req.addOns.Some?
              && req.addOns == Some(Flatten(card.selectedAddOns).value)
              && |req.addOns.value| == TotalQuantity(card.selectedAddOns)
              && EffectiveBase(req.item) + VariationDelta(req.variation) + SumPrices(req.addOns.value)
                 == Total(card)
  {
    match Flatten(card.selectedAddOns)
    case Err(e) => Err(e)
    case Ok(flat) =>
      FlattenPrice(card.selectedAddOns);
      var req := AddToCart(card.item, 1, card.selectedVariation, Some(flat));
      Ok(Transition(card.(showCustomization := false, selectedAddOns := []), Some(req)))
  }

  /** The X button: hide the modal and keep the selection as it is. */
  function HandleClose(card: Card): (r: Card)
    ensures !r.showCustomization
    ensures r.item == card.item
    ensures r.selectedVariation == card.selectedVariation
    ensures r.selectedAddOns == card.selectedAddOns
  {
    card.(showCustomization := false)
  }

  /** `handleIncrement`: ask the cart store for one more. */
  function HandleIncrement(item: MenuItem, quantity: int): (r: Request)
    ensures r.UpdateQuantity? && r.itemId == item.id
    ensures r.quantity - quantity == 1
    ensures quantity >= 0 ==> r.quantity > 0
  {
    UpdateQuantity(item.id, quantity + 1)
  }

  /** `handleDecrement`: ask for one fewer, and only when there is one to take. */
  function HandleDecrement(item: MenuItem, quantity: int): (r: Option<Request>)
    ensures r.Some? <==> quantity > 0
    ensures r.Some? ==> r.value.UpdateQuantity? && r.value.itemId == item.id
    ensures r.Some? ==> r.value.quantity >= 0 && r.value.quantity < quantity
    ensures r.Some? ==> quantity - r.value.quantity == 1
  {
    if quantity > 0 then Some(UpdateQuantity(item.id, quantity - 1)) else None
  }

  // ---------------------------------------------------------------------
  // The in-modal add-on controls
  // ---------------------------------------------------------------------

  /** The three add-on controls: "Add" for an unselected add-on, "−"/"+" for a selected one. */
  datatype AddOnButton = AddButton | PlusButton | MinusButton

  /**
   * The quantity a click passes to `updateAddOnQuantity`, or None when the
   * clicked control is not rendered: "Add" passes 1; "+" passes
   * `(current?.quantity || 0) + 1`; "−" passes `(current?.quantity || 1) - 1`.
   */
  function ButtonQuantity(sel: seq<Chosen>, a: AddOn, b: AddOnButton): (r: Option<int>)
    ensures r.Some? <==> (b == AddButton <==> Find(sel, a.id).None?)
    ensures (forall k :: 0 <= k < |sel| ==> sel[k].quantity >= 0) && r.Some? ==> r.value >= 0
    ensures b == AddButton && r.Some? ==> r.value == 1
    ensures b == PlusButton && r.Some? ==> r.value == QuantityOf(sel, a.id) + 1
    ensures b == MinusButton && r.Some? ==>
              r.value == if QuantityOf(sel, a.id) == 0 then 0 else QuantityOf(sel, a.id) - 1
  {
    match Find(sel, a.id)
    case None => if b == AddButton then Some(1) else None
    case Some(current) =>
      assert current == sel[IndexOfId(sel, a.id)];
      match b
      case PlusButton => Some(current.quantity + 1)
      case MinusButton => Some((if current.quantity == 0 then 1 else current.quantity) - 1)
      case AddButton => None
  }

  /**
   * One click on an add-on control; a control that is not rendered does
   * nothing. "Add" selects the add-on once, "+" raises its quantity by one,
   * "−" lowers it by one (removing it at 1), and no other add-on changes.
   */
  function PressAddOn(sel: seq<Chosen>, a: AddOn, b: AddOnButton): (r: seq<Chosen>)
    ensures forall id :: id != a.id ==> Find(r, id) == Find(sel, id)
    ensures b == AddButton ==>
              Find(r, a.id) == if Find(sel, a.id).None? then Some(Chosen(a, 1)) else Find(sel, a.id)
    ensures b == PlusButton && Find(sel, a.id).Some? ==>
              QuantityOf(r, a.id) == QuantityOf(sel, a.id) + 1
    ensures b == MinusButton && Find(sel, a.id).Some? && QuantityOf(sel, a.id) != 0 ==>
              QuantityOf(r, a.id) == QuantityOf(sel, a.id) - 1
    ensures b != AddButton && Find(sel, a.id).None? ==> r == sel
  {
    match ButtonQuantity(sel, a, b)
    case None => sel
    case Some(q) => UpdateAddOnQuantity(sel, a, q)
  }

  // ---------------------------------------------------------------------
  // Events and runs
  // ---------------------------------------------------------------------

  /** A click on one of the card's controls. */
  datatype Event =
    | AddPressed
    | IncrementPressed
    | DecrementPressed
    | VariationPicked(variation: Variation)
    | AddOnPressed(addOn: AddOn, button: AddOnButton)
    | ClosePressed
    | ConfirmPressed

  /** An event together with the cart quantity the card was rendered with. */
  datatype Input = Input(cartQuantity: int, event: Event)

  /** The final state of a run and every request it sent, in order. */
  datatype Trace = Trace(card: Card, requests: seq<Request>)

  /** The add-ons the modal renders controls for: the groups, concatenated. */
  function RenderedAddOns(item: MenuItem): seq<AddOn> {
    Concat(GroupAddOns(item.addOns))
  }

  /**
   * One event. A control that the card does not render in the current
   * state cannot be clicked, so its event changes nothing: the add and
   * stepper buttons need an available item and (respectively) a zero or
   * non-zero cart quantity; the modal's controls need the modal open; a
   * variation or add-on control needs that variation or add-on to be
   * listed. The full-screen overlay of the open modal is not modelled, so
   * the card's own add and stepper buttons stay clickable behind it; this
   * only allows more runs than the page does, and every result about runs
   * holds for all of them. Only the add button opens the modal, only the add, stepper and
   * confirm buttons talk to the cart, and only the modal's controls change
   * the selection.
   */
  function Step(card: Card, cartQuantity: int, e: Event): (t: Transition)
    ensures t.card.item == card.item
    ensures !card.showCustomization && t.card.showCustomization ==> e.AddPressed?
    ensures t.emitted.Some? ==> e.AddPressed? || e.IncrementPressed? || e.DecrementPressed? || e.ConfirmPressed?
    ensures t.card.selectedVariation != card.selectedVariation ==> e.VariationPicked?
    ensures t.card.selectedAddOns != card.selectedAddOns ==> e.AddOnPressed? || e.ConfirmPressed?
  {
    var idle := Transition(card, None);
    match e
    case AddPressed =>
      if card.item.available && cartQuantity == 0 then HandleAddToCart(card) else idle
    case IncrementPressed =>
      if card.item.available && cartQuantity != 0
      then Transition(card, Some(HandleIncrement(card.item, cartQuantity))) else idle
    case DecrementPressed =>
      if card.item.available && cartQuantity != 0
      then Transition(card, HandleDecrement(card.item, cartQuantity)) else idle
    case VariationPicked(v) =>
      if card.showCustomization && v in card.item.variations
      then Transition(card.(selectedVariation := Some(v)), None) else idle
    case AddOnPressed(a, b) =>
      if card.showCustomization && a in RenderedAddOns(card.item)
      then Transition(card.(selectedAddOns := PressAddOn(card.selectedAddOns, a, b)), None)
      else idle
    case ClosePressed =>
      if card.showCustomization then Transition(HandleClose(card), None) else idle
    case ConfirmPressed =>
      if card.showCustomization then
        match HandleCustomizedAddToCart(card)
        case Ok(t) => t
        case Err(_) => idle
      else idle
  }

  /**
   * A sequence of events, one atomic transition each. The item never
   * changes, and each click sends at most one request.
   */
  function Run(card: Card, inputs: seq<Input>): (r: Trace)
    ensures r.card.item == card.item
    ensures |r.requests| <= |inputs|
    decreases |inputs|
  {
    if |inputs| == 0 then Trace(card, [])
    else
      var t := Step(card, inputs[0].cartQuantity, inputs[0].event);
      var rest := Run(t.card, inputs[1..]);
      Trace(rest.card, (if t.emitted.Some? then [t.emitted.value] else []) + rest.requests)
  }

  // ---------------------------------------------------------------------
  // The reachable-state invariant
  // ---------------------------------------------------------------------

  /** Quantities in the list are all at least 1. */
  predicate AllPositive(sel: seq<Chosen>) {
    forall c :: c in sel ==> c.quantity >= 1
  }

  /** The list holds only add-ons the item offers. */
  predicate Offered(sel: seq<Chosen>, item: MenuItem) {
    forall c :: c in sel ==> c.addOn in item.addOns
  }

  /** A well-formed add-on list for `item`. */
  predicate ValidSelection(sel: seq<Chosen>, item: MenuItem) {
    UniqueIds(sel) && AllPositive(sel) && Offered(sel, item)
  }

  /** What holds of every card reachable from `Mount` by clicks. */
  predicate Inv(card: Card) {
    && ValidSelection(card.selectedAddOns, card.item)
    && (card.selectedVariation.Some? <==> |card.item.variations| > 0)
    && (card.selectedVariation.Some? ==> card.selectedVariation.value in card.item.variations)
    && (card.showCustomization ==> card.item.available && Customizable(card.item))
  }

  /** The add-on controls rendered are exactly the item's add-ons. */
  lemma RenderedAddOnsAreOffered(item: MenuItem, a: AddOn)
    ensures a in RenderedAddOns(item) <==> a in item.addOns
  {
    GroupAddOnsPermutation(item.addOns);
    assert a in RenderedAddOns(item) <==> a in multiset(RenderedAddOns(item));
  }

  /** "−" on quantity 1 removes the entry, as if the add-on had never been chosen. */
  lemma MinusOnOneRemoves(sel: seq<Chosen>, a: AddOn)
    requires QuantityOf(sel, a.id) == 1 && Find(sel, a.id).Some?
    ensures a.id !in Ids(PressAddOn(sel, a, MinusButton))
  {
  }

  lemma RemoveKeepsValid(sel: seq<Chosen>, item: MenuItem, a: AddOn, i: int)
    requires ValidSelection(sel, item) && 0 <= i < |sel| && sel[i].addOn.id == a.id
    ensures ValidSelection(UpdateAddOnQuantity(sel, a, 0), item)
  {
    assert UpdateAddOnQuantity(sel, a, 0) == Without(sel, a.id);
  }

  lemma SetKeepsValid(sel: seq<Chosen>, item: MenuItem, a: AddOn, q: int, i: int)
    requires ValidSelection(sel, item) && 0 <= i < |sel| && sel[i].addOn.id == a.id && q >= 1
    ensures ValidSelection(UpdateAddOnQuantity(sel, a, q), item)
  {
    UniqueIndex(sel, i);
    UpdatePresentInPlace(sel, a, q, i);
  }

  lemma AppendKeepsValid(sel: seq<Chosen>, item: MenuItem, a: AddOn)
    requires ValidSelection(sel, item) && a.id !in Ids(sel) && a in item.addOns
    ensures ValidSelection(UpdateAddOnQuantity(sel, a, 1), item)
  {
    UpdateAbsentAppends(sel, a, 1);
    var r := sel + [Chosen(a, 1)];
    assert forall k :: 0 <= k < |r| ==> r[k] == if k < |sel| then sel[k] else Chosen(a, 1);
  }

  /**
   * From a well-formed list, any rendered add-on control keeps it
   * well-formed: ids unique, quantities at least 1, add-ons from the item.
   */
  lemma PressAddOnKeepsValid(sel: seq<Chosen>, item: MenuItem, a: AddOn, b: AddOnButton)
    requires ValidSelection(sel, item) && a in item.addOns
    ensures ValidSelection(PressAddOn(sel, a, b), item)
  {
    var i := IndexOfId(sel, a.id);
    match ButtonQuantity(sel, a, b)
    case None =>
    case Some(q) =>
      if i < 0 {
        AppendKeepsValid(sel, item, a);
      } else if q == 0 {
        RemoveKeepsValid(sel, item, a, i);
      } else {
        SetKeepsValid(sel, item, a, q, i);
      }
  }

  lemma MountInv(item: MenuItem)
    ensures Inv(Mount(item))
  {
  }

  /** Every event keeps the invariant. */
  lemma StepKeepsInv(card: Card, cartQuantity: int, e: Event)
    requires Inv(card)
    ensures Inv(Step(card, cartQuantity, e).card)
  {
    match e
    case AddOnPressed(a, b) =>
      if card.showCustomization && a in RenderedAddOns(card.item) {
        RenderedAddOnsAreOffered(card.item, a);
        PressAddOnKeepsValid(card.selectedAddOns, card.item, a, b);
      }
    case _ =>
  }

  /** Every run keeps the invariant. */
  lemma {:induction false} RunKeepsInv(card: Card, inputs: seq<Input>)
    requires Inv(card)
    ensures Inv(Run(card, inputs).card)
    ensures Run(card, inputs).card.item == card.item
    decreases |inputs|
  {
    if |inputs| > 0 {
      StepKeepsInv(card, inputs[0].cartQuantity, inputs[0].event);
      RunKeepsInv(Step(card, inputs[0].cartQuantity, inputs[0].event).card, inputs[1..]);
    }
  }

  /**
   * Starting from a freshly rendered card and clicking anything, the stored
   * add-on quantities are all at least 1 and their ids are unique; if the
   * item has variations, exactly one is selected.
   */
  lemma ReachableSelection(item: MenuItem, inputs: seq<Input>)
    ensures AllPositive(Run(Mount(item), inputs).card.selectedAddOns)
    ensures UniqueIds(Run(Mount(item), inputs).card.selectedAddOns)
    ensures Run(Mount(item), inputs).card.selectedVariation.Some? <==> |item.variations| > 0
  {
    MountInv(item);
    RunKeepsInv(Mount(item), inputs);
  }

  /** In a reachable state, confirming never throws. */
  lemma ConfirmNeverFaults(card: Card)
    requires Inv(card)
    ensures HandleCustomizedAddToCart(card).Ok?
  {
  }

  /**
   * In a reachable state, the confirmed cart line holds each selected
   * add-on exactly as many times as its quantity.
   */
  lemma ConfirmCarriesQuantities(card: Card, id: string)
    requires Inv(card)
    ensures HandleCustomizedAddToCart(card).Ok?
    ensures CountId(HandleCustomizedAddToCart(card).value.emitted.value.addOns.value, id)
            == QuantityOf(card.selectedAddOns, id)
  {
    FlattenCount(card.selectedAddOns, id);
  }

  /** Every request a run sends: add requests have quantity 1; updates are never negative. */
  predicate WellFormedRequest(r: Request, item: MenuItem) {
    match r
    case AddToCart(i, q, _, _) => i == item && q == 1
    case UpdateQuantity(id, q) => id == item.id && q >= 0
  }

  /**
   * A run whose rendered cart quantities are never negative sends only
   * well-formed requests, and a sold-out item sends none at all.
   */
  lemma {:induction false} RunRequests(card: Card, inputs: seq<Input>)
    requires Inv(card)
    requires forall k :: 0 <= k < |inputs| ==> inputs[k].cartQuantity >= 0
    ensures forall r :: r in Run(card, inputs).requests ==> WellFormedRequest(r, card.item)
    ensures !card.item.available ==> Run(card, inputs).requests == []
    decreases |inputs|
  {
    if |inputs| > 0 {
      var t := Step(card, inputs[0].cartQuantity, inputs[0].event);
      StepKeepsInv(card, inputs[0].cartQuantity, inputs[0].event);
      assert t.card.item == card.item;
      assert t.emitted.Some? ==> WellFormedRequest(t.emitted.value, card.item);
      assert !card.item.available ==> t.emitted.None?;
      RunRequests(t.card, inputs[1..]);
    }
  }

  // ---------------------------------------------------------------------
  // Round trips and price bookkeeping
  // ---------------------------------------------------------------------

  /** Closing the modal and reopening it shows the same selection. */
  lemma CloseThenReopen(card: Card)
    requires Inv(card) && card.showCustomization
    ensures HandleAddToCart(HandleClose(card)) == Transition(card, None)
  {
  }

  /** After confirming, the modal shows the bare price of the kept variation. */
  lemma ConfirmResetsTotal(card: Card)
    requires Inv(card)
    ensures HandleCustomizedAddToCart(card).Ok?
    ensures Total(HandleCustomizedAddToCart(card).value.card) ==
              EffectiveBase(card.item) + VariationDelta(card.selectedVariation)
  {
  }

  /** "+" raises the displayed total by the unit price of the entry. */
  lemma PlusRaisesTotal(sel: seq<Chosen>, item: MenuItem, v: Option<Variation>, a: AddOn)
    requires ValidSelection(sel, item) && Find(sel, a.id).Some?
    ensures CalculatePrice(item, v, PressAddOn(sel, a, PlusButton)) ==
              CalculatePrice(item, v, sel) + Find(sel, a.id).value.addOn.price
  {
    PriceAfterUpdate(item, v, sel, a, QuantityOf(sel, a.id) + 1);
  }

  /** "−" lowers the displayed total by the unit price of the entry. */
  lemma MinusLowersTotal(sel: seq<Chosen>, item: MenuItem, v: Option<Variation>, a: AddOn)
    requires ValidSelection(sel, item) && Find(sel, a.id).Some?
    ensures CalculatePrice(item, v, PressAddOn(sel, a, MinusButton)) ==
              CalculatePrice(item, v, sel) - Find(sel, a.id).value.addOn.price
  {
    var c := Find(sel, a.id).value;
    assert c.quantity >= 1;
    assert PressAddOn(sel, a, MinusButton) == UpdateAddOnQuantity(sel, a, c.quantity - 1);
    PriceAfterUpdate(item, v, sel, a, c.quantity - 1);
    if c.quantity != 1 {
      assert c.addOn.price * (c.quantity - 1 - c.quantity) == -c.addOn.price;
    }
  }

  /** "Add" raises the displayed total by the add-on's price. */
  lemma AddRaisesTotal(sel: seq<Chosen>, item: MenuItem, v: Option<Variation>, a: AddOn)
    requires ValidSelection(sel, item) && Find(sel, a.id).None?
    ensures CalculatePrice(item, v, PressAddOn(sel, a, AddButton)) ==
              CalculatePrice(item, v, sel) + a.price
  {
    PriceAfterUpdate(item, v, sel, a, 1);
  }

  /** After the card's "+" asks for one more, its "−" asks for the original quantity again. */
  lemma DecrementUndoesIncrement(item: MenuItem, quantity: int)
    requires quantity >= 0
    ensures HandleDecrement(item, HandleIncrement(item, quantity).quantity) ==
              Some(UpdateQuantity(item.id, quantity))
  {
  }

  /**
   * For an item with neither variations nor add-ons, the direct add sends
   * no add-on list at all, while a confirm of the same empty selection
   * would send an empty one; the two requests agree otherwise.
   */
  lemma BareAddVersusConfirm(item: MenuItem)
    requires !Customizable(item)
    ensures HandleAddToCart(Mount(item)).emitted == Some(AddToCart(item, 1, None, None))
    ensures HandleCustomizedAddToCart(Mount(item)) ==
              Ok(Transition(Mount(item), Some(AddToCart(item, 1, None, Some([])))))
  {
  }

  // ---------------------------------------------------------------------
  // A worked order
  // ---------------------------------------------------------------------

  function Regular(): Variation { Variation("regular", "Regular", 0) }
  function Large(): Variation { Variation("large", "Large", 20) }
  function Rice(): AddOn { AddOn("extra-rice", "Extra rice", 15, "extras") }
  function Meal(): MenuItem {
    MenuItem("meal", "Meal", 100, None, None, false, true, false, [Regular(), Large()], [Rice()])
  }

  /** Open the modal, pick "large", add the rice and press "+" once. */
  function OrderInputs(): seq<Input> {
    [Input(0, AddPressed), Input(0, VariationPicked(Large())),
     Input(0, AddOnPressed(Rice(), AddButton)), Input(0, AddOnPressed(Rice(), PlusButton))]
  }

  /** The modal opens with the first variation preselected. */
  lemma OrderOpens()
    ensures Step(Mount(Meal()), 0, AddPressed) ==
              Transition(Card(Meal(), true, Some(Regular()), []), None)
  {
  }

  lemma OrderPicksLarge()
    ensures Step(Card(Meal(), true, Some(Regular()), []), 0, VariationPicked(Large())) ==
              Transition(Card(Meal(), true, Some(Large()), []), None)
  {
  }

  lemma OrderAddsRice()
    ensures Step(Card(Meal(), true, Some(Large()), []), 0, AddOnPressed(Rice(), AddButton)) ==
              Transition(Card(Meal(), true, Some(Large()), [Chosen(Rice(), 1)]), None)
  {
    RenderedAddOnsAreOffered(Meal(), Rice());
  }

  lemma OrderRaisesRice()
    ensures Step(Card(Meal(), true, Some(Large()), [Chosen(Rice(), 1)]), 0, AddOnPressed(Rice(), PlusButton)) ==
              Transition(Card(Meal(), true, Some(Large()), [Chosen(Rice(), 2)]), None)
  {
    RenderedAddOnsAreOffered(Meal(), Rice());
    UpdatePresentInPlace([Chosen(Rice(), 1)], Rice(), 2, 0);
  }

  /** A run whose steps emit nothing ends in the last step's card and sends nothing. */
  lemma {:induction false} QuietRun(cards: seq<Card>, inputs: seq<Input>)
    requires |cards| == |inputs| + 1
    requires forall k :: 0 <= k < |inputs| ==>
               Step(cards[k], inputs[k].cartQuantity, inputs[k].event) == Transition(cards[k + 1], None)
    ensures Run(cards[0], inputs) == Trace(cards[|inputs|], [])
  {
    if |inputs| > 0 {
      QuietRun(cards[1..], inputs[1..]);
    }
  }

  /**
   * Base price 100, a "large" variation at +20 and "extra rice" at 15:
   * after the inputs above the modal is open with large selected and the
   * rice twice, and nothing has been sent.
   */
  lemma WorkedOrder()
    ensures Run(Mount(Meal()), OrderInputs()) ==
              Trace(Card(Meal(), true, Some(Large()), [Chosen(Rice(), 2)]), [])
  {
    var item, inputs := Meal(), OrderInputs();
    var cards := [Mount(item), Card(item, true, Some(Regular()), []), Card(item, true, Some(Large()), []),
                  Card(item, true, Some(Large()), [Chosen(Rice(), 1)]),
                  Card(item, true, Some(Large()), [Chosen(Rice(), 2)])];
    forall k | 0 <= k < |inputs|
      ensures Step(cards[k], inputs[k].cartQuantity, inputs[k].event) == Transition(cards[k + 1], None)
    {
      if k == 0 { OrderOpens(); }
      else if k == 1 { OrderPicksLarge(); }
      else if k == 2 { OrderAddsRice(); }
      else { OrderRaisesRice(); }
    }
    QuietRun(cards, inputs);
  }

  /** The modal then shows 100 + 20 + 15 × 2 = 150. */
  lemma WorkedTotal()
    ensures Total(Card(Meal(), true, Some(Large()), [Chosen(Rice(), 2)])) == 150
  {
    assert AddOnTerm([Chosen(Rice(), 2)]) == 30;
  }

  /** Confirming that order sends one line with the rice flattened to two copies. */
  lemma WorkedConfirm()
    ensures Run(Card(Meal(), true, Some(Large()), [Chosen(Rice(), 2)]), [Input(0, ConfirmPressed)]) ==
              Trace(Card(Meal(), false, Some(Large()), []),
                    [AddToCart(Meal(), 1, Some(Large()), Some([Rice(), Rice()]))])
  {
    var c4 := Card(Meal(), true, Some(Large()), [Chosen(Rice(), 2)]);
    assert Flatten([Chosen(Rice(), 2)]) == Ok([Rice(), Rice()]) by {
      FlattenSingle(Chosen(Rice(), 2));
      assert Repeat(Rice(), 2) == [Rice(), Rice()];
    }
    var confirm := [Input(0, ConfirmPressed)];
    assert confirm[1..] == [];
  }

  /** A discounted item with no options shows its effective price, 120 instead of 150. */
  lemma WorkedDiscount()
    ensures
      var item := MenuItem("wings", "Wings", 150, Some(120), Some(120), true, true, false, [], []);
      Total(Mount(item)) == 120
  {
  }

  /**
   * Confirm does not look at `item.available`: an open modal over a sold-out
   * item still sends its line. Only `Inv` keeps this out of reach, because
   * the item a card was mounted with never changes here and the modal opens
   * for available items only.
   */
  lemma ConfirmIgnoresAvailability()
    ensures
      var card := Card(Meal().(available := false), true, Some(Large()), []);
      && !Inv(card)
      && Step(card, 0, ConfirmPressed).emitted == Some(AddToCart(card.item, 1, Some(Large()), Some([])))
  {
  }
}
