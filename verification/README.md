# Menu item card: customisation and pricing logic

This project models the non-rendering logic of the storefront's menu-item
card, `src/components/MenuItemCard.tsx`. A shopper builds a cart line with
that card:

- the card's "add" button opens a customisation modal when the item has
  variations or add-ons, and otherwise adds it to the cart directly;
- inside the modal the shopper picks one variation and sets a quantity for
  each add-on, and the modal shows a running total;
- confirming sends one cart line, with every add-on repeated as many times
  as its quantity, and clears the add-ons;
- once the item is in the cart, a stepper asks the cart store for one more
  or one fewer.

The model is written as immutable data and pure functions:

| module | file | what it holds |
|---|---|---|
| `Wrappers` | `wrappers.dfy` | `Option` and `Result` |
| `Catalog` | `catalog.dfy` | `MenuItem`, `Variation` and `AddOn` records |
| `Selection` | `selection.dfy` | the `selectedAddOns` list and `updateAddOnQuantity` |
| `Pricing` | `pricing.dfy` | `calculatePrice` and how each update moves it |
| `CartRequest` | `cart_request.dfy` | the calls into the cart store as values, and the flattening of add-ons on confirm |
| `Grouping` | `grouping.dfy` | `groupedAddOns`, the reduce that groups add-ons by category |
| `ItemCard` | `item_card.dfy` | the card as an event-driven state machine |

`ItemCard` gives each click handler one transition. A control that is not
rendered in the current state cannot be clicked, so its event changes
nothing. `Run` replays a sequence of clicks and collects the requests sent
to the cart store.

The main results about `Run` and its invariant `Inv`:

- every reachable add-on list has unique ids and quantities of at least 1;
- confirming in a reachable state never throws;
- the confirmed line carries each add-on exactly its quantity times, and
  its base, variation change and add-on prices add up to the total the
  modal showed;
- when the cart quantities the card is rendered with are never negative,
  every update request is non-negative;
- an item that is sold out from mount never sends a request.

Three behaviours of the code worth knowing, all modelled as written:

- A negative quantity passed to `updateAddOnQuantity` is stored as given.
  The code does not clamp it or reject it. The model proves that the
  rendered buttons only ever pass quantities of 0 or more. If a negative
  quantity reached confirm anyway, `Array(n)` would throw; that is the
  `Err` path of `Flatten`.
- Closing the modal with X only hides it: the chosen add-ons and the
  variation are kept, and reopening shows them again. Confirming clears
  the add-ons but keeps the variation.
- For an item with neither variations nor add-ons, the direct add sends no
  add-on list at all (`onAddToCart(item, 1)`). It does not send an empty
  list. `ItemCard.BareAddVersusConfirm` states the difference.

## Model

| member | source | states |
|---|---|---|
| Selection.IndexOfId | src/components/MenuItemCard.tsx:66 | `findIndex` gives -1 exactly when the id is absent; otherwise the index holds the id and no earlier index does |
| Selection.Find | src/components/MenuItemCard.tsx:297 | `find` gives nothing exactly when the id is absent; otherwise it gives the first entry of the list with that id: every earlier entry has another id |
| Selection.Without | src/components/MenuItemCard.tsx:70 | the filter drops exactly the entries with the id: ids lose that id, membership is "in the list and has another id", unique ids stay unique |
| Selection.UpdateAddOnQuantity | src/components/MenuItemCard.tsx:64-83 | quantity 0 removes the id; otherwise the id is present with the new quantity, keeping the stored add-on or storing the given one; every other id is found as before; unique ids stay unique |
| Selection.RemoveFilters | src/components/MenuItemCard.tsx:68-71 | on any list, removal works entry by entry: it drops exactly the entries with the id and keeps the others in their original order |
| Selection.RemoveDeletesSlot | src/components/MenuItemCard.tsx:68-71 | with unique ids, removal deletes exactly the one slot holding the id, keeping the order of the rest |
| Selection.RemoveAbsentIsIdentity | src/components/MenuItemCard.tsx:68-71 | removing an id that is not present leaves the list unchanged |
| Selection.UpdatePresentInPlace | src/components/MenuItemCard.tsx:66-77 | on any list, updating a present id with a non-zero quantity replaces the quantity of the first slot holding it, found as `findIndex` does; length, order and the stored add-on fields are kept |
| Selection.UpdateAbsentAppends | src/components/MenuItemCard.tsx:78-81 | updating an absent id appends the add-on with its quantity at the end |
| Pricing.CalculatePrice | src/components/MenuItemCard.tsx:24-34 | with nothing selected the price is the base plus the variation's change, and add-ons with no negative price or quantity never bring it below that; how each update moves it is Pricing.PriceAfterUpdate, and that the base, variation change and add-on prices of the confirmed line add up to it is CartRequest.FlattenPrice |
| Pricing.AddOnTermNonNegative | src/components/MenuItemCard.tsx:30-32 | entries with no negative price or quantity sum to a non-negative add-on term |
| Pricing.EffectiveBase | src/components/MenuItemCard.tsx:26-28 | the base is the effective price unless that is missing or 0, in which case it is the base price |
| Pricing.AddOnTermConcat | src/components/MenuItemCard.tsx:30-32 | the add-on sum over two concatenated lists is the sum of the two sums |
| Pricing.AddOnTermAfterUpdate | src/components/MenuItemCard.tsx:64-83 | an update changes the add-on sum by the unit price times the change in quantity; removal subtracts the whole line |
| Pricing.PriceAfterUpdate | src/components/MenuItemCard.tsx:24-34 | the displayed total moves by exactly the unit price times the change in quantity, so it never drifts from the selection |
| CartRequest.Repeat | src/components/MenuItemCard.tsx:47 | `Array(n).fill(a)` has length n and every element is a |
| CartRequest.Flatten | src/components/MenuItemCard.tsx:46-48 | flattening throws exactly when some quantity is negative; otherwise its length is the total quantity and it holds only selected add-ons |
| CartRequest.FlattenPrice | src/components/MenuItemCard.tsx:44-49 | the prices of the flattened add-ons sum to the add-on term of the displayed total |
| CartRequest.FlattenCount | src/components/MenuItemCard.tsx:46-48 | with unique ids, each id appears in the flat list exactly as many times as its selected quantity |
| CartRequest.FlattenConcat | src/components/MenuItemCard.tsx:46-48 | flattening a concatenation succeeds exactly when both parts do, and gives the parts' flat lists in order: each entry forms one block, in list order |
| CartRequest.FlattenSingle | src/components/MenuItemCard.tsx:47 | one entry with quantity n flattens to exactly n copies of its add-on |
| Grouping.GroupAddOns | src/components/MenuItemCard.tsx:85-92 | there are never more groups than add-ons, and at least one when there is an add-on; that the groups partition the add-ons by category is Grouping.GroupAddOnsPartition and Grouping.GroupAddOnsPermutation |
| Grouping.AddToGroups | src/components/MenuItemCard.tsx:86-91 | one reducer step adds a group exactly when the category is not yet a key, and otherwise keeps the number of groups; what it does to the groups is Grouping.AddToGroupsKeepsGroupsOf (keeps the partition) and Grouping.AddToGroupsMultiset (adds exactly the pushed add-on) |
| Grouping.AddToGroupsKeepsGroupsOf | src/components/MenuItemCard.tsx:86-91 | one reducer step keeps keys unique, groups non-empty, each group equal to its category's add-ons, and every add-on's category a key |
| Grouping.GroupAddOnsAsWritten | src/components/MenuItemCard.tsx:85-92 | the reduce with an accumulator that inherits from `Object.prototype` throws exactly when some category names an inherited member, and otherwise equals the grouping |
| Grouping.InheritedCategoryThrows | src/components/MenuItemCard.tsx:87-90 | one add-on of category "toString" makes the reduce as written throw, while the intended grouping gives it its own group |
| Grouping.IndexOfCategory | src/components/MenuItemCard.tsx:87 | the key lookup is -1 exactly when no group has the category; otherwise it points at that group |
| Grouping.InCategoryMembers | src/components/MenuItemCard.tsx:85-92 | the reference filter for one category keeps exactly the add-ons of that category |
| Grouping.GroupAddOnsPartition | src/components/MenuItemCard.tsx:85-92 | keys are unique, no group is empty, each group is its category's add-ons in catalog order, and every add-on sits in the group of its category |
| Grouping.AddToGroupsMultiset | src/components/MenuItemCard.tsx:86-91 | one reducer step adds exactly the pushed add-on to the concatenated groups |
| Grouping.GroupAddOnsPermutation | src/components/MenuItemCard.tsx:85-92 | the groups, concatenated, are a permutation of the item's add-ons: nothing lost, nothing duplicated |
| ItemCard.Mount | src/components/MenuItemCard.tsx:18-22 | a fresh card has the modal hidden, no add-ons, and the first variation selected exactly when there is one |
| ItemCard.MountInv | src/components/MenuItemCard.tsx:18-22 | a fresh card satisfies the reachable-state invariant |
| ItemCard.HandleAddToCart | src/components/MenuItemCard.tsx:36-42 | a customisable item opens the modal and sends nothing; any other item sends one add of quantity 1 with no variation or add-ons; the selection is untouched |
| ItemCard.HandleCustomizedAddToCart | src/components/MenuItemCard.tsx:44-52 | confirm fails exactly when some quantity is negative; otherwise it closes the modal, clears the add-ons, keeps the variation, and sends one line of quantity 1 whose add-on list is the flattened selection, numbering the total quantity, and whose base, variation change and add-on prices add up to the displayed total |
| ItemCard.HandleClose | src/components/MenuItemCard.tsx:233-234 | X hides the modal and changes nothing else |
| ItemCard.HandleIncrement | src/components/MenuItemCard.tsx:54-56 | "+" asks the cart store for this item with exactly one more than the current quantity, which is positive when the current one is not negative |
| ItemCard.HandleDecrement | src/components/MenuItemCard.tsx:58-62 | "−" sends a request exactly when the quantity is positive, asking for exactly one less, which is never negative |
| ItemCard.DecrementUndoesIncrement | src/components/MenuItemCard.tsx:54-62 | "−" after "+" asks for the original quantity again |
| ItemCard.ButtonQuantity | src/components/MenuItemCard.tsx:297-331 | "Add" is clickable exactly when the add-on is not selected and "−"/"+" exactly when it is; "Add" passes 1, "+" passes the current quantity plus one, "−" passes the current quantity minus one (0 when the current quantity is 0); with non-negative stored quantities no button passes a negative one |
| ItemCard.PressAddOn | src/components/MenuItemCard.tsx:297-331 | a click changes no other add-on; "Add" selects an unselected add-on with quantity 1 and leaves a selected one alone; "+" raises the stored quantity by one; "−" lowers a non-zero quantity by one; "−"/"+" on an unselected add-on do nothing |
| ItemCard.MinusOnOneRemoves | src/components/MenuItemCard.tsx:301-303 | "−" on quantity 1 removes the add-on from the list |
| ItemCard.PressAddOnKeepsValid | src/components/MenuItemCard.tsx:297-331 | every add-on control keeps ids unique, quantities at least 1 and add-ons from the item |
| ItemCard.RenderedAddOnsAreOffered | src/components/MenuItemCard.tsx:275-286 | the modal renders a control for an add-on exactly when the item offers it |
| ItemCard.Step | src/components/MenuItemCard.tsx:188-356 | one click keeps the item; only the add button opens the modal; only the add, stepper and confirm buttons send requests; only a variation radio changes the variation; only an add-on control or confirm changes the add-ons |
| ItemCard.Run | src/components/MenuItemCard.tsx:188-356 | a click sequence keeps the item and sends at most one request per click |
| ItemCard.StepKeepsInv | src/components/MenuItemCard.tsx:188-356 | every click keeps the reachable-state invariant |
| ItemCard.RunKeepsInv | src/components/MenuItemCard.tsx:188-356 | any click sequence keeps the invariant and the item |
| ItemCard.ReachableSelection | src/components/MenuItemCard.tsx:64-83 | from a fresh card, after any clicks, quantities are at least 1, ids are unique, and a variation is selected exactly when the item has variations |
| ItemCard.ConfirmNeverFaults | src/components/MenuItemCard.tsx:46-48 | in a reachable state the flattening on confirm never throws |
| ItemCard.ConfirmCarriesQuantities | src/components/MenuItemCard.tsx:44-49 | the confirmed line holds each add-on id exactly as many times as its selected quantity |
| ItemCard.ConfirmResetsTotal | src/components/MenuItemCard.tsx:50-51 | after confirm the total is the base plus the kept variation |
| ItemCard.RunRequests | src/components/MenuItemCard.tsx:188-218 | when the cart quantities the card is rendered with are non-negative, every add request carries the item and quantity 1 and every update is non-negative; an item sold out from mount sends nothing |
| ItemCard.CloseThenReopen | src/components/MenuItemCard.tsx:233-234 | closing and reopening the modal restores the same card |
| ItemCard.PlusRaisesTotal | src/components/MenuItemCard.tsx:314-316 | "+" raises the displayed total by the entry's unit price |
| ItemCard.MinusLowersTotal | src/components/MenuItemCard.tsx:301-303 | "−" lowers the displayed total by the entry's unit price |
| ItemCard.AddRaisesTotal | src/components/MenuItemCard.tsx:326 | "Add" raises the displayed total by the add-on's price |
| ItemCard.BareAddVersusConfirm | src/components/MenuItemCard.tsx:36-52 | for a plain item, the direct add sends no add-on list while a confirm would send an empty one |
| ItemCard.WorkedOrder | src/components/MenuItemCard.tsx:297-331 | opening, picking "large", adding rice and pressing "+" leaves rice at quantity 2 and sends nothing |
| ItemCard.WorkedTotal | src/components/MenuItemCard.tsx:24-34 | that card shows 100 + 20 + 15 × 2 = 150 |
| ItemCard.WorkedConfirm | src/components/MenuItemCard.tsx:44-52 | confirming it sends one line with the rice twice and clears the add-ons |
| ItemCard.WorkedDiscount | src/components/MenuItemCard.tsx:26 | an item of base 150 with effective price 120 shows 120 |
| ItemCard.ConfirmIgnoresAvailability | src/components/MenuItemCard.tsx:44-52 | confirm sends the line even for a sold-out item when the modal is open; such a card is outside `Inv` |

## Left out

- The discount-percentage badge is left out. It divides by the base price in floating point and rounds, and it is unguarded when the base price is 0.
- Rendering, styling, the image and its fallback, the "Starts at" label and the `toFixed` price formatting are presentation and carry no state.
- The cart store is outside the card: its calls are recorded as `Request` values, and the cart quantity the card is rendered with is an input to each event. The cart store is assumed to supply quantities of 0 or more; with a negative one, "+" asks for a negative quantity (`quantity + 1` is not clamped).
- The `item` prop is fixed for the life of a card: a card is mounted with an item and keeps it. The code does not check `item.available` on confirm, so an item that turned sold out while the modal was open would still be sent; ItemCard.ConfirmIgnoresAvailability shows this on a sold-out card with the modal open, which `Inv` rules out only because the item never changes.
- React batches state updates and re-renders between clicks. The model applies each click as one atomic transition on the latest state.
- Other components of the storefront (header, navigation, hero, cart page) are not part of this model.
- Prices and quantities are unbounded integers. JavaScript numbers are floats, and `NaN` and fractional values are not modelled.
- `item.variations` and `item.addOns` are optional in the code. The model uses sequences, and an absent array behaves like an empty one on every path of the card.
- CartRequest.Flatten: models the `RangeError` for a negative length only, not the one for lengths of 2^32 or more.
- Grouping.GroupAddOns: groups are kept in first-occurrence order. A record enumerates integer-like keys first in ascending order; categories that look like integers are not modelled. Categories that name an `Object.prototype` member make the code throw; the card uses the intended grouping, and Grouping.GroupAddOnsAsWritten models the throw (see Findings).
- CartRequest.Repeat: `Array(n).fill(obj)` stores one shared object n times, and that object carries its own `quantity` key set to `undefined`. Add-ons are values here, so neither the sharing nor the extra key is modelled.

## Findings

| source | as written | input that shows it | evidently intended | confidence | as-written member | corrected member |
|---|---|---|---|---|---|---|
| src/components/MenuItemCard.tsx:85-92 | the accumulator `{}` inherits from `Object.prototype`, so `groups[category]` is truthy for an inherited name, no array is created, and `push` throws a `TypeError` on every render | an add-on with `category` "toString" (or "constructor", "valueOf", "__proto__", …) | every add-on forms or joins the group of its category | high; not executed | Grouping.GroupAddOnsAsWritten, Grouping.InheritedCategoryThrows | Grouping.GroupAddOns, Grouping.GroupAddOnsPartition |
