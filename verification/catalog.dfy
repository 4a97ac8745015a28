/** The catalog records a menu card is rendered from (`MenuItem`, `Variation`, `AddOn`). */
module Catalog {
  import opened Wrappers

  /** A size/style option; `price` is a delta added to the item's base price. */
  datatype Variation = Variation(id: string, name: string, price: int)

  /** A repeatable extra, priced per unit and grouped by `category`. */
  datatype AddOn = AddOn(id: string, name: string, price: int, category: string)

  /**
   * A catalog item. Prices are integers in the smallest currency unit.
   * The optional `variations` and `addOns` arrays are sequences here: an
   * absent array behaves as an empty one on every path of the card.
   */
  datatype MenuItem = MenuItem(
    id: string,
    name: string,
    basePrice: int,
    discountPrice: Option<int>,
    effectivePrice: Option<int>,
    isOnDiscount: bool,
    available: bool,
    popular: bool,
    variations: seq<Variation>,
    addOns: seq<AddOn>)
}
