/** The product page (src/pages/ProductPage.tsx): choosing the product from the route,
    the page's selection state, and the add-to-cart button that issues one `addToCart`
    call per unit of the chosen quantity. */
module ProductPage {
  import opened Wrappers
  import opened Products
  import opened Cart
  import opened ProductCard

  /** What the route shows: "Product Not Found", or the details of one product with
      its discount label and star row. */
  datatype Page =
    | NotFound
    | Details(product: Product, percentOff: Option<int>, stars: seq<bool>)

  /** `id ? getProductById(id) : null`, then the not-found branch for a missing product. */
  function Open(id: Option<string>): (page: Page)
    ensures page.NotFound? <==> id.None? || forall p | p in Catalog :: p.id != id.value
    ensures page.Details? ==> page.product in Catalog && page.product.id == id.value
    ensures page.Details? ==> page.percentOff == CardBadges(page.product).percentOff
    ensures page.Details? ==> page.stars == StarRow(page.product.rating)
  {
    if id.None? || id.value == "" then NotFound
    else match GetProductById(id.value)
      case None => NotFound
      case Some(p) => Details(p, CardBadges(p).percentOff, StarRow(p.rating))
  }

  /** Every catalog product has a page of its own. */
  lemma EveryProductHasAPage(p: Product)
    requires p in Catalog
    ensures Open(Some(p.id)) == Details(p, CardBadges(p).percentOff, StarRow(p.rating))
  {
    LookupFindsOwnEntry(p);
  }

  /** The page's local state. */
  datatype PageState = PageState(selectedSize: string, selectedColor: string, selectedImage: int, quantity: int)

  /** Nothing chosen, first image, one unit. */
  const InitialPage := PageState("", "", 0, 1)

  /** The user's actions on the page. */
  datatype PageEvent =
    | PickSize(size: string)
    | PickColor(color: string)
    | PickImage(index: int)
    | Decrease
    | Increase

  /** The "−" button: `Math.max(1, quantity - 1)`. */
  function DecreaseQuantity(quantity: int): (q: int)
    ensures q >= 1
    ensures quantity > 1 ==> q == quantity - 1
    ensures quantity <= 1 ==> q == 1
  {
    if quantity - 1 > 1 then quantity - 1 else 1
  }

  /** The "+" button. */
  function IncreaseQuantity(quantity: int): (q: int)
    ensures q > quantity
  {
    quantity + 1
  }

  /** "+" then "−" returns to where the stepper was, from any reachable quantity. */
  lemma StepperRoundTrip(quantity: int)
    requires quantity >= 1
    ensures DecreaseQuantity(IncreaseQuantity(quantity)) == quantity
    ensures quantity > 1 ==> IncreaseQuantity(DecreaseQuantity(quantity)) == quantity
  {
  }

  /** One click: a size, colour or thumbnail button selects its value, the stepper moves
      the quantity, and every other field stays as it was. */
  function Step(st: PageState, e: PageEvent): (next: PageState)
    ensures next.selectedSize == (if e.PickSize? then e.size else st.selectedSize)
    ensures next.selectedColor == (if e.PickColor? then e.color else st.selectedColor)
    ensures next.selectedImage == (if e.PickImage? then e.index else st.selectedImage)
    ensures next.quantity == (if e.Increase? then st.quantity + 1
                              else if e.Decrease? then (if st.quantity > 1 then st.quantity - 1 else 1)
                              else st.quantity)
  {
    match e
    case PickSize(size) => st.(selectedSize := size)
    case PickColor(color) => st.(selectedColor := color)
    case PickImage(index) => st.(selectedImage := index)
    case Decrease => st.(quantity := DecreaseQuantity(st.quantity))
    case Increase => st.(quantity := IncreaseQuantity(st.quantity))
  }

  function Run(st: PageState, events: seq<PageEvent>): PageState
    decreases |events|
  {
    if events == [] then st else Run(Step(st, events[0]), events[1..])
  }

  /** The events the rendered page can produce: its buttons list exactly the product's
      sizes, colors and image positions. */
  predicate Offered(p: Product, e: PageEvent)
  {
    match e
    case PickSize(size) => size in p.sizes
    case PickColor(color) => color in p.colors
    case PickImage(index) => 0 <= index < |p.images|
    case _ => true
  }

  /** The page's state invariant: at least one unit, and every choice is either not made
      yet or one the product offers. */
  predicate Consistent(p: Product, st: PageState)
  {
    st.quantity >= 1
    && (st.selectedSize == "" || st.selectedSize in p.sizes)
    && (st.selectedColor == "" || st.selectedColor in p.colors)
    && (st.selectedImage == 0 || 0 <= st.selectedImage < |p.images|)
  }

  lemma InitialIsConsistent(p: Product)
    ensures Consistent(p, InitialPage)
  {
  }

  /** One offered event keeps the invariant. */
  lemma StepKeepsConsistent(p: Product, st: PageState, e: PageEvent)
    requires Consistent(p, st) && Offered(p, e)
    ensures Consistent(p, Step(st, e))
  {
  }

  /** Any sequence of offered events keeps the invariant; in particular the quantity
      never drops below 1. */
  lemma {:induction false} RunKeepsConsistent(p: Product, st: PageState, events: seq<PageEvent>)
    requires Consistent(p, st)
    requires forall k | 0 <= k < |events| :: Offered(p, events[k])
    ensures Consistent(p, Run(st, events))
    ensures Run(st, events).quantity >= 1
    decreases |events|
  {
    if events != [] {
      var rest := events[1..];
      assert forall k | 0 <= k < |rest| :: rest[k] == events[k + 1];
      StepKeepsConsistent(p, st, events[0]);
      RunKeepsConsistent(p, Step(st, events[0]), rest);
    }
  }

  /** The item each add carries: the product as it is now, its first image, and the
      chosen size and color. */
  function Snapshot(p: Product, size: string, color: string): (item: CartItemInput)
    ensures item.id == p.id && item.name == p.name && item.price == p.price
    ensures item.image == First(p.images)
    ensures item.size == Some(size) && item.color == Some(color)
  {
    CartItemInput(p.id, p.name, p.price, First(p.images), Some(size), Some(color))
  }

  /** A quick-add from the card is the page's add with the first size and color. */
  lemma QuickAddIsFirstChoiceSnapshot(p: Product)
    requires |p.sizes| > 0 && |p.colors| > 0
    ensures QuickAdd(p) == Snapshot(p, p.sizes[0], p.colors[0])
  {
  }

  /** The add-to-cart button. `alerted` is the "Please select size and color" alert;
      `calls` are the `addToCart` calls in the order issued. */
  method HandleAddToCart(p: Product, st: PageState) returns (alerted: bool, calls: seq<CartItemInput>)
    ensures alerted <==> st.selectedSize == "" || st.selectedColor == ""
    ensures alerted ==> calls == []
    ensures !alerted ==> |calls| == (if st.quantity > 0 then st.quantity else 0)
    ensures forall k | 0 <= k < |calls| :: calls[k] == Snapshot(p, st.selectedSize, st.selectedColor)
  {
    calls := [];
    if st.selectedSize == "" || st.selectedColor == "" {
      alerted := true;
      return;
    }
    alerted := false;
    var i := 0;
    while i < st.quantity
      invariant 0 <= i && (st.quantity > 0 ==> i <= st.quantity) && (st.quantity <= 0 ==> i == 0)
      invariant |calls| == i
      invariant forall k | 0 <= k < |calls| :: calls[k] == Snapshot(p, st.selectedSize, st.selectedColor)
      decreases st.quantity - i
    {
      calls := calls + [Snapshot(p, st.selectedSize, st.selectedColor)];
      i := i + 1;
    }
  }

}
