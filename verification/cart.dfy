/** The order summary and the cart requests of the cart page (src/pages/CartPage.tsx).
    The cart ledger behind `useCart` (src/context/CartContext.tsx) is not part of this
    model: its subtotal `getTotalPrice()` is taken as an input, and its operations are
    seen only as the requests the page sends. */
module Cart {
  import opened Wrappers

  /** Shipping is free strictly above this subtotal. */
  const FreeShippingAbove := 999
  const ShippingFee := 99

  function Shipping(subtotal: int): (fee: int)
    ensures fee == 0 <==> subtotal > FreeShippingAbove
    ensures fee == 0 || fee == ShippingFee
  {
    if subtotal > FreeShippingAbove then 0 else ShippingFee
  }

  /** `Math.round(subtotal * 0.18)`: 18% of the subtotal, rounded half up. */
  function Tax(subtotal: int): (tax: int)
    ensures 100 * tax - 50 <= 18 * subtotal < 100 * tax + 50
    ensures subtotal >= 0 ==> 0 <= tax <= subtotal
  {
    (18 * subtotal + 50) / 100
  }

  /** The summary's total: the subtotal plus shipping plus rounded tax. */
  function Total(subtotal: int): (total: int)
    ensures var extra := total - subtotal - Shipping(subtotal);
      100 * extra - 50 <= 18 * subtotal < 100 * extra + 50
    ensures subtotal >= 0 ==> total >= subtotal
  {
    subtotal + Shipping(subtotal) + Tax(subtotal)
  }

  /** The worked figures: 850 pays 99 shipping and 153 tax, 1102 in all; 999 still
      pays shipping and 1000 does not. */
  lemma SummaryExamples()
    ensures Shipping(850) == 99 && Tax(850) == 153 && Total(850) == 1102
    ensures Shipping(999) == 99 && Shipping(1000) == 0
  {
  }

  /** The "Add ₹X more for free shipping!" banner as the page computes it:
      shown when the subtotal is at most 999, asking for `999 - subtotal`. */
  function NudgeAsWritten(subtotal: int): (amount: Option<int>)
    ensures amount.Some? <==> Shipping(subtotal) != 0
    ensures amount.Some? ==> amount.value >= 0
  {
    if subtotal <= FreeShippingAbove then Some(FreeShippingAbove - subtotal) else None
  }

  /** Adding the amount the banner asks for never makes shipping free: the new
      subtotal is exactly 999, which is not above 999. */
  lemma NudgeFallsShort(subtotal: int)
    requires NudgeAsWritten(subtotal).Some?
    ensures subtotal + NudgeAsWritten(subtotal).value == 999
    ensures Shipping(subtotal + NudgeAsWritten(subtotal).value) == ShippingFee
  {
  }

  /** The banner with the amount that actually reaches free shipping: the least
      amount whose addition makes shipping free. */
  function FreeShippingNudge(subtotal: int): (amount: Option<int>)
    ensures amount.Some? <==> Shipping(subtotal) != 0
    ensures amount.Some? ==> amount.value >= 1 && Shipping(subtotal + amount.value) == 0
    ensures amount.Some? ==> forall t :: subtotal <= t < subtotal + amount.value ==> Shipping(t) != 0
  {
    if subtotal <= FreeShippingAbove then Some(FreeShippingAbove + 1 - subtotal) else None
  }

  /** What the cart page shows: the empty-cart message, or the order summary for the
      ledger's subtotal with the banner as the page computes it. */
  datatype CartView =
    | EmptyCart
    | Summary(subtotal: int, shipping: int, tax: int, total: int, nudge: Option<int>)

  function CartPage(lineCount: nat, subtotal: int): (view: CartView)
    ensures view.EmptyCart? <==> lineCount == 0
    ensures view.Summary? ==>
      view.subtotal == subtotal
      && (view.shipping == 0 <==> subtotal > FreeShippingAbove)
      && (view.shipping != 0 ==> view.shipping == ShippingFee)
      && view.total == subtotal + view.shipping + view.tax
      && 100 * view.tax - 50 <= 18 * subtotal < 100 * view.tax + 50
      && (view.nudge.Some? <==> view.shipping != 0)
      && (view.nudge.Some? ==> subtotal + view.nudge.value == FreeShippingAbove)
  {
    if lineCount == 0 then EmptyCart
    else Summary(subtotal, Shipping(subtotal), Tax(subtotal), Total(subtotal), NudgeAsWritten(subtotal))
  }

  /** The page with the corrected banner: the same summary, except that the banner asks
      for one rupee more, which is the least amount that makes shipping free. */
  function CorrectedCartPage(lineCount: nat, subtotal: int): (view: CartView)
    ensures view.EmptyCart? <==> CartPage(lineCount, subtotal).EmptyCart?
    ensures view.Summary? ==>
      var page := CartPage(lineCount, subtotal);
      && view == page.(nudge := view.nudge)
      && (view.nudge.Some? <==> page.nudge.Some?)
      && (view.nudge.Some? ==> view.nudge.value == page.nudge.value + 1)
      && (view.nudge.Some? ==> Shipping(subtotal + view.nudge.value) == 0)
  {
    var page := CartPage(lineCount, subtotal);
    if page.EmptyCart? then page else page.(nudge := FreeShippingNudge(subtotal))
  }

  /** The argument of `addToCart`: a snapshot of the product taken at the time of the
      call. `image`, `size` and `color` are `None` where the page indexes an empty array. */
  datatype CartItemInput = CartItemInput(
    id: string,
    name: string,
    price: int,
    image: Option<string>,
    size: Option<string>,
    color: Option<string>)

  /** A line of the cart as the page reads it. */
  datatype CartLine = CartLine(
    id: string,
    name: string,
    price: int,
    image: Option<string>,
    size: string,
    color: string,
    quantity: int)

  /** What the page asks of the ledger; a line is addressed by (id, size, color). */
  datatype CartRequest =
    | UpdateQuantity(id: string, size: string, color: string, quantity: int)
    | RemoveFromCart(id: string, size: string, color: string)

  function Identity(line: CartLine): (string, string, string)
  {
    (line.id, line.size, line.color)
  }

  function Target(request: CartRequest): (string, string, string)
  {
    (request.id, request.size, request.color)
  }

  /** The "−" button. */
  function DecreaseRequest(line: CartLine): (request: CartRequest)
    ensures Target(request) == Identity(line)
    ensures request.UpdateQuantity? && request.quantity == line.quantity - 1
  {
    UpdateQuantity(line.id, line.size, line.color, line.quantity - 1)
  }

  /** The "+" button. */
  function IncreaseRequest(line: CartLine): (request: CartRequest)
    ensures Target(request) == Identity(line)
    ensures request.UpdateQuantity? && request.quantity == line.quantity + 1
  {
    UpdateQuantity(line.id, line.size, line.color, line.quantity + 1)
  }

  /** The "×" button. */
  function RemoveRequest(line: CartLine): (request: CartRequest)
    ensures Target(request) == Identity(line) && request.RemoveFromCart?
  {
    RemoveFromCart(line.id, line.size, line.color)
  }

  /** The line's displayed total, `price × quantity`. */
  function LineTotal(line: CartLine): (total: int)
    ensures line.price >= 0 && line.quantity >= 1 ==> total >= line.price
    ensures line.quantity == 0 ==> total == 0
  {
    line.price * line.quantity
  }

  /** The React key of a line, `${id}-${size}-${color}`. */
  function LineKey(line: CartLine): (key: string)
    ensures |key| == |line.id| + |line.size| + |line.color| + 2
    ensures key[..|line.id|] == line.id && key[|line.id|] == '-'
    ensures key[|line.id| + 1..|line.id| + 1 + |line.size|] == line.size
    ensures key[|line.id| + 1 + |line.size|] == '-'
    ensures key[|line.id| + |line.size| + 2..] == line.color
  {
    line.id + "-" + line.size + "-" + line.color
  }

  /** The text before the first '-'. */
  function Before(s: string): string
  {
    if s == [] || s[0] == '-' then [] else [s[0]] + Before(s[1..])
  }

  /** The text after the first '-' (empty when there is none). */
  function After(s: string): string
  {
    if s == [] then [] else if s[0] == '-' then s[1..] else After(s[1..])
  }

  lemma {:induction false} SplitAtFirst(a: string, b: string)
    requires '-' !in a
    ensures Before(a + "-" + b) == a && After(a + "-" + b) == b
  {
    if a != [] {
      assert (a + "-" + b)[1..] == a[1..] + "-" + b;
      SplitAtFirst(a[1..], b);
    }
  }

  /** While ids and sizes contain no '-' (true of the whole catalog), a line's key
      can be read back into its (id, size, color). */
  lemma LineKeyParsesBack(line: CartLine)
    requires '-' !in line.id && '-' !in line.size
    ensures var key := LineKey(line);
      Before(key) == line.id && Before(After(key)) == line.size && After(After(key)) == line.color
  {
    assert LineKey(line) == line.id + "-" + (line.size + "-" + line.color);
    SplitAtFirst(line.id, line.size + "-" + line.color);
    SplitAtFirst(line.size, line.color);
  }

  /** So lines with the same key are the same (id, size, color) line. */
  lemma LineKeyIdentifiesLine(x: CartLine, y: CartLine)
    requires '-' !in x.id && '-' !in x.size && '-' !in y.id && '-' !in y.size
    requires LineKey(x) == LineKey(y)
    ensures Identity(x) == Identity(y)
  {
    LineKeyParsesBack(x);
    LineKeyParsesBack(y);
  }
}
