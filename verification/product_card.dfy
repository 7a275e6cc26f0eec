/** The product card of the shop grid and the home page (src/components/ProductCard.tsx):
    the quick-add snapshot, the discount and NEW badges, and the star row. The product
    page shows the same discount and stars through the functions defined here. */
module ProductCard {
  import opened Wrappers
  import opened Products
  import opened Cart

  /** `xs[0]`, which is `undefined` on an empty array. */
  function First(xs: seq<string>): (r: Option<string>)
    ensures r.Some? <==> |xs| > 0
    ensures r.Some? ==> r.value == xs[0] && r.value in xs
  {
    if |xs| > 0 then Some(xs[0]) else None
  }

  /** The item a quick-add hands to `addToCart`. */
  function QuickAdd(p: Product): (item: CartItemInput)
    ensures item.id == p.id && item.name == p.name && item.price == p.price
    ensures item.image.Some? <==> |p.images| > 0
    ensures item.size.Some? <==> |p.sizes| > 0
    ensures item.color.Some? <==> |p.colors| > 0
    ensures item.image.Some? ==> item.image.value == p.images[0]
    ensures item.size.Some? ==> item.size.value == p.sizes[0]
    ensures item.color.Some? ==> item.color.value == p.colors[0]
  {
    CartItemInput(p.id, p.name, p.price, First(p.images), First(p.sizes), First(p.colors))
  }

  /** For a catalog product, quick-add always carries an image, a size and a color
      that the product offers. */
  lemma QuickAddOnCatalog(p: Product)
    requires p in Catalog
    ensures QuickAdd(p).image.Some? && QuickAdd(p).image.value in p.images
    ensures QuickAdd(p).size.Some? && QuickAdd(p).size.value in p.sizes
    ensures QuickAdd(p).color.Some? && QuickAdd(p).color.value in p.colors
  {
    CatalogOptionsNonEmpty();
  }

  /** `Math.round((original - price) / original * 100)`: the saving as a percentage
      of the original price, rounded half up. */
  function PercentOff(original: nat, price: nat): (pct: int)
    requires original > 0
    ensures 2 * original * pct - original <= 200 * (original - price) < 2 * original * pct + original
    ensures price <= original ==> 0 <= pct <= 100
  {
    var n, d := 200 * (original - price) + original, 2 * original;
    QuotientBounds(n, d);
    if price <= original then QuotientAtMost(n, d, 100); n / d else n / d
  }

  lemma QuotientBounds(n: int, d: int)
    requires d > 0
    ensures d * (n / d) <= n < d * (n / d) + d
  {
  }

  lemma QuotientAtMost(n: int, d: int, m: int)
    requires d > 0 && n < d * (m + 1)
    ensures n / d <= m
  {
    var q := n / d;
    QuotientBounds(n, d);
    var r := m + 1 - q;
    assert d * r == d * (m + 1) - d * q;
    PositiveFactor(d, r);
  }

  lemma PositiveFactor(d: int, x: int)
    requires d > 0 && d * x > 0
    ensures x > 0
  {
  }

  /** The badges on the card image. */
  datatype Badges = Badges(percentOff: Option<int>, isNew: bool)

  /** The discount badge shows only for a present, non-zero `originalPrice` (a 0 is
      falsy and hides it); the NEW badge shows exactly for new arrivals. */
  function CardBadges(p: Product): (b: Badges)
    ensures b.percentOff.Some? <==> p.originalPrice.Some? && p.originalPrice.value != 0
    ensures b.percentOff.Some? ==>
      var o := p.originalPrice.value;
      2 * o * b.percentOff.value - o <= 200 * (o - p.price) < 2 * o * b.percentOff.value + o
    ensures b.isNew <==> p.newArrival
  {
    var off := match p.originalPrice
      case Some(o) => if o != 0 then Some(PercentOff(o, p.price)) else None
      case None => None;
    Badges(off, p.newArrival)
  }

  /** The two discounted catalog products show 31% and 29% off; the others show none. */
  lemma CatalogBadges()
    ensures CardBadges(Catalog[0]).percentOff == Some(31)
    ensures CardBadges(Catalog[1]).percentOff == Some(29)
    ensures forall i | 2 <= i < |Catalog| :: CardBadges(Catalog[i]).percentOff.None?
  {
  }

  /** The five stars: star i is filled when i < floor(rating); the rating is in tenths. */
  function StarRow(rating: nat): (stars: seq<bool>)
    ensures |stars| == 5
    ensures forall i | 0 <= i < 5 :: stars[i] <==> i < rating / 10
  {
    seq(5, i => i < rating / 10)
  }

  /** The number of filled stars in a row: a plain counting helper; what it counts in a
      star row is stated by `FilledPrefix` and `FilledStars`. */
  function FilledCount(stars: seq<bool>): (n: nat)
    ensures n <= |stars|
  {
    if stars == [] then 0 else FilledCount(stars[..|stars| - 1]) + (if stars[|stars| - 1] then 1 else 0)
  }

  lemma {:induction false} FilledPrefix(stars: seq<bool>, k: nat)
    requires forall i | 0 <= i < |stars| :: stars[i] <==> i < k
    ensures FilledCount(stars) == if k < |stars| then k else |stars|
  {
    if stars != [] {
      FilledPrefix(stars[..|stars| - 1], k);
    }
  }

  /** The row shows min(5, floor(rating)) filled stars. */
  lemma FilledStars(rating: nat)
    ensures FilledCount(StarRow(rating)) == if rating / 10 < 5 then rating / 10 else 5
  {
    FilledPrefix(StarRow(rating), rating / 10);
  }
}
