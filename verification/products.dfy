/** The static catalog and its lookup helpers (src/data/products.ts). */
module Products {
  import opened Wrappers
  import opened Sequences

  datatype Category = TShirts | Shirts | Hoodies

  /** The string a category is stored and routed under. */
  function CategoryId(c: Category): string
  {
    match c
    case TShirts => "t-shirts"
    case Shirts => "shirts"
    case Hoodies => "hoodies"
  }

  /** A catalog entry. Prices are whole rupees; `rating` is in tenths of a star
      (4.8 is 48), so that `Math.floor(rating)` is `rating / 10`. */
  datatype Product = Product(
    id: string,
    name: string,
    category: Category,
    price: nat,
    originalPrice: Option<nat>,
    images: seq<string>,
    sizes: seq<string>,
    colors: seq<string>,
    featured: bool,
    bestSeller: bool,
    newArrival: bool,
    rating: nat,
    reviewCount: nat,
    inStock: bool)

  const BlackTeeImage := "https://images.pexels.com/photos/1040945/pexels-photo-1040945.jpeg"
  const ShirtImage := "https://images.pexels.com/photos/769749/pexels-photo-769749.jpeg"
  const HoodieImage := "https://images.pexels.com/photos/1183266/pexels-photo-1183266.jpeg"

  /** The `products` array, in declaration order. */
  const Catalog: seq<Product> := [
    Product("1", "Essential Black Tee", TShirts, 899, Some(1299), [BlackTeeImage, ShirtImage],
      ["XS", "S", "M", "L", "XL", "XXL"], ["Black", "White", "Gray"],
      true, true, false, 48, 124, true),
    Product("2", "Urban Streetwear Hoodie", Hoodies, 2499, Some(3499), [HoodieImage, BlackTeeImage],
      ["S", "M", "L", "XL", "XXL"], ["Black", "Gray", "Navy", "White"],
      true, false, true, 49, 89, true),
    Product("3", "Classic White Shirt", Shirts, 1899, None, [ShirtImage, BlackTeeImage],
      ["S", "M", "L", "XL", "XXL"], ["White", "Light Blue", "Black"],
      false, true, false, 47, 67, true),
    Product("4", "Graphic Print Tee", TShirts, 1199, None, [BlackTeeImage, ShirtImage],
      ["XS", "S", "M", "L", "XL"], ["Black", "White", "Navy"],
      false, false, true, 46, 45, true),
    Product("5", "Minimalist Zip Hoodie", Hoodies, 2799, None, [HoodieImage, BlackTeeImage],
      ["S", "M", "L", "XL"], ["Gray", "Black", "Navy"],
      true, false, true, 48, 72, true),
    Product("6", "Premium Polo Shirt", Shirts, 1599, None, [ShirtImage, BlackTeeImage],
      ["S", "M", "L", "XL", "XXL"], ["Navy", "White", "Gray", "Black"],
      false, true, false, 45, 98, true),
    Product("7", "Oversized Vintage Tee", TShirts, 1399, None, [BlackTeeImage, ShirtImage],
      ["S", "M", "L", "XL"], ["Vintage Black", "Vintage White", "Vintage Gray"],
      false, false, true, 44, 34, true),
    Product("8", "Fleece Pullover Hoodie", Hoodies, 2199, None, [HoodieImage, BlackTeeImage],
      ["S", "M", "L", "XL", "XXL"], ["Charcoal", "Navy", "Forest Green"],
      false, true, false, 47, 156, true)
  ]

  /** `Array.prototype.find` by id: the first product whose id is `id`, or `None` (`undefined`). */
  function FindById(s: seq<Product>, id: string): (r: Option<Product>)
    ensures r.None? <==> forall k :: 0 <= k < |s| ==> s[k].id != id
    ensures r.Some? ==> exists k :: 0 <= k < |s| && s[k] == r.value && r.value.id == id
                                    && forall j :: 0 <= j < k ==> s[j].id != id
  {
    if s == [] then None
    else if s[0].id == id then Some(s[0])
    else
      var r := FindById(s[1..], id);
      if r.Some? then
        var k :| 0 <= k < |s[1..]| && s[1..][k] == r.value && r.value.id == id
                 && forall j :: 0 <= j < k ==> s[1..][j].id != id;
        assert s[k + 1] == r.value;
        r
      else r
  }

  function GetProductById(id: string): (r: Option<Product>)
    ensures r.None? <==> forall p :: p in Catalog ==> p.id != id
    ensures r.Some? ==> r.value in Catalog && r.value.id == id
  {
    FindById(Catalog, id)
  }

  /** The four catalog listings and the test each applies to a product. */
  datatype Listing = ByCategory(category: string) | FeaturedOnly | BestSellersOnly | NewArrivalsOnly

  function Selects(l: Listing): Product -> bool
  {
    match l
    case ByCategory(category) => (p: Product) => CategoryId(p.category) == category
    case FeaturedOnly => (p: Product) => p.featured
    case BestSellersOnly => (p: Product) => p.bestSeller
    case NewArrivalsOnly => (p: Product) => p.newArrival
  }

  function GetProductsByCategory(category: string): (r: seq<Product>)
    ensures forall p :: p in r <==> p in Catalog && CategoryId(p.category) == category
    ensures forall p | p in Catalog :: multiset(r)[p] == if CategoryId(p.category) == category then multiset(Catalog)[p] else 0
  {
    var selected := Selects(ByCategory(category));
    assert forall p :: selected(p) == (CategoryId(p.category) == category);
    FilterMultiset(Catalog, selected);
    Filter(Catalog, selected)
  }

  function GetFeaturedProducts(): (r: seq<Product>)
    ensures forall p :: p in r <==> p in Catalog && p.featured
    ensures forall p | p in Catalog :: multiset(r)[p] == if p.featured then multiset(Catalog)[p] else 0
  {
    var selected := Selects(FeaturedOnly);
    assert forall p :: selected(p) == p.featured;
    FilterMultiset(Catalog, selected);
    Filter(Catalog, selected)
  }

  function GetBestSellers(): (r: seq<Product>)
    ensures forall p :: p in r <==> p in Catalog && p.bestSeller
    ensures forall p | p in Catalog :: multiset(r)[p] == if p.bestSeller then multiset(Catalog)[p] else 0
  {
    var selected := Selects(BestSellersOnly);
    assert forall p :: selected(p) == p.bestSeller;
    FilterMultiset(Catalog, selected);
    Filter(Catalog, selected)
  }

  function GetNewArrivals(): (r: seq<Product>)
    ensures forall p :: p in r <==> p in Catalog && p.newArrival
    ensures forall p | p in Catalog :: multiset(r)[p] == if p.newArrival then multiset(Catalog)[p] else 0
  {
    var selected := Selects(NewArrivalsOnly);
    assert forall p :: selected(p) == p.newArrival;
    FilterMultiset(Catalog, selected);
    Filter(Catalog, selected)
  }

  /** The listing a helper returns. */
  function Listed(l: Listing): seq<Product>
  {
    match l
    case ByCategory(category) => GetProductsByCategory(category)
    case FeaturedOnly => GetFeaturedProducts()
    case BestSellersOnly => GetBestSellers()
    case NewArrivalsOnly => GetNewArrivals()
  }

  /** Every listing is in catalog order: of two selected products, the one earlier in the
      catalog is listed at an earlier position (its rank among the selected ones). */
  lemma ListingKeepsCatalogOrder(l: Listing, i: int, j: int)
    requires 0 <= i < j < |Catalog| && Selects(l)(Catalog[i]) && Selects(l)(Catalog[j])
    ensures var r, a, b := Listed(l), Rank(Catalog, Selects(l), i), Rank(Catalog, Selects(l), j);
      a < b < |r| && r[a] == Catalog[i] && r[b] == Catalog[j]
  {
    assert Listed(l) == Filter(Catalog, Selects(l));
    FilterAtRank(Catalog, Selects(l), i);
    FilterAtRank(Catalog, Selects(l), j);
    FilterKeepsOrder(Catalog, Selects(l), i, j);
  }

  /** No two catalog entries share an id. */
  lemma CatalogIdsDistinct()
    ensures forall i, j :: 0 <= i < j < |Catalog| ==> Catalog[i].id != Catalog[j].id
  {
  }

  /** Every entry has an image, a size and a colour to index `[0]` on. */
  lemma CatalogOptionsNonEmpty()
    ensures forall p :: p in Catalog ==> |p.images| > 0 && |p.sizes| > 0 && |p.colors| > 0
  {
  }

  /** Where an original price is given, it is above the selling price. */
  lemma CatalogDiscountsGenuine()
    ensures forall p :: p in Catalog && p.originalPrice.Some? ==> p.originalPrice.value > p.price
  {
    forall i | 0 <= i < |Catalog| && Catalog[i].originalPrice.Some?
      ensures Catalog[i].originalPrice.value > Catalog[i].price
    {
    }
  }

  /** Every catalog price is at most `bound` when `bound` is at least 2799. */
  lemma CatalogPricesAtMost(bound: int)
    requires bound >= 2799
    ensures forall p :: p in Catalog ==> p.price <= bound
  {
  }

  /** Because ids are distinct, looking a catalog product up by its own id finds that product. */
  lemma LookupFindsOwnEntry(p: Product)
    requires p in Catalog
    ensures GetProductById(p.id) == Some(p)
  {
    CatalogIdsDistinct();
    var r := GetProductById(p.id);
    var k :| 0 <= k < |Catalog| && Catalog[k] == r.value && r.value.id == p.id
             && forall j :: 0 <= j < k ==> Catalog[j].id != p.id;
    var i :| 0 <= i < |Catalog| && Catalog[i] == p;
    assert i == k;
  }

  /** A route category outside the enumeration lists nothing. */
  lemma UnknownCategoryIsEmpty(category: string)
    requires forall c: Category :: CategoryId(c) != category
    ensures GetProductsByCategory(category) == []
  {
    FilterNone(Catalog, Selects(ByCategory(category)));
  }
}
