/** The shop listing (src/pages/ShopPage.tsx): the filter state, its transitions,
    and the pipeline that filters the catalog and sorts what is left. */
module Shop {
  import opened Wrappers
  import opened Sequences
  import opened StableSort
  import opened Products

  /** `filterBy`: the price range `[priceMin, priceMax]`, the selected sizes and colours
      (in the order they were clicked) and the in-stock-only box. */
  datatype FilterState = FilterState(
    priceMin: int,
    priceMax: int,
    sizes: seq<string>,
    colors: seq<string>,
    inStock: bool)

  const DefaultMinPrice := 0
  const DefaultMaxPrice := 5000

  /** The state the page starts in, and the one "Clear All" returns to. */
  const InitialFilter := FilterState(DefaultMinPrice, DefaultMaxPrice, [], [], false)

  datatype SortKey = Featured | Newest | PriceLow | PriceHigh | Name | Rating

  /** The `switch (sortBy)`: any value it does not list takes the `default` branch. */
  function SortKeyOf(value: string): (key: SortKey)
    ensures key == Featured <==> value !in ["newest", "price-low", "price-high", "name", "rating"]
    ensures key == Newest <==> value == "newest"
    ensures key == PriceLow <==> value == "price-low"
    ensures key == PriceHigh <==> value == "price-high"
    ensures key == Name <==> value == "name"
    ensures key == Rating <==> value == "rating"
  {
    match value
    case "newest" => Newest
    case "price-low" => PriceLow
    case "price-high" => PriceHigh
    case "name" => Name
    case "rating" => Rating
    case _ => Featured
  }

  // ---------------------------------------------------------------------------
  // The five filters

  /** The route parameter `category`; an absent or empty one does not filter. */
  predicate InRoute(category: Option<string>, p: Product)
  {
    category.None? || category.value == "" || CategoryId(p.category) == category.value
  }

  predicate InPriceRange(f: FilterState, p: Product)
  {
    f.priceMin <= p.price <= f.priceMax
  }

  /** `offered.some(x => selected.includes(x))`. */
  predicate SharesAny(offered: seq<string>, selected: seq<string>)
  {
    exists x :: x in offered && x in selected
  }

  predicate SizeMatches(f: FilterState, p: Product)
  {
    |f.sizes| == 0 || SharesAny(p.sizes, f.sizes)
  }

  predicate ColorMatches(f: FilterState, p: Product)
  {
    |f.colors| == 0 || SharesAny(p.colors, f.colors)
  }

  predicate StockMatches(f: FilterState, p: Product)
  {
    !f.inStock || p.inStock
  }

  /** A product is listed exactly when it passes all five filters. */
  predicate Passes(category: Option<string>, f: FilterState, p: Product)
  {
    && InRoute(category, p)
    && InPriceRange(f, p)
    && SizeMatches(f, p)
    && ColorMatches(f, p)
    && StockMatches(f, p)
  }

  /** `Passes` as the predicate handed to `Filter`. */
  function PassesAll(category: Option<string>, f: FilterState): Product -> bool
  {
    (p: Product) => Passes(category, f, p)
  }

  // ---------------------------------------------------------------------------
  // The six comparators

  /** The comparator of the `default` branch, literally. */
  function FeaturedCompare(a: Product, b: Product): (r: int)
    ensures -1 <= r <= 1
    ensures r < 0 <==> FeaturedRank(a) < FeaturedRank(b)
    ensures r == 0 <==> FeaturedRank(a) == FeaturedRank(b)
  {
    if a.featured && !b.featured then -1
    else if !a.featured && b.featured then 1
    else if a.bestSeller && !b.bestSeller then -1
    else if !a.bestSeller && b.bestSeller then 1
    else 0
  }

  function Flag(b: bool): int { if b then 1 else 0 }

  /** The comparator passed to `filtered.sort` for each key; `localeCompare` stands for
      `String.prototype.localeCompare`, whose result depends on locale data. */
  function Compare(key: SortKey, localeCompare: (string, string) -> int, a: Product, b: Product): (r: int)
    ensures key == PriceLow ==> (r <= 0 <==> a.price <= b.price)
    ensures key == PriceHigh ==> (r <= 0 <==> a.price >= b.price)
    ensures key == Rating ==> (r <= 0 <==> a.rating >= b.rating)
    ensures key == Newest ==> (r <= 0 <==> (b.newArrival ==> a.newArrival))
    ensures key == Featured ==> (r <= 0 <==> FeaturedRank(a) <= FeaturedRank(b))
    ensures key == Name ==> r == localeCompare(a.name, b.name)
  {
    match key
    case PriceLow => a.price - b.price
    case PriceHigh => b.price - a.price
    case Name => localeCompare(a.name, b.name)
    case Rating => b.rating - a.rating
    case Newest => Flag(b.newArrival) - Flag(a.newArrival)
    case Featured => FeaturedCompare(a, b)
  }

  /** "`a` may stay in front of `b`": the comparator does not return a positive number. */
  function Precedes(key: SortKey, localeCompare: (string, string) -> int): (Product, Product) -> bool
  {
    (a: Product, b: Product) => Compare(key, localeCompare, a, b) <= 0
  }

  /** What `localeCompare` must be for the name order to be a sort order at all. */
  ghost predicate ConsistentComparator(cmp: (string, string) -> int)
  {
    TotalPreorder((x: string, y: string) => cmp(x, y) <= 0)
  }

  /** The two-tier rank behind the featured order: featured best sellers (0),
      featured only (1), best sellers only (2), neither (3). */
  function FeaturedRank(p: Product): nat
  {
    (if p.featured then 0 else 2) + (if p.bestSeller then 0 else 1)
  }

  function Sign(n: int): int { if n < 0 then -1 else if n > 0 then 1 else 0 }

  /** The branching comparator is the sign of the rank difference, hence consistent. */
  lemma FeaturedCompareIsRankOrder(a: Product, b: Product)
    ensures FeaturedCompare(a, b) == Sign(FeaturedRank(a) - FeaturedRank(b))
  {
  }

  /** The name order is `localeCompare` on names, so it inherits a consistent one's laws. */
  lemma NameOrderIsTotalPreorder(localeCompare: (string, string) -> int)
    requires ConsistentComparator(localeCompare)
    ensures TotalPreorder(Precedes(Name, localeCompare))
  {
    var le := Precedes(Name, localeCompare);
    var nameLe := (x: string, y: string) => localeCompare(x, y) <= 0;
    forall a: Product, b: Product ensures le(a, b) == nameLe(a.name, b.name) {
    }
  }

  /** The featured order compares ranks, so it is a total preorder. */
  lemma FeaturedOrderIsTotalPreorder(localeCompare: (string, string) -> int)
    ensures TotalPreorder(Precedes(Featured, localeCompare))
  {
    var le := Precedes(Featured, localeCompare);
    forall a: Product, b: Product ensures le(a, b) == (FeaturedRank(a) <= FeaturedRank(b)) {
      FeaturedCompareIsRankOrder(a, b);
    }
  }

  lemma PrecedesIsTotalPreorder(key: SortKey, localeCompare: (string, string) -> int)
    requires key == Name ==> ConsistentComparator(localeCompare)
    ensures TotalPreorder(Precedes(key, localeCompare))
  {
    if key == Name {
      NameOrderIsTotalPreorder(localeCompare);
    } else if key == Featured {
      FeaturedOrderIsTotalPreorder(localeCompare);
    }
  }

  // ---------------------------------------------------------------------------
  // The pipeline

  /** What the page lists: the catalog products passing every filter, in catalog
      order, stably sorted by the comparator of `sortBy`. */
  ghost function ShopView(catalog: seq<Product>, category: Option<string>, f: FilterState,
                          sortBy: string, localeCompare: (string, string) -> int): (r: seq<Product>)
    ensures multiset(r) == multiset(Filter(catalog, PassesAll(category, f)))
  {
    var passing := Filter(catalog, PassesAll(category, f));
    InsertionSortPermutes(Precedes(SortKeyOf(sortBy), localeCompare), passing);
    InsertionSort(Precedes(SortKeyOf(sortBy), localeCompare), passing)
  }

  /** `filteredAndSortedProducts`: copy the catalog, narrow the copy filter by filter,
      then sort it in place. The catalog array itself is only read. */
  method FilteredAndSortedProducts(products: array<Product>, category: Option<string>, filterBy: FilterState,
                                   sortBy: string, localeCompare: (string, string) -> int)
    returns (r: seq<Product>)
    ensures r == ShopView(products[..], category, filterBy, sortBy, localeCompare)
    ensures forall p | p in r :: p in products[..] && Passes(category, filterBy, p)
    ensures multiset(r) == multiset(Filter(products[..], PassesAll(category, filterBy)))
  {
    var filtered := ApplyFilters(products[..], category, filterBy);
    r := SortedCopy(filtered, Precedes(SortKeyOf(sortBy), localeCompare));
    ShopViewSelects(products[..], category, filterBy, sortBy, localeCompare);
  }

  /** The five filters, applied one after another to the copy `all`; the size, colour
      and stock filters are skipped when nothing is selected. */
  method ApplyFilters(all: seq<Product>, category: Option<string>, filterBy: FilterState)
    returns (filtered: seq<Product>)
    ensures filtered == Filter(all, PassesAll(category, filterBy))
  {
    filtered := all;
    if category.Some? && category.value != "" {
      filtered := Filter(filtered, Selects(ByCategory(category.value)));
    }
    RouteStage(all, category, filterBy);

    filtered := Filter(filtered, InRange(filterBy));
    PriceStage(all, category, filterBy);

    if |filterBy.sizes| > 0 {
      filtered := Filter(filtered, HasSize(filterBy));
    }
    SizeStage(all, category, filterBy);

    if |filterBy.colors| > 0 {
      filtered := Filter(filtered, HasColor(filterBy));
    }
    ColorStage(all, category, filterBy);

    if filterBy.inStock {
      filtered := Filter(filtered, Stocked());
    }
    StockStage(all, category, filterBy);
  }

  /** The filters the pipeline has applied after `n` of its five steps. */
  predicate PassesUpTo(n: nat, category: Option<string>, f: FilterState, p: Product)
  {
    && InRoute(category, p)
    && (n >= 2 ==> InPriceRange(f, p))
    && (n >= 3 ==> SizeMatches(f, p))
    && (n >= 4 ==> ColorMatches(f, p))
    && (n >= 5 ==> StockMatches(f, p))
  }

  function Stage(n: nat, category: Option<string>, f: FilterState): Product -> bool
  {
    (p: Product) => PassesUpTo(n, category, f, p)
  }

  /** The tests of the page's later `filter` calls, as function values. The route test is
      `Selects(ByCategory(c))` from the catalog module, and the price test is `InPriceRange`. */
  function InRange(f: FilterState): Product -> bool
  {
    (p: Product) => InPriceRange(f, p)
  }

  function HasSize(f: FilterState): Product -> bool
  {
    (p: Product) => SharesAny(p.sizes, f.sizes)
  }

  function HasColor(f: FilterState): Product -> bool
  {
    (p: Product) => SharesAny(p.colors, f.colors)
  }

  function Stocked(): Product -> bool
  {
    (p: Product) => p.inStock
  }

  /** The route step keeps the products of the route category, or all of them. */
  lemma RouteStage(all: seq<Product>, category: Option<string>, f: FilterState)
    ensures category.Some? && category.value != "" ==>
      Filter(all, Selects(ByCategory(category.value))) == Filter(all, Stage(1, category, f))
    ensures category.None? || category.value == "" ==> all == Filter(all, Stage(1, category, f))
  {
    if category.Some? && category.value != "" {
      FilterCongruent(all, Selects(ByCategory(category.value)), Stage(1, category, f));
    } else {
      FilterAll(all, Stage(1, category, f));
    }
  }

  /** Each later step narrows the previous stage by its own test, or skips. */
  lemma PriceStage(all: seq<Product>, category: Option<string>, f: FilterState)
    ensures Filter(Filter(all, Stage(1, category, f)), InRange(f)) == Filter(all, Stage(2, category, f))
  {
    FilterFuse(all, Stage(1, category, f), InRange(f), Stage(2, category, f));
  }

  lemma SizeStage(all: seq<Product>, category: Option<string>, f: FilterState)
    ensures |f.sizes| > 0 ==>
      Filter(Filter(all, Stage(2, category, f)), HasSize(f)) == Filter(all, Stage(3, category, f))
    ensures |f.sizes| == 0 ==> Filter(all, Stage(2, category, f)) == Filter(all, Stage(3, category, f))
  {
    if |f.sizes| > 0 {
      FilterFuse(all, Stage(2, category, f), HasSize(f), Stage(3, category, f));
    } else {
      FilterCongruent(all, Stage(2, category, f), Stage(3, category, f));
    }
  }

  lemma ColorStage(all: seq<Product>, category: Option<string>, f: FilterState)
    ensures |f.colors| > 0 ==>
      Filter(Filter(all, Stage(3, category, f)), HasColor(f)) == Filter(all, Stage(4, category, f))
    ensures |f.colors| == 0 ==> Filter(all, Stage(3, category, f)) == Filter(all, Stage(4, category, f))
  {
    if |f.colors| > 0 {
      FilterFuse(all, Stage(3, category, f), HasColor(f), Stage(4, category, f));
    } else {
      FilterCongruent(all, Stage(3, category, f), Stage(4, category, f));
    }
  }

  /** The last stage is the whole conjunction `Passes`. */
  lemma StockStage(all: seq<Product>, category: Option<string>, f: FilterState)
    ensures f.inStock ==>
      Filter(Filter(all, Stage(4, category, f)), Stocked()) == Filter(all, PassesAll(category, f))
    ensures !f.inStock ==> Filter(all, Stage(4, category, f)) == Filter(all, PassesAll(category, f))
  {
    if f.inStock {
      FilterFuse(all, Stage(4, category, f), Stocked(), PassesAll(category, f));
    } else {
      FilterCongruent(all, Stage(4, category, f), PassesAll(category, f));
    }
  }

  /** `filtered.sort(cmp)` on the local array the filters produced. */
  method SortedCopy(filtered: seq<Product>, le: (Product, Product) -> bool) returns (r: seq<Product>)
    ensures r == InsertionSort(le, filtered)
  {
    var a := new Product[|filtered|](i requires 0 <= i < |filtered| => filtered[i]);
    assert forall i | 0 <= i < a.Length :: a[i] == filtered[i];
    assert a[..] == filtered;
    SortInPlace(a, le);
    r := a[..];
  }

  /** The listing is a permutation of the catalog products that pass: each one that
      passes appears exactly as often as in the catalog, and nothing else appears. */
  lemma ShopViewSelects(catalog: seq<Product>, category: Option<string>, f: FilterState,
                        sortBy: string, localeCompare: (string, string) -> int)
    ensures var r := ShopView(catalog, category, f, sortBy, localeCompare);
      && multiset(r) == multiset(Filter(catalog, PassesAll(category, f)))
      && (forall p | p in r :: p in catalog && Passes(category, f, p))
      && (forall p | p in catalog && Passes(category, f, p) :: multiset(r)[p] == multiset(catalog)[p])
  {
    var passes := PassesAll(category, f);
    FilterMultiset(catalog, passes);
    InsertionSortPermutes(Precedes(SortKeyOf(sortBy), localeCompare), Filter(catalog, passes));
    var r := ShopView(catalog, category, f, sortBy, localeCompare);
    forall p | p in r ensures p in catalog && Passes(category, f, p) {
      assert p in multiset(r);
    }
  }

  /** The listing is ordered by the active comparator; spelled out per key. */
  lemma ShopViewOrdered(catalog: seq<Product>, category: Option<string>, f: FilterState,
                        sortBy: string, localeCompare: (string, string) -> int)
    requires SortKeyOf(sortBy) == Name ==> ConsistentComparator(localeCompare)
    ensures var r := ShopView(catalog, category, f, sortBy, localeCompare);
      && Sorted(Precedes(SortKeyOf(sortBy), localeCompare), r)
      && (SortKeyOf(sortBy) == PriceLow ==> forall i, j :: 0 <= i < j < |r| ==> r[i].price <= r[j].price)
      && (SortKeyOf(sortBy) == PriceHigh ==> forall i, j :: 0 <= i < j < |r| ==> r[i].price >= r[j].price)
      && (SortKeyOf(sortBy) == Rating ==> forall i, j :: 0 <= i < j < |r| ==> r[i].rating >= r[j].rating)
      && (SortKeyOf(sortBy) == Name ==> forall i, j :: 0 <= i < j < |r| ==> localeCompare(r[i].name, r[j].name) <= 0)
      && (SortKeyOf(sortBy) == Newest ==> forall i, j :: 0 <= i < j < |r| && r[j].newArrival ==> r[i].newArrival)
      && (SortKeyOf(sortBy) == Featured ==> forall i, j :: 0 <= i < j < |r| ==>
            (r[j].featured ==> r[i].featured) &&
            (r[i].featured == r[j].featured && r[j].bestSeller ==> r[i].bestSeller))
  {
    var key := SortKeyOf(sortBy);
    var le := Precedes(key, localeCompare);
    PrecedesIsTotalPreorder(key, localeCompare);
    var r := ShopView(catalog, category, f, sortBy, localeCompare);
    InsertionSortSorted(le, Filter(catalog, PassesAll(category, f)));
    if key == Featured {
      forall i, j | 0 <= i < j < |r|
        ensures (r[j].featured ==> r[i].featured)
        ensures (r[i].featured == r[j].featured && r[j].bestSeller ==> r[i].bestSeller)
      {
        assert le(r[i], r[j]);
        FeaturedCompareIsRankOrder(r[i], r[j]);
      }
    }
  }

  /** Stability: the listed products that tie with any `e` under the active comparator
      appear in catalog order. */
  lemma ShopViewStable(catalog: seq<Product>, category: Option<string>, f: FilterState,
                       sortBy: string, localeCompare: (string, string) -> int, e: Product)
    requires SortKeyOf(sortBy) == Name ==> ConsistentComparator(localeCompare)
    ensures var le := Precedes(SortKeyOf(sortBy), localeCompare);
      Filter(ShopView(catalog, category, f, sortBy, localeCompare), TiedWith(le, e))
        == Filter(catalog, (p: Product) => Passes(category, f, p) && TiedWith(le, e)(p))
  {
    var le := Precedes(SortKeyOf(sortBy), localeCompare);
    var passes := PassesAll(category, f);
    PrecedesIsTotalPreorder(SortKeyOf(sortBy), localeCompare);
    InsertionSortStable(le, Filter(catalog, passes), e);
    FilterFuse(catalog, passes, TiedWith(le, e), (p: Product) => Passes(category, f, p) && TiedWith(le, e)(p));
  }

  function Sample(id: string, price: nat, featured: bool, bestSeller: bool): Product
  {
    Product(id, id, TShirts, price, None, [], [], [], featured, bestSeller, false, 40, 0, true)
  }

  /** Featured-only A, best-seller-only B and featured best seller C, listed as
      [A, B, C], come out as [C, A, B]. */
  lemma FeaturedOrderExample(localeCompare: (string, string) -> int)
    ensures var a, b, c := Sample("A", 100, true, false), Sample("B", 100, false, true), Sample("C", 100, true, true);
      InsertionSort(Precedes(Featured, localeCompare), [a, b, c]) == [c, a, b]
  {
    var a, b, c := Sample("A", 100, true, false), Sample("B", 100, false, true), Sample("C", 100, true, true);
    var le := Precedes(Featured, localeCompare);
    assert [a, b, c][..2] == [a, b] && [a, b][..1] == [a] && [a][..0] == [];
    assert le(a, b) && !le(b, c) && !le(a, c);
    assert InsertionSort(le, [a]) == [a];
    assert InsertionSort(le, [a, b]) == [a, b];
    assert [a, b][..1] == [a];
    assert Insert(le, [a], c) == [c, a] by {
      assert Insert(le, [], c) == [c];
    }
    assert Insert(le, [a, b], c) == Insert(le, [a], c) + [b];
  }

  /** Prices 899, 2499, 1899, 1199 in the range [1000, 2500], cheapest first:
      1199, 1899, 2499. */
  lemma PriceRangeExample(localeCompare: (string, string) -> int)
    ensures var w, x, y, z := Sample("1", 899, false, false), Sample("2", 2499, false, false),
                              Sample("3", 1899, false, false), Sample("4", 1199, false, false);
      ShopView([w, x, y, z], None, ExampleBand, "price-low", localeCompare)
        == [z, y, x]
  {
    var w, x, y, z := Sample("1", 899, false, false), Sample("2", 2499, false, false),
                      Sample("3", 1899, false, false), Sample("4", 1199, false, false);
    PriceRangeExampleFilter(w, x, y, z);
    PriceRangeExampleSort(x, y, z, localeCompare);
  }

  /** The price band of the example, with nothing else selected. */
  const ExampleBand := FilterState(1000, 2500, [], [], false)

  lemma PriceRangeExampleFilter(w: Product, x: Product, y: Product, z: Product)
    requires w.price == 899 && x.price == 2499 && y.price == 1899 && z.price == 1199
    ensures Filter([w, x, y, z], PassesAll(None, ExampleBand)) == [x, y, z]
  {
    var passes := PassesAll(None, ExampleBand);
    assert !passes(w) && passes(x) && passes(y) && passes(z);
    assert [w, x, y, z][1..] == [x, y, z];
    FilterAll([x, y, z], passes);
  }

  lemma PriceRangeExampleSort(x: Product, y: Product, z: Product, localeCompare: (string, string) -> int)
    requires x.price == 2499 && y.price == 1899 && z.price == 1199
    ensures InsertionSort(Precedes(SortKeyOf("price-low"), localeCompare), [x, y, z]) == [z, y, x]
  {
    assert SortKeyOf("price-low") == PriceLow;
    var le := Precedes(PriceLow, localeCompare);
    assert !le(x, y) && !le(y, z) && !le(x, z);
    InsertionSortReverses(le, x, y, z);
  }

  lemma InsertionSortReverses<T>(le: (T, T) -> bool, x: T, y: T, z: T)
    requires !le(x, y) && !le(y, z) && !le(x, z)
    ensures InsertionSort(le, [x, y, z]) == [z, y, x]
  {
    assert [x][..0] == [] && [x, y][..1] == [x] && [x, y, z][..2] == [x, y];
    assert [y, x][..1] == [y] && [y][..0] == [];
    calc {
      InsertionSort(le, [x, y, z]);
      Insert(le, InsertionSort(le, [x, y]), z);
      { assert InsertionSort(le, [x, y]) == Insert(le, InsertionSort(le, [x]), y);
        assert InsertionSort(le, [x]) == Insert(le, [], x) == [x];
        assert Insert(le, [x], y) == Insert(le, [], y) + [x]; }
      Insert(le, [y, x], z);
      Insert(le, [y], z) + [x];
      Insert(le, [], z) + [y] + [x];
    }
  }

  /** Filtering is idempotent: running the five filters over a listing they produced
      changes nothing. */
  lemma FilteringTwiceChangesNothing(catalog: seq<Product>, category: Option<string>, f: FilterState)
    ensures Filter(Filter(catalog, PassesAll(category, f)), PassesAll(category, f))
         == Filter(catalog, PassesAll(category, f))
  {
    FilterIdempotent(catalog, PassesAll(category, f));
  }

  /** An inverted price range lists nothing. */
  lemma InvertedRangeListsNothing(catalog: seq<Product>, category: Option<string>, f: FilterState,
                                  sortBy: string, localeCompare: (string, string) -> int)
    requires f.priceMin > f.priceMax
    ensures ShopView(catalog, category, f, sortBy, localeCompare) == []
  {
    FilterNone(catalog, PassesAll(category, f));
  }

  /** Empty size and colour selections do not narrow the listing. */
  lemma EmptySelectionsDoNotFilter(catalog: seq<Product>, category: Option<string>, f: FilterState,
                                   sortBy: string, localeCompare: (string, string) -> int)
    requires f.sizes == [] && f.colors == []
    ensures ShopView(catalog, category, f, sortBy, localeCompare)
         == InsertionSort(Precedes(SortKeyOf(sortBy), localeCompare),
                          Filter(catalog, (p: Product) => InRoute(category, p) && InPriceRange(f, p) && StockMatches(f, p)))
  {
    FilterCongruent(catalog, PassesAll(category, f),
                    (p: Product) => InRoute(category, p) && InPriceRange(f, p) && StockMatches(f, p));
  }

  /** After "Clear All" the shipped catalog is narrowed by the route category only. */
  lemma ClearedFilterListsWholeCategory(category: string, sortBy: string, localeCompare: (string, string) -> int)
    requires category != ""
    ensures multiset(ShopView(Catalog, Some(category), InitialFilter, sortBy, localeCompare))
         == multiset(GetProductsByCategory(category))
  {
    CatalogPricesAtMost(DefaultMaxPrice);
    FilterCongruent(Catalog, PassesAll(Some(category), InitialFilter),
                    (p: Product) => CategoryId(p.category) == category);
    InsertionSortPermutes(Precedes(SortKeyOf(sortBy), localeCompare), GetProductsByCategory(category));
  }

  // ---------------------------------------------------------------------------
  // Filter-state transitions

  /** `includes(x) ? filter(s => s !== x) : [...xs, x]`. */
  function Toggle(xs: seq<string>, x: string): (r: seq<string>)
    ensures x in r <==> x !in xs
    ensures forall y :: y != x ==> (y in r <==> y in xs)
  {
    if x in xs then
      FilterMultiset(xs, (s: string) => s != x);
      Filter(xs, (s: string) => s != x)
    else xs + [x]
  }

  /** Toggling a value that was not selected, twice, restores the exact list. */
  lemma ToggleTwiceRestores(xs: seq<string>, x: string)
    requires x !in xs
    ensures Toggle(Toggle(xs, x), x) == xs
  {
    var other := (s: string) => s != x;
    FilterConcat(xs, [x], other);
    FilterAll(xs, other);
  }

  ghost predicate NoRepeats(xs: seq<string>)
  {
    forall y | y in xs :: multiset(xs)[y] == 1
  }

  /** Starting from no selection, toggling never selects a value twice. */
  lemma ToggleKeepsNoRepeats(xs: seq<string>, x: string)
    requires NoRepeats(xs)
    ensures NoRepeats(Toggle(xs, x))
  {
    if x in xs {
      FilterMultiset(xs, (s: string) => s != x);
    } else {
      assert multiset(xs + [x]) == multiset(xs) + multiset{x};
    }
  }

  function HandleSizeFilter(f: FilterState, size: string): (r: FilterState)
    ensures r.priceMin == f.priceMin && r.priceMax == f.priceMax
    ensures r.colors == f.colors && r.inStock == f.inStock
    ensures size in r.sizes <==> size !in f.sizes
    ensures forall y :: y != size ==> (y in r.sizes <==> y in f.sizes)
  {
    f.(sizes := Toggle(f.sizes, size))
  }

  function HandleColorFilter(f: FilterState, color: string): (r: FilterState)
    ensures r.priceMin == f.priceMin && r.priceMax == f.priceMax
    ensures r.sizes == f.sizes && r.inStock == f.inStock
    ensures color in r.colors <==> color !in f.colors
    ensures forall y :: y != color ==> (y in r.colors <==> y in f.colors)
  {
    f.(colors := Toggle(f.colors, color))
  }

  /** Any state the page reaches by clicks holds no repeated size or colour. */
  lemma HandlersKeepNoRepeats(f: FilterState, value: string)
    requires NoRepeats(f.sizes) && NoRepeats(f.colors)
    ensures NoRepeats(HandleSizeFilter(f, value).sizes) && NoRepeats(HandleSizeFilter(f, value).colors)
    ensures NoRepeats(HandleColorFilter(f, value).sizes) && NoRepeats(HandleColorFilter(f, value).colors)
  {
    ToggleKeepsNoRepeats(f.sizes, value);
    ToggleKeepsNoRepeats(f.colors, value);
  }

  function ClearFilters(f: FilterState): (r: FilterState)
    ensures r.priceMin == 0 && r.priceMax == 5000
    ensures r.sizes == [] && r.colors == [] && !r.inStock
  {
    InitialFilter
  }

  /** `parseInt(value) || 0` for the minimum; `parsed` is `None` when `parseInt` yields NaN. */
  function SetMinPrice(f: FilterState, parsed: Option<int>): (r: FilterState)
    ensures r.priceMin == (if parsed.Some? then parsed.value else 0)
    ensures r.priceMax == f.priceMax && r.sizes == f.sizes && r.colors == f.colors && r.inStock == f.inStock
  {
    var value := if parsed.None? || parsed.value == 0 then DefaultMinPrice else parsed.value;
    f.(priceMin := value)
  }

  /** `parseInt(value) || 5000` for the maximum: NaN and 0 both fall back to 5000. */
  function SetMaxPrice(f: FilterState, parsed: Option<int>): (r: FilterState)
    ensures r.priceMax == 5000 <==> parsed.None? || parsed.value == 0 || parsed.value == 5000
    ensures parsed.Some? && parsed.value != 0 ==> r.priceMax == parsed.value
    ensures r.priceMin == f.priceMin && r.sizes == f.sizes && r.colors == f.colors && r.inStock == f.inStock
  {
    var value := if parsed.None? || parsed.value == 0 then DefaultMaxPrice else parsed.value;
    f.(priceMax := value)
  }

  function SetInStock(f: FilterState, checked: bool): (r: FilterState)
    ensures r.inStock == checked
    ensures r.priceMin == f.priceMin && r.priceMax == f.priceMax && r.sizes == f.sizes && r.colors == f.colors
  {
    f.(inStock := checked)
  }

  /** `getCategoryTitle`. */
  function CategoryTitle(category: Option<string>): (title: string)
    ensures forall c: Category :: category == Some(CategoryId(c)) ==> title != "All Products"
    ensures title == "All Products" <==> category.None? || category.value !in ["t-shirts", "shirts", "hoodies"]
    ensures category == Some("t-shirts") ==> title == "T-Shirts"
    ensures category == Some("shirts") ==> title == "Shirts"
    ensures category == Some("hoodies") ==> title == "Hoodies"
  {
    if category == Some("t-shirts") then "T-Shirts"
    else if category == Some("shirts") then "Shirts"
    else if category == Some("hoodies") then "Hoodies"
    else "All Products"
  }
}
