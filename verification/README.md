# ARVA storefront decision logic, in Dafny

This project models the decision logic of the ARVA clothing storefront, a React
single-page shop, and proves properties of that model. It covers:

- the product catalog and its lookup and listing helpers;
- the shop page's listing pipeline. It copies the catalog and narrows it by route
  category, price range, sizes, colours and stock. It then sorts the result stably
  with one of six comparators. The page's filter-state transitions are modelled too;
- the cart page's order summary (shipping, 18% tax, total, free-shipping banner) and
  the requests its line buttons send;
- the product card (quick-add, discount and NEW badges, star row);
- the product page (route lookup, selection state, quantity stepper, add-to-cart loop);
- the mock authentication context (login, logout, register, `isAuthenticated`, `useAuth`);
- the FAQ page (category chips and the single-open accordion).

Modules, one per file: `Wrappers` (Option, Result), `Sequences` (`Array.prototype.filter`
and its laws), `StableSort` (stable insertion sort on a value and in place on an array),
`Products`, `Shop`, `Cart`, `ProductCard`, `ProductPage`, `Auth`, `Faq`.

Conventions:

- Prices are integers of rupees.
- A rating is an integer in tenths, so 4.8 is 48 and `Math.floor(rating)` is `rating / 10`.
- An optional `originalPrice` is `Option<nat>`. JavaScript truthiness applies, so an
  original price of 0 shows no discount.
- Indexing `[0]` on an array that may be empty gives `Option` (`ProductCard.First`).
- A JavaScript sort comparator `cmp` becomes "`a` may precede `b`", that is
  `cmp(a, b) <= 0`. `Array.prototype.sort` is stable (ECMAScript 2023, section
  23.1.3.30), and stability is stated this way: for every product `e`, the listed
  products that tie with `e` appear in the same order as in the filtered catalog.
- `String.prototype.localeCompare` depends on locale data, so it is a parameter. The
  name order is assumed to be a total preorder only where a lemma needs it.

## Model

| member | source | states |
|---|---|---|
| Products.FindById | src/data/products.ts:176-178 | `find` returns None exactly when no element has the id, otherwise the element at the first index with that id |
| Products.GetProductById | src/data/products.ts:176-178 | undefined exactly when no catalog product has the id; otherwise a catalog product with that id |
| Products.LookupFindsOwnEntry | src/data/products.ts:176-178 | since ids are distinct, looking up a catalog product's own id returns that product |
| Products.GetProductsByCategory | src/data/products.ts:180-182 | a product is listed iff it is in the catalog and its category id equals the argument, and then exactly as often as in the catalog |
| Products.GetFeaturedProducts | src/data/products.ts:184-186 | a product is listed iff it is in the catalog and featured, and then exactly as often as in the catalog |
| Products.GetBestSellers | src/data/products.ts:188-190 | a product is listed iff it is in the catalog and a best seller, and then exactly as often as in the catalog |
| Products.GetNewArrivals | src/data/products.ts:192-194 | a product is listed iff it is in the catalog and a new arrival, and then exactly as often as in the catalog |
| Products.ListingKeepsCatalogOrder | src/data/products.ts:180-194 | in each of the four listings, two selected products keep their catalog order |
| Products.UnknownCategoryIsEmpty | src/data/products.ts:180-182 | a category string outside the three ids lists nothing |
| Products.CatalogIdsDistinct | src/data/products.ts:19-174 | the eight catalog ids are pairwise distinct |
| Products.CatalogOptionsNonEmpty | src/data/products.ts:19-174 | every catalog product has at least one image, size and colour |
| Products.CatalogDiscountsGenuine | src/data/products.ts:19-174 | wherever an original price is given, it exceeds the selling price |
| Products.CatalogPricesAtMost | src/data/products.ts:19-174 | every catalog price is at most 2799, so within the default price range |
| StableSort.InsertionSortPermutes | src/pages/ShopPage.tsx:55-80 | sorting keeps the multiset of elements |
| StableSort.InsertionSortSorted | src/pages/ShopPage.tsx:55-80 | under a total preorder the sorted sequence is ordered at every pair of positions |
| StableSort.InsertionSortStable | src/pages/ShopPage.tsx:55-80 | the elements tied with any `e` keep their input order |
| StableSort.InsertIntoPrefix | src/pages/ShopPage.tsx:55-80 | one in-place insertion step: the prefix up to `i` becomes the stable insertion of `a[i]`, the rest of the array is unchanged |
| StableSort.SortInPlace | src/pages/ShopPage.tsx:55-80 | the in-place sort leaves the array equal to the stable insertion sort of its old contents |
| Shop.SortKeyOf | src/pages/ShopPage.tsx:55-80 | each of "newest", "price-low", "price-high", "name" and "rating" selects its own comparator, and exactly the other values take the `default` (featured) branch |
| Shop.FeaturedCompare | src/pages/ShopPage.tsx:73-79 | the default comparator returns −1, 0 or 1, negative exactly when `a` ranks before `b` (featured first, then best sellers) and 0 exactly on equal rank |
| Shop.Compare | src/pages/ShopPage.tsx:56-80 | for each key, `a` may stay before `b` exactly when: price-low, its price is not higher; price-high, not lower; rating, its rating is not lower; newest, `b` is new only if `a` is; featured, its rank is not later; name, as `localeCompare` says |
| Shop.FeaturedCompareIsRankOrder | src/pages/ShopPage.tsx:71-79 | the featured comparator is the sign of a rank difference: featured first, then best sellers |
| Shop.PrecedesIsTotalPreorder | src/pages/ShopPage.tsx:55-80 | every comparator gives a total preorder; for `name` this holds when `localeCompare` is consistent |
| Shop.NameOrderIsTotalPreorder | src/pages/ShopPage.tsx:62-64 | the name comparator is a total preorder on products whenever `localeCompare` is one on strings |
| Shop.FeaturedOrderIsTotalPreorder | src/pages/ShopPage.tsx:71-79 | the featured comparator is a total preorder with no assumption |
| Shop.FilteredAndSortedProducts | src/pages/ShopPage.tsx:22-83 | the staged filters and the in-place sort of a copy give the specified listing; every listed product passes all five filters; the result is a permutation of the passing catalog products; the catalog array is only read |
| Shop.ShopView | src/pages/ShopPage.tsx:22-83 | the listing the pipeline specifies holds exactly the passing catalog products, each as often as in the catalog |
| Shop.FilteringTwiceChangesNothing | src/pages/ShopPage.tsx:23-52 | applying the five filters again to their own output changes nothing |
| Shop.ApplyFilters | src/pages/ShopPage.tsx:23-52 | the five filter steps, each skipped when its selection is empty, leave exactly the input products that pass all five filters, in input order |
| Shop.RouteStage | src/pages/ShopPage.tsx:26-28 | the route step keeps the products of a non-empty route category, and everything when the category is absent or empty |
| Shop.PriceStage | src/pages/ShopPage.tsx:31-33 | the price step narrows the route stage to the products also within the range |
| Shop.SizeStage | src/pages/ShopPage.tsx:36-40 | the size step narrows to products offering a selected size, and changes nothing when no size is selected |
| Shop.ColorStage | src/pages/ShopPage.tsx:43-47 | the colour step narrows to products offering a selected colour, and changes nothing when no colour is selected |
| Shop.StockStage | src/pages/ShopPage.tsx:50-52 | the stock step completes the conjunction of all five filters, and changes nothing when the box is unchecked |
| Shop.SortedCopy | src/pages/ShopPage.tsx:55-80 | sorting a fresh array holding the filtered products gives their stable insertion sort |
| Shop.ShopViewSelects | src/pages/ShopPage.tsx:22-53 | the listing holds exactly the catalog products that pass the filters, each as often as in the catalog |
| Shop.ShopViewOrdered | src/pages/ShopPage.tsx:54-80 | price-low is non-decreasing; price-high and rating are non-increasing; name follows `localeCompare`; newest puts new arrivals first; featured orders featured first, then best sellers |
| Shop.ShopViewStable | src/pages/ShopPage.tsx:54-80 | products that tie under the active comparator keep catalog order |
| Shop.FeaturedOrderExample | src/pages/ShopPage.tsx:71-79 | featured-only A, best-seller-only B and featured best seller C, in order A, B, C, are listed C, A, B |
| Shop.PriceRangeExample | src/pages/ShopPage.tsx:30-58 | prices 899, 2499, 1899, 1199 in range [1000, 2500] sorted by price-low list 1199, 1899, 2499 |
| Shop.PriceRangeExampleFilter | src/pages/ShopPage.tsx:30-33 | the range [1000, 2500] drops the 899 product and keeps the rest in order |
| Shop.PriceRangeExampleSort | src/pages/ShopPage.tsx:56-58 | three products in decreasing price order come out reversed under price-low |
| Shop.InvertedRangeListsNothing | src/pages/ShopPage.tsx:30-33 | a minimum above the maximum lists nothing |
| Shop.EmptySelectionsDoNotFilter | src/pages/ShopPage.tsx:35-47 | with no sizes and no colours selected only the route, price and stock filters apply |
| Shop.ClearedFilterListsWholeCategory | src/pages/ShopPage.tsx:103-110 | after clearing, a category route lists exactly that category's products (as a multiset) |
| Shop.Toggle | src/pages/ShopPage.tsx:85-101 | toggling flips the membership of that value only |
| Shop.ToggleTwiceRestores | src/pages/ShopPage.tsx:85-101 | toggling an unselected value twice restores the exact list |
| Shop.ToggleKeepsNoRepeats | src/pages/ShopPage.tsx:85-101 | toggling never makes a value appear twice |
| Shop.HandleSizeFilter | src/pages/ShopPage.tsx:85-92 | flips that size's membership; other sizes, colours, price range and stock flag unchanged |
| Shop.HandleColorFilter | src/pages/ShopPage.tsx:94-101 | flips that colour's membership; everything else unchanged |
| Shop.HandlersKeepNoRepeats | src/pages/ShopPage.tsx:85-101 | both handlers keep the selections free of repeats |
| Shop.ClearFilters | src/pages/ShopPage.tsx:103-110 | the result is the initial state: range [0, 5000], no sizes, no colours, stock flag off |
| Shop.SetMinPrice | src/pages/ShopPage.tsx:199-202 | a minimum input that parses to NaN or 0 becomes 0, any other number is taken; the rest is unchanged |
| Shop.SetMaxPrice | src/pages/ShopPage.tsx:210-213 | a maximum input that parses to NaN or 0 becomes 5000, any other number is taken; the rest is unchanged |
| Shop.SetInStock | src/pages/ShopPage.tsx:262-266 | sets the stock flag to the checkbox state and changes nothing else |
| Shop.CategoryTitle | src/pages/ShopPage.tsx:112-123 | 't-shirts', 'shirts' and 'hoodies' are titled "T-Shirts", "Shirts" and "Hoodies"; "All Products" exactly when the route category is absent or not one of the three ids |
| Cart.Shipping | src/pages/CartPage.tsx:99-101 | free exactly when the subtotal is above 999, otherwise 99 |
| Cart.Tax | src/pages/CartPage.tsx:103-106 | 18% of the subtotal rounded to the nearest integer, halves up; between 0 and the subtotal for a non-negative subtotal |
| Cart.Total | src/pages/CartPage.tsx:108-113 | total minus subtotal minus shipping is the rounded 18% tax; the total is at least the subtotal for a non-negative subtotal |
| Cart.SummaryExamples | src/pages/CartPage.tsx:99-113 | 850 pays 99 shipping and 153 tax, 1102 in all; 999 pays shipping, 1000 does not |
| Cart.NudgeAsWritten | src/pages/CartPage.tsx:117-121 | the banner is shown exactly when shipping is charged, asking for a non-negative amount |
| Cart.NudgeFallsShort | src/pages/CartPage.tsx:117-121 | adding the amount the banner asks for reaches exactly 999, which still pays shipping |
| Cart.FreeShippingNudge | src/pages/CartPage.tsx:117-121 | the corrected banner, shown exactly when shipping is charged: adding its amount makes shipping free, and no smaller amount does |
| Cart.CartPage | src/pages/CartPage.tsx:9-121 | with no lines the empty-cart view; otherwise a summary with the subtotal, shipping free exactly above 999 and 99 otherwise, the rounded 18% tax, their total, and the banner exactly when shipping is charged, asking for the amount that brings the subtotal to 999 |
| Cart.CorrectedCartPage | src/pages/CartPage.tsx:117-121 | the same view with the corrected banner: it asks for one rupee more than the page, and adding that amount makes shipping free |
| Cart.DecreaseRequest | src/pages/CartPage.tsx:57 | "−" asks for quantity − 1 on the same (id, size, color) line |
| Cart.IncreaseRequest | src/pages/CartPage.tsx:64 | "+" asks for quantity + 1 on the same line |
| Cart.RemoveRequest | src/pages/CartPage.tsx:76 | "×" removes the same (id, size, color) line |
| Cart.LineTotal | src/pages/CartPage.tsx:72 | a line of at least one unit totals at least its unit price; zero units total 0 |
| Cart.LineKey | src/pages/CartPage.tsx:37 | the key is the id, a '-', the size, a '-' and the colour, laid out at those exact positions |
| Cart.LineKeyParsesBack | src/pages/CartPage.tsx:37 | when id and size contain no '-', the key splits back into id, size and colour |
| Cart.LineKeyIdentifiesLine | src/pages/CartPage.tsx:37 | so the key identifies the same (id, size, color) triple the buttons target |
| ProductCard.First | src/components/ProductCard.tsx:20-22 | `xs[0]`: present exactly for a non-empty array, and then the first element |
| ProductCard.QuickAdd | src/components/ProductCard.tsx:14-24 | one item with the product's id, name and current price, and its first image, size and colour |
| ProductCard.QuickAddOnCatalog | src/components/ProductCard.tsx:14-24 | for catalog products the image, size and colour are present and offered by the product |
| ProductCard.PercentOff | src/components/ProductCard.tsx:35-38 | the saving as a percentage of the original price, rounded half up; between 0 and 100 when the price does not exceed the original |
| ProductCard.CardBadges | src/components/ProductCard.tsx:35-44 | discount badge exactly when an original price is present and non-zero, with the rounded percentage; NEW badge exactly for new arrivals |
| ProductCard.CatalogBadges | src/components/ProductCard.tsx:35-38 | the two discounted catalog products show 31% and 29% off; the others no badge |
| ProductCard.StarRow | src/components/ProductCard.tsx:63-72 | five stars, star i filled exactly when i < floor(rating) |
| ProductCard.FilledStars | src/components/ProductCard.tsx:63-72 | the row has min(5, floor(rating)) filled stars |
| ProductPage.Open | src/pages/ProductPage.tsx:8-26 | not found exactly when the id is missing or matches no catalog product; otherwise that product, with the card's discount label and star row |
| ProductPage.EveryProductHasAPage | src/pages/ProductPage.tsx:9 | every catalog product's own id opens its page |
| ProductPage.DecreaseQuantity | src/pages/ProductPage.tsx:177 | max(1, q − 1): one less above 1, otherwise 1 |
| ProductPage.IncreaseQuantity | src/pages/ProductPage.tsx:184 | strictly increases the quantity |
| ProductPage.StepperRoundTrip | src/pages/ProductPage.tsx:177-184 | "+" then "−" returns to any quantity of at least 1; "−" then "+" returns to any quantity above 1 |
| ProductPage.Step | src/pages/ProductPage.tsx:73-184 | a size, colour or thumbnail click selects that value; "+" adds one and "−" takes one away down to 1; every other field stays as it was |
| ProductPage.InitialIsConsistent | src/pages/ProductPage.tsx:12-15 | the initial state (nothing chosen, first image, quantity 1) meets the page invariant |
| ProductPage.StepKeepsConsistent | src/pages/ProductPage.tsx:136-185 | one click on an offered button keeps the page invariant |
| ProductPage.RunKeepsConsistent | src/pages/ProductPage.tsx:136-185 | any sequence of clicks on the offered buttons keeps quantity at least 1 and every choice one the product offers |
| ProductPage.Snapshot | src/pages/ProductPage.tsx:35-42 | the item carries the product's id, name, current price and first image, with the chosen size and colour |
| ProductPage.QuickAddIsFirstChoiceSnapshot | src/pages/ProductPage.tsx:34-43 | the card's quick-add equals the page's add with the first size and colour |
| ProductPage.HandleAddToCart | src/pages/ProductPage.tsx:28-44 | alerts and adds nothing unless both size and colour are chosen; otherwise issues exactly `quantity` identical snapshot adds |
| Auth.AuthProvider.constructor | src/context/AuthContext.tsx:27-28 | the provider starts signed out |
| Auth.AuthProvider.IsAuthenticated | src/context/AuthContext.tsx:66 | true exactly when a user is set, and that user has the mock id |
| Auth.AuthProvider.Login | src/context/AuthContext.tsx:30-41 | succeeds iff email and password are non-empty, then signs in {id "1", "John Doe", email}; a failure leaves the user as it was |
| Auth.AuthProvider.Logout | src/context/AuthContext.tsx:43-45 | clears the user, so the provider is no longer authenticated |
| Auth.AuthProvider.Register | src/context/AuthContext.tsx:47-58 | succeeds iff name, email and password are non-empty, then signs in {id "1", name, email}; a failure leaves the user as it was |
| Auth.UseAuth | src/context/AuthContext.tsx:19-25 | fails with "useAuth must be used within an AuthProvider" exactly when there is no provider, otherwise returns it |
| Auth.LoginSession | src/context/AuthContext.tsx:30-45 | after a login, a failed login keeps the user signed in, and a logout signs them out |
| Faq.TopicIdsDistinct | src/pages/FAQPage.tsx:14-86 | the category ids are distinct and none is "all", so comparing topics decides what comparing id strings decides |
| Faq.SelectionIdsDistinct | src/pages/FAQPage.tsx:12 | two selections stored under the same `activeCategory` string are the same selection |
| Faq.FilteredFaqs | src/pages/FAQPage.tsx:88-90 | "all" shows every question in order; any other chip shows exactly the questions of that category, each as often as in the data |
| Faq.FilteredFaqsKeepOrder | src/pages/FAQPage.tsx:90 | under a category chip two matching questions keep their order |
| Faq.EveryChipMatches | src/pages/FAQPage.tsx:14-86 | every chip other than "all" names a category some question has |
| Faq.ListedWhenPresent | src/pages/FAQPage.tsx:90 | a category with a matching question lists at least one |
| Faq.NoChipIsEmpty | src/pages/FAQPage.tsx:77-90 | no chip shows an empty list |
| Faq.ToggleFaq | src/pages/FAQPage.tsx:92-94 | the clicked question closes if it was open, otherwise it opens; no other is open afterwards |
| Faq.AtMostOneOpen | src/pages/FAQPage.tsx:141-148 | at most one answer is open |
| Faq.ToggleTwice | src/pages/FAQPage.tsx:92-94 | two clicks on a question restore the accordion if nothing else was open, and close everything otherwise |
| Faq.SelectCategory | src/pages/FAQPage.tsx:114 | a chip sets the category and keeps the open position |
| Faq.OpenQuestion | src/pages/FAQPage.tsx:129-148 | an answer is shown exactly when the open position is within the filtered list, and it is the question at that position |
| Faq.SingleMatch | src/pages/FAQPage.tsx:88-90 | a category that exactly one question has lists that question alone |
| Faq.OpenFirstOfSingle | src/pages/FAQPage.tsx:129-148 | with a one-question list and position 0 open, that question is shown |
| Faq.FirstOpenUnderAll | src/pages/FAQPage.tsx:92-148 | opening the first position under "all" shows the first question |
| Faq.PaymentListing | src/pages/FAQPage.tsx:88-90 | the payment chip lists only the payment question |
| Faq.OpenPositionCarriesOver | src/pages/FAQPage.tsx:92-114 | opening the first question under "all" and then choosing "payment" leaves the payment question open |
| Faq.OpenAtRank | src/pages/FAQPage.tsx:88-148 | under a category chip, a matching question is shown when the open position is its rank among the matches |
| Faq.RankAfterOneMatch | src/pages/FAQPage.tsx:90 | a question preceded by exactly one other question of its category sits at position 1 of that category's list |
| Faq.SecondMatchShown | src/pages/FAQPage.tsx:88-148 | with position 1 open under a category, the second question of that category is shown |
| Faq.SecondReturnsQuestion | src/pages/FAQPage.tsx:88-148 | position 1 under "returns" shows the exchange question |

## Left out

- The cart ledger (src/context/CartContext.tsx) is not part of this model. It holds the
  lines, merges repeated adds and computes `getTotalPrice()`. The subtotal is therefore
  an input, and the ledger's operations appear only as the requests and items the
  pages send.
- Floating point: the tax multiplication by 0.18 and the discount division are modelled
  as exact rational arithmetic with half-up rounding. Binary-float rounding at exact
  halves is not reproduced. Ratings are whole tenths.
- `localeCompare` is a parameter, not a collation.
- `parseInt` is not modelled. Its result arrives as an optional integer, with `None`
  for NaN.
- Not modelled: React rendering, hooks and `useMemo`, routing (`useParams`, `Link`),
  the `alert` itself (modelled as a flag), and the Promise wrappers of login and
  register (treated as settled at once).
- Shop.FilteredAndSortedProducts: the two JavaScript arrays are not separate
  allocations here. The catalog is a read-only array. The filters work on a value
  sequence, and only the final sort runs in place on a fresh array.
- Shop.ClearedFilterListsWholeCategory states equality of multisets, not of sequences.
  The sort may reorder the category listing.
- Shop.ShopViewOrdered: the name order is proved only for a `localeCompare` that is a
  total preorder.
- ProductPage: the image gallery, description and the thumbnails' highlighting are
  display only. The selected image index is tracked but not displayed.
- Products: a product's `description` text is display only and no decision reads it,
  so `Product` has no such field.
- Faq: the answer texts are display only and no decision reads them, so a `FaqItem` holds
  its question and category only.
- Faq: the page's `activeCategory` string is modelled by the chip's selection. The
  chips offer only the seven category ids and "all", and `Faq.TopicIdsDistinct` shows
  that comparing selections decides the same thing as comparing the strings.
- src/pages/AccountPage.tsx, src/pages/HomePage.tsx, src/pages/AboutPage.tsx,
  src/components/Header.tsx and src/components/Footer.tsx are forms, navigation and
  static markup, and are not part of this model.

## Findings

| source | as written | input that shows it | evidently intended | confidence | as-written member | corrected member |
|---|---|---|---|---|---|---|
| src/pages/CartPage.tsx:117-121 | the banner asks for ₹(999 − subtotal) more, but shipping is free only strictly above 999 | subtotal 999: the banner says "Add ₹0 more for free shipping!" and 99 shipping is still charged; any subtotal plus the amount asked for totals exactly 999 | ask for 1000 − subtotal, the least amount that makes shipping free | not executed | Cart.NudgeFallsShort | Cart.FreeShippingNudge |
