/** The FAQ page (src/pages/FAQPage.tsx): the question list narrowed by a category
    chip, and an accordion in which at most one answer is open. */
module Faq {
  import opened Wrappers
  import opened Sequences

  /** The FAQ categories; `TopicId` is the string the page stores for each. */
  datatype Topic = Orders | Payment | Shipping | Returns | Sizing | Products | Care

  function TopicId(t: Topic): string
  {
    match t
    case Orders => "orders"
    case Payment => "payment"
    case Shipping => "shipping"
    case Returns => "returns"
    case Sizing => "sizing"
    case Products => "products"
    case Care => "care"
  }

  const AllCategories := "all"

  /** The page compares category strings; since the ids are distinct and none is
      "all", comparing topics decides the same thing. */
  lemma TopicIdsDistinct()
    ensures forall a: Topic, b: Topic :: TopicId(a) == TopicId(b) ==> a == b
    ensures forall a: Topic :: TopicId(a) != AllCategories
  {
  }

  datatype FaqItem = FaqItem(question: string, category: Topic)

  /** The page's twelve questions, in display order. */
  const FaqData: seq<FaqItem> := [
    FaqItem("How do I place an order?", Orders),
    FaqItem("What payment methods do you accept?", Payment),
    FaqItem("How long does shipping take?", Shipping),
    FaqItem("What is your return policy?", Returns),
    FaqItem("How do I exchange an item?", Returns),
    FaqItem("Do you offer free shipping?", Shipping),
    FaqItem("How can I track my order?", Orders),
    FaqItem("What if I receive a defective item?", Returns),
    FaqItem("How do I find the right size?", Sizing),
    FaqItem("Can I cancel my order?", Orders),
    FaqItem("Do you restock sold-out items?", Products),
    FaqItem("How do I care for my ARVA clothing?", Care)
  ]

  /** What a chip selects: every question, or one category. The page stores it as the
      string `SelectionId`. */
  datatype Selection = AllTopics | Only(topic: Topic)

  /** The string a selection stores in the page state. */
  function SelectionId(s: Selection): string
  {
    match s
    case AllTopics => AllCategories
    case Only(t) => TopicId(t)
  }

  /** So the stored string identifies the selection: no two selections share one. */
  lemma SelectionIdsDistinct(a: Selection, b: Selection)
    requires SelectionId(a) == SelectionId(b)
    ensures a == b
  {
    TopicIdsDistinct();
  }

  /** A filter chip: what it selects and its label. */
  datatype Chip = Chip(id: Selection, name: string)

  const Chips: seq<Chip> := [
    Chip(AllTopics, "All"),
    Chip(Only(Orders), "Orders"),
    Chip(Only(Shipping), "Shipping"),
    Chip(Only(Returns), "Returns & Exchanges"),
    Chip(Only(Payment), "Payment"),
    Chip(Only(Sizing), "Sizing"),
    Chip(Only(Products), "Products"),
    Chip(Only(Care), "Care")
  ]

  function InTopic(t: Topic): FaqItem -> bool
  {
    (item: FaqItem) => item.category == t
  }

  /** The questions listed under the active chip: all of them for "all", otherwise
      exactly those of that category, each as often as in the data. */
  function FilteredFaqs(data: seq<FaqItem>, active: Selection): (r: seq<FaqItem>)
    ensures active.AllTopics? ==> r == data
    ensures active.Only? ==>
      (forall x :: x in r <==> x in data && x.category == active.topic)
      && (forall x | x in data :: multiset(r)[x] == if x.category == active.topic then multiset(data)[x] else 0)
  {
    match active
    case AllTopics => data
    case Only(t) =>
      FilterMultiset(data, InTopic(t));
      Filter(data, InTopic(t))
  }

  /** Under a category chip the questions keep the page's order: a matching question
      that comes earlier in the data is listed at an earlier position. */
  lemma FilteredFaqsKeepOrder(data: seq<FaqItem>, t: Topic, i: int, j: int)
    requires 0 <= i < j < |data| && data[i].category == t && data[j].category == t
    ensures var r := FilteredFaqs(data, Only(t));
      var a, b := Rank(data, InTopic(t), i), Rank(data, InTopic(t), j);
      a < b < |r| && r[a] == data[i] && r[b] == data[j]
  {
    FilterAtRank(data, InTopic(t), i);
    FilterAtRank(data, InTopic(t), j);
    FilterKeepsOrder(data, InTopic(t), i, j);
  }

  /** Every chip other than "all" names a category some question has. */
  lemma EveryChipMatches()
    ensures forall k | 1 <= k < |Chips| :: Chips[k].id.Only? && exists i :: 0 <= i < |FaqData| && FaqData[i].category == Chips[k].id.topic
  {
    assert FaqData[0].category == Chips[1].id.topic;
    assert FaqData[2].category == Chips[2].id.topic;
    assert FaqData[3].category == Chips[3].id.topic;
    assert FaqData[1].category == Chips[4].id.topic;
    assert FaqData[8].category == Chips[5].id.topic;
    assert FaqData[10].category == Chips[6].id.topic;
    assert FaqData[11].category == Chips[7].id.topic;
  }

  /** A category with a matching question lists something. */
  lemma ListedWhenPresent(data: seq<FaqItem>, i: int, t: Topic)
    requires 0 <= i < |data| && data[i].category == t
    ensures |FilteredFaqs(data, Only(t))| > 0
  {
    assert data[i] in data;
  }

  /** So no chip shows an empty list. */
  lemma NoChipIsEmpty(k: int)
    requires 0 <= k < |Chips|
    ensures |FilteredFaqs(FaqData, Chips[k].id)| > 0
  {
    if k > 0 {
      EveryChipMatches();
      var t := Chips[k].id.topic;
      var i :| 0 <= i < |FaqData| && FaqData[i].category == t;
      ListedWhenPresent(FaqData, i, t);
    }
  }

  /** The accordion and the active chip. `activeIndex` is a position in the filtered list. */
  datatype FaqState = FaqState(activeIndex: Option<int>, activeCategory: Selection)

  const InitialFaq := FaqState(None, AllTopics)

  /** Whether the answer at position `index` of the list is shown. */
  predicate IsOpen(st: FaqState, index: int)
  {
    st.activeIndex == Some(index)
  }

  /** Clicking a question: it closes if it was the open one, otherwise it opens and any
      other closes. */
  function ToggleFaq(st: FaqState, index: int): (next: FaqState)
    ensures IsOpen(next, index) <==> !IsOpen(st, index)
    ensures forall j | j != index :: !IsOpen(next, j)
    ensures next.activeCategory == st.activeCategory
  {
    st.(activeIndex := if st.activeIndex == Some(index) then None else Some(index))
  }

  /** At most one answer is ever open. */
  lemma AtMostOneOpen(st: FaqState, i: int, j: int)
    requires IsOpen(st, i) && IsOpen(st, j)
    ensures i == j
  {
  }

  /** Clicking the same question twice restores the accordion when nothing else was
      open before; with another question open, it ends with all closed. */
  lemma ToggleTwice(st: FaqState, index: int)
    ensures st.activeIndex.None? || st.activeIndex == Some(index) ==> ToggleFaq(ToggleFaq(st, index), index) == st
    ensures st.activeIndex.Some? && st.activeIndex != Some(index) ==> ToggleFaq(ToggleFaq(st, index), index).activeIndex.None?
  {
  }

  /** Clicking a chip: the category changes, the open position does not. */
  function SelectCategory(st: FaqState, chip: Selection): (next: FaqState)
    ensures next.activeCategory == chip
    ensures forall i :: IsOpen(next, i) <==> IsOpen(st, i)
  {
    st.(activeCategory := chip)
  }

  /** The question whose answer is shown, if any. */
  function OpenQuestion(data: seq<FaqItem>, st: FaqState): (q: Option<FaqItem>)
    ensures q.Some? <==> st.activeIndex.Some? && 0 <= st.activeIndex.value < |FilteredFaqs(data, st.activeCategory)|
    ensures q.Some? ==> q.value in data
    ensures q.Some? ==> q.value == FilteredFaqs(data, st.activeCategory)[st.activeIndex.value]
  {
    var list := FilteredFaqs(data, st.activeCategory);
    match st.activeIndex
    case Some(i) => if 0 <= i < |list| then Some(list[i]) else None
    case None => None
  }

  /** A category that exactly one question has lists that question alone. */
  lemma SingleMatch(data: seq<FaqItem>, k: int, t: Topic)
    requires 0 <= k < |data| && data[k].category == t
    requires forall i | 0 <= i < |data| && i != k :: data[i].category != t
    ensures FilteredFaqs(data, Only(t)) == [data[k]]
  {
    FilterSingle(data, InTopic(t), k);
  }

  /** The "payment" chip lists the payment question alone. */
  lemma PaymentListing()
    ensures FilteredFaqs(FaqData, Only(Payment)) == [FaqData[1]]
  {
    SingleMatch(FaqData, 1, Payment);
  }

  /** Under "all" the first position shows the first question. */
  lemma FirstOpenUnderAll()
    ensures OpenQuestion(FaqData, ToggleFaq(InitialFaq, 0)) == Some(FaqData[0])
  {
  }

  /** Because the open position survives a chip change, the answer shown can switch to a
      different question: open the first question under "all", then pick "payment", and
      the payment question is the one open. */
  lemma OpenPositionCarriesOver()
    ensures OpenQuestion(FaqData, SelectCategory(ToggleFaq(InitialFaq, 0), Only(Payment))) == Some(FaqData[1])
  {
    var st := SelectCategory(ToggleFaq(InitialFaq, 0), Only(Payment));
    assert st == FaqState(Some(0), Only(Payment));
    PaymentListing();
    OpenFirstOfSingle(FaqData, st, FaqData[1]);
  }

  /** When the active list holds one question, position 0 shows it. */
  lemma OpenFirstOfSingle(data: seq<FaqItem>, st: FaqState, q: FaqItem)
    requires st.activeIndex == Some(0) && FilteredFaqs(data, st.activeCategory) == [q]
    ensures OpenQuestion(data, st) == Some(q)
  {
  }

  /** A matching question is shown when the open position is its rank among the matches. */
  lemma OpenAtRank(data: seq<FaqItem>, t: Topic, k: int)
    requires 0 <= k < |data| && data[k].category == t
    ensures OpenQuestion(data, FaqState(Some(Rank(data, InTopic(t), k)), Only(t))) == Some(data[k])
  {
    FilterAtRank(data, InTopic(t), k);
  }

  /** A question preceded by exactly one other match of its category has rank 1. */
  lemma RankAfterOneMatch(data: seq<FaqItem>, t: Topic, j: int, k: int)
    requires 0 <= j < k < |data| && data[j].category == t
    requires forall i | 0 <= i < k && i != j :: data[i].category != t
    ensures Rank(data, InTopic(t), k) == 1
  {
    SingleMatch(data[..k], j, t);
  }

  /** So that question is the one shown at position 1 of the category's list. */
  lemma SecondMatchShown(data: seq<FaqItem>, t: Topic, j: int, k: int)
    requires 0 <= j < k < |data| && data[j].category == t && data[k].category == t
    requires forall i | 0 <= i < k && i != j :: data[i].category != t
    ensures OpenQuestion(data, FaqState(Some(1), Only(t))) == Some(data[k])
  {
    RankAfterOneMatch(data, t, j, k);
    OpenAtRank(data, t, k);
  }

  /** Position 1 under "returns" shows the exchange question, the second of the three
      returns questions. */
  lemma SecondReturnsQuestion()
    ensures OpenQuestion(FaqData, FaqState(Some(1), Only(Returns))) == Some(FaqData[4])
  {
    SecondMatchShown(FaqData, Returns, 3, 4);
  }
}
