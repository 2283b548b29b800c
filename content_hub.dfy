/**
 * The information hub: the visible categories with their card colours,
 * the search over categories and pages, the pages of a category or
 * subcategory, and which category sections are shown.
 */
module ContentHub {
  import opened Wrappers
  import opened Text
  import opened Seqs

  datatype Subcategory = Subcategory(id: int, name: string, description: Option<string>)

  datatype HubCategory = HubCategory(
    id: int,
    name: string,
    description: Option<string>,
    color: Option<string>,
    subcategories: Option<seq<Subcategory>>,
    lastUpdated: Option<string>,
    createdAt: Option<string>,
    updatedAt: Option<string>)

  /** The `category` or `subcategory` object a page carries. */
  datatype PageRef = PageRef(id: int, name: Option<string>)

  datatype Page = Page(title: string, shortDescription: Option<string>, category: Option<PageRef>, subcategory: Option<PageRef>)

  const Palette: seq<string> :=
    ["#3498db", "#e74c3c", "#2ecc71", "#f39c12", "#9b59b6",
     "#1abc9c", "#e67e22", "#34495e", "#f1c40f", "#e91e63"]

  const HiddenCategories: seq<string> := ["News", "Meetings"]

  predicate IsShown(c: HubCategory) {
    c.name !in HiddenCategories
  }

  function Shown(): HubCategory -> bool {
    (c: HubCategory) => IsShown(c)
  }

  /** The card colour of the visible category at `index`: its own when set, else the palette's, cycling every ten. */
  function CardColor(c: HubCategory, index: nat): (r: string)
    ensures Truthy(c.color) ==> r == c.color.value
    ensures !Truthy(c.color) ==> r == Palette[index % |Palette|]
  {
    if Truthy(c.color) then c.color.value else Palette[index % |Palette|]
  }

  /** The category as stored after loading: colour resolved, `updated_at` from `last_updated` or else `created_at`. */
  function Decorate(c: HubCategory, index: nat): HubCategory {
    c.(color := Some(CardColor(c, index)),
       updatedAt := if Truthy(c.lastUpdated) then c.lastUpdated else c.createdAt)
  }

  /**
   * The visible categories: 'News' and 'Meetings' dropped, the rest kept in
   * order and coloured by their position among the kept ones.
   */
  function VisibleCategories(categoriesData: seq<HubCategory>): (r: seq<HubCategory>)
    ensures |r| == |Filter(categoriesData, Shown())|
    ensures forall i :: 0 <= i < |r| ==> r[i] == Decorate(Filter(categoriesData, Shown())[i], i)
  {
    var kept := Filter(categoriesData, Shown());
    seq(|kept|, i requires 0 <= i < |kept| => Decorate(kept[i], i))
  }

  /** Exactly the categories not named 'News' or 'Meetings' survive, each keeping its id, name and subcategories. */
  lemma VisibleCategoriesAreTheShownOnes(categoriesData: seq<HubCategory>)
    ensures forall i :: 0 <= i < |VisibleCategories(categoriesData)| ==>
      var v := VisibleCategories(categoriesData)[i];
      v.name != "News" && v.name != "Meetings" &&
      exists c :: c in categoriesData && c.id == v.id && c.name == v.name && c.subcategories == v.subcategories
    ensures forall c :: c in categoriesData && c.name != "News" && c.name != "Meetings" ==>
      exists i :: 0 <= i < |VisibleCategories(categoriesData)| && VisibleCategories(categoriesData)[i].id == c.id
  {
    var kept := Filter(categoriesData, Shown());
    var r := VisibleCategories(categoriesData);
    forall i | 0 <= i < |r|
      ensures r[i].name != "News" && r[i].name != "Meetings"
      ensures exists c :: c in categoriesData && c.id == r[i].id && c.name == r[i].name && c.subcategories == r[i].subcategories
    {
      assert kept[i] in kept;
    }
    forall c | c in categoriesData && c.name != "News" && c.name != "Meetings"
      ensures exists i :: 0 <= i < |r| && r[i].id == c.id
    {
      assert Shown()(c);
      var i :| 0 <= i < |kept| && kept[i] == c;
      assert r[i].id == c.id;
    }
  }

  /** Two cards without their own colour, fewer than ten places apart, get different palette colours. */
  lemma PaletteColorsDiffer(c1: HubCategory, c2: HubCategory, i: nat, j: nat)
    requires !Truthy(c1.color) && !Truthy(c2.color)
    requires i < j < i + |Palette|
    ensures CardColor(c1, i) != CardColor(c2, j)
  {
    assert i % 10 != j % 10;
    var a, b := i % 10, j % 10;
    assert Palette[a] != Palette[b];
  }

  /** Every visible card has a colour. */
  lemma VisibleColorsTruthy(categoriesData: seq<HubCategory>)
    ensures forall i :: 0 <= i < |VisibleCategories(categoriesData)| ==>
      Truthy(VisibleCategories(categoriesData)[i].color)
  {
  }

  /** `text?.toLowerCase().includes(term)`: false when the text is absent. */
  predicate MentionsOpt(text: Option<string>, term: string) {
    text.Some? && Contains(Lower(text.value), term)
  }

  predicate SubcategoryMatches(sub: Subcategory, term: string) {
    Contains(Lower(sub.name), term) || MentionsOpt(sub.description, term)
  }

  /** The category filter of the search (with an already lower-cased term). */
  predicate CategoryMatches(c: HubCategory, term: string) {
    || Contains(Lower(c.name), term)
    || MentionsOpt(c.description, term)
    || (c.subcategories.Some? && exists sub :: sub in c.subcategories.value && SubcategoryMatches(sub, term))
  }

  /** The page filter of the search (with an already lower-cased term). */
  predicate PageMatches(p: Page, term: string) {
    || Contains(Lower(p.title), term)
    || MentionsOpt(p.shortDescription, term)
    || (p.category.Some? && MentionsOpt(p.category.value.name, term))
  }

  function CategoryFilter(term: string): HubCategory -> bool {
    (c: HubCategory) => CategoryMatches(c, term)
  }

  function PageFilter(term: string): Page -> bool {
    (p: Page) => PageMatches(p, term)
  }

  /**
   * The search effect: a term that is blank once trimmed leaves both lists
   * as they are; otherwise both are filtered on the lower-cased (untrimmed)
   * term, keeping their order.
   */
  function Search(searchTerm: string, categories: seq<HubCategory>, allPages: seq<Page>): (r: (seq<HubCategory>, seq<Page>))
    ensures AllSpace(searchTerm) ==> r == (categories, allPages)
    ensures !AllSpace(searchTerm) ==>
      && (forall c :: c in r.0 <==> c in categories && CategoryMatches(c, Lower(searchTerm)))
      && (forall p :: p in r.1 <==> p in allPages && PageMatches(p, Lower(searchTerm)))
    ensures SubseqOf(r.0, categories) && SubseqOf(r.1, allPages)
    ensures !AllSpace(searchTerm) ==>
      && (forall c :: multiset(r.0)[c] == if CategoryMatches(c, Lower(searchTerm)) then multiset(categories)[c] else 0)
      && (forall p :: multiset(r.1)[p] == if PageMatches(p, Lower(searchTerm)) then multiset(allPages)[p] else 0)
  {
    TrimEmptyIffAllSpace(searchTerm);
    if Trim(searchTerm) == "" then
      SubseqOfSelf(categories);
      SubseqOfSelf(allPages);
      (categories, allPages)
    else
      var searchLower := Lower(searchTerm);
      FilterMultisetAll(categories, CategoryFilter(searchLower));
      FilterMultisetAll(allPages, PageFilter(searchLower));
      (Filter(categories, CategoryFilter(searchLower)), Filter(allPages, PageFilter(searchLower)))
  }

  /** Searching is insensitive to the case of the term. */
  lemma SearchIgnoresTermCase(searchTerm: string, categories: seq<HubCategory>, allPages: seq<Page>)
    ensures Search(Lower(searchTerm), categories, allPages) == Search(searchTerm, categories, allPages)
  {
    LowerIdempotent(searchTerm);
    LowerKeepsSpace(searchTerm);
    TrimEmptyIffAllSpace(searchTerm);
    TrimEmptyIffAllSpace(Lower(searchTerm));
  }

  function InCategory(categoryId: int): Page -> bool {
    (p: Page) => p.category.Some? && p.category.value.id == categoryId
  }

  function InSubcategory(subcategoryId: int): Page -> bool {
    (p: Page) => p.subcategory.Some? && p.subcategory.value.id == subcategoryId
  }

  /** `getCategoryPages`: the filtered pages filed under the category, in order. */
  function CategoryPages(filteredPages: seq<Page>, categoryId: int): (r: seq<Page>)
    ensures forall p :: p in r <==> p in filteredPages && p.category.Some? && p.category.value.id == categoryId
    ensures SubseqOf(r, filteredPages)
    ensures forall p :: multiset(r)[p] ==
              if p.category.Some? && p.category.value.id == categoryId then multiset(filteredPages)[p] else 0
  {
    var r := Filter(filteredPages, InCategory(categoryId));
    FilterMultisetAll(filteredPages, InCategory(categoryId));
    assert forall p :: p in r ==> InCategory(categoryId)(p);
    r
  }

  /** `getSubcategoryPages`: the filtered pages filed under the subcategory, in order. */
  function SubcategoryPages(filteredPages: seq<Page>, subcategoryId: int): (r: seq<Page>)
    ensures forall p :: p in r <==> p in filteredPages && p.subcategory.Some? && p.subcategory.value.id == subcategoryId
    ensures SubseqOf(r, filteredPages)
    ensures forall p :: multiset(r)[p] ==
              if p.subcategory.Some? && p.subcategory.value.id == subcategoryId then multiset(filteredPages)[p] else 0
  {
    var r := Filter(filteredPages, InSubcategory(subcategoryId));
    FilterMultisetAll(filteredPages, InSubcategory(subcategoryId));
    assert forall p :: p in r ==> InSubcategory(subcategoryId)(p);
    r
  }

  /** Every page with a category is listed under that category and under no other. */
  lemma CategoryPagesPartition(filteredPages: seq<Page>, p: Page, categoryId: int)
    requires p in filteredPages && p.category.Some?
    ensures p in CategoryPages(filteredPages, categoryId) <==> categoryId == p.category.value.id
  {
  }

  /** Some subcategory of the list has a page among `filteredPages`. */
  function AnySubcategoryHasPages(subs: seq<Subcategory>, filteredPages: seq<Page>): (r: bool)
    ensures r <==> exists sub :: sub in subs && |SubcategoryPages(filteredPages, sub.id)| > 0
  {
    if subs == [] then false
    else |SubcategoryPages(filteredPages, subs[0].id)| > 0 || AnySubcategoryHasPages(subs[1..], filteredPages)
  }

  /** A category section is rendered when it has pages of its own or through a subcategory. */
  function SectionVisible(c: HubCategory, filteredPages: seq<Page>): (r: bool)
    ensures r <==>
      (exists p :: p in filteredPages && p.category.Some? && p.category.value.id == c.id) ||
      (c.subcategories.Some? && exists sub, p :: (sub in c.subcategories.value && p in filteredPages &&
         p.subcategory.Some? && p.subcategory.value.id == sub.id))
  {
    var direct := CategoryPages(filteredPages, c.id);
    var viaSub := c.subcategories.Some? && AnySubcategoryHasPages(c.subcategories.value, filteredPages);
    assert |direct| > 0 ==> direct[0] in direct;
    assert viaSub ==> exists sub, p :: (sub in c.subcategories.value && p in filteredPages &&
         p.subcategory.Some? && p.subcategory.value.id == sub.id) by {
      if viaSub {
        var sub :| sub in c.subcategories.value && |SubcategoryPages(filteredPages, sub.id)| > 0;
        assert SubcategoryPages(filteredPages, sub.id)[0] in SubcategoryPages(filteredPages, sub.id);
      }
    }
    assert (c.subcategories.Some? && exists sub, p :: (sub in c.subcategories.value && p in filteredPages &&
         p.subcategory.Some? && p.subcategory.value.id == sub.id)) ==> viaSub by {
      if c.subcategories.Some? && exists sub, p :: (sub in c.subcategories.value && p in filteredPages &&
           p.subcategory.Some? && p.subcategory.value.id == sub.id) {
        var sub, p :| sub in c.subcategories.value && p in filteredPages &&
           p.subcategory.Some? && p.subcategory.value.id == sub.id;
        assert p in SubcategoryPages(filteredPages, sub.id);
      }
    }
    |direct| > 0 || viaSub
  }

  /** The category card's own test: direct pages, or any subcategory at all. */
  function CardHasContent(c: HubCategory, filteredPages: seq<Page>): bool {
    |CategoryPages(filteredPages, c.id)| > 0 || (c.subcategories.Some? && |c.subcategories.value| > 0)
  }

  /** A category whose section is shown also has a card marked as having content (not the other way round). */
  lemma SectionVisibleImpliesCardContent(c: HubCategory, filteredPages: seq<Page>)
    ensures SectionVisible(c, filteredPages) ==> CardHasContent(c, filteredPages)
  {
    if SectionVisible(c, filteredPages) && |CategoryPages(filteredPages, c.id)| == 0 {
      var sub, p :| sub in c.subcategories.value && p in filteredPages &&
         p.subcategory.Some? && p.subcategory.value.id == sub.id;
    }
  }

  /** The "N results found" count, shown only while the search box is not empty. */
  function ResultCount(searchTerm: string, filteredCategories: seq<HubCategory>, filteredPages: seq<Page>): (r: Option<nat>)
    ensures r.None? <==> searchTerm == ""
    ensures r.Some? ==> r.value == |filteredCategories| + |filteredPages|
  {
    if searchTerm != "" then Some(|filteredCategories| + |filteredPages|) else None
  }

  /** The results never outnumber the categories and pages there are. */
  lemma ResultCountBounded(searchTerm: string, categories: seq<HubCategory>, allPages: seq<Page>)
    requires searchTerm != ""
    ensures var (cats, pages) := Search(searchTerm, categories, allPages);
      ResultCount(searchTerm, cats, pages).value <= |categories| + |allPages|
  {
    var (cats, pages) := Search(searchTerm, categories, allPages);
    SubseqLength(cats, categories);
    SubseqLength(pages, allPages);
  }
}
