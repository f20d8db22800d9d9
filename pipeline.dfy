/** The catalogue view of the storefront page: the products of one category,
    narrowed by the exclusivity switch, the price range and the search box,
    then sorted by the selected key. */
module Pipeline {
  import opened Sequences
  import opened Sorting
  import opened Catalogue

  /** What the page takes from the JavaScript engine's locale:
      String.prototype.toLowerCase and String.prototype.localeCompare.
      Both stay abstract; only `Consistent(compare)` is ever assumed of them. */
  datatype Locale = Locale(lower: string -> string, compare: (string, string) -> int)

  /** The sort keys the page recognises; any other key leaves the order alone. */
  datatype SortKey = PriceAsc | PriceDesc | ByName | Unrecognized(key: string)

  /** The filter and sort controls of the page. `sortBy` is the raw key of the
      sort selector; `priceRange` holds the inclusive lower and upper bounds. */
  datatype FilterState = FilterState(
    category: Category,
    showExclusive: bool,
    priceRange: (int, int),
    searchQuery: string,
    sortBy: string)

  /** The controls as the page first shows them. */
  const Defaults := FilterState(Mens, false, (0, 100000), "", "price-asc")

  /** Reads the sort selector's key the way the comparator tests it. */
  function ParseSortKey(sortBy: string): SortKey {
    if sortBy == "price-asc" then PriceAsc
    else if sortBy == "price-desc" then PriceDesc
    else if sortBy == "name" then ByName
    else Unrecognized(sortBy)
  }

  /** The comparator handed to Array.prototype.sort. */
  function Compare(key: SortKey, loc: Locale, a: Product, b: Product): int {
    match key
    case PriceAsc => a.price - b.price
    case PriceDesc => b.price - a.price
    case ByName => loc.compare(a.name, b.name)
    case Unrecognized(_) => 0
  }

  function Comparator(f: FilterState, loc: Locale): (Product, Product) -> int {
    (a, b) => Compare(ParseSortKey(f.sortBy), loc, a, b)
  }

  // The four filter stages, each as the predicate a product must satisfy.

  predicate InCategory(f: FilterState, p: Product) {
    p.category == f.category
  }

  predicate ExclusiveOk(f: FilterState, p: Product) {
    f.showExclusive ==> p.exclusive
  }

  predicate InPriceRange(f: FilterState, p: Product) {
    f.priceRange.0 <= p.price <= f.priceRange.1
  }

  /** An empty query is falsy in JavaScript and skips the search stage. */
  predicate MatchesSearch(f: FilterState, loc: Locale, p: Product) {
    f.searchQuery != [] ==> Includes(loc.lower(p.name), loc.lower(f.searchQuery))
  }

  predicate Passes(f: FilterState, loc: Locale, p: Product) {
    InCategory(f, p) && ExclusiveOk(f, p) && InPriceRange(f, p) && MatchesSearch(f, loc, p)
  }

  function Passing(f: FilterState, loc: Locale): Product -> bool {
    p => Passes(f, loc, p)
  }

  /** The specification of the view: the catalogue entries that pass every
      active filter, in catalogue order, stably sorted by the comparator. */
  function Pipeline(catalog: seq<Product>, f: FilterState, loc: Locale): seq<Product> {
    StableSort(Filter(catalog, Passing(f, loc)), Comparator(f, loc))
  }

  /** The four filter stages of the page: the local list is narrowed stage by
      stage, a stage whose control is off being skipped. */
  method Narrow(catalog: seq<Product>, f: FilterState, loc: Locale) returns (filtered: seq<Product>)
    ensures filtered == Filter(catalog, Passing(f, loc))
  {
    var byCategory := (p: Product) => p.category == f.category;
    var byExclusive := (p: Product) => p.exclusive;
    var byPrice := (p: Product) => p.price >= f.priceRange.0 && p.price <= f.priceRange.1;
    var bySearch := (p: Product) => Includes(loc.lower(p.name), loc.lower(f.searchQuery));

    filtered := Filter(catalog, byCategory);
    ghost var two := (p: Product) => InCategory(f, p) && ExclusiveOk(f, p);
    if f.showExclusive {
      FilterFilter(catalog, byCategory, byExclusive, two);
      filtered := Filter(filtered, byExclusive);
    } else {
      FilterSame(catalog, byCategory, two);
    }
    assert filtered == Filter(catalog, two);
    ghost var three := (p: Product) => InCategory(f, p) && ExclusiveOk(f, p) && InPriceRange(f, p);
    FilterFilter(catalog, two, byPrice, three);
    filtered := Filter(filtered, byPrice);
    assert filtered == Filter(catalog, three);
    if f.searchQuery != [] {
      FilterFilter(catalog, three, bySearch, Passing(f, loc));
      filtered := Filter(filtered, bySearch);
    } else {
      FilterSame(catalog, three, Passing(f, loc));
    }
  }

  /** The page's computation of the view: the narrowed list is copied into a
      fresh array and sorted in place there, so the catalogue is never reordered. */
  method FilteredProducts(catalog: seq<Product>, f: FilterState, loc: Locale) returns (filtered: seq<Product>)
    ensures filtered == Pipeline(catalog, f, loc)
  {
    filtered := Narrow(catalog, f, loc);
    var a := new Product[|filtered|](i requires 0 <= i < |filtered| => filtered[i]);
    assert a[..] == filtered;
    SortInPlace(a, Comparator(f, loc));
    filtered := a[..];
  }

  /** Exactness: each catalogue entry that passes every active filter appears
      in the view exactly as often as in the catalogue, and no other entry
      appears at all. */
  lemma PipelineExact(catalog: seq<Product>, f: FilterState, loc: Locale)
    ensures forall p :: multiset(Pipeline(catalog, f, loc))[p]
                        == if Passes(f, loc, p) then multiset(catalog)[p] else 0
    ensures forall p :: p in Pipeline(catalog, f, loc) <==> p in catalog && Passes(f, loc, p)
  {
    var narrowed := Filter(catalog, Passing(f, loc));
    FilterCounts(catalog, Passing(f, loc));
    StableSortPermutes(narrowed, Comparator(f, loc));
    forall p ensures p in Pipeline(catalog, f, loc) <==> p in narrowed {
      assert p in Pipeline(catalog, f, loc) <==> p in multiset(Pipeline(catalog, f, loc));
    }
  }

  /** Soundness: every product in the view satisfies each active filter. */
  lemma PipelineSound(catalog: seq<Product>, f: FilterState, loc: Locale)
    ensures forall p :: p in Pipeline(catalog, f, loc) ==> p.category == f.category
    ensures f.showExclusive ==> forall p :: p in Pipeline(catalog, f, loc) ==> p.exclusive
    ensures forall p :: p in Pipeline(catalog, f, loc) ==> f.priceRange.0 <= p.price <= f.priceRange.1
    ensures f.searchQuery != [] ==>
      forall p :: p in Pipeline(catalog, f, loc) ==> Includes(loc.lower(p.name), loc.lower(f.searchQuery))
  {
    PipelineExact(catalog, f, loc);
  }

  /** With an empty search box no product is dropped on account of its name. */
  lemma EmptyQueryIgnoresNames(catalog: seq<Product>, f: FilterState, loc: Locale)
    requires f.searchQuery == []
    ensures forall p :: p in Pipeline(catalog, f, loc) <==>
      p in catalog && InCategory(f, p) && ExclusiveOk(f, p) && InPriceRange(f, p)
  {
    PipelineExact(catalog, f, loc);
  }

  /** The comparator is consistent whenever the locale's string comparison is. */
  lemma ComparatorConsistent(f: FilterState, loc: Locale)
    requires ParseSortKey(f.sortBy) == ByName ==> Consistent(loc.compare)
    ensures Consistent(Comparator(f, loc))
  {
    var cmp := Comparator(f, loc);
    forall a, b ensures Sign(cmp(a, b)) == -Sign(cmp(b, a)) {
      if ParseSortKey(f.sortBy) == ByName {
        assert Sign(loc.compare(a.name, b.name)) == -Sign(loc.compare(b.name, a.name));
      }
    }
    forall a, b, c | cmp(a, b) <= 0 && cmp(b, c) <= 0 ensures cmp(a, c) <= 0 {
      if ParseSortKey(f.sortBy) == ByName {
        assert loc.compare(a.name, b.name) <= 0 && loc.compare(b.name, c.name) <= 0;
      }
    }
  }

  /** Ordering: prices ascend for "price-asc" and descend for "price-desc";
      for "name" the names are ordered by the locale's comparison; for any
      other key the view keeps catalogue order. */
  lemma PipelineOrdered(catalog: seq<Product>, f: FilterState, loc: Locale)
    requires f.sortBy == "name" ==> Consistent(loc.compare)
    ensures f.sortBy == "price-asc" ==> forall i, j :: 0 <= i < j < |Pipeline(catalog, f, loc)| ==>
      Pipeline(catalog, f, loc)[i].price <= Pipeline(catalog, f, loc)[j].price
    ensures f.sortBy == "price-desc" ==> forall i, j :: 0 <= i < j < |Pipeline(catalog, f, loc)| ==>
      Pipeline(catalog, f, loc)[i].price >= Pipeline(catalog, f, loc)[j].price
    ensures f.sortBy == "name" ==> forall i, j :: 0 <= i < j < |Pipeline(catalog, f, loc)| ==>
      loc.compare(Pipeline(catalog, f, loc)[i].name, Pipeline(catalog, f, loc)[j].name) <= 0
    ensures f.sortBy !in {"price-asc", "price-desc", "name"} ==>
      Pipeline(catalog, f, loc) == Filter(catalog, Passing(f, loc))
  {
    var narrowed, cmp := Filter(catalog, Passing(f, loc)), Comparator(f, loc);
    ComparatorConsistent(f, loc);
    StableSortSorted(narrowed, cmp);
    if f.sortBy !in {"price-asc", "price-desc", "name"} {
      StableSortOfSorted(narrowed, cmp);
    }
  }

  /** Stability: products the comparator ranks equal keep their catalogue order. */
  lemma PipelineStable(catalog: seq<Product>, f: FilterState, loc: Locale, pivot: Product)
    requires f.sortBy == "name" ==> Consistent(loc.compare)
    ensures Ties(Pipeline(catalog, f, loc), Comparator(f, loc), pivot)
         == Ties(Filter(catalog, Passing(f, loc)), Comparator(f, loc), pivot)
  {
    ComparatorConsistent(f, loc);
    StableSortStable(Filter(catalog, Passing(f, loc)), Comparator(f, loc), pivot);
  }

  /** Recomputing the view from the view itself changes nothing. */
  lemma PipelineIdempotent(catalog: seq<Product>, f: FilterState, loc: Locale)
    requires f.sortBy == "name" ==> Consistent(loc.compare)
    ensures Pipeline(Pipeline(catalog, f, loc), f, loc) == Pipeline(catalog, f, loc)
  {
    var view, cmp := Pipeline(catalog, f, loc), Comparator(f, loc);
    PipelineExact(catalog, f, loc);
    FilterKeepsAll(view, Passing(f, loc));
    ComparatorConsistent(f, loc);
    StableSortSorted(Filter(catalog, Passing(f, loc)), cmp);
    StableSortOfSorted(view, cmp);
  }

  lemma DefaultsKeepMens(loc: Locale)
    ensures Filter([M1, M2, M3, M4, M5, M6, M7, M8], Passing(Defaults, loc)) == [M1, M2, M3, M4, M5, M6, M7, M8]
  {
    var mens := [M1, M2, M3, M4, M5, M6, M7, M8];
    assert forall i :: 0 <= i < |mens| ==> Passing(Defaults, loc)(mens[i]);
    FilterKeepsAll(mens, Passing(Defaults, loc));
  }

  lemma DefaultsDropOthers(loc: Locale)
    ensures Filter([W1, W2, W3, O1, O2, O3, Set1, Set2], Passing(Defaults, loc)) == []
  {
    var others := [W1, W2, W3, O1, O2, O3, Set1, Set2];
    assert forall i :: 0 <= i < |others| ==> !Passing(Defaults, loc)(others[i]);
    FilterDropsAll(others, Passing(Defaults, loc));
  }

  /** Under the default controls the filters keep exactly the menswear products. */
  lemma DefaultsNarrowed(loc: Locale)
    ensures Filter(Products, Passing(Defaults, loc)) == [M1, M2, M3, M4, M5, M6, M7, M8]
  {
    var mens, others := [M1, M2, M3, M4, M5, M6, M7, M8], [W1, W2, W3, O1, O2, O3, Set1, Set2];
    DefaultsKeepMens(loc);
    DefaultsDropOthers(loc);
    FilterAppend(mens, others, Passing(Defaults, loc));
    CatalogueSections();
  }

  /** One step of the insertion sort: `x` lands at position `k` of the sorted rest. */
  lemma SortStep(t: seq<Product>, rest: seq<Product>, sortedRest: seq<Product>, k: nat,
                 result: seq<Product>, cmp: (Product, Product) -> int)
    requires t != [] && t[1..] == rest && StableSort(rest, cmp) == sortedRest
    requires k <= |sortedRest| && result == sortedRest[..k] + [t[0]] + sortedRest[k..]
    requires forall m :: 0 <= m < k ==> cmp(t[0], sortedRest[m]) > 0
    requires k == |sortedRest| || cmp(t[0], sortedRest[k]) <= 0
    ensures StableSort(t, cmp) == result
  {
    InsertSplit(t[0], sortedRest, k, cmp);
  }

  /** The insertion sort of the last four menswear products by price. */
  lemma FourByPrice(m5: Product, m6: Product, m7: Product, m8: Product, cmp: (Product, Product) -> int)
    requires forall a, b :: cmp(a, b) == a.price - b.price
    requires m6.price == 5000 && m5.price == 15000 && m7.price == 100000 && m8.price == 2000
    ensures StableSort([m5, m6, m7, m8], cmp) == [m8, m6, m5, m7]
  {
    assert StableSort([m8], cmp) == [m8] by {
      SortStep([m8], [], [], 0, [m8], cmp);
    }
    assert StableSort([m7, m8], cmp) == [m8, m7] by {
      SortStep([m7, m8], [m8], [m8], 1, [m8, m7], cmp);
    }
    assert StableSort([m6, m7, m8], cmp) == [m8, m6, m7] by {
      SortStep([m6, m7, m8], [m7, m8], [m8, m7], 1, [m8, m6, m7], cmp);
    }
    SortStep([m5, m6, m7, m8], [m6, m7, m8], [m8, m6, m7], 2, [m8, m6, m5, m7], cmp);
  }

  /** The insertion sort of the eight menswear products by price: the four
      products at 5000 ahead of the 5000 already placed keep their order. */
  lemma EightByPrice(m1: Product, m2: Product, m3: Product, m4: Product,
                     m5: Product, m6: Product, m7: Product, m8: Product, cmp: (Product, Product) -> int)
    requires forall a, b :: cmp(a, b) == a.price - b.price
    requires m1.price == m2.price == m3.price == m4.price == m6.price == 5000
    requires m5.price == 15000 && m7.price == 100000 && m8.price == 2000
    ensures StableSort([m1, m2, m3, m4, m5, m6, m7, m8], cmp) == [m8, m1, m2, m3, m4, m6, m5, m7]
  {
    FourByPrice(m5, m6, m7, m8, cmp);
    assert StableSort([m4, m5, m6, m7, m8], cmp) == [m8, m4, m6, m5, m7] by {
      SortStep([m4, m5, m6, m7, m8], [m5, m6, m7, m8], [m8, m6, m5, m7], 1, [m8, m4, m6, m5, m7], cmp);
    }
    assert StableSort([m3, m4, m5, m6, m7, m8], cmp) == [m8, m3, m4, m6, m5, m7] by {
      SortStep([m3, m4, m5, m6, m7, m8], [m4, m5, m6, m7, m8], [m8, m4, m6, m5, m7], 1,
               [m8, m3, m4, m6, m5, m7], cmp);
    }
    assert StableSort([m2, m3, m4, m5, m6, m7, m8], cmp) == [m8, m2, m3, m4, m6, m5, m7] by {
      SortStep([m2, m3, m4, m5, m6, m7, m8], [m3, m4, m5, m6, m7, m8], [m8, m3, m4, m6, m5, m7], 1,
               [m8, m2, m3, m4, m6, m5, m7], cmp);
    }
    SortStep([m1, m2, m3, m4, m5, m6, m7, m8], [m2, m3, m4, m5, m6, m7, m8], [m8, m2, m3, m4, m6, m5, m7], 1,
             [m8, m1, m2, m3, m4, m6, m5, m7], cmp);
  }

  /** The first view of the page: the eight menswear products, cheapest first,
      the five products at 5000 in catalogue order. */
  lemma DefaultsView(loc: Locale)
    ensures Pipeline(Products, Defaults, loc) == [M8, M1, M2, M3, M4, M6, M5, M7]
  {
    DefaultsNarrowed(loc);
    EightByPrice(M1, M2, M3, M4, M5, M6, M7, M8, Comparator(Defaults, loc));
  }
}
