# Storefront catalogue and cart

A model of the logic of the storefront page `src/pages/Index.tsx`. The page
shows a hard-coded catalogue of sixteen products, and it has two pieces of logic.

- **The catalogue view** (`filteredProducts`). The page keeps the products of
  the selected category. It then drops the non-exclusive ones when the
  exclusivity switch is on, keeps the prices inside the inclusive range, and
  keeps the names containing the search text, ignoring case, when the search
  box is not empty. Last, it sorts the rest by price (ascending or descending)
  or by name.
- **The cart** (`addToCart`, `removeFromCart`, `cartTotal`). The cart is an
  ordered list of lines, each a product and a quantity. Adding a product bumps
  the quantity of its line or appends a new line with quantity one. Removing
  drops the product's line. The total is the sum of price times quantity.

The modules follow this split:

- `Sequences` models the JavaScript runtime operations the page uses:
  `Array.prototype.filter` as `Filter` and `String.prototype.includes` as
  `Includes`.
- `Sorting` models `Array.prototype.sort`. ECMAScript 2019 and later require
  the sort to be stable, so it is specified as the stable insertion sort
  `StableSort`. `SortInPlace` sorts an array in place to exactly that result.
- `Catalogue` holds the `Category` and `Product` types and the sixteen products.
- `Pipeline` holds the controls of the page (`FilterState`), the comparator,
  and the specification function `Pipeline`. `Narrow` and `FilteredProducts`
  are the page's stage-by-stage computation, proved equal to that function.
  The lemmas state soundness, exactness, ordering, stability and the first
  view of the page.
- `Cart` holds the pure line transforms (`AddLine`, `RemoveLines`,
  `CartTotal`), their lemmas, and the class `ShoppingCart`. The page's cart
  state cell becomes the class field `lines`, which `Add` and `Remove` reassign.

`toLowerCase` and `localeCompare` depend on the JavaScript engine's locale.
They stay abstract, as the two fields of a `Locale` value that the pipeline
takes as a parameter. The only fact ever assumed about them is `Consistent`,
and only for the name sort: swapping the arguments flips the sign of the
comparison, and "sorts no later than" is transitive.

The sort selector offers three keys (`src/pages/Index.tsx:209-211`), but
`sortBy` is a plain string and the comparator accepts any key. For an unknown
key it answers 0, so the catalogue order is kept. The model follows the code
here: see `Unrecognized` and the last ensures of `PipelineOrdered`.

## Model

| member | source | states |
|---|---|---|
| Sequences.Filter | src/pages/Index.tsx:53 | the result is no longer than the input, and holds exactly the input's elements that pass the test |
| Sequences.FilterCounts | src/pages/Index.tsx:53 | filtering keeps every occurrence of a passing element and no occurrence of any other |
| Sequences.FilterAppend | src/pages/Index.tsx:53 | filtering a concatenation is concatenating the filtered parts, so filtering never reorders |
| Sequences.FilterFilter | src/pages/Index.tsx:53-63 | two filter stages in a row equal one filter by the conjunction of their tests |
| Sequences.FilterKeepsAll | src/pages/Index.tsx:53 | a filter that every element passes returns its input unchanged |
| Sequences.FilterDropsAll | src/pages/Index.tsx:53 | a filter that no element passes returns the empty list |
| Sequences.Includes | src/pages/Index.tsx:62 | `includes` holds exactly when the query occurs as a contiguous piece of the name at some position |
| Sorting.StableSortPermutes | src/pages/Index.tsx:65-70 | sorting is a permutation: every element keeps its number of occurrences |
| Sorting.StableSortSorted | src/pages/Index.tsx:65-70 | for a consistent comparator, no later element of the result sorts strictly before an earlier one |
| Sorting.StableSortStable | src/pages/Index.tsx:65-70 | the elements the comparator ranks equal to any given one keep their relative order |
| Sorting.StableSortOfSorted | src/pages/Index.tsx:69 | an already ordered list, in particular any list under a comparator that always answers 0, is left as it is |
| Sorting.StableSortIdempotent | src/pages/Index.tsx:65-70 | sorting a sorted result again changes nothing |
| Sorting.InsertSplit | src/pages/Index.tsx:65-70 | an insertion step places the element after exactly the leading elements it sorts after |
| Sorting.ShiftPast | src/pages/Index.tsx:65-70 | the elements the moved element sorts after shift one place left, it lands in the gap, and every other cell keeps its value |
| Sorting.InsertAt | src/pages/Index.tsx:65-70 | one in-place insertion step leaves the array equal to the prefix followed by the element inserted into the sorted suffix |
| Sorting.SortInPlace | src/pages/Index.tsx:65-70 | the in-place sort leaves the array equal to the stable sort of its old contents |
| Catalogue.CatalogueIdsUnique | src/pages/Index.tsx:25-42 | the catalogue has sixteen entries and no two share an id |
| Catalogue.CatalogueSections | src/pages/Index.tsx:25-42 | the catalogue lists the eight menswear products first, then the womenswear and the other products |
| Pipeline.Narrow | src/pages/Index.tsx:53-63 | the four stages, each skipped when its control is off, give the catalogue entries that pass every active test, in catalogue order |
| Pipeline.FilteredProducts | src/pages/Index.tsx:52-73 | the view computed by narrowing and then sorting a fresh array in place equals the specification `Pipeline` |
| Pipeline.PipelineExact | src/pages/Index.tsx:53-72 | the view holds each passing catalogue entry exactly as often as the catalogue does, and nothing else |
| Pipeline.PipelineSound | src/pages/Index.tsx:53-63 | every product in the view has the selected category, is exclusive when the switch is on, has a price inside the inclusive range, and contains the lower-cased query in its lower-cased name when the query is not empty |
| Pipeline.EmptyQueryIgnoresNames | src/pages/Index.tsx:61-63 | with an empty search box a product is in the view exactly when it passes the other three tests |
| Pipeline.ComparatorConsistent | src/pages/Index.tsx:65-70 | the page's comparator is consistent whenever the locale's comparison is (it is only needed for the name key) |
| Pipeline.PipelineOrdered | src/pages/Index.tsx:65-70 | prices never decrease for "price-asc" and never increase for "price-desc", names are in the locale's order for "name", and any other key keeps catalogue order |
| Pipeline.PipelineStable | src/pages/Index.tsx:65-70 | products the comparator ranks equal keep their catalogue order in the view |
| Pipeline.PipelineIdempotent | src/pages/Index.tsx:52-73 | computing the view from the view itself gives the same view |
| Pipeline.DefaultsNarrowed | src/pages/Index.tsx:25-63 | under the initial controls the filters keep exactly the eight menswear products |
| Pipeline.EightByPrice | src/pages/Index.tsx:65-66 | sorting the eight menswear products by price puts the 2000 item first and the 100000 item last, and keeps the five items at 5000 in catalogue order |
| Pipeline.DefaultsView | src/pages/Index.tsx:25-73 | the first view of the page is m8, m1, m2, m3, m4, m6, m5, m7 |
| Cart.HasLine | src/pages/Index.tsx:77 | `find` succeeds exactly when some line holds a product with the id |
| Cart.AddExisting | src/pages/Index.tsx:77-83 | adding a product that has a line raises that line's quantity by one and leaves the length and every other line as they were |
| Cart.AddNew | src/pages/Index.tsx:85 | adding a product without a line appends one line with quantity one after the untouched earlier lines |
| Cart.AddPreservesValid | src/pages/Index.tsx:75-87 | adding keeps the ids unique and every quantity at least one |
| Cart.RemovePreservesValid | src/pages/Index.tsx:89-91 | removing keeps the ids unique and every quantity at least one |
| Cart.RemoveAbsent | src/pages/Index.tsx:90 | removing an id that has no line leaves the cart unchanged |
| Cart.RemoveExisting | src/pages/Index.tsx:90 | removing the product of a line deletes exactly that line and keeps the order of the rest |
| Cart.TotalAppend | src/pages/Index.tsx:93 | the total of two lists of lines laid end to end is the sum of their totals |
| Cart.TotalIsSum | src/pages/Index.tsx:93 | the page's left fold of price times quantity equals the plain sum of the line totals (0 for no lines) |
| Cart.TotalAfterAdd | src/pages/Index.tsx:75-93 | adding a product raises the total by its price, when any line already held for its id carries the same price |
| Cart.TotalAfterRemove | src/pages/Index.tsx:89-93 | removing a product's line lowers the total by exactly that line's total |
| Cart.ShoppingCart.constructor | src/pages/Index.tsx:49 | the cart starts empty and valid |
| Cart.ShoppingCart.Add | src/pages/Index.tsx:75-87 | the add action replaces the lines by the add transform and keeps the invariant; with agreeing prices the total rises by the price |
| Cart.ShoppingCart.Remove | src/pages/Index.tsx:89-91 | the remove action replaces the lines by the remove transform and keeps the invariant; an absent id changes nothing, and a removed line's total leaves the cart total |
| Cart.AddTwice | src/pages/Index.tsx:75-93 | adding one product twice to an empty cart gives one line of quantity two, and a total of twice the price |
| Cart.AddThriceThenRemove | src/pages/Index.tsx:75-93 | adding one product three times and then removing it leaves an empty cart with total 0 |

## Left out

- Rendering: the JSX markup, styling, sheet, cards, badges, slider, select and icons are presentational only.
- React state: `useState` and `useMemo` are not modelled. Recomputing the view is a call of `FilteredProducts`, and a cart update is a call of `Add` or `Remove` on a `ShoppingCart`.
- Locale behaviour: `toLowerCase` and `localeCompare` are fields of a `Locale` parameter, with no case mapping and no collation. As a result, the example search for "футболка", whose outcome depends on case mapping, is not modelled. The name-sort lemmas assume the comparison is `Consistent`.
- Number formatting: `toLocaleString` only formats prices for display, so it is not modelled.
- Number width: prices, quantities and totals are unbounded `nat`s, not IEEE doubles. Doubles are exact for integers up to 2^53; the page and the model agree below that bound.
- Slider limits: the widget's min, max and step are not modelled; the pipeline accepts any pair of bounds.
- Product fields: `image`, `sizes`, `colors` and `limited` are display only, so the `Product` record leaves them out.
- Checkout: the checkout button has no handler, so there is nothing to model.
- Sort algorithm: the engine's sort algorithm is not modelled. The model fixes what a stable sort produces, and carries it out as an insertion sort.
- Catalogue order: the catalogue is a value (`seq`), so the fact that sorting the fresh array returned by `filter` leaves `products` unreordered holds by construction. Aliasing is not modelled.
- Cart.TotalAfterAdd: states the rise of the total only when the line already held for the id carries the added product's price. The page keeps the old product record on a bumped line, so with a different price the total rises by the old price.
