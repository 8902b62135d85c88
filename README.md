# Product grid filtering and cart merge (`Cards`)

A Dafny model of the non-UI logic of the `Cards` component of the
NS_Polymers storefront (`src/Cards.jsx`):

- **the criteria pipeline**: `brandFilter`, `ratingFilter` and
  `amountRangeFilter`, and the `products.filter(...)` that keeps the products
  passing all three. An empty criteria list lets every product through. A
  non-empty list is an "any of" test: exact brand, `star_rating >= threshold`,
  or `min <= price <= max` for a `"min-max"` entry split on `-`;
- **the search stage** applied at render time. It keeps a product whose
  `product_name` is present and non-empty and whose lower-cased form includes
  the lower-cased query;
- **`Truncate`**, which shortens card titles and descriptions;
- **`handleAddToCart`**. It scans the stored cart and bumps the quantity of
  every entry with the product's id, treating a missing quantity as 0. When no
  entry matched, it appends the product with quantity 1.

Files:

- `wrappers.dfy`: `Option`. It stands for `null`/`undefined` and for a `NaN`
  parse.
- `strings.dfy`: the string built-ins the code leans on. These are `split`
  (with `Join`, proved to be its inverse), `parseFloat` on unsigned numerals,
  `toLowerCase` and `includes`.
- `seqs.dfy`: `Array.prototype.filter` and `Array.prototype.some`, and the
  subsequence order `filter` keeps.
- `catalog.dfy`: `Product`, `Criteria`, the three filters, the pipeline, the
  search and `Truncate`.
- `cart.dfy`: cart entries and `handleAddToCart`. The method's loop is proved
  against the specification function `Merged`. Lemmas about `Merged` cover
  repeated adds.
- `scenarios.dfy`: concrete cases (thresholds `["3","4"]`, range `"100-200"`,
  search `"pipe"`, the three truncations, two adds of one product).

Numbers: prices are whole numbers. Star ratings count half-stars, so `7` is
3.5 stars. Rating thresholds and range bounds stay strings, as in the source,
and are parsed by the model.

The model follows the code as written:

- `handleAddToCart` does not guard against a null selection.
- A stored entry may lack `quantity`, so quantity >= 1 is an invariant the
  merge keeps (`MergedKeepsQuantitiesPositive`), not a given.
- `handleAddToCart` does not recover from a corrupt stored value.

## Model

| member | source | states |
|---|---|---|
| `Strings.Split` | src/Cards.jsx:51 | `range.split("-")` yields at least one field, and no field contains the separator |
| `Strings.JoinSplit` | src/Cards.jsx:51 | joining the fields of a split with the separator restores the original string |
| `Strings.SplitJoin` | src/Cards.jsx:51 | splitting a join of separator-free fields restores the fields, so split and join are inverse |
| `Strings.Join` | src/Cards.jsx:51 | the inverse of `split`: the first field starts the joined text, and with two or more fields the separator occurs in it |
| `Strings.SplitWithoutSeparator` | src/Cards.jsx:51 | a string with no separator splits into itself alone |
| `Strings.SplitAfterField` | src/Cards.jsx:51 | a separator-free prefix followed by the separator becomes exactly the first field |
| `Strings.ParseNat` | src/Cards.jsx:53 | `parseFloat` of a bound gives a number exactly when the text is a non-empty numeral; otherwise `NaN` |
| `Strings.ParseShowNat` | src/Cards.jsx:53 | reading back the decimal numeral of `n` gives `n` |
| `Strings.Lower` | src/Cards.jsx:117-118 | `toLowerCase` keeps the length, leaves no upper-case ASCII letter, and keeps every character that is not one |
| `Strings.LowerIdempotent` | src/Cards.jsx:117-118 | lower-casing twice is the same as lower-casing once |
| `Strings.Includes` | src/Cards.jsx:116-118 | `includes` holds for the empty query, and never for a query longer than the text |
| `Strings.IncludesIffOccurs` | src/Cards.jsx:116-118 | `s.includes(t)` holds exactly when `t` occurs at some index of `s` |
| `Strings.IncludesEmpty` | src/Cards.jsx:118 | every string includes the empty query |
| `Strings.LowerKeepsIncludes` | src/Cards.jsx:116-118 | if a name includes the query verbatim, the lower-cased name includes the lower-cased query |
| `Seqs.Filter` | src/Cards.jsx:70-76 | `filter` keeps each passing value as often as it occurs, drops each failing one, and keeps the input's order (a subsequence) |
| `Seqs.FilterKeepsAll` | src/Cards.jsx:70-76 | a filter that every element passes returns its input unchanged |
| `Seqs.FilterAgreeing` | src/Cards.jsx:115-119 | two tests that agree on every element filter alike |
| `Seqs.SubsequenceTransitive` | src/Cards.jsx:113-119 | a subsequence of a subsequence is a subsequence, so the two filter stages compose |
| `Seqs.AnyOf` | src/Cards.jsx:41-43 | `some` holds exactly when some element passes the test |
| `Catalog.BrandFilter` | src/Cards.jsx:30-35 | passes iff no brand is selected or some selected brand equals the company exactly |
| `Catalog.RatingFilter` | src/Cards.jsx:37-44 | passes iff no threshold is selected or some threshold parses and the rating reaches it; an unparsable threshold never matches |
| `Catalog.ParseRating` | src/Cards.jsx:42 | `parseFloat(rating)` in half-stars: a threshold that parses has at most one `.` and its whole stars are the numeral before it; anything else is `NaN` |
| `Catalog.ParseRatingOfNumeral` | src/Cards.jsx:42 | threshold `"n"` parses to n stars and `"n.5"` to n and a half |
| `Catalog.AmountRangeFilter` | src/Cards.jsx:46-56 | passes iff no range is selected or some `"min-max"` entry parses and `min <= price <= max` |
| `Catalog.RangeBounds` | src/Cards.jsx:51-53 | `const [min, max] = range.split("-")` through `parseFloat`: a lower bound exists only when the entry starts with a digit, an upper bound only when it has a `-` |
| `Catalog.InRange` | src/Cards.jsx:52-54 | `price >= min && price <= max`, false against `NaN`, so only an entry that starts with a digit and has a `-` can match |
| `Catalog.InRangeOfNumerals` | src/Cards.jsx:50-55 | a well-formed entry `"lo-hi"` admits exactly the prices from lo to hi |
| `Catalog.LeadingDashNeverMatches` | src/Cards.jsx:51-53 | an entry starting with `-`, such as `"-5-10"`, has an empty first field and never matches (fails closed) |
| `Catalog.DashlessNeverMatches` | src/Cards.jsx:51-53 | an entry without `-` has an undefined upper bound and never matches |
| `Catalog.Passes` | src/Cards.jsx:70-76 | the conjunction of the three filters: with no criteria every product passes, and a product of an unselected brand never does |
| `Catalog.FilterProducts` | src/Cards.jsx:69-79 | the filtered list is an order-preserving subsequence of the catalog holding every product that passes all three filters, each as often as in the catalog, and no other |
| `Catalog.NoCriteriaKeepsAll` | src/Cards.jsx:69-79 | with all three criteria lists empty, the filtered list equals the catalog |
| `Catalog.Named` | src/Cards.jsx:116 | `product.product_name &&`: the name is present and non-empty, the same truthiness test under which `Truncate(product.product_name, 55)` shows it |
| `Catalog.SearchKeeps` | src/Cards.jsx:116-118 | the per-product search test: only a named product whose name is at least as long as the query can be kept |
| `Catalog.SearchProducts` | src/Cards.jsx:114-119 | the search keeps, in order and with multiplicity, exactly the products that have a non-empty name whose lower-cased form includes the lower-cased query |
| `Catalog.EmptyQueryKeepsNamed` | src/Cards.jsx:115-119 | with the default empty query, exactly the products with a non-empty name are kept |
| `Catalog.SearchIgnoresQueryCase` | src/Cards.jsx:115-119 | lower-casing the query first does not change the outcome of the search |
| `Catalog.SearchFindsVerbatim` | src/Cards.jsx:115-119 | a named product whose name contains the query verbatim is always kept |
| `Catalog.VisibleProducts` | src/Cards.jsx:113-119 | the rendered cards are a subsequence of the catalog, and a product is rendered, as often as it is in the catalog, iff it passes every criterion and the search |
| `Catalog.Truncate` | src/Cards.jsx:81-89 | a missing or empty text gives null; a text of at most `number` characters is returned unchanged; a longer one gives its first `number` characters followed by `...` (length `number + 3`) |
| `Catalog.TruncateBounded` | src/Cards.jsx:81-89 | any displayed text is at most three characters over the limit and begins like the original |
| `Cart.Load` | src/Cards.jsx:92 | the stored cart, defaulting to `[]`: an absent key gives the empty cart, and a stored list is used as it is |
| `Cart.Quantity` | src/Cards.jsx:97 | `item.quantity`, defaulting to 0: a missing quantity counts as 0, a present one as itself |
| `Cart.Bump` | src/Cards.jsx:96-99 | one step of the scan: product fields stay, a matching entry gains one unit and then carries a quantity, any other entry is untouched |
| `Cart.BumpAll` | src/Cards.jsx:95-100 | the whole scan: same length, each entry bumped in place, product fields and so ids unchanged |
| `Cart.Merged` | src/Cards.jsx:91-108 | if an entry has the product's id, the length is unchanged, every matching entry's quantity becomes old quantity (missing = 0) + 1 and every other entry is untouched; otherwise the product is appended with quantity 1 after the unchanged entries |
| `Cart.HandleAddToCart` | src/Cards.jsx:91-108 | the scan-then-push loop, starting from the stored cart (absent = empty), returns exactly `Merged` of the stored cart and the product |
| `Cart.MergedKeepsIdsUnique` | src/Cards.jsx:95-104 | adding a product to a cart with at most one entry per id keeps at most one entry per id |
| `Cart.MergedKeepsQuantitiesPositive` | src/Cards.jsx:97-103 | if every entry has a quantity of at least 1, so does every entry after an add |
| `Cart.BumpAllTotal` | src/Cards.jsx:95-100 | the scan adds one unit per entry carrying the id |
| `Cart.MergedAddsOneUnit` | src/Cards.jsx:91-104 | in a cart with one entry per id, each add raises the total quantity by exactly one |
| `Cart.AddTwiceToEmpty` | src/Cards.jsx:91-104 | adding the same product twice to an empty cart yields a single entry with quantity 2 |
| `Cart.AddTwoDistinctToEmpty` | src/Cards.jsx:91-104 | adding two products with different ids to an empty cart yields two entries, each with quantity 1, in order |
| `Scenarios.RatingThresholdScenario` | src/Cards.jsx:37-44 | thresholds `["3","4"]` admit a 3.5-star product |
| `Scenarios.PriceRangeScenario` | src/Cards.jsx:46-56 | the range `"100-200"` admits price 150 and rejects price 250 |
| `Scenarios.SearchScenario` | src/Cards.jsx:115-119 | the query `"pipe"` finds `"PVC Pipe 20mm"` |
| `Scenarios.TruncateScenario` | src/Cards.jsx:81-89 | `Truncate("Hello World", 5)` is `"Hello..."`, `Truncate("Hi", 5)` is `"Hi"`, and `Truncate(null, 5)` is null |
| `Scenarios.AddSameProductTwice` | src/Cards.jsx:91-108 | two calls of the method on one product, starting from an absent cart, store one entry with quantity 2 |

## Left out

- The catalog fetch with `axios.get` and its logged error (src/Cards.jsx:58-67) is network I/O. The catalog is an input sequence.
- `localStorage.getItem`/`setItem` and `JSON.parse`/`JSON.stringify` (src/Cards.jsx:92, 106) are browser storage. The stored cart is an `Option` passed in, where an absent key reads as empty. The returned list is what is both stored and passed on. A corrupt stored value, which throws in the source, is not modelled.
- `setInfo` and `handleCheckout` (src/Cards.jsx:107, 158, 183) are calls into the parent component. They only receive the list they are given.
- React state, the modal handlers and all rendering (src/Cards.jsx:16-28, 110-230) are UI. This includes the title tooltip for names of 50 characters or more, and the `filteredProducts.length > 0` guard, which does not change what is shown.
- `HandleAddToCart`: a null product (the modal's `selectedCard` before any card is chosen, src/Cards.jsx:176) is not representable, because `Product` is a datatype. In the source, `product.id` is read only inside the `forEach` callback (src/Cards.jsx:95-96), so with a non-empty stored cart the call throws. With an absent or empty stored cart it does not throw: `{ ...null, quantity: 1 }` (src/Cards.jsx:103) is `{quantity: 1}`, which is stored and passed to `setInfo`. The call cannot happen in practice, because the modal opens only through `onCardClick`, which sets `selectedCard` first (src/Cards.jsx:25-28).
- `HandleAddToCart`: the source mutates the parsed entries in place. Since they are freshly parsed and not shared, the model rebuilds the sequence instead.
- `AmountRangeFilter`: `parseFloat` is modelled on unsigned whole numerals only. Decimal bounds, leading whitespace, prefix parsing (`"100abc"`) and `Infinity` read as `NaN` here, and floating-point arithmetic is not modelled.
- `RatingFilter`: a threshold is read only as a whole number, or a whole number followed by `.5` or `.0`. Other forms `parseFloat` accepts (`"3.25"`, `"3."`, `"3.50"`) read as `NaN` here. Ratings are whole half-stars.
- `SearchProducts`: `toLowerCase` is modelled on ASCII letters only. Full Unicode case mapping is not.
- `Truncate`: lengths and cuts count characters (Unicode scalar values), not the UTF-16 code units that `string.length` and `slice` count (src/Cards.jsx:85, 88). Text outside the Basic Multilingual Plane is therefore cut differently: the source counts each such character as two, and its `slice` can split a surrogate pair, which the model cannot express.
- `Truncate`: `number` is a natural number. The only call sites pass 55, and a negative `number` would make `slice` count from the end.
- `Cart.Merged`: ids are compared as strings. JavaScript's `===` across mixed number/string ids is not modelled.
