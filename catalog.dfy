/** The product grid of `Cards`: the three criteria filters, their conjunction
    over the fetched catalog, the text search applied at render time, and the
    truncation helper used for card titles and descriptions. */
module Catalog {
  import opened Wrappers
  import opened Strings
  import opened Seqs

  /** A catalog product. `starRating` counts half-stars (7 stands for 3.5), so
      the half-step ratings of the catalog are exact; prices are whole rupees.
      A missing name or description is `None`. */
  datatype Product = Product(
    id: string,
    productName: Option<string>,
    description: Option<string>,
    company: string,
    price: int,
    starRating: nat,
    stock: int,
    image: string)

  /** The three criteria lists handed in by the parent component; an empty
      list puts no constraint on the products. */
  datatype Criteria = Criteria(
    priceRanges: seq<string>,
    brands: seq<string>,
    ratings: seq<string>)

  // ---------------------------------------------------------------------------
  // Brand
  // ---------------------------------------------------------------------------

  /** `brandFilter`: with brands selected, the company must be one of them. */
  function BrandFilter(brands: seq<string>, p: Product): (r: bool)
    ensures r <==> |brands| == 0 || exists k :: 0 <= k < |brands| && brands[k] == p.company
  {
    if |brands| == 0 then true else p.company in brands
  }

  // ---------------------------------------------------------------------------
  // Rating
  // ---------------------------------------------------------------------------

  /** `parseFloat` of a rating threshold, in half-stars: a whole number, or a
      whole number followed by `.5` or `.0`. Anything else reads as `NaN`.
      A threshold that parses has at most one `.`, and its whole stars are the
      numeral before it. */
  function ParseRating(t: string): (r: Option<nat>)
    ensures r.Some? ==> |Split(t, '.')| <= 2
    ensures r.Some? ==> ParseNat(Split(t, '.')[0]).Some? &&
                        r.value / 2 == ParseNat(Split(t, '.')[0]).value
  {
    var parts := Split(t, '.');
    match ParseNat(parts[0])
    case None => None
    case Some(n) =>
      if |parts| == 1 then Some(2 * n)
      else if |parts| == 2 && parts[1] == "0" then Some(2 * n)
      else if |parts| == 2 && parts[1] == "5" then Some(2 * n + 1)
      else None
  }

  /** The threshold `"n"` means `n` stars and `"n.5"` means `n` and a half. */
  lemma ParseRatingOfNumeral(n: nat)
    ensures ParseRating(ShowNat(n)) == Some(2 * n)
    ensures ParseRating(ShowNat(n) + ".5") == Some(2 * n + 1)
  {
    var numeral := ShowNat(n);
    ParseShowNat(n);
    NumeralHasNoSeparator(n, '.');
    assert Split(numeral, '.') == [numeral] by {
      SplitWithoutSeparator(numeral, '.');
    }
    assert Split(numeral + ".5", '.') == [numeral, "5"] by {
      SplitAfterField(numeral, '.', "5");
      SplitWithoutSeparator("5", '.');
      assert numeral + ['.'] + "5" == numeral + ".5";
    }
  }

  /** `ratingFilter`: with thresholds selected, the rating must reach one of
      them; the comparison `>=` is false against a `NaN` threshold. */
  function RatingFilter(ratings: seq<string>, p: Product): (r: bool)
    ensures r <==> (|ratings| == 0 ||
      exists k :: 0 <= k < |ratings| && ParseRating(ratings[k]).Some? &&
                  p.starRating >= ParseRating(ratings[k]).value)
  {
    if |ratings| == 0 then true
    else AnyOf(ratings, (t: string) => ParseRating(t).Some? && p.starRating >= ParseRating(t).value)
  }

  // ---------------------------------------------------------------------------
  // Price range
  // ---------------------------------------------------------------------------

  /** `const [min, max] = range.split("-")`, each bound through `parseFloat`;
      a missing field is `undefined` and parses to `NaN`. A lower bound
      exists only when the entry starts with a digit, and an upper bound only
      when the entry has a `-`. */
  function RangeBounds(range: string): (bounds: (Option<nat>, Option<nat>))
    ensures bounds.0.Some? ==> range != [] && IsDigit(range[0])
    ensures bounds.1.Some? ==> '-' in range
  {
    var fields := Split(range, '-');
    if '-' !in range then
      SplitWithoutSeparator(range, '-');
      (ParseNat(fields[0]), None)
    else
      (ParseNat(fields[0]), if |fields| >= 2 then ParseNat(fields[1]) else None)
  }

  /** `price >= min && price <= max`, false when either bound is `NaN`; so
      only an entry that starts with a digit and has a `-` can match. */
  predicate InRange(range: string, price: int): (r: bool)
    ensures r ==> range != [] && IsDigit(range[0]) && '-' in range
  {
    var (lo, hi) := RangeBounds(range);
    lo.Some? && hi.Some? && lo.value <= price <= hi.value
  }

  /** A well-formed entry `"lo-hi"` admits exactly the prices from `lo` to `hi`. */
  lemma InRangeOfNumerals(lo: nat, hi: nat, price: int)
    ensures InRange(ShowNat(lo) + "-" + ShowNat(hi), price) <==> lo <= price <= hi
  {
    NumeralHasNoSeparator(lo, '-');
    NumeralHasNoSeparator(hi, '-');
    ParseShowNat(lo);
    ParseShowNat(hi);
    SplitJoin([ShowNat(lo), ShowNat(hi)], '-');
    assert Join([ShowNat(lo), ShowNat(hi)], '-') == ShowNat(lo) + "-" + ShowNat(hi);
  }

  /** An entry that starts with `-` (a negative lower bound) splits into an
      empty first field and so never matches. */
  lemma LeadingDashNeverMatches(range: string, price: int)
    requires range != [] && range[0] == '-'
    ensures !InRange(range, price)
  {
  }

  /** An entry without a `-` has no upper bound and so never matches. */
  lemma DashlessNeverMatches(range: string, price: int)
    requires '-' !in range
    ensures !InRange(range, price)
  {
  }

  /** `amountRangeFilter`: with ranges selected, the price must lie in one. */
  function AmountRangeFilter(ranges: seq<string>, p: Product): (r: bool)
    ensures r <==> |ranges| == 0 || exists k :: 0 <= k < |ranges| && InRange(ranges[k], p.price)
  {
    if |ranges| == 0 then true
    else AnyOf(ranges, (range: string) => InRange(range, p.price))
  }

  // ---------------------------------------------------------------------------
  // The criteria pipeline
  // ---------------------------------------------------------------------------

  /** The conjunction applied to each product, in the source's order. With no
      criteria every product passes; a product of an unselected brand never does. */
  predicate Passes(c: Criteria, p: Product): (r: bool)
    ensures c.priceRanges == [] && c.ratings == [] && c.brands == [] ==> r
    ensures |c.brands| > 0 && p.company !in c.brands ==> !r
  {
    AmountRangeFilter(c.priceRanges, p) && RatingFilter(c.ratings, p) && BrandFilter(c.brands, p)
  }

  /** `products.filter(...)` in the second effect: the products that pass all
      three filters, each as often as in the catalog, in catalog order. */
  function FilterProducts(products: seq<Product>, c: Criteria): (r: seq<Product>)
    ensures forall p :: multiset(r)[p] == if Passes(c, p) then multiset(products)[p] else 0
    ensures forall p :: p in r <==> p in products && Passes(c, p)
    ensures IsSubsequence(r, products)
  {
    Filter(products, (p: Product) => Passes(c, p))
  }

  /** With no criteria selected, every product is shown. */
  lemma NoCriteriaKeepsAll(products: seq<Product>)
    ensures FilterProducts(products, Criteria([], [], [])) == products
  {
    FilterKeepsAll(products, (p: Product) => Passes(Criteria([], [], []), p));
  }

  // ---------------------------------------------------------------------------
  // Search at render time
  // ---------------------------------------------------------------------------

  /** A product whose name is present and non-empty (JavaScript-truthy): the
      same test under which `Truncate` displays the name on its card. */
  predicate Named(p: Product): (r: bool)
    ensures r <==> Truncate(p.productName, 55).Some?
  {
    p.productName.Some? && p.productName.value != ""
  }

  /** The render-time test: a name that, lower-cased, includes the lower-cased
      query. Only a named product whose name is at least as long as the query
      can be kept. */
  predicate SearchKeeps(query: string, p: Product): (r: bool)
    ensures r ==> Named(p) && |query| <= |p.productName.value|
  {
    Named(p) && Includes(Lower(p.productName.value), Lower(query))
  }

  /** The `.filter` in the render: the products the search keeps, in order. */
  function SearchProducts(products: seq<Product>, query: string): (r: seq<Product>)
    ensures forall p :: multiset(r)[p] == if SearchKeeps(query, p) then multiset(products)[p] else 0
    ensures forall p :: p in r <==> p in products && SearchKeeps(query, p)
    ensures IsSubsequence(r, products)
  {
    Filter(products, (p: Product) => SearchKeeps(query, p))
  }

  /** An empty query keeps exactly the products that have a name. */
  lemma EmptyQueryKeepsNamed(products: seq<Product>)
    ensures SearchProducts(products, "") == Filter(products, Named)
  {
  }

  /** The search ignores the case of the query. */
  lemma SearchIgnoresQueryCase(query: string, p: Product)
    ensures SearchKeeps(query, p) == SearchKeeps(Lower(query), p)
  {
    LowerIdempotent(query);
  }

  /** A named product whose name contains the query verbatim is always found. */
  lemma SearchFindsVerbatim(query: string, p: Product)
    requires Named(p) && Includes(p.productName.value, query)
    ensures SearchKeeps(query, p)
  {
    LowerKeepsIncludes(p.productName.value, query);
  }

  /** What the grid renders: the criteria pipeline, then the search. The
      rendered cards are catalog products in catalog order, and a product is
      rendered, as often as it is in the catalog, exactly when it passes every
      criterion and the search. */
  function VisibleProducts(products: seq<Product>, c: Criteria, query: string): (r: seq<Product>)
    ensures IsSubsequence(r, products)
    ensures forall p :: multiset(r)[p] ==
                        if Passes(c, p) && SearchKeeps(query, p) then multiset(products)[p] else 0
    ensures forall p :: p in r <==> p in products && Passes(c, p) && SearchKeeps(query, p)
  {
    var filtered := FilterProducts(products, c);
    var visible := SearchProducts(filtered, query);
    SubsequenceTransitive(visible, filtered, products);
    visible
  }

  // ---------------------------------------------------------------------------
  // Truncate
  // ---------------------------------------------------------------------------

  /** `Truncate(string, number)`: a missing or empty text gives `null`; a text
      that fits is kept; a longer one is cut to `number` characters and ends in
      an ellipsis. */
  function Truncate(s: Option<string>, number: nat): (r: Option<string>)
    ensures r.None? <==> s.None? || s.value == ""
    ensures r.Some? && |s.value| <= number ==> r == s
    ensures r.Some? && |s.value| > number ==>
      |r.value| == number + 3 && r.value[..number] == s.value[..number] && r.value[number..] == "..."
  {
    match s
    case None => None
    case Some(text) =>
      if text == "" then None
      else if |text| <= number then Some(text)
      else Some(text[..number] + "...")
  }

  /** Whatever is displayed is at most three characters over the limit and
      starts with what the original starts with. */
  lemma TruncateBounded(s: Option<string>, number: nat)
    requires Truncate(s, number).Some?
    ensures |Truncate(s, number).value| <= number + 3
    ensures var k := if |s.value| < number then |s.value| else number;
      Truncate(s, number).value[..k] == s.value[..k]
  {
  }
}
