/** Concrete cases of the catalog and cart behaviour, derived from the general
    lemmas. */
module Scenarios {
  import opened Wrappers
  import opened Strings
  import opened Catalog
  import opened Cart

  function SampleProduct(name: string, company: string, price: int, starRating: nat): Product
  {
    Product("p1", Some(name), Some("PVC conduit"), company, price, starRating, 10, "pipe.png")
  }

  /** Thresholds `["3", "4"]` admit a 3.5-star product, which reaches 3. */
  lemma RatingThresholdScenario()
    ensures RatingFilter(["3", "4"], SampleProduct("Pipe", "Acme", 150, 7))
  {
    ParseRatingOfNumeral(3);
    assert ShowNat(3) == "3";
  }

  /** The range `"100-200"` admits a price of 150 and rejects one of 250. */
  lemma PriceRangeScenario()
    ensures AmountRangeFilter(["100-200"], SampleProduct("Pipe", "Acme", 150, 7))
    ensures !AmountRangeFilter(["100-200"], SampleProduct("Pipe", "Acme", 250, 7))
  {
    assert ShowNat(100) == "100" by {
      assert ShowNat(10) == "10";
    }
    assert ShowNat(200) == "200" by {
      assert ShowNat(20) == "20";
    }
    InRangeOfNumerals(100, 200, 150);
    InRangeOfNumerals(100, 200, 250);
    assert "100" + "-" + "200" == "100-200";
  }

  /** Searching `"pipe"` finds `"PVC Pipe 20mm"`. */
  lemma SearchScenario()
    ensures SearchKeeps("pipe", SampleProduct("PVC Pipe 20mm", "Acme", 150, 7))
  {
    var name := "PVC Pipe 20mm";
    assert Lower(name) == "pvc pipe 20mm";
    assert Lower("pipe") == "pipe";
    assert OccursAt(Lower(name), Lower("pipe"), 4);
    IncludesIffOccurs(Lower(name), Lower("pipe"));
  }

  /** Three truncations: a long text, a short one and a missing one. */
  lemma TruncateScenario()
    ensures Truncate(Some("Hello World"), 5) == Some("Hello...")
    ensures Truncate(Some("Hi"), 5) == Some("Hi")
    ensures Truncate(None, 5) == None
  {
    assert "Hello World"[..5] + "..." == "Hello...";
  }

  /** Two clicks on the same card, starting from an absent cart, store one
      entry of two; the method and the specification agree. */
  method AddSameProductTwice(product: Product) returns (cart: seq<CartEntry>)
    ensures cart == [CartEntry(product, Some(2))]
  {
    var first := HandleAddToCart(None, product);
    cart := HandleAddToCart(Some(first), product);
    AddTwiceToEmpty(product);
  }
}
