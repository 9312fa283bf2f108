/** The derived, read-only parts of the `Products` view: the search filter
    (`filteredProducts`) and the three stock counts shown under the table. */
module ProductsFilter {
  import opened JsValues
  import opened BookRecords

  /** `!product || !product.name` is false: a non-null record with a name. */
  predicate Named(e: Entry)
  {
    e.Some? && e.value.name != ""
  }

  /** `product.barcode` is truthy: non-empty text or a non-zero number. */
  predicate BarcodeTruthy(b: Barcode)
  {
    match b
    case NoBarcode => false
    case TextCode(t) => t != ""
    case NumericCode(n) => n != 0
  }

  /** `product.barcode.toString()`. */
  function BarcodeText(b: Barcode): string
  {
    match b
    case NoBarcode => ""
    case TextCode(t) => t
    case NumericCode(n) => NumberToString(n)
  }

  /** The filter callback: a named record whose lower-cased name, or whose
      truthy barcode as written (not lower-cased), contains the lower-cased
      search term. A null or unnamed record never matches; with an empty
      term every named record does. */
  predicate Matches(e: Entry, searchTerm: string): (r: bool)
    ensures r ==> Named(e)
    ensures Named(e) && searchTerm == "" ==> r
  {
    && Named(e)
    && var searchLower := ToLower(searchTerm);
       || (IncludesEmpty(ToLower(e.value.name));
           Includes(ToLower(e.value.name), searchLower))
       || (BarcodeTruthy(e.value.barcode) && Includes(BarcodeText(e.value.barcode), searchLower))
  }

  /** The term is lower-cased before matching, so its case never matters. */
  lemma MatchIgnoresTermCase(e: Entry, searchTerm: string)
    ensures Matches(e, searchTerm) <==> Matches(e, ToLower(searchTerm))
  {
    ToLowerIdempotent(searchTerm);
  }

  /** `filteredProducts`: the records of `products` that match, in order. */
  function FilterProducts(products: seq<Entry>, searchTerm: string): (r: seq<Entry>)
    ensures NoNulls(r)
    ensures forall i :: 0 <= i < |r| ==> Named(r[i]) && Matches(r[i], searchTerm)
    ensures |r| <= |products|
  {
    if products == [] then []
    else if Matches(products[0], searchTerm) then [products[0]] + FilterProducts(products[1..], searchTerm)
    else FilterProducts(products[1..], searchTerm)
  }

  /** The filtered records keep their relative order in `products`. */
  lemma {:induction false} FilterKeepsOrder(products: seq<Entry>, searchTerm: string)
    ensures IsSubsequence(FilterProducts(products, searchTerm), products)
  {
    if products != [] {
      var rest := FilterProducts(products[1..], searchTerm);
      FilterKeepsOrder(products[1..], searchTerm);
      if Matches(products[0], searchTerm) {
        assert FilterProducts(products, searchTerm)[1..] == rest;
      } else {
        assert rest == [] || rest[0] != products[0];
      }
    }
  }

  /** A record is in the filtered list exactly when it is in `products` and
      matches, and then as often as it occurs in `products`. */
  lemma {:induction false} FilterCounts(products: seq<Entry>, searchTerm: string)
    ensures forall e :: multiset(FilterProducts(products, searchTerm))[e] ==
                          if Matches(e, searchTerm) then multiset(products)[e] else 0
    ensures forall e :: e in FilterProducts(products, searchTerm) <==> e in products && Matches(e, searchTerm)
  {
    if products != [] {
      FilterCounts(products[1..], searchTerm);
      assert products == [products[0]] + products[1..];
      assert multiset(products) == multiset([products[0]]) + multiset(products[1..]);
      if Matches(products[0], searchTerm) {
        assert multiset(FilterProducts(products, searchTerm)) ==
               multiset([products[0]]) + multiset(FilterProducts(products[1..], searchTerm));
      }
    }
  }

  /** With an empty search term the filtered list is every named record of
      `products`, each as often as it occurs there, and all of `products`
      when every record is named. */
  lemma {:induction false} EmptyTermKeepsNamed(products: seq<Entry>)
    ensures forall e :: multiset(FilterProducts(products, ""))[e] == if Named(e) then multiset(products)[e] else 0
    ensures (forall i :: 0 <= i < |products| ==> Named(products[i])) ==> FilterProducts(products, "") == products
  {
    FilterCounts(products, "");
    if products != [] {
      EmptyTermKeepsNamed(products[1..]);
    }
  }

  /** Filtering again with the same term changes nothing. */
  lemma {:induction false} FilterIdempotent(products: seq<Entry>, searchTerm: string)
    ensures FilterProducts(FilterProducts(products, searchTerm), searchTerm) == FilterProducts(products, searchTerm)
  {
    if products != [] {
      FilterIdempotent(products[1..], searchTerm);
    }
  }

  // ---------------------------------------------------------------------
  // Stock counts, as three separate filters over the filtered list

  /** `p.stock >= 20`; a missing stock compares false. */
  predicate HighStock(b: Book)
  {
    b.stock.Some? && b.stock.value >= 20
  }

  /** `p.stock >= 10 && p.stock < 20`. */
  predicate MediumStock(b: Book)
  {
    b.stock.Some? && 10 <= b.stock.value < 20
  }

  /** `p.stock < 10`. */
  predicate LowStock(b: Book)
  {
    b.stock.Some? && b.stock.value < 10
  }

  datatype Level = High | Medium | Low

  predicate InLevel(b: Book, level: Level)
  {
    match level
    case High => HighStock(b)
    case Medium => MediumStock(b)
    case Low => LowStock(b)
  }

  /** A record with a numeric stock lies in exactly one level; one without lies in none. */
  lemma LevelsPartition(b: Book)
    ensures b.stock.Some? <==> (InLevel(b, High) || InLevel(b, Medium) || InLevel(b, Low))
    ensures !(InLevel(b, High) && InLevel(b, Medium))
    ensures !(InLevel(b, High) && InLevel(b, Low))
    ensures !(InLevel(b, Medium) && InLevel(b, Low))
  {
  }

  /** `list.filter((p) => <level test>).length`. */
  function CountLevel(s: seq<Entry>, level: Level): (n: nat)
    requires NoNulls(s)
    ensures n <= |s|
  {
    if s == [] then 0
    else (if InLevel(s[0].value, level) then 1 else 0) + CountLevel(s[1..], level)
  }

  /** The number of records whose stock is a number. */
  function CountNumeric(s: seq<Entry>): (n: nat)
    requires NoNulls(s)
    ensures n <= |s|
    ensures (forall i :: 0 <= i < |s| ==> s[i].value.stock.Some?) ==> n == |s|
  {
    if s == [] then 0
    else (if s[0].value.stock.Some? then 1 else 0) + CountNumeric(s[1..])
  }

  /** The three counts add up to the number of records with a numeric stock. */
  lemma {:induction false} LevelCountsSum(s: seq<Entry>)
    requires NoNulls(s)
    ensures CountLevel(s, High) + CountLevel(s, Medium) + CountLevel(s, Low) == CountNumeric(s)
  {
    if s != [] {
      LevelsPartition(s[0].value);
      LevelCountsSum(s[1..]);
    }
  }

  /** What the page shows about the filtered list: its length (the "Total
      libros" header), the low count of the header, and the three boxes. */
  datatype StockSummary = StockSummary(total: nat, headerLow: nat, high: nat, medium: nat, low: nat)

  function Summarize(filtered: seq<Entry>): (r: StockSummary)
    requires NoNulls(filtered)
    ensures r.total == |filtered|
    ensures r.headerLow == r.low
    ensures r.high + r.medium + r.low <= r.total
    ensures (forall i :: 0 <= i < |filtered| ==> filtered[i].value.stock.Some?) ==>
              r.high + r.medium + r.low == r.total
  {
    LevelCountsSum(filtered);
    StockSummary(|filtered|, CountLevel(filtered, Low),
                 CountLevel(filtered, High), CountLevel(filtered, Medium), CountLevel(filtered, Low))
  }

  /** A worked example: books "Dune" (stock 5) and "1984"
      (stock 25); searching "du" keeps only "Dune", one low and no high. */
  lemma DuneExample()
    ensures
      var dune := Some(Book("1", "Dune", "", Some(5), "", NoBarcode));
      var orwell := Some(Book("2", "1984", "", Some(25), "", NoBarcode));
      var filtered := FilterProducts([dune, orwell], "du");
      && filtered == [dune]
      && CountLevel(filtered, Low) == 1
      && CountLevel(filtered, High) == 0
  {
    var dune := Some(Book("1", "Dune", "", Some(5), "", NoBarcode));
    var orwell := Some(Book("2", "1984", "", Some(25), "", NoBarcode));
    assert ToLower("du") == "du";
    assert ToLower("Dune") == "dune";
    assert OccursAt("dune", "du", 0);
    assert Matches(dune, "du");
    assert !Includes(ToLower("1984"), "du") by {
      assert ToLower("1984") == "1984";
      forall i | 0 <= i <= 2
        ensures !OccursAt("1984", "du", i)
      {
        assert "1984"[i] != 'd';
      }
    }
    assert !Matches(orwell, "du");
    assert FilterProducts([orwell], "du") == [];
  }
}
