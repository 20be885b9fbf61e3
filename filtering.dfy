/**
  The list filters. Each keeps, in their original order, exactly the listings
  that satisfy one condition; all but the exclusion filter are single list
  comprehensions, which `Select` models.
*/
module Filtering {
  import opened Optional
  import opened Text
  import opened Sequences
  import opened Products

  // ---------------------------------------------------------------------
  // Conditions
  // ---------------------------------------------------------------------

  /** The store names agree ignoring letter case. */
  predicate InStore(p: Product, store: string) { Lower(p.store) == Lower(store) }

  predicate HasSize(p: Product, size: int) { p.packageSize == Some(size) }

  /** Inclusive at both ends; an absent bound imposes nothing. */
  predicate InPriceRange(p: Product, minPrice: Option<real>, maxPrice: Option<real>)
  {
    (minPrice.None? || p.price >= minPrice.value) &&
    (maxPrice.None? || p.price <= maxPrice.value)
  }

  /** Unknown stock never qualifies. */
  predicate InStock(p: Product, minStock: int) { p.stock.Some? && p.stock.value >= minStock }

  /** Some pattern, lower-cased, occurs in the lower-cased name. */
  predicate NameHasPattern(p: Product, patterns: set<string>)
  {
    exists pattern :: pattern in patterns && IsSubstring(Lower(pattern), Lower(p.name))
  }

  function StoreIs(store: string): Product -> bool { p => InStore(p, store) }
  function SizeIs(size: int): Product -> bool { p => HasSize(p, size) }
  function Single(): Product -> bool { p => IsSingle(p) }
  function Multipack(): Product -> bool { p => IsMultipack(p) }
  function PriceAtLeast(bound: real): Product -> bool { (p: Product) => p.price >= bound }
  function PriceAtMost(bound: real): Product -> bool { (p: Product) => p.price <= bound }
  function AvailabilityIs(available: bool): Product -> bool { (p: Product) => p.available == available }
  function StockAtLeast(minStock: int): Product -> bool { p => InStock(p, minStock) }
  function NotExcluded(patterns: set<string>): Product -> bool { p => !NameHasPattern(p, patterns) }

  // ---------------------------------------------------------------------
  // Filters
  // ---------------------------------------------------------------------

  function FilterByStore(ps: seq<Product>, store: string): (r: seq<Product>)
    ensures Subsequence(r, ps)
    ensures forall p :: multiset(r)[p] == if InStore(p, store) then multiset(ps)[p] else 0
  {
    SelectSpec(ps, StoreIs(store));
    Select(ps, StoreIs(store))
  }

  /** No size means single bars; a size means exactly that size. */
  function FilterByPackageSize(ps: seq<Product>, size: Option<int>): (r: seq<Product>)
    ensures Subsequence(r, ps)
    ensures size.None? ==> forall p :: multiset(r)[p] == if IsSingle(p) then multiset(ps)[p] else 0
    ensures size.Some? ==> forall p :: multiset(r)[p] == if HasSize(p, size.value) then multiset(ps)[p] else 0
  {
    SelectSpec(ps, Single());
    if size.None? then Select(ps, Single())
    else
      SelectSpec(ps, SizeIs(size.value));
      Select(ps, SizeIs(size.value))
  }

  function FilterByPriceRange(ps: seq<Product>, minPrice: Option<real>, maxPrice: Option<real>): (r: seq<Product>)
    ensures Subsequence(r, ps)
    ensures forall p :: multiset(r)[p] == if InPriceRange(p, minPrice, maxPrice) then multiset(ps)[p] else 0
    ensures minPrice.None? && maxPrice.None? ==> r == ps
  {
    var atLeast :=
      if minPrice.Some? then
        SelectSpec(ps, PriceAtLeast(minPrice.value));
        Select(ps, PriceAtLeast(minPrice.value))
      else ps;
    var r :=
      if maxPrice.Some? then
        SelectSpec(atLeast, PriceAtMost(maxPrice.value));
        Select(atLeast, PriceAtMost(maxPrice.value))
      else atLeast;
    SubsequenceReflexive(ps);
    SubsequenceReflexive(atLeast);
    SubsequenceTransitive(r, atLeast, ps);
    r
  }

  function FilterAvailable(ps: seq<Product>, onlyAvailable: bool): (r: seq<Product>)
    ensures Subsequence(r, ps)
    ensures forall p :: multiset(r)[p] == if p.available == onlyAvailable then multiset(ps)[p] else 0
  {
    SelectSpec(ps, AvailabilityIs(onlyAvailable));
    Select(ps, AvailabilityIs(onlyAvailable))
  }

  function FilterInStock(ps: seq<Product>, minStock: int): (r: seq<Product>)
    ensures Subsequence(r, ps)
    ensures forall p :: multiset(r)[p] == if InStock(p, minStock) then multiset(ps)[p] else 0
  {
    SelectSpec(ps, StockAtLeast(minStock));
    Select(ps, StockAtLeast(minStock))
  }

  function FilterSingles(ps: seq<Product>): (r: seq<Product>)
    ensures Subsequence(r, ps)
    ensures forall p :: multiset(r)[p] == if IsSingle(p) then multiset(ps)[p] else 0
  {
    SelectSpec(ps, Single());
    Select(ps, Single())
  }

  function FilterMultipacks(ps: seq<Product>): (r: seq<Product>)
    ensures Subsequence(r, ps)
    ensures forall p :: multiset(r)[p] == if IsMultipack(p) then multiset(ps)[p] else 0
  {
    SelectSpec(ps, Multipack());
    Select(ps, Multipack())
  }

  /** The exclusion filter's specification: no patterns (absent or empty) keeps everything. */
  function WithoutExcluded(ps: seq<Product>, patterns: Option<set<string>>): (r: seq<Product>)
    ensures Subsequence(r, ps)
    ensures patterns.None? || patterns.value == {} ==> r == ps
    ensures patterns.Some? ==>
              forall p :: multiset(r)[p] == if NameHasPattern(p, patterns.value) then 0 else multiset(ps)[p]
  {
    if patterns.None? || patterns.value == {} then
      SubsequenceReflexive(ps);
      ps
    else
      SelectSpec(ps, NotExcluded(patterns.value));
      Select(ps, NotExcluded(patterns.value))
  }

  /** One step of a left-to-right selection: the next element is appended when kept. */
  lemma SelectSnoc(ps: seq<Product>, i: nat, keep: Product -> bool)
    requires i < |ps|
    ensures Select(ps[..i + 1], keep) == Select(ps[..i], keep) + if keep(ps[i]) then [ps[i]] else []
  {
    assert ps[..i + 1] == ps[..i] + [ps[i]];
    SelectAppend(ps[..i], [ps[i]], keep);
    assert Select([ps[i]], keep) == (if keep(ps[i]) then [ps[i]] else []) + Select([], keep);
  }

  /**
    The exclusion filter as `filter_by_excluded_patterns` runs it: for each listing, scan the
    patterns until one occurs in the lower-cased name, and keep the listing
    only if none does.
  */
  method FilterByExcludedPatterns(ps: seq<Product>, patterns: Option<set<string>>) returns (r: seq<Product>)
    ensures r == WithoutExcluded(ps, patterns)
  {
    if patterns.None? || patterns.value == {} {
      return ps;
    }
    var pats := patterns.value;
    r := [];
    var i := 0;
    while i < |ps|
      invariant 0 <= i <= |ps|
      invariant r == Select(ps[..i], NotExcluded(pats))
    {
      var nameLower := Lower(ps[i].name);
      var shouldInclude := true;
      var rest := pats;
      while rest != {}
        invariant rest <= pats
        invariant shouldInclude
        invariant forall q :: q in pats && q !in rest ==> !IsSubstring(Lower(q), nameLower)
      {
        var pattern :| pattern in rest;
        if IsSubstring(Lower(pattern), nameLower) {
          shouldInclude := false;
          break;
        }
        rest := rest - {pattern};
      }
      assert shouldInclude <==> !NameHasPattern(ps[i], pats);
      SelectSnoc(ps, i, NotExcluded(pats));
      if shouldInclude {
        r := r + [ps[i]];
      }
      i := i + 1;
    }
    assert ps[..|ps|] == ps;
  }

  // ---------------------------------------------------------------------
  // Properties
  // ---------------------------------------------------------------------

  /** Applying a filter to its own output changes nothing. */
  lemma FiltersIdempotent(ps: seq<Product>, store: string, size: Option<int>, minPrice: Option<real>,
                          maxPrice: Option<real>, onlyAvailable: bool, minStock: int,
                          patterns: Option<set<string>>)
    ensures FilterByStore(FilterByStore(ps, store), store) == FilterByStore(ps, store)
    ensures FilterByPackageSize(FilterByPackageSize(ps, size), size) == FilterByPackageSize(ps, size)
    ensures FilterByPriceRange(FilterByPriceRange(ps, minPrice, maxPrice), minPrice, maxPrice)
            == FilterByPriceRange(ps, minPrice, maxPrice)
    ensures FilterAvailable(FilterAvailable(ps, onlyAvailable), onlyAvailable) == FilterAvailable(ps, onlyAvailable)
    ensures FilterInStock(FilterInStock(ps, minStock), minStock) == FilterInStock(ps, minStock)
    ensures FilterSingles(FilterSingles(ps)) == FilterSingles(ps)
    ensures FilterMultipacks(FilterMultipacks(ps)) == FilterMultipacks(ps)
    ensures WithoutExcluded(WithoutExcluded(ps, patterns), patterns) == WithoutExcluded(ps, patterns)
  {
    SelectIdempotent(ps, StoreIs(store));
    if size.None? {
      SelectIdempotent(ps, Single());
    } else {
      SelectIdempotent(ps, SizeIs(size.value));
    }
    PriceRangeIdempotent(ps, minPrice, maxPrice);
    SelectIdempotent(ps, AvailabilityIs(onlyAvailable));
    SelectIdempotent(ps, StockAtLeast(minStock));
    SelectIdempotent(ps, Single());
    SelectIdempotent(ps, Multipack());
    if patterns.Some? && patterns.value != {} {
      SelectIdempotent(ps, NotExcluded(patterns.value));
    }
  }

  lemma PriceRangeIdempotent(ps: seq<Product>, minPrice: Option<real>, maxPrice: Option<real>)
    ensures FilterByPriceRange(FilterByPriceRange(ps, minPrice, maxPrice), minPrice, maxPrice)
            == FilterByPriceRange(ps, minPrice, maxPrice)
  {
    var r := FilterByPriceRange(ps, minPrice, maxPrice);
    var keep := (p: Product) => InPriceRange(p, minPrice, maxPrice);
    SelectCharacterized(ps, keep, r);
    SelectIdempotent(ps, keep);
    SelectCharacterized(r, keep, FilterByPriceRange(r, minPrice, maxPrice));
  }

  /** Without a size, the package-size filter is the singles filter. */
  lemma PackageSizeNoneIsSingles(ps: seq<Product>)
    ensures FilterByPackageSize(ps, None) == FilterSingles(ps)
  {
  }

  /** A size of 1 selects the same listings as the singles filter. */
  lemma PackageSizeOneIsSingles(ps: seq<Product>)
    ensures FilterByPackageSize(ps, Some(1)) == FilterSingles(ps)
  {
    SelectCongruent(ps, SizeIs(1), Single());
  }
}
