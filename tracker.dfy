/**
  The tracker: a pool of listings gathered from scrapers, a registry of
  exclusion patterns, and the queries over the pool (filtered and sorted
  listings, a per-store count, the best deals and a price range).
*/
module Tracker {
  import opened Optional
  import opened Text
  import opened Sequences
  import opened Products
  import opened Filtering
  import opened Sorting

  // ---------------------------------------------------------------------
  // get_products
  // ---------------------------------------------------------------------

  /** The keyword arguments of a product query; `DefaultQuery` holds `get_products`' defaults. */
  datatype ProductQuery = ProductQuery(
    store: Option<string>,
    packageSize: Option<int>,
    minPrice: Option<real>,
    maxPrice: Option<real>,
    onlyAvailable: bool,
    minStock: Option<int>,
    sortBy: Option<string>,
    reverseSort: bool,
    applyExclusions: bool)

  const DefaultQuery := ProductQuery(None, None, None, None, true, None, None, false, true)

  /** An empty store name, like an absent one, asks for no store filter. */
  predicate StoreGiven(q: ProductQuery) { q.store.Some? && q.store.value != "" }

  /** What a listing must satisfy to be returned by a query, stated condition by condition. */
  predicate Qualifies(p: Product, patterns: set<string>, q: ProductQuery)
  {
    (StoreGiven(q) ==> InStore(p, q.store.value)) &&
    (q.packageSize.Some? ==> HasSize(p, q.packageSize.value)) &&
    InPriceRange(p, q.minPrice, q.maxPrice) &&
    (q.onlyAvailable ==> p.available) &&
    (q.minStock.Some? ==> InStock(p, q.minStock.value)) &&
    (q.applyExclusions ==> !NameHasPattern(p, patterns))
  }

  /** One filter stage: `next` keeps those of `prev` that satisfy `cond`. */
  ghost predicate Stage(next: seq<Product>, prev: seq<Product>, cond: Product -> bool)
  {
    Subsequence(next, prev) &&
    forall x :: multiset(next)[x] == if cond(x) then multiset(prev)[x] else 0
  }

  lemma StageSkipped(s: seq<Product>, cond: Product -> bool)
    requires forall x :: cond(x)
    ensures Stage(s, s, cond)
  {
    SubsequenceReflexive(s);
  }

  lemma StagesCompose(c: seq<Product>, b: seq<Product>, a: seq<Product>,
                      f: Product -> bool, g: Product -> bool, h: Product -> bool)
    requires Stage(b, a, f) && Stage(c, b, g)
    requires forall x :: h(x) == (f(x) && g(x))
    ensures Stage(c, a, h)
  {
    SubsequenceTransitive(c, b, a);
  }

  /** The filter stages of `get_products`, in the order it applies them. */
  function Filtered(pool: seq<Product>, patterns: set<string>, q: ProductQuery): (r: seq<Product>)
    ensures Subsequence(r, pool)
    ensures forall p :: multiset(r)[p] == if Qualifies(p, patterns, q) then multiset(pool)[p] else 0
  {
    var a := if StoreGiven(q) then FilterByStore(pool, q.store.value) else pool;
    var b := if q.packageSize.Some? then FilterByPackageSize(a, q.packageSize) else a;
    var c := if q.minPrice.Some? || q.maxPrice.Some? then FilterByPriceRange(b, q.minPrice, q.maxPrice) else b;
    var d := if q.onlyAvailable then FilterAvailable(c, true) else c;
    var e := if q.minStock.Some? then FilterInStock(d, q.minStock.value) else d;
    var r := if q.applyExclusions && patterns != {} then WithoutExcluded(e, Some(patterns)) else e;
    FilteredStages(pool, patterns, q, a, b, c, d, e, r);
    r
  }

  lemma FilteredStages(pool: seq<Product>, patterns: set<string>, q: ProductQuery,
                       a: seq<Product>, b: seq<Product>, c: seq<Product>,
                       d: seq<Product>, e: seq<Product>, r: seq<Product>)
    requires a == if StoreGiven(q) then FilterByStore(pool, q.store.value) else pool
    requires b == if q.packageSize.Some? then FilterByPackageSize(a, q.packageSize) else a
    requires c == if q.minPrice.Some? || q.maxPrice.Some? then FilterByPriceRange(b, q.minPrice, q.maxPrice) else b
    requires d == if q.onlyAvailable then FilterAvailable(c, true) else c
    requires e == if q.minStock.Some? then FilterInStock(d, q.minStock.value) else d
    requires r == if q.applyExclusions && patterns != {} then WithoutExcluded(e, Some(patterns)) else e
    ensures Subsequence(r, pool)
    ensures forall p :: multiset(r)[p] == if Qualifies(p, patterns, q) then multiset(pool)[p] else 0
  {
    var front := (p: Product) =>
      (StoreGiven(q) ==> InStore(p, q.store.value)) &&
      (q.packageSize.Some? ==> HasSize(p, q.packageSize.value)) &&
      InPriceRange(p, q.minPrice, q.maxPrice);
    var back := (p: Product) =>
      (q.onlyAvailable ==> p.available) &&
      (q.minStock.Some? ==> InStock(p, q.minStock.value)) &&
      (q.applyExclusions ==> !NameHasPattern(p, patterns));
    FrontStages(pool, q, a, b, c, front);
    BackStages(patterns, q, c, d, e, r, back);
    StagesCompose(r, c, pool, front, back, (p: Product) => Qualifies(p, patterns, q));
  }

  /** The store, size and price stages. */
  lemma FrontStages(pool: seq<Product>, q: ProductQuery, a: seq<Product>, b: seq<Product>, c: seq<Product>,
                    front: Product -> bool)
    requires a == if StoreGiven(q) then FilterByStore(pool, q.store.value) else pool
    requires b == if q.packageSize.Some? then FilterByPackageSize(a, q.packageSize) else a
    requires c == if q.minPrice.Some? || q.maxPrice.Some? then FilterByPriceRange(b, q.minPrice, q.maxPrice) else b
    requires forall p :: front(p) == ((StoreGiven(q) ==> InStore(p, q.store.value)) &&
                                      (q.packageSize.Some? ==> HasSize(p, q.packageSize.value)) &&
                                      InPriceRange(p, q.minPrice, q.maxPrice))
    ensures Stage(c, pool, front)
  {
    var f1 := (p: Product) => StoreGiven(q) ==> InStore(p, q.store.value);
    var f2 := (p: Product) => q.packageSize.Some? ==> HasSize(p, q.packageSize.value);
    var f3 := (p: Product) => InPriceRange(p, q.minPrice, q.maxPrice);
    if !StoreGiven(q) { StageSkipped(pool, f1); }
    if q.packageSize.None? { StageSkipped(a, f2); }
    if q.minPrice.None? && q.maxPrice.None? { StageSkipped(b, f3); }
    var g2 := (p: Product) => f1(p) && f2(p);
    StagesCompose(b, a, pool, f1, f2, g2);
    StagesCompose(c, b, pool, g2, f3, front);
  }

  /** The availability, stock and exclusion stages. */
  lemma BackStages(patterns: set<string>, q: ProductQuery, c: seq<Product>, d: seq<Product>,
                   e: seq<Product>, r: seq<Product>, back: Product -> bool)
    requires d == if q.onlyAvailable then FilterAvailable(c, true) else c
    requires e == if q.minStock.Some? then FilterInStock(d, q.minStock.value) else d
    requires r == if q.applyExclusions && patterns != {} then WithoutExcluded(e, Some(patterns)) else e
    requires forall p :: back(p) == ((q.onlyAvailable ==> p.available) &&
                                     (q.minStock.Some? ==> InStock(p, q.minStock.value)) &&
                                     (q.applyExclusions ==> !NameHasPattern(p, patterns)))
    ensures Stage(r, c, back)
  {
    var f4 := (p: Product) => q.onlyAvailable ==> p.available;
    var f5 := (p: Product) => q.minStock.Some? ==> InStock(p, q.minStock.value);
    var f6 := (p: Product) => q.applyExclusions ==> !NameHasPattern(p, patterns);
    if !q.onlyAvailable { StageSkipped(c, f4); }
    if q.minStock.None? { StageSkipped(d, f5); }
    if !(q.applyExclusions && patterns != {}) { StageSkipped(e, f6); }
    var g5 := (p: Product) => f4(p) && f5(p);
    StagesCompose(e, d, c, f4, f5, g5);
    StagesCompose(r, e, c, g5, f6, back);
  }

  /** The sort stage: one of the three sorts, or the order unchanged for any other (or no) key. */
  function SortedAs(ps: seq<Product>, sortBy: Option<string>, reverse: bool): seq<Product>
  {
    if sortBy == Some("price") then SortByPrice(ps, reverse)
    else if sortBy == Some("unit_price") then SortByPerUnitPrice(ps, reverse)
    else if sortBy == Some("package_size") then SortByPackageSize(ps, reverse)
    else ps
  }

  function SelectProducts(pool: seq<Product>, patterns: set<string>, q: ProductQuery): seq<Product>
  {
    SortedAs(Filtered(pool, patterns, q), q.sortBy, q.reverseSort)
  }

  /**
    A query returns every qualifying listing of the pool, as often as the pool
    holds it, and nothing else; in the order the sort key asks for, and in pool
    order for an unrecognised or absent sort key.
  */
  lemma SelectProductsSpec(pool: seq<Product>, patterns: set<string>, q: ProductQuery)
    ensures var r := SelectProducts(pool, patterns, q);
            (forall p :: multiset(r)[p] == if Qualifies(p, patterns, q) then multiset(pool)[p] else 0) &&
            (q.sortBy == Some("price") ==> SortedBy(r, Price(), q.reverseSort)) &&
            (q.sortBy == Some("unit_price") ==>
               Pairwise(r, PartitionOrder(HasUnitPrice(), UnitPrice(), q.reverseSort))) &&
            (q.sortBy == Some("package_size") ==>
               Pairwise(r, PartitionOrder(HasPackageSize(), Size(), q.reverseSort))) &&
            (q.sortBy !in {Some("price"), Some("unit_price"), Some("package_size")} ==> Subsequence(r, pool))
  {
    var f := Filtered(pool, patterns, q);
    if q.sortBy == Some("unit_price") {
      PerUnitPriceOrder(f, q.reverseSort);
    } else if q.sortBy == Some("package_size") {
      PackageSizeOrder(f, q.reverseSort);
    }
  }

  /** With the default arguments, the query lists the available listings whose names match no registered pattern, in pool order. */
  lemma DefaultQueryLists(pool: seq<Product>, patterns: set<string>)
    ensures var r := SelectProducts(pool, patterns, DefaultQuery);
            Subsequence(r, pool) &&
            forall p :: multiset(r)[p] == if p.available && !NameHasPattern(p, patterns) then multiset(pool)[p] else 0
  {
    SelectProductsSpec(pool, patterns, DefaultQuery);
  }

  // ---------------------------------------------------------------------
  // Deals: shared candidate selection
  // ---------------------------------------------------------------------

  /** The price cap for single bars when no size is asked for. */
  const SinglePriceCap: real := 100.0

  /** Python's `package_size and package_size > 1`: the per-unit price is the metric. */
  predicate ByUnitPrice(size: Option<int>) { SizeIsTruthy(size) && size.value > 1 }

  /** Which listings the deal queries consider, stated independently of the filter pipeline. */
  predicate DealEligible(p: Product, patterns: set<string>, size: Option<int>)
  {
    (if size.None? then IsSingle(p) && p.price <= SinglePriceCap else HasSize(p, size.value)) &&
    p.available &&
    !NameHasPattern(p, patterns)
  }

  /** The size stage of the deal queries: singles up to the price cap without a size, that size otherwise. */
  function SizeStage(pool: seq<Product>, size: Option<int>): seq<Product>
  {
    if size.None? then FilterByPriceRange(FilterSingles(pool), None, Some(SinglePriceCap))
    else FilterByPackageSize(pool, size)
  }

  /** The filter stages shared by `get_best_deals` and `get_price_range`. */
  function DealCandidates(pool: seq<Product>, patterns: set<string>, size: Option<int>): (r: seq<Product>)
    ensures Subsequence(r, pool)
    ensures forall p :: multiset(r)[p] == if DealEligible(p, patterns, size) then multiset(pool)[p] else 0
  {
    var sized := SizeStage(pool, size);
    var available := FilterAvailable(sized, true);
    var r := if patterns != {} then WithoutExcluded(available, Some(patterns)) else available;
    DealStages(pool, patterns, size, sized, available, r);
    r
  }

  lemma DealStages(pool: seq<Product>, patterns: set<string>, size: Option<int>,
                   sized: seq<Product>, available: seq<Product>, r: seq<Product>)
    requires sized == SizeStage(pool, size)
    requires available == FilterAvailable(sized, true)
    requires r == if patterns != {} then WithoutExcluded(available, Some(patterns)) else available
    ensures Subsequence(r, pool)
    ensures forall p :: multiset(r)[p] == if DealEligible(p, patterns, size) then multiset(pool)[p] else 0
  {
    var f1 := (p: Product) => if size.None? then IsSingle(p) && p.price <= SinglePriceCap else HasSize(p, size.value);
    var f2 := (p: Product) => p.available;
    var f3 := (p: Product) => !NameHasPattern(p, patterns);
    if size.None? {
      var singles := FilterSingles(pool);
      StagesCompose(sized, singles, pool, (p: Product) => IsSingle(p),
                    (p: Product) => InPriceRange(p, None, Some(SinglePriceCap)), f1);
    }
    assert Stage(sized, pool, f1);
    assert Stage(available, sized, f2);
    if patterns == {} { StageSkipped(available, f3); }
    assert Stage(r, available, f3);
    var g2 := (p: Product) => f1(p) && f2(p);
    StagesCompose(available, sized, pool, f1, f2, g2);
    StagesCompose(r, available, pool, g2, f3, (p: Product) => DealEligible(p, patterns, size));
  }

  // ---------------------------------------------------------------------
  // get_best_deals
  // ---------------------------------------------------------------------

  /** The de-duplication key: the store, with the price when no size is asked for and the per-unit price otherwise. */
  datatype DealKey = DealKey(store: string, amount: Option<real>)

  function KeyOf(p: Product, size: Option<int>): DealKey
  {
    DealKey(p.store, if size.None? then Some(p.price) else p.perUnitPrice)
  }

  /** The ranked candidates: by per-unit price for a multipack size, by price otherwise, cheapest first. */
  function Ranked(candidates: seq<Product>, size: Option<int>): seq<Product>
  {
    if ByUnitPrice(size) then SortByPerUnitPrice(candidates, false) else SortByPrice(candidates, false)
  }

  /** The keys of a list of listings. */
  function KeysOf(s: seq<Product>, size: Option<int>): set<DealKey>
  {
    set p | p in s :: KeyOf(p, size)
  }

  /**
    The listings of `s` whose key has not been seen, first occurrence only,
    in order; `seen` holds the keys met before `s`.
  */
  function Dedupe(s: seq<Product>, seen: set<DealKey>, size: Option<int>): seq<Product>
  {
    if s == [] then []
    else if KeyOf(s[0], size) in seen then Dedupe(s[1..], seen, size)
    else [s[0]] + Dedupe(s[1..], seen + {KeyOf(s[0], size)}, size)
  }

  /**
    The de-duplicated list keeps listings of `s` in order, no two with the
    same key, none with a key already seen, and every unseen key of `s`.
  */
  lemma {:induction false} DedupeSpec(s: seq<Product>, seen: set<DealKey>, size: Option<int>)
    ensures var r := Dedupe(s, seen, size);
            Subsequence(r, s) &&
            (forall i, j :: 0 <= i < j < |r| ==> KeyOf(r[i], size) != KeyOf(r[j], size)) &&
            (forall p :: p in r ==> KeyOf(p, size) !in seen) &&
            (forall p :: p in s && KeyOf(p, size) !in seen ==> KeyOf(p, size) in KeysOf(r, size))
  {
    if s != [] {
      var k := KeyOf(s[0], size);
      var r := Dedupe(s, seen, size);
      if k in seen {
        DedupeSpec(s[1..], seen, size);
        assert r == Dedupe(s[1..], seen, size);
        assert forall p :: p in s ==> p == s[0] || p in s[1..];
        DedupeDropHead(r, s);
      } else {
        var rest := Dedupe(s[1..], seen + {k}, size);
        DedupeSpec(s[1..], seen + {k}, size);
        assert r == [s[0]] + rest;
        DedupeKeepHead(s, seen, size, rest, r);
      }
    }
  }

  lemma DedupeDropHead(r: seq<Product>, s: seq<Product>)
    requires s != [] && Subsequence(r, s[1..])
    ensures Subsequence(r, s)
  {
  }

  lemma DedupeKeepHead(s: seq<Product>, seen: set<DealKey>, size: Option<int>, rest: seq<Product>, r: seq<Product>)
    requires s != [] && KeyOf(s[0], size) !in seen && r == [s[0]] + rest
    requires Subsequence(rest, s[1..])
    requires forall i, j :: 0 <= i < j < |rest| ==> KeyOf(rest[i], size) != KeyOf(rest[j], size)
    requires forall p :: p in rest ==> KeyOf(p, size) !in seen + {KeyOf(s[0], size)}
    requires forall p :: p in s[1..] && KeyOf(p, size) !in seen + {KeyOf(s[0], size)} ==> KeyOf(p, size) in KeysOf(rest, size)
    ensures Subsequence(r, s)
    ensures forall i, j :: 0 <= i < j < |r| ==> KeyOf(r[i], size) != KeyOf(r[j], size)
    ensures forall p :: p in r ==> KeyOf(p, size) !in seen
    ensures forall p :: p in s && KeyOf(p, size) !in seen ==> KeyOf(p, size) in KeysOf(r, size)
  {
    var k := KeyOf(s[0], size);
    assert r[0] == s[0] && r[1..] == rest;
    forall i, j | 0 <= i < j < |r| ensures KeyOf(r[i], size) != KeyOf(r[j], size) {
      assert r[j] == rest[j - 1];
      if i > 0 {
        assert r[i] == rest[i - 1];
      } else {
        assert rest[j - 1] in rest;
      }
    }
    forall p | p in s && KeyOf(p, size) !in seen ensures KeyOf(p, size) in KeysOf(r, size) {
      if KeyOf(p, size) == k {
        assert s[0] in r;
      } else {
        assert p == s[0] || p in s[1..];
        var q :| q in rest && KeyOf(q, size) == KeyOf(p, size);
        assert q in r;
      }
    }
  }

  /** One step of the de-duplicating scan, at index `i`. */
  lemma DedupeStep(s: seq<Product>, i: nat, seen: set<DealKey>, size: Option<int>)
    requires i < |s|
    ensures Dedupe(s[i..], seen, size) ==
              if KeyOf(s[i], size) in seen then Dedupe(s[i + 1..], seen, size)
              else [s[i]] + Dedupe(s[i + 1..], seen + {KeyOf(s[i], size)}, size)
  {
    assert s[i..][0] == s[i] && s[i..][1..] == s[i + 1..];
  }

  /** Each listing kept is the first listing of `s` with its key, and its key was not seen before. */
  lemma {:induction false} DedupeKeepsFirst(s: seq<Product>, seen: set<DealKey>, size: Option<int>)
    ensures forall x :: x in Dedupe(s, seen, size) ==>
              KeyOf(x, size) !in seen &&
              exists i :: 0 <= i < |s| && s[i] == x && forall j :: 0 <= j < i ==> KeyOf(s[j], size) != KeyOf(x, size)
  {
    if s != [] {
      var k := KeyOf(s[0], size);
      var seen' := if k in seen then seen else seen + {k};
      DedupeKeepsFirst(s[1..], seen', size);
      forall x | x in Dedupe(s, seen, size)
        ensures KeyOf(x, size) !in seen &&
                exists i :: 0 <= i < |s| && s[i] == x && forall j :: 0 <= j < i ==> KeyOf(s[j], size) != KeyOf(x, size)
      {
        if k !in seen && x == s[0] {
          assert s[0] == x;
        } else {
          assert x in Dedupe(s[1..], seen', size);
          var i :| 0 <= i < |s[1..]| && s[1..][i] == x &&
                   forall j :: 0 <= j < i ==> KeyOf(s[1..][j], size) != KeyOf(x, size);
          assert s[i + 1] == x;
          forall j | 0 <= j < i + 1 ensures KeyOf(s[j], size) != KeyOf(x, size) {
            if j > 0 {
              assert s[j] == s[1..][j - 1];
            }
          }
        }
      }
    }
  }

  /** The first `limit` items (Python's `s[:limit]` for a non-negative limit). */
  function Take(s: seq<Product>, limit: nat): seq<Product>
  {
    if limit < |s| then s[..limit] else s
  }

  /** The specification of `get_best_deals`: select, rank, de-duplicate, truncate. */
  function BestDeals(pool: seq<Product>, patterns: set<string>, size: Option<int>, limit: nat): seq<Product>
  {
    Take(Dedupe(Ranked(DealCandidates(pool, patterns, size), size), {}, size), limit)
  }

  /** Cheapest first by price. */
  function PriceOrder(): (Product, Product) -> bool
  {
    (a: Product, b: Product) => a.price <= b.price
  }

  /** Per-unit price order, cheapest first, listings without one last. */
  function UnitPriceOrder(): (Product, Product) -> bool
  {
    PartitionOrder(HasUnitPrice(), UnitPrice(), false)
  }

  lemma RankedOrder(c: seq<Product>, size: Option<int>)
    ensures ByUnitPrice(size) ==> Pairwise(Ranked(c, size), UnitPriceOrder())
    ensures !ByUnitPrice(size) ==> Pairwise(Ranked(c, size), PriceOrder())
    ensures multiset(Ranked(c, size)) == multiset(c)
  {
    if ByUnitPrice(size) {
      PerUnitPriceOrder(c, false);
    } else {
      var r := Ranked(c, size);
      assert SortedBy(r, Price(), false);
      forall i, j | 0 <= i < j < |r| ensures PriceOrder()(r[i], r[j]) {
        assert InOrder(Price()(r[i]), Price()(r[j]), false);
      }
    }
  }

  /**
    What every best-deals answer satisfies: at most `limit` listings, each an
    eligible listing of the pool, no two sharing a key, cheapest first by the
    query's metric, and every listing shown is the first of its key in ranked order
    among the ranked candidates.
  */
  lemma BestDealsSpec(pool: seq<Product>, patterns: set<string>, size: Option<int>, limit: nat)
    ensures var r := BestDeals(pool, patterns, size, limit);
            |r| <= limit &&
            (forall p :: p in r ==> p in pool && DealEligible(p, patterns, size)) &&
            (forall i, j :: 0 <= i < j < |r| ==> KeyOf(r[i], size) != KeyOf(r[j], size)) &&
            (ByUnitPrice(size) ==> Pairwise(r, UnitPriceOrder())) &&
            (!ByUnitPrice(size) ==> Pairwise(r, PriceOrder()))
  {
    var c := DealCandidates(pool, patterns, size);
    var ranked := Ranked(c, size);
    var d := Dedupe(ranked, {}, size);
    var r := Take(d, limit);
    DedupeSpec(ranked, {}, size);
    TakeSpec(d, limit);
    SubsequenceTransitive(r, d, ranked);
    RankedOrder(c, size);
    if ByUnitPrice(size) {
      SubsequencePairwise(r, ranked, UnitPriceOrder());
    } else {
      SubsequencePairwise(r, ranked, PriceOrder());
    }
    RankedEligible(pool, patterns, size, c, ranked, r);
  }

  /** Truncation keeps a prefix of at most `limit` items. */
  lemma TakeSpec(s: seq<Product>, limit: nat)
    ensures var r := Take(s, limit);
            |r| <= limit && |r| <= |s| && Subsequence(r, s) &&
            forall i :: 0 <= i < |r| ==> r[i] == s[i]
  {
    if limit < |s| {
      SubsequenceOfPrefix(s, limit);
    } else {
      SubsequenceReflexive(s);
    }
  }

  lemma RankedEligible(pool: seq<Product>, patterns: set<string>, size: Option<int>,
                       c: seq<Product>, ranked: seq<Product>, r: seq<Product>)
    requires c == DealCandidates(pool, patterns, size)
    requires multiset(ranked) == multiset(c)
    requires Subsequence(r, ranked)
    ensures forall p :: p in r ==> p in pool && DealEligible(p, patterns, size)
  {
    SubsequenceMembers(r, ranked);
    forall p | p in r ensures p in pool && DealEligible(p, patterns, size) {
      assert p in multiset(ranked);
      assert multiset(c)[p] > 0;
    }
  }

  /** Of the ranked listings sharing a key, the one shown is the first in ranked order. */
  lemma FirstOfKeyKept(pool: seq<Product>, patterns: set<string>, size: Option<int>, limit: nat)
    ensures var ranked := Ranked(DealCandidates(pool, patterns, size), size);
            forall x :: x in BestDeals(pool, patterns, size, limit) ==>
              exists i :: 0 <= i < |ranked| && ranked[i] == x &&
                          forall j :: 0 <= j < i ==> KeyOf(ranked[j], size) != KeyOf(x, size)
  {
    var ranked := Ranked(DealCandidates(pool, patterns, size), size);
    var d := Dedupe(ranked, {}, size);
    DedupeKeepsFirst(ranked, {}, size);
    TakeSpec(d, limit);
    SubsequenceMembers(Take(d, limit), d);
  }

  /** Every key among the ranked candidates is represented among the de-duplicated ones. */
  lemma EveryKeyRepresented(pool: seq<Product>, patterns: set<string>, size: Option<int>)
    ensures var ranked := Ranked(DealCandidates(pool, patterns, size), size);
            KeysOf(Dedupe(ranked, {}, size), size) == KeysOf(ranked, size)
  {
    var ranked := Ranked(DealCandidates(pool, patterns, size), size);
    var d := Dedupe(ranked, {}, size);
    DedupeSpec(ranked, {}, size);
    SubsequenceMembers(d, ranked);
  }

  /**
    An explicit size of 1 ranks by price (the metric switch needs a size above 1)
    but de-duplicates on the per-unit price (the key switch only asks whether a size was given).
  */
  lemma SizeOneMixesMetrics(pool: seq<Product>, patterns: set<string>, limit: nat)
    ensures var r := BestDeals(pool, patterns, Some(1), limit);
            Pairwise(r, PriceOrder()) &&
            forall i, j :: 0 <= i < j < |r| ==>
              (r[i].store, r[i].perUnitPrice) != (r[j].store, r[j].perUnitPrice)
  {
    var r := BestDeals(pool, patterns, Some(1), limit);
    BestDealsSpec(pool, patterns, Some(1), limit);
    forall i, j | 0 <= i < j < |r| ensures (r[i].store, r[i].perUnitPrice) != (r[j].store, r[j].perUnitPrice) {
      assert KeyOf(r[i], Some(1)) != KeyOf(r[j], Some(1));
    }
  }

  /** When every listing of the pool is eligible, the candidates are the pool itself, in order. */
  lemma AllEligible(pool: seq<Product>, patterns: set<string>, size: Option<int>)
    requires forall p :: p in pool ==> DealEligible(p, patterns, size)
    ensures DealCandidates(pool, patterns, size) == pool
  {
    var eligible := (p: Product) => DealEligible(p, patterns, size);
    SelectCharacterized(pool, eligible, DealCandidates(pool, patterns, size));
    SelectAll(pool, eligible);
  }

  /** A listing marked as a single but priced above the cap is never a single-bar deal, nor counted in the singles' price range. */
  lemma OverpricedSingleExcluded(pool: seq<Product>, patterns: set<string>, limit: nat, p: Product)
    requires p.price > SinglePriceCap
    ensures p !in DealCandidates(pool, patterns, None)
    ensures p !in BestDeals(pool, patterns, None, limit)
    ensures var r := PriceStats(pool, patterns, None); r.maxPrice.Some? ==> r.maxPrice.value < p.price
  {
    var c := DealCandidates(pool, patterns, None);
    assert multiset(c)[p] == 0;
    BestDealsSpec(pool, patterns, None, limit);
    SinglesRangeCapped(pool, patterns);
  }

  /** A single bar listed by `store` at `price` with nothing else set. */
  function SingleBar(price: real, store: string, url: string): Product
  {
    Product("Barebells Protein Bar", price, url, store, Some(price), Some(1), None, true)
  }

  /**
    Two singles at 25 from one store and one at 30 from another: the two at 25
    collapse into the first, and the cheaper comes first.
  */
  lemma SinglesScenario()
    ensures var a1, a2, b := SingleBar(25.0, "A", "a1"), SingleBar(25.0, "A", "a2"), SingleBar(30.0, "B", "b");
            BestDeals([a1, a2, b], {}, None, 5) == [a1, b]
  {
    var a1, a2, b := SingleBar(25.0, "A", "a1"), SingleBar(25.0, "A", "a2"), SingleBar(30.0, "B", "b");
    SinglesRanked(a1, a2, b);
    SinglesDeduped(a1, a2, b);
  }

  lemma SingleBarEligible(price: real, store: string, url: string)
    requires price <= SinglePriceCap
    ensures DealEligible(SingleBar(price, store, url), {}, None)
  {
  }

  lemma SinglesRanked(a1: Product, a2: Product, b: Product)
    requires a1 == SingleBar(25.0, "A", "a1") && a2 == SingleBar(25.0, "A", "a2") && b == SingleBar(30.0, "B", "b")
    ensures Ranked(DealCandidates([a1, a2, b], {}, None), None) == [a1, a2, b]
  {
    SinglesEligible(a1, a2, b);
    SinglesSorted(a1, a2, b);
  }

  lemma SinglesEligible(a1: Product, a2: Product, b: Product)
    requires a1 == SingleBar(25.0, "A", "a1") && a2 == SingleBar(25.0, "A", "a2") && b == SingleBar(30.0, "B", "b")
    ensures DealCandidates([a1, a2, b], {}, None) == [a1, a2, b]
  {
    SingleBarEligible(25.0, "A", "a1");
    SingleBarEligible(25.0, "A", "a2");
    SingleBarEligible(30.0, "B", "b");
    AllEligible([a1, a2, b], {}, None);
  }

  lemma SinglesSorted(a1: Product, a2: Product, b: Product)
    requires a1 == SingleBar(25.0, "A", "a1") && a2 == SingleBar(25.0, "A", "a2") && b == SingleBar(30.0, "B", "b")
    ensures SortByPrice([a1, a2, b], false) == [a1, a2, b]
  {
    var pool := [a1, a2, b];
    assert SortedBy(pool, Price(), false) by {
      forall i, j | 0 <= i < j < 3 ensures pool[i].price <= pool[j].price {
      }
    }
    SortedUnchanged(pool, Price(), false);
  }

  /** The second single from store A is dropped: it has the first one's key. */
  lemma SinglesDeduped(a1: Product, a2: Product, b: Product)
    requires a1 == SingleBar(25.0, "A", "a1") && a2 == SingleBar(25.0, "A", "a2") && b == SingleBar(30.0, "B", "b")
    ensures Dedupe([a1, a2, b], {}, None) == [a1, b]
  {
    var k := KeyOf(a1, None);
    assert k == KeyOf(a2, None) != KeyOf(b, None);
    assert {} + {k} == {k};
    DedupeStep([b], 0, {k}, None);
    assert [b][0..] == [b] && [b][1..] == [];
    assert Dedupe([b], {k}, None) == [b];
    DedupeStep([a2, b], 0, {k}, None);
    assert [a2, b][0..] == [a2, b] && [a2, b][1..] == [b];
    DedupeStep([a1, a2, b], 0, {}, None);
    assert [a1, a2, b][0..] == [a1, a2, b] && [a1, a2, b][1..] == [a2, b];
    assert Dedupe([a1, a2, b], {}, None) == [a1] + [b];
  }

  /** A 12-pack at 12 x 25 from one store and one at 12 x 20 from another: the cheaper per bar comes first. */
  lemma MultipackScenario()
    ensures var dear := Product("Barebells 12-pack", 300.0, "d", "S", Some(25.0), Some(12), None, true);
            var cheap := Product("Barebells 12-pack", 240.0, "c", "T", Some(20.0), Some(12), None, true);
            BestDeals([dear, cheap], {}, Some(12), 5) == [cheap, dear]
  {
    var dear := Product("Barebells 12-pack", 300.0, "d", "S", Some(25.0), Some(12), None, true);
    var cheap := Product("Barebells 12-pack", 240.0, "c", "T", Some(20.0), Some(12), None, true);
    MultipackRanked(dear, cheap);
    MultipackDeduped(dear, cheap);
  }

  lemma MultipackRanked(dear: Product, cheap: Product)
    requires dear == Product("Barebells 12-pack", 300.0, "d", "S", Some(25.0), Some(12), None, true)
    requires cheap == Product("Barebells 12-pack", 240.0, "c", "T", Some(20.0), Some(12), None, true)
    ensures Ranked(DealCandidates([dear, cheap], {}, Some(12)), Some(12)) == [cheap, dear]
  {
    var pool := [dear, cheap];
    AllEligible(pool, {}, Some(12));
    assert pool[1..] == [cheap];
    SelectAll(pool, HasUnitPrice());
    SelectCongruent(pool, NoUnitPrice(), x => false);
    SelectNone(pool);
    assert StableSort([cheap], UnitPrice(), false) == [cheap];
    assert StableSort(pool, UnitPrice(), false) == [cheap, dear];
    assert Ranked(pool, Some(12)) == [cheap, dear] + [];
  }

  /** The two 12-packs come from different stores, so both are kept. */
  lemma MultipackDeduped(dear: Product, cheap: Product)
    requires dear == Product("Barebells 12-pack", 300.0, "d", "S", Some(25.0), Some(12), None, true)
    requires cheap == Product("Barebells 12-pack", 240.0, "c", "T", Some(20.0), Some(12), None, true)
    ensures Dedupe([cheap, dear], {}, Some(12)) == [cheap, dear]
  {
    var k := KeyOf(cheap, Some(12));
    assert k != KeyOf(dear, Some(12));
    assert {} + {k} == {k};
    DedupeStep([dear], 0, {k}, Some(12));
    assert [dear][0..] == [dear] && [dear][1..] == [];
    DedupeStep([cheap, dear], 0, {}, Some(12));
    assert [cheap, dear][0..] == [cheap, dear] && [cheap, dear][1..] == [dear];
    assert Dedupe([cheap, dear], {}, Some(12)) == [cheap] + [dear];
  }

  // ---------------------------------------------------------------------
  // get_price_range
  // ---------------------------------------------------------------------

  datatype PriceRange = PriceRange(minPrice: Option<real>, maxPrice: Option<real>, avgPrice: Option<real>)

  /** `[p.per_unit_price for p in ps if p.per_unit_price is not None]` */
  function UnitPrices(ps: seq<Product>): (r: seq<real>)
    ensures forall v :: v in r <==> exists p :: p in ps && p.perUnitPrice == Some(v)
  {
    if ps == [] then []
    else
      var rest := UnitPrices(ps[1..]);
      assert forall p :: p in ps <==> p == ps[0] || p in ps[1..];
      if ps[0].perUnitPrice.Some? then [ps[0].perUnitPrice.value] + rest else rest
  }

  /**
    The comprehension keeps one value per listing that has a per-unit price,
    duplicates included, in the listings' order.
  */
  lemma {:induction false} UnitPricesInOrder(ps: seq<Product>)
    ensures PricedInOrder(UnitPrices(ps), Select(ps, HasUnitPrice()))
  {
    if ps != [] {
      UnitPricesInOrder(ps[1..]);
      if ps[0].perUnitPrice.Some? {
        assert HasUnitPrice()(ps[0]);
        PricedInOrderCons(ps[0], UnitPrices(ps[1..]), Select(ps[1..], HasUnitPrice()));
      } else {
        assert !HasUnitPrice()(ps[0]);
      }
    }
  }

  /** Position `i` of `priced` carries the per-unit price at position `i` of `r`. */
  predicate PricedInOrder(r: seq<real>, priced: seq<Product>)
  {
    |r| == |priced| && forall i :: 0 <= i < |r| ==> priced[i].perUnitPrice == Some(r[i])
  }

  lemma PricedInOrderCons(p: Product, rest: seq<real>, tail: seq<Product>)
    requires p.perUnitPrice.Some? && PricedInOrder(rest, tail)
    ensures PricedInOrder([p.perUnitPrice.value] + rest, [p] + tail)
  {
    var r, priced := [p.perUnitPrice.value] + rest, [p] + tail;
    forall i | 1 <= i < |r| ensures priced[i].perUnitPrice == Some(r[i]) {
      assert r[i] == rest[i - 1] && priced[i] == tail[i - 1];
    }
  }

  /** `[p.price for p in ps]` */
  function Prices(ps: seq<Product>): (r: seq<real>)
    ensures |r| == |ps| && forall i :: 0 <= i < |ps| ==> r[i] == ps[i].price
  {
    if ps == [] then [] else [ps[0].price] + Prices(ps[1..])
  }

  function Sum(s: seq<real>): real
  {
    if s == [] then 0.0 else s[0] + Sum(s[1..])
  }

  /** The length of a list, counted as a real. */
  function Count(s: seq<real>): (n: real)
    ensures n >= 0.0 && (s != [] ==> n >= 1.0)
  {
    if s == [] then 0.0 else 1.0 + Count(s[1..])
  }

  function Min(s: seq<real>): real
    requires s != []
  {
    if |s| == 1 then s[0]
    else if s[0] <= Min(s[1..]) then s[0] else Min(s[1..])
  }

  lemma {:induction false} MinSpec(s: seq<real>)
    requires s != []
    ensures Min(s) in s && forall v :: v in s ==> Min(s) <= v
  {
    if |s| > 1 {
      MinSpec(s[1..]);
      assert forall v :: v in s ==> v == s[0] || v in s[1..];
    }
  }

  function Max(s: seq<real>): real
    requires s != []
  {
    if |s| == 1 then s[0]
    else if s[0] >= Max(s[1..]) then s[0] else Max(s[1..])
  }

  lemma {:induction false} MaxSpec(s: seq<real>)
    requires s != []
    ensures Max(s) in s && forall v :: v in s ==> v <= Max(s)
  {
    if |s| > 1 {
      MaxSpec(s[1..]);
      assert forall v :: v in s ==> v == s[0] || v in s[1..];
    }
  }

  /** The sum is at least the count times the minimum. */
  lemma {:induction false} SumAtLeast(s: seq<real>)
    requires s != []
    ensures Count(s) * Min(s) <= Sum(s)
  {
    if |s| > 1 {
      var t := s[1..];
      SumAtLeast(t);
      MinSpec(s);
      MinSpec(t);
      assert Min(t) in s;
      ExtendLower(Count(t), Min(s), Min(t), s[0], Sum(t));
    }
  }

  /** The sum is at most the count times the maximum. */
  lemma {:induction false} SumAtMost(s: seq<real>)
    requires s != []
    ensures Sum(s) <= Count(s) * Max(s)
  {
    if |s| > 1 {
      var t := s[1..];
      SumAtMost(t);
      MaxSpec(s);
      MaxSpec(t);
      assert Max(t) in s;
      ExtendUpper(Count(t), Max(s), Max(t), s[0], Sum(t));
    }
  }

  lemma ExtendLower(k: real, m: real, mt: real, x: real, rest: real)
    requires k >= 0.0 && m <= mt && m <= x && k * mt <= rest
    ensures (k + 1.0) * m <= x + rest
  {
    ScaleMonotone(k, m, mt);
  }

  lemma ExtendUpper(k: real, m: real, mt: real, x: real, rest: real)
    requires k >= 0.0 && mt <= m && x <= m && rest <= k * mt
    ensures x + rest <= (k + 1.0) * m
  {
    ScaleMonotone(k, mt, m);
  }

  lemma ScaleMonotone(k: real, a: real, b: real)
    requires k >= 0.0 && a <= b
    ensures k * a <= k * b
  {
    assert k * b - k * a == k * (b - a);
  }

  /** The average lies between the minimum and the maximum. */
  lemma AverageBounds(s: seq<real>)
    requires s != []
    ensures Min(s) <= Sum(s) / Count(s) <= Max(s)
  {
    var lo, x, hi, n := Min(s), Sum(s), Max(s), Count(s);
    SumAtLeast(s);
    SumAtMost(s);
    DivideBounds(lo, x, hi, n);
  }

  /** `Count` is the length. */
  lemma {:induction false} CountIsLength(s: seq<real>)
    ensures Count(s) == |s| as real
  {
    if s != [] {
      CountIsLength(s[1..]);
    }
  }

  lemma DivideBounds(lo: real, x: real, hi: real, n: real)
    requires n > 0.0 && n * lo <= x <= n * hi
    ensures lo <= x / n <= hi
  {
    var q := x / n;
    assert q * n == x;
    assert (q - lo) * n == x - lo * n;
    assert (hi - q) * n == hi * n - x;
    NonNegativeFactor(q - lo, n);
    NonNegativeFactor(hi - q, n);
  }

  lemma NonNegativeFactor(a: real, n: real)
    requires n > 0.0 && a * n >= 0.0
    ensures a >= 0.0
  {
  }

  /** The metric values `get_price_range` summarises. */
  function RangeMetrics(candidates: seq<Product>, size: Option<int>): seq<real>
  {
    if ByUnitPrice(size) then UnitPrices(candidates) else Prices(candidates)
  }

  /** The specification of `get_price_range`. */
  function PriceStats(pool: seq<Product>, patterns: set<string>, size: Option<int>): (r: PriceRange)
    ensures DealCandidates(pool, patterns, size) == [] ==> r == PriceRange(None, None, None)
    ensures r.minPrice.Some? == r.maxPrice.Some? == r.avgPrice.Some?
    ensures r.minPrice.Some? ==> r.minPrice.value <= r.avgPrice.value <= r.maxPrice.value
  {
    var candidates := DealCandidates(pool, patterns, size);
    if candidates == [] then PriceRange(None, None, None)
    else
      var metrics := RangeMetrics(candidates, size);
      if metrics == [] then PriceRange(None, None, None)
      else
        AverageBounds(metrics);
        PriceRange(Some(Min(metrics)), Some(Max(metrics)), Some(Sum(metrics) / Count(metrics)))
  }

  /**
    The bounds are attained and tight: the minimum and the maximum are metric
    values of eligible listings, and every eligible listing's metric lies between them;
    with no metric value at all, every field is absent.
  */
  lemma PriceStatsBounds(pool: seq<Product>, patterns: set<string>, size: Option<int>)
    ensures var r := PriceStats(pool, patterns, size);
            var metrics := RangeMetrics(DealCandidates(pool, patterns, size), size);
            (r.minPrice.None? <==> metrics == []) &&
            (r.minPrice.Some? ==>
               r.minPrice.value in metrics && r.maxPrice.value in metrics &&
               forall v :: v in metrics ==> r.minPrice.value <= v <= r.maxPrice.value)
  {
    var candidates := DealCandidates(pool, patterns, size);
    var metrics := RangeMetrics(candidates, size);
    if candidates == [] {
      assert metrics == [];
    } else if metrics != [] {
      MinSpec(metrics);
      MaxSpec(metrics);
    }
  }

  /** Every price in the singles' range is at most the singles' price cap. */
  lemma SinglesRangeCapped(pool: seq<Product>, patterns: set<string>)
    ensures var r := PriceStats(pool, patterns, None); r.maxPrice.Some? ==> r.maxPrice.value <= SinglePriceCap
  {
    var r := PriceStats(pool, patterns, None);
    var c := DealCandidates(pool, patterns, None);
    if r.maxPrice.Some? {
      PriceStatsBounds(pool, patterns, None);
      assert r.maxPrice.value in Prices(c);
      var i :| 0 <= i < |c| && Prices(c)[i] == r.maxPrice.value;
      assert c[i] in multiset(c);
      assert DealEligible(c[i], patterns, None);
    }
  }

  /** The average is the sum of the metric values over their number, as `sum(prices) / len(prices)` computes it. */
  lemma PriceStatsAverage(pool: seq<Product>, patterns: set<string>, size: Option<int>)
    ensures var r := PriceStats(pool, patterns, size);
            var candidates := DealCandidates(pool, patterns, size);
            var metrics := RangeMetrics(candidates, size);
            (r.avgPrice.Some? ==> r.avgPrice.value == Sum(metrics) / |metrics| as real) &&
            (ByUnitPrice(size) ==> |metrics| == |Select(candidates, HasUnitPrice())|) &&
            (!ByUnitPrice(size) ==> |metrics| == |candidates|)
  {
    var candidates := DealCandidates(pool, patterns, size);
    CountIsLength(RangeMetrics(candidates, size));
    UnitPricesInOrder(candidates);
  }

  /** Metric values come from eligible listings: per-unit prices for a multipack size, prices otherwise. */
  lemma RangeMetricsFromEligible(pool: seq<Product>, patterns: set<string>, size: Option<int>)
    ensures forall v :: v in RangeMetrics(DealCandidates(pool, patterns, size), size) ==>
              exists p :: p in pool && DealEligible(p, patterns, size) &&
                          (if ByUnitPrice(size) then p.perUnitPrice == Some(v) else p.price == v)
  {
    var c := DealCandidates(pool, patterns, size);
    forall v | v in RangeMetrics(c, size)
      ensures exists p :: p in pool && DealEligible(p, patterns, size) &&
                          (if ByUnitPrice(size) then p.perUnitPrice == Some(v) else p.price == v)
    {
      var p: Product;
      if ByUnitPrice(size) {
        p :| p in c && p.perUnitPrice == Some(v);
      } else {
        var i :| 0 <= i < |Prices(c)| && Prices(c)[i] == v;
        p := c[i];
      }
      assert multiset(c)[p] > 0;
    }
  }

  // ---------------------------------------------------------------------
  // get_store_summary
  // ---------------------------------------------------------------------

  /** The number of listings whose store is exactly `store`. */
  function StoreCount(ps: seq<Product>, store: string): nat
  {
    if ps == [] then 0 else (if ps[0].store == store then 1 else 0) + StoreCount(ps[1..], store)
  }

  function StoreNames(ps: seq<Product>): set<string>
  {
    set p | p in ps :: p.store
  }

  lemma {:induction false} StoreCountSnoc(ps: seq<Product>, p: Product, store: string)
    ensures StoreCount(ps + [p], store) == StoreCount(ps, store) + if p.store == store then 1 else 0
  {
    if ps != [] {
      assert (ps + [p])[1..] == ps[1..] + [p];
      StoreCountSnoc(ps[1..], p, store);
    } else {
      assert [p][1..] == [];
    }
  }

  lemma {:induction false} StoreCountAbsent(ps: seq<Product>, store: string)
    requires store !in StoreNames(ps)
    ensures StoreCount(ps, store) == 0
  {
    if ps != [] {
      assert StoreNames(ps[1..]) <= StoreNames(ps) by {
        forall s | s in StoreNames(ps[1..]) ensures s in StoreNames(ps) {
          var p :| p in ps[1..] && p.store == s;
          assert p in ps;
        }
      }
      assert ps[0] in ps;
      StoreCountAbsent(ps[1..], store);
    }
  }

  /** The sum of `StoreCount` over a set of store names. */
  ghost function CountOver(ps: seq<Product>, stores: set<string>): nat
  {
    if stores == {} then 0
    else
      var s :| s in stores;
      StoreCount(ps, s) + CountOver(ps, stores - {s})
  }

  /** Summing any one way over a set gives the same total as removing one given element first. */
  lemma {:induction false} CountOverRemove(ps: seq<Product>, stores: set<string>, s: string)
    requires s in stores
    ensures CountOver(ps, stores) == StoreCount(ps, s) + CountOver(ps, stores - {s})
    decreases |stores|
  {
    var t :| t in stores && CountOver(ps, stores) == StoreCount(ps, t) + CountOver(ps, stores - {t});
    if t != s {
      CountOverRemove(ps, stores - {t}, s);
      CountOverRemove(ps, stores - {s}, t);
      assert stores - {t} - {s} == stores - {s} - {t};
    }
  }

  /** Counting one more listing adds one to the total over any set holding its store. */
  lemma {:induction false} CountOverSnoc(ps: seq<Product>, p: Product, stores: set<string>)
    ensures CountOver(ps + [p], stores) == CountOver(ps, stores) + if p.store in stores then 1 else 0
    decreases |stores|
  {
    if stores != {} {
      var s :| s in stores;
      CountOverRemove(ps + [p], stores, s);
      CountOverRemove(ps, stores, s);
      CountOverSnoc(ps, p, stores - {s});
      StoreCountSnoc(ps, p, s);
    }
  }

  /** The per-store counts add up to the number of listings. */
  lemma {:induction false} SummaryTotal(ps: seq<Product>)
    ensures CountOver(ps, StoreNames(ps)) == |ps|
    decreases |ps|
  {
    if ps != [] {
      var init := ps[..|ps| - 1];
      var last := ps[|ps| - 1];
      assert ps == init + [last];
      SummaryTotal(init);
      var names := StoreNames(init);
      CountOverSnoc(init, last, StoreNames(ps));
      assert StoreNames(ps) == names + {last.store} by {
        forall s | s in StoreNames(ps) ensures s in names + {last.store} {
          var p :| p in ps && p.store == s;
          assert p == last || p in init;
        }
      }
      if last.store in names {
        assert StoreNames(ps) == names;
      } else {
        CountOverRemove(init, StoreNames(ps), last.store);
        assert StoreNames(ps) - {last.store} == names;
        StoreCountAbsent(init, last.store);
      }
    }
  }

  // ---------------------------------------------------------------------
  // run
  // ---------------------------------------------------------------------

  /** A scraper, known by its name; what scraping it yields is supplied separately. */
  datatype Scraper = Scraper(name: string)

  /** A scrape either returns a list of listings or raises. */
  datatype ScrapeOutcome = Scraped(listings: seq<Product>) | Failed(reason: string)

  function Yield(outcome: ScrapeOutcome): seq<Product>
  {
    match outcome
    case Scraped(listings) => listings
    case Failed(_) => []
  }

  /** The pool `run` builds: the lists of the scrapers that returned, concatenated in scraper order. */
  function Gathered(scrapers: seq<Scraper>, fetch: Scraper -> ScrapeOutcome): seq<Product>
  {
    if scrapers == [] then []
    else Gathered(scrapers[..|scrapers| - 1], fetch) + Yield(fetch(scrapers[|scrapers| - 1]))
  }

  /** Gathering distributes over a split of the scraper list. */
  lemma {:induction false} GatheredAppend(a: seq<Scraper>, b: seq<Scraper>, fetch: Scraper -> ScrapeOutcome)
    ensures Gathered(a + b, fetch) == Gathered(a, fetch) + Gathered(b, fetch)
    decreases |b|
  {
    if b == [] {
      assert a + b == a;
    } else {
      var b', last := b[..|b| - 1], b[|b| - 1];
      assert (a + b)[..|a + b| - 1] == a + b' && (a + b)[|a + b| - 1] == last;
      var y := Yield(fetch(last));
      assert Gathered(a + b, fetch) == Gathered(a + b', fetch) + y;
      assert Gathered(b, fetch) == Gathered(b', fetch) + y;
      GatheredAppend(a, b', fetch);
      assert Gathered(a, fetch) + Gathered(b', fetch) + y == Gathered(a, fetch) + (Gathered(b', fetch) + y);
    }
  }

  /** A scraper that raises contributes nothing, and the scrapers after it still contribute. */
  lemma FailedScraperSkipped(a: seq<Scraper>, s: Scraper, b: seq<Scraper>, fetch: Scraper -> ScrapeOutcome)
    requires fetch(s).Failed?
    ensures Gathered(a + [s] + b, fetch) == Gathered(a, fetch) + Gathered(b, fetch)
  {
    var front := a + [s];
    GatheredAppend(front, b, fetch);
    assert front[..|front| - 1] == a && front[|front| - 1] == s;
    assert Gathered(front, fetch) == Gathered(a, fetch) + Yield(fetch(s));
    assert Yield(fetch(s)) == [];
    assert Gathered(front, fetch) == Gathered(a, fetch);
  }

  // ---------------------------------------------------------------------
  // The imperative steps of get_best_deals
  // ---------------------------------------------------------------------

  /** The candidate filters, with the exclusion filter's scanning loop. */
  method CollectDealCandidates(pool: seq<Product>, patterns: set<string>, size: Option<int>) returns (r: seq<Product>)
    ensures r == DealCandidates(pool, patterns, size)
  {
    r := FilterAvailable(SizeStage(pool, size), true);
    if patterns != {} {
      r := FilterByExcludedPatterns(r, Some(patterns));
    }
  }

  /** The de-duplicating scan: a listing is kept when its key has not been recorded yet. */
  method DedupeScan(ranked: seq<Product>, size: Option<int>) returns (unique: seq<Product>)
    ensures unique == Dedupe(ranked, {}, size)
  {
    ghost var deduped := Dedupe(ranked, {}, size);
    var seen: map<DealKey, Product> := map[];
    unique := [];
    assert ranked[0..] == ranked && seen.Keys == {};
    assert unique + Dedupe(ranked[0..], seen.Keys, size) == deduped;
    var i := 0;
    while i < |ranked|
      invariant 0 <= i <= |ranked|
      invariant unique + Dedupe(ranked[i..], seen.Keys, size) == deduped
    {
      var key := KeyOf(ranked[i], size);
      DedupeStep(ranked, i, seen.Keys, size);
      ghost var tail := Dedupe(ranked[i + 1..], seen.Keys + {key}, size);
      if key !in seen {
        assert seen[key := ranked[i]].Keys == seen.Keys + {key};
        assert unique + ([ranked[i]] + tail) == (unique + [ranked[i]]) + tail;
        seen := seen[key := ranked[i]];
        unique := unique + [ranked[i]];
      }
      i := i + 1;
    }
    assert ranked[i..] == [];
    assert unique + [] == unique;
  }

  // ---------------------------------------------------------------------
  // The tracker object
  // ---------------------------------------------------------------------

  class BarebellsTracker {
    var scrapers: seq<Scraper>
    var products: seq<Product>
    var excludedPatterns: set<string>

    /** Registered patterns are stored lower-cased. */
    ghost predicate Valid()
      reads this
    {
      forall pattern :: pattern in excludedPatterns ==> Lower(pattern) == pattern
    }

    /** `scrapers or []`: no list, or an empty one, starts with no scrapers. */
    constructor(initial: Option<seq<Scraper>>)
      ensures scrapers == (if initial.Some? then initial.value else [])
      ensures products == [] && excludedPatterns == {}
      ensures Valid()
    {
      scrapers := if initial.Some? then initial.value else [];
      products := [];
      excludedPatterns := {};
    }

    method AddScraper(scraper: Scraper)
      modifies this
      ensures scrapers == old(scrapers) + [scraper]
      ensures products == old(products) && excludedPatterns == old(excludedPatterns)
    {
      scrapers := scrapers + [scraper];
    }

    method AddExclusionPattern(pattern: string)
      requires Valid()
      modifies this
      ensures Valid()
      ensures excludedPatterns == old(excludedPatterns) + {Lower(pattern)}
      ensures scrapers == old(scrapers) && products == old(products)
    {
      LowerIdempotent(pattern);
      excludedPatterns := excludedPatterns + {Lower(pattern)};
    }

    /** Discarding a pattern that is not registered is not an error. */
    method RemoveExclusionPattern(pattern: string)
      requires Valid()
      modifies this
      ensures Valid()
      ensures excludedPatterns == old(excludedPatterns) - {Lower(pattern)}
      ensures Lower(pattern) !in old(excludedPatterns) ==> excludedPatterns == old(excludedPatterns)
      ensures scrapers == old(scrapers) && products == old(products)
    {
      excludedPatterns := excludedPatterns - {Lower(pattern)};
    }

    method ClearExclusionPatterns()
      modifies this
      ensures Valid()
      ensures excludedPatterns == {}
      ensures scrapers == old(scrapers) && products == old(products)
    {
      excludedPatterns := {};
    }

    /** A copy of the registry: a set value, so later changes to either side do not reach the other. */
    method GetExclusionPatterns() returns (r: set<string>)
      ensures r == excludedPatterns
    {
      r := excludedPatterns;
    }

    /** Replace the pool with what the scrapers return now; a scraper that raises is skipped. */
    method Run(fetch: Scraper -> ScrapeOutcome) returns (r: seq<Product>)
      modifies this
      ensures products == Gathered(scrapers, fetch) && r == products
      ensures scrapers == old(scrapers) && excludedPatterns == old(excludedPatterns)
    {
      products := [];
      var i := 0;
      while i < |scrapers|
        invariant 0 <= i <= |scrapers|
        invariant products == Gathered(scrapers[..i], fetch)
        invariant scrapers == old(scrapers) && excludedPatterns == old(excludedPatterns)
      {
        var outcome := fetch(scrapers[i]);
        match outcome {
          case Scraped(listings) =>
            products := products + listings;
          case Failed(_) =>
        }
        assert scrapers[..i + 1][..i] == scrapers[..i];
        i := i + 1;
      }
      assert scrapers[..|scrapers|] == scrapers;
      r := products;
    }

    /** Exactly the qualifying listings of the pool, with their multiplicities, in the order the sort key asks for. */
    function GetProducts(q: ProductQuery): (r: seq<Product>)
      reads this
      ensures forall p :: multiset(r)[p] == if Qualifies(p, excludedPatterns, q) then multiset(products)[p] else 0
      ensures q.sortBy == Some("price") ==> SortedBy(r, Price(), q.reverseSort)
      ensures q.sortBy == Some("unit_price") ==> Pairwise(r, PartitionOrder(HasUnitPrice(), UnitPrice(), q.reverseSort))
      ensures q.sortBy == Some("package_size") ==> Pairwise(r, PartitionOrder(HasPackageSize(), Size(), q.reverseSort))
      ensures q.sortBy !in {Some("price"), Some("unit_price"), Some("package_size")} ==> Subsequence(r, products)
    {
      SelectProductsSpec(products, excludedPatterns, q);
      SelectProducts(products, excludedPatterns, q)
    }

    /** How many listings each store contributed, keyed by the exact store string. */
    method GetStoreSummary() returns (summary: map<string, nat>)
      ensures summary.Keys == StoreNames(products)
      ensures forall s :: s in summary ==> summary[s] == StoreCount(products, s)
    {
      summary := map[];
      var i := 0;
      while i < |products|
        invariant 0 <= i <= |products|
        invariant summary.Keys == StoreNames(products[..i])
        invariant forall s :: s in summary ==> summary[s] == StoreCount(products[..i], s)
      {
        var p := products[i];
        var count := if p.store in summary then summary[p.store] else 0;
        assert products[..i + 1] == products[..i] + [p];
        forall s ensures StoreCount(products[..i + 1], s) == StoreCount(products[..i], s) + if p.store == s then 1 else 0 {
          StoreCountSnoc(products[..i], p, s);
        }
        if p.store !in summary {
          StoreCountAbsent(products[..i], p.store);
        }
        summary := summary[p.store := count + 1];
        i := i + 1;
      }
      assert products[..|products|] == products;
    }

    /** The best deals as `get_best_deals` computes them: filter, rank, then a de-duplicating scan, then truncate. */
    method GetBestDeals(size: Option<int>, limit: nat) returns (r: seq<Product>)
      ensures r == BestDeals(products, excludedPatterns, size, limit)
    {
      var candidates := CollectDealCandidates(products, excludedPatterns, size);
      var ranked := if ByUnitPrice(size) then SortByPerUnitPrice(candidates, false) else SortByPrice(candidates, false);
      var unique := DedupeScan(ranked, size);
      r := Take(unique, limit);
    }

    /** All three statistics are present or all absent, and the average lies between the bounds. */
    function GetPriceRange(size: Option<int>): (r: PriceRange)
      reads this
      ensures r.minPrice.Some? == r.maxPrice.Some? == r.avgPrice.Some?
      ensures r.minPrice.Some? ==> r.minPrice.value <= r.avgPrice.value <= r.maxPrice.value
      ensures DealCandidates(products, excludedPatterns, size) == [] ==> r == PriceRange(None, None, None)
    {
      PriceStats(products, excludedPatterns, size)
    }
  }
}
