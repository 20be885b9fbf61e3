# Barebells tracker: listing canonicalisation, filters, sorts and deal ranking

This project models the decision logic of the Barebells price tracker in Dafny and proves properties of it. The tracker collects protein-bar listings from web shops and answers queries over the collected pool. The model has four parts:

- **Listings** (`Products`, with `CountPatterns` and `Text`). A listing is a record with a name, a price, an URL, a store, an optional per-unit price, an optional package size, optional stock and an availability flag. When a listing is built, its package size is resolved by a fixed-priority rule chain over the lower-cased name:
  1. the marker `12-pack`;
  2. then the count patterns `(\d+)\s*x\s*\d+g`, `(\d+)\s*st\b` and `(\d+)\s*pack\b`, in that order;
  3. then a price threshold of 100.

  After the size is resolved, a missing per-unit price is derived as price over size when the size is nonzero. The three patterns are hand-written matchers with `re.search` semantics: the leftmost start wins and `\d+` / `\s*` are greedy.
- **Filters** (`Filtering`, over `Sequences`). There are eight order-preserving selections:
  - by store (case-insensitive);
  - by package size;
  - by price range (inclusive);
  - by availability;
  - by stock;
  - singles;
  - multipacks;
  - by exclusion substrings.

  The exclusion filter keeps the source's nested scanning loop.
- **Sorts** (`Sorting`). `sorted(...)` is modelled as a stable insertion sort in both directions. The per-unit-price and package-size sorts sort only the listings that have the key, then append the others in input order.
- **The tracker** (`Tracker`). It is a class holding the scraper list, the pool and the exclusion registry. It provides:
  - the registry operations;
  - `run`, which gathers the listings of the scrapers that did not fail;
  - the product query;
  - the per-store summary;
  - the best deals (select, rank, de-duplicate on store and price metric, truncate);
  - the price range (minimum, maximum and average of the metric, or all absent).

Each imperative operation is proved equal to a specification function:
- the listing build with its early returns and its loop over the patterns;
- the exclusion filter;
- `run`;
- the store summary;
- the de-duplicating scan.

The properties are proved about those specification functions.

Prices are exact reals. Scrapers are names, and what a scrape yields is a parameter `fetch: Scraper -> ScrapeOutcome`: either a list of listings or a failure.

The model follows the code where it departs from what one might expect. A built listing is not guaranteed a package size of at least 1: the code accepts a count of `0` from a name such as "0 st", and the per-unit price then stays unset (`Products.ZeroCountListing`).

Two quirks of the code are kept as written:
- `get_products` with no package size applies no size filter at all, not the singles filter.
- `get_best_deals` with an explicit size of 1 ranks by price but de-duplicates on the per-unit price (`Tracker.SizeOneMixesMetrics`).

## Model

| member | source | states |
|---|---|---|
| Text.Lower | barebells_tracker/models/product.py:31 | lower-casing keeps the length and maps each ASCII upper-case letter to its lower-case one, leaving other characters alone |
| Text.LowerIdempotent | barebells_tracker/tracker.py:25 | lower-casing a lower-cased string changes nothing (why the registry holds only lower-case patterns) |
| Text.DecimalRoundTrip | barebells_tracker/models/product.py:45 | `int` of the decimal spelling of n is n |
| CountPatterns.MatchesAt | barebells_tracker/models/product.py:37-39 | the definition of a match of one size pattern at one position of the lower-cased name, with the captured count; SearchIsLeftmost, TimesGramsFound and CountWordFound state its properties |
| CountPatterns.Search | barebells_tracker/models/product.py:43 | `re.search` for one size pattern: the leftmost match, stated by SearchIsLeftmost |
| CountPatterns.SearchIsLeftmost | barebells_tracker/models/product.py:43 | the search finds nothing iff no position matches; otherwise it reports the capture at the leftmost matching position |
| CountPatterns.TimesGramsFound | barebells_tracker/models/product.py:37 | a name of the form `<no digits>N<spaces>x<spaces>Mg...` yields N for the `N x Mg` pattern |
| CountPatterns.CountWordFound | barebells_tracker/models/product.py:38-39 | a name of the form `<no digits>N<spaces>st` or `...pack` followed by a non-word character or the end yields N |
| Products.FirstMatch | barebells_tracker/models/product.py:42-46 | the result is absent iff no pattern matches; otherwise it is the capture of a matching pattern before which none matched |
| Products.InferredSize | barebells_tracker/models/product.py:30-53 | the inferred size is never negative |
| Products.WithSize | barebells_tracker/models/product.py:25-53 | a supplied size is kept; otherwise the size becomes the inferred one and nothing else changes |
| Products.WithUnitPrice | barebells_tracker/models/product.py:55-58 | only the per-unit price may change; a supplied one is kept; a missing one becomes price / size for a nonzero size and stays missing otherwise |
| Products.DetectPackageSize | barebells_tracker/models/product.py:25-53 | the early returns and the loop over the patterns compute the same listing as `WithSize` |
| Products.CalculatePerUnitPrice | barebells_tracker/models/product.py:55-58 | the step computes the same listing as `WithUnitPrice` |
| Products.PostInit | barebells_tracker/models/product.py:16-23 | building a listing runs size detection and then the per-unit price; the result always has a size, and the per-unit price is missing only for size 0 |
| Products.Canonical | barebells_tracker/models/product.py:16-23 | the completed listing always has a package size; CanonicalFields, CanonicalKeepsSupplied, CanonicalUnitPrice and CanonicalIdempotent state the rest |
| Products.CanonicalFields | barebells_tracker/models/product.py:6-14 | after construction the size is never absent, and name, price, URL, store, stock and availability are unchanged |
| Products.CanonicalKeepsSupplied | barebells_tracker/models/product.py:27-28 | a supplied package size or per-unit price survives construction |
| Products.CanonicalUnitPrice | barebells_tracker/models/product.py:57-58 | with no supplied per-unit price, it is price / size for a nonzero size and stays absent exactly when the size is 0 |
| Products.UnitPricePositive | barebells_tracker/models/product.py:57-58 | a positive price and a positive size give a positive per-unit price |
| Products.CanonicalIdempotent | barebells_tracker/models/product.py:16-23 | building a listing from a built listing changes nothing |
| Products.TwelvePackWins | barebells_tracker/models/product.py:31-33 | `12-pack` in any letter case gives 12, whatever the patterns or the price say |
| Products.FirstPatternWins | barebells_tracker/models/product.py:36-46 | without the marker, the first pattern in list order that matches gives the size |
| Products.PriceHeuristic | barebells_tracker/models/product.py:50-53 | with no marker and no pattern match, a price above 100 gives 12 and otherwise 1, so exactly 100 gives 1 |
| Products.SizeFromTimesGrams | barebells_tracker/models/product.py:36-46 | a name like "12x55g" gets size 12 |
| Products.SizeFromCountSt | barebells_tracker/models/product.py:36-46 | a name like "6 st" gets size 6 |
| Products.ZeroCountListing | barebells_tracker/models/product.py:36-58 | a name with "0 st" gets size 0 and no per-unit price |
| Products.NoTimesGramsWithoutX | barebells_tracker/models/product.py:37 | a name without `x` never matches the `N x Mg` pattern |
| Products.NoMarkerWithoutHyphen | barebells_tracker/models/product.py:31 | a name without `-` never holds the marker |
| Products.SingleMultipackExclusive | barebells_tracker/models/product.py:60-68 | single iff size is 1, multipack iff size is above 1, never both |
| Products.IsSingle | barebells_tracker/models/product.py:60-63 | a single is a listing of package size exactly 1; SingleMultipackExclusive relates it to the multipack test |
| Products.IsMultipack | barebells_tracker/models/product.py:65-68 | a multipack has a present, non-zero size above 1; SingleMultipackExclusive shows no listing is both |
| Sequences.SelectSpec | barebells_tracker/utils/filtering.py:7 | a list comprehension returns an order-preserving subsequence holding each qualifying element as often as the input, and nothing else |
| Sequences.SelectCharacterized | barebells_tracker/utils/filtering.py:7 | those two properties determine the comprehension's result |
| Sequences.SelectIdempotent | barebells_tracker/utils/filtering.py:7 | filtering twice with one condition is filtering once |
| Sequences.SelectCommutes | barebells_tracker/tracker.py:61-81 | two filters may be applied in either order |
| Sequences.SubsequencePairwise | barebells_tracker/tracker.py:139 | an ordering of a list holds for each of its subsequences |
| Filtering.FilterByStore | barebells_tracker/utils/filtering.py:5-7 | keeps, in order, exactly the listings whose store equals the argument ignoring case |
| Filtering.FilterByPackageSize | barebells_tracker/utils/filtering.py:9-17 | no size keeps exactly the singles; a size keeps exactly the listings of that size |
| Filtering.FilterByPriceRange | barebells_tracker/utils/filtering.py:19-33 | inclusive at both ends, an absent bound imposes nothing, and no bounds return the input itself |
| Filtering.FilterAvailable | barebells_tracker/utils/filtering.py:35-37 | keeps exactly the listings whose availability equals the flag |
| Filtering.FilterInStock | barebells_tracker/utils/filtering.py:39-41 | drops unknown stock and keeps exactly stock at least the minimum |
| Filtering.FilterSingles | barebells_tracker/utils/filtering.py:43-45 | keeps exactly the singles, in order |
| Filtering.FilterMultipacks | barebells_tracker/utils/filtering.py:47-49 | keeps exactly the multipacks, in order |
| Filtering.WithoutExcluded | barebells_tracker/utils/filtering.py:51-81 | no or empty patterns return the input; otherwise the listings whose lower-cased name holds no lower-cased pattern are kept, in order |
| Filtering.FilterByExcludedPatterns | barebells_tracker/utils/filtering.py:63-78 | the nested scan with its flag and `break` computes `WithoutExcluded` |
| Filtering.FiltersIdempotent | barebells_tracker/utils/filtering.py:5-81 | applying any of the eight filters to its own output changes nothing |
| Filtering.PriceRangeIdempotent | barebells_tracker/utils/filtering.py:19-33 | the price-range filter is idempotent |
| Filtering.PackageSizeNoneIsSingles | barebells_tracker/utils/filtering.py:15-16 | the package-size filter without a size is the singles filter |
| Filtering.PackageSizeOneIsSingles | barebells_tracker/utils/filtering.py:9-17 | the package-size filter with size 1 is the singles filter |
| Sorting.Insert | barebells_tracker/utils/sorting.py:6 | inserting adds exactly one item to the list's contents |
| Sorting.StableSort | barebells_tracker/utils/sorting.py:6 | the sort is a permutation of its input |
| Sorting.StableSortSorted | barebells_tracker/utils/sorting.py:6 | the sort's output is in key order, ascending or descending by `reverse` |
| Sorting.StableSortStable | barebells_tracker/utils/sorting.py:6 | within each key value, the output order is the input order, in both directions |
| Sorting.SortedUnchanged | barebells_tracker/utils/sorting.py:6 | a list already in key order is returned unchanged |
| Sorting.StableSortIdempotent | barebells_tracker/utils/sorting.py:6 | sorting twice is sorting once |
| Sorting.SortByPrice | barebells_tracker/utils/sorting.py:4-6 | a permutation, ordered by price by `reverse`, and stable for equal prices |
| Sorting.SortByPerUnitPrice | barebells_tracker/utils/sorting.py:8-18 | a permutation; a prefix of the listings with a per-unit price in key order, then those without, in input order; stable per value |
| Sorting.SortByPackageSize | barebells_tracker/utils/sorting.py:20-30 | the same partition, tail order, prefix order and stability for the package size |
| Sorting.PerUnitPriceOrder | barebells_tracker/utils/sorting.py:8-18 | no listing without a per-unit price stands before one with it, in both directions, and resolved listings are in key order |
| Sorting.PackageSizeOrder | barebells_tracker/utils/sorting.py:20-30 | the same for the package size |
| Tracker.Filtered | barebells_tracker/tracker.py:61-81 | the query's filter chain keeps, in order, exactly the listings satisfying `Qualifies`, a condition-by-condition statement of the query |
| Tracker.SortedAs | barebells_tracker/tracker.py:83-90 | the optional sort step: no or an unknown key leaves the list as is, each of the three keys applies its sort with `reverse`; the orderings are stated by GetProducts and SelectProductsSpec |
| Tracker.SelectProducts | barebells_tracker/tracker.py:50-92 | the whole query as filters then sort; SelectProductsSpec and DefaultQueryLists state what it returns |
| Tracker.SelectProductsSpec | barebells_tracker/tracker.py:50-92 | a query returns exactly the qualifying listings with their multiplicities. It is ordered by the chosen sort key, and in pool order for an absent or unknown key. Absent size and empty store filter nothing. Exclusions apply only when asked for and the registry is not empty |
| Tracker.DefaultQueryLists | barebells_tracker/tracker.py:50-59 | with default arguments, the query lists the available listings matching no registered pattern, in pool order |
| Tracker.DealCandidates | barebells_tracker/tracker.py:110-120 | the deal filters keep, in order, exactly the available, non-excluded listings that are singles up to 100 for no size, or of the asked size |
| Tracker.KeyOf | barebells_tracker/tracker.py:133 | the de-duplication key: store with price for no size and store with per-unit price otherwise; used by DedupeSpec and DedupeKeepsFirst |
| Tracker.Ranked | barebells_tracker/tracker.py:123-126 | by per-unit price for a size above 1 and by price otherwise; RankedOrder states the order and the permutation |
| Tracker.RankedOrder | barebells_tracker/tracker.py:123-126 | the ranked list is a permutation of the candidates, ordered by per-unit price (listings without one last) for a size above 1 and by price otherwise |
| Tracker.Dedupe | barebells_tracker/tracker.py:129-136 | keep a listing iff its key was not seen before; DedupeSpec and DedupeKeepsFirst state its properties, DedupeScan proves the loop computes it |
| Tracker.DedupeSpec | barebells_tracker/tracker.py:128-136 | de-duplication keeps listings in order, no two with one key, and at least one per key present |
| Tracker.DedupeKeepsFirst | barebells_tracker/tracker.py:132-136 | each kept listing is the first of its key in the scanned order |
| Tracker.BestDealsSpec | barebells_tracker/tracker.py:101-139 | at most `limit` results; each is an eligible pool listing; no two share a key; ordered by per-unit price for a size above 1 and by price otherwise |
| Tracker.BestDeals | barebells_tracker/tracker.py:101-139 | the best deals as candidates, ranked, de-duplicated and truncated; BestDealsSpec, FirstOfKeyKept and EveryKeyRepresented state its properties |
| Tracker.FirstOfKeyKept | barebells_tracker/tracker.py:129-136 | each result is the first listing of its key in ranked order |
| Tracker.EveryKeyRepresented | barebells_tracker/tracker.py:129-136 | the de-duplicated list holds every key of the ranked candidates |
| Tracker.TakeSpec | barebells_tracker/tracker.py:139 | truncation gives a prefix of at most `limit` items |
| Tracker.Take | barebells_tracker/tracker.py:139 | the slice `[:limit]`; TakeSpec states it is a prefix of at most `limit` items |
| Tracker.SizeOneMixesMetrics | barebells_tracker/tracker.py:123-133 | with size 1 the results are ordered by price but distinct by store and per-unit price |
| Tracker.AllEligible | barebells_tracker/tracker.py:110-120 | when every pool listing is eligible, the candidates are the pool |
| Tracker.OverpricedSingleExcluded | barebells_tracker/tracker.py:111-113 | a single priced above 100 is never a single-bar candidate, never a best deal, and lies above the singles' price range |
| Tracker.SinglesRangeCapped | barebells_tracker/tracker.py:151-153 | every price in the singles' range is at most 100 |
| Tracker.SinglesScenario | barebells_tracker/tracker.py:101-146 | singles at 25 and 25 from store A and at 30 from store B give the first A listing and then the B listing |
| Tracker.MultipackScenario | barebells_tracker/tracker.py:101-146 | 12-packs at 300 and 240 from two stores rank the 240 one first and keep both |
| Tracker.DedupeScan | barebells_tracker/tracker.py:129-136 | the loop over a `seen` dictionary computes `Dedupe` |
| Tracker.CollectDealCandidates | barebells_tracker/tracker.py:110-120 | the filter calls, with the exclusion scan, compute `DealCandidates` |
| Tracker.UnitPrices | barebells_tracker/tracker.py:171 | the values are exactly the per-unit prices present among the listings; UnitPricesInOrder states count and order |
| Tracker.UnitPricesInOrder | barebells_tracker/tracker.py:171 | one value per listing that has a per-unit price, in the listings' order, each that listing's per-unit price |
| Tracker.Prices | barebells_tracker/tracker.py:173 | one price per listing, in order |
| Tracker.MinSpec | barebells_tracker/tracker.py:176 | the minimum is a value of the list and at most every value |
| Tracker.MaxSpec | barebells_tracker/tracker.py:177 | the maximum is a value of the list and at least every value |
| Tracker.Sum | barebells_tracker/tracker.py:178 | `sum` over the metric values; PriceStatsAverage and AverageBounds state its use |
| Tracker.Min | barebells_tracker/tracker.py:176 | `min` of a non-empty list; MinSpec states its properties |
| Tracker.Max | barebells_tracker/tracker.py:177 | `max` of a non-empty list; MaxSpec states its properties |
| Tracker.RangeMetrics | barebells_tracker/tracker.py:169-173 | per-unit prices for a size above 1 and prices otherwise; RangeMetricsFromEligible, UnitPricesInOrder and PriceStatsAverage state its properties |
| Tracker.AverageBounds | barebells_tracker/tracker.py:176-178 | the average of a non-empty list lies between its minimum and maximum |
| Tracker.PriceStats | barebells_tracker/tracker.py:148-179 | no candidates give all three fields absent; the fields are present together; minimum ≤ average ≤ maximum |
| Tracker.PriceStatsBounds | barebells_tracker/tracker.py:169-179 | fields absent iff there is no metric value; otherwise the bounds are metric values and every metric value lies between them |
| Tracker.PriceStatsAverage | barebells_tracker/tracker.py:169-178 | the average is the sum over the number of metric values; that number is the number of candidates with a per-unit price for a size above 1 and the number of candidates otherwise |
| Tracker.RangeMetricsFromEligible | barebells_tracker/tracker.py:169-173 | each metric value is the per-unit price of an eligible listing for a size above 1, and its price otherwise |
| Tracker.StoreCountSnoc | barebells_tracker/tracker.py:97-98 | one more listing adds one to its store's count only |
| Tracker.StoreCount | barebells_tracker/tracker.py:94-99 | the number of pool listings from one store; StoreCountSnoc and SummaryTotal state its properties |
| Tracker.SummaryTotal | barebells_tracker/tracker.py:94-99 | the per-store counts sum to the pool length |
| Tracker.GatheredAppend | barebells_tracker/tracker.py:42-45 | gathering over two lists of scrapers concatenates their yields |
| Tracker.Gathered | barebells_tracker/tracker.py:39-48 | what `run` collects: each scraper's listings in scraper order, nothing from one that raises; GatheredAppend and FailedScraperSkipped state its properties |
| Tracker.FailedScraperSkipped | barebells_tracker/tracker.py:43-47 | a scraper that raises adds nothing and the later scrapers still contribute |
| Tracker.BarebellsTracker.constructor | barebells_tracker/tracker.py:8-12 | no list or an empty list gives no scrapers; the pool and registry start empty |
| Tracker.BarebellsTracker.AddScraper | barebells_tracker/tracker.py:19-21 | appends the scraper and changes nothing else |
| Tracker.BarebellsTracker.AddExclusionPattern | barebells_tracker/tracker.py:23-25 | adds the lower-cased pattern; the registry stays lower-case |
| Tracker.BarebellsTracker.RemoveExclusionPattern | barebells_tracker/tracker.py:27-29 | removes the lower-cased form and is a no-op when it is absent |
| Tracker.BarebellsTracker.ClearExclusionPatterns | barebells_tracker/tracker.py:31-33 | empties the registry |
| Tracker.BarebellsTracker.GetExclusionPatterns | barebells_tracker/tracker.py:35-37 | returns the registry's contents as a value, so later changes to either side do not reach the other |
| Tracker.BarebellsTracker.Run | barebells_tracker/tracker.py:39-48 | the pool becomes the concatenation, in scraper order, of the lists of the scrapers that did not fail, and is returned |
| Tracker.BarebellsTracker.GetProducts | barebells_tracker/tracker.py:50-92 | exactly the qualifying pool listings with their multiplicities, ordered as the sort key asks |
| Tracker.BarebellsTracker.GetStoreSummary | barebells_tracker/tracker.py:94-99 | the keys are the pool's exact store strings, and each count is the number of listings with that store |
| Tracker.BarebellsTracker.GetBestDeals | barebells_tracker/tracker.py:101-146 | filter, rank, the de-duplicating scan and truncation compute `BestDeals` |
| Tracker.BarebellsTracker.GetPriceRange | barebells_tracker/tracker.py:148-179 | fields present together, minimum ≤ average ≤ maximum, and all absent when no candidate survives |

## Left out

- The scrapers (of the shops' web pages and JSON APIs) are not part of this model. A scraper is a name, and the result of scraping it is the parameter `fetch`, a deterministic function from scraper to "listings or failure". HTTP, HTML parsing and per-shop price corrections are out of scope.
- The weight-tolerance size chain of one shop's scraper is adapter logic over parsed weight strings and is not modelled.
- `create_default_tracker` only instantiates the concrete scrapers and is not modelled. `main.py` (command-line printing) is not part of this model.
- Logging (`logging.basicConfig`, the `log` parameter of `get_best_deals` and the per-exclusion log line) has no effect on results and is left out. The `log` parameter is therefore dropped from `GetBestDeals`.
- Prices, per-unit prices and averages are exact reals. IEEE rounding of `price / package_size` and `sum / len` is not modelled.
- Text is ASCII: `lower()` maps only `A`–`Z`, and `\d`, `\s` and `\w` are their ASCII classes. Unicode case mapping and Unicode digits are not modelled.
- Only the three size patterns are modelled, by dedicated matchers. The general regular-expression engine is not.
- Tracker.BarebellsTracker.GetBestDeals: `limit` is a natural number. Python's slice with a negative limit, which drops items from the end, is not modelled.
- A listing is built by value: the model takes the raw record and returns the completed one. The in-place update of the dataclass's fields is not modelled, nor is aliasing of listings.
- Tracker.BarebellsTracker.Run and Tracker.BarebellsTracker.GetProducts return sequence values. The source returns its own pool list from `run` and, when no filter applies, from `get_products`, so a caller mutating the result would mutate the pool; that aliasing is not modelled.
- A scraper that raises after returning part of its list cannot occur in the model: a scrape either returns a whole list or fails. `extend` is not interrupted midway.
- Sorting.SortByPackageSize: the key is the size converted to a real, which orders integers the same way.
- The store summary is a `map`. The source's dictionary also keeps its keys in order of first appearance, and that order is not modelled.
- Tracker.BarebellsTracker.constructor copies the given scraper list. The source keeps the caller's list (`scrapers or []`), so `add_scraper` appends to the caller's list too; that aliasing is not modelled.
- The error log line that `run` writes for a failing scraper is not modelled; the model only skips that scraper.
