/**
  The three sorts. Each is Python's `sorted(..., key=..., reverse=...)`, which
  is stable in both directions: with `reverse` the comparison is flipped, and
  items with equal keys still keep their input order. The per-unit-price and
  package-size sorts sort only the items whose key is present and append the
  others, in input order, whichever direction is asked for.
*/
module Sorting {
  import opened Optional
  import opened Sequences
  import opened Products

  /** `a` sorts strictly before `b`. */
  predicate Precedes(a: real, b: real, reverse: bool)
  {
    if reverse then a > b else a < b
  }

  /** `a` may stand before `b` in the output. */
  predicate InOrder(a: real, b: real, reverse: bool)
  {
    if reverse then a >= b else a <= b
  }

  ghost predicate SortedBy<T>(s: seq<T>, key: T -> real, reverse: bool)
  {
    forall i, j :: 0 <= i < j < |s| ==> InOrder(key(s[i]), key(s[j]), reverse)
  }

  /** Items whose key is `v`. */
  function KeyIs<T>(key: T -> real, v: real): T -> bool { x => key(x) == v }

  /** `x` goes after every item that strictly precedes it, and before the first that does not. */
  function Insert<T(==,!new)>(x: T, t: seq<T>, key: T -> real, reverse: bool): (r: seq<T>)
    ensures multiset(r) == multiset(t) + multiset{x}
  {
    if t == [] then [x]
    else if Precedes(key(t[0]), key(x), reverse) then
      assert t == [t[0]] + t[1..];
      [t[0]] + Insert(x, t[1..], key, reverse)
    else [x] + t
  }

  /** `sorted(s, key=key, reverse=reverse)`: each item is inserted behind the sorted rest of the list. */
  function StableSort<T(==,!new)>(s: seq<T>, key: T -> real, reverse: bool): (r: seq<T>)
    ensures multiset(r) == multiset(s)
  {
    if s == [] then []
    else
      assert s == [s[0]] + s[1..];
      Insert(s[0], StableSort(s[1..], key, reverse), key, reverse)
  }

  lemma {:induction false} InsertSorted<T(!new)>(x: T, t: seq<T>, key: T -> real, reverse: bool)
    requires SortedBy(t, key, reverse)
    ensures SortedBy(Insert(x, t, key, reverse), key, reverse)
  {
    if t != [] && Precedes(key(t[0]), key(x), reverse) {
      var rest := Insert(x, t[1..], key, reverse);
      InsertSorted(x, t[1..], key, reverse);
      var r := [t[0]] + rest;
      forall j | 0 < j < |r| ensures InOrder(key(t[0]), key(r[j]), reverse) {
        assert r[j] in multiset(rest);
        if r[j] != x {
          assert r[j] in t[1..];
        }
      }
    } else if t != [] {
      var r := [x] + t;
      forall i, j | 0 <= i < j < |r| ensures InOrder(key(r[i]), key(r[j]), reverse) {
        if i == 0 && j > 1 {
          assert InOrder(key(t[0]), key(t[j - 1]), reverse);
        }
      }
    }
  }

  lemma {:induction false} StableSortSorted<T(!new)>(s: seq<T>, key: T -> real, reverse: bool)
    ensures SortedBy(StableSort(s, key, reverse), key, reverse)
  {
    if s != [] {
      StableSortSorted(s[1..], key, reverse);
      InsertSorted(s[0], StableSort(s[1..], key, reverse), key, reverse);
    }
  }

  /** Inserting `x` puts it in front of every item with the same key and changes no other key group. */
  lemma {:induction false} InsertStable<T(!new)>(x: T, t: seq<T>, key: T -> real, reverse: bool, v: real)
    ensures Select(Insert(x, t, key, reverse), KeyIs(key, v)) ==
            if key(x) == v then [x] + Select(t, KeyIs(key, v)) else Select(t, KeyIs(key, v))
  {
    var inGroup := KeyIs(key, v);
    if t == [] {
      SelectCons(x, [], inGroup);
    } else if Precedes(key(t[0]), key(x), reverse) {
      InsertStable(x, t[1..], key, reverse, v);
      SelectCons(t[0], Insert(x, t[1..], key, reverse), inGroup);
      assert t == [t[0]] + t[1..];
      SelectCons(t[0], t[1..], inGroup);
    } else {
      SelectCons(x, t, inGroup);
    }
  }

  /** Stability: within each key group the sorted order is the input order. */
  lemma {:induction false} StableSortStable<T(!new)>(s: seq<T>, key: T -> real, reverse: bool, v: real)
    ensures Select(StableSort(s, key, reverse), KeyIs(key, v)) == Select(s, KeyIs(key, v))
  {
    if s != [] {
      StableSortStable(s[1..], key, reverse, v);
      InsertStable(s[0], StableSort(s[1..], key, reverse), key, reverse, v);
      assert s == [s[0]] + s[1..];
      SelectCons(s[0], s[1..], KeyIs(key, v));
    }
  }

  /** A list already in order is left as it is. */
  lemma {:induction false} SortedUnchanged<T(!new)>(s: seq<T>, key: T -> real, reverse: bool)
    requires SortedBy(s, key, reverse)
    ensures StableSort(s, key, reverse) == s
  {
    if s != [] {
      var t := s[1..];
      SortedTail(s, key, reverse);
      SortedUnchanged(t, key, reverse);
      InsertAtFront(s[0], t, key, reverse);
      assert s == [s[0]] + t;
    }
  }

  /** The tail of an ordered list is ordered, and the head may stand before it. */
  lemma SortedTail<T>(s: seq<T>, key: T -> real, reverse: bool)
    requires s != [] && SortedBy(s, key, reverse)
    ensures SortedBy(s[1..], key, reverse)
    ensures s[1..] == [] || InOrder(key(s[0]), key(s[1..][0]), reverse)
  {
    var t := s[1..];
    forall i, j | 0 <= i < j < |t| ensures InOrder(key(t[i]), key(t[j]), reverse) {
      assert t[i] == s[i + 1] && t[j] == s[j + 1];
    }
    if t != [] {
      assert t[0] == s[1];
    }
  }

  /** An item that may stand before the head of `t` is inserted at the front. */
  lemma InsertAtFront<T(!new)>(x: T, t: seq<T>, key: T -> real, reverse: bool)
    requires t == [] || InOrder(key(x), key(t[0]), reverse)
    ensures Insert(x, t, key, reverse) == [x] + t
  {
  }

  /** Sorting twice is sorting once. */
  lemma StableSortIdempotent<T(!new)>(s: seq<T>, key: T -> real, reverse: bool)
    ensures StableSort(StableSort(s, key, reverse), key, reverse) == StableSort(s, key, reverse)
  {
    StableSortSorted(s, key, reverse);
    SortedUnchanged(StableSort(s, key, reverse), key, reverse);
  }

  // ---------------------------------------------------------------------
  // The three sorts over listings
  // ---------------------------------------------------------------------

  function Price(): Product -> real { (p: Product) => p.price }

  /** The per-unit price of a listing that has one (only ever applied to those). */
  function UnitPrice(): Product -> real
  {
    (p: Product) => if p.perUnitPrice.Some? then p.perUnitPrice.value else 0.0
  }

  /** The package size of a listing that has one, as a real (only ever applied to those). */
  function Size(): Product -> real
  {
    (p: Product) => if p.packageSize.Some? then p.packageSize.value as real else 0.0
  }

  function HasUnitPrice(): Product -> bool { (p: Product) => p.perUnitPrice.Some? }
  function NoUnitPrice(): Product -> bool { (p: Product) => p.perUnitPrice.None? }
  function HasPackageSize(): Product -> bool { (p: Product) => p.packageSize.Some? }
  function NoPackageSize(): Product -> bool { (p: Product) => p.packageSize.None? }

  function UnitPriceIs(v: real): Product -> bool { (p: Product) => p.perUnitPrice == Some(v) }
  function PackageSizeIs(n: int): Product -> bool { (p: Product) => p.packageSize == Some(n) }

  function SortByPrice(ps: seq<Product>, reverse: bool): (r: seq<Product>)
    ensures multiset(r) == multiset(ps)
    ensures SortedBy(r, Price(), reverse)
    ensures forall v :: Select(r, KeyIs(Price(), v)) == Select(ps, KeyIs(Price(), v))
  {
    StableSortSorted(ps, Price(), reverse);
    assert forall v :: Select(StableSort(ps, Price(), reverse), KeyIs(Price(), v)) == Select(ps, KeyIs(Price(), v)) by {
      forall v ensures Select(StableSort(ps, Price(), reverse), KeyIs(Price(), v)) == Select(ps, KeyIs(Price(), v)) {
        StableSortStable(ps, Price(), reverse, v);
      }
    }
    StableSort(ps, Price(), reverse)
  }

  /** Items with a per-unit price, stably sorted by it, then the rest in input order. */
  function SortByPerUnitPrice(ps: seq<Product>, reverse: bool): (r: seq<Product>)
    ensures multiset(r) == multiset(ps)
    ensures var n := |Select(ps, HasUnitPrice())|;
            n <= |r| &&
            (forall i :: 0 <= i < n ==> r[i].perUnitPrice.Some?) &&
            r[n..] == Select(ps, NoUnitPrice()) &&
            SortedBy(r[..n], UnitPrice(), reverse)
    ensures forall v :: Select(r, UnitPriceIs(v)) == Select(ps, UnitPriceIs(v))
  {
    var resolved := Select(ps, HasUnitPrice());
    var sorted := StableSort(resolved, UnitPrice(), reverse);
    var r := sorted + Select(ps, NoUnitPrice());
    PartitionFacts(ps, HasUnitPrice(), NoUnitPrice(), UnitPrice(), reverse);
    assert forall v :: Select(r, UnitPriceIs(v)) == Select(ps, UnitPriceIs(v)) by {
      forall v ensures Select(r, UnitPriceIs(v)) == Select(ps, UnitPriceIs(v)) {
        UnitPriceGroup(ps, reverse, v);
      }
    }
    r
  }

  /** Items with a package size, stably sorted by it, then the rest in input order. */
  function SortByPackageSize(ps: seq<Product>, reverse: bool): (r: seq<Product>)
    ensures multiset(r) == multiset(ps)
    ensures var n := |Select(ps, HasPackageSize())|;
            n <= |r| &&
            (forall i :: 0 <= i < n ==> r[i].packageSize.Some?) &&
            r[n..] == Select(ps, NoPackageSize()) &&
            SortedBy(r[..n], Size(), reverse)
    ensures forall n :: Select(r, PackageSizeIs(n)) == Select(ps, PackageSizeIs(n))
  {
    var resolved := Select(ps, HasPackageSize());
    var sorted := StableSort(resolved, Size(), reverse);
    var r := sorted + Select(ps, NoPackageSize());
    PartitionFacts(ps, HasPackageSize(), NoPackageSize(), Size(), reverse);
    assert forall n :: Select(r, PackageSizeIs(n)) == Select(ps, PackageSizeIs(n)) by {
      forall n ensures Select(r, PackageSizeIs(n)) == Select(ps, PackageSizeIs(n)) {
        PackageSizeGroup(ps, reverse, n);
      }
    }
    r
  }

  /**
    The order a partitioning sort produces: a listing without the key never
    stands before one with it, and listings with the key are in key order.
  */
  function PartitionOrder(has: Product -> bool, key: Product -> real, reverse: bool): (Product, Product) -> bool
  {
    (a: Product, b: Product) =>
      (!has(a) ==> !has(b)) && (has(a) && has(b) ==> InOrder(key(a), key(b), reverse))
  }

  lemma PerUnitPriceOrder(ps: seq<Product>, reverse: bool)
    ensures Pairwise(SortByPerUnitPrice(ps, reverse), PartitionOrder(HasUnitPrice(), UnitPrice(), reverse))
  {
    SelectSpec(ps, NoUnitPrice());
    PartitionedPairwise(ps, SortByPerUnitPrice(ps, reverse), HasUnitPrice(), NoUnitPrice(), UnitPrice(), reverse);
  }

  lemma PackageSizeOrder(ps: seq<Product>, reverse: bool)
    ensures Pairwise(SortByPackageSize(ps, reverse), PartitionOrder(HasPackageSize(), Size(), reverse))
  {
    SelectSpec(ps, NoPackageSize());
    PartitionedPairwise(ps, SortByPackageSize(ps, reverse), HasPackageSize(), NoPackageSize(), Size(), reverse);
  }

  lemma PartitionedPairwise(ps: seq<Product>, r: seq<Product>, has: Product -> bool, hasNot: Product -> bool,
                            key: Product -> real, reverse: bool)
    requires forall p :: hasNot(p) == !has(p)
    requires forall x :: multiset(Select(ps, hasNot))[x] == if hasNot(x) then multiset(ps)[x] else 0
    requires var n := |Select(ps, has)|;
             n <= |r| &&
             (forall i :: 0 <= i < n ==> has(r[i])) &&
             r[n..] == Select(ps, hasNot) &&
             SortedBy(r[..n], key, reverse)
    ensures Pairwise(r, PartitionOrder(has, key, reverse))
  {
    var n := |Select(ps, has)|;
    var tail := Select(ps, hasNot);
    forall i, j | 0 <= i < j < |r| ensures PartitionOrder(has, key, reverse)(r[i], r[j]) {
      if j >= n {
        assert r[j] == tail[j - n];
        assert multiset(tail)[r[j]] > 0;
      }
      if i >= n {
        assert r[i] == tail[i - n];
        assert multiset(tail)[r[i]] > 0;
      }
      if j < n {
        assert r[..n][i] == r[i] && r[..n][j] == r[j];
      }
    }
  }

  /** Facts shared by the two partitioning sorts. */
  lemma PartitionFacts(ps: seq<Product>, has: Product -> bool, hasNot: Product -> bool,
                       key: Product -> real, reverse: bool)
    requires forall p :: hasNot(p) == !has(p)
    ensures var resolved := Select(ps, has);
            var r := StableSort(resolved, key, reverse) + Select(ps, hasNot);
            multiset(r) == multiset(ps) &&
            |resolved| <= |r| &&
            (forall i :: 0 <= i < |resolved| ==> has(r[i])) &&
            r[|resolved|..] == Select(ps, hasNot) &&
            SortedBy(r[..|resolved|], key, reverse)
  {
    var resolved := Select(ps, has);
    var sorted := StableSort(resolved, key, reverse);
    var r := sorted + Select(ps, hasNot);
    PartitionPermutation(ps, has, hasNot);
    StableSortSorted(resolved, key, reverse);
    assert |sorted| == |resolved| by {
      assert |multiset(sorted)| == |multiset(resolved)|;
    }
    assert r[..|resolved|] == sorted;
    assert r[|resolved|..] == Select(ps, hasNot);
    assert forall x :: x in resolved ==> has(x) by {
      SelectSpec(ps, has);
      forall x | x in resolved ensures has(x) {
        assert multiset(resolved)[x] > 0;
      }
    }
    SortedHas(resolved, sorted, has);
  }

  /** Splitting a list by a condition and its negation loses and adds nothing. */
  lemma PartitionPermutation(ps: seq<Product>, has: Product -> bool, hasNot: Product -> bool)
    requires forall p :: hasNot(p) == !has(p)
    ensures multiset(Select(ps, has)) + multiset(Select(ps, hasNot)) == multiset(ps)
  {
    SelectSpec(ps, has);
    SelectSpec(ps, hasNot);
    var sum := multiset(Select(ps, has)) + multiset(Select(ps, hasNot));
    forall x ensures sum[x] == multiset(ps)[x] {
    }
  }

  /** A permutation of the items satisfying `has` holds only such items. */
  lemma SortedHas(resolved: seq<Product>, sorted: seq<Product>, has: Product -> bool)
    requires multiset(sorted) == multiset(resolved) && forall x :: x in resolved ==> has(x)
    ensures forall i :: 0 <= i < |sorted| ==> has(sorted[i])
  {
    forall i | 0 <= i < |sorted| ensures has(sorted[i]) {
      assert sorted[i] in multiset(resolved);
    }
  }

  /**
    A group of items that all satisfy `has` and, among those, is exactly a key
    group keeps its input order through the partitioning sort.
  */
  lemma PartitionGroup(ps: seq<Product>, has: Product -> bool, hasNot: Product -> bool,
                       key: Product -> real, reverse: bool, inGroup: Product -> bool, v: real)
    requires forall p :: hasNot(p) == !has(p)
    requires forall p :: has(p) ==> inGroup(p) == (key(p) == v)
    requires forall p :: inGroup(p) ==> has(p)
    ensures Select(StableSort(Select(ps, has), key, reverse) + Select(ps, hasNot), inGroup) == Select(ps, inGroup)
  {
    var resolved := Select(ps, has);
    var sorted := StableSort(resolved, key, reverse);
    var tail := Select(ps, hasNot);
    SelectAppend(sorted, tail, inGroup);
    SortedGroup(ps, has, key, reverse, inGroup, v);
    TailGroup(ps, has, hasNot, inGroup);
    SelectNarrower(ps, has, inGroup);
  }

  /** Within the resolved listings the group is a key group, which the stable sort keeps in order. */
  lemma SortedGroup(ps: seq<Product>, has: Product -> bool, key: Product -> real, reverse: bool,
                    inGroup: Product -> bool, v: real)
    requires forall p :: has(p) ==> inGroup(p) == (key(p) == v)
    ensures Select(StableSort(Select(ps, has), key, reverse), inGroup) == Select(Select(ps, has), inGroup)
  {
    var resolved := Select(ps, has);
    var sorted := StableSort(resolved, key, reverse);
    SelectSpec(ps, has);
    assert forall x :: x in resolved ==> has(x) by {
      forall x | x in resolved ensures has(x) {
        assert multiset(resolved)[x] > 0;
      }
    }
    assert forall x :: x in sorted ==> x in resolved by {
      forall x | x in sorted ensures x in resolved {
        assert x in multiset(sorted);
      }
    }
    SelectCongruent(sorted, inGroup, KeyIs(key, v));
    SelectCongruent(resolved, inGroup, KeyIs(key, v));
    StableSortStable(resolved, key, reverse, v);
  }

  /** The unresolved tail holds no member of the group. */
  lemma TailGroup(ps: seq<Product>, has: Product -> bool, hasNot: Product -> bool, inGroup: Product -> bool)
    requires forall p :: hasNot(p) == !has(p)
    requires forall p :: inGroup(p) ==> has(p)
    ensures Select(Select(ps, hasNot), inGroup) == []
  {
    var tail := Select(ps, hasNot);
    SelectSpec(ps, hasNot);
    assert forall x :: x in tail ==> !inGroup(x) by {
      forall x | x in tail ensures !inGroup(x) {
        assert multiset(tail)[x] > 0;
      }
    }
    SelectCongruent(tail, inGroup, x => false);
    SelectNone(tail);
  }

  lemma UnitPriceGroup(ps: seq<Product>, reverse: bool, v: real)
    ensures Select(StableSort(Select(ps, HasUnitPrice()), UnitPrice(), reverse) + Select(ps, NoUnitPrice()), UnitPriceIs(v))
            == Select(ps, UnitPriceIs(v))
  {
    PartitionGroup(ps, HasUnitPrice(), NoUnitPrice(), UnitPrice(), reverse, UnitPriceIs(v), v);
  }

  lemma PackageSizeGroup(ps: seq<Product>, reverse: bool, n: int)
    ensures Select(StableSort(Select(ps, HasPackageSize()), Size(), reverse) + Select(ps, NoPackageSize()), PackageSizeIs(n))
            == Select(ps, PackageSizeIs(n))
  {
    PartitionGroup(ps, HasPackageSize(), NoPackageSize(), Size(), reverse, PackageSizeIs(n), n as real);
  }

  lemma {:induction false} SelectNone(s: seq<Product>)
    ensures Select(s, x => false) == []
  {
    if s != [] {
      SelectNone(s[1..]);
    }
  }
}
