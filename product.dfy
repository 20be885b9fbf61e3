/**
  A product listing and the canonicalisation every listing goes through when
  it is built: the package size is resolved by a fixed-priority rule chain over
  the lower-cased name, and the per-unit price is then derived from it when the
  caller did not give one.
*/
module Products {
  import opened Optional
  import opened Text
  import opened CountPatterns

  /**
    A listing. `packageSize` and `perUnitPrice` are `None` until canonicalised
    (unless the caller supplied them); `stock` is `None` when the store does
    not report it.
  */
  datatype Product = Product(
    name: string,
    price: real,
    url: string,
    store: string,
    perUnitPrice: Option<real>,
    packageSize: Option<int>,
    stock: Option<int>,
    available: bool)

  /** The name marker that wins over every other size rule. */
  const TwelvePackMarker: string := "12-pack"

  /** Above this price an otherwise unsized listing is taken to be a multipack. */
  const MultipackPriceThreshold: real := 100.0

  /** The size assumed for the marker and for the price heuristic. */
  const MultipackSize: nat := 12

  /** The count reported by the first pattern of `pats`, in order, that matches `s`. */
  function FirstMatch(pats: seq<CountPattern>, s: string): (r: Option<nat>)
    ensures r.None? <==> forall i :: 0 <= i < |pats| ==> Search(pats[i], s).None?
    ensures r.Some? ==> exists i :: 0 <= i < |pats| && Search(pats[i], s) == r &&
                                    forall k :: 0 <= k < i ==> Search(pats[k], s).None?
  {
    if pats == [] then None
    else if Search(pats[0], s).Some? then Search(pats[0], s)
    else
      var r := FirstMatch(pats[1..], s);
      assert forall i :: 1 <= i < |pats| ==> pats[i] == pats[1..][i - 1];
      assert r.Some? ==> exists i :: 1 <= i < |pats| && Search(pats[i], s) == r &&
                                     forall k :: 0 <= k < i ==> Search(pats[k], s).None?
        by {
          if r.Some? {
            var i :| 0 <= i < |pats[1..]| && Search(pats[1..][i], s) == r &&
                     forall k :: 0 <= k < i ==> Search(pats[1..][k], s).None?;
            assert forall k :: 0 <= k < i + 1 ==> Search(pats[k], s).None? by {
              forall k | 0 <= k < i + 1 ensures Search(pats[k], s).None? {
                if k > 0 { assert pats[k] == pats[1..][k - 1]; }
              }
            }
          }
        }
      r
  }

  /**
    The package size the rule chain infers from a name and a price:
    the "12-pack" marker, then the count patterns in order, then the price
    heuristic (strictly above the threshold means a multipack).
  */
  function InferredSize(name: string, price: real): (n: int)
    ensures n >= 0
  {
    var lowered := Lower(name);
    if IsSubstring(TwelvePackMarker, lowered) then MultipackSize
    else match FirstMatch(Patterns, lowered)
      case Some(count) => count
      case None => if price > MultipackPriceThreshold then MultipackSize else 1
  }

  /** The listing after package-size detection: a supplied size is kept. */
  function WithSize(p: Product): (q: Product)
    ensures q.packageSize.Some?
    ensures p.packageSize.Some? ==> q == p
    ensures p.packageSize.None? ==> q == p.(packageSize := Some(InferredSize(p.name, p.price)))
  {
    if p.packageSize.Some? then p
    else p.(packageSize := Some(InferredSize(p.name, p.price)))
  }

  /** Python truthiness of the optional package size: present and nonzero. */
  predicate SizeIsTruthy(size: Option<int>)
  {
    size.Some? && size.value != 0
  }

  /** The listing after the per-unit price is derived: a supplied one is kept. */
  function WithUnitPrice(p: Product): (q: Product)
    ensures q.(perUnitPrice := p.perUnitPrice) == p
    ensures p.perUnitPrice.Some? ==> q.perUnitPrice == p.perUnitPrice
    ensures p.perUnitPrice.None? && SizeIsTruthy(p.packageSize) ==>
              q.perUnitPrice == Some(p.price / p.packageSize.value as real)
    ensures p.perUnitPrice.None? && !SizeIsTruthy(p.packageSize) ==> q.perUnitPrice.None?
  {
    if p.perUnitPrice.None? && SizeIsTruthy(p.packageSize) then
      p.(perUnitPrice := Some(p.price / p.packageSize.value as real))
    else p
  }

  /** A listing as it stands once built: size detected, then per-unit price derived. */
  function Canonical(p: Product): (q: Product)
    ensures q.packageSize.Some?
  {
    WithUnitPrice(WithSize(p))
  }

  predicate IsCanonical(p: Product)
  {
    p.packageSize.Some? && (p.perUnitPrice.None? ==> p.packageSize.value == 0)
  }

  /** The size-detection step as `_detect_package_size` runs it: early returns and a loop over the patterns. */
  method DetectPackageSize(p: Product) returns (q: Product)
    ensures q == WithSize(p)
  {
    if p.packageSize.Some? {
      return p;
    }
    var lowered := Lower(p.name);
    if IsSubstring(TwelvePackMarker, lowered) {
      return p.(packageSize := Some(MultipackSize));
    }
    var i := 0;
    while i < |Patterns|
      invariant 0 <= i <= |Patterns|
      invariant FirstMatch(Patterns[i..], lowered) == FirstMatch(Patterns, lowered)
    {
      var found := Search(Patterns[i], lowered);
      if found.Some? {
        return p.(packageSize := Some(found.value));
      }
      assert Patterns[i..][1..] == Patterns[i + 1..];
      i := i + 1;
    }
    if p.price > MultipackPriceThreshold {
      q := p.(packageSize := Some(MultipackSize));
    } else {
      q := p.(packageSize := Some(1));
    }
  }

  /** The per-unit-price step: fill in `price / size` only when absent and the size is truthy. */
  method CalculatePerUnitPrice(p: Product) returns (q: Product)
    ensures q == WithUnitPrice(p)
  {
    q := p;
    if q.perUnitPrice.None? && q.packageSize.Some? && q.packageSize.value != 0 {
      q := q.(perUnitPrice := Some(q.price / q.packageSize.value as real));
    }
  }

  /** Building a listing: both steps, in order. */
  method PostInit(p: Product) returns (q: Product)
    ensures q == Canonical(p)
    ensures IsCanonical(q)
  {
    q := DetectPackageSize(p);
    q := CalculatePerUnitPrice(q);
  }

  /** The listing is a single bar. */
  predicate IsSingle(p: Product)
  {
    p.packageSize == Some(1)
  }

  /** The listing is a multipack: `package_size > 1` when the size is truthy, otherwise not. */
  predicate IsMultipack(p: Product)
  {
    if SizeIsTruthy(p.packageSize) then p.packageSize.value > 1 else false
  }

  // ---------------------------------------------------------------------
  // Properties of the rule chain
  // ---------------------------------------------------------------------

  /** Exactly the sizes 1 and above 1 are single and multipack; never both. */
  lemma SingleMultipackExclusive(p: Product)
    ensures IsSingle(p) <==> p.packageSize.Some? && p.packageSize.value == 1
    ensures IsMultipack(p) <==> p.packageSize.Some? && p.packageSize.value > 1
    ensures !(IsSingle(p) && IsMultipack(p))
  {
  }

  /** Canonicalisation never leaves the size unresolved and keeps every field it does not compute. */
  lemma CanonicalFields(p: Product)
    ensures var q := Canonical(p);
            q.packageSize.Some? &&
            q.name == p.name && q.price == p.price && q.url == p.url && q.store == p.store &&
            q.stock == p.stock && q.available == p.available
  {
  }

  /** A supplied package size and a supplied per-unit price survive canonicalisation. */
  lemma CanonicalKeepsSupplied(p: Product)
    ensures p.packageSize.Some? ==> Canonical(p).packageSize == p.packageSize
    ensures p.perUnitPrice.Some? ==> Canonical(p).perUnitPrice == p.perUnitPrice
  {
  }

  /**
    With no supplied per-unit price, the canonical one is `price / size` when the
    resolved size is nonzero and stays absent exactly when the size is 0.
  */
  lemma CanonicalUnitPrice(p: Product)
    requires p.perUnitPrice.None?
    ensures var q := Canonical(p);
            var n := q.packageSize.value;
            (q.perUnitPrice.None? <==> n == 0) &&
            (n != 0 ==> q.perUnitPrice == Some(p.price / n as real))
  {
  }

  /** The derived per-unit price is positive for a positive price and a positive size. */
  lemma UnitPricePositive(p: Product)
    requires p.perUnitPrice.None? && p.price > 0.0
    requires Canonical(p).packageSize.value > 0
    ensures Canonical(p).perUnitPrice.Some? && Canonical(p).perUnitPrice.value > 0.0
  {
  }

  /** Building a listing again changes nothing. */
  lemma CanonicalIdempotent(p: Product)
    ensures Canonical(Canonical(p)) == Canonical(p)
  {
  }

  /** The "12-pack" marker, in any letter case, gives 12 whatever else the name or price says. */
  lemma TwelvePackWins(name: string, price: real)
    requires IsSubstring(TwelvePackMarker, Lower(name))
    ensures InferredSize(name, price) == 12
  {
  }

  /**
    Without the marker, the first pattern in list order that occurs in the
    lower-cased name gives the size, whichever patterns match after it.
  */
  lemma FirstPatternWins(name: string, price: real, i: nat)
    requires !IsSubstring(TwelvePackMarker, Lower(name))
    requires i < |Patterns| && Search(Patterns[i], Lower(name)).Some?
    requires forall k :: 0 <= k < i ==> Search(Patterns[k], Lower(name)).None?
    ensures InferredSize(name, price) == Search(Patterns[i], Lower(name)).value
  {
    var l := Lower(name);
    if i == 0 {
    } else if i == 1 {
      assert Search(Patterns[0], l).None?;
    } else {
      assert Search(Patterns[0], l).None? && Search(Patterns[1], l).None?;
    }
  }

  /** With no marker and no pattern, the size is 12 strictly above 100 and 1 otherwise (100 itself gives 1). */
  lemma PriceHeuristic(name: string, price: real)
    requires !IsSubstring(TwelvePackMarker, Lower(name))
    requires forall k :: 0 <= k < |Patterns| ==> Search(Patterns[k], Lower(name)).None?
    ensures InferredSize(name, price) == if price > 100.0 then 12 else 1
    ensures InferredSize(name, 100.0) == 1
  {
  }

  /** A string without an "x" cannot match the first pattern. */
  lemma NoTimesGramsWithoutX(s: string)
    requires forall i :: 0 <= i < |s| ==> s[i] != 'x'
    ensures Search(TimesGrams, s).None?
  {
    SearchIsLeftmost(TimesGrams, s);
  }

  /** A string without a hyphen does not contain the "12-pack" marker. */
  lemma NoMarkerWithoutHyphen(s: string)
    requires forall i :: 0 <= i < |s| ==> s[i] != '-'
    ensures !IsSubstring(TwelvePackMarker, s)
  {
    forall i | 0 <= i <= |s| - |TwelvePackMarker|
      ensures !OccursAt(TwelvePackMarker, s, i)
    {
      assert s[i..i + |TwelvePackMarker|][2] == s[i + 2] != '-' == TwelvePackMarker[2];
    }
  }

  /** A name reading  ... N x M g ...  (no digit before N, no marker) has size N; e.g. "12x55g" gives 12. */
  lemma SizeFromTimesGrams(name: string, price: real, pre: string, n: nat, sp1: string, sp2: string, m: nat, post: string)
    requires !IsSubstring(TwelvePackMarker, Lower(name))
    requires NoDigits(pre) && AllSpaces(sp1) && AllSpaces(sp2)
    requires Lower(name) == pre + (Decimal(n) + (sp1 + ("x" + (sp2 + (Decimal(m) + ("g" + post))))))
    ensures InferredSize(name, price) == n
  {
    TimesGramsFound(Lower(name), pre, n, sp1, sp2, m, post);
    FirstPatternWins(name, price, 0);
  }

  /**
    A name reading  ... N st ...  with no "x" and no digit before N, and
    `st` ending a word, has size N; e.g. "6 st" gives 6.
  */
  lemma SizeFromCountSt(name: string, price: real, pre: string, n: nat, sp: string, post: string)
    requires forall i :: 0 <= i < |name| ==> Lower(name)[i] != 'x' && Lower(name)[i] != '-'
    requires NoDigits(pre) && AllSpaces(sp) && (post == [] || !IsWordChar(post[0]))
    requires Lower(name) == pre + (Decimal(n) + (sp + ("st" + post)))
    ensures InferredSize(name, price) == n
  {
    NoMarkerWithoutHyphen(Lower(name));
    NoTimesGramsWithoutX(Lower(name));
    CountWordFound(Lower(name), pre, n, sp, "st", post);
    FirstPatternWins(name, price, 1);
  }

  /**
    A count of 0 is taken at face value: a listing named like "... 0 st" gets
    package size 0, and its per-unit price then stays absent (size 0 is falsy).
  */
  lemma ZeroCountListing(p: Product, pre: string, sp: string, post: string)
    requires p.packageSize.None? && p.perUnitPrice.None?
    requires forall i :: 0 <= i < |p.name| ==> Lower(p.name)[i] != 'x' && Lower(p.name)[i] != '-'
    requires NoDigits(pre) && AllSpaces(sp) && (post == [] || !IsWordChar(post[0]))
    requires Lower(p.name) == pre + ("0" + (sp + ("st" + post)))
    ensures Canonical(p).packageSize == Some(0)
    ensures Canonical(p).perUnitPrice.None?
  {
    assert Decimal(0) == "0";
    SizeFromCountSt(p.name, p.price, pre, 0, sp, post);
  }
}
