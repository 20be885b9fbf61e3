/**
  Order-preserving selection from a list (the list comprehension
  `[x for x in s if keep(x)]`), subsequences, and pairwise orderings.
*/
module Sequences {

  /** `a` is obtained from `b` by deleting elements; the rest keep their order. */
  ghost predicate Subsequence<T>(a: seq<T>, b: seq<T>)
    decreases |b|
  {
    if a == [] then true
    else if b == [] then false
    else (a[0] == b[0] && Subsequence(a[1..], b[1..])) || Subsequence(a, b[1..])
  }

  /** Every pair of elements, taken in list order, is related by `rel`. */
  ghost predicate Pairwise<T>(s: seq<T>, rel: (T, T) -> bool)
  {
    forall i, j :: 0 <= i < j < |s| ==> rel(s[i], s[j])
  }

  /** The list comprehension: the elements of `s` that satisfy `keep`, in their order. */
  function Select<T>(s: seq<T>, keep: T -> bool): seq<T>
  {
    if s == [] then []
    else if keep(s[0]) then [s[0]] + Select(s[1..], keep) else Select(s[1..], keep)
  }

  /**
    What the comprehension keeps: an order-preserving subsequence holding every
    qualifying element as often as `s` does, and nothing else.
  */
  lemma {:induction false} SelectSpec<T(!new)>(s: seq<T>, keep: T -> bool)
    ensures Subsequence(Select(s, keep), s)
    ensures forall x :: multiset(Select(s, keep))[x] == if keep(x) then multiset(s)[x] else 0
  {
    if s != [] {
      SelectSpec(s[1..], keep);
      assert s == [s[0]] + s[1..];
    }
  }

  /** Selecting from a list that starts with `x`. */
  lemma SelectCons<T>(x: T, t: seq<T>, keep: T -> bool)
    ensures Select([x] + t, keep) == if keep(x) then [x] + Select(t, keep) else Select(t, keep)
  {
    assert ([x] + t)[0] == x && ([x] + t)[1..] == t;
  }

  lemma {:induction false} SubsequenceMultiset<T>(a: seq<T>, b: seq<T>)
    requires Subsequence(a, b)
    ensures multiset(a) <= multiset(b)
    decreases |b|
  {
    if a != [] {
      assert b == [b[0]] + b[1..];
      if a[0] == b[0] && Subsequence(a[1..], b[1..]) {
        SubsequenceMultiset(a[1..], b[1..]);
        assert a == [a[0]] + a[1..];
      } else {
        SubsequenceMultiset(a, b[1..]);
      }
    }
  }

  lemma SubsequenceMembers<T>(a: seq<T>, b: seq<T>)
    requires Subsequence(a, b)
    ensures forall x :: x in a ==> x in b
  {
    SubsequenceMultiset(a, b);
    forall x | x in a ensures x in b {
      assert x in multiset(a);
    }
  }

  lemma {:induction false} SubsequenceReflexive<T>(s: seq<T>)
    ensures Subsequence(s, s)
    decreases |s|
  {
    if s != [] {
      SubsequenceReflexive(s[1..]);
    }
  }

  lemma {:induction false} SubsequenceTransitive<T>(a: seq<T>, b: seq<T>, c: seq<T>)
    requires Subsequence(a, b) && Subsequence(b, c)
    ensures Subsequence(a, c)
    decreases |c|
  {
    if a != [] {
      assert b != [] && c != [];
      if b[0] == c[0] && Subsequence(b[1..], c[1..]) {
        if a[0] == b[0] && Subsequence(a[1..], b[1..]) {
          SubsequenceTransitive(a[1..], b[1..], c[1..]);
        } else {
          SubsequenceTransitive(a, b[1..], c[1..]);
        }
      } else {
        SubsequenceTransitive(a, b, c[1..]);
      }
    }
  }

  lemma {:induction false} SubsequenceOfAppend<T>(a: seq<T>, b: seq<T>, c: seq<T>, d: seq<T>)
    requires Subsequence(a, c) && Subsequence(b, d)
    ensures Subsequence(a + b, c + d)
    decreases |c|
  {
    if a == [] {
      if c == [] {
        assert a + b == b && c + d == d;
      } else {
        SubsequenceOfAppend(a, b, c[1..], d);
        assert (c + d)[1..] == c[1..] + d;
        assert c + d != [];
        if a + b != [] {
          assert Subsequence(a + b, (c + d)[1..]);
        }
      }
    } else {
      assert c != [];
      assert (a + b)[0] == a[0] && (a + b)[1..] == a[1..] + b;
      assert (c + d)[0] == c[0] && (c + d)[1..] == c[1..] + d;
      if a[0] == c[0] && Subsequence(a[1..], c[1..]) {
        SubsequenceOfAppend(a[1..], b, c[1..], d);
      } else {
        SubsequenceOfAppend(a, b, c[1..], d);
      }
    }
  }

  lemma {:induction false} SubsequenceOfPrefix<T>(s: seq<T>, n: nat)
    requires n <= |s|
    ensures Subsequence(s[..n], s)
  {
    SubsequenceReflexive(s[..n]);
    EmptySubsequence(s[n..]);
    SubsequenceOfAppend(s[..n], [], s[..n], s[n..]);
    assert s[..n] + [] == s[..n] && s[..n] + s[n..] == s;
  }

  lemma EmptySubsequence<T>(s: seq<T>)
    ensures Subsequence([], s)
  {
  }

  /** A relation that holds of every ordered pair of `b` holds of every ordered pair of a subsequence. */
  lemma {:induction false} SubsequencePairwise<T>(a: seq<T>, b: seq<T>, rel: (T, T) -> bool)
    requires Subsequence(a, b) && Pairwise(b, rel)
    ensures Pairwise(a, rel)
    decreases |b|
  {
    if a != [] {
      if a[0] == b[0] && Subsequence(a[1..], b[1..]) {
        SubsequencePairwise(a[1..], b[1..], rel);
        SubsequenceMembers(a[1..], b[1..]);
        forall i, j | 0 <= i < j < |a| ensures rel(a[i], a[j]) {
          if i == 0 {
            assert a[j] == a[1..][j - 1];
            assert a[j] in b[1..];
            var k :| 0 <= k < |b[1..]| && b[1..][k] == a[j];
            assert rel(b[0], b[k + 1]);
          } else {
            assert a[i] == a[1..][i - 1] && a[j] == a[1..][j - 1];
          }
        }
      } else {
        SubsequencePairwise(a, b[1..], rel);
      }
    }
  }

  lemma {:induction false} SelectAppend<T(!new)>(a: seq<T>, b: seq<T>, keep: T -> bool)
    ensures Select(a + b, keep) == Select(a, keep) + Select(b, keep)
    decreases |a|
  {
    if a == [] {
      assert a + b == b;
    } else {
      assert (a + b)[0] == a[0] && (a + b)[1..] == a[1..] + b;
      SelectAppend(a[1..], b, keep);
    }
  }

  /** Selecting twice with the same predicate is selecting once. */
  lemma {:induction false} SelectIdempotent<T(!new)>(s: seq<T>, keep: T -> bool)
    ensures Select(Select(s, keep), keep) == Select(s, keep)
    decreases |s|
  {
    if s != [] {
      SelectIdempotent(s[1..], keep);
    }
  }

  /** Two selections may be applied in either order. */
  lemma {:induction false} SelectCommutes<T(!new)>(s: seq<T>, f: T -> bool, g: T -> bool)
    ensures Select(Select(s, f), g) == Select(Select(s, g), f)
    decreases |s|
  {
    if s != [] {
      SelectCommutes(s[1..], f, g);
    }
  }

  /** Selection only looks at the predicate's values on the elements of the list. */
  lemma {:induction false} SelectCongruent<T(!new)>(s: seq<T>, f: T -> bool, g: T -> bool)
    requires forall x :: x in s ==> f(x) == g(x)
    ensures Select(s, f) == Select(s, g)
    decreases |s|
  {
    if s != [] {
      SelectCongruent(s[1..], f, g);
    }
  }

  /** A selection keeps the whole list when every element qualifies. */
  lemma {:induction false} SelectAll<T(!new)>(s: seq<T>, keep: T -> bool)
    requires forall x :: x in s ==> keep(x)
    ensures Select(s, keep) == s
    decreases |s|
  {
    if s != [] {
      SelectAll(s[1..], keep);
    }
  }

  /** Selecting with `g` after `f` is selecting with `g` alone when `g` implies `f` on the list. */
  lemma {:induction false} SelectNarrower<T(!new)>(s: seq<T>, f: T -> bool, g: T -> bool)
    requires forall x :: x in s && g(x) ==> f(x)
    ensures Select(Select(s, f), g) == Select(s, g)
    decreases |s|
  {
    if s != [] {
      SelectNarrower(s[1..], f, g);
    }
  }

  /**
    The two postconditions of Select determine its result: a subsequence of `s`
    that holds every qualifying element as often as `s` does, and nothing else, is Select(s, keep).
  */
  lemma {:induction false} SelectCharacterized<T(!new)>(s: seq<T>, keep: T -> bool, r: seq<T>)
    requires Subsequence(r, s)
    requires forall x :: multiset(r)[x] == if keep(x) then multiset(s)[x] else 0
    ensures r == Select(s, keep)
    decreases |s|
  {
    if s == [] {
      assert multiset(r) == multiset{};
    } else {
      var y := s[0];
      assert s == [y] + s[1..];
      if r != [] && r[0] == y && Subsequence(r[1..], s[1..]) {
        assert r == [y] + r[1..];
        assert keep(y) by {
          assert multiset(r)[y] > 0;
        }
        forall x ensures multiset(r[1..])[x] == if keep(x) then multiset(s[1..])[x] else 0 {
          assert multiset(r)[x] == multiset(r[1..])[x] + (if x == y then 1 else 0);
          assert multiset(s)[x] == multiset(s[1..])[x] + (if x == y then 1 else 0);
        }
        SelectCharacterized(s[1..], keep, r[1..]);
      } else {
        assert Subsequence(r, s[1..]);
        SubsequenceMultiset(r, s[1..]);
        assert multiset(r)[y] <= multiset(s[1..])[y] < multiset(s)[y];
        forall x ensures multiset(r)[x] == if keep(x) then multiset(s[1..])[x] else 0 {
          assert multiset(s)[x] == multiset(s[1..])[x] + (if x == y then 1 else 0);
        }
        SelectCharacterized(s[1..], keep, r);
      }
    }
  }
}
