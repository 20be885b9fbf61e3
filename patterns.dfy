/**
  The three count patterns the package-size detector searches for in a
  lower-cased product name, with the semantics of Python's `re.search`
  (the leftmost starting position wins; `\d+` and `\s*` are greedy):

    (\d+)\s*x\s*\d+g     e.g. "12x55g", "12 x 55g"
    (\d+)\s*st\b         e.g. "12 st"
    (\d+)\s*pack\b       e.g. "6 pack"

  The search result is `int` of the captured leading digits.
*/
module CountPatterns {
  import opened Optional
  import opened Text

  datatype CountPattern =
    | TimesGrams               // (\d+)\s*x\s*\d+g
    | CountWord(word: string)  // (\d+)\s*<word>\b

  /** The detector's pattern list, in the order it is tried. */
  const Patterns: seq<CountPattern> := [TimesGrams, CountWord("st"), CountWord("pack")]

  /** End of the longest run of digits starting at `i`. */
  function DigitsEnd(s: string, i: nat): (j: nat)
    requires i <= |s|
    ensures i <= j <= |s|
    ensures j == |s| || !IsDigit(s[j])
    decreases |s| - i
  {
    if i < |s| && IsDigit(s[i]) then DigitsEnd(s, i + 1) else i
  }

  /** End of the longest run of whitespace starting at `i`. */
  function SpacesEnd(s: string, i: nat): (j: nat)
    requires i <= |s|
    ensures i <= j <= |s|
    ensures j == |s| || !IsSpace(s[j])
    decreases |s| - i
  {
    if i < |s| && IsSpace(s[i]) then SpacesEnd(s, i + 1) else i
  }

  /** Every position of `s[i..DigitsEnd(s, i)]` is a digit. */
  lemma {:induction false} DigitsEndRun(s: string, i: nat)
    requires i <= |s|
    ensures AllDigits(s[i..DigitsEnd(s, i)])
    decreases |s| - i
  {
    if i < |s| && IsDigit(s[i]) {
      DigitsEndRun(s, i + 1);
      assert s[i..DigitsEnd(s, i)] == [s[i]] + s[i + 1..DigitsEnd(s, i + 1)];
    }
  }

  /** `\b` at position `k`: exactly one of the two neighbours is a word character. */
  predicate WordBoundary(s: string, k: nat)
    requires k <= |s|
  {
    (0 < k && IsWordChar(s[k - 1])) != (k < |s| && IsWordChar(s[k]))
  }

  /**
    The pattern matches when the regex engine starts at position `i`.
    A greedy run never gives back a character here: a digit (or a blank)
    given back would have to match the next element of the pattern, which
    never accepts one, so each run is taken whole.
  */
  predicate MatchesAt(pat: CountPattern, s: string, i: nat)
    requires i <= |s|
  {
    var j := DigitsEnd(s, i);
    i < j && TailMatches(pat, s, SpacesEnd(s, j))
  }

  /** What the pattern requires after its leading `(\d+)\s*`, which ends at `k`. */
  predicate TailMatches(pat: CountPattern, s: string, k: nat)
    requires k <= |s|
  {
    match pat
    case TimesGrams =>
      k < |s| && s[k] == 'x' &&
      var m := SpacesEnd(s, k + 1);
      var e := DigitsEnd(s, m);
      m < e < |s| && s[e] == 'g'
    case CountWord(w) =>
      k + |w| <= |s| && s[k..k + |w|] == w && WordBoundary(s, k + |w|)
  }

  /** `int(match.group(1))` for a match starting at `i`. */
  function Captured(s: string, i: nat): nat
    requires i <= |s|
  {
    DigitsEndRun(s, i);
    DigitsValue(s[i..DigitsEnd(s, i)])
  }

  function SearchFrom(pat: CountPattern, s: string, i: nat): Option<nat>
    requires i <= |s|
    decreases |s| - i
  {
    if MatchesAt(pat, s, i) then Some(Captured(s, i))
    else if i == |s| then None
    else SearchFrom(pat, s, i + 1)
  }

  /** `re.search(pat, s)`, reduced to the captured count. */
  function Search(pat: CountPattern, s: string): Option<nat>
  {
    SearchFrom(pat, s, 0)
  }

  lemma {:induction false} SearchFromLeftmost(pat: CountPattern, s: string, i: nat, k: nat)
    requires i <= k <= |s| && MatchesAt(pat, s, k)
    requires forall m :: i <= m < k ==> !MatchesAt(pat, s, m)
    ensures SearchFrom(pat, s, i) == Some(Captured(s, k))
    decreases k - i
  {
    if i < k {
      SearchFromLeftmost(pat, s, i + 1, k);
    }
  }

  lemma {:induction false} SearchFromNone(pat: CountPattern, s: string, i: nat)
    requires i <= |s|
    ensures SearchFrom(pat, s, i).None? <==> forall k :: i <= k <= |s| ==> !MatchesAt(pat, s, k)
    decreases |s| - i
  {
    if i < |s| {
      SearchFromNone(pat, s, i + 1);
    }
  }

  lemma {:induction false} SearchFromSome(pat: CountPattern, s: string, i: nat)
    requires i <= |s| && SearchFrom(pat, s, i).Some?
    ensures exists k :: i <= k <= |s| && MatchesAt(pat, s, k) &&
                        (forall m :: i <= m < k ==> !MatchesAt(pat, s, m)) &&
                        SearchFrom(pat, s, i) == Some(Captured(s, k))
    decreases |s| - i
  {
    if !MatchesAt(pat, s, i) {
      SearchFromSome(pat, s, i + 1);
      var k :| i + 1 <= k <= |s| && MatchesAt(pat, s, k) &&
               (forall m :: i + 1 <= m < k ==> !MatchesAt(pat, s, m)) &&
               SearchFrom(pat, s, i + 1) == Some(Captured(s, k));
      assert forall m :: i <= m < k ==> !MatchesAt(pat, s, m);
    }
  }

  /**
    `re.search` semantics: the search finds nothing exactly when no position
    matches, and otherwise reports the capture of the leftmost matching position.
  */
  lemma SearchIsLeftmost(pat: CountPattern, s: string)
    ensures Search(pat, s).None? <==> forall k :: 0 <= k <= |s| ==> !MatchesAt(pat, s, k)
    ensures forall k :: 0 <= k <= |s| && MatchesAt(pat, s, k) &&
                        (forall m :: 0 <= m < k ==> !MatchesAt(pat, s, m)) ==>
                        Search(pat, s) == Some(Captured(s, k))
    ensures Search(pat, s).Some? ==>
              exists k :: 0 <= k <= |s| && MatchesAt(pat, s, k) &&
                          (forall m :: 0 <= m < k ==> !MatchesAt(pat, s, m)) &&
                          Search(pat, s) == Some(Captured(s, k))
  {
    SearchFromNone(pat, s, 0);
    forall k | 0 <= k <= |s| && MatchesAt(pat, s, k) && (forall m :: 0 <= m < k ==> !MatchesAt(pat, s, m))
      ensures Search(pat, s) == Some(Captured(s, k))
    {
      SearchFromLeftmost(pat, s, 0, k);
    }
    if Search(pat, s).Some? {
      SearchFromSome(pat, s, 0);
    }
  }

  predicate NoDigits(s: string) { forall i :: 0 <= i < |s| ==> !IsDigit(s[i]) }

  predicate AllSpaces(s: string) { forall i :: 0 <= i < |s| ==> IsSpace(s[i]) }

  lemma DigitsEndAt(s: string, i: nat, j: nat)
    requires i <= j <= |s|
    requires forall k :: i <= k < j ==> IsDigit(s[k])
    requires j == |s| || !IsDigit(s[j])
    ensures DigitsEnd(s, i) == j
    decreases j - i
  {
    if i < j {
      DigitsEndAt(s, i + 1, j);
    }
  }

  lemma SpacesEndAt(s: string, i: nat, j: nat)
    requires i <= j <= |s|
    requires forall k :: i <= k < j ==> IsSpace(s[k])
    requires j == |s| || !IsSpace(s[j])
    ensures SpacesEnd(s, i) == j
    decreases j - i
  {
    if i < j {
      SpacesEndAt(s, i + 1, j);
    }
  }

  /** No position inside a digit-free prefix can start a match: every pattern begins with `\d+`. */
  lemma NoMatchInDigitFreePrefix(pat: CountPattern, s: string, pre: string)
    requires NoDigits(pre) && |pre| <= |s| && s[..|pre|] == pre
    ensures forall m :: 0 <= m < |pre| ==> !MatchesAt(pat, s, m)
  {
    forall m | 0 <= m < |pre| ensures !MatchesAt(pat, s, m) {
      assert s[m] == pre[m];
      assert DigitsEnd(s, m) == m;
    }
  }

  lemma {:induction false} DigitsEndShift(x: string, u: string, t: nat)
    requires t <= |u|
    ensures DigitsEnd(x + u, |x| + t) == |x| + DigitsEnd(u, t)
    decreases |u| - t
  {
    if t < |u| && IsDigit(u[t]) {
      assert (x + u)[|x| + t] == u[t];
      DigitsEndShift(x, u, t + 1);
    } else if t < |u| {
      assert (x + u)[|x| + t] == u[t];
    }
  }

  lemma {:induction false} SpacesEndShift(x: string, u: string, t: nat)
    requires t <= |u|
    ensures SpacesEnd(x + u, |x| + t) == |x| + SpacesEnd(u, t)
    decreases |u| - t
  {
    if t < |u| && IsSpace(u[t]) {
      assert (x + u)[|x| + t] == u[t];
      SpacesEndShift(x, u, t + 1);
    } else if t < |u| {
      assert (x + u)[|x| + t] == u[t];
    }
  }

  /** The digit run at the start of `a + b` is `a` when `b` does not continue it. */
  lemma DigitRunAtStart(a: string, b: string)
    requires AllDigits(a) && (b == [] || !IsDigit(b[0]))
    ensures DigitsEnd(a + b, 0) == |a|
    ensures (a + b)[..|a|] == a
  {
    DigitsEndAt(a + b, 0, |a|);
  }

  /** The capture at the start of `a + b` is the value of `a` when `b` does not continue its digits. */
  lemma CapturedAtStart(a: string, b: string)
    requires AllDigits(a) && (b == [] || !IsDigit(b[0]))
    ensures Captured(a + b, 0) == DigitsValue(a)
  {
    DigitRunAtStart(a, b);
    assert (a + b)[0..|a|] == a;
  }

  /** In  dn + blanks + rest, with `rest` starting with a non-digit, the capture at the start is `dn`'s value. */
  lemma LeadingCapture(dn: string, sp: string, rest: string)
    requires AllDigits(dn) && AllSpaces(sp) && rest != [] && !IsDigit(rest[0])
    ensures Captured(dn + (sp + rest), 0) == DigitsValue(dn)
  {
    assert (sp + rest)[0] == if sp == [] then rest[0] else sp[0];
    CapturedAtStart(dn, sp + rest);
  }

  /** The blank run at the start of `a + b` is `a` when `b` does not continue it. */
  lemma SpaceRunAtStart(a: string, b: string)
    requires AllSpaces(a) && (b == [] || !IsSpace(b[0]))
    ensures SpacesEnd(a + b, 0) == |a|
  {
    SpacesEndAt(a + b, 0, |a|);
  }

  /** Nothing a pattern looks at lies before its starting position, so a prefix changes neither the match nor the capture. */
  lemma MatchesAtShift(pat: CountPattern, x: string, u: string)
    ensures MatchesAt(pat, x + u, |x|) == MatchesAt(pat, u, 0)
    ensures Captured(x + u, |x|) == Captured(u, 0)
  {
    CapturedShift(x, u);
    var s := x + u;
    var j := DigitsEnd(u, 0);
    DigitsEndShift(x, u, 0);
    assert DigitsEnd(s, |x|) == |x| + j;
    if 0 < j {
      var k := SpacesEnd(u, j);
      SpacesEndShift(x, u, j);
      assert SpacesEnd(s, DigitsEnd(s, |x|)) == |x| + k;
      TailShift(pat, x, u, k);
    }
  }

  lemma CapturedShift(x: string, u: string)
    ensures Captured(x + u, |x|) == Captured(u, 0)
  {
    var j := DigitsEnd(u, 0);
    DigitsEndShift(x, u, 0);
    var d := (x + u)[|x|..|x| + j];
    assert d == u[0..j];
  }

  lemma TailShift(pat: CountPattern, x: string, u: string, k: nat)
    requires 0 < k <= |u|
    ensures TailMatches(pat, x + u, |x| + k) == TailMatches(pat, u, k)
  {
    var s := x + u;
    match pat {
      case TimesGrams =>
        if k < |u| {
          assert s[|x| + k] == u[k];
          var m := SpacesEnd(u, k + 1);
          SpacesEndShift(x, u, k + 1);
          var e := DigitsEnd(u, m);
          DigitsEndShift(x, u, m);
          if e < |u| {
            assert s[|x| + e] == u[e];
          }
        }
      case CountWord(w) =>
        if k + |w| <= |u| {
          assert s[|x| + k..|x| + k + |w|] == u[k..k + |w|];
          assert s[|x| + k + |w| - 1] == u[k + |w| - 1];
          assert k + |w| < |u| ==> s[|x| + k + |w|] == u[k + |w|];
        }
    }
  }

  lemma TimesGramsMatchesAt(s: string, j: nat, k: nat, m: nat, e: nat)
    requires 0 < j <= k < |s| && k + 1 <= m < e < |s|
    requires DigitsEnd(s, 0) == j && SpacesEnd(s, j) == k && s[k] == 'x'
    requires SpacesEnd(s, k + 1) == m && DigitsEnd(s, m) == e && s[e] == 'g'
    ensures MatchesAt(TimesGrams, s, 0)
  {
  }

  /** After the "x" of  "x" + blanks + dm + "g" + post  come the blanks, the figure `dm` and then the "g". */
  lemma GramsTail(sp2: string, dm: string, post: string)
    requires AllSpaces(sp2) && AllDigits(dm) && dm != []
    ensures var r := "x" + (sp2 + (dm + ("g" + post)));
            var m := 1 + |sp2|;
            var e := m + |dm|;
            r[0] == 'x' && e < |r| &&
            SpacesEnd(r, 1) == m && DigitsEnd(r, m) == e && r[e] == 'g'
  {
    var r5 := "g" + post;
    var r4 := dm + r5;
    var r3 := sp2 + r4;
    var r := "x" + r3;
    assert r4[0] == dm[0];
    assert r3[0] == if sp2 == [] then dm[0] else sp2[0];
    SpaceRunAtStart(sp2, r4);
    SpacesEndShift("x", r3, 0);
    DigitRunAtStart(dm, r5);
    DigitsEndShift(sp2, r4, 0);
    DigitsEndShift("x", r3, |sp2|);
    assert r[1 + |sp2| + |dm|] == r3[|sp2| + |dm|] == r4[|dm|] == 'g';
  }

  /** In  dn + blanks + rest, the count `dn` and the blanks are taken whole, and `rest` comes next. */
  lemma CountThenBlanks(dn: string, sp: string, rest: string)
    requires AllDigits(dn) && dn != [] && AllSpaces(sp)
    requires rest != [] && !IsDigit(rest[0]) && !IsSpace(rest[0])
    ensures var w := dn + (sp + rest);
            DigitsEnd(w, 0) == |dn| && SpacesEnd(w, |dn|) == |dn| + |sp| &&
            w[|dn| + |sp|] == rest[0]
  {
    var r1 := sp + rest;
    assert r1[0] == if sp == [] then rest[0] else sp[0];
    DigitRunAtStart(dn, r1);
    SpaceRunAtStart(sp, rest);
    SpacesEndShift(dn, r1, 0);
    assert (dn + r1)[|dn| + |sp|] == r1[|sp|] == rest[0];
  }

  /** Runs inside `rest` are the same runs, moved, inside  dn + blanks + rest. */
  lemma RunsPastPrefix(dn: string, sp: string, rest: string, t: nat)
    requires t <= |rest|
    ensures SpacesEnd(dn + (sp + rest), |dn| + |sp| + t) == |dn| + |sp| + SpacesEnd(rest, t)
    ensures DigitsEnd(dn + (sp + rest), |dn| + |sp| + t) == |dn| + |sp| + DigitsEnd(rest, t)
    ensures t < |rest| ==> (dn + (sp + rest))[|dn| + |sp| + t] == rest[t]
  {
    SpacesEndShift(sp, rest, t);
    SpacesEndShift(dn, sp + rest, |sp| + t);
    DigitsEndShift(sp, rest, t);
    DigitsEndShift(dn, sp + rest, |sp| + t);
  }

  /** The first pattern matches at the start of  dn + blanks + "x" + blanks + dm + "g" + post. */
  lemma TimesGramsMatchesAtStart(dn: string, sp1: string, sp2: string, dm: string, post: string)
    requires AllDigits(dn) && dn != [] && AllSpaces(sp1) && AllSpaces(sp2) && AllDigits(dm) && dm != []
    ensures MatchesAt(TimesGrams, dn + (sp1 + ("x" + (sp2 + (dm + ("g" + post))))), 0)
  {
    var r := "x" + (sp2 + (dm + ("g" + post)));
    GramsTail(sp2, dm, post);
    CountThenBlanks(dn, sp1, r);
    RunsPastPrefix(dn, sp1, r, 1);
    RunsPastPrefix(dn, sp1, r, 1 + |sp2|);
    RunsPastPrefix(dn, sp1, r, 1 + |sp2| + |dm|);
    var k := |dn| + |sp1|;
    TimesGramsMatchesAt(dn + (sp1 + r), |dn|, k, k + (1 + |sp2|), k + (1 + |sp2| + |dm|));
  }

  /**
    A lower-cased name of the form  pre + N + blanks + "x" + blanks + M + "g" + post,
    with no digit before N, makes the first pattern report N (e.g. "12x55g" gives 12).
  */
  lemma TimesGramsFound(s: string, pre: string, n: nat, sp1: string, sp2: string, m: nat, post: string)
    requires NoDigits(pre) && AllSpaces(sp1) && AllSpaces(sp2)
    requires s == pre + (Decimal(n) + (sp1 + ("x" + (sp2 + (Decimal(m) + ("g" + post))))))
    ensures Search(TimesGrams, s) == Some(n)
  {
    var dn, dm := Decimal(n), Decimal(m);
    var w := dn + (sp1 + ("x" + (sp2 + (dm + ("g" + post)))));
    TimesGramsMatchesAtStart(dn, sp1, sp2, dm, post);
    LeadingCapture(dn, sp1, "x" + (sp2 + (dm + ("g" + post))));
    DecimalRoundTrip(n);
    FoundAfterPrefix(TimesGrams, s, pre, w);
  }

  /** A match at the start of `w`, behind a digit-free prefix, is the leftmost match of the whole string. */
  lemma FoundAfterPrefix(pat: CountPattern, s: string, pre: string, w: string)
    requires s == pre + w && NoDigits(pre) && MatchesAt(pat, w, 0)
    ensures Search(pat, s) == Some(Captured(w, 0))
  {
    MatchesAtShift(pat, pre, w);
    assert s[..|pre|] == pre;
    NoMatchInDigitFreePrefix(pat, s, pre);
    SearchFromLeftmost(pat, s, 0, |pre|);
  }

  /** The pattern `(\d+)\s*w\b` matches at the start of  dn + blanks + w + post. */
  lemma CountWordMatchesAtStart(dn: string, sp: string, w: string, post: string)
    requires AllDigits(dn) && dn != [] && AllSpaces(sp)
    requires w != [] && !IsSpace(w[0]) && !IsDigit(w[0]) && IsWordChar(w[|w| - 1])
    requires post == [] || !IsWordChar(post[0])
    ensures MatchesAt(CountWord(w), dn + (sp + (w + post)), 0)
  {
    var r := w + post;
    assert r[0] == w[0];
    CountThenBlanks(dn, sp, r);
    WordAtStart(w, post);
    WordPastPrefix(dn, sp, w, post);
  }

  lemma WordAtStart(w: string, post: string)
    requires w != [] && IsWordChar(w[|w| - 1])
    requires post == [] || !IsWordChar(post[0])
    ensures (w + post)[..|w|] == w && WordBoundary(w + post, |w|)
  {
    assert (w + post)[|w| - 1] == w[|w| - 1];
    assert |w| < |w + post| ==> (w + post)[|w|] == post[0];
  }

  /** The word and the boundary after it survive putting  dn + blanks  in front. */
  lemma WordPastPrefix(dn: string, sp: string, w: string, post: string)
    requires w != [] && (w + post)[..|w|] == w && WordBoundary(w + post, |w|)
    ensures var u := dn + (sp + (w + post));
            var k := |dn| + |sp|;
            k + |w| <= |u| && u[k..k + |w|] == w && WordBoundary(u, k + |w|)
  {
    var r := w + post;
    var u := dn + (sp + r);
    var k := |dn| + |sp|;
    assert u[k..k + |w|] == r[..|w|];
    assert u[k + |w| - 1] == r[|w| - 1];
    assert k + |w| < |u| ==> u[k + |w|] == r[|w|];
  }

  /**
    A lower-cased name of the form  pre + N + blanks + word + post, with no digit
    before N and `post` not continuing the word, makes the pattern `(\d+)\s*word\b`
    report N (e.g. "6 st" gives 6).
  */
  lemma CountWordFound(s: string, pre: string, n: nat, sp: string, w: string, post: string)
    requires w == "st" || w == "pack"
    requires NoDigits(pre) && AllSpaces(sp)
    requires post == [] || !IsWordChar(post[0])
    requires s == pre + (Decimal(n) + (sp + (w + post)))
    ensures Search(CountWord(w), s) == Some(n)
  {
    var dn := Decimal(n);
    var u := dn + (sp + (w + post));
    CountWordMatchesAtStart(dn, sp, w, post);
    LeadingCapture(dn, sp, w + post);
    DecimalRoundTrip(n);
    FoundAfterPrefix(CountWord(w), s, pre, u);
  }
}
