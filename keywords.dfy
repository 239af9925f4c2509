/**
 * The keyword list of `_analyze`:
 *
 *   sorted({token for token in tokens if len(token) > 5},
 *          key=lambda token: (-tokens.count(token), token))[:8]
 *
 * The sort key orders by descending occurrence count and then by Python's
 * string order (code point by code point). Distinct strings have distinct
 * keys, so the order is total on the candidate set and the result does not
 * depend on how the set happens to be enumerated: the model picks, again
 * and again, the one candidate that ranks before all others.
 */
module Keywords {

  /** At most this many keywords are reported. */
  const MaxKeywords: nat := 8

  /** A keyword is strictly longer than this. */
  const MinLength: nat := 5

  /** `tokens.count(t)`. */
  function Occurrences(tokens: seq<string>, t: string): (n: nat)
    ensures n > 0 <==> t in tokens
    ensures n <= |tokens|
  {
    multiset(tokens)[t]
  }

  /** Python's `a < b` on `str`: lexicographic by code point, a proper prefix first. */
  predicate StrLess(a: string, b: string)
    ensures StrLess(a, b) ==> a != b
    decreases |a|
  {
    if a == [] then b != []
    else if b == [] then false
    else if a[0] != b[0] then a[0] < b[0]
    else StrLess(a[1..], b[1..])
  }

  lemma {:induction false} StrLessIrreflexive(a: string)
    ensures !StrLess(a, a)
    decreases |a|
  {
    if a != [] {
      StrLessIrreflexive(a[1..]);
    }
  }

  lemma {:induction false} StrLessTransitive(a: string, b: string, c: string)
    requires StrLess(a, b) && StrLess(b, c)
    ensures StrLess(a, c)
    decreases |a|
  {
    if a != [] && b != [] && c != [] && a[0] == b[0] && b[0] == c[0] {
      StrLessTransitive(a[1..], b[1..], c[1..]);
    }
  }

  lemma {:induction false} StrLessTotal(a: string, b: string)
    requires a != b
    ensures StrLess(a, b) || StrLess(b, a)
    decreases |a|
  {
    if a != [] && b != [] && a[0] == b[0] {
      StrLessTotal(a[1..], b[1..]);
    }
  }

  /** Python's string order is a strict total order. */
  lemma StrLessIsStrictTotalOrder()
    ensures forall a :: !StrLess(a, a)
    ensures forall a, b, c :: StrLess(a, b) && StrLess(b, c) ==> StrLess(a, c)
    ensures forall a, b :: a != b ==> StrLess(a, b) || StrLess(b, a)
  {
    forall a ensures !StrLess(a, a) {
      StrLessIrreflexive(a);
    }
    forall a, b, c | StrLess(a, b) && StrLess(b, c) ensures StrLess(a, c) {
      StrLessTransitive(a, b, c);
    }
    forall a, b | a != b ensures StrLess(a, b) || StrLess(b, a) {
      StrLessTotal(a, b);
    }
  }

  /**
   * `a` sorts before `b` under the key `(-tokens.count(t), t)`: it occurs
   * more often, or as often and is smaller as a string.
   */
  predicate RanksBefore(tokens: seq<string>, a: string, b: string)
    ensures RanksBefore(tokens, a, b) ==> a != b
  {
    || Occurrences(tokens, a) > Occurrences(tokens, b)
    || (Occurrences(tokens, a) == Occurrences(tokens, b) && StrLess(a, b))
  }

  /** The ranking is a strict total order on strings, for any token list. */
  lemma RanksBeforeIsStrictTotalOrder(tokens: seq<string>)
    ensures forall a :: !RanksBefore(tokens, a, a)
    ensures forall a, b :: RanksBefore(tokens, a, b) ==> !RanksBefore(tokens, b, a)
    ensures forall a, b, c :: RanksBefore(tokens, a, b) && RanksBefore(tokens, b, c) ==> RanksBefore(tokens, a, c)
    ensures forall a, b :: a != b ==> RanksBefore(tokens, a, b) || RanksBefore(tokens, b, a)
  {
    StrLessIsStrictTotalOrder();
  }

  /** `x` is the candidate of `s` that ranks before every other one. */
  predicate IsFirst(tokens: seq<string>, x: string, s: set<string>)
  {
    x in s && forall y :: y in s && y != x ==> RanksBefore(tokens, x, y)
  }

  /** Every non-empty finite set of candidates has a first one. */
  lemma {:induction false} FirstExists(tokens: seq<string>, s: set<string>)
    requires s != {}
    ensures exists x :: IsFirst(tokens, x, s)
    decreases |s|
  {
    RanksBeforeIsStrictTotalOrder(tokens);
    var y :| y in s;
    if s == {y} {
      assert IsFirst(tokens, y, s);
    } else {
      FirstExists(tokens, s - {y});
      var x :| IsFirst(tokens, x, s - {y});
      if RanksBefore(tokens, x, y) {
        assert IsFirst(tokens, x, s);
      } else {
        assert IsFirst(tokens, y, s);
      }
    }
  }

  /** Distinct elements. */
  predicate Distinct(r: seq<string>) {
    forall i, j :: 0 <= i < j < |r| ==> r[i] != r[j]
  }

  /** Each element ranks before every later one. */
  predicate SortedByRank(tokens: seq<string>, r: seq<string>) {
    forall i, j :: 0 <= i < j < |r| ==> RanksBefore(tokens, r[i], r[j])
  }

  /** There is only one first candidate, so picking it is deterministic. */
  lemma FirstUnique(tokens: seq<string>, s: set<string>)
    ensures forall x, y :: IsFirst(tokens, x, s) && IsFirst(tokens, y, s) ==> x == y
  {
    RanksBeforeIsStrictTotalOrder(tokens);
  }

  /** The first candidate followed by the ranked rest is the ranked whole. */
  lemma PrependFirst(tokens: seq<string>, x: string, s: set<string>, rest: seq<string>)
    requires IsFirst(tokens, x, s)
    requires |rest| == |s - {x}|
    requires forall t :: t in rest <==> t in s - {x}
    requires SortedByRank(tokens, rest) && Distinct(rest)
    ensures |[x] + rest| == |s|
    ensures forall t :: t in [x] + rest <==> t in s
    ensures SortedByRank(tokens, [x] + rest) && Distinct([x] + rest)
  {
    var r := [x] + rest;
    forall i, j | 0 <= i < j < |r| ensures RanksBefore(tokens, r[i], r[j]) && r[i] != r[j] {
      assert r[j] == rest[j - 1];
      if i > 0 {
        assert r[i] == rest[i - 1];
      } else {
        assert rest[j - 1] in s - {x};
      }
    }
  }

  /** `sorted(s, key=...)`: the elements of `s`, each before all that rank after it. */
  function Ranked(tokens: seq<string>, s: set<string>): (r: seq<string>)
    ensures |r| == |s|
    ensures forall t :: t in r <==> t in s
    ensures SortedByRank(tokens, r)
    ensures Distinct(r)
    decreases |s|
  {
    if s == {} then []
    else
      FirstExists(tokens, s);
      FirstUnique(tokens, s);
      var x :| IsFirst(tokens, x, s);
      var rest := Ranked(tokens, s - {x});
      PrependFirst(tokens, x, s, rest);
      [x] + rest
  }

  /** `{token for token in tokens if len(token) > 5}`. */
  function LongWords(tokens: seq<string>): set<string>
  {
    set t | t in tokens && |t| > MinLength
  }

  /** The keyword list: the first eight of the ranked long words. */
  function Keywords(tokens: seq<string>): (k: seq<string>)
    ensures |k| <= MaxKeywords
    ensures forall i :: 0 <= i < |k| ==> k[i] in tokens && |k[i]| > MinLength
  {
    var r := Ranked(tokens, LongWords(tokens));
    assert forall i :: 0 <= i < |r| ==> r[i] in LongWords(tokens);
    if |r| <= MaxKeywords then r else r[..MaxKeywords]
  }

  /**
   * What the keyword list promises: at most eight distinct tokens longer
   * than five characters, by non-increasing count with equal counts in
   * ascending string order; a qualifying token is left out only when eight
   * keywords are reported and every one of them ranks before it, so with
   * fewer than eight qualifying tokens all of them appear.
   */
  lemma KeywordsSpec(tokens: seq<string>)
    ensures var k := Keywords(tokens);
      && |k| <= MaxKeywords
      && Distinct(k)
      && (forall i :: 0 <= i < |k| ==> k[i] in tokens && |k[i]| > MinLength)
      && (forall i, j :: 0 <= i < j < |k| ==>
            || Occurrences(tokens, k[i]) > Occurrences(tokens, k[j])
            || (Occurrences(tokens, k[i]) == Occurrences(tokens, k[j]) && StrLess(k[i], k[j])))
      && (forall t :: t in tokens && |t| > MinLength && t !in k ==>
            |k| == MaxKeywords && forall i :: 0 <= i < |k| ==> RanksBefore(tokens, k[i], t))
      && (|LongWords(tokens)| <= MaxKeywords ==> forall t :: t in tokens && |t| > MinLength ==> t in k)
  {
    var r := Ranked(tokens, LongWords(tokens));
    var k := Keywords(tokens);
    assert forall i :: 0 <= i < |k| ==> k[i] == r[i] && r[i] in LongWords(tokens);
    forall t | t in tokens && |t| > MinLength && t !in k
      ensures |k| == MaxKeywords && forall i :: 0 <= i < |k| ==> RanksBefore(tokens, k[i], t)
    {
      assert t in LongWords(tokens);
      var j :| 0 <= j < |r| && r[j] == t;
      assert j >= |k|;
    }
  }
}
