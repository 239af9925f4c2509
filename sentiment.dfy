/**
 * `POSITIVE_WORDS`, `NEGATIVE_WORDS`, `_sentiment_score` and
 * `_sentiment_label`. Scores are exact rationals: Python computes them in
 * binary floating point, and `_analyze` rounds the reported score to two
 * places, which this model does not follow.
 */
module Sentiment {

  const PositiveWords: set<string> := {
    "excellent", "great", "good", "positive", "love", "fantastic", "happy",
    "efficient", "improve", "success", "win", "helpful", "clear", "confident"
  }

  const NegativeWords: set<string> := {
    "bad", "poor", "negative", "hate", "terrible", "sad", "confusing",
    "angry", "frustrated", "issue", "problem", "fail", "loss", "unclear"
  }

  /** `sum(token in lexicon for token in tokens)`. */
  function Hits(tokens: seq<string>, lexicon: set<string>): (n: nat)
    ensures n <= |tokens|
  {
    if tokens == [] then 0
    else (if tokens[0] in lexicon then 1 else 0) + Hits(tokens[1..], lexicon)
  }

  function Min(a: real, b: real): real { if a <= b then a else b }
  function Max(a: real, b: real): real { if a >= b then a else b }

  /** `max(-1.0, min(1.0, x))`. */
  function Clamp(x: real): (r: real)
    ensures -1.0 <= r <= 1.0
    ensures -1.0 <= x <= 1.0 ==> r == x
  {
    Max(-1.0, Min(1.0, x))
  }

  /** `_sentiment_score(tokens)`. */
  function Score(tokens: seq<string>): (r: real)
    ensures -1.0 <= r <= 1.0
    ensures tokens == [] ==> r == 0.0
  {
    if tokens == [] then 0.0
    else
      var positives := Hits(tokens, PositiveWords);
      var negatives := Hits(tokens, NegativeWords);
      var total := positives + negatives;
      if total == 0 then 0.0
      else Clamp((positives as int - negatives as int) as real / total as real)
  }

  datatype Label = Positive | Negative | Neutral

  const Threshold: real := 0.35

  /** `_sentiment_label(score)`: inclusive thresholds at plus and minus 0.35. */
  function LabelOf(score: real): (l: Label)
    ensures l == Positive <==> score >= Threshold
    ensures l == Negative <==> score <= -Threshold
    ensures l == Neutral <==> -Threshold < score < Threshold
  {
    if score >= Threshold then Positive
    else if score <= -Threshold then Negative
    else Neutral
  }

  /** The string `_sentiment_label` returns. */
  function LabelText(l: Label): (s: string)
    ensures s in {"positive", "negative", "neutral"}
  {
    match l
    case Positive => "positive"
    case Negative => "negative"
    case Neutral => "neutral"
  }

  /** Label order: negative below neutral below positive. */
  function Rank(l: Label): int
  {
    match l
    case Negative => -1
    case Neutral => 0
    case Positive => 1
  }

  /** A higher score never gets a lower label. */
  lemma LabelMonotone(x: real, y: real)
    requires x <= y
    ensures Rank(LabelOf(x)) <= Rank(LabelOf(y))
  {
  }

  /** The three label strings are distinct, so the label can be read back from its text. */
  lemma LabelTextInjective(l: Label, m: Label)
    ensures LabelText(l) == LabelText(m) <==> l == m
  {
    if l != m {
      assert LabelText(l)[2] != LabelText(m)[2];
    }
  }

  /** No word is in both lexicons. */
  lemma LexiconsDisjoint()
    ensures PositiveWords !! NegativeWords
  {
  }

  /** Hits add up over a concatenation. */
  lemma {:induction false} HitsAppend(a: seq<string>, b: seq<string>, lexicon: set<string>)
    ensures Hits(a + b, lexicon) == Hits(a, lexicon) + Hits(b, lexicon)
    decreases |a|
  {
    if a != [] {
      assert (a + b)[1..] == a[1..] + b;
      HitsAppend(a[1..], b, lexicon);
    } else {
      assert a + b == b;
    }
  }

  /** With disjoint lexicons each token adds to at most one count. */
  lemma {:induction false} HitsDisjoint(tokens: seq<string>, p: set<string>, n: set<string>)
    requires p !! n
    ensures Hits(tokens, p) + Hits(tokens, n) <= |tokens|
    decreases |tokens|
  {
    if tokens != [] {
      HitsDisjoint(tokens[1..], p, n);
    }
  }

  /** Each token is a positive hit, a negative hit, or neither. */
  lemma TokenHitsAtMostOnce(tokens: seq<string>)
    ensures Hits(tokens, PositiveWords) + Hits(tokens, NegativeWords) <= |tokens|
  {
    LexiconsDisjoint();
    HitsDisjoint(tokens, PositiveWords, NegativeWords);
  }

  /**
   * The score is 0 without tokens or without lexicon hits; otherwise it is
   * `(positives - negatives) / (positives + negatives)` exactly, which lies
   * in [-1, 1], so the clamp never changes it.
   */
  lemma ScoreIsHitBalance(tokens: seq<string>)
    ensures var p, n := Hits(tokens, PositiveWords), Hits(tokens, NegativeWords);
      && (p + n == 0 ==> Score(tokens) == 0.0)
      && (p + n > 0 ==> Score(tokens) == (p as int - n as int) as real / (p + n) as real)
      && -1.0 <= Score(tokens) <= 1.0
  {
    var p, n := Hits(tokens, PositiveWords), Hits(tokens, NegativeWords);
    if p + n > 0 {
      BalanceInUnitInterval(p, n);
    }
  }

  lemma BalanceInUnitInterval(p: nat, n: nat)
    requires p + n > 0
    ensures -1.0 <= (p as int - n as int) as real / (p + n) as real <= 1.0
  {
    QuotientFacts((p as int - n as int) as real, (p + n) as real);
  }

  /** A product with a positive factor has the sign of the other factor. */
  lemma ProductSign(a: real, t: real)
    requires t > 0.0
    ensures a * t >= 0.0 <==> a >= 0.0
    ensures a * t > 0.0 <==> a > 0.0
  {
  }

  /** Dividing by a positive number keeps the sign and the comparison with plus or minus the divisor. */
  lemma QuotientFacts(d: real, t: real)
    requires t > 0.0
    ensures d <= t ==> d / t <= 1.0
    ensures -t <= d ==> -1.0 <= d / t
    ensures d / t > 0.0 <==> d > 0.0
    ensures d / t < 0.0 <==> d < 0.0
    ensures d == t ==> d / t == 1.0
    ensures d == -t ==> d / t == -1.0
  {
    var x := d / t;
    assert x * t == d;
    assert (1.0 - x) * t == t - d;
    assert (x + 1.0) * t == d + t;
    assert (-x) * t == -d;
    ProductSign(1.0 - x, t);
    ProductSign(x + 1.0, t);
    ProductSign(x, t);
    ProductSign(-x, t);
  }

  /** Only positive hits give exactly 1.0; only negative hits give exactly -1.0. */
  lemma OneSidedScores(tokens: seq<string>)
    ensures Hits(tokens, PositiveWords) > 0 && Hits(tokens, NegativeWords) == 0 ==> Score(tokens) == 1.0
    ensures Hits(tokens, NegativeWords) > 0 && Hits(tokens, PositiveWords) == 0 ==> Score(tokens) == -1.0
  {
    var p, n := Hits(tokens, PositiveWords), Hits(tokens, NegativeWords);
    ScoreIsHitBalance(tokens);
    if p + n > 0 {
      QuotientFacts((p as int - n as int) as real, (p + n) as real);
    }
  }

  /** The score's sign is the sign of `positives - negatives`, and so is the label's leaning. */
  lemma ScoreSign(tokens: seq<string>)
    ensures var d := Hits(tokens, PositiveWords) as int - Hits(tokens, NegativeWords) as int;
      && (Score(tokens) > 0.0 <==> d > 0)
      && (Score(tokens) < 0.0 <==> d < 0)
      && (LabelOf(Score(tokens)) == Positive ==> d > 0)
      && (LabelOf(Score(tokens)) == Negative ==> d < 0)
  {
    var p, n := Hits(tokens, PositiveWords), Hits(tokens, NegativeWords);
    ScoreIsHitBalance(tokens);
    if p + n > 0 {
      QuotientFacts((p as int - n as int) as real, (p + n) as real);
    }
  }

  /** Adding words outside both lexicons never changes the score, even to an empty token list. */
  lemma NeutralWordsDoNotMatter(tokens: seq<string>, extra: seq<string>)
    requires forall i :: 0 <= i < |extra| ==> extra[i] !in PositiveWords && extra[i] !in NegativeWords
    ensures Score(tokens + extra) == Score(tokens)
  {
    HitsAppend(tokens, extra, PositiveWords);
    HitsAppend(tokens, extra, NegativeWords);
    NoHits(extra, PositiveWords);
    NoHits(extra, NegativeWords);
    if tokens == [] {
      NoHits(tokens + extra, PositiveWords);
      NoHits(tokens + extra, NegativeWords);
    }
  }

  lemma {:induction false} NoHits(tokens: seq<string>, lexicon: set<string>)
    requires forall i :: 0 <= i < |tokens| ==> tokens[i] !in lexicon
    ensures Hits(tokens, lexicon) == 0
    decreases |tokens|
  {
    if tokens != [] {
      NoHits(tokens[1..], lexicon);
    }
  }
}
