/**
 * `_analyze` and the input guard of the `POST` handler: the text field must
 * be a string that is not blank, and the analysis runs on the stripped text.
 * The HTTP exchange around it (content type, body length, JSON decoding and
 * encoding) is not modelled.
 */
module Analyzer {
  import opened Chars
  import Tokenizer
  import Sentences
  import Sentiment
  import Keywords

  /** The metrics record `_analyze` returns, with the scores before rounding. */
  datatype AnalysisResult = AnalysisResult(
    characters: nat,
    words: nat,
    uniqueWords: nat,
    sentences: nat,
    estimatedReadMinutes: real,
    sentimentScore: real,
    sentimentLabel: Sentiment.Label,
    keywords: seq<string>)

  /** Average reading speed, words per minute. */
  const WordsPerMinute: nat := 200

  /** The shortest reading time reported, in minutes. */
  const MinReadMinutes: real := 0.2

  /** `max(0.2, words / 200)`. */
  function ReadMinutes(words: nat): (m: real)
    ensures m >= MinReadMinutes && m >= words as real / WordsPerMinute as real
    ensures m == MinReadMinutes || m == words as real / WordsPerMinute as real
  {
    var minutes := words as real / WordsPerMinute as real;
    if MinReadMinutes >= minutes then MinReadMinutes else minutes
  }

  /** `len(set(tokens))`. */
  function UniqueCount(tokens: seq<string>): nat
  {
    |set t | t in tokens|
  }

  /** `_analyze(text)`. */
  function Analyze(text: string): (r: AnalysisResult)
    ensures r.characters == |text|
    ensures r.sentences >= 1
    ensures r.estimatedReadMinutes >= MinReadMinutes
    ensures -1.0 <= r.sentimentScore <= 1.0
    ensures |r.keywords| <= Keywords.MaxKeywords
  {
    var tokens := Tokenizer.Tokenize(text);
    var score := Sentiment.Score(tokens);
    AnalysisResult(
      characters := |text|,
      words := |tokens|,
      uniqueWords := UniqueCount(tokens),
      sentences := Sentences.SentenceCount(text),
      estimatedReadMinutes := ReadMinutes(|tokens|),
      sentimentScore := score,
      sentimentLabel := Sentiment.LabelOf(score),
      keywords := Keywords.Keywords(tokens))
  }

  /** There are never more distinct tokens than tokens, and there is one as soon as there is a token. */
  lemma {:induction false} UniqueCountBounds(tokens: seq<string>)
    ensures UniqueCount(tokens) <= |tokens|
    ensures UniqueCount(tokens) == 0 <==> tokens == []
    decreases |tokens|
  {
    if tokens != [] {
      UniqueCountBounds(tokens[1..]);
      var rest := set t | t in tokens[1..];
      assert (set t | t in tokens) == rest + {tokens[0]};
      assert tokens[0] in (set t | t in tokens);
    }
  }

  /** The reading time grows with the word count. */
  lemma ReadMinutesMonotone(a: nat, b: nat)
    requires a <= b
    ensures ReadMinutes(a) <= ReadMinutes(b)
  {
    assert a as real / 200.0 <= b as real / 200.0;
  }

  /**
   * The record `_analyze` builds: the character count is the length of the
   * text; `0 <= uniqueWords <= words`, with no distinct words exactly when
   * there are no words; at least one sentence; a reading time of
   * `max(0.2, words / 200)` minutes; a score in [-1, 1] whose unrounded value decides the label;
   * at most eight keywords, each a token longer than five characters.
   */
  lemma AnalyzeSpec(text: string)
    ensures var r := Analyze(text);
      && r.characters == |text|
      && r.uniqueWords <= r.words
      && (r.words == 0 <==> r.uniqueWords == 0)
      && r.sentences >= 1
      && r.estimatedReadMinutes >= MinReadMinutes
      && r.estimatedReadMinutes == ReadMinutes(r.words)
      && (r.words >= 40 ==> r.estimatedReadMinutes == r.words as real / 200.0)
      && (r.words < 40 ==> r.estimatedReadMinutes == MinReadMinutes)
      && -1.0 <= r.sentimentScore <= 1.0
      && (r.sentimentLabel == Sentiment.Positive <==> r.sentimentScore >= 0.35)
      && (r.sentimentLabel == Sentiment.Negative <==> r.sentimentScore <= -0.35)
      && |r.keywords| <= 8
      && (forall i :: 0 <= i < |r.keywords| ==>
            r.keywords[i] in Tokenizer.Tokenize(text) && |r.keywords[i]| > 5)
  {
    var tokens := Tokenizer.Tokenize(text);
    UniqueCountBounds(tokens);
    Sentiment.ScoreIsHitBalance(tokens);
    Keywords.KeywordsSpec(tokens);
  }

  /** A text with words and no `.`, `!` or `?` is a single sentence. */
  lemma UnterminatedTextIsOneSentence(text: string)
    requires Sentences.NoTerminator(text)
    ensures Analyze(text).sentences == 1
  {
    Sentences.NoTerminatorOneSentence(text);
  }

  /** Without lexicon hits the score is 0 and the label neutral. */
  lemma NoHitsIsNeutral(text: string)
    requires var tokens := Tokenizer.Tokenize(text);
      Sentiment.Hits(tokens, Sentiment.PositiveWords) + Sentiment.Hits(tokens, Sentiment.NegativeWords) == 0
    ensures Analyze(text).sentimentScore == 0.0
    ensures Analyze(text).sentimentLabel == Sentiment.Neutral
  {
    Sentiment.ScoreIsHitBalance(Tokenizer.Tokenize(text));
  }

  /** The value of the request's `text` field: absent or not a string, or a string. */
  datatype TextField = NotAString | Text(value: string)

  /** The handler's answer to a request. */
  datatype Response = Ok(result: AnalysisResult) | BadRequest(message: string)

  const EmptyTextMessage: string := "The `text` field is required and must be a non-empty string."

  /** The guard of `do_POST` around `_analyze`. */
  function HandleText(field: TextField): (resp: Response)
    ensures resp.Ok? <==> field.Text? && !IsBlank(field.value)
    ensures resp.BadRequest? ==> resp.message == EmptyTextMessage
    ensures resp.Ok? ==> resp.result == Analyze(Strip(field.value))
    ensures resp.Ok? ==> resp.result.characters == |Strip(field.value)| >= 1
  {
    match field
    case NotAString => BadRequest(EmptyTextMessage)
    case Text(text) =>
      var stripped := Strip(text);
      StripEmptyIffBlank(text);
      if stripped == [] then BadRequest(EmptyTextMessage) else Ok(Analyze(stripped))
  }

  /**
   * The handler analyses `text.strip()` rather than `text`; of all the
   * metrics only the character count can tell the difference.
   */
  lemma StripOnlyChangesCharacters(text: string)
    ensures Analyze(Strip(text)) == Analyze(text).(characters := |Strip(text)|)
  {
    Tokenizer.TokenizeStripped(text);
    Sentences.SentenceCountStripped(text);
  }
}
