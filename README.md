# Text analysis endpoint — verified model

The service takes a free-form text and answers with descriptive metrics:
the character count, the word count, the number of distinct words, a
sentence count, an estimated reading time, a lexicon-based sentiment score
with a label, and up to eight keywords. All of it is computed by the pure
helpers of `api/python/analyze.py` (`_tokenize`, `_sentence_count`,
`_sentiment_score`, `_sentiment_label`, `_analyze`). The `POST` handler
rejects a `text` field that is not a string or is blank, and analyses the
stripped text.

The model follows the source file by file. No helper loops or changes
state: each computes its result from its arguments with expressions, early
returns and library calls. So the model is made of datatypes, functions and
lemmas, and it has no classes and no loops:

| module | file | models |
|---|---|---|
| `Chars` | `chars.dfy` | `\w`, `str.lower`, `str.isspace`/`str.strip()`, the terminators `.`, `!` and `?` |
| `Tokenizer` | `tokenizer.dfy` | `_tokenize`: `re.findall(r"\b[\w'-]+\b", text.lower())` as a left-to-right scanner |
| `Sentences` | `sentences.dfy` | `_sentence_count`: `re.split(r"[.!?]+", text)`, the non-blank filter, the floor at 1 |
| `Sentiment` | `sentiment.dfy` | `POSITIVE_WORDS`, `NEGATIVE_WORDS`, `_sentiment_score`, `_sentiment_label` |
| `Keywords` | `keywords.dfy` | the `sorted(..., key=lambda token: (-tokens.count(token), token))[:8]` ranking |
| `Analyzer` | `analyzer.dfy` | `_analyze` and the strip/non-blank guard of `do_POST` |

How the regular expressions are read:

- **Tokens.** `[\w'-]+` can only match inside a maximal run of `\w`, `'` and
  `-` characters. `'` and `-` are not `\w`, so the first place in a run where
  `\b` holds is before its first `\w` character, and the match starts there.
  The greedy `+` takes the run to its end and backs off only to the last
  position where `\b` holds, which is after the run's last `\w` character;
  boundaries inside the run (around each `-` of "rock-n-roll") are passed
  over. The leftover tail of `'` and `-` never reaches another `\b`. Each
  run therefore yields exactly one token: the run without its leading and trailing `'` and
  `-`, or nothing when the run has no `\w` character. `Tokenizer.Scan`
  collects the current run and emits that token when a separator or the end
  of the text closes it.
- **Sentences.** `Sentences.SplitFrom` cuts the text at each maximal run of
  terminators and keeps the empty first and last segments that `re.split`
  returns. `Sentences.OnePassCount` is an independent one-pass count, and the
  two are proved to agree.
- **Keyword order.** Python compares strings code point by code point, with a
  proper prefix first. `Keywords.StrLess` defines this order, because Dafny's
  `<` on sequences means "proper prefix". The key `(-count, token)` is
  injective, so the order is total on the candidate set. `Keywords.Ranked`
  repeatedly takes the one candidate that ranks before all the others, so
  the result does not depend on the set's iteration order.

Behaviours of the code that a reader might not expect, all modelled as
written:

- The sentiment score is `(positives - negatives) / (positives + negatives)`,
  which is normalised by lexicon hits and not by word count.
- The label thresholds are inclusive at plus and minus 0.35.
- At most 8 keywords are returned.
- Keyword ties are broken by ascending string order, not by first occurrence.
- The reading time is floored at 0.2 minutes.
- Tokens may contain `'` and `-` inside a word.

## Model

| member | source | states |
|---|---|---|
| `Chars.IsWordChar` | api/python/analyze.py:54 | a `\w` character is never white space and never a terminator |
| `Chars.Lower` | api/python/analyze.py:54 | on the modelled table (not on all of Unicode), lowering changes only `\w` characters, into `\w` characters, and keeps whether a character is `\w` |
| `Chars.LowerAll` | api/python/analyze.py:54 | `text.lower()` has the text's length and lowers each character in place |
| `Chars.IsTokenChar` | api/python/analyze.py:54 | the pattern class `[\w'-]`: a `\w` character, `'` or `-` |
| `Chars.IsTerminator` | api/python/analyze.py:59 | the pattern class `[.!?]`: `.`, `!` or `?` |
| `Chars.IsSpace` | api/python/analyze.py:177 | the white space that `str.strip()` removes is never a terminator, `'` or `-` |
| `Chars.Strip` | api/python/analyze.py:177 | `text.strip()` is no longer than the text, and when non-empty starts and ends with a non-space character |
| `Chars.TrimStart` | api/python/analyze.py:177 | the result is a suffix of the text, everything removed is white space, and it does not start with white space |
| `Chars.TrimEnd` | api/python/analyze.py:177 | the result is a prefix of the text, everything removed is white space, and it does not end with white space |
| `Chars.StripIsSlice` | api/python/analyze.py:177 | `text.strip()` is a slice of the text with only white space on either side, and when non-empty it starts and ends with a non-space character |
| `Chars.StripSurrounded` | api/python/analyze.py:185 | the text is its `strip()` with blank text before and after it |
| `Chars.StripEmptyIffBlank` | api/python/analyze.py:177 | `text.strip()` is empty exactly when every character of the text is white space |
| `Chars.StripIdempotent` | api/python/analyze.py:185 | stripping an already stripped text changes nothing |
| `Chars.LowerIdempotent` | api/python/analyze.py:54 | lowering a lowered character changes nothing |
| `Chars.LowerKeepsClass` | api/python/analyze.py:54 | lowering neither makes nor unmakes a `\w` or `[\w'-]` character |
| `Chars.LowerAllIsLowered` | api/python/analyze.py:54 | every character of `text.lower()` is lower case |
| `Chars.SpaceIsSeparator` | api/python/analyze.py:54-59 | white space is never part of a token, never a terminator, and lowering keeps it |
| `Chars.LowerAllAppend` | api/python/analyze.py:54 | `str.lower` distributes over concatenation |
| `Chars.LowerAllBlank` | api/python/analyze.py:54 | lowering leaves white space unchanged |
| `Tokenizer.DropLeading` | api/python/analyze.py:54 | the leading `\b` drops exactly the non-`\w` prefix of a run, and what is left is empty or starts with a `\w` character |
| `Tokenizer.DropTrailing` | api/python/analyze.py:54 | the trailing `\b` drops exactly the non-`\w` suffix of a run, and what is left is empty or ends with a `\w` character |
| `Tokenizer.Stripped` | api/python/analyze.py:54 | the match inside a run is no longer than the run, and is empty or non-empty with a `\w` character at both ends |
| `Tokenizer.Emit` | api/python/analyze.py:54 | a run yields at most one match, with a `\w` character at both ends |
| `Tokenizer.Scan` | api/python/analyze.py:54 | every match the scanner emits is non-empty with a `\w` character at both ends |
| `Tokenizer.FindTokens` | api/python/analyze.py:54 | every match of `re.findall` is non-empty with a `\w` character at both ends |
| `Tokenizer.Tokenize` | api/python/analyze.py:52-54 | every token of `_tokenize` is non-empty with a `\w` character at both ends |
| `Tokenizer.StrippedRunIsSlice` | api/python/analyze.py:54 | the matched part of a run is a contiguous slice of the run |
| `Tokenizer.StrippedIsToken` | api/python/analyze.py:54 | a non-empty match inside a run is a well-formed token |
| `Tokenizer.StrippedLowered` | api/python/analyze.py:54 | a match inside a lower-case run is lower case |
| `Tokenizer.EmitWellFormed` | api/python/analyze.py:54 | a run yields only well-formed tokens, lower case when the run is |
| `Tokenizer.EmitNonEmptyIff` | api/python/analyze.py:54 | a run yields at most one token, and yields one exactly when it contains a `\w` character |
| `Tokenizer.ScanWellFormed` | api/python/analyze.py:54 | every token the scanner emits is non-empty, made of `[\w'-]`, starts and ends with `\w`, and is lower case when the input is |
| `Tokenizer.TokensWellFormed` | api/python/analyze.py:52-54 | every token of `_tokenize` is non-empty, lower case, made of `\w`, `'` and `-`, and starts and ends with a `\w` character |
| `Tokenizer.ScanOneRun` | api/python/analyze.py:54 | on a text that is a single run, the scanner yields what that run's match yields |
| `Tokenizer.ScanSplits` | api/python/analyze.py:54 | a separator splits the token list: the tokens before it, then the tokens after it |
| `Tokenizer.FindTokensCharacterized` | api/python/analyze.py:54 | `findall` gives no tokens on the empty text, the stripped run on a single run, and splits at every separator, which determines it on every text |
| `Tokenizer.LowerEachAppend` | api/python/analyze.py:54 | lowering a token list distributes over concatenation |
| `Tokenizer.EmitLowerCommutes` | api/python/analyze.py:54 | lowering a run before or after matching it gives the same token |
| `Tokenizer.DropLeadingLower` | api/python/analyze.py:54 | lowering commutes with dropping a run's leading `'` and `-` |
| `Tokenizer.DropTrailingLower` | api/python/analyze.py:54 | lowering commutes with dropping a run's trailing `'` and `-` |
| `Tokenizer.ScanLowerCommutes` | api/python/analyze.py:54 | scanning the lowered text gives the lowered tokens of the original text |
| `Tokenizer.TokenizeLowersMatches` | api/python/analyze.py:52-54 | `_tokenize(text)` equals the matches in the original text, each lowered |
| `Tokenizer.EmptyHasNoTokens` | api/python/analyze.py:54 | the empty text has no tokens |
| `Tokenizer.SeparatorFirst` | api/python/analyze.py:54 | a leading separator adds no token |
| `Tokenizer.BlankHasNoTokens` | api/python/analyze.py:54 | a blank text has no tokens |
| `Tokenizer.LeadingBlankKeepsTokens` | api/python/analyze.py:54 | white space before a text changes none of its tokens |
| `Tokenizer.TrailingBlankKeepsTokens` | api/python/analyze.py:54 | white space after a text changes none of its tokens |
| `Tokenizer.SurroundingBlankKeepsTokens` | api/python/analyze.py:54 | white space before and after a text changes none of its tokens |
| `Tokenizer.LowerAllAround` | api/python/analyze.py:54 | lowering a text with blank margins lowers only the middle |
| `Tokenizer.TokenizeStripped` | api/python/analyze.py:52-54 | `_tokenize` gives the same tokens for a text and for its `strip()` |
| `Sentences.SkipTerminators` | api/python/analyze.py:59 | a whole run of `[.!?]+` is consumed at once: all removed characters are terminators and the rest does not start with one |
| `Sentences.SplitFrom` | api/python/analyze.py:59 | `re.split` always returns at least one segment |
| `Sentences.Split` | api/python/analyze.py:59 | `re.split(r"[.!?]+", text)` returns at least one segment |
| `Sentences.TerminatorRunsSkip` | api/python/analyze.py:59 | inside a run of terminators, the rest of the run starts no new run |
| `Sentences.SplitFromLength` | api/python/analyze.py:59 | the splitter returns exactly one segment more than there are maximal runs of terminators |
| `Sentences.NonBlankCount` | api/python/analyze.py:60 | the filtered segments are never more than all segments |
| `Sentences.SentenceCount` | api/python/analyze.py:57-60 | `_sentence_count` is at least 1 |
| `Sentences.WithoutTerminators` | api/python/analyze.py:59 | the characters kept by the split contain no terminator |
| `Sentences.SkipTerminatorsDropsOnlyTerminators` | api/python/analyze.py:59 | skipping a run of terminators loses no other character and removes at least one terminator |
| `Sentences.SplitFromParts` | api/python/analyze.py:59 | no segment contains a terminator, the segments laid end to end are the text without terminators, and there are at most one more segments than terminators |
| `Sentences.SplitParts` | api/python/analyze.py:59 | the same for `re.split(r"[.!?]+", text)` itself, with at least one segment and exactly one more segment than there are maximal runs of terminators |
| `Sentences.OnePassCountSkipRun` | api/python/analyze.py:59 | consecutive terminators close no extra sentence in the one-pass count |
| `Sentences.BlankAppend` | api/python/analyze.py:60 | a segment stays blank only while every added character is white space |
| `Sentences.NonBlankCons` | api/python/analyze.py:60 | a segment passes the `s.strip()` filter exactly when it is not blank |
| `Sentences.SkipFromTerminator` | api/python/analyze.py:59 | skipping a run from its first terminator equals skipping it from the second character |
| `Sentences.SplitCountIsOnePassCount` | api/python/analyze.py:59-60 | the number of non-blank segments of the split equals the one-pass count of pieces with a non-space character |
| `Sentences.TerminatorStep` | api/python/analyze.py:59-60 | the two counts agree at a terminator, given that they agree after its run |
| `Sentences.SplitAtTerminator` | api/python/analyze.py:59 | at a terminator the split closes the current segment and continues after the whole run |
| `Sentences.OnePassCountAtTerminator` | api/python/analyze.py:59-60 | at a terminator the one-pass count closes the current piece and continues after the whole run |
| `Sentences.OtherStep` | api/python/analyze.py:59-60 | the two counts agree at any other character, given that they agree on the rest |
| `Sentences.SentenceCountIsReference` | api/python/analyze.py:57-60 | `_sentence_count` is the one-pass count floored at 1, so it equals that count whenever the count is positive |
| `Sentences.NoTerminatorOneSentence` | api/python/analyze.py:57-60 | a text without `.`, `!` or `?` splits into itself alone and counts as exactly one sentence |
| `Sentences.NoTerminatorSplit` | api/python/analyze.py:59 | without terminators the split's current segment absorbs the whole rest of the text |
| `Sentences.TerminatorSeparates` | api/python/analyze.py:59-60 | the sentences of `a + "." + b` are those of `a` plus those of `b` |
| `Sentences.LeadingBlankKeepsSentences` | api/python/analyze.py:60 | leading white space opens no sentence |
| `Sentences.TrailingBlankKeepsSentences` | api/python/analyze.py:60 | trailing white space closes no extra sentence |
| `Sentences.SurroundingBlankKeepsSentences` | api/python/analyze.py:60 | white space around a text leaves its one-pass count unchanged |
| `Sentences.SameOnePassCountSameSentenceCount` | api/python/analyze.py:57-60 | texts with the same one-pass count have the same sentence count |
| `Sentences.SentenceCountStripped` | api/python/analyze.py:57-60 | `_sentence_count` gives the same count for a text and for its `strip()` |
| `Sentiment.Score` | api/python/analyze.py:63-76 | `_sentiment_score` always lies in [-1, 1] and is 0 for an empty token list |
| `Sentiment.Hits` | api/python/analyze.py:68-69 | a lexicon count is never more than the number of tokens |
| `Sentiment.Clamp` | api/python/analyze.py:75-76 | the clamped value lies in [-1, 1] and equals its input when the input already does |
| `Sentiment.LabelOf` | api/python/analyze.py:79-85 | "positive" exactly when the score is at least 0.35, "negative" exactly when it is at most -0.35, "neutral" exactly when it lies strictly between |
| `Sentiment.LabelText` | api/python/analyze.py:79-85 | the label is one of the three strings "positive", "negative", "neutral" |
| `Sentiment.LabelMonotone` | api/python/analyze.py:79-85 | a higher score never gets a lower label |
| `Sentiment.LabelTextInjective` | api/python/analyze.py:79-85 | distinct labels have distinct strings |
| `Sentiment.LexiconsDisjoint` | api/python/analyze.py:17-49 | the lexicons `PositiveWords` and `NegativeWords`, the 14 words each of `POSITIVE_WORDS` and `NEGATIVE_WORDS`, share no word |
| `Sentiment.HitsAppend` | api/python/analyze.py:68-69 | lexicon counts add up over concatenated token lists |
| `Sentiment.HitsDisjoint` | api/python/analyze.py:68-70 | with disjoint lexicons the two counts together are at most the number of tokens |
| `Sentiment.TokenHitsAtMostOnce` | api/python/analyze.py:68-70 | each token adds to at most one of `positives` and `negatives` |
| `Sentiment.ScoreIsHitBalance` | api/python/analyze.py:63-76 | the score is 0 without lexicon hits, otherwise exactly `(positives - negatives) / (positives + negatives)`, and always lies in [-1, 1], so the clamp never changes it |
| `Sentiment.BalanceInUnitInterval` | api/python/analyze.py:74-76 | the hit balance lies in [-1, 1] |
| `Sentiment.OneSidedScores` | api/python/analyze.py:68-76 | only positive hits give exactly 1.0, only negative hits give exactly -1.0 |
| `Sentiment.ScoreSign` | api/python/analyze.py:74-85 | the score is positive or negative exactly as `positives - negatives` is, and a positive or negative label implies that sign |
| `Sentiment.NeutralWordsDoNotMatter` | api/python/analyze.py:63-76 | appending words outside both lexicons to any token list leaves the score unchanged |
| `Sentiment.NoHits` | api/python/analyze.py:68-69 | tokens outside a lexicon give that lexicon no hits |
| `Keywords.Occurrences` | api/python/analyze.py:111 | `tokens.count(t)` is positive exactly when `t` is a token, and at most the number of tokens |
| `Keywords.StrLess` | api/python/analyze.py:111 | Python's `<` on strings never holds between equal strings |
| `Keywords.RanksBefore` | api/python/analyze.py:111 | under the key `(-tokens.count(t), t)` no string sorts before itself |
| `Keywords.LongWords` | api/python/analyze.py:110 | the candidate set `{token for token in tokens if len(token) > 5}` |
| `Keywords.StrLessIrreflexive` | api/python/analyze.py:111 | no string sorts before itself |
| `Keywords.StrLessTransitive` | api/python/analyze.py:111 | Python's string order is transitive |
| `Keywords.StrLessTotal` | api/python/analyze.py:111 | of two distinct strings one sorts before the other |
| `Keywords.StrLessIsStrictTotalOrder` | api/python/analyze.py:111 | Python's string order is a strict total order |
| `Keywords.RanksBeforeIsStrictTotalOrder` | api/python/analyze.py:111 | the key `(-tokens.count(t), t)` orders strings strictly and totally |
| `Keywords.FirstExists` | api/python/analyze.py:109-111 | every non-empty candidate set has a candidate ranked before all others |
| `Keywords.FirstUnique` | api/python/analyze.py:109-111 | that candidate is unique, so the sorted order does not depend on set iteration order |
| `Keywords.PrependFirst` | api/python/analyze.py:109-111 | the first candidate followed by the ranked rest is the ranked candidate set |
| `Keywords.Ranked` | api/python/analyze.py:109-111 | `sorted` returns every candidate exactly once, each ranked before all later ones |
| `Keywords.Keywords` | api/python/analyze.py:109-112 | at most 8 keywords, each a token longer than 5 characters |
| `Keywords.KeywordsSpec` | api/python/analyze.py:109-112 | at most 8 distinct keywords, each a token longer than 5 characters, by non-increasing count with equal counts in ascending string order; a qualifying token is missing only when 8 keywords are given and all rank before it, so with at most 8 qualifying tokens all appear |
| `Analyzer.Analyze` | api/python/analyze.py:88-113 | the record has the text's length as `characters`, at least one sentence, a reading time of at least 0.2, a score in [-1, 1] and at most 8 keywords |
| `Analyzer.UniqueCount` | api/python/analyze.py:92 | `len(set(tokens))`, the number of distinct tokens; its bounds are stated by `Analyzer.UniqueCountBounds` |
| `Analyzer.ReadMinutes` | api/python/analyze.py:95-97 | the reading time is the larger of 0.2 and `words / 200`: at least both, and equal to one of them |
| `Analyzer.ReadMinutesMonotone` | api/python/analyze.py:95-97 | more words never give a shorter reading time |
| `Analyzer.UniqueCountBounds` | api/python/analyze.py:90-92 | `uniqueWords` is at most `words`, and is 0 exactly when there are no words |
| `Analyzer.AnalyzeSpec` | api/python/analyze.py:88-113 | `characters` is the text's length; `uniqueWords <= words` and both are 0 together; at least one sentence; reading time exactly `max(0.2, words / 200)`; score in [-1, 1] and the label read from the unrounded score; at most 8 keywords, each a token longer than 5 characters |
| `Analyzer.UnterminatedTextIsOneSentence` | api/python/analyze.py:93 | a text without terminators reports one sentence |
| `Analyzer.NoHitsIsNeutral` | api/python/analyze.py:99-108 | without lexicon hits the score is 0 and the label neutral |
| `Analyzer.HandleText` | api/python/analyze.py:176-185 | the request is analysed exactly when the field is a string that is not blank; the answer is then exactly the analysis of the stripped text, whose length is at least 1; otherwise it is the fixed error message |
| `Analyzer.StripOnlyChangesCharacters` | api/python/analyze.py:185 | analysing `text.strip()` instead of `text` changes only the character count |

## Left out

- The HTTP layer is not modelled: `Handler`, `do_OPTIONS`, the content-type check, the content-length parsing, the body read, JSON decoding, `_json_response`, `log_message` and `server_version`. Only the strip/non-blank guard of `do_POST` is kept, as `Analyzer.HandleText`.
- `Analyzer.HandleText` starts from a request body already decoded to a JSON object. A body that decodes to anything else (`[]`, `"x"`, `5`, `null`) makes `payload.get("text")` raise `AttributeError`, so the handler fails without the fixed error message; that crash is not modelled.
- `Analyzer.HandleText` folds every `text` value that is not a string (absent, `null`, a number, ...) into one `NotAString` case, because all of them get the same answer.
- `round(..., 2)` on the reading time and the score is not modelled. Both are kept as exact rationals, and every property is stated before rounding.
- Binary floating point is not modelled. `words / 200` and the hit balance are exact real divisions.
- `Chars.IsWordChar` covers only part of Python's Unicode `\w` table: ASCII letters and digits, `_`, and the Cyrillic letters U+0400–U+0481 and U+048A–U+04FF. Every other character is treated as a separator: accented Latin letters, Greek and other scripts, and non-ASCII digits. For example the model tokenizes "café" as "caf".
- `Chars.Lower` covers only part of the `str.lower` table: ASCII and the basic Cyrillic capitals U+0400–U+042F. Other characters are left unchanged. Lowercase mappings that produce two characters (such as U+0130) are not modelled.
- The Python `re` engine is not modelled as such. Its behaviour on the two patterns is derived as described above and modelled by explicit scanners.
- Texts holding lone surrogate code points are not modelled. A JSON escape such as `"\ud800"` puts one into `text`, and Python's `len` counts it, but a Dafny `string` is a sequence of Unicode scalar values and cannot hold it. On every other text `characters` is the same count as Python's `len`.
