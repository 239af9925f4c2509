/**
 * `_sentence_count`: `re.split(r"[.!?]+", text)`, keep the segments whose
 * `strip()` is non-empty, count them, and never answer less than 1.
 */
module Sentences {
  import opened Chars

  /** `s` without its leading run of terminators. */
  function SkipTerminators(s: string): (r: string)
    ensures |r| <= |s| && r == s[|s| - |r|..]
    ensures forall i :: 0 <= i < |s| - |r| ==> IsTerminator(s[i])
    ensures r == [] || !IsTerminator(r[0])
    ensures s != [] && IsTerminator(s[0]) ==> |r| < |s|
  {
    if s == [] || !IsTerminator(s[0]) then s else SkipTerminators(s[1..])
  }

  /**
   * The splitter: `cur` holds the segment read since the last run of
   * terminators; a whole run of terminators closes it, and the end of the
   * text closes the last one (which may be empty, as with `re.split`).
   */
  function SplitFrom(s: string, cur: string): (r: seq<string>)
    ensures |r| >= 1
    decreases |s|
  {
    if s == [] then [cur]
    else if IsTerminator(s[0]) then [cur] + SplitFrom(SkipTerminators(s), [])
    else SplitFrom(s[1..], cur + [s[0]])
  }

  /** `re.split(r"[.!?]+", s)`. */
  function Split(s: string): (r: seq<string>)
    ensures |r| >= 1
  {
    SplitFrom(s, [])
  }

  /** How many segments survive `[s for s in sentences if s.strip()]`. */
  function NonBlankCount(segs: seq<string>): (n: nat)
    ensures n <= |segs|
  {
    if segs == [] then 0
    else (if Strip(segs[0]) != [] then 1 else 0) + NonBlankCount(segs[1..])
  }

  /** `_sentence_count(text)`. */
  function SentenceCount(text: string): (n: nat)
    ensures n >= 1
  {
    var k := NonBlankCount(Split(text));
    if k > 1 then k else 1
  }

  predicate NoTerminator(s: string) {
    forall i :: 0 <= i < |s| ==> !IsTerminator(s[i])
  }

  /** The characters of `s` that are not terminators, in order. */
  function WithoutTerminators(s: string): (r: string)
    ensures NoTerminator(r)
  {
    if s == [] then []
    else if IsTerminator(s[0]) then WithoutTerminators(s[1..])
    else [s[0]] + WithoutTerminators(s[1..])
  }

  /** The segments laid end to end. */
  function Concat(segs: seq<string>): string
  {
    if segs == [] then [] else segs[0] + Concat(segs[1..])
  }

  /** Number of terminator characters in `s`. */
  function TerminatorCount(s: string): nat
  {
    if s == [] then 0 else (if IsTerminator(s[0]) then 1 else 0) + TerminatorCount(s[1..])
  }

  /**
   * Number of maximal runs of terminators in `s`, counted where each run
   * starts; `prev` tells whether the character before `s` was a terminator.
   */
  function TerminatorRuns(s: string, prev: bool): nat
    decreases |s|
  {
    if s == [] then 0
    else (if IsTerminator(s[0]) && !prev then 1 else 0) + TerminatorRuns(s[1..], IsTerminator(s[0]))
  }

  /** Inside a run, the rest of the run starts no new one. */
  lemma {:induction false} TerminatorRunsSkip(s: string)
    ensures TerminatorRuns(s, true) == TerminatorRuns(SkipTerminators(s), false)
    decreases |s|
  {
    if s != [] && IsTerminator(s[0]) {
      TerminatorRunsSkip(s[1..]);
    }
  }

  /** `re.split` cuts once per maximal run of terminators. */
  lemma {:induction false} SplitFromLength(s: string, cur: string)
    ensures |SplitFrom(s, cur)| == 1 + TerminatorRuns(s, false)
    decreases |s|
  {
    if s != [] {
      if IsTerminator(s[0]) {
        TerminatorRunsSkip(s[1..]);
        assert SkipTerminators(s) == SkipTerminators(s[1..]);
        SplitFromLength(SkipTerminators(s), []);
      } else {
        SplitFromLength(s[1..], cur + [s[0]]);
      }
    }
  }

  lemma {:induction false} SkipTerminatorsDropsOnlyTerminators(s: string)
    ensures WithoutTerminators(SkipTerminators(s)) == WithoutTerminators(s)
    ensures s != [] && IsTerminator(s[0]) ==> TerminatorCount(SkipTerminators(s)) < TerminatorCount(s)
    ensures TerminatorCount(SkipTerminators(s)) <= TerminatorCount(s)
    decreases |s|
  {
    if s != [] && IsTerminator(s[0]) {
      SkipTerminatorsDropsOnlyTerminators(s[1..]);
    }
  }

  /**
   * `re.split` loses only the terminators: no segment holds one, the
   * segments laid end to end are the text without its terminators, and
   * there is at most one more segment than there are terminators.
   */
  lemma {:induction false} SplitFromParts(s: string, cur: string)
    requires NoTerminator(cur)
    ensures forall seg :: seg in SplitFrom(s, cur) ==> NoTerminator(seg)
    ensures Concat(SplitFrom(s, cur)) == cur + WithoutTerminators(s)
    ensures |SplitFrom(s, cur)| <= 1 + TerminatorCount(s)
    decreases |s|
  {
    if s == [] {
      assert Concat([cur]) == cur + Concat([]);
    } else if IsTerminator(s[0]) {
      var rest := SkipTerminators(s);
      SplitFromParts(rest, []);
      SkipTerminatorsDropsOnlyTerminators(s);
      assert [cur] + SplitFrom(rest, []) == SplitFrom(s, cur);
      assert Concat([cur] + SplitFrom(rest, [])) == cur + Concat(SplitFrom(rest, []));
      assert [] + WithoutTerminators(rest) == WithoutTerminators(s);
    } else {
      assert NoTerminator(cur + [s[0]]);
      SplitFromParts(s[1..], cur + [s[0]]);
      assert cur + [s[0]] + WithoutTerminators(s[1..]) == cur + WithoutTerminators(s);
    }
  }

  lemma SplitParts(s: string)
    ensures forall seg :: seg in Split(s) ==> NoTerminator(seg)
    ensures Concat(Split(s)) == WithoutTerminators(s)
    ensures 1 <= |Split(s)| <= 1 + TerminatorCount(s)
    ensures |Split(s)| == 1 + TerminatorRuns(s, false)
  {
    SplitFromParts(s, []);
    SplitFromLength(s, []);
    assert [] + WithoutTerminators(s) == WithoutTerminators(s);
  }

  /**
   * A reference count read in one pass: `seen` records whether the piece
   * read since the last terminator holds a non-space character; each such
   * piece is a sentence.
   */
  function OnePassCount(s: string, seen: bool): nat
    decreases |s|
  {
    if s == [] then (if seen then 1 else 0)
    else if IsTerminator(s[0]) then (if seen then 1 else 0) + OnePassCount(s[1..], false)
    else OnePassCount(s[1..], seen || !IsSpace(s[0]))
  }

  /** Extra terminators in a run only add blank pieces, which the one-pass count ignores. */
  lemma {:induction false} OnePassCountSkipRun(s: string)
    ensures OnePassCount(SkipTerminators(s), false) == OnePassCount(s, false)
    decreases |s|
  {
    if s != [] && IsTerminator(s[0]) {
      OnePassCountSkipRun(s[1..]);
    }
  }

  lemma BlankAppend(cur: string, c: char)
    ensures IsBlank(cur + [c]) == (IsBlank(cur) && IsSpace(c))
  {
    if IsBlank(cur + [c]) {
      assert (cur + [c])[|cur|] == c;
      forall i | 0 <= i < |cur| ensures IsSpace(cur[i]) {
        assert (cur + [c])[i] == cur[i];
      }
    }
  }

  /** A segment counts exactly when it is not blank. */
  lemma NonBlankCons(cur: string, segs: seq<string>)
    ensures NonBlankCount([cur] + segs) == (if IsBlank(cur) then 0 else 1) + NonBlankCount(segs)
  {
    StripEmptyIffBlank(cur);
    assert ([cur] + segs)[0] == cur && ([cur] + segs)[1..] == segs;
  }

  /** Skipping a run of terminators starting at a terminator skips the rest of that run. */
  lemma SkipFromTerminator(s: string)
    requires s != [] && IsTerminator(s[0])
    ensures SkipTerminators(s) == SkipTerminators(s[1..])
  {
  }

  /** The split-and-filter count and the one-pass count agree on every text. */
  lemma {:induction false} SplitCountIsOnePassCount(s: string, cur: string)
    ensures NonBlankCount(SplitFrom(s, cur)) == OnePassCount(s, !IsBlank(cur))
    decreases |s|
  {
    if s == [] {
      NonBlankCons(cur, []);
      assert [cur] + [] == [cur];
    } else if IsTerminator(s[0]) {
      SplitCountIsOnePassCount(SkipTerminators(s), []);
      TerminatorStep(s, cur);
    } else {
      SplitCountIsOnePassCount(s[1..], cur + [s[0]]);
      OtherStep(s, cur);
    }
  }

  /** The terminator case of the agreement, given the agreement on what follows the run. */
  lemma TerminatorStep(s: string, cur: string)
    requires s != [] && IsTerminator(s[0])
    requires NonBlankCount(SplitFrom(SkipTerminators(s), [])) == OnePassCount(SkipTerminators(s), false)
    ensures NonBlankCount(SplitFrom(s, cur)) == OnePassCount(s, !IsBlank(cur))
  {
    SplitAtTerminator(s, cur);
    NonBlankCons(cur, SplitFrom(SkipTerminators(s), []));
    OnePassCountAtTerminator(s, !IsBlank(cur));
  }

  lemma SplitAtTerminator(s: string, cur: string)
    requires s != [] && IsTerminator(s[0])
    ensures SplitFrom(s, cur) == [cur] + SplitFrom(SkipTerminators(s), [])
  {
  }

  /** The one-pass count closes the piece at the first terminator and skips the rest of the run. */
  lemma OnePassCountAtTerminator(s: string, seen: bool)
    requires s != [] && IsTerminator(s[0])
    ensures OnePassCount(s, seen) == (if seen then 1 else 0) + OnePassCount(SkipTerminators(s), false)
  {
    SkipFromTerminator(s);
    OnePassCountSkipRun(s[1..]);
  }

  /** The case of any other character, given the agreement on the rest of the text. */
  lemma OtherStep(s: string, cur: string)
    requires s != [] && !IsTerminator(s[0])
    requires NonBlankCount(SplitFrom(s[1..], cur + [s[0]])) == OnePassCount(s[1..], !IsBlank(cur + [s[0]]))
    ensures NonBlankCount(SplitFrom(s, cur)) == OnePassCount(s, !IsBlank(cur))
  {
    BlankAppend(cur, s[0]);
  }

  /** `_sentence_count` is never below 1, and is the non-blank segment count when that is positive. */
  lemma SentenceCountIsReference(text: string)
    ensures SentenceCount(text) == if OnePassCount(text, false) > 1 then OnePassCount(text, false) else 1
    ensures OnePassCount(text, false) >= 1 ==> SentenceCount(text) == OnePassCount(text, false)
  {
    SplitCountIsOnePassCount(text, []);
    assert IsBlank([]);
  }

  /** A text without terminators is one sentence, whatever it holds. */
  lemma NoTerminatorOneSentence(text: string)
    requires NoTerminator(text)
    ensures Split(text) == [text]
    ensures SentenceCount(text) == 1
  {
    NoTerminatorSplit(text, []);
    assert [] + text == text;
  }

  lemma {:induction false} NoTerminatorSplit(s: string, cur: string)
    requires NoTerminator(s)
    ensures SplitFrom(s, cur) == [cur + s]
    decreases |s|
  {
    if s == [] {
      assert cur + s == cur;
    } else {
      NoTerminatorSplit(s[1..], cur + [s[0]]);
      assert cur + [s[0]] + s[1..] == cur + s;
    }
  }

  /**
   * A terminator between two texts separates their sentences: the
   * one-pass count of `a + [t] + b` is the count of `a` plus that of `b`.
   */
  lemma {:induction false} TerminatorSeparates(a: string, t: char, b: string, seen: bool)
    requires IsTerminator(t)
    ensures OnePassCount(a + [t] + b, seen) == OnePassCount(a, seen) + OnePassCount(b, false)
    decreases |a|
  {
    if a == [] {
      assert a + [t] + b == [t] + b;
    } else {
      assert (a + [t] + b)[1..] == a[1..] + [t] + b;
      if IsTerminator(a[0]) {
        TerminatorSeparates(a[1..], t, b, false);
      } else {
        TerminatorSeparates(a[1..], t, b, seen || !IsSpace(a[0]));
      }
    }
  }

  /** Leading white space opens no sentence. */
  lemma {:induction false} LeadingBlankKeepsSentences(ws: string, s: string)
    requires IsBlank(ws)
    ensures OnePassCount(ws + s, false) == OnePassCount(s, false)
    decreases |ws|
  {
    if ws != [] {
      SpaceIsSeparator(ws[0]);
      assert (ws + s)[1..] == ws[1..] + s;
      LeadingBlankKeepsSentences(ws[1..], s);
    } else {
      assert ws + s == s;
    }
  }

  /** Trailing white space closes no extra sentence. */
  lemma {:induction false} TrailingBlankKeepsSentences(s: string, ws: string, seen: bool)
    requires IsBlank(ws)
    ensures OnePassCount(s + ws, seen) == OnePassCount(s, seen)
    decreases |s| + |ws|
  {
    if s != [] {
      assert (s + ws)[1..] == s[1..] + ws;
      TrailingBlankKeepsSentences(s[1..], ws, if IsTerminator(s[0]) then false else seen || !IsSpace(s[0]));
    } else if ws != [] {
      SpaceIsSeparator(ws[0]);
      assert (s + ws)[1..] == [] + ws[1..];
      TrailingBlankKeepsSentences([], ws[1..], seen);
      assert [] + ws[1..] == ws[1..];
    } else {
      assert s + ws == s;
    }
  }

  /** `_sentence_count` gives the same count for a text and for its `strip()`. */
  lemma SentenceCountStripped(text: string)
    ensures SentenceCount(Strip(text)) == SentenceCount(text)
  {
    var pre, post := StripSurrounded(text);
    SurroundingBlankKeepsSentences(pre, Strip(text), post);
    SameOnePassCountSameSentenceCount(Strip(text), text);
  }

  /** `_sentence_count` is a function of the one-pass count. */
  lemma SameOnePassCountSameSentenceCount(a: string, b: string)
    requires OnePassCount(a, false) == OnePassCount(b, false)
    ensures SentenceCount(a) == SentenceCount(b)
  {
    SentenceCountIsReference(a);
    SentenceCountIsReference(b);
  }

  /** White space around a text neither opens nor closes a sentence. */
  lemma SurroundingBlankKeepsSentences(pre: string, mid: string, post: string)
    requires IsBlank(pre) && IsBlank(post)
    ensures OnePassCount(pre + mid + post, false) == OnePassCount(mid, false)
  {
    assert pre + mid + post == pre + (mid + post);
    LeadingBlankKeepsSentences(pre, mid + post);
    TrailingBlankKeepsSentences(mid, post, false);
  }
}
