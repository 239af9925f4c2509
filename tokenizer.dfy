/**
 * `_tokenize`: `re.findall(r"\b[\w'-]+\b", text.lower())`.
 *
 * The pattern can only match inside a maximal run of `[\w'-]` characters.
 * Because `'` and `-` are not `\w`, the leading `\b` first holds before the
 * run's first `\w` character, so a match starts there. The greedy `+` then
 * takes the run to its end and backs off only to the last position where
 * `\b` holds, which is after the run's last `\w` character (boundaries
 * inside the run, as around the `-` of "rock-n-roll", are passed over). The
 * leftover tail of `'` and `-` never reaches another `\b`. So each run
 * yields exactly one token, the run stripped of its leading and trailing
 * `'` and `-`, or none when the run has no `\w` character at all. The scanner below reads the text once,
 * left to right, collecting the current run.
 */
module Tokenizer {
  import opened Chars

  /** The part of a run that the two `\b` anchors admit: leading `'`/`-` dropped. */
  function DropLeading(run: string): (t: string)
    ensures |t| <= |run| && t == run[|run| - |t|..]
    ensures forall i :: 0 <= i < |run| - |t| ==> !IsWordChar(run[i])
    ensures t == [] || IsWordChar(t[0])
  {
    if run == [] || IsWordChar(run[0]) then run else DropLeading(run[1..])
  }

  /** Trailing `'`/`-` dropped. */
  function DropTrailing(run: string): (t: string)
    ensures |t| <= |run| && t == run[..|t|]
    ensures forall i :: |t| <= i < |run| ==> !IsWordChar(run[i])
    ensures t == [] || IsWordChar(t[|t| - 1])
  {
    if run == [] || IsWordChar(run[|run| - 1]) then run else DropTrailing(run[..|run| - 1])
  }

  /** Non-empty, and starting and ending with a `\w` character, as the two `\b` anchors demand. */
  predicate Anchored(t: string) {
    |t| > 0 && IsWordChar(t[0]) && IsWordChar(t[|t| - 1])
  }

  /** A run without its leading and trailing `'`/`-`. */
  function Stripped(run: string): (t: string)
    ensures |t| <= |run|
    ensures t == [] || Anchored(t)
  {
    var d := DropLeading(run);
    var t := DropTrailing(d);
    assert t == [] || t[0] == d[0];
    t
  }

  /** The match found inside one maximal run of `[\w'-]`, if any. */
  function Emit(run: string): (r: seq<string>)
    ensures |r| <= 1
    ensures forall i :: 0 <= i < |r| ==> Anchored(r[i])
  {
    var t := Stripped(run);
    if t == [] then [] else [t]
  }

  /**
   * The scanner: `run` holds the `[\w'-]` characters read since the last
   * separator; a separator or the end of the text closes the run.
   */
  function Scan(s: string, run: string): (r: seq<string>)
    ensures forall i :: 0 <= i < |r| ==> Anchored(r[i])
    decreases |s|
  {
    if s == [] then Emit(run)
    else if IsTokenChar(s[0]) then Scan(s[1..], run + [s[0]])
    else Emit(run) + Scan(s[1..], [])
  }

  /** `re.findall(r"\b[\w'-]+\b", s)`. */
  function FindTokens(s: string): (r: seq<string>)
    ensures forall i :: 0 <= i < |r| ==> Anchored(r[i])
  {
    Scan(s, [])
  }

  /** `_tokenize(text)`: the matches in the lowered text. */
  function Tokenize(text: string): (r: seq<string>)
    ensures forall i :: 0 <= i < |r| ==> Anchored(r[i])
  {
    FindTokens(LowerAll(text))
  }

  /**
   * A token as the pattern admits it: non-empty, made of `[\w'-]`
   * characters, starting and ending with a `\w` character.
   */
  predicate IsToken(t: string) {
    Anchored(t) && AllTokenChars(t)
  }

  predicate AllTokenChars(s: string) {
    forall i :: 0 <= i < |s| ==> IsTokenChar(s[i])
  }

  /** The stripped run is a slice of the run, so its characters come from the run. */
  lemma StrippedRunIsSlice(run: string) returns (k: nat)
    ensures k + |Stripped(run)| <= |run|
    ensures forall i :: 0 <= i < |Stripped(run)| ==> Stripped(run)[i] == run[k + i]
  {
    var d := DropLeading(run);
    k := |run| - |d|;
  }

  /** A non-empty stripped run is a well-formed token. */
  lemma StrippedIsToken(run: string)
    requires AllTokenChars(run) && Stripped(run) != []
    ensures IsToken(Stripped(run))
  {
    var d := DropLeading(run);
    var t := Stripped(run);
    var k := StrippedRunIsSlice(run);
    forall i | 0 <= i < |t| ensures IsTokenChar(t[i]) {
      assert t[i] == run[k + i];
    }
    assert t[0] == d[0];
  }

  /** The stripped run of a lower-case run is lower case. */
  lemma StrippedLowered(run: string)
    requires IsLowered(run)
    ensures IsLowered(Stripped(run))
  {
    var t := Stripped(run);
    var k := StrippedRunIsSlice(run);
    forall i | 0 <= i < |t| ensures Lower(t[i]) == t[i] {
      assert t[i] == run[k + i];
    }
  }

  /** What a run yields is a well-formed token with characters taken from the run. */
  lemma EmitWellFormed(run: string)
    requires AllTokenChars(run)
    ensures forall t :: t in Emit(run) ==> IsToken(t)
    ensures IsLowered(run) ==> forall t :: t in Emit(run) ==> IsLowered(t)
  {
    if Stripped(run) != [] {
      StrippedIsToken(run);
      if IsLowered(run) {
        StrippedLowered(run);
      }
    }
  }

  /** A run yields a token exactly when it holds a `\w` character. */
  lemma EmitNonEmptyIff(run: string)
    ensures |Emit(run)| == 1 <==> exists i :: 0 <= i < |run| && IsWordChar(run[i])
    ensures |Emit(run)| <= 1
  {
    var d := DropLeading(run);
    var t := DropTrailing(d);
    if exists i :: 0 <= i < |run| && IsWordChar(run[i]) {
      var i :| 0 <= i < |run| && IsWordChar(run[i]);
      var j := i - (|run| - |d|);
      assert 0 <= j < |d| && d[j] == run[i];
      assert t != [];
    }
  }

  /** Every token the scanner emits is well-formed, and lower case when its input is. */
  lemma {:induction false} ScanWellFormed(s: string, run: string)
    requires AllTokenChars(run)
    ensures forall t :: t in Scan(s, run) ==> IsToken(t)
    ensures IsLowered(s) && IsLowered(run) ==> forall t :: t in Scan(s, run) ==> IsLowered(t)
    decreases |s|
  {
    if s == [] {
      EmitWellFormed(run);
    } else if IsTokenChar(s[0]) {
      assert IsLowered(s) && IsLowered(run) ==> IsLowered(s[1..]) && IsLowered(run + [s[0]]);
      ScanWellFormed(s[1..], run + [s[0]]);
    } else {
      assert IsLowered(s) ==> IsLowered(s[1..]);
      EmitWellFormed(run);
      ScanWellFormed(s[1..], []);
    }
  }

  /**
   * The tokens of `_tokenize`: each is non-empty and lower case, made of
   * `\w`, `'` and `-`, and starts and ends with a `\w` character.
   */
  lemma TokensWellFormed(text: string)
    ensures forall t :: t in Tokenize(text) ==> IsToken(t) && IsLowered(t)
  {
    LowerAllIsLowered(text);
    ScanWellFormed(LowerAll(text), []);
  }

  /** A text that is one run of `[\w'-]` characters yields exactly what `Emit` finds. */
  lemma {:induction false} ScanOneRun(s: string, run: string)
    requires AllTokenChars(s)
    ensures Scan(s, run) == Emit(run + s)
    decreases |s|
  {
    if s == [] {
      assert run + s == run;
    } else {
      assert IsTokenChar(s[0]) && AllTokenChars(s[1..]);
      ScanOneRun(s[1..], run + [s[0]]);
      AppendFirst(run, s);
    }
  }

  lemma AppendFirst(run: string, s: string)
    requires s != []
    ensures run + [s[0]] + s[1..] == run + s
  {
  }

  /**
   * A separator splits the text: the tokens of `a + [c] + b` are those of
   * `a` followed by those of `b`.
   */
  lemma {:induction false} ScanSplits(a: string, c: char, b: string, run: string)
    requires !IsTokenChar(c)
    ensures Scan(a + [c] + b, run) == Scan(a, run) + FindTokens(b)
    decreases |a|
  {
    if a == [] {
      assert a + [c] + b == [c] + b;
    } else {
      assert (a + [c] + b)[1..] == a[1..] + [c] + b;
      ScanSplits(a[1..], c, b, if IsTokenChar(a[0]) then run + [a[0]] else []);
    }
  }

  /**
   * The scanner agrees with the run-by-run reading of the pattern: no
   * tokens in the empty text, one run gives at most its stripped self, and
   * a separator splits the token list. These three facts determine
   * `FindTokens` on every text.
   */
  lemma FindTokensCharacterized(a: string, c: char, b: string)
    ensures FindTokens([]) == []
    ensures AllTokenChars(a) ==> FindTokens(a) == Emit(a)
    ensures !IsTokenChar(c) ==> FindTokens(a + [c] + b) == FindTokens(a) + FindTokens(b)
  {
    assert Stripped([]) == [];
    if AllTokenChars(a) {
      ScanOneRun(a, []);
      assert [] + a == a;
    }
    if !IsTokenChar(c) {
      ScanSplits(a, c, b, []);
    }
  }

  /** Lowering before or after scanning gives the same tokens. */
  lemma {:induction false} ScanLowerCommutes(s: string, run: string)
    ensures Scan(LowerAll(s), LowerAll(run)) == LowerEach(Scan(s, run))
    decreases |s|
  {
    if s == [] {
      EmitLowerCommutes(run);
    } else {
      LowerKeepsClass(s[0]);
      assert LowerAll(s)[1..] == LowerAll(s[1..]);
      if IsTokenChar(s[0]) {
        assert LowerAll(run) + [LowerAll(s)[0]] == LowerAll(run + [s[0]]);
        ScanLowerCommutes(s[1..], run + [s[0]]);
      } else {
        EmitLowerCommutes(run);
        ScanLowerCommutes(s[1..], []);
        assert LowerAll([]) == [];
        LowerEachAppend(Emit(run), Scan(s[1..], []));
      }
    }
  }

  /** Lower-case every string of a list. */
  function LowerEach(ts: seq<string>): (r: seq<string>)
    ensures |r| == |ts|
    ensures forall i :: 0 <= i < |ts| ==> r[i] == LowerAll(ts[i])
  {
    if ts == [] then [] else [LowerAll(ts[0])] + LowerEach(ts[1..])
  }

  lemma LowerEachAppend(a: seq<string>, b: seq<string>)
    ensures LowerEach(a + b) == LowerEach(a) + LowerEach(b)
  {
  }

  lemma EmitLowerCommutes(run: string)
    ensures Emit(LowerAll(run)) == LowerEach(Emit(run))
  {
    var lr := LowerAll(run);
    forall i | 0 <= i < |run| ensures IsWordChar(lr[i]) == IsWordChar(run[i]) {
      LowerKeepsClass(run[i]);
    }
    DropLeadingLower(run);
    var d := DropLeading(run);
    DropTrailingLower(d);
  }

  lemma {:induction false} DropLeadingLower(run: string)
    ensures DropLeading(LowerAll(run)) == LowerAll(DropLeading(run))
    decreases |run|
  {
    if run != [] {
      LowerKeepsClass(run[0]);
      assert LowerAll(run)[1..] == LowerAll(run[1..]);
      DropLeadingLower(run[1..]);
    }
  }

  lemma {:induction false} DropTrailingLower(run: string)
    ensures DropTrailing(LowerAll(run)) == LowerAll(DropTrailing(run))
    decreases |run|
  {
    if run != [] {
      LowerKeepsClass(run[|run| - 1]);
      assert LowerAll(run)[..|run| - 1] == LowerAll(run[..|run| - 1]);
      DropTrailingLower(run[..|run| - 1]);
    }
  }

  /** `_tokenize(text)` equals the matches of the original text, each lowered. */
  lemma TokenizeLowersMatches(text: string)
    ensures Tokenize(text) == LowerEach(FindTokens(text))
  {
    ScanLowerCommutes(text, []);
    assert LowerAll([]) == [];
  }

  /** The empty text has no tokens. */
  lemma EmptyHasNoTokens()
    ensures FindTokens([]) == []
  {
    assert Stripped([]) == [];
  }

  /** A separator in front of a text yields no token of its own. */
  lemma SeparatorFirst(c: char, rest: string)
    requires !IsTokenChar(c)
    ensures FindTokens([c] + rest) == FindTokens(rest)
  {
    assert ([c] + rest)[0] == c && ([c] + rest)[1..] == rest;
    EmptyHasNoTokens();
  }

  /** White space yields no tokens. */
  lemma {:induction false} BlankHasNoTokens(ws: string)
    requires IsBlank(ws)
    ensures FindTokens(ws) == []
    decreases |ws|
  {
    if ws == [] {
      EmptyHasNoTokens();
    } else {
      var c, rest := ws[0], ws[1..];
      assert ws == [c] + rest;
      assert IsSpace(c) && IsBlank(rest);
      SpaceIsSeparator(c);
      SeparatorFirst(c, rest);
      BlankHasNoTokens(rest);
    }
  }

  /** Leading white space changes no token. */
  lemma {:induction false} LeadingBlankKeepsTokens(pre: string, s: string)
    requires IsBlank(pre)
    ensures FindTokens(pre + s) == FindTokens(s)
    decreases |pre|
  {
    if pre != [] {
      SpaceIsSeparator(pre[0]);
      assert pre + s == [pre[0]] + (pre[1..] + s);
      SeparatorFirst(pre[0], pre[1..] + s);
      LeadingBlankKeepsTokens(pre[1..], s);
    } else {
      assert pre + s == s;
    }
  }

  /** Trailing white space changes no token. */
  lemma TrailingBlankKeepsTokens(s: string, post: string)
    requires IsBlank(post)
    ensures FindTokens(s + post) == FindTokens(s)
  {
    if post != [] {
      SpaceIsSeparator(post[0]);
      assert s + post == s + [post[0]] + post[1..];
      ScanSplits(s, post[0], post[1..], []);
      BlankHasNoTokens(post[1..]);
      assert FindTokens(s) + [] == FindTokens(s);
    } else {
      assert s + post == s;
    }
  }

  /** Surrounding white space changes no token. */
  lemma SurroundingBlankKeepsTokens(pre: string, s: string, post: string)
    requires IsBlank(pre) && IsBlank(post)
    ensures FindTokens(pre + s + post) == FindTokens(s)
  {
    LeadingBlankKeepsTokens(pre, s + post);
    assert pre + s + post == pre + (s + post);
    TrailingBlankKeepsTokens(s, post);
  }

  /** `_tokenize` gives the same tokens for a text and for its `strip()`. */
  lemma TokenizeStripped(text: string)
    ensures Tokenize(Strip(text)) == Tokenize(text)
  {
    var pre, post := StripSurrounded(text);
    LowerAllAround(pre, Strip(text), post);
    SurroundingBlankKeepsTokens(pre, LowerAll(Strip(text)), post);
  }

  lemma LowerAllAround(pre: string, mid: string, post: string)
    requires IsBlank(pre) && IsBlank(post)
    ensures LowerAll(pre + mid + post) == pre + LowerAll(mid) + post
  {
    LowerAllAppend(pre + mid, post);
    LowerAllAppend(pre, mid);
    LowerAllBlank(pre);
    LowerAllBlank(post);
  }
}
