/**
 * Character classes the analysis routine takes from Python's runtime:
 * the `\w` class of the `re` module, `str.lower`, `str.isspace` (which
 * decides what `str.strip()` removes), and the sentence terminators.
 *
 * `\w` and `str.lower` are driven by the Unicode database. The model keeps
 * them as two small functions that cover ASCII and the basic Cyrillic block;
 * the rest of the model relies only on the lemmas at the end of this module
 * (lowering is idempotent and keeps a character's class).
 */
module Chars {

  /** A character matched by `\w`: letters, digits and `_`. */
  predicate IsWordChar(c: char)
    ensures IsWordChar(c) ==> !IsSpace(c) && !IsTerminator(c)
  {
    || ('a' <= c <= 'z')
    || ('A' <= c <= 'Z')
    || ('0' <= c <= '9')
    || c == '_'
    // Cyrillic letters; U+0482..U+0489 are a sign and combining marks, not `\w`.
    || ('\U{0400}' <= c <= '\U{0481}')
    || ('\U{048A}' <= c <= '\U{04FF}')
  }

  /** A character of the token class `[\w'-]`. */
  predicate IsTokenChar(c: char) {
    IsWordChar(c) || c == '\'' || c == '-'
  }

  /** The simple lowercase mapping applied by `str.lower`. */
  function Lower(c: char): (r: char)
    ensures r != c ==> IsWordChar(c) && IsWordChar(r)
    ensures IsWordChar(r) <==> IsWordChar(c)
  {
    if 'A' <= c <= 'Z' then (c as int + 32) as char
    else if '\U{0410}' <= c <= '\U{042F}' then (c as int + 32) as char
    else if '\U{0400}' <= c <= '\U{040F}' then (c as int + 80) as char
    else c
  }

  /** `str.lower` on a whole string: the mapping applied to each character. */
  function LowerAll(s: string): (r: string)
    ensures |r| == |s|
    ensures forall i :: 0 <= i < |s| ==> r[i] == Lower(s[i])
  {
    if s == [] then [] else [Lower(s[0])] + LowerAll(s[1..])
  }

  /** Every character of `s` is already lower case. */
  predicate IsLowered(s: string) {
    forall i :: 0 <= i < |s| ==> Lower(s[i]) == s[i]
  }

  /** The characters `str.isspace` accepts, and so the ones `str.strip()` removes. */
  predicate IsSpace(c: char)
    ensures IsSpace(c) ==> !IsTerminator(c) && c != '\'' && c != '-'
  {
    || ('\U{0009}' <= c <= '\U{000D}')
    || ('\U{001C}' <= c <= '\U{001F}')
    || c == ' '
    || c == '\U{0085}'
    || c == '\U{00A0}'
    || c == '\U{1680}'
    || ('\U{2000}' <= c <= '\U{200A}')
    || c == '\U{2028}'
    || c == '\U{2029}'
    || c == '\U{202F}'
    || c == '\U{205F}'
    || c == '\U{3000}'
  }

  /** A sentence terminator of the pattern `[.!?]+`. */
  predicate IsTerminator(c: char) {
    c == '.' || c == '!' || c == '?'
  }

  /** Every character of `s` is white space. */
  predicate IsBlank(s: string) {
    forall i :: 0 <= i < |s| ==> IsSpace(s[i])
  }

  /** `s` with its leading white space removed. */
  function TrimStart(s: string): (r: string)
    ensures |r| <= |s| && r == s[|s| - |r|..]
    ensures IsBlank(s[..|s| - |r|])
    ensures r == [] || !IsSpace(r[0])
  {
    if s == [] || !IsSpace(s[0]) then s else TrimStart(s[1..])
  }

  /** `s` with its trailing white space removed. */
  function TrimEnd(s: string): (r: string)
    ensures |r| <= |s| && r == s[..|r|]
    ensures IsBlank(s[|r|..])
    ensures r == [] || !IsSpace(r[|r| - 1])
  {
    if s == [] || !IsSpace(s[|s| - 1]) then s
    else
      var r := TrimEnd(s[..|s| - 1]);
      assert s[|r|..] == s[..|s| - 1][|r|..] + [s[|s| - 1]];
      r
  }

  /** `str.strip()`: white space removed at both ends. */
  function Strip(s: string): (r: string)
    ensures |r| <= |s|
    ensures r == [] || (!IsSpace(r[0]) && !IsSpace(r[|r| - 1]))
  {
    var t := TrimStart(s);
    var r := TrimEnd(t);
    assert r == [] || r[0] == t[0];
    r
  }

  /**
   * What `str.strip()` keeps is the slice of `s` between its first and its
   * last non-space character; everything removed is white space.
   */
  lemma StripIsSlice(s: string) returns (i: nat, j: nat)
    ensures i <= j <= |s| && Strip(s) == s[i..j]
    ensures IsBlank(s[..i]) && IsBlank(s[j..])
    ensures Strip(s) == [] || (!IsSpace(Strip(s)[0]) && !IsSpace(Strip(s)[|Strip(s)| - 1]))
  {
    var t := TrimStart(s);
    var r := TrimEnd(t);
    i, j := |s| - |t|, |s| - |t| + |r|;
    SliceOfSuffix(s, i, |r|);
    if r != [] {
      assert r[0] == t[0];
    }
  }

  lemma SliceOfSuffix(s: string, i: nat, k: nat)
    requires i + k <= |s|
    ensures s[i..][..k] == s[i..i + k] && s[i..][k..] == s[i + k..]
  {
  }

  /** A text is its `strip()` with white space on either side. */
  lemma StripSurrounded(s: string) returns (pre: string, post: string)
    ensures s == pre + Strip(s) + post
    ensures IsBlank(pre) && IsBlank(post)
  {
    var i, j := StripIsSlice(s);
    pre, post := s[..i], s[j..];
    SliceInThree(s, i, j);
  }

  lemma SliceInThree(s: string, i: nat, j: nat)
    requires i <= j <= |s|
    ensures s == s[..i] + s[i..j] + s[j..]
  {
  }

  /** `text.strip()` is empty exactly when the text is blank. */
  lemma {:induction false} StripEmptyIffBlank(s: string)
    ensures Strip(s) == [] <==> IsBlank(s)
  {
    var i, j := StripIsSlice(s);
    if Strip(s) == [] {
      forall k | 0 <= k < |s| ensures IsSpace(s[k]) {
        if k < i { assert s[k] == s[..i][k]; }
        else { assert s[k] == s[j..][k - j]; }
      }
    } else {
      assert s[i] == Strip(s)[0];
    }
  }

  /** Stripping twice changes nothing. */
  lemma StripIdempotent(s: string)
    ensures Strip(Strip(s)) == Strip(s)
  {
    var r := Strip(s);
    var _, _ := StripIsSlice(s);
    assert TrimStart(r) == r;
  }

  /** Lowering a character twice is the same as lowering it once. */
  lemma LowerIdempotent(c: char)
    ensures Lower(Lower(c)) == Lower(c)
  {
  }

  /** Lowering keeps a character's class: word characters, `'`, `-` and separators alike. */
  lemma LowerKeepsClass(c: char)
    ensures IsWordChar(Lower(c)) == IsWordChar(c)
    ensures IsTokenChar(Lower(c)) == IsTokenChar(c)
  {
  }

  /** The result of `str.lower` is lower case. */
  lemma LowerAllIsLowered(s: string)
    ensures IsLowered(LowerAll(s))
  {
    forall i | 0 <= i < |s| ensures Lower(LowerAll(s)[i]) == LowerAll(s)[i] {
      LowerIdempotent(s[i]);
    }
  }

  /** White space is neither part of a token nor a terminator, and lowering leaves it alone. */
  lemma SpaceIsSeparator(c: char)
    requires IsSpace(c)
    ensures !IsTokenChar(c) && !IsTerminator(c) && Lower(c) == c
  {
  }

  /** `str.lower` works character by character, so it distributes over concatenation. */
  lemma LowerAllAppend(a: string, b: string)
    ensures LowerAll(a + b) == LowerAll(a) + LowerAll(b)
  {
    var l, r := LowerAll(a + b), LowerAll(a) + LowerAll(b);
    forall i | 0 <= i < |a + b| ensures l[i] == r[i] {
      if i < |a| {
        assert (a + b)[i] == a[i];
      } else {
        assert (a + b)[i] == b[i - |a|];
      }
    }
  }

  /** Lowering leaves white space unchanged. */
  lemma LowerAllBlank(s: string)
    requires IsBlank(s)
    ensures LowerAll(s) == s
  {
    forall i | 0 <= i < |s| ensures LowerAll(s)[i] == s[i] {
      SpaceIsSeparator(s[i]);
    }
  }
}
