/**
 This module models the part of JavaScript's `String.prototype.trim` the chat
 relies on: a message or an input is "blank" when trimming it leaves the empty
 string.
 */
module JsText {

  /** The code points `trim` strips: the WhiteSpace code points of ECMA-262
      (tab, vertical tab, form feed, space, no-break space, byte-order mark and
      the other space separators of Unicode category Zs) and its
      LineTerminator code points (line feed, carriage return, line and
      paragraph separator). */
  predicate IsJsSpace(c: char) {
    || c == '\t' || c == '\U{000B}' || c == '\U{000C}' || c == ' '
    || c == '\U{00A0}' || c == '\U{FEFF}' || c == '\U{1680}'
    || ('\U{2000}' <= c <= '\U{200A}')
    || c == '\U{202F}' || c == '\U{205F}' || c == '\U{3000}'
    || c == '\n' || c == '\r' || c == '\U{2028}' || c == '\U{2029}'
  }

  /** Every character of `s` is white space (the empty string included). */
  predicate IsBlank(s: string) {
    forall i :: 0 <= i < |s| ==> IsJsSpace(s[i])
  }

  /** `r` is a slice of `s` with nothing but white space before and after
      it. */
  predicate BetweenBlankRuns(s: string, r: string) {
    exists a, b :: 0 <= a <= b <= |s| && r == s[a..b] && IsBlank(s[..a]) && IsBlank(s[b..])
  }

  /** Drops the leading white space: the result is the longest suffix of `s`
      that does not start with white space. */
  function TrimStart(s: string): (r: string)
    ensures |r| <= |s| && r == s[|s| - |r|..]
    ensures forall i :: 0 <= i < |s| - |r| ==> IsJsSpace(s[i])
    ensures |r| > 0 ==> !IsJsSpace(r[0])
  {
    if |s| > 0 && IsJsSpace(s[0]) then TrimStart(s[1..]) else s
  }

  /** Drops the trailing white space: the result is the longest prefix of `s`
      that does not end with white space. */
  function TrimEnd(s: string): (r: string)
    ensures |r| <= |s| && r == s[..|r|]
    ensures forall i :: |r| <= i < |s| ==> IsJsSpace(s[i])
    ensures |r| > 0 ==> !IsJsSpace(r[|r| - 1])
  {
    if |s| > 0 && IsJsSpace(s[|s| - 1]) then TrimEnd(s[..|s| - 1]) else s
  }

  /** `s.trim()`: the slice of `s` left once the white space before and
      after it is cut off; it neither starts nor ends with white space, and
      is empty exactly when `s` is blank. */
  function Trim(s: string): (r: string)
    ensures r == [] <==> IsBlank(s)
    ensures r != [] ==> !IsJsSpace(r[0]) && !IsJsSpace(r[|r| - 1])
    ensures BetweenBlankRuns(s, r)
  {
    TrimCutsBlankEnds(s);
    TrimEnd(TrimStart(s))
  }

  /** `!s.trim()`, the test the page applies to a message: trimming leaves
      nothing exactly when `s` is blank. */
  function TrimsToEmpty(s: string): (e: bool)
    ensures e <==> IsBlank(s)
  {
    Trim(s) == []
  }

  /** The two halves of `Trim` cut a blank run off each end of `s`. */
  lemma TrimCutsBlankEnds(s: string)
    ensures BetweenBlankRuns(s, TrimEnd(TrimStart(s)))
  {
    var t := TrimStart(s);
    LeadingRunIsBlank(s);
    TrailingRunIsBlank(t);
    CutBlankEnds(s, t, TrimEnd(t));
  }

  /** Cutting a blank prefix off `s`, giving `t`, and then a blank suffix
      off `t`, giving `r`, leaves a slice of `s` between two blank runs. */
  lemma CutBlankEnds(s: string, t: string, r: string)
    requires |t| <= |s| && t == s[|s| - |t|..] && IsBlank(s[..|s| - |t|])
    requires |r| <= |t| && r == t[..|r|] && IsBlank(t[|r|..])
    ensures BetweenBlankRuns(s, r)
  {
    var a := |s| - |t|;
    var b := a + |r|;
    assert r == s[a..b];
    assert s[b..] == t[|r|..];
  }

  /** What `TrimStart` drops is blank. */
  lemma LeadingRunIsBlank(s: string)
    ensures IsBlank(s[..|s| - |TrimStart(s)|])
  {
    var a := |s| - |TrimStart(s)|;
    forall j | 0 <= j < a
      ensures IsJsSpace(s[..a][j])
    {
      assert s[..a][j] == s[j];
    }
  }

  /** What `TrimEnd` drops is blank. */
  lemma TrailingRunIsBlank(t: string)
    ensures IsBlank(t[|TrimEnd(t)|..])
  {
    var b := |TrimEnd(t)|;
    forall j | 0 <= j < |t| - b
      ensures IsJsSpace(t[b..][j])
    {
      assert t[b..][j] == t[b + j];
    }
  }

  /** A concatenation is blank exactly when both parts are. */
  lemma BlankConcat(a: string, b: string)
    ensures IsBlank(a + b) <==> IsBlank(a) && IsBlank(b)
  {
    if IsBlank(a + b) {
      forall i | 0 <= i < |a|
        ensures IsJsSpace(a[i])
      {
        assert a[i] == (a + b)[i];
      }
      forall i | 0 <= i < |b|
        ensures IsJsSpace(b[i])
      {
        assert b[i] == (a + b)[|a| + i];
      }
    }
  }
}
