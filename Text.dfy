/**
 * The Qt string helpers the core relies on: `QChar::isSpace` and
 * `QString::trimmed`, which strips whitespace from both ends of a string.
 */
module Text {

  /** `QChar::isSpace`: the ASCII controls TAB..CR, SPACE, NEL, NBSP and the
      Unicode separators (categories Zs, Zl and Zp). */
  predicate IsSpace(c: char)
  {
    || c == ' ' || ('\t' <= c <= '\r') || c == '\U{85}' || c == '\U{A0}'
    || c == '\U{1680}' || ('\U{2000}' <= c <= '\U{200A}') || c == '\U{2028}' || c == '\U{2029}'
    || c == '\U{202F}' || c == '\U{205F}' || c == '\U{3000}'
  }

  /** True when every character of `s` is whitespace (the empty string included). */
  predicate IsBlank(s: string)
  {
    forall k :: 0 <= k < |s| ==> IsSpace(s[k])
  }

  /** `s` without its leading whitespace. */
  function TrimStart(s: string): (r: string)
    ensures |r| <= |s| && r == s[|s| - |r|..]
    ensures forall k :: 0 <= k < |s| - |r| ==> IsSpace(s[k])
    ensures r == [] || !IsSpace(r[0])
  {
    if s != [] && IsSpace(s[0]) then TrimStart(s[1..]) else s
  }

  /** `s` without its trailing whitespace. */
  function TrimEnd(s: string): (r: string)
    ensures |r| <= |s| && r == s[..|r|]
    ensures forall k :: |r| <= k < |s| ==> IsSpace(s[k])
    ensures r == [] || !IsSpace(r[|r| - 1])
  {
    if s != [] && IsSpace(s[|s| - 1]) then TrimEnd(s[..|s| - 1]) else s
  }

  /** Neither starts nor ends with whitespace. */
  predicate IsTrimmed(s: string)
  {
    s == [] || (!IsSpace(s[0]) && !IsSpace(s[|s| - 1]))
  }

  /** `QString::trimmed`: the result neither starts nor ends with
      whitespace, and it is empty exactly when `s` is blank. */
  function Trim(s: string): (r: string)
    ensures IsTrimmed(r)
    ensures r == [] <==> IsBlank(s)
  {
    TrimEnd(TrimStart(s))
  }

  /** `r` is the slice `s[a..b]`, and all that is cut off before `a` and
      after `b` is whitespace. */
  ghost predicate CutAt(s: string, r: string, a: int, b: int)
  {
    && 0 <= a <= b <= |s| && r == s[a..b]
    && (forall k :: 0 <= k < a ==> IsSpace(s[k]))
    && (forall k :: b <= k < |s| ==> IsSpace(s[k]))
  }

  /** Cutting whitespace off the start of `s` and then off the end of what
      is left cuts only whitespace off the ends of `s`. */
  lemma CutTwice(s: string, t: string, r: string)
    requires |t| <= |s| && t == s[|s| - |t|..]
    requires forall k :: 0 <= k < |s| - |t| ==> IsSpace(s[k])
    requires |r| <= |t| && r == t[..|r|]
    requires forall k :: |r| <= k < |t| ==> IsSpace(t[k])
    ensures CutAt(s, r, |s| - |t|, |s| - |t| + |r|)
  {
    var a := |s| - |t|;
    forall k | a + |r| <= k < |s|
      ensures IsSpace(s[k])
    {
      assert s[k] == t[k - a];
    }
  }

  /** Trimming only cuts whitespace off the ends of `s`. */
  lemma TrimCutsSpaceOnly(s: string)
    ensures exists a, b :: CutAt(s, Trim(s), a, b)
  {
    var t := TrimStart(s);
    CutTwice(s, t, TrimEnd(t));
    assert CutAt(s, Trim(s), |s| - |t|, |s| - |t| + |TrimEnd(t)|);
  }

  /** Trimming leaves a string unchanged exactly when it is already trimmed. */
  lemma TrimFixes(s: string)
    ensures Trim(s) == s <==> IsTrimmed(s)
  {
    if IsTrimmed(s) && s != [] {
      assert TrimStart(s) == s;
      assert TrimEnd(s) == s;
    }
  }

  /** Trimming twice is trimming once. */
  lemma TrimIdempotent(s: string)
    ensures Trim(Trim(s)) == Trim(s)
  {
    TrimFixes(Trim(s));
  }
}
