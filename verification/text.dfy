/**
 * Python's notion of whitespace (`str.isspace`, which is also what `\s`
 * matches in a `str` pattern) and `str.strip()` without arguments, as the
 * stylesheet helpers and `add_keyframe` of the older revisions use them.
 */
module PyText {
  /** `c.isspace()`. */
  predicate IsSpace(c: char)
  {
    || ('\t' <= c <= '\r') || ('\U{1C}' <= c <= '\U{1F}') || c == ' '
    || c == '\U{85}' || c == '\U{A0}' || c == '\U{1680}'
    || ('\U{2000}' <= c <= '\U{200A}') || c == '\U{2028}' || c == '\U{2029}'
    || c == '\U{202F}' || c == '\U{205F}' || c == '\U{3000}'
  }

  /** The index of the first non-space character of `s` at or after `i`, or `|s|`. */
  function SkipSpaces(s: string, i: nat): (j: nat)
    requires i <= |s|
    ensures i <= j <= |s|
    ensures forall q :: i <= q < j ==> IsSpace(s[q])
    ensures j < |s| ==> !IsSpace(s[j])
    decreases |s| - i
  {
    if i < |s| && IsSpace(s[i]) then SkipSpaces(s, i + 1) else i
  }

  /** The index just past the last non-space character of `s[lo..j]`, or `lo`. */
  function TrimEnd(s: string, lo: nat, j: nat): (e: nat)
    requires lo <= j <= |s|
    ensures lo <= e <= j
    ensures forall q :: e <= q < j ==> IsSpace(s[q])
    ensures e > lo ==> !IsSpace(s[e - 1])
    decreases j
  {
    if j > lo && IsSpace(s[j - 1]) then TrimEnd(s, lo, j - 1) else j
  }

  /** `s.strip()`. */
  function Strip(s: string): (r: string)
    ensures r != [] ==> !IsSpace(r[0]) && !IsSpace(r[|r| - 1])
    ensures r == [] <==> forall q :: 0 <= q < |s| ==> IsSpace(s[q])
  {
    var a := SkipSpaces(s, 0);
    var b := TrimEnd(s, a, |s|);
    assert a < |s| ==> a < b;
    s[a..b]
  }

  /** Stripping removes whitespace only: `s` is `Strip(s)` with spaces around it. */
  lemma StripRemovesSpaceOnly(s: string)
    ensures exists a, b :: (0 <= a <= b <= |s| && Strip(s) == s[a..b]
      && (forall q :: 0 <= q < a ==> IsSpace(s[q]))
      && (forall q :: b <= q < |s| ==> IsSpace(s[q])))
  {
    var a := SkipSpaces(s, 0);
    var b := TrimEnd(s, a, |s|);
    assert Strip(s) == s[a..b];
  }

  /** A text that neither starts nor ends with whitespace is left as it is. */
  lemma StripKeeps(s: string)
    requires s == [] || (!IsSpace(s[0]) && !IsSpace(s[|s| - 1]))
    ensures Strip(s) == s
  {
    if s != [] {
      assert SkipSpaces(s, 0) == 0;
      assert TrimEnd(s, 0, |s|) == |s|;
    }
  }

  /** Stripping twice is stripping once. */
  lemma StripIdempotent(s: string)
    ensures Strip(Strip(s)) == Strip(s)
  {
    StripKeeps(Strip(s));
  }

  /** Appending a non-space character leaves a stripped text that ends with it. */
  lemma StripEndsWith(s: string, c: char)
    requires !IsSpace(c)
    ensures var r := Strip(s + [c]); r != [] && r[|r| - 1] == c
  {
    var t := s + [c];
    assert t[|s|] == c;
    var a := SkipSpaces(t, 0);
    assert a <= |s|;
    assert TrimEnd(t, a, |t|) == |t|;
  }

  /** The whitespace run from `x` inside the window `y[a..b]` ends where it ends in `y`, or at the window's end. */
  lemma {:induction false} SkipSpacesWindow(y: string, a: nat, b: nat, x: nat)
    requires a <= x <= b <= |y|
    ensures SkipSpaces(y[a..b], x - a) + a == if SkipSpaces(y, x) <= b then SkipSpaces(y, x) else b
    decreases b - x
  {
    if x < b {
      assert y[a..b][x - a] == y[x];
      if IsSpace(y[x]) {
        SkipSpacesWindow(y, a, b, x + 1);
      }
    }
  }

  /** Texts with whitespace at the same places have the same whitespace runs. */
  lemma {:induction false} SkipSpacesAlike(s: string, t: string, x: nat)
    requires |s| == |t| && x <= |s|
    requires forall q :: 0 <= q < |s| ==> IsSpace(s[q]) == IsSpace(t[q])
    ensures SkipSpaces(s, x) == SkipSpaces(t, x)
    decreases |s| - x
  {
    if x < |s| && IsSpace(s[x]) {
      SkipSpacesAlike(s, t, x + 1);
    }
  }
}
