/**
 * The stylesheet colour helpers of `CustomStyledButton` in the older
 * revisions: finding the first `background-color: #rrggbb` of a Qt style
 * sheet and rewriting it (Gif_Animation_Sampler_v0515.py and
 * Gif_Animation_Sampler_v06302-fix2.py).
 *
 * The pattern `background-color:\s*(#[0-9a-fA-F]{6})` with
 * `re.IGNORECASE` is modelled by `MatchAt`: the property name letter by
 * letter without regard to case, then the longest run of whitespace, then
 * `#` and six hex digits. Because `#` is not whitespace, backtracking into
 * the whitespace run can never produce another match, so the longest run
 * is the only one to try.
 */
module StyleSheet {
  import opened PyText

  /** The literal part of the pattern. */
  const Property: string := "background-color:"

  /**
   * Under `re.IGNORECASE`, the text character `c` matches the pattern
   * character `p` (a lower-case letter or punctuation): itself, its upper
   * case, and for `k` also the Kelvin sign, which Python folds to `k`.
   */
  predicate SameLetter(c: char, p: char)
  {
    c == p || ('a' <= p <= 'z' && c as int == p as int - 32) || (p == 'k' && c == '\U{212A}')
  }

  /** The property name starts at `i`. */
  predicate PropertyAt(s: string, i: int)
  {
    0 <= i && i + |Property| <= |s| && forall j :: 0 <= j < |Property| ==> SameLetter(s[i + j], Property[j])
  }

  predicate IsHexDigit(c: char)
  {
    '0' <= c <= '9' || 'a' <= c <= 'f' || 'A' <= c <= 'F'
  }

  /** `#` and six hex digits start at `h`. */
  predicate ColourAt(s: string, h: int)
  {
    0 <= h && h + 7 <= |s| && s[h] == '#' && forall q :: h < q < h + 7 ==> IsHexDigit(s[q])
  }

  /** A colour as the pattern's group captures it. */
  predicate IsColour(c: string)
  {
    |c| == 7 && ColourAt(c, 0)
  }

  /** Where the `#` of a match starting at `i` has to be: after the whitespace that follows the property name. */
  function HashAt(s: string, i: int): nat
    requires PropertyAt(s, i)
  {
    SkipSpaces(s, i + |Property|)
  }

  /** The pattern matches at `i`. */
  predicate MatchAt(s: string, i: int)
  {
    PropertyAt(s, i) && ColourAt(s, HashAt(s, i))
  }

  /** A search result: no match, or the position of one. */
  datatype Found = Missing | At(pos: nat)

  /** The leftmost match at or after `i`, as `re.search` finds it. */
  function FirstMatch(s: string, i: nat): (r: Found)
    requires i <= |s|
    ensures r.At? ==> i <= r.pos && MatchAt(s, r.pos) && forall j :: i <= j < r.pos ==> !MatchAt(s, j)
    ensures r.Missing? ==> forall j :: i <= j ==> !MatchAt(s, j)
    decreases |s| - i
  {
    if i == |s| then Missing
    else if MatchAt(s, i) then At(i)
    else FirstMatch(s, i + 1)
  }

  /** A colour extracted from a style sheet, or none. */
  datatype Hex = NoColour | Colour(hex: string)

  /**
   * `_extract_background_color_hex` of Gif_Animation_Sampler_v0515.py:
   * the colour of the leftmost match (`findall(...)[0]`), as written in the
   * text, or none when nothing matches.
   */
  function ExtractBackground(s: string): Hex
  {
    if s == [] then NoColour
    else match FirstMatch(s, 0)
      case Missing => NoColour
      case At(p) => Colour(s[HashAt(s, p)..HashAt(s, p) + 7])
  }

  /**
   * Extraction finds a colour exactly when the pattern matches somewhere,
   * and then it is the colour of the leftmost match.
   */
  lemma ExtractBackgroundRule(s: string)
    ensures var r := ExtractBackground(s);
      && (r.Colour? <==> exists i :: 0 <= i <= |s| && MatchAt(s, i))
      && (r.Colour? ==> (IsColour(r.hex)
        && exists p :: (0 <= p <= |s| && MatchAt(s, p) && (forall j :: 0 <= j < p ==> !MatchAt(s, j))
          && r.hex == s[HashAt(s, p)..HashAt(s, p) + 7])))
  {
    if s != [] && FirstMatch(s, 0).At? {
      var p := FirstMatch(s, 0).pos;
      var h := HashAt(s, p);
      assert ColourAt(s, h);
      var x := s[h..h + 7];
      assert IsColour(x) by {
        forall q | 0 < q < 7 ensures IsHexDigit(x[q]) {
          assert x[q] == s[h + q];
        }
      }
    }
  }

  /** The index of the first `c` in `s`, or `|s|`. */
  function FirstIndex(s: string, c: char): (i: nat)
    ensures i <= |s| && (i < |s| ==> s[i] == c)
    ensures forall q :: 0 <= q < i ==> s[q] != c
  {
    if s == [] then 0
    else if s[0] == c then 0
    else 1 + FirstIndex(s[1..], c)
  }

  /** The index of the last `c` in `s`, or -1. */
  function LastIndex(s: string, c: char): (i: int)
    ensures -1 <= i < |s| && (i >= 0 ==> s[i] == c)
    ensures forall q :: i < q < |s| ==> s[q] != c
  {
    if s == [] then -1
    else if s[|s| - 1] == c then |s| - 1
    else LastIndex(s[..|s| - 1], c)
  }

  /**
   * The text `re.search(r'\{(.*)\}', s, re.DOTALL)` captures, or all of
   * `s` when it finds nothing: from after the first `{` to before the last
   * `}`, when that `}` comes after the `{`.
   */
  function SearchArea(s: string): (r: string)
    ensures (forall q :: 0 <= q < |s| ==> s[q] != '{') ==> r == s
    ensures r != s ==> exists o, e :: (0 <= o < e < |s| && s[o] == '{' && s[e] == '}' && r == s[o + 1..e]
      && (forall q :: 0 <= q < o ==> s[q] != '{') && (forall q :: e < q < |s| ==> s[q] != '}'))
  {
    var o := FirstIndex(s, '{');
    var e := LastIndex(s, '}');
    if o < e then s[o + 1..e] else s
  }

  /**
   * `_extract_background_color_hex` of Gif_Animation_Sampler_v06302-fix2.py:
   * the same search, inside the braces of a rule only.
   */
  function ExtractInBraces(s: string): (r: Hex)
    ensures r.Colour? ==> IsColour(r.hex)
    ensures s != [] ==> r == ExtractBackground(SearchArea(s))
  {
    ExtractBackgroundRule(SearchArea(s));
    if s == [] then NoColour else ExtractBackground(SearchArea(s))
  }

  /** A style sheet without a rule gives the same colour under both revisions. */
  lemma ExtractWithoutBraces(s: string)
    requires forall q :: 0 <= q < |s| ==> s[q] != '{'
    ensures ExtractInBraces(s) == ExtractBackground(s)
  {
  }

  /** The text appended when no colour is present. */
  function Appended(c: string): string
  {
    " " + Property + " " + c + ";"
  }

  /** The style sheet with a separating `;` added, as the fallback branch of the rewrite prepares it. */
  function Terminated(s: string): string
  {
    var t := Strip(s);
    if s != [] && !(t != [] && t[|t| - 1] == ';') then s + ";" else s
  }

  /**
   * `_replace_background_color_in_style(s, c)` (the same in both older
   * revisions): the first match keeps its property name and spacing and
   * gets `c` as colour; without a match, `background-color: c;` is
   * appended after a `;`, and the result is stripped.
   */
  function Replace(s: string, c: string): string
  {
    match FirstMatch(s, 0)
    case At(p) => var h := HashAt(s, p); s[..h] + c + s[h + 7..]
    case Missing => Strip(Strip(Terminated(s)) + Appended(c))
  }

  /** A match may start at `i` and lie before the window `[a, b)` closes exactly when it does so in the window. */
  lemma MatchWindow(y: string, a: nat, b: nat, j: nat)
    requires a <= j <= b <= |y|
    ensures MatchAt(y[a..b], j - a) <==> MatchAt(y, j) && HashAt(y, j) + 7 <= b
  {
    var x := y[a..b];
    forall q | a <= q < b ensures x[q - a] == y[q] { }
    if j + |Property| <= b {
      assert PropertyAt(x, j - a) <==> PropertyAt(y, j);
      if PropertyAt(y, j) {
        SkipSpacesWindow(y, a, b, j + |Property|);
        var h := HashAt(y, j);
        if h + 7 <= b {
          assert HashAt(x, j - a) == h - a;
          forall q | h - a <= q < h - a + 7 ensures x[q] == y[q + a] { }
          assert ColourAt(x, h - a) <==> ColourAt(y, h);
        }
      }
    } else if PropertyAt(y, j) {
      assert HashAt(y, j) >= j + |Property|;
    }
  }

  /** `t` is `s` with some hex digits at or after `from` changed into other hex digits. */
  predicate HexEdit(s: string, t: string, from: int)
  {
    |s| == |t| && forall q :: 0 <= q < |s| ==> s[q] == t[q] || (from <= q && IsHexDigit(s[q]) && IsHexDigit(t[q]))
  }

  /** Changing hex digits after the property name of a would-be match does not change whether it matches, nor where its `#` is. */
  lemma HexEditKeepsMatch(s: string, t: string, from: int, i: int)
    requires HexEdit(s, t, from) && 0 <= i && i + |Property| <= from
    ensures PropertyAt(s, i) <==> PropertyAt(t, i)
    ensures PropertyAt(s, i) ==> HashAt(s, i) == HashAt(t, i)
    ensures MatchAt(s, i) <==> MatchAt(t, i)
  {
    forall q | 0 <= q < |s| ensures IsSpace(s[q]) == IsSpace(t[q]) {
      if s[q] != t[q] {
        assert IsHexDigit(s[q]) && IsHexDigit(t[q]);
      }
    }
    if i + |Property| <= |s| {
      assert forall q :: i <= q < i + |Property| ==> s[q] == t[q];
    }
    if PropertyAt(s, i) {
      SkipSpacesAlike(s, t, i + |Property|);
      var h := HashAt(s, i);
      if h + 7 <= |s| {
        assert s[h] == '#' <==> t[h] == '#' by {
          if s[h] != t[h] { assert IsHexDigit(s[h]) && IsHexDigit(t[h]); }
        }
        forall q | h < q < h + 7 ensures IsHexDigit(s[q]) <==> IsHexDigit(t[q]) { }
      }
    }
  }

  /** When the style sheet has a colour, the rewrite changes its six digits and nothing else. */
  lemma ReplaceOnlyFirst(s: string, c: string)
    requires IsColour(c) && FirstMatch(s, 0).At?
    ensures var h := HashAt(s, FirstMatch(s, 0).pos); var t := Replace(s, c);
      && |t| == |s| && t[h..h + 7] == c
      && (forall q :: 0 <= q < |s| && !(h < q < h + 7) ==> t[q] == s[q])
  {
    var p := FirstMatch(s, 0).pos;
    var h := HashAt(s, p);
    assert MatchAt(s, p);
    assert Replace(s, c) == s[..h] + c + s[h + 7..];
    Splice(s, c, h);
  }

  /** Writing seven characters over positions `h` to `h + 6` changes those and nothing else. */
  lemma Splice(s: string, c: string, h: nat)
    requires |c| == 7 && h + 7 <= |s|
    ensures var t := s[..h] + c + s[h + 7..];
      && |t| == |s| && t[h..h + 7] == c
      && (forall q :: 0 <= q < |s| && !(h <= q < h + 7) ==> t[q] == s[q])
  {
  }

  /** Writing over a text the characters already there gives it back. */
  lemma SpliceSame(s: string, c: string, h: nat)
    requires |c| == 7 && h + 7 <= |s| && s[h..h + 7] == c
    ensures s[..h] + c + s[h + 7..] == s
  {
    assert s[..h] + s[h..h + 7] + s[h + 7..] == s;
  }

  /** Whichever branch the rewrite takes, its result starts its first match with the colour `c`. */
  lemma ReplaceLeavesColourFirst(s: string, c: string)
    requires IsColour(c)
    ensures var t := Replace(s, c);
      FirstMatch(t, 0).At? && t[HashAt(t, FirstMatch(t, 0).pos)..HashAt(t, FirstMatch(t, 0).pos) + 7] == c
  {
    if FirstMatch(s, 0).At? {
      ReplaceKeepsFirstMatch(s, c);
    } else {
      ReplaceAppendsColour(s, c);
    }
  }

  /** With a colour in `s`, the rewrite keeps the first match where it was and gives it the colour `c`. */
  lemma ReplaceKeepsFirstMatch(s: string, c: string)
    requires IsColour(c) && FirstMatch(s, 0).At?
    ensures var p := FirstMatch(s, 0).pos; var t := Replace(s, c);
      && FirstMatch(t, 0) == At(p) && HashAt(t, p) == HashAt(s, p)
      && t[HashAt(s, p)..HashAt(s, p) + 7] == c
  {
    var p := FirstMatch(s, 0).pos;
    var h := HashAt(s, p);
    assert MatchAt(s, p);
    var t := s[..h] + c + s[h + 7..];
    assert Replace(s, c) == t;
    SpliceHexEdit(s, c, h);
    EditKeepsFirstMatch(s, t, h + 1, p);
    Splice(s, c, h);
  }

  /** Writing a colour over a colour only changes hex digits after the `#`. */
  lemma SpliceHexEdit(s: string, c: string, h: nat)
    requires IsColour(c) && ColourAt(s, h)
    ensures HexEdit(s, s[..h] + c + s[h + 7..], h + 1)
  {
    var t := s[..h] + c + s[h + 7..];
    Splice(s, c, h);
    forall q | h <= q < h + 7 ensures s[q] == t[q] || (h + 1 <= q && IsHexDigit(s[q]) && IsHexDigit(t[q])) {
      assert t[q] == t[h..h + 7][q - h] == c[q - h];
    }
  }

  /** A hex edit after the property name of the first match keeps that match first. */
  lemma EditKeepsFirstMatch(s: string, t: string, from: int, p: nat)
    requires HexEdit(s, t, from) && p + |Property| <= from && p <= |s|
    requires MatchAt(s, p) && forall j :: 0 <= j < p ==> !MatchAt(s, j)
    ensures FirstMatch(t, 0) == At(p) && HashAt(t, p) == HashAt(s, p)
  {
    forall j | 0 <= j < p ensures !MatchAt(t, j) {
      HexEditKeepsMatch(s, t, from, j);
    }
    HexEditKeepsMatch(s, t, from, p);
  }

  /** Without a colour in `s`, the appended colour is the first match of the rewrite. */
  lemma ReplaceAppendsColour(s: string, c: string)
    requires IsColour(c) && FirstMatch(s, 0).Missing?
    ensures var t := Replace(s, c);
      FirstMatch(t, 0).At? && t[HashAt(t, FirstMatch(t, 0).pos)..HashAt(t, FirstMatch(t, 0).pos) + 7] == c
  {
    var u := Strip(Terminated(s));
    var t := Replace(s, c);
    assert t == Strip(u + Appended(c));
    if s == [] {
      ReplaceEmpty(c);
      AppendedMatches(t, 0, c);
      assert FirstMatch(t, 0) == At(0);
    } else {
      TerminatedEnds(s);
      TerminatedHasNoMatch(s);
      StripHasNoMatch(Terminated(s));
      var w := u + Appended(c);
      assert w[0] == u[0] && w[|w| - 1] == ';';
      StripKeeps(w);
      AppendedAfter(u, c);
    }
  }

  /** An empty style sheet becomes the bare declaration. */
  lemma ReplaceEmpty(c: string)
    requires IsColour(c)
    ensures Replace("", c) == Property + " " + c + ";"
  {
    var r := Property + " " + c + ";";
    assert FirstMatch("", 0) == Missing;
    assert Terminated("") == "";
    assert Strip("") == "";
    assert Strip(Terminated("")) + Appended(c) == " " + r;
    StripTail(r);
  }

  /** For a non-empty style sheet, the prepared text strips to one that ends with `;`. */
  lemma TerminatedEnds(s: string)
    requires s != []
    ensures var u := Strip(Terminated(s)); u != [] && u[|u| - 1] == ';'
  {
    if Terminated(s) != s {
      StripEndsWith(s, ';');
    }
  }

  /** Adding the `;` creates no match. */
  lemma TerminatedHasNoMatch(s: string)
    requires FirstMatch(s, 0).Missing?
    ensures forall j :: 0 <= j ==> !MatchAt(Terminated(s), j)
  {
    var s1 := Terminated(s);
    if s1 != s {
      assert s1[0..|s|] == s;
      forall j | 0 <= j <= |s| ensures !MatchAt(s1, j) {
        MatchStopsAtSemicolon(s1, |s|, j);
        MatchWindow(s1, 0, |s|, j);
      }
    }
  }

  /** Stripping creates no match. */
  lemma StripHasNoMatch(s: string)
    requires forall j :: 0 <= j ==> !MatchAt(s, j)
    ensures forall j :: 0 <= j ==> !MatchAt(Strip(s), j)
  {
    var a := SkipSpaces(s, 0);
    var b := TrimEnd(s, a, |s|);
    assert Strip(s) == s[a..b];
    forall j | 0 <= j ensures !MatchAt(s[a..b], j) {
      NoMatchInWindow(s, a, b, j);
    }
  }

  /** A window of a text has a match only where the text has one. */
  lemma NoMatchInWindow(s: string, a: nat, b: nat, j: nat)
    requires a <= b <= |s| && !MatchAt(s, a + j)
    ensures !MatchAt(s[a..b], j)
  {
    if a + j <= b {
      MatchWindow(s, a, b, a + j);
    }
  }

  /** After a text ending in `;` without a match, the appended colour is the first match. */
  lemma AppendedAfter(u: string, c: string)
    requires IsColour(c) && u != [] && u[|u| - 1] == ';'
    requires forall j :: 0 <= j ==> !MatchAt(u, j)
    ensures var t := u + Appended(c);
      FirstMatch(t, 0) == At(|u| + 1) && MatchAt(t, |u| + 1) && t[HashAt(t, |u| + 1)..HashAt(t, |u| + 1) + 7] == c
  {
    var t := u + Appended(c);
    var i := |u| + 1;
    assert t[i..] == Property + " " + c + ";";
    AppendedMatches(t, i, c);
    NoMatchBeforeAppended(u, c);
  }

  /** Nothing in `u` nor the blank after it starts a match of `u + Appended(c)`. */
  lemma NoMatchBeforeAppended(u: string, c: string)
    requires u != [] && u[|u| - 1] == ';'
    requires forall j :: 0 <= j ==> !MatchAt(u, j)
    ensures forall j :: 0 <= j <= |u| ==> !MatchAt(u + Appended(c), j)
  {
    var t := u + Appended(c);
    assert !PropertyAt(t, |u|) by {
      assert t[|u|] == ' ' && !SameLetter(' ', Property[0]);
    }
    var z := |u| - 1;
    assert t[0..z] == u[0..z];
    forall j | 0 <= j < |u| ensures !MatchAt(t, j) {
      NoMatchBeforeSemicolon(t, u, z, j);
    }
  }

  /** Two texts that agree up to a `;` they share have the same matches before it. */
  lemma NoMatchBeforeSemicolon(t: string, u: string, z: nat, j: nat)
    requires z < |t| && z < |u| && t[z] == ';' && u[z] == ';' && t[0..z] == u[0..z]
    requires j <= z && !MatchAt(u, j)
    ensures !MatchAt(t, j)
  {
    MatchStopsAtSemicolon(t, z, j);
    MatchWindow(t, 0, z, j);
    MatchWindow(u, 0, z, j);
  }

  /** Stripping the leading blank of `" " + r` when `r` neither starts nor ends with whitespace. */
  lemma StripTail(r: string)
    requires r != [] && !IsSpace(r[0]) && !IsSpace(r[|r| - 1])
    ensures Strip(" " + r) == r
  {
    var w := " " + r;
    assert SkipSpaces(w, 1) == 1;
    assert SkipSpaces(w, 0) == 1;
    assert TrimEnd(w, 1, |w|) == |w|;
  }

  /** The appended `background-color: c;` is a match with colour `c`. */
  lemma AppendedMatches(t: string, i: nat, c: string)
    requires IsColour(c) && i + |Property| + 9 == |t|
    requires t[i..] == Property + " " + c + ";"
    ensures MatchAt(t, i) && HashAt(t, i) == i + |Property| + 1
    ensures t[HashAt(t, i)..HashAt(t, i) + 7] == c
  {
    var r := Property + " " + c + ";";
    forall q | 0 <= q < |r| ensures t[i + q] == r[q] {
      assert t[i..][q] == t[i + q];
    }
    assert PropertyAt(t, i) by {
      forall j | 0 <= j < |Property| ensures SameLetter(t[i + j], Property[j]) {
        assert r[j] == Property[j];
      }
    }
    var k := i + |Property|;
    assert t[k] == ' ' && t[k + 1] == '#';
    assert SkipSpaces(t, k + 1) == k + 1;
    assert HashAt(t, i) == k + 1;
    assert t[k + 1..k + 8] == c by {
      forall q | 0 <= q < 7 ensures t[k + 1 + q] == c[q] {
        assert r[|Property| + 1 + q] == c[q];
      }
    }
  }

  /** A match starting before a `;` ends before it: `;` is no letter of the name, no whitespace, no `#` and no digit. */
  lemma MatchStopsAtSemicolon(t: string, z: nat, j: nat)
    requires z < |t| && t[z] == ';' && j <= z
    ensures MatchAt(t, j) ==> HashAt(t, j) + 7 <= z
  {
    if MatchAt(t, j) {
      var h := HashAt(t, j);
      forall q | j <= q < j + |Property| ensures t[q] != ';' {
        assert SameLetter(t[q], Property[q - j]);
      }
      forall q | h < q < h + 7 ensures t[q] != ';' {
        assert IsHexDigit(t[q]);
      }
    }
  }

  /** Extracting after the rewrite gives back the colour written. */
  lemma ReplaceThenExtract(s: string, c: string)
    requires IsColour(c)
    ensures ExtractBackground(Replace(s, c)) == Colour(c)
  {
    ReplaceLeavesColourFirst(s, c);
    ExtractFirst(Replace(s, c), c);
  }

  /** Extraction reads the colour of the first match. */
  lemma ExtractFirst(t: string, c: string)
    requires FirstMatch(t, 0).At?
    requires var p := FirstMatch(t, 0).pos; t[HashAt(t, p)..HashAt(t, p) + 7] == c
    ensures ExtractBackground(t) == Colour(c)
  {
    assert MatchAt(t, FirstMatch(t, 0).pos);
  }

  /** Rewriting with the same colour twice is rewriting once. */
  lemma ReplaceIdempotent(s: string, c: string)
    requires IsColour(c)
    ensures Replace(Replace(s, c), c) == Replace(s, c)
  {
    ReplaceLeavesColourFirst(s, c);
    var t := Replace(s, c);
    var p := FirstMatch(t, 0).pos;
    var h := HashAt(t, p);
    assert MatchAt(t, p);
    assert Replace(t, c) == t[..h] + c + t[h + 7..];
    SpliceSame(t, c, h);
  }
}
