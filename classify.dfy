/** The line classifiers of the parser. Each regular expression of the source is written out
    as the set of lines it matches with `re.match` (anchored at the start of the line), so that
    the groups it captures can be stated without a regex engine. */
module Classify {

  import opened Wrappers
  import opened Text

  /** A name made of word characters only, at least one. */
  predicate IsWordName(s: string) {
    |s| >= 1 && forall i :: 0 <= i < |s| ==> IsWordChar(s[i])
  }

  /** `_is_proper_varname`: `\w+$`. As in Python, `$` also matches just before a final newline. */
  predicate IsProperVarname(s: string) {
    IsWordName(s) || (|s| >= 2 && s[|s| - 1] == '\n' && IsWordName(s[..|s| - 1]))
  }

  /** `_is_whitespace`: `\s*$`, an empty or whitespace-only line. */
  predicate IsWhitespace(s: string) {
    AllSpace(s)
  }

  /** A whitespace-only line is exactly one that strips to nothing. */
  lemma WhitespaceIffStripsToEmpty(s: string)
    ensures IsWhitespace(s) <==> Strip(s) == []
  {
    if IsWhitespace(s) {
      StripPadded(s, [], []);
      assert s + [] + [] == s;
    }
    if Strip(s) == [] {
      var i, j := StripParts(s);
      assert forall k :: 0 <= k < |s| ==> s[k] == if k < i then s[..i][k] else s[i..][k - i];
    }
  }

  predicate IsCommentMarker(c: char) {
    c == '#' || c == ';'
  }

  /** `RE_COMMENT`, `\s*[#;]\s*(.*)`: when the first character that is not whitespace is `#` or `;`,
      group 1 is the rest of the line after the whitespace that follows the marker, up to the
      first newline (`.` does not match one). */
  function ParseComment(s: string): (r: Option<string>)
    ensures r.Some? ==> '\n' !in r.value && (r.value == [] || !IsSpace(r.value[0]))
  {
    var i := SkipSpace(s, 0);
    if i < |s| && IsCommentMarker(s[i]) then
      var j := SkipSpace(s, i + 1);
      match IndexOf(s[j..], '\n')
      case None => Some(s[j..])
      case Some(e) => Some(s[j..][..e])
    else None
  }

  /** `_is_comment`. */
  predicate IsComment(s: string) {
    ParseComment(s).Some?
  }

  /** A marker after optional whitespace makes a comment line whose text is the rest of the line
      less its leading whitespace. */
  lemma ParseCommentOf(lead: string, marker: char, text: string)
    requires AllSpace(lead) && IsCommentMarker(marker) && '\n' !in text
    ensures ParseComment(lead + [marker] + text) == Some(LStrip(text))
  {
    var s := lead + [marker] + text;
    assert s[0..|lead|] == lead && s[|lead|] == marker;
    SkipSpaceStopsAt(s, 0, |lead|);
    assert s[|lead| + 1..] == text;
    LStripSkips(s, |lead| + 1);
    var i := LStripParts(text);
    assert '\n' !in LStrip(text) by {
      forall m | 0 <= m < |LStrip(text)| ensures LStrip(text)[m] != '\n' { assert LStrip(text)[m] == text[i + m]; }
    }
  }

  /** A character of the class `[\w-]` of section names. */
  predicate IsSectionChar(c: char) {
    IsWordChar(c) || c == '-'
  }

  predicate IsSectionName(s: string) {
    |s| >= 1 && forall i :: 0 <= i < |s| ==> IsSectionChar(s[i])
  }

  /** The end of the run of section-name characters that starts at `i` (a greedy `[\w-]+`). */
  function SkipSectionChars(s: string, i: nat): (j: nat)
    requires i <= |s|
    ensures i <= j <= |s|
    ensures forall k :: i <= k < j ==> IsSectionChar(s[k])
    ensures j < |s| ==> !IsSectionChar(s[j])
    decreases |s| - i
  {
    if i < |s| && IsSectionChar(s[i]) then SkipSectionChars(s, i + 1) else i
  }

  /** A run of section-name characters is a section name. */
  lemma SectionCharsName(s: string, i: nat, j: nat)
    requires i < j <= |s| && forall k :: i <= k < j ==> IsSectionChar(s[k])
    ensures IsSectionName(s[i..j])
  {
    assert forall m :: 0 <= m < j - i ==> s[i..j][m] == s[i + m];
  }

  /** A bracketed text between whitespace strips to the brackets and what they enclose. */
  lemma BracketedStrips(s: string, i: nat, j: nat)
    requires i < j < |s| && AllSpace(s[0..i]) && s[i] == '[' && s[j] == ']' && AllSpace(s[j + 1..])
    ensures Strip(s) == "[" + s[i + 1..j] + "]"
  {
    var t := "[" + s[i + 1..j] + "]";
    assert s[..i] == s[0..i];
    assert s == s[..i] + t + s[j + 1..];
    assert t[0] == '[' && t[|t| - 1] == ']';
    StripPadded(s[..i], t, s[j + 1..]);
  }

  /** `_parse_section_header`: `RE_SECTION_HEADER`, `\s*\[([\w-]+)\]\s*$`, and its group 1.
      The header is the whole stripped line: a bracketed section name. */
  function ParseSectionHeader(s: string): (r: Option<string>)
    ensures r.Some? ==> IsSectionName(r.value) && Strip(s) == "[" + r.value + "]"
  {
    var i := SkipSpace(s, 0);
    if i < |s| && s[i] == '[' then
      var j := SkipSectionChars(s, i + 1);
      if i + 1 < j < |s| && s[j] == ']' && AllSpace(s[j + 1..]) then
        BracketedStrips(s, i, j);
        SectionCharsName(s, i + 1, j);
        Some(s[i + 1..j])
      else None
    else None
  }

  /** Every bracketed section name, whatever whitespace surrounds it, is a section header. */
  lemma ParseSectionHeaderOf(lead: string, name: string, trail: string)
    requires AllSpace(lead) && AllSpace(trail) && IsSectionName(name)
    ensures ParseSectionHeader(lead + "[" + name + "]" + trail) == Some(name)
  {
    var s := lead + "[" + name + "]" + trail;
    var i, j := |lead|, |lead| + 1 + |name|;
    assert s[0..i] == lead && s[i] == '[';
    SkipSpaceStopsAt(s, 0, i);
    assert forall k :: i + 1 <= k < j ==> s[k] == name[k - i - 1];
    assert s[j] == ']';
    SectionCharsStopAt(s, i + 1, j);
    assert s[j + 1..] == trail;
    assert s[i + 1..j] == name;
  }

  lemma SectionCharsStopAt(s: string, i: nat, k: nat)
    requires i <= k <= |s| && (forall m :: i <= m < k ==> IsSectionChar(s[m])) && (k == |s| || !IsSectionChar(s[k]))
    ensures SkipSectionChars(s, i) == k
    decreases k - i
  {
    if i < k {
      SectionCharsStopAt(s, i + 1, k);
    }
  }

  /** A character of the class `[^=\s]` that group 1 of `RE_VAR_DEF` is made of. */
  predicate IsNameTokenChar(c: char) {
    c != '=' && !IsSpace(c)
  }

  function SkipNameToken(s: string, i: nat): (j: nat)
    requires i <= |s|
    ensures i <= j <= |s|
    ensures forall k :: i <= k < j ==> IsNameTokenChar(s[k])
    ensures j < |s| ==> !IsNameTokenChar(s[j])
    decreases |s| - i
  {
    if i < |s| && IsNameTokenChar(s[i]) then SkipNameToken(s, i + 1) else i
  }

  /** `_parse_var_def`: `RE_VAR_DEF`, `\s*([^=\s]+)\s*=\s*(.*?)\s*$`, then both groups stripped and the
      name checked with `_is_proper_varname`; `None` stands for the pair `(None, None)`.
      Group 1 is the longest run of characters other than `=` and whitespace; the first `=` must
      follow it after optional whitespace; group 2 is the rest of the line without its surrounding
      whitespace, and cannot hold a newline (`.` does not match one). */
  function ParseVarDef(s: string): (r: Option<(string, string)>)
    ensures r.Some? ==> IsWordName(r.value.0) && IsStripped(r.value.1)
  {
    var i := SkipSpace(s, 0);
    var j := SkipNameToken(s, i);
    VarDefAt(s, i, j, SkipSpace(s, j))
  }

  /** `RE_VAR_DEF` once group 1 is located at `s[i..j]` and the whitespace after it ends at `k`:
      the line matches only if an `=` is there. */
  function VarDefAt(s: string, i: nat, j: nat, k: nat): (r: Option<(string, string)>)
    requires i <= j <= k <= |s|
    ensures r.Some? ==> IsWordName(r.value.0) && IsStripped(r.value.1)
  {
    if j == i || k == |s| || s[k] != '=' then None
    else
      var p := SkipSpace(s, k + 1);
      DefOf(s[i..j], s[p..TextEnd(s, p, |s|)])
  }

  /** The end of `_parse_var_def` once both groups are captured: a value holding a newline is
      not matched, and otherwise both groups are stripped and the name must be proper. */
  function DefOf(token: string, value: string): (r: Option<(string, string)>)
    ensures r.Some? ==> IsWordName(r.value.0) && IsStripped(r.value.1)
  {
    if '\n' in value then None
    else
      var name, val := Strip(token), Strip(value);
      if IsProperVarname(name) then
        ProperIffWord(name);
        Some((name, val))
      else None
  }

  /** The meaning of `RE_VAR_DEF` stated without the regex: the stripped text before the first `=`
      must be a name of word characters, and the value is the stripped text after it. */
  function VarDefByFirstEquals(s: string): (r: Option<(string, string)>)
  {
    match IndexOf(s, '=')
    case None => None
    case Some(a) =>
      var name, val := Strip(s[..a]), Strip(s[a + 1..]);
      if IsWordName(name) && '\n' !in val then Some((name, val)) else None
  }

  /** The regex-shaped parse of an item definition splits the line at its first `=` and strips
      both halves: it agrees with `VarDefByFirstEquals` on every line. */
  lemma ParseVarDefSplitsAtFirstEquals(s: string)
    ensures ParseVarDef(s) == VarDefByFirstEquals(s)
  {
    var i := SkipSpace(s, 0);
    var j := SkipNameToken(s, i);
    var k := SkipSpace(s, j);
    assert AllSpace(s[..i]) by { assert s[..i] == s[0..i]; }
    if j == i {
      NoNameToken(s, i);
    } else if k == |s| || s[k] != '=' {
      NoEqualsAfterToken(s, i, j, k);
    } else {
      EqualsAfterToken(s, i, j, k);
    }
  }

  /** With no name token after the leading whitespace, neither reading finds a definition. */
  lemma NoNameToken(s: string, i: nat)
    requires i == SkipSpace(s, 0) && SkipNameToken(s, i) == i && AllSpace(s[..i])
    ensures ParseVarDef(s) == VarDefByFirstEquals(s) == None
  {
    match IndexOf(s, '=')
    case None =>
    case Some(a) =>
      AllSpaceAt(s, 0, i);
      assert a == i;
      StripSlice(s, 0, a, a, a);
  }

  /** When the name token is not followed by `=`, the text before the first `=` holds whitespace
      inside it, so neither reading finds a definition. */
  lemma NoEqualsAfterToken(s: string, i: nat, j: nat, k: nat)
    requires i == SkipSpace(s, 0) && j == SkipNameToken(s, i) && k == SkipSpace(s, j) && AllSpace(s[..i])
    requires j > i && (k == |s| || s[k] != '=')
    ensures ParseVarDef(s) == VarDefByFirstEquals(s) == None
  {
    match IndexOf(s, '=')
    case None =>
    case Some(a) =>
      AllSpaceAt(s, 0, i);
      AllSpaceAt(s, j, k);
      assert a > k;
      assert s[..a][..i] == s[..i];
      StrippedPrefixHasGap(s[..a], i, j, k);
  }

  /** Text that starts after leading whitespace at `i`, has whitespace at `j` and a later non-space
      character at `k` strips to something that is not a word name. */
  lemma StrippedPrefixHasGap(t: string, i: nat, j: nat, k: nat)
    requires i < j < k < |t| && AllSpace(t[..i]) && !IsSpace(t[i]) && IsSpace(t[j]) && !IsSpace(t[k])
    ensures !IsWordName(Strip(t))
  {
    assert t[0..i] == t[..i];
    SkipSpaceStopsAt(t, 0, i);
    var e := TextEnd(t, i, |t|);
    assert e > k by { assert forall m :: e <= m < |t| ==> IsSpace(t[m]) by { assert forall m :: e <= m < |t| ==> t[m] == t[e..|t|][m - e]; } }
    assert Strip(t)[j - i] == t[j];
  }

  /** Stripping a slice made of whitespace, a stripped text and whitespace leaves the text. */
  lemma StripSlice(s: string, a: nat, b: nat, c: nat, d: nat)
    requires a <= b <= c <= d <= |s| && AllSpace(s[a..b]) && AllSpace(s[c..d]) && IsStripped(s[b..c])
    ensures Strip(s[a..d]) == s[b..c]
  {
    assert s[a..d] == s[a..b] + s[b..c] + s[c..d];
    StripPadded(s[a..b], s[b..c], s[c..d]);
  }

  /** When the name token is followed by `=`, both readings split there and strip both halves. */
  lemma EqualsAfterToken(s: string, i: nat, j: nat, k: nat)
    requires i == SkipSpace(s, 0) && j == SkipNameToken(s, i) && k == SkipSpace(s, j) && AllSpace(s[..i])
    requires j > i && k < |s| && s[k] == '='
    ensures ParseVarDef(s) == VarDefByFirstEquals(s)
  {
    FirstEqualsAfterToken(s, i, j, k);
    NameBeforeEquals(s, i, j, k);
    var p := SkipSpace(s, k + 1);
    var q := TextEnd(s, p, |s|);
    ValueAfterEquals(s, k, p, q);
    ProperIffWord(s[i..j]);
    var r := if IsWordName(s[i..j]) && '\n' !in s[p..q] then Some((s[i..j], s[p..q])) else None;
    ParsedAt(s, i, j, k, p, q, r);
    SplitAtEquals(s, k, s[i..j], s[p..q], r);
  }

  /** The regex reading once its name token, `=` and value text are located. */
  lemma ParsedAt(s: string, i: nat, j: nat, k: nat, p: nat, q: nat, r: Option<(string, string)>)
    requires i == SkipSpace(s, 0) && j == SkipNameToken(s, i) && k == SkipSpace(s, j)
    requires j > i && k < |s| && s[k] == '=' && p == SkipSpace(s, k + 1) && q == TextEnd(s, p, |s|)
    requires Strip(s[i..j]) == s[i..j] && Strip(s[p..q]) == s[p..q]
    requires IsProperVarname(s[i..j]) <==> IsWordName(s[i..j])
    requires r == if IsWordName(s[i..j]) && '\n' !in s[p..q] then Some((s[i..j], s[p..q])) else None
    ensures ParseVarDef(s) == r
  {
    assert ParseVarDef(s) == VarDefAt(s, i, j, k);
    assert VarDefAt(s, i, j, k) == DefOf(s[i..j], s[p..q]);
  }

  /** The first-`=` reading once the `=` is located and both halves are stripped. */
  lemma SplitAtEquals(s: string, a: nat, name: string, val: string, r: Option<(string, string)>)
    requires IndexOf(s, '=') == Some(a) && Strip(s[..a]) == name && Strip(s[a + 1..]) == val
    requires r == if IsWordName(name) && '\n' !in val then Some((name, val)) else None
    ensures VarDefByFirstEquals(s) == r
  {
  }

  /** A name that does not end in whitespace is proper exactly when it is made of word characters. */
  lemma ProperIffWord(t: string)
    requires t != [] && !IsSpace(t[|t| - 1])
    ensures IsProperVarname(t) <==> IsWordName(t)
  {
  }

  lemma FirstEqualsAfterToken(s: string, i: nat, j: nat, k: nat)
    requires i == SkipSpace(s, 0) && j == SkipNameToken(s, i) && k == SkipSpace(s, j) && AllSpace(s[..i])
    requires k < |s| && s[k] == '='
    ensures IndexOf(s, '=') == Some(k)
  {
    AllSpaceAt(s, 0, i);
    AllSpaceAt(s, j, k);
    assert '=' !in s[..k];
  }

  lemma NameBeforeEquals(s: string, i: nat, j: nat, k: nat)
    requires i == SkipSpace(s, 0) && j == SkipNameToken(s, i) && k == SkipSpace(s, j) && AllSpace(s[..i])
    requires j > i
    ensures Strip(s[..k]) == s[i..j] == Strip(s[i..j])
  {
    assert IsNameTokenChar(s[i]) && IsNameTokenChar(s[j - 1]);
    assert IsStripped(s[i..j]) by { assert s[i..j][0] == s[i] && s[i..j][j - i - 1] == s[j - 1]; }
    assert s[0..i] == s[..i] && s[0..k] == s[..k];
    StripSlice(s, 0, i, j, k);
    StripSlice(s, i, i, j, j);
  }

  lemma ValueAfterEquals(s: string, k: nat, p: nat, q: nat)
    requires k < |s| && p == SkipSpace(s, k + 1) && q == TextEnd(s, p, |s|)
    ensures Strip(s[k + 1..]) == s[p..q] == Strip(s[p..q])
  {
    ValueIsStripped(s, p, q);
    assert Strip(s[k + 1..]) == s[p..q] by {
      assert s[k + 1..] == s[k + 1..|s|];
      StripSlice(s, k + 1, p, q, |s|);
    }
    assert Strip(s[p..q]) == s[p..q] by {
      StripSlice(s, p, p, q, q);
    }
  }

  lemma ValueIsStripped(s: string, p: nat, q: nat)
    requires p <= |s| && q == TextEnd(s, p, |s|) && (p < |s| ==> !IsSpace(s[p]))
    ensures IsStripped(s[p..q])
  {
    if p < q {
      assert s[p..q][0] == s[p];
      assert s[p..q][q - p - 1] == s[q - 1];
    }
  }
}
