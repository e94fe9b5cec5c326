/** Character classes and the few `str` operations of Python that the configuration
    parser relies on: whitespace stripping, joining and `splitlines`. */
module Text {

  import opened Wrappers

  /** Python's whitespace: the characters `\s`, `str.strip()` and `str.isspace()` agree on. */
  predicate IsSpace(c: char) {
    || ('\t' <= c <= '\r')                // U+0009 .. U+000D
    || ('\U{1C}' <= c <= ' ')              // U+001C .. U+001F and the space
    || c == '\U{85}' || c == '\U{A0}' || c == '\U{1680}'
    || ('\U{2000}' <= c <= '\U{200A}')
    || c == '\U{2028}' || c == '\U{2029}' || c == '\U{202F}' || c == '\U{205F}' || c == '\U{3000}'
  }

  /** A character of the regex class `\w`, restricted to ASCII. */
  predicate IsWordChar(c: char) {
    ('a' <= c <= 'z') || ('A' <= c <= 'Z') || ('0' <= c <= '9') || c == '_'
  }

  /** A line boundary of `str.splitlines()`. */
  predicate IsLineBreak(c: char) {
    ('\n' <= c <= '\r') || ('\U{1C}' <= c <= '\U{1E}') || c == '\U{85}' || c == '\U{2028}' || c == '\U{2029}'
  }

  predicate AllSpace(s: string) {
    forall i :: 0 <= i < |s| ==> IsSpace(s[i])
  }

  predicate HasLineBreak(s: string) {
    exists i :: 0 <= i < |s| && IsLineBreak(s[i])
  }

  /** Neither end of `s` is whitespace. */
  predicate IsStripped(s: string) {
    s == [] || (!IsSpace(s[0]) && !IsSpace(s[|s| - 1]))
  }

  /** The end of the run of whitespace that starts at `i` (a greedy `\s*`). */
  function SkipSpace(s: string, i: nat): (j: nat)
    requires i <= |s|
    ensures i <= j <= |s|
    ensures AllSpace(s[i..j])
    ensures j < |s| ==> !IsSpace(s[j])
    decreases |s| - i
  {
    if i < |s| && IsSpace(s[i]) then SkipSpace(s, i + 1) else i
  }

  /** The start of the run of whitespace that ends `s[lo..hi]`. */
  function TextEnd(s: string, lo: nat, hi: nat): (j: nat)
    requires lo <= hi <= |s|
    ensures lo <= j <= hi
    ensures AllSpace(s[j..hi])
    ensures j > lo ==> !IsSpace(s[j - 1])
    decreases hi
  {
    if lo < hi && IsSpace(s[hi - 1]) then
      var j := TextEnd(s, lo, hi - 1);
      assert forall k :: j <= k < hi - 1 ==> s[k] == s[j..hi - 1][k - j];
      j
    else hi
  }

  /** `str.strip()`: `s` less its leading and trailing whitespace. */
  function Strip(s: string): (r: string)
    ensures IsStripped(r)
  {
    var i := SkipSpace(s, 0);
    var j := TextEnd(s, i, |s|);
    s[i..j]
  }

  /** What `Strip` removes is whitespace on both sides: `s` is whitespace, `Strip(s)` and
      whitespace. */
  lemma StripParts(s: string) returns (i: nat, j: nat)
    ensures i <= j <= |s| && AllSpace(s[..i]) && AllSpace(s[j..]) && s[i..j] == Strip(s)
  {
    i := SkipSpace(s, 0);
    j := TextEnd(s, i, |s|);
    assert s[..i] == s[0..i] && s[j..] == s[j..|s|];
  }

  /** `str.lstrip()`: `s` less its leading whitespace. */
  function LStrip(s: string): (r: string)
    ensures r == [] || !IsSpace(r[0])
    ensures |r| <= |s|
    decreases |s|
  {
    if s != [] && IsSpace(s[0]) then LStrip(s[1..]) else s
  }

  /** `LStrip` drops the run of whitespace a greedy `\s*` skips. */
  lemma {:induction false} LStripSkips(s: string, i: nat)
    requires i <= |s|
    ensures LStrip(s[i..]) == s[SkipSpace(s, i)..]
    decreases |s| - i
  {
    if i < |s| && IsSpace(s[i]) {
      assert s[i..][1..] == s[i + 1..];
      LStripSkips(s, i + 1);
    }
  }

  /** What `LStrip` removes is whitespace: `s` is whitespace followed by `LStrip(s)`. */
  lemma LStripParts(s: string) returns (i: nat)
    ensures i <= |s| && AllSpace(s[..i]) && s[i..] == LStrip(s)
  {
    i := SkipSpace(s, 0);
    assert s[..i] == s[0..i];
    LStripSkips(s, 0);
    assert s[0..] == s;
  }

  /** Every character of a whitespace slice is whitespace. */
  lemma AllSpaceAt(s: string, lo: nat, hi: nat)
    requires lo <= hi <= |s| && AllSpace(s[lo..hi])
    ensures forall m :: lo <= m < hi ==> IsSpace(s[m])
  {
    forall m | lo <= m < hi ensures IsSpace(s[m]) {
      assert s[m] == s[lo..hi][m - lo];
    }
  }

  /** A greedy `\s*` from `i` stops at the first character that is not whitespace. */
  lemma SkipSpaceStopsAt(s: string, i: nat, k: nat)
    requires i <= k <= |s| && AllSpace(s[i..k]) && (k == |s| || !IsSpace(s[k]))
    ensures SkipSpace(s, i) == k
  {
    var j := SkipSpace(s, i);
    assert j <= k by {
      if k < |s| { assert forall m :: i <= m < j ==> IsSpace(s[m]) by { assert forall m :: i <= m < j ==> s[m] == s[i..j][m - i]; } }
    }
    assert j >= k by {
      if j < |s| { assert forall m :: i <= m < k ==> s[m] == s[i..k][m - i]; }
    }
  }

  /** The trailing whitespace run of `s[lo..hi]` starts right after its last other character. */
  lemma TextEndStopsAt(s: string, lo: nat, hi: nat, k: nat)
    requires lo <= k <= hi <= |s| && AllSpace(s[k..hi]) && (k == lo || !IsSpace(s[k - 1]))
    ensures TextEnd(s, lo, hi) == k
  {
    var j := TextEnd(s, lo, hi);
    assert forall m :: k <= m < hi ==> s[m] == s[k..hi][m - k];
    assert forall m :: j <= m < hi ==> s[m] == s[j..hi][m - j];
  }

  /** The whitespace around a stripped text is exactly what `Strip` removes. */
  lemma StripPadded(lead: string, t: string, trail: string)
    requires AllSpace(lead) && AllSpace(trail) && IsStripped(t)
    ensures Strip(lead + t + trail) == t
  {
    var s := lead + t + trail;
    var a, b := |lead|, |lead| + |t|;
    assert s[..a] == lead && s[a..b] == t && s[b..] == trail;
    if t == [] {
      assert s[0..|s|] == lead + trail;
      SkipSpaceStopsAt(s, 0, |s|);
      TextEndStopsAt(s, |s|, |s|, |s|);
    } else {
      assert s[0..a] == lead && s[a] == t[0];
      SkipSpaceStopsAt(s, 0, a);
      assert s[b..|s|] == trail && s[b - 1] == t[|t| - 1];
      TextEndStopsAt(s, a, |s|, b);
    }
  }

  /** Leading whitespace before a text that starts with no whitespace is exactly what `LStrip` removes. */
  lemma LStripPadded(lead: string, t: string)
    requires AllSpace(lead) && (t == [] || !IsSpace(t[0]))
    ensures LStrip(lead + t) == t
  {
    var s := lead + t;
    assert s[0..|lead|] == lead;
    assert t != [] ==> s[|lead|] == t[0];
    SkipSpaceStopsAt(s, 0, |lead|);
    assert s[|lead|..] == t;
    LStripSkips(s, 0);
    assert s[0..] == s;
  }

  /** The index of the first occurrence of `c` in `s`, if any. */
  function IndexOf(s: string, c: char): (r: Option<nat>)
    ensures r.Some? ==> r.value < |s| && s[r.value] == c && c !in s[..r.value]
    ensures r.None? ==> c !in s
  {
    if s == [] then None
    else if s[0] == c then Some(0)
    else match IndexOf(s[1..], c)
      case None => None
      case Some(k) =>
        assert s[..k + 1] == [s[0]] + s[1..][..k];
        Some(k + 1)
  }

  /** `sep.join(parts)`. */
  function Join(parts: seq<string>, sep: string): string
  {
    if |parts| == 0 then []
    else if |parts| == 1 then parts[0]
    else parts[0] + sep + Join(parts[1..], sep)
  }

  /** Joining one more part appends the separator and the part. */
  lemma {:induction false} JoinSnoc(parts: seq<string>, x: string, sep: string)
    ensures Join(parts + [x], sep) == if parts == [] then x else Join(parts, sep) + sep + x
  {
    if |parts| > 1 {
      assert (parts + [x])[1..] == parts[1..] + [x];
      JoinSnoc(parts[1..], x, sep);
    } else if |parts| == 1 {
      assert (parts + [x])[1..] == [x];
    }
  }

  /** A line of `lines` in which one of its characters is a line boundary. */
  predicate AnyLineBreak(lines: seq<string>) {
    exists k :: 0 <= k < |lines| && HasLineBreak(lines[k])
  }

  /** The first line boundary at or after `i`, or the end of `s`. */
  function LineEnd(s: string, i: nat): (j: nat)
    requires i <= |s|
    ensures i <= j <= |s|
    ensures !HasLineBreak(s[i..j])
    ensures j < |s| ==> IsLineBreak(s[j])
    decreases |s| - i
  {
    if i == |s| || IsLineBreak(s[i]) then i
    else
      var j := LineEnd(s, i + 1);
      assert forall k :: i <= k < j ==> s[k] == s[i..j][k - i];
      j
  }

  /** `str.splitlines()`: the lines of `s`, without their boundaries; `"\r\n"` is one boundary and
      a final boundary opens no empty line. */
  function SplitLines(s: string): (r: seq<string>)
    ensures !AnyLineBreak(r)
    decreases |s|
  {
    if s == [] then []
    else
      var j := LineEnd(s, 0);
      if j == |s| then
        assert s == s[0..j];
        [s]
      else
        var w := if s[j] == '\r' && j + 1 < |s| && s[j + 1] == '\n' then 2 else 1;
        var rest := SplitLines(s[j + w..]);
        assert s[..j] == s[0..j];
        assert forall k :: 1 <= k < |rest| + 1 ==> ([s[..j]] + rest)[k] == rest[k - 1];
        [s[..j]] + rest
  }

  /** Splitting the `"\n"`-join of lines gives the lines back when no line holds a boundary
      and the last line is not empty. */
  lemma {:induction false} SplitJoinedLines(lines: seq<string>)
    requires !AnyLineBreak(lines)
    requires lines == [] || lines[|lines| - 1] != []
    ensures SplitLines(Join(lines, "\n")) == lines
  {
    if |lines| == 1 {
      assert !HasLineBreak(lines[0]);
    } else if |lines| > 1 {
      var x := lines[0];
      var rest := lines[1..];
      var s := Join(lines, "\n");
      assert s == x + "\n" + Join(rest, "\n");
      assert !HasLineBreak(x) by { assert lines[0] == x; }
      assert !AnyLineBreak(rest) by {
        forall k | 0 <= k < |rest| ensures !HasLineBreak(rest[k]) { assert rest[k] == lines[k + 1]; }
      }
      var j := LineEnd(s, 0);
      assert s[|x|] == '\n';
      assert forall k :: 0 <= k < |x| ==> s[k] == x[k];
      assert j == |x|;
      assert s[..j] == x;
      assert s[j + 1..] == Join(rest, "\n");
      SplitJoinedLines(rest);
    }
  }

  /** `c.upper()` for an ASCII letter; every other character is left as it is. */
  function UpperAscii(c: char): (u: char)
    ensures 'a' <= c <= 'z' ==> 'A' <= u <= 'Z' && u as int == c as int - 32
    ensures !('a' <= c <= 'z') ==> u == c
  {
    if 'a' <= c <= 'z' then (c as int - 32) as char else c
  }
}
