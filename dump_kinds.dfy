/** How the parser classifies each kind of line `dump_config` writes. */
module DumpKinds {

  import opened Wrappers
  import opened Text
  import opened Classify
  import opened Values
  import opened Parser
  import opened Dump

  /** A line that starts with a character other than whitespace strips to a text that starts
      with the same character. */
  lemma StripKeepsFirst(s: string)
    requires s != [] && !IsSpace(s[0])
    ensures Strip(s) != [] && Strip(s)[0] == s[0]
  {
    var i, j := StripParts(s);
  }

  lemma AllSpaceConcat(a: string, b: string)
    requires AllSpace(a) && AllSpace(b)
    ensures AllSpace(a + b)
  {
    assert forall m :: |a| <= m < |a + b| ==> (a + b)[m] == b[m - |a|];
  }

  /** A line around its stripped text, with more whitespace in front. */
  lemma Regroup(x: string, p: string, i: nat, j: nat)
    requires i <= j <= |p|
    ensures p == p[..i] + p[i..j] + p[j..]
    ensures x + p == (x + p[..i]) + p[i..j] + p[j..]
  {
    assert p == p[..i] + p[i..j] + p[j..];
  }

  lemma StripAfterSpace(x: string, p: string)
    requires AllSpace(x)
    ensures Strip(x + p) == Strip(p)
  {
    var i, j := StripParts(p);
    Regroup(x, p, i, j);
    AllSpaceConcat(x, p[..i]);
    StripPadded(x + p[..i], p[i..j], p[j..]);
  }

  lemma StripLeadingSpace(p: string)
    ensures Strip(" " + p) == Strip(p)
  {
    StripAfterSpace(" ", p);
  }

  lemma LStripLeadingSpace(c: string)
    ensures LStrip(" " + c) == LStrip(c)
  {
    var t := LStrip(c);
    var i := LStripParts(c);
    assert c == c[..i] + t;
    assert " " + c == (" " + c[..i]) + t;
    LStripPadded(" " + c[..i], t);
  }

  /** A line whose first character is neither whitespace nor `[` is no section header. */
  lemma NotHeader(s: string)
    requires s != [] && !IsSpace(s[0]) && s[0] != '['
    ensures ParseSectionHeader(s).None?
  {
    StripKeepsFirst(s);
  }

  /** A line whose first character is neither whitespace nor a word character defines no item:
      the text before its first `=` cannot strip to a name. */
  lemma NotDefinition(s: string)
    requires s != [] && !IsSpace(s[0]) && !IsWordChar(s[0])
    ensures ParseVarDef(s).None?
  {
    ParseVarDefSplitsAtFirstEquals(s);
    match IndexOf(s, '=')
    case None =>
    case Some(a) =>
      if a > 0 {
        assert s[..a][0] == s[0];
        StripKeepsFirst(s[..a]);
      } else {
        assert s[..a] == [];
        assert Strip(s[..a]) == [];
      }
  }

  /** `# c` is a comment whose text is `c` without its leading whitespace. */
  lemma CommentLineKind(c: string)
    requires !HasLineBreak(c)
    ensures KindOf(CommentLine(c)) == Comment(LStrip(c))
  {
    var s := CommentLine(c);
    NotHeader(s);
    NotDefinition(s);
    assert '\n' !in " " + c;
    ParseCommentOf("", '#', " " + c);
    assert "" + ['#'] + (" " + c) == s;
    LStripLeadingSpace(c);
  }

  /** `[name]` is the header of section `name`. */
  lemma HeaderLineKind(name: string)
    requires IsSectionName(name)
    ensures KindOf(HeaderLine(name)) == Header(name)
  {
    ParseSectionHeaderOf("", name, "");
    assert "" + "[" + name + "]" + "" == HeaderLine(name);
  }

  /** Stripping keeps a line free of newlines. */
  lemma StripNoNewline(p: string)
    requires !HasLineBreak(p)
    ensures '\n' !in Strip(p)
  {
    var i, j := StripParts(p);
  }

  /** In `name = p` the first `=` is the one after the name. */
  lemma FirstEqualsAfterName(name: string, p: string)
    requires IsWordName(name)
    ensures IndexOf(name + " = " + p, '=') == Some(|name| + 1)
    ensures (name + " = " + p)[..|name| + 1] == name + " " && (name + " = " + p)[|name| + 2..] == " " + p
  {
    var s := name + " = " + p;
    var a := |name| + 1;
    assert s[a] == '=';
    assert s[..a] == name + " ";
    assert '=' !in s[..a] by {
      forall m | 0 <= m < a ensures s[..a][m] != '=' {
        if m < |name| {
          assert s[..a][m] == name[m];
        }
      }
    }
    assert s[a + 1..] == " " + p;
  }

  /** A name followed by one space strips back to the name. */
  lemma NamePartStrips(name: string)
    requires IsWordName(name)
    ensures Strip(name + " ") == name
  {
    StripPadded([], name, " ");
    assert [] + name + " " == name + " ";
  }

  /** A value text after ` = ` strips as it would alone, and keeps no newline. */
  lemma ValuePartStrips(p: string)
    requires !HasLineBreak(p)
    ensures Strip(" " + p) == Strip(p) && '\n' !in Strip(p)
  {
    StripAfterSpace(" ", p);
    StripNoNewline(p);
  }

  /** Split at its first `=`, `name = p` gives the name and `p` stripped. */
  lemma SplitItemDef(name: string, p: string)
    requires IsWordName(name) && !HasLineBreak(p)
    ensures VarDefByFirstEquals(name + " = " + p) == Some((name, Strip(p)))
  {
    FirstEqualsAfterName(name, p);
    NamePartStrips(name);
    ValuePartStrips(p);
    SplitAtEquals(name + " = " + p, |name| + 1, name, Strip(p), Some((name, Strip(p))));
  }

  /** `name = p` defines the item `name` with the value text `p` stripped. */
  lemma ItemDefKind<V>(it: Item<V>, pretty: V -> string)
    requires IsWordName(it.name) && !HasLineBreak(pretty(it.value))
    ensures KindOf(ItemDef(it, pretty)) == Definition(it.name, Strip(pretty(it.value)))
  {
    var s := ItemDef(it, pretty);
    assert s[0] == it.name[0];
    NotHeader(s);
    ParseVarDefSplitsAtFirstEquals(s);
    SplitItemDef(it.name, pretty(it.value));
  }

  /** The empty line between two sections is blank. */
  lemma EmptyLineKind()
    ensures KindOf("") == Blank
  {
    assert ParseSectionHeader("").None?;
    ParseVarDefSplitsAtFirstEquals("");
  }
}
