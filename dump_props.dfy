/** The layout `dump_config` promises: where each item's two lines sit, which line opens the
    dump, and that the only empty lines are the single separators between sections. */
module DumpProps {

  import opened Values
  import opened Order
  import opened Dump

  /** The number of empty lines among `lines`. */
  function Blanks(lines: seq<string>): nat {
    if lines == [] then 0 else (if lines[0] == [] then 1 else 0) + Blanks(lines[1..])
  }

  lemma {:induction false} BlanksAppend(a: seq<string>, b: seq<string>)
    ensures Blanks(a + b) == Blanks(a) + Blanks(b)
    decreases |a|
  {
    if a == [] {
      assert a + b == b;
    } else {
      assert (a + b)[0] == a[0] && (a + b)[1..] == a[1..] + b;
      BlanksAppend(a[1..], b);
    }
  }

  /** The item named `names[i]` takes lines `2i` and `2i + 1` of the item block: its comment line,
      which is written even for an empty comment, and then its definition. */
  lemma {:induction false} ItemLinesAt<V>(items: map<string, Item<V>>, names: seq<string>, pretty: V -> string, i: nat)
    requires forall n :: n in names ==> n in items
    requires i < |names|
    ensures ItemLines(items, names, pretty)[2 * i] == CommentLine(items[names[i]].comment)
    ensures ItemLines(items, names, pretty)[2 * i + 1] == ItemDef(items[names[i]], pretty)
    decreases i
  {
    var head := [CommentLine(items[names[0]].comment), ItemDef(items[names[0]], pretty)];
    assert ItemLines(items, names, pretty) == head + ItemLines(items, names[1..], pretty);
    if i > 0 {
      ItemLinesAt(items, names[1..], pretty, i - 1);
    }
  }

  /** An item block holds no empty line: comment lines start with `#` and definitions hold ` = `. */
  lemma {:induction false} ItemLinesFull<V>(items: map<string, Item<V>>, names: seq<string>, pretty: V -> string)
    requires forall n :: n in names ==> n in items
    ensures Blanks(ItemLines(items, names, pretty)) == 0
    decreases |names|
  {
    if names != [] {
      var c, d := CommentLine(items[names[0]].comment), ItemDef(items[names[0]], pretty);
      assert c[0] == '#';
      assert d[|items[names[0]].name|] == ' ';
      ItemLinesFull(items, names[1..], pretty);
      BlanksAppend([c, d], ItemLines(items, names[1..], pretty));
    }
  }

  /** A section's lines hold no empty line. */
  lemma SectionLinesFull<V>(name: string, sec: Section<V>, pretty: V -> string)
    ensures Blanks(SectionLines(name, sec, pretty)) == 0
  {
    var head := SectionHead(name, sec.comment);
    assert HeaderLine(name)[0] == '[';
    if sec.comment != [] {
      assert CommentLine(sec.comment)[0] == '#';
      BlanksAppend([CommentLine(sec.comment)], [HeaderLine(name)]);
    }
    ItemLinesFull(sec.items, SortedKeys(sec.items.Keys), pretty);
    BlanksAppend(head, ItemLines(sec.items, SortedKeys(sec.items.Keys), pretty));
  }

  /** Sections after the first each bring exactly one empty line, the one before them. */
  lemma {:induction false} SeparatedBlanks<V>(cfg: Config<V>, names: seq<string>, pretty: V -> string)
    requires forall n :: n in names ==> n in cfg
    ensures Blanks(SeparatedLines(cfg, names, pretty)) == |names|
    decreases |names|
  {
    if names != [] {
      var sec := SectionLines(names[0], cfg[names[0]], pretty);
      var rest := SeparatedLines(cfg, names[1..], pretty);
      SectionLinesFull(names[0], cfg[names[0]], pretty);
      SeparatedBlanks(cfg, names[1..], pretty);
      BlanksAppend([""], sec);
      BlanksAppend([""] + sec, rest);
    }
  }

  /** There is one empty line between two consecutive sections and no other: a configuration of
      `n` sections dumps with `n - 1` empty lines. */
  lemma DumpBlanks<V>(cfg: Config<V>, pretty: V -> string)
    ensures Blanks(DumpLines(cfg, pretty)) == if cfg == map[] then 0 else |cfg| - 1
  {
    var names := SortedKeys(cfg.Keys);
    assert |names| == |cfg.Keys| == |cfg|;
    if names != [] {
      SectionLinesFull(names[0], cfg[names[0]], pretty);
      SeparatedBlanks(cfg, names[1..], pretty);
      BlanksAppend(SectionLines(names[0], cfg[names[0]], pretty), SeparatedLines(cfg, names[1..], pretty));
    } else {
      assert cfg.Keys == {};
    }
  }

  /** The dump of a non-empty configuration opens with the section whose name sorts first, with
      no empty line before it: its comment line when its comment is not empty, else its header. */
  lemma DumpOpens<V>(cfg: Config<V>, pretty: V -> string)
    requires cfg != map[]
    ensures var first := SortedKeys(cfg.Keys)[0];
      && first in cfg
      && (forall k :: k in cfg && k != first ==> Below(first, k))
      && DumpLines(cfg, pretty)[0] == if cfg[first].comment != [] then CommentLine(cfg[first].comment) else HeaderLine(first)
  {
    var names := SortedKeys(cfg.Keys);
    assert |names| == |cfg.Keys| > 0 by {
      var k :| k in cfg;
      assert k in cfg.Keys;
    }
    forall k | k in cfg && k != names[0] ensures Below(names[0], k) {
      var j :| 0 <= j < |names| && names[j] == k;
    }
    var first := names[0];
    assert DumpLines(cfg, pretty) == SectionHead(first, cfg[first].comment) + ItemLines(cfg[first].items, SortedKeys(cfg[first].items.Keys), pretty)
                                     + SeparatedLines(cfg, names[1..], pretty);
  }
}
