/** The promise of `dump_config` on its text: splitting the dumped text into lines, as
    `parse_config` does, gives back exactly the lines the dump generator yielded, so the parser
    reads the dumped text as it reads those lines. */
module DumpText {

  import opened Wrappers
  import opened Text
  import opened Classify
  import opened Values
  import opened Parser
  import opened Order
  import opened Dump
  import opened RoundTrip

  /** No line holds a line boundary. */
  predicate NoBreaks(lines: seq<string>) {
    forall k :: 0 <= k < |lines| ==> !HasLineBreak(lines[k])
  }

  /** The last line, if any, is not empty: `str.splitlines()` drops an empty last line. */
  predicate EndsFull(lines: seq<string>) {
    lines == [] || lines[|lines| - 1] != []
  }

  lemma NoBreaksAppend(a: seq<string>, b: seq<string>)
    requires NoBreaks(a) && NoBreaks(b)
    ensures NoBreaks(a + b)
  {
    forall k | 0 <= k < |a + b| ensures !HasLineBreak((a + b)[k]) {
      if k >= |a| {
        assert (a + b)[k] == b[k - |a|];
      }
    }
  }

  lemma EndsFullAppend(a: seq<string>, b: seq<string>)
    requires b != [] && EndsFull(b)
    ensures EndsFull(a + b)
  {
    assert (a + b)[|a + b| - 1] == b[|b| - 1];
  }

  /** Two strings free of line boundaries concatenate to one. */
  lemma ConcatNoBreak(a: string, b: string)
    requires !HasLineBreak(a) && !HasLineBreak(b)
    ensures !HasLineBreak(a + b)
  {
    forall i | 0 <= i < |a + b| ensures !IsLineBreak((a + b)[i]) {
      if i < |a| {
        assert (a + b)[i] == a[i];
      } else {
        assert (a + b)[i] == b[i - |a|];
      }
    }
  }

  /** A comment line is on one line when its comment is. */
  lemma CommentLineNoBreak(c: string)
    requires !HasLineBreak(c)
    ensures !HasLineBreak(CommentLine(c)) && CommentLine(c) != []
  {
    ConcatNoBreak("# ", c);
  }

  /** A header line is on one line: section names hold no line boundary. */
  lemma HeaderLineNoBreak(name: string)
    requires IsSectionName(name)
    ensures !HasLineBreak(HeaderLine(name)) && HeaderLine(name) != []
  {
    ConcatNoBreak("[", name);
    ConcatNoBreak("[" + name, "]");
  }

  /** A definition line is on one line when the printed value is. */
  lemma ItemDefNoBreak<V>(it: Item<V>, pretty: V -> string)
    requires IsWordName(it.name) && !HasLineBreak(pretty(it.value))
    ensures !HasLineBreak(ItemDef(it, pretty)) && ItemDef(it, pretty) != []
  {
    ConcatNoBreak(it.name, " = ");
    ConcatNoBreak(it.name + " = ", pretty(it.value));
  }

  /** The lines of dumpable items hold no line boundary and end with a definition. */
  lemma {:induction false} ItemLinesClean<V>(items: map<string, Item<V>>, names: seq<string>, pretty: V -> string, eval: string -> Option<V>)
    requires forall n :: n in names ==> n in items && ItemDumpable(items[n], pretty, eval)
    ensures NoBreaks(ItemLines(items, names, pretty)) && EndsFull(ItemLines(items, names, pretty))
    decreases |names|
  {
    if names != [] {
      var it := items[names[0]];
      CommentLineNoBreak(it.comment);
      ItemDefNoBreak(it, pretty);
      var head := [CommentLine(it.comment), ItemDef(it, pretty)];
      var rest := ItemLines(items, names[1..], pretty);
      ItemLinesClean(items, names[1..], pretty, eval);
      assert ItemLines(items, names, pretty) == head + rest;
      NoBreaksAppend(head, rest);
      if rest != [] {
        EndsFullAppend(head, rest);
      }
    }
  }

  /** The lines of a dumpable section hold no line boundary, and its last line is its header or
      a definition. */
  lemma SectionLinesClean<V>(name: string, sec: Section<V>, pretty: V -> string, eval: string -> Option<V>)
    requires IsSectionName(name) && SectionDumpable(sec, pretty, eval)
    ensures var lines := SectionLines(name, sec, pretty);
      lines != [] && NoBreaks(lines) && EndsFull(lines)
  {
    var head := SectionHead(name, sec.comment);
    var body := ItemLines(sec.items, SortedKeys(sec.items.Keys), pretty);
    HeaderLineNoBreak(name);
    if sec.comment != [] {
      CommentLineNoBreak(sec.comment);
    }
    assert NoBreaks(head);
    ItemLinesClean(sec.items, SortedKeys(sec.items.Keys), pretty, eval);
    NoBreaksAppend(head, body);
    if body != [] {
      EndsFullAppend(head, body);
    }
  }

  /** Separated dumpable sections hold no line boundary and end with a full line. */
  lemma {:induction false} SeparatedLinesClean<V>(cfg: Config<V>, names: seq<string>, pretty: V -> string, eval: string -> Option<V>)
    requires Dumpable(cfg, pretty, eval)
    requires forall n :: n in names ==> n in cfg
    ensures NoBreaks(SeparatedLines(cfg, names, pretty)) && EndsFull(SeparatedLines(cfg, names, pretty))
    decreases |names|
  {
    if names != [] {
      var sec := SectionLines(names[0], cfg[names[0]], pretty);
      var rest := SeparatedLines(cfg, names[1..], pretty);
      SectionLinesClean(names[0], cfg[names[0]], pretty, eval);
      SeparatedLinesClean(cfg, names[1..], pretty, eval);
      assert !HasLineBreak("");
      NoBreaksAppend([""], sec);
      NoBreaksAppend([""] + sec, rest);
      EndsFullAppend([""], sec);
      if rest != [] {
        EndsFullAppend([""] + sec, rest);
      } else {
        assert [""] + sec + rest == [""] + sec;
      }
    }
  }

  /** The lines the dump yields for a dumpable configuration hold no line boundary, and the
      last one is not empty. */
  lemma DumpLinesClean<V>(cfg: Config<V>, pretty: V -> string, eval: string -> Option<V>)
    requires Dumpable(cfg, pretty, eval)
    ensures !AnyLineBreak(DumpLines(cfg, pretty)) && EndsFull(DumpLines(cfg, pretty))
  {
    var names := SortedKeys(cfg.Keys);
    if names != [] {
      var sec := SectionLines(names[0], cfg[names[0]], pretty);
      var rest := SeparatedLines(cfg, names[1..], pretty);
      SectionLinesClean(names[0], cfg[names[0]], pretty, eval);
      SeparatedLinesClean(cfg, names[1..], pretty, eval);
      NoBreaksAppend(sec, rest);
      if rest != [] {
        EndsFullAppend(sec, rest);
      } else {
        assert sec + rest == sec;
      }
    }
  }

  /** Splitting the dumped text into lines gives back the lines the dump yielded. */
  lemma SplitDump<V>(cfg: Config<V>, pretty: V -> string, eval: string -> Option<V>)
    requires Dumpable(cfg, pretty, eval)
    ensures SplitLines(DumpConfig(cfg, pretty)) == DumpLines(cfg, pretty)
  {
    DumpLinesClean(cfg, pretty, eval);
    SplitJoinedLines(DumpLines(cfg, pretty));
  }

  /** `dump_config` reproduces the configuration when fed to `_parse_config`: the text it
      returns, split into lines and parsed, gives the configuration back, every comment without
      its leading whitespace. */
  lemma DumpThenParse<V>(cfg: Config<V>, pretty: V -> string, eval: string -> Option<V>)
    requires Dumpable(cfg, pretty, eval)
    ensures ParseLines(SplitLines(DumpConfig(cfg, pretty)), eval) == Ok(Normalized(cfg))
  {
    SplitDump(cfg, pretty, eval);
    ParseDumpLines(cfg, pretty, eval);
  }

  /** A configuration whose comments have no leading whitespace comes back exactly. */
  lemma DumpThenParseExact<V>(cfg: Config<V>, pretty: V -> string, eval: string -> Option<V>)
    requires Dumpable(cfg, pretty, eval)
    requires forall s :: s in cfg ==> LStrip(cfg[s].comment) == cfg[s].comment
    requires forall s, k :: s in cfg && k in cfg[s].items ==> LStrip(cfg[s].items[k].comment) == cfg[s].items[k].comment
    ensures ParseLines(SplitLines(DumpConfig(cfg, pretty)), eval) == Ok(cfg)
  {
    DumpThenParse(cfg, pretty, eval);
    NormalizedUnchanged(cfg);
  }
}
