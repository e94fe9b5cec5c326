/** The promise of `dump_config`: its text, fed back to `_parse_config`, reproduces the
    configuration. It does so up to one normalisation: a comment comes back without its leading
    whitespace, because the parser strips what follows the comment marker. */
module RoundTrip {

  import opened Wrappers
  import opened Text
  import opened Classify
  import opened Values
  import opened Parser
  import opened ParserProps
  import opened Order
  import opened Dump
  import opened DumpKinds

  /** An item the dump writes on one line that parses back: a name of word characters, a
      comment and a printed value on one line each, and a printed value that evaluates back to
      the value. */
  ghost predicate ItemDumpable<V>(it: Item<V>, pretty: V -> string, eval: string -> Option<V>) {
    && IsWordName(it.name)
    && !HasLineBreak(it.comment)
    && !HasLineBreak(pretty(it.value))
    && eval(Strip(pretty(it.value))) == Some(it.value)
  }

  ghost predicate SectionDumpable<V>(sec: Section<V>, pretty: V -> string, eval: string -> Option<V>) {
    !HasLineBreak(sec.comment) && forall k :: k in sec.items ==> sec.items[k].name == k && ItemDumpable(sec.items[k], pretty, eval)
  }

  /** A configuration every part of which the dump writes so that it parses back. */
  ghost predicate Dumpable<V>(cfg: Config<V>, pretty: V -> string, eval: string -> Option<V>) {
    forall s :: s in cfg ==> IsSectionName(s) && SectionDumpable(cfg[s], pretty, eval)
  }

  /** An item as the parser reads back its dump: the comment without leading whitespace. */
  function NormalItem<V>(it: Item<V>): Item<V> {
    it.(comment := LStrip(it.comment))
  }

  function NormalSection<V>(sec: Section<V>): Section<V> {
    Section(map k | k in sec.items :: NormalItem(sec.items[k]), LStrip(sec.comment))
  }

  function Normalized<V>(cfg: Config<V>): Config<V> {
    map s | s in cfg :: NormalSection(cfg[s])
  }

  /** The items of a section whose item comments have no leading whitespace are their own
      normal form. */
  lemma NormalItemsUnchanged<V>(sec: Section<V>)
    requires forall k :: k in sec.items ==> LStrip(sec.items[k].comment) == sec.items[k].comment
    ensures NormalSection(sec).items == sec.items
  {
    var m := NormalSection(sec).items;
    assert m.Keys == sec.items.Keys;
    forall k | k in m ensures m[k] == sec.items[k] {
      assert m[k] == NormalItem(sec.items[k]);
    }
  }

  /** A section whose comments have no leading whitespace is its own normal form. */
  lemma NormalSectionUnchanged<V>(sec: Section<V>)
    requires LStrip(sec.comment) == sec.comment
    requires forall k :: k in sec.items ==> LStrip(sec.items[k].comment) == sec.items[k].comment
    ensures NormalSection(sec) == sec
  {
    NormalItemsUnchanged(sec);
    assert NormalSection(sec) == Section(sec.items, sec.comment);
  }

  /** Comments without leading whitespace are left alone: such a configuration is its own
      normal form. */
  lemma NormalizedUnchanged<V>(cfg: Config<V>)
    requires forall s :: s in cfg ==> LStrip(cfg[s].comment) == cfg[s].comment
    requires forall s, k :: s in cfg && k in cfg[s].items ==> LStrip(cfg[s].items[k].comment) == cfg[s].items[k].comment
    ensures Normalized(cfg) == cfg
  {
    forall s | s in cfg ensures Normalized(cfg)[s] == cfg[s] {
      NormalSectionUnchanged(cfg[s]);
    }
  }

  /** The parser state with the items of the current section replaced by `items`. */
  function WithItems<V>(st: State<V>, items: map<string, Item<V>>): State<V>
    requires st.current.Some? && st.current.value in st.config
  {
    var s := st.current.value;
    st.(config := st.config[s := st.config[s].(items := items)])
  }

  /** Replacing the items of the current section twice keeps the second replacement only. */
  lemma WithItemsAgain<V>(st: State<V>, a: map<string, Item<V>>, b: map<string, Item<V>>)
    requires st.current.Some? && st.current.value in st.config
    ensures WithItems(st, a).config[st.current.value].items == a
    ensures WithItems(WithItems(st, a), b) == WithItems(st, b)
  {
    var s := st.current.value;
    assert WithItems(st, a).config[s].(items := b) == st.config[s].(items := b);
    assert st.config[s := st.config[s].(items := a)][s := st.config[s].(items := b)] == st.config[s := st.config[s].(items := b)];
  }

  /** The parser state with `it` stored in the current section. */
  function Store<V>(st: State<V>, it: Item<V>): State<V>
    requires st.current.Some? && st.current.value in st.config
  {
    WithItems(st, st.config[st.current.value].items[it.name := it])
  }

  /** A comment line and then a definition that evaluates store the item with that comment. */
  lemma CommentThenDefinition<V>(st: State<V>, lines: seq<string>, kinds: seq<LineKind>, it: Item<V>, val: string,
                                 off: nat, eval: string -> Option<V>)
    requires Good(st) && st.pending.None? && st.current.Some? && st.comments == []
    requires |lines| == 2 && kinds == [Comment(it.comment), Definition(it.name, val)] && eval(val) == Some(it.value)
    requires it.name !in st.config[st.current.value].items
    ensures Run(st, lines, kinds, off, eval) == Ok(Store(st, it))
  {
    var st1 := st.(comments := [it.comment]);
    assert kinds[0] == Comment(it.comment) && kinds[1] == Definition(it.name, val);
    assert st.comments + [it.comment] == [it.comment];
    assert Step(st, lines[0], kinds[0], off + 1, eval) == Ok(st1);
    assert JoinComments(st1.comments) == it.comment;
    assert it == Item(it.name, it.value, it.comment);
    assert Define(st1, it.name, it.value) == Store(st, it);
    assert Step(st1, lines[1], kinds[1], off + 2, eval) == Ok(Store(st, it));
    assert lines[1..][0] == lines[1] && kinds[1..][0] == kinds[1] && lines[1..][1..] == [];
    assert Run(st1, lines[1..], kinds[1..], off + 1, eval) == Ok(Store(st, it));
  }

  /** The two lines the dump writes for an item store it, with its comment normalised. */
  lemma ItemRun<V>(st: State<V>, it: Item<V>, pretty: V -> string, eval: string -> Option<V>, off: nat)
    requires Good(st) && st.pending.None? && st.current.Some? && st.comments == []
    requires ItemDumpable(it, pretty, eval) && it.name !in st.config[st.current.value].items
    ensures var lines := [CommentLine(it.comment), ItemDef(it, pretty)];
      Run(st, lines, Kinds(lines), off, eval) == Ok(Store(st, NormalItem(it)))
  {
    var lines := [CommentLine(it.comment), ItemDef(it, pretty)];
    CommentLineKind(it.comment);
    ItemDefKind(it, pretty);
    KindsAt(lines, 0);
    KindsAt(lines, 1);
    var k := Kinds(lines);
    assert k == [k[0], k[1]];
    CommentThenDefinition(st, lines, k, NormalItem(it), Strip(pretty(it.value)), off, eval);
  }

  /** No name occurs twice. */
  predicate Distinct(names: seq<string>) {
    forall i, j :: 0 <= i < j < |names| ==> names[i] != names[j]
  }

  /** The items named by `names`, normalised. */
  function NormalItems<V>(items: map<string, Item<V>>, names: seq<string>): map<string, Item<V>>
    requires forall n :: n in names ==> n in items
  {
    map k | k in names :: NormalItem(items[k])
  }

  /** Storing the first item and then the rest is storing them all. */
  lemma StoreThenRest<V>(base: map<string, Item<V>>, items: map<string, Item<V>>, names: seq<string>)
    requires names != [] && (forall n :: n in names ==> n in items && items[n].name == n)
    ensures base[names[0] := NormalItem(items[names[0]])] + NormalItems(items, names[1..]) == base + NormalItems(items, names)
  {
    var n := names[0];
    var lhs := base[n := NormalItem(items[n])] + NormalItems(items, names[1..]);
    var rhs := base + NormalItems(items, names);
    var rest := NormalItems(items, names[1..]);
    var all := NormalItems(items, names);
    assert lhs.Keys == rhs.Keys by {
      assert forall k :: k in rest ==> k in names[1..] && k in names;
      assert names == [n] + names[1..];
    }
    forall k | k in lhs ensures lhs[k] == rhs[k] {
      if k in rest {
        assert k in names;
        assert lhs[k] == NormalItem(items[k]) == all[k];
      } else if k == n {
        assert lhs[k] == NormalItem(items[n]) == all[k];
      } else {
        assert k !in names[1..] && names == [n] + names[1..];
        assert k !in names;
      }
    }
    assert lhs == rhs;
  }

  /** The first item's two lines store it; the run goes on with the other items' lines. */
  lemma ItemsRunHead<V>(st: State<V>, items: map<string, Item<V>>, names: seq<string>, pretty: V -> string,
                        eval: string -> Option<V>, off: nat)
    requires Good(st) && st.pending.None? && st.current.Some? && st.comments == [] && names != []
    requires forall n :: n in names ==> n in items && items[n].name == n
    requires ItemDumpable(items[names[0]], pretty, eval) && names[0] !in st.config[st.current.value].items
    ensures var lines := ItemLines(items, names, pretty);
      var rest := ItemLines(items, names[1..], pretty);
      var st2 := Store(st, NormalItem(items[names[0]]));
      Good(st2) && Run(st, lines, Kinds(lines), off, eval) == Run(st2, rest, Kinds(rest), off + 2, eval)
  {
    var n := names[0];
    var head := [CommentLine(items[n].comment), ItemDef(items[n], pretty)];
    var tail := ItemLines(items, names[1..], pretty);
    assert ItemLines(items, names, pretty) == head + tail;
    ItemRun(st, items[n], pretty, eval, off);
    ThenRun(st, head, tail, Store(st, NormalItem(items[n])), off, eval);
  }

  /** The names after the first are still missing from the section once the first is stored. */
  lemma RestMissing<V>(st: State<V>, it: Item<V>, names: seq<string>)
    requires st.current.Some? && st.current.value in st.config && names != [] && Distinct(names) && it.name == names[0]
    requires forall n :: n in names ==> n !in st.config[st.current.value].items
    ensures Distinct(names[1..])
    ensures forall n :: n in names[1..] ==> n !in Store(st, it).config[st.current.value].items
  {
    forall m | m in names[1..] ensures m != names[0] && m in names {
      var j :| 1 <= j < |names| && names[j] == m;
    }
  }

  /** The lines the dump writes for the items `names` store them all, normalised, in the current
      section. */
  lemma {:induction false} ItemsRun<V>(st: State<V>, items: map<string, Item<V>>, names: seq<string>, pretty: V -> string,
                                      eval: string -> Option<V>, off: nat)
    requires Good(st) && st.pending.None? && st.current.Some? && st.comments == [] && Distinct(names)
    requires forall n :: n in names ==> n in items && items[n].name == n && ItemDumpable(items[n], pretty, eval)
    requires forall n :: n in names ==> n !in st.config[st.current.value].items
    ensures var lines := ItemLines(items, names, pretty);
      Run(st, lines, Kinds(lines), off, eval) == Ok(WithItems(st, st.config[st.current.value].items + NormalItems(items, names)))
    decreases |names|
  {
    var sec := st.config[st.current.value];
    if names == [] {
      assert sec.items + NormalItems(items, names) == sec.items;
      assert WithItems(st, sec.items) == st;
    } else {
      var n := names[0];
      ItemsRunHead(st, items, names, pretty, eval, off);
      var st2 := Store(st, NormalItem(items[n]));
      RestMissing(st, NormalItem(items[n]), names);
      ItemsRun(st2, items, names[1..], pretty, eval, off + 2);
      StoreThenRest(sec.items, items, names);
      WithItemsAgain(st, sec.items[n := NormalItem(items[n])], sec.items + NormalItems(items, names));
    }
  }

  /** The state right after a section header: the new, empty section is current, with the
      pending comment texts joined as its comment. */
  function Opened<V>(st: State<V>, name: string, comment: string): State<V> {
    State(st.config[name := Section(map[], comment)], Some(name), [], [], None)
  }

  /** A header after no comment line opens the section with an empty comment. */
  lemma HeaderAloneRun<V>(st: State<V>, name: string, eval: string -> Option<V>, off: nat)
    requires Good(st) && st.pending.None? && st.comments == [] && IsSectionName(name)
    ensures Run(st, [HeaderLine(name)], Kinds([HeaderLine(name)]), off, eval) == Ok(Opened(st, name, []))
  {
    var lines := [HeaderLine(name)];
    HeaderLineKind(name);
    KindsAt(lines, 0);
    assert Kinds(lines)[0] == Header(name);
    assert JoinComments([]) == [];
    assert Step(st, lines[0], Kinds(lines)[0], off + 1, eval) == Ok(Opened(st, name, []));
    assert lines[1..] == [];
  }

  /** A comment line and then a header open the section with that comment. */
  lemma CommentThenHeader<V>(st: State<V>, lines: seq<string>, kinds: seq<LineKind>, name: string, c: string,
                             off: nat, eval: string -> Option<V>)
    requires Good(st) && st.pending.None? && st.comments == []
    requires |lines| == 2 && kinds == [Comment(c), Header(name)]
    ensures Run(st, lines, kinds, off, eval) == Ok(Opened(st, name, c))
  {
    var st1 := st.(comments := [c]);
    assert kinds[0] == Comment(c) && kinds[1] == Header(name);
    assert st.comments + [c] == [c];
    assert Step(st, lines[0], kinds[0], off + 1, eval) == Ok(st1);
    assert JoinComments(st1.comments) == c;
    assert Step(st1, lines[1], kinds[1], off + 2, eval) == Ok(Opened(st, name, c));
    assert lines[1..][0] == lines[1] && kinds[1..][0] == kinds[1] && lines[1..][1..] == [];
    assert Run(st1, lines[1..], kinds[1..], off + 1, eval) == Ok(Opened(st, name, c));
  }

  /** The dumped comment line of a section, when there is one, and its header open the section
      with its comment normalised. */
  lemma HeaderRun<V>(st: State<V>, name: string, c: string, eval: string -> Option<V>, off: nat)
    requires Good(st) && st.pending.None? && st.comments == [] && IsSectionName(name) && !HasLineBreak(c)
    ensures Run(st, SectionHead(name, c), Kinds(SectionHead(name, c)), off, eval) == Ok(Opened(st, name, LStrip(c)))
  {
    if c == [] {
      var none: seq<string> := [];
      assert none + [HeaderLine(name)] == [HeaderLine(name)];
      HeaderAloneRun(st, name, eval, off);
    } else {
      var head := [CommentLine(c)] + [HeaderLine(name)];
      CommentLineKind(c);
      HeaderLineKind(name);
      KindsAt(head, 0);
      KindsAt(head, 1);
      var k := Kinds(head);
      assert k == [k[0], k[1]];
      CommentThenHeader(st, head, k, name, LStrip(c), off, eval);
    }
  }

  /** Names in ascending order are distinct. */
  lemma AscendingDistinct(names: seq<string>)
    requires Ascending(names)
    ensures Distinct(names)
  {
    forall i, j | 0 <= i < j < |names| ensures names[i] != names[j] {
      BelowIrreflexive(names[i]);
    }
  }

  /** All the items of a section, taken in sorted order and normalised, are its normal form. */
  lemma SortedNormalItems<V>(sec: Section<V>)
    ensures forall n :: n in SortedKeys(sec.items.Keys) ==> n in sec.items
    ensures map[] + NormalItems(sec.items, SortedKeys(sec.items.Keys)) == NormalSection(sec).items
  {
    var names := SortedKeys(sec.items.Keys);
    var lhs := map[] + NormalItems(sec.items, names);
    var rhs := NormalSection(sec).items;
    forall k ensures (k in lhs <==> k in rhs) && (k in lhs ==> lhs[k] == rhs[k]) {
    }
  }

  /** A run over two blocks of lines, the first of which succeeds. */
  lemma ThenRun<V>(st: State<V>, head: seq<string>, body: seq<string>, mid: State<V>, off: nat, eval: string -> Option<V>)
    requires Good(st) && Run(st, head, Kinds(head), off, eval) == Ok(mid)
    ensures Good(mid) && Run(st, head + body, Kinds(head + body), off, eval) == Run(mid, body, Kinds(body), off + |head|, eval)
  {
    KindsAppend(head, body);
    RunAppend(st, head, Kinds(head), body, Kinds(body), off, eval);
  }

  /** A run over lines made of two blocks, the first of which succeeds. */
  lemma RunSplit<V>(st: State<V>, lines: seq<string>, head: seq<string>, body: seq<string>, mid: State<V>, off: nat, eval: string -> Option<V>)
    requires Good(st) && lines == head + body && Run(st, head, Kinds(head), off, eval) == Ok(mid)
    ensures Good(mid) && Run(st, lines, Kinds(lines), off, eval) == Run(mid, body, Kinds(body), off + |head|, eval)
  {
    ThenRun(st, head, body, mid, off, eval);
  }

  /** Filling the items of a section just opened. */
  lemma OpenedThenFilled<V>(st: State<V>, name: string, c: string, items: map<string, Item<V>>)
    ensures WithItems(Opened(st, name, c), items) == State(st.config[name := Section(items, c)], Some(name), [], [], None)
  {
    var o := Opened(st, name, c);
    assert o.config[name] == Section(map[], c);
    assert o.config[name].(items := items) == Section(items, c);
    assert o.config[name := Section(items, c)] == st.config[name := Section(items, c)];
  }

  /** The opened section with all its items stored, normalised, holds the section's normal form. */
  lemma SectionFilled<V>(st: State<V>, name: string, sec: Section<V>)
    ensures forall n :: n in SortedKeys(sec.items.Keys) ==> n in sec.items
    ensures WithItems(Opened(st, name, LStrip(sec.comment)), map[] + NormalItems(sec.items, SortedKeys(sec.items.Keys)))
         == State(st.config[name := NormalSection(sec)], Some(name), [], [], None)
  {
    SortedNormalItems(sec);
    OpenedThenFilled(st, name, LStrip(sec.comment), NormalSection(sec).items);
    assert Section(NormalSection(sec).items, LStrip(sec.comment)) == NormalSection(sec);
  }

  /** The state after the lines of one section: the section stored, normalised, and current. */
  function Entered<V>(st: State<V>, name: string, sec: Section<V>): State<V> {
    State(st.config[name := NormalSection(sec)], Some(name), [], [], None)
  }

  /** The lines the dump writes for a section open it and store all its items: the section is
      stored, normalised, and becomes the current one. */
  lemma SectionRun<V>(st: State<V>, name: string, sec: Section<V>, pretty: V -> string, eval: string -> Option<V>, off: nat)
    requires Good(st) && st.pending.None? && st.comments == [] && IsSectionName(name) && SectionDumpable(sec, pretty, eval)
    ensures var lines := SectionLines(name, sec, pretty);
      Run(st, lines, Kinds(lines), off, eval) == Ok(Entered(st, name, sec))
  {
    var names := SortedKeys(sec.items.Keys);
    var head := SectionHead(name, sec.comment);
    var body := ItemLines(sec.items, names, pretty);
    HeaderRun(st, name, sec.comment, eval, off);
    ThenRun(st, head, body, Opened(st, name, LStrip(sec.comment)), off, eval);
    AscendingDistinct(names);
    SectionFilled(st, name, sec);
    ItemsRun(Opened(st, name, LStrip(sec.comment)), sec.items, names, pretty, eval, off + |head|);
  }

  /** The empty line before a section changes nothing. */
  lemma BlankRun<V>(st: State<V>, off: nat, eval: string -> Option<V>)
    requires Good(st) && st.pending.None?
    ensures Run(st, [""], Kinds([""]), off, eval) == Ok(st)
  {
    EmptyLineKind();
    assert Kinds([""]) == [Blank];
    assert [""][1..] == [];
  }

  /** A section after its empty line is stored as it would be alone. */
  lemma SeparatedSectionRun<V>(st: State<V>, name: string, sec: Section<V>, pretty: V -> string, eval: string -> Option<V>, off: nat)
    requires Good(st) && st.pending.None? && st.comments == [] && IsSectionName(name) && SectionDumpable(sec, pretty, eval)
    ensures var lines := [""] + SectionLines(name, sec, pretty);
      Run(st, lines, Kinds(lines), off, eval) == Ok(Entered(st, name, sec))
  {
    BlankRun(st, off, eval);
    ThenRun(st, [""], SectionLines(name, sec, pretty), st, off, eval);
    SectionRun(st, name, sec, pretty, eval, off + 1);
  }

  /** The sections named by `names`, normalised. */
  function NormalSections<V>(cfg: Config<V>, names: seq<string>): Config<V>
    requires forall n :: n in names ==> n in cfg
  {
    map s | s in names :: NormalSection(cfg[s])
  }

  /** Overriding one key before a union, with the value the union would give it anyway. */
  lemma UpdateUnion<X>(base: map<string, X>, f: map<string, X>, n: string, x: X)
    requires n in f ==> f[n] == x
    ensures base[n := x] + f == base + f[n := x]
  {
    var lhs := base[n := x] + f;
    var rhs := base + f[n := x];
    forall k ensures (k in lhs <==> k in rhs) && (k in lhs ==> lhs[k] == rhs[k]) {
    }
  }

  lemma NormalSectionsCons<V>(cfg: Config<V>, names: seq<string>)
    requires names != [] && forall n :: n in names ==> n in cfg
    ensures NormalSections(cfg, names) == NormalSections(cfg, names[1..])[names[0] := NormalSection(cfg[names[0]])]
  {
    var lhs := NormalSections(cfg, names);
    var rhs := NormalSections(cfg, names[1..])[names[0] := NormalSection(cfg[names[0]])];
    forall k ensures (k in lhs <==> k in rhs) {
      assert k in names[1..] ==> k in names;
      assert k in names && k != names[0] ==> k in names[1..];
    }
  }

  /** Storing the first section and then the rest is storing them all. */
  lemma SectionThenRest<V>(base: Config<V>, cfg: Config<V>, names: seq<string>)
    requires names != [] && forall n :: n in names ==> n in cfg
    ensures base[names[0] := NormalSection(cfg[names[0]])] + NormalSections(cfg, names[1..]) == base + NormalSections(cfg, names)
  {
    NormalSectionsCons(cfg, names);
    UpdateUnion(base, NormalSections(cfg, names[1..]), names[0], NormalSection(cfg[names[0]]));
  }

  /** The configuration after storing the sections `names` one by one, normalised, over `base`. */
  function Overlay<V>(base: Config<V>, cfg: Config<V>, names: seq<string>): Config<V>
    requires forall n :: n in names ==> n in cfg
    decreases |names|
  {
    if names == [] then base else Overlay(base[names[0] := NormalSection(cfg[names[0]])], cfg, names[1..])
  }

  /** Storing them one by one is storing them all at once. */
  lemma {:induction false} OverlayAll<V>(base: Config<V>, cfg: Config<V>, names: seq<string>)
    requires forall n :: n in names ==> n in cfg
    ensures Overlay(base, cfg, names) == base + NormalSections(cfg, names)
    decreases |names|
  {
    if names == [] {
      assert base + NormalSections(cfg, names) == base;
    } else {
      OverlayAll(base[names[0] := NormalSection(cfg[names[0]])], cfg, names[1..]);
      SectionThenRest(base, cfg, names);
    }
  }

  /** The current section after the sections `names`: the last of them, if any. */
  function LastOf(current: Option<string>, names: seq<string>): Option<string> {
    if names == [] then current else Some(names[|names| - 1])
  }

  /** The first of the separated sections enters it; the run goes on with the others. */
  lemma SeparatedStep<V>(st: State<V>, cfg: Config<V>, names: seq<string>, pretty: V -> string, eval: string -> Option<V>, off: nat,
                         lines: seq<string>, head: seq<string>, rest: seq<string>, mid: State<V>)
    requires Good(st) && st.pending.None? && st.comments == [] && names != []
    requires forall n :: n in names ==> n in cfg
    requires Dumpable(cfg, pretty, eval)
    requires lines == SeparatedLines(cfg, names, pretty) && rest == SeparatedLines(cfg, names[1..], pretty)
    requires head == [""] + SectionLines(names[0], cfg[names[0]], pretty) && mid == Entered(st, names[0], cfg[names[0]])
    ensures Good(mid) && Run(st, lines, Kinds(lines), off, eval) == Run(mid, rest, Kinds(rest), off + |head|, eval)
  {
    assert lines == head + rest;
    SeparatedSectionRun(st, names[0], cfg[names[0]], pretty, eval, off);
    RunSplit(st, lines, head, rest, mid, off, eval);
  }

  /** The state after the sections `names`, one by one, each after an empty line. */
  function Final<V>(st: State<V>, cfg: Config<V>, names: seq<string>): State<V>
    requires forall n :: n in names ==> n in cfg
  {
    State(Overlay(st.config, cfg, names), LastOf(st.current, names), [], [], None)
  }

  lemma FinalStep<V>(st: State<V>, cfg: Config<V>, names: seq<string>)
    requires names != [] && forall n :: n in names ==> n in cfg
    ensures Final(Entered(st, names[0], cfg[names[0]]), cfg, names[1..]) == Final(st, cfg, names)
  {
    assert LastOf(Some(names[0]), names[1..]) == LastOf(st.current, names);
  }

  /** The sections the dump writes after the first, each after an empty line, are all stored,
      normalised, over what the configuration held before; the last becomes the current one.
      The lines may start at any line number. */
  lemma {:induction false} SeparatedRun<V>(st: State<V>, cfg: Config<V>, names: seq<string>, pretty: V -> string,
                                            eval: string -> Option<V>, lines: seq<string>)
    requires Good(st) && st.pending.None? && st.comments == []
    requires forall n :: n in names ==> n in cfg
    requires Dumpable(cfg, pretty, eval) && lines == SeparatedLines(cfg, names, pretty)
    ensures forall off: nat :: Run(st, lines, Kinds(lines), off, eval) == Ok(Final(st, cfg, names))
    decreases |names|
  {
    if names == [] {
      assert st == State(st.config, st.current, [], [], None);
    } else {
      var head := [""] + SectionLines(names[0], cfg[names[0]], pretty);
      var rest := SeparatedLines(cfg, names[1..], pretty);
      var mid := Entered(st, names[0], cfg[names[0]]);
      SeparatedRun(mid, cfg, names[1..], pretty, eval, rest);
      FinalStep(st, cfg, names);
      forall off: nat ensures Run(st, lines, Kinds(lines), off, eval) == Ok(Final(st, cfg, names)) {
        SeparatedStep(st, cfg, names, pretty, eval, off, lines, head, rest, mid);
      }
    }
  }

  /** All the sections, taken in sorted order and normalised, are the normal form. */
  lemma SortedNormalSections<V>(cfg: Config<V>)
    ensures forall n :: n in SortedKeys(cfg.Keys) ==> n in cfg
    ensures map[] + NormalSections(cfg, SortedKeys(cfg.Keys)) == Normalized(cfg)
  {
    var lhs := map[] + NormalSections(cfg, SortedKeys(cfg.Keys));
    var rhs := Normalized(cfg);
    forall k ensures (k in lhs <==> k in rhs) && (k in lhs ==> lhs[k] == rhs[k]) {
    }
  }

  /** After all the sections in sorted order, nothing is pending and the configuration is in
      normal form. */
  lemma FinalNormalized<V>(cfg: Config<V>)
    ensures forall n :: n in SortedKeys(cfg.Keys) ==> n in cfg
    ensures Final(Init(), cfg, SortedKeys(cfg.Keys)).config == Normalized(cfg)
  {
    SortedNormalSections(cfg);
    OverlayAll(map[], cfg, SortedKeys(cfg.Keys));
  }

  /** The loop over the dumped lines stores every section, in sorted order. */
  lemma DumpRun<V>(cfg: Config<V>, pretty: V -> string, eval: string -> Option<V>, lines: seq<string>)
    requires Dumpable(cfg, pretty, eval) && lines == DumpLines(cfg, pretty)
    ensures forall n :: n in SortedKeys(cfg.Keys) ==> n in cfg
    ensures Run(Init(), lines, Kinds(lines), 0, eval) == Ok(Final(Init(), cfg, SortedKeys(cfg.Keys)))
  {
    var names := SortedKeys(cfg.Keys);
    var st: State<V> := Init();
    if names == [] {
      assert Final(st, cfg, names) == st;
    } else {
      var head := SectionLines(names[0], cfg[names[0]], pretty);
      var rest := SeparatedLines(cfg, names[1..], pretty);
      var mid := Entered(st, names[0], cfg[names[0]]);
      assert lines == head + rest;
      SectionRun(st, names[0], cfg[names[0]], pretty, eval, 0);
      RunSplit(st, lines, head, rest, mid, 0, eval);
      SeparatedRun(mid, cfg, names[1..], pretty, eval, rest);
      FinalStep(st, cfg, names);
    }
  }

  /** Parsing the dumped lines gives the configuration back in normal form. */
  lemma ParseDumpLines<V>(cfg: Config<V>, pretty: V -> string, eval: string -> Option<V>)
    requires Dumpable(cfg, pretty, eval)
    ensures ParseLines(DumpLines(cfg, pretty), eval) == Ok(Normalized(cfg))
  {
    DumpRun(cfg, pretty, eval, DumpLines(cfg, pretty));
    FinalNormalized(cfg);
  }
}
