/** `_parse_config` as the source runs it: one pass over the lines that builds `ConfigContainer`
    and `ConfigItem` objects, with the comments, definition fragments, current section and pending
    definition in local variables. It is proved to build exactly what `Parser.ParseLines`
    specifies, and to fail with exactly its error. */
module ParseConfig {

  import opened Wrappers
  import opened Text
  import opened Classify
  import opened Values
  import opened Tree
  import opened Parser
  import opened ParserProps

  /** One iteration of the run, at position `i`, when its step succeeds. */
  lemma RunAt<V>(st: State<V>, lines: seq<string>, kinds: seq<LineKind>, i: nat, eval: string -> Option<V>)
    requires Good(st) && |kinds| == |lines| && i < |lines|
    requires Step(st, lines[i], kinds[i], i + 1, eval).Ok?
    ensures Run(st, lines[i..], kinds[i..], i, eval) ==
      Run(Step(st, lines[i], kinds[i], i + 1, eval).value, lines[i + 1..], kinds[i + 1..], i + 1, eval)
  {
    assert lines[i..][0] == lines[i] && lines[i..][1..] == lines[i + 1..];
    assert kinds[i..][0] == kinds[i] && kinds[i..][1..] == kinds[i + 1..];
  }

  /** The run stops at a failing step, with its error. */
  lemma RunFailsAt<V>(st: State<V>, lines: seq<string>, kinds: seq<LineKind>, i: nat, eval: string -> Option<V>)
    requires Good(st) && |kinds| == |lines| && i < |lines|
    requires Step(st, lines[i], kinds[i], i + 1, eval).Err?
    ensures Run(st, lines[i..], kinds[i..], i, eval) == Err(Step(st, lines[i], kinds[i], i + 1, eval).error)
  {
    assert lines[i..][0] == lines[i] && kinds[i..][0] == kinds[i];
  }

  /** The section branch: a new empty container with the given comment is bound to `name` in the
      root, replacing any section of that name; the other sections are untouched. */
  method AddSection<V>(config: ConfigContainer<V>, name: string, comment: string) returns (sec: ConfigContainer<V>)
    requires config.IsConfig()
    modifies config
    ensures fresh(sec) && config.IsConfig() && fresh(config.Repr - old(config.Repr))
    ensures config.items == old(config.items)[name := SectionChild(sec)]
    ensures config.View() == old(config.View())[name := Section(map[], comment)]
  {
    sec := new ConfigContainer(map[], comment);
    config.SetAttr(name, AssignChild(SectionChild(sec)));
    config.Repr := config.Repr + {sec};
    ConfigRebound(config, name, sec);
    assert sec.SectionView() == Section(map[], comment);
  }

  /** A definition that evaluated: a new item is bound to `name` in the section bound to `secname`,
      which did not hold that name; everything else is untouched. */
  method AddItem<V>(config: ConfigContainer<V>, ghost secname: string, sec: ConfigContainer<V>, name: string, v: V, comment: string)
    requires config.IsConfig() && secname in config.items && config.items[secname] == SectionChild(sec) && name !in sec.items
    modifies config, sec
    ensures config.IsConfig() && config.items == old(config.items) && fresh(config.Repr - old(config.Repr))
    ensures config.View() == old(config.View())[secname := old(config.View())[secname].(items := old(config.View())[secname].items[name := Item(name, v, comment)])]
  {
    var item := new ConfigItem(name, v, comment);
    sec.SetAttr(name, AssignChild(ItemChild(item)));
    sec.Repr := sec.Repr + {item};
    config.Repr := config.Repr + {item};
    ItemAdded(config, secname, sec, name, item);
  }

  /** The loop variables of `_parse_config` and the objects built so far hold exactly the state
      `st` of the run: the root reads as its sections, `comments`, `def_lines` and `ongoing` are its
      pending comments, fragments and name, and `current` is the container bound to its current
      section, which does not hold the pending name. */
  ghost predicate Mirrors<V>(config: ConfigContainer<V>, current: ConfigContainer?<V>, comments: seq<string>, defLines: seq<string>,
                             ongoing: Option<string>, st: State<V>)
    reads config, config.Repr
  {
    && Good(st)
    && config.IsConfig() && config.View() == st.config
    && st.comments == comments && st.fragments == defLines && st.pending == ongoing
    && (st.current.None? <==> current == null)
    && (current != null ==> st.current.value in config.items && config.items[st.current.value] == SectionChild(current))
    && (ongoing.Some? && current != null ==> ongoing.value !in current.items)
  }

  /** One iteration of the loop of `_parse_config` on line `li`, numbered `lnum`: it fails
      exactly when `Parser.Step` does, with its error, and otherwise leaves the variables and
      objects holding the state `Step` gives. */
  method ParseLine<V>(config: ConfigContainer<V>, current: ConfigContainer?<V>, comments: seq<string>, defLines: seq<string>,
                      ongoing: Option<string>, li: string, lnum: nat, eval: string -> Option<V>, ghost st: State<V>)
    returns (err: Option<ParseError>, current': ConfigContainer?<V>, comments': seq<string>, defLines': seq<string>, ongoing': Option<string>)
    requires Mirrors(config, current, comments, defLines, ongoing, st)
    modifies config, if current == null then {} else {current}
    ensures var step := Step(st, li, KindOf(li), lnum, eval);
      && (err.Some? <==> step.Err?)
      && (err.Some? ==> err.value == step.error)
      && (err.None? ==> Mirrors(config, current', comments', defLines', ongoing', step.value))
    ensures current' != null ==> current' == current || fresh(current')
  {
    err, current', comments', defLines', ongoing' := None, current, comments, defLines, ongoing;
    match KindOf(li) {
    case Header(secname) =>
      if ongoing.Some? {
        err := Some(ParseError(UnfinishedDefinition, lnum));
        return;
      }
      current' := AddSection(config, secname, JoinComments(comments));
      comments' := [];
    case Definition(name, val) =>
      if ongoing.Some? {
        err := Some(ParseError(UnfinishedDefinition, lnum));
        return;
      } else if current == null {
        err := Some(ParseError(ItemOutsideSection, lnum));
        return;
      } else if current.Contains(name) {
        err := Some(ParseError(DuplicateDefinition, lnum));
        return;
      }
      match eval(val) {
        case Some(v) =>
          AddItem(config, st.current.value, current, name, v, JoinComments(comments));
          comments' := [];
          defLines' := [];
          ongoing' := None;
        case None =>
          ongoing' := Some(name);
          defLines' := defLines + [val];
      }
    case Comment(text) =>
      if ongoing.Some? {
        err := Some(ParseError(UnfinishedDefinition, lnum));
        return;
      }
      comments' := comments + [text];
    case Blank =>
      if ongoing.Some? {
        err := Some(ParseError(UnfinishedDefinition, lnum));
        return;
      }
    case Other(text) =>
      if ongoing.None? {
        err := Some(ParseError(SyntaxError(li), lnum));
        return;
      }
      defLines' := defLines + [text];
      match eval(Join(defLines', "")) {
        case Some(v) =>
          AddItem(config, st.current.value, current, ongoing.value, v, JoinComments(comments));
          comments' := [];
          defLines' := [];
          ongoing' := None;
        case None =>
      }
    }
  }

  /** `_parse_config(lines)`. On success the result is a fresh root container whose sections and
      items are exactly those `ParseLines` gives; on failure the error is the one it gives. */
  method ParseConfig<V>(lines: seq<string>, eval: string -> Option<V>) returns (r: Result<ConfigContainer<V>, ParseError>)
    ensures r.Err? <==> ParseLines(lines, eval).Err?
    ensures r.Err? ==> r.error == ParseLines(lines, eval).error
    ensures r.Ok? ==> fresh(r.value) && r.value.IsConfig() && r.value.View() == ParseLines(lines, eval).value
  {
    var comments: seq<string> := [];
    var defLines: seq<string> := [];
    var current: ConfigContainer?<V> := null;
    var ongoing: Option<string> := None;
    var config := new ConfigContainer(map[], "");
    ghost var kinds := Kinds(lines);
    ghost var st: State<V> := Init();
    var i := 0;
    while i < |lines|
      invariant 0 <= i <= |lines|
      invariant fresh(config) && (current != null ==> fresh(current))
      invariant Mirrors(config, current, comments, defLines, ongoing, st)
      invariant Run(st, lines[i..], kinds[i..], i, eval) == Run(Init(), lines, kinds, 0, eval)
    {
      KindsAt(lines, i);
      var err;
      err, current, comments, defLines, ongoing := ParseLine(config, current, comments, defLines, ongoing, lines[i], i + 1, eval, st);
      if err.Some? {
        RunFailsAt(st, lines, kinds, i, eval);
        return Err(err.value);
      }
      RunAt(st, lines, kinds, i, eval);
      st := Step(st, lines[i], kinds[i], i + 1, eval).value;
      i := i + 1;
    }
    assert lines[i..] == [] && kinds[i..] == [];
    if ongoing.Some? {
      return Err(ParseError(UnfinishedDefinition, |lines|));
    }
    return Ok(config);
  }
}
