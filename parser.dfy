/** `_parse_config` as a specification: one step per line over an explicit parser state, and the
    run over all lines with the end-of-input check. Line numbers count from 1, as `enumerate(lines, 1)`. */
module Parser {

  import opened Wrappers
  import opened Text
  import opened Classify
  import opened Values

  /** The reasons `_parse_config` raises `ValueError`. */
  datatype ErrorKind =
    | UnfinishedDefinition      // "could not evaluate definition at line n"
    | ItemOutsideSection        // "item definition outside of any section on line n"
    | DuplicateDefinition       // "duplicate definition on line n"
    | SyntaxError(text: string) // "syntax error at line n: <line>"

  datatype ParseError = ParseError(kind: ErrorKind, line: nat)

  /** What the parser tells apart, in the order it tests for them: a section header, an item
      definition, a comment, a whitespace-only line, and anything else (a continuation or an error). */
  datatype LineKind =
    | Header(name: string)
    | Definition(name: string, value: string)
    | Comment(text: string)
    | Blank
    | Other(text: string)

  function KindOf(line: string): (k: LineKind)
    ensures k.Header? ==> IsSectionName(k.name)
    ensures k.Definition? ==> IsWordName(k.name)
    ensures k.Comment? ==> '\n' !in k.text
  {
    match ParseSectionHeader(line)
    case Some(name) => Header(name)
    case None =>
      match ParseVarDef(line)
      case Some((name, value)) => Definition(name, value)
      case None =>
        match ParseComment(line)
        case Some(text) => Comment(text)
        case None => if IsWhitespace(line) then Blank else Other(Strip(line))
  }

  /** The precedence of the tests: a header first, then a definition, then a comment, then a
      whitespace-only line; each kind carries what its extractor returned. */
  lemma KindOfPrecedence(line: string)
    ensures KindOf(line).Header? <==> ParseSectionHeader(line).Some?
    ensures KindOf(line).Header? ==> ParseSectionHeader(line) == Some(KindOf(line).name) && Strip(line) == "[" + KindOf(line).name + "]"
    ensures KindOf(line).Definition? <==> ParseSectionHeader(line).None? && ParseVarDef(line).Some?
    ensures KindOf(line).Definition? ==> ParseVarDef(line) == Some((KindOf(line).name, KindOf(line).value)) && IsStripped(KindOf(line).value)
    ensures KindOf(line).Comment? <==> ParseSectionHeader(line).None? && ParseVarDef(line).None? && IsComment(line)
    ensures KindOf(line).Comment? ==> ParseComment(line) == Some(KindOf(line).text)
    ensures KindOf(line).Blank? <==> ParseSectionHeader(line).None? && ParseVarDef(line).None? && !IsComment(line) && IsWhitespace(line)
    ensures KindOf(line).Other? ==> KindOf(line).text == Strip(line)
  {
  }

  /** What a kind guarantees about the names it carries. */
  predicate Sound(k: LineKind) {
    (k.Header? ==> IsSectionName(k.name)) && (k.Definition? ==> IsWordName(k.name))
  }

  /** The kind of every line, computed once. */
  function Kinds(lines: seq<string>): (ks: seq<LineKind>)
    ensures |ks| == |lines| && AllSound(ks)
  {
    if lines == [] then [] else [KindOf(lines[0])] + Kinds(lines[1..])
  }

  /** The loop variables of `_parse_config`: the configuration built so far, the name of the
      current section (`None` before the first header), the pending comment texts, the fragments
      of a multi-line definition and the name of the pending definition. */
  datatype State<V> = State(
    config: Config<V>,
    current: Option<string>,
    comments: seq<string>,
    fragments: seq<string>,
    pending: Option<string>)

  function Init<V>(): State<V> {
    State(map[], None, [], [], None)
  }

  /** Names as the parser accepts them: section names of `[\w-]`, item names of `\w`, each item
      stored under its own name. */
  predicate WellNamed<V>(c: Config<V>) {
    forall s :: s in c ==> IsSectionName(s) && SectionKeyedByName(c[s]) && (forall k :: k in c[s].items ==> IsWordName(k))
  }

  /** The shape every step keeps: the current section exists, a pending definition has a
      section to go to, and fragments exist only while a definition is pending. */
  predicate Good<V>(st: State<V>) {
    && (st.current.Some? ==> st.current.value in st.config)
    && (st.pending.Some? ==> st.current.Some?)
    && (st.pending.None? ==> st.fragments == [])
  }

  /** The names every step keeps well formed, given lines classified soundly. */
  predicate Named<V>(st: State<V>) {
    WellNamed(st.config) && (st.pending.Some? ==> IsWordName(st.pending.value))
  }

  /** The comment a new section or item receives: the pending texts joined by single spaces. */
  function JoinComments(comments: seq<string>): string {
    Join(comments, " ")
  }

  /** A definition that evaluated: the item is stored in the current section and the pending
      comments, fragments and name are cleared. */
  function Define<V>(st: State<V>, name: string, v: V): State<V>
    requires st.current.Some? && st.current.value in st.config
  {
    var s := st.current.value;
    var sec := st.config[s];
    st.(config := st.config[s := sec.(items := sec.items[name := Item(name, v, JoinComments(st.comments))])],
        comments := [], fragments := [], pending := None)
  }

  /** One iteration of the loop of `_parse_config`, on line number `lnum`. Every error names the
      line, and each kind of error happens exactly in its own situation. */
  function Step<V>(st: State<V>, line: string, kind: LineKind, lnum: nat, eval: string -> Option<V>): (r: Result<State<V>, ParseError>)
    requires Good(st)
    ensures r.Ok? ==> Good(r.value) && st.config.Keys <= r.value.config.Keys
    ensures r.Err? ==> r.error.line == lnum
  {
    match kind
    case Header(name) =>
      if st.pending.Some? then Err(ParseError(UnfinishedDefinition, lnum))
      else Ok(st.(config := st.config[name := Section(map[], JoinComments(st.comments))], current := Some(name), comments := []))
    case Definition(name, val) =>
      if st.pending.Some? then Err(ParseError(UnfinishedDefinition, lnum))
      else if st.current.None? then Err(ParseError(ItemOutsideSection, lnum))
      else if name in st.config[st.current.value].items then Err(ParseError(DuplicateDefinition, lnum))
      else
        (match eval(val)
         case Some(v) => Ok(Define(st, name, v))
         case None => Ok(st.(pending := Some(name), fragments := st.fragments + [val])))
    case Comment(text) =>
      if st.pending.Some? then Err(ParseError(UnfinishedDefinition, lnum))
      else Ok(st.(comments := st.comments + [text]))
    case Blank =>
      if st.pending.Some? then Err(ParseError(UnfinishedDefinition, lnum))
      else Ok(st)
    case Other(text) =>
      if st.pending.None? then Err(ParseError(SyntaxError(line), lnum))
      else
        var fragments := st.fragments + [text];
        match eval(Join(fragments, ""))
        case Some(v) => Ok(Define(st, st.pending.value, v))
        case None => Ok(st.(fragments := fragments))
  }

  /** Each kind of error happens in exactly its own situation. */
  lemma StepErrors<V>(st: State<V>, line: string, kind: LineKind, lnum: nat, eval: string -> Option<V>)
    requires Good(st)
    ensures var r := Step(st, line, kind, lnum, eval);
      && (r.Err? && r.error.kind == UnfinishedDefinition <==> st.pending.Some? && !kind.Other?)
      && (r.Err? && r.error.kind == ItemOutsideSection <==> st.pending.None? && kind.Definition? && st.current.None?)
      && (r.Err? && r.error.kind == DuplicateDefinition <==>
            st.pending.None? && kind.Definition? && st.current.Some? && kind.name in st.config[st.current.value].items)
      && (r.Err? && r.error.kind.SyntaxError? <==> st.pending.None? && kind.Other?)
      && (r.Err? && r.error.kind.SyntaxError? ==> r.error.kind.text == line)
  {
  }

  predicate AllSound(kinds: seq<LineKind>) {
    forall i :: 0 <= i < |kinds| ==> Sound(kinds[i])
  }

  /** The loop over `lines`, of the given kinds, numbered from `off + 1`; it stops at the first error. */
  function Run<V>(st: State<V>, lines: seq<string>, kinds: seq<LineKind>, off: nat, eval: string -> Option<V>): (r: Result<State<V>, ParseError>)
    requires Good(st) && |kinds| == |lines|
    ensures r.Ok? ==> Good(r.value) && st.config.Keys <= r.value.config.Keys
    ensures r.Err? ==> off < r.error.line <= off + |lines|
    decreases |lines|
  {
    if lines == [] then Ok(st)
    else
      match Step(st, lines[0], kinds[0], off + 1, eval)
      case Err(e) => Err(e)
      case Ok(next) => Run(next, lines[1..], kinds[1..], off + 1, eval)
  }

  /** A step on a soundly classified line keeps every name well formed. */
  lemma StepNamed<V>(st: State<V>, line: string, kind: LineKind, lnum: nat, eval: string -> Option<V>)
    requires Good(st) && Named(st) && Sound(kind)
    ensures Step(st, line, kind, lnum, eval).Ok? ==> Named(Step(st, line, kind, lnum, eval).value)
  {
  }

  /** So does the loop over soundly classified lines. */
  lemma {:induction false} RunNamed<V>(st: State<V>, lines: seq<string>, kinds: seq<LineKind>, off: nat, eval: string -> Option<V>)
    requires Good(st) && Named(st) && |kinds| == |lines| && AllSound(kinds)
    ensures Run(st, lines, kinds, off, eval).Ok? ==> Named(Run(st, lines, kinds, off, eval).value)
    decreases |lines|
  {
    if lines != [] {
      StepNamed(st, lines[0], kinds[0], off + 1, eval);
      match Step(st, lines[0], kinds[0], off + 1, eval)
      case Err(_) =>
      case Ok(next) => RunNamed(next, lines[1..], kinds[1..], off + 1, eval);
    }
  }

  /** The loop followed by the end-of-input check: a definition still pending when the lines run
      out is an error reported at the last line. */
  function ParseKinds<V>(lines: seq<string>, kinds: seq<LineKind>, eval: string -> Option<V>): (r: Result<Config<V>, ParseError>)
    requires |kinds| == |lines|
    ensures r.Err? ==> 1 <= r.error.line <= |lines|
  {
    match Run(Init(), lines, kinds, 0, eval)
    case Err(e) => Err(e)
    case Ok(st) => if st.pending.Some? then Err(ParseError(UnfinishedDefinition, |lines|)) else Ok(st.config)
  }

  /** `_parse_config(lines)`: every line classified, then the loop and the end-of-input check.
      Section names are made of `[\w-]` and item names of `\w`, each item under its own name. */
  function ParseLines<V>(lines: seq<string>, eval: string -> Option<V>): (r: Result<Config<V>, ParseError>)
    ensures r.Err? ==> 1 <= r.error.line <= |lines|
    ensures r.Ok? ==> WellNamed(r.value)
  {
    var kinds := Kinds(lines);
    RunNamed(Init(), lines, kinds, 0, eval);
    ParseKinds(lines, kinds, eval)
  }
}
