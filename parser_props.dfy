/** What `_parse_config` promises about whole inputs: where each error is reported and why,
    how repeated sections, multi-line definitions and comments behave. */
module ParserProps {

  import opened Wrappers
  import opened Text
  import opened Values
  import opened Parser

  lemma {:induction false} KindsAt(lines: seq<string>, i: nat)
    requires i < |lines|
    ensures Kinds(lines)[i] == KindOf(lines[i])
  {
    if i > 0 {
      KindsAt(lines[1..], i - 1);
    }
  }

  lemma {:induction false} KindsAppend(a: seq<string>, b: seq<string>)
    ensures Kinds(a + b) == Kinds(a) + Kinds(b)
  {
    if a == [] {
      assert a + b == b;
    } else {
      assert (a + b)[0] == a[0] && (a + b)[1..] == a[1..] + b;
      KindsAppend(a[1..], b);
    }
  }

  /** The kinds of the first `n` lines and of the rest. */
  lemma KindsSplit(lines: seq<string>, n: nat)
    requires n <= |lines|
    ensures Kinds(lines)[..n] == Kinds(lines[..n]) && Kinds(lines)[n..] == Kinds(lines[n..])
  {
    assert lines == lines[..n] + lines[n..];
    KindsAppend(lines[..n], lines[n..]);
  }

  /** The run over `lines` from the outcome `r` of the earlier lines: an error stays. */
  function Continue<V>(r: Result<State<V>, ParseError>, lines: seq<string>, kinds: seq<LineKind>, off: nat, eval: string -> Option<V>): Result<State<V>, ParseError>
    requires |kinds| == |lines| && (r.Ok? ==> Good(r.value))
  {
    match r
    case Err(e) => Err(e)
    case Ok(s) => Run(s, lines, kinds, off, eval)
  }

  /** The end of `_parse_config` after the outcome `r` of all `n` lines: a definition still
      pending is an error at the last line. */
  function Finish<V>(r: Result<State<V>, ParseError>, n: nat): Result<Config<V>, ParseError> {
    match r
    case Err(e) => Err(e)
    case Ok(fin) => if fin.pending.Some? then Err(ParseError(UnfinishedDefinition, n)) else Ok(fin.config)
  }

  /** The run over one line is the step on it. */
  lemma RunSingle<V>(st: State<V>, line: string, k: LineKind, off: nat, eval: string -> Option<V>)
    requires Good(st)
    ensures Run(st, [line], [k], off, eval) == Step(st, line, k, off + 1, eval)
  {
  }

  /** The run over `a + b` is the run over `a` followed, if it succeeded, by the run over `b`. */
  lemma {:induction false} RunAppend<V>(st: State<V>, a: seq<string>, ka: seq<LineKind>, b: seq<string>, kb: seq<LineKind>,
                                       off: nat, eval: string -> Option<V>)
    requires Good(st) && |ka| == |a| && |kb| == |b|
    ensures Run(st, a + b, ka + kb, off, eval) == Continue(Run(st, a, ka, off, eval), b, kb, off + |a|, eval)
    decreases |a|
  {
    if a == [] {
      assert a + b == b && ka + kb == kb;
    } else {
      assert (a + b)[0] == a[0] && (a + b)[1..] == a[1..] + b;
      assert (ka + kb)[0] == ka[0] && (ka + kb)[1..] == ka[1..] + kb;
      match Step(st, a[0], ka[0], off + 1, eval)
      case Err(e) =>
      case Ok(next) => RunAppend(next, a[1..], ka[1..], b, kb, off + 1, eval);
    }
  }

  /** An error stops the run: the run up to the erring line succeeds, and the step on that line
      fails with the error. */
  lemma {:induction false} RunErrorAt<V>(st: State<V>, lines: seq<string>, kinds: seq<LineKind>, off: nat, eval: string -> Option<V>)
    requires Good(st) && |kinds| == |lines| && Run(st, lines, kinds, off, eval).Err?
    ensures var e := Run(st, lines, kinds, off, eval).error;
      var n := e.line - off - 1;
      0 <= n < |lines| && Run(st, lines[..n], kinds[..n], off, eval).Ok?
      && Step(Run(st, lines[..n], kinds[..n], off, eval).value, lines[n], kinds[n], e.line, eval) == Err(e)
    decreases |lines|
  {
    assert lines[..0] == [] && kinds[..0] == [];
    match Step(st, lines[0], kinds[0], off + 1, eval)
    case Err(e) =>
    case Ok(next) =>
      RunErrorAt(next, lines[1..], kinds[1..], off + 1, eval);
      var e := Run(st, lines, kinds, off, eval).error;
      var n := e.line - off - 1;
      assert lines[..n][1..] == lines[1..][..n - 1] && lines[..n][0] == lines[0];
      assert kinds[..n][1..] == kinds[1..][..n - 1] && kinds[..n][0] == kinds[0];
  }

  /** The state after the first `n` lines, or the error among them. */
  function Prefix<V>(lines: seq<string>, kinds: seq<LineKind>, n: nat, eval: string -> Option<V>): (r: Result<State<V>, ParseError>)
    requires |kinds| == |lines| && n <= |lines|
    ensures r.Ok? ==> Good(r.value)
    ensures r.Err? ==> 1 <= r.error.line <= n
  {
    Run(Init(), lines[..n], kinds[..n], 0, eval)
  }

  /** Every error of the parse has a cause: either the definition still pending at the end of
      the input, reported at the last line, or the line it names, on which the step from the
      state reached by the earlier lines fails. */
  lemma ErrorCause<V>(lines: seq<string>, kinds: seq<LineKind>, eval: string -> Option<V>)
    requires |kinds| == |lines| && ParseKinds(lines, kinds, eval).Err?
    ensures var e := ParseKinds(lines, kinds, eval).error;
      || (Prefix(lines, kinds, |lines|, eval).Ok? && Prefix(lines, kinds, |lines|, eval).value.pending.Some?
          && e == ParseError(UnfinishedDefinition, |lines|))
      || (Prefix(lines, kinds, e.line - 1, eval).Ok?
          && Step(Prefix(lines, kinds, e.line - 1, eval).value, lines[e.line - 1], kinds[e.line - 1], e.line, eval) == Err(e))
  {
    assert lines[..|lines|] == lines && kinds[..|lines|] == kinds;
    if Run(Init(), lines, kinds, 0, eval).Err? {
      RunErrorAt(Init(), lines, kinds, 0, eval);
    }
  }

  /** Splitting the input at line `n`: the parse is the prefix followed by the rest. */
  lemma SplitAt<V>(lines: seq<string>, kinds: seq<LineKind>, n: nat, eval: string -> Option<V>)
    requires |kinds| == |lines| && n <= |lines|
    ensures ParseKinds(lines, kinds, eval) == Finish(Continue(Prefix(lines, kinds, n, eval), lines[n..], kinds[n..], n, eval), |lines|)
  {
    var a, b, ka, kb := lines[..n], lines[n..], kinds[..n], kinds[n..];
    assert lines == a + b && kinds == ka + kb;
    RunAppend(Init(), a, ka, b, kb, 0, eval);
  }

  /** The state after line `n + 1` is the step on line `n` from the state after `n` lines. */
  lemma PrefixStep<V>(lines: seq<string>, kinds: seq<LineKind>, n: nat, eval: string -> Option<V>)
    requires |kinds| == |lines| && n < |lines| && Prefix(lines, kinds, n, eval).Ok?
    ensures Prefix(lines, kinds, n + 1, eval) == Step(Prefix(lines, kinds, n, eval).value, lines[n], kinds[n], n + 1, eval)
  {
    assert lines[..n + 1] == lines[..n] + [lines[n]] && kinds[..n + 1] == kinds[..n] + [kinds[n]];
    RunAppend(Init(), lines[..n], kinds[..n], [lines[n]], [kinds[n]], 0, eval);
    RunSingle(Prefix(lines, kinds, n, eval).value, lines[n], kinds[n], n, eval);
  }

  /** A header-free run never enters a section. */
  lemma {:induction false} NoHeaderNoSection<V>(st: State<V>, lines: seq<string>, kinds: seq<LineKind>, off: nat, eval: string -> Option<V>)
    requires Good(st) && st.current.None? && |kinds| == |lines|
    requires forall i :: 0 <= i < |kinds| ==> !kinds[i].Header?
    requires Run(st, lines, kinds, off, eval).Ok?
    ensures Run(st, lines, kinds, off, eval).value.current.None?
    decreases |lines|
  {
    if lines != [] {
      var next := Step(st, lines[0], kinds[0], off + 1, eval).value;
      NoHeaderNoSection(next, lines[1..], kinds[1..], off + 1, eval);
    }
  }

  /** An item definition before any section header is an error, reported at that line unless an
      earlier line already failed. */
  lemma ItemBeforeAnySection<V>(lines: seq<string>, kinds: seq<LineKind>, n: nat, eval: string -> Option<V>)
    requires |kinds| == |lines| && n < |lines| && kinds[n].Definition?
    requires forall i :: 0 <= i < n ==> !kinds[i].Header?
    ensures ParseKinds(lines, kinds, eval).Err?
    ensures ParseKinds(lines, kinds, eval).error.line <= n + 1
    ensures ParseKinds(lines, kinds, eval).error.line == n + 1 ==> ParseKinds(lines, kinds, eval).error.kind == ItemOutsideSection
  {
    SplitAt(lines, kinds, n, eval);
    if Prefix(lines, kinds, n, eval).Ok? {
      NoHeaderNoSection(Init(), lines[..n], kinds[..n], 0, eval);
      assert lines[n..][0] == lines[n] && kinds[n..][0] == kinds[n];
    }
  }

  /** Defining a name the current section already holds is an error at that line. */
  lemma DuplicateItem<V>(lines: seq<string>, kinds: seq<LineKind>, n: nat, eval: string -> Option<V>)
    requires |kinds| == |lines| && n < |lines| && Prefix(lines, kinds, n, eval).Ok?
    requires var st := Prefix(lines, kinds, n, eval).value;
      st.pending.None? && st.current.Some? && kinds[n].Definition? && kinds[n].name in st.config[st.current.value].items
    ensures ParseKinds(lines, kinds, eval) == Err(ParseError(DuplicateDefinition, n + 1))
  {
    SplitAt(lines, kinds, n, eval);
    assert lines[n..][0] == lines[n] && kinds[n..][0] == kinds[n];
  }

  /** A header naming an existing section is no error: the section is replaced by an empty one,
      whose items are lost, and the other sections stay as they were. */
  lemma RepeatedSectionReplaces<V>(lines: seq<string>, kinds: seq<LineKind>, n: nat, eval: string -> Option<V>)
    requires |kinds| == |lines| && n < |lines| && Prefix(lines, kinds, n, eval).Ok?
    requires var st := Prefix(lines, kinds, n, eval).value;
      st.pending.None? && kinds[n].Header? && kinds[n].name in st.config
    ensures var st := Prefix(lines, kinds, n, eval).value;
      Prefix(lines, kinds, n + 1, eval).Ok?
      && Prefix(lines, kinds, n + 1, eval).value.config == st.config[kinds[n].name := Section(map[], JoinComments(st.comments))]
  {
    PrefixStep(lines, kinds, n, eval);
  }

  predicate AllOther(kinds: seq<LineKind>) {
    kinds == [] || (kinds[0].Other? && AllOther(kinds[1..]))
  }

  /** The stripped texts of continuation lines, as the continuation branch appends them. */
  function Fragments(kinds: seq<LineKind>): (r: seq<string>)
    requires AllOther(kinds)
  {
    if kinds == [] then [] else [kinds[0].text] + Fragments(kinds[1..])
  }

  /** Appending the continuation fragments one by one to `fragments`, no concatenation evaluates. */
  predicate NeverEvaluates<V>(fragments: seq<string>, kinds: seq<LineKind>, eval: string -> Option<V>)
    requires AllOther(kinds)
    decreases |kinds|
  {
    kinds == [] ||
      (eval(Join(fragments + [kinds[0].text], "")) == None && NeverEvaluates(fragments + [kinds[0].text], kinds[1..], eval))
  }

  /** Continuation lines that never complete the definition only collect their stripped text. */
  lemma {:induction false} ContinuationPending<V>(st: State<V>, more: seq<string>, kinds: seq<LineKind>, off: nat, eval: string -> Option<V>)
    requires Good(st) && st.pending.Some? && |kinds| == |more| && AllOther(kinds)
    requires NeverEvaluates(st.fragments, kinds, eval)
    ensures Run(st, more, kinds, off, eval) == Ok(st.(fragments := st.fragments + Fragments(kinds)))
    decreases |more|
  {
    if more != [] {
      var next := st.(fragments := st.fragments + [kinds[0].text]);
      assert Step(st, more[0], kinds[0], off + 1, eval) == Ok(next);
      ContinuationPending(next, more[1..], kinds[1..], off + 1, eval);
      assert Run(st, more, kinds, off, eval) == Run(next, more[1..], kinds[1..], off + 1, eval);
      assert next.fragments + Fragments(kinds[1..]) == st.fragments + Fragments(kinds);
      assert next.(fragments := next.fragments + Fragments(kinds[1..])) == st.(fragments := st.fragments + Fragments(kinds));
    } else {
      assert st.fragments + [] == st.fragments;
    }
  }

  /** A last continuation line whose concatenated fragments are the first to evaluate completes
      the pending definition: its item is stored under the pending name. */
  lemma ContinuationCompletes<V>(st: State<V>, more: seq<string>, kinds: seq<LineKind>, last: string, k: LineKind,
                                 off: nat, eval: string -> Option<V>, v: V)
    requires Good(st) && st.pending.Some? && |kinds| == |more| && AllOther(kinds) && k.Other?
    requires NeverEvaluates(st.fragments, kinds, eval)
    requires eval(Join(st.fragments + Fragments(kinds) + [k.text], "")) == Some(v)
    ensures Run(st, more + [last], kinds + [k], off, eval) == Ok(Define(st, st.pending.value, v))
  {
    ContinuationPending(st, more, kinds, off, eval);
    RunAppend(st, more, kinds, [last], [k], off, eval);
    var mid := st.(fragments := st.fragments + Fragments(kinds));
    RunSingle(mid, last, k, off + |more|, eval);
    assert Step(mid, last, k, off + |more| + 1, eval) == Ok(Define(st, st.pending.value, v));
  }

  /** A definition whose value does not evaluate on its own line is continued on the following
      lines: the fragments, each stripped, are concatenated with no separator, and the first
      concatenation that evaluates gives the item its value. */
  lemma MultiLineDefinition<V>(st: State<V>, first: string, k: LineKind, more: seq<string>, kmore: seq<LineKind>,
                               last: string, klast: LineKind, off: nat, eval: string -> Option<V>, v: V)
    requires Good(st) && st.pending.None? && st.current.Some?
    requires k.Definition? && k.name !in st.config[st.current.value].items && eval(k.value) == None
    requires |kmore| == |more| && AllOther(kmore) && klast.Other?
    requires NeverEvaluates([k.value], kmore, eval)
    requires eval(Join([k.value] + Fragments(kmore) + [klast.text], "")) == Some(v)
    ensures Run(st, [first] + more + [last], [k] + kmore + [klast], off, eval) == Ok(Define(st, k.name, v))
  {
    var next := st.(pending := Some(k.name), fragments := [k.value]);
    assert st.fragments + [k.value] == [k.value];
    assert Step(st, first, k, off + 1, eval) == Ok(next);
    ContinuationCompletes(next, more, kmore, last, klast, off + 1, eval, v);
    assert [first] + more + [last] == [first] + (more + [last]);
    assert [k] + kmore + [klast] == [k] + (kmore + [klast]);
    RunAppend(st, [first], [k], more + [last], kmore + [klast], off, eval);
  }

  /** A definition that is still pending when the input ends is an error at the last line. */
  lemma UnfinishedAtEnd<V>(lines: seq<string>, kinds: seq<LineKind>, n: nat, eval: string -> Option<V>)
    requires |kinds| == |lines| && n < |lines| && Prefix(lines, kinds, n, eval).Ok?
    requires var st := Prefix(lines, kinds, n, eval).value;
      st.pending.None? && st.current.Some? && kinds[n].Definition?
      && kinds[n].name !in st.config[st.current.value].items && eval(kinds[n].value) == None
    requires AllOther(kinds[n + 1..]) && NeverEvaluates([kinds[n].value], kinds[n + 1..], eval)
    ensures ParseKinds(lines, kinds, eval) == Err(ParseError(UnfinishedDefinition, |lines|))
  {
    var st := Prefix(lines, kinds, n, eval).value;
    var k := kinds[n];
    var next := st.(pending := Some(k.name), fragments := [k.value]);
    assert st.fragments + [k.value] == [k.value];
    assert Step(st, lines[n], k, n + 1, eval) == Ok(next);
    SplitAt(lines, kinds, n, eval);
    assert lines[n..] == [lines[n]] + lines[n + 1..] && kinds[n..] == [k] + kinds[n + 1..];
    RunAppend(st, [lines[n]], [k], lines[n + 1..], kinds[n + 1..], n, eval);
    ContinuationPending(next, lines[n + 1..], kinds[n + 1..], n + 1, eval);
  }

  predicate AllComments(kinds: seq<LineKind>) {
    kinds == [] || (kinds[0].Comment? && AllComments(kinds[1..]))
  }

  /** The comment texts of comment lines: what follows the marker and its whitespace. */
  function CommentTexts(kinds: seq<LineKind>): (r: seq<string>)
    requires AllComments(kinds)
  {
    if kinds == [] then [] else [kinds[0].text] + CommentTexts(kinds[1..])
  }

  /** Comment lines only collect their texts. */
  lemma {:induction false} CommentsAccumulate<V>(st: State<V>, cs: seq<string>, kinds: seq<LineKind>, off: nat, eval: string -> Option<V>)
    requires Good(st) && st.pending.None? && |kinds| == |cs| && AllComments(kinds)
    ensures Run(st, cs, kinds, off, eval) == Ok(st.(comments := st.comments + CommentTexts(kinds)))
    decreases |cs|
  {
    if cs != [] {
      var next := st.(comments := st.comments + [kinds[0].text]);
      assert Step(st, cs[0], kinds[0], off + 1, eval) == Ok(next);
      CommentsAccumulate(next, cs[1..], kinds[1..], off + 1, eval);
      assert Run(st, cs, kinds, off, eval) == Run(next, cs[1..], kinds[1..], off + 1, eval);
      assert next.comments + CommentTexts(kinds[1..]) == st.comments + CommentTexts(kinds);
      assert next.(comments := next.comments + CommentTexts(kinds[1..])) == st.(comments := st.comments + CommentTexts(kinds));
    } else {
      assert st.comments + [] == st.comments;
    }
  }

  /** The comments before an item definition, joined by single spaces, become the item's comment,
      and the pending comments are emptied; no other section or item changes. */
  lemma CommentsAttachToItem<V>(st: State<V>, cs: seq<string>, kcs: seq<LineKind>, line: string, k: LineKind,
                                off: nat, eval: string -> Option<V>, v: V)
    requires Good(st) && st.pending.None? && st.current.Some? && |kcs| == |cs| && AllComments(kcs)
    requires k.Definition? && k.name !in st.config[st.current.value].items && eval(k.value) == Some(v)
    ensures var r := Run(st, cs + [line], kcs + [k], off, eval);
      r.Ok? && r.value.comments == [] && r.value.pending.None?
      && k.name in r.value.config[st.current.value].items
      && r.value.config[st.current.value].items[k.name] == Item(k.name, v, JoinComments(st.comments + CommentTexts(kcs)))
      && r.value.config == st.config[st.current.value := st.config[st.current.value].(items :=
           st.config[st.current.value].items[k.name := Item(k.name, v, JoinComments(st.comments + CommentTexts(kcs)))])]
  {
    CommentsAccumulate(st, cs, kcs, off, eval);
    RunAppend(st, cs, kcs, [line], [k], off, eval);
    var mid := st.(comments := st.comments + CommentTexts(kcs));
    RunSingle(mid, line, k, off + |cs|, eval);

  }

  /** The comments before a section header, joined by single spaces, become the section's
      comment, and the pending comments are emptied; no other section changes. */
  lemma CommentsAttachToSection<V>(st: State<V>, cs: seq<string>, kcs: seq<LineKind>, line: string, k: LineKind,
                                   off: nat, eval: string -> Option<V>)
    requires Good(st) && st.pending.None? && |kcs| == |cs| && AllComments(kcs) && k.Header?
    ensures var r := Run(st, cs + [line], kcs + [k], off, eval);
      r.Ok? && r.value.comments == [] && r.value.current == Some(k.name)
      && r.value.config[k.name] == Section(map[], JoinComments(st.comments + CommentTexts(kcs)))
      && r.value.config == st.config[k.name := Section(map[], JoinComments(st.comments + CommentTexts(kcs)))]
  {
    CommentsAccumulate(st, cs, kcs, off, eval);
    RunAppend(st, cs, kcs, [line], [k], off, eval);
    RunSingle(st.(comments := st.comments + CommentTexts(kcs)), line, k, off + |cs|, eval);
  }
}
