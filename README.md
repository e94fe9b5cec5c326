# configdot in Dafny

A verified model of `configdot`, a small library that reads INI-style configuration text into
nested objects, merges one configuration into another, and writes a configuration back as text.

The model covers the core of `configdot/configdot.py`, except file I/O and what "## Left out" lists:

- **The line classifiers.** These are the regular expressions `RE_COMMENT`, `RE_VAR_DEF`,
  `RE_SECTION_HEADER`, `RE_ALPHANUMERIC` and `RE_WHITESPACE`, with `_is_comment`,
  `_is_proper_varname`, `_is_whitespace`, `_parse_var_def` and `_parse_section_header`. Each
  pattern is written out as character-level functions over `string`: no regex engine, no
  backtracking (`classify.dfy`, on top of the `str` operations in `text.dfy`).
- **The object tree.** `ConfigItem` and `ConfigContainer` are classes with the container's
  `__contains__`, `__iter__`, `__getattr__`, `__getitem__` and `__setattr__`, plus
  `get_description` (`tree.dfy`). A root container of section containers of items reads as a
  value of type `Values.Config` (section name to section, item name to item).
- **`_parse_config`.** It is modelled twice:
  - as a specification, a step function over an explicit parser state: pending comments,
    pending fragments, current section and pending name (`parser.dfy`), with whole-input
    properties in `parser_props.dfy`;
  - as the source runs it, a loop that builds the container objects (`parse_config.dfy`). It is
    proved to build exactly what the specification gives, or to raise exactly its error.
- **`update_config`.** It is likewise modelled twice:
  - as a merge of values (`merge.dfy`);
  - as the in-place passes over the target's objects (`update.dfy`). These are proved, for every
    order `__iter__` may yield, to leave the target reading as the merge and to log exactly its
    warnings (`update_passes.dfy` connects the two).
- **`dump_config`.** Its lines (`dump.dfy`), their layout (`dump_props.dfy`), how the parser
  classifies each of them (`dump_kinds.dfy`), and the round trip its docstring promises:
  splitting the dumped text into lines and parsing them gives the configuration back
  (`roundtrip.dfy`, `dump_text.dfy`).

`ast.literal_eval` and `pprint.pformat` are parameters: `eval: string -> Option<V>` (`None` stands
for the `ValueError`/`SyntaxError` the parser catches) and `pretty: V -> string`, over an abstract
value type `V`.

`_parse_config` reads one level of `[section]` headers only (`_parse_subsection_header` is never
called, `configdot/configdot.py:209-296`), so the model's configurations are roots of sections of
items.

## Model

| member | source | states |
|---|---|---|
| Text.UpperAscii | configdot/configdot.py:95 | an ASCII lower-case letter becomes its own capital, 32 code points lower; every other character is kept |
| Text.SplitJoinedLines | configdot/configdot.py:379 | `str.splitlines()` of the newline-join of lines gives the lines back when none holds a line boundary and the last is not empty |
| Classify.WhitespaceIffStripsToEmpty | configdot/configdot.py:18 | `_is_whitespace` holds exactly for the lines that strip to the empty string |
| Classify.ParseComment | configdot/configdot.py:20 | the captured comment text holds no newline and starts with no whitespace |
| Classify.ParseCommentOf | configdot/configdot.py:35-37 | whitespace, `#` or `;`, then any text on one line is a comment whose text is that text left-stripped |
| Classify.ParseSectionHeader | configdot/configdot.py:62-65 | a returned header is a name of `[\w-]` characters, and the stripped line is that name in brackets |
| Classify.ParseSectionHeaderOf | configdot/configdot.py:25 | conversely, every bracketed section name with any surrounding whitespace is recognised, with that name |
| Classify.ParseVarDef | configdot/configdot.py:50-59 | a returned definition has a name of word characters only and a stripped value |
| Classify.ProperIffWord | configdot/configdot.py:40-42 | for a non-empty name that does not end in whitespace, `_is_proper_varname` holds exactly when all its characters are word characters |
| Classify.ParseVarDefSplitsAtFirstEquals | configdot/configdot.py:50-59 | the regex parse equals the first-`=` reading: the line is split at its first `=`, both halves stripped, and it is a definition exactly when the name is all word characters and the value holds no newline |
| Parser.KindOf | configdot/configdot.py:229-279 | a header carries a section name, a definition a word name, and a comment a text without newline |
| Parser.KindOfPrecedence | configdot/configdot.py:229-279 | the tests run in the source's order (header, then definition, then comment, then whitespace), and each kind carries what its test captured; anything else carries the stripped line |
| Parser.Step | configdot/configdot.py:232-291 | one line keeps the state's shape and never drops a section; an error names that line |
| Parser.StepErrors | configdot/configdot.py:234-279 | each of the four error kinds happens exactly in its own situation; a syntax error carries the line |
| Parser.Run | configdot/configdot.py:225-291 | a failure names one of the lines run; a success keeps the state's shape and drops no section |
| Parser.RunNamed | configdot/configdot.py:225-291 | every section and item name the loop stores is well formed |
| Parser.ParseLines | configdot/configdot.py:209-296 | an error names a line of the input, and the configuration built has well-formed names |
| ParserProps.RunAppend | configdot/configdot.py:225 | the loop over two blocks of lines runs the first and, if it succeeds, the second from where it stopped |
| ParserProps.RunErrorAt | configdot/configdot.py:225-291 | an error stops the loop: the lines before the erring one run through, and the erring step fails with that error |
| ParserProps.ErrorCause | configdot/configdot.py:225-294 | every error either is the end-of-input check on a pending definition or comes from the step on the line it names |
| ParserProps.SplitAt | configdot/configdot.py:225-296 | the parse is the run of the first `n` lines, the run of the rest, and the end-of-input check |
| ParserProps.PrefixStep | configdot/configdot.py:225 | the state after line `n + 1` is one step on line `n` from the state after `n` lines |
| ParserProps.NoHeaderNoSection | configdot/configdot.py:221 | until a header is read there is no current section |
| ParserProps.ItemBeforeAnySection | configdot/configdot.py:245-248 | a definition before any header makes the parse fail, at that line with the outside-a-section error unless an earlier line failed |
| ParserProps.DuplicateItem | configdot/configdot.py:249-250 | defining a name the current section holds fails at that line with the duplicate-definition error |
| ParserProps.RepeatedSectionReplaces | configdot/configdot.py:233-239 | a header naming an existing section is no error: that section is replaced by an empty one and becomes current |
| ParserProps.ContinuationPending | configdot/configdot.py:277-291 | continuation lines that never complete the value only append their stripped text to the fragments |
| ParserProps.ContinuationCompletes | configdot/configdot.py:280-289 | the first continuation line whose fragments, concatenated, evaluate stores the item under the pending name and clears the comments, the fragments and the pending name |
| ParserProps.MultiLineDefinition | configdot/configdot.py:251-263 | a definition that does not evaluate on its own line, followed by continuation lines, stores the item once the concatenation evaluates |
| ParserProps.UnfinishedAtEnd | configdot/configdot.py:293-294 | a definition still pending at the end of the input fails with the unfinished-definition error at the last line |
| ParserProps.CommentsAccumulate | configdot/configdot.py:265-270 | comment lines only collect their texts |
| ParserProps.CommentsAttachToItem | configdot/configdot.py:254-257 | the collected comments, joined by single spaces, become the comment of the next item, and the list is emptied; no other section or item changes |
| ParserProps.CommentsAttachToSection | configdot/configdot.py:236-239 | the collected comments, joined by single spaces, become the comment of the next section, and the list is emptied; no other section changes |
| ParseConfig.AddSection | configdot/configdot.py:236-238 | a fresh empty container with the comment is bound to the name in the root, which reads as before with that section replaced |
| ParseConfig.AddItem | configdot/configdot.py:254-256 | a fresh item is bound in the current section, and the root reads as before with that item added |
| ParseConfig.ParseLine | configdot/configdot.py:229-291 | one iteration fails exactly when the specification's step does, with its error, and otherwise leaves the variables and objects holding the step's state |
| ParseConfig.ParseConfig | configdot/configdot.py:209-296 | the loop fails exactly when the specification does, with the same error; otherwise it returns a fresh root that reads as the specified configuration |
| Tree.GetDescription | configdot/configdot.py:77-95 | the description has the comment's length, its first character upper-cased and the rest unchanged |
| Tree.DescriptionIdempotent | configdot/configdot.py:93-95 | describing a description changes nothing more |
| Tree.ConfigItem.constructor | configdot/configdot.py:101-106 | the item holds the given name, value and comment |
| Tree.ConfigContainer.constructor | configdot/configdot.py:125-132 | the container holds the given children and comment |
| Tree.ConfigContainer.GetItem | configdot/configdot.py:155-157 | a bound name gives its child object; a missing name raises `KeyError` |
| Tree.ConfigContainer.GetAttr | configdot/configdot.py:143-153 | the `__getattr__` fallback: a name bound to an item reads as the item's value, a name bound to a container as the container; a missing name raises `AttributeError` |
| Tree.ConfigContainer.Iter | configdot/configdot.py:138-141 | yields every `(name, child)` pair of the container exactly once |
| Tree.ConfigContainer.SetAttr | configdot/configdot.py:159-171 | an item or container replaces the binding; a plain value changes only the bound item's value and keeps its name and comment, or creates an item with an empty comment; the name then reads back the value, and no other binding changes |
| Tree.ConfigContainer.SetComment | configdot/configdot.py:164-165 | assigning `_comment` sets the comment and nothing else |
| Merge.MergeItems | configdot/configdot.py:328-340 | the merged items are those of the target plus, when items may be created, the incoming ones |
| Merge.MergeConfig | configdot/configdot.py:318-345 | the merged sections are those of the target plus, when sections may be created, the incoming ones |
| Merge.NewValuesApplied | configdot/configdot.py:318-345 | every incoming value reaches the target, or it is reported as an unknown section or an unknown item |
| Merge.WarningsExact | configdot/configdot.py:336-345 | a warning names exactly an incoming section that may not be created, or an incoming item that may not be created in a section both have |
| Merge.UntouchedKept | configdot/configdot.py:318-345 | sections and items the incoming configuration does not name stay exactly as they were |
| Merge.CommentsKept | configdot/configdot.py:326-335 | without `update_comments`, every comment already in the target is kept |
| Merge.MergeItemsIdempotent | configdot/configdot.py:328-340 | merging the same items a second time changes nothing more |
| Merge.MergeItemsSelf | configdot/configdot.py:328-340 | items merged into themselves are unchanged |
| Merge.MergeIdempotent | configdot/configdot.py:318-345 | updating twice from the same configuration is updating once |
| Merge.MergeSelf | configdot/configdot.py:318-345 | updating a configuration from itself changes nothing |
| Merge.MergeNothing | configdot/configdot.py:318-345 | updating from an empty configuration changes nothing and warns about nothing |
| Merge.MergeKeyedByName | configdot/configdot.py:328-343 | items stored under their own names stay so after the update |
| UpdatePasses.IterNames | configdot/configdot.py:318 | a pass over what `__iter__` yields visits every name of the container exactly once |
| UpdatePasses.WarningsBySection | configdot/configdot.py:336-345 | the warnings are those of the sections that may not be created plus those of the items of each section both have |
| UpdatePasses.ApplyItemsMerges | configdot/configdot.py:328-340 | going through distinct incoming items one at a time, in any order, is merging the items reached |
| UpdatePasses.ItemLogWarns | configdot/configdot.py:336-340 | the warnings logged one item at a time, in any order, are the merge's warnings for the items reached |
| UpdatePasses.ApplySectionsMerges | configdot/configdot.py:318-345 | going through distinct incoming sections one at a time, in any order, is merging the sections reached |
| UpdatePasses.SectionLogWarns | configdot/configdot.py:318-345 | the warnings logged one section at a time, in any order, are the merge's warnings for the sections reached |
| UpdatePasses.ItemPassComplete | configdot/configdot.py:328-340 | a pass over every incoming item gives the merged items and exactly their warnings |
| UpdatePasses.SectionPassComplete | configdot/configdot.py:318-345 | a pass over every incoming section gives the merged configuration and exactly its warnings |
| Update.SetItemValue | configdot/configdot.py:334-335 | the value of the bound item changes in place; its name, its comment and every other item stay |
| Update.BindItem | configdot/configdot.py:332 | the incoming item object is bound under the name; the comment and the other items stay |
| Update.UpdateItem | configdot/configdot.py:329-340 | one incoming item is merged as the merge rules say, and a warning is logged exactly when it is new and may not be created |
| Update.UpdateItems | configdot/configdot.py:328-340 | the loop over the incoming pairs applies them one at a time and logs their warnings in order |
| Update.ItemPass | configdot/configdot.py:328-340 | the section's items end up as the merged items; its comment stays; the warnings are exactly the merge's item warnings |
| Update.UpdateSection | configdot/configdot.py:325-340 | the section ends up as the merged section, with the comment copied when comments are updated |
| Update.UpdateExisting | configdot/configdot.py:323-340 | the root reads as before with that one section merged; the other sections' objects are untouched |
| Update.AddSection | configdot/configdot.py:341-343 | the incoming section object is bound into the root, which reads as before with that section added |
| Update.SectionStep | configdot/configdot.py:319-345 | one incoming section is merged, added or reported as the merge rules say |
| Update.UpdateSections | configdot/configdot.py:318-345 | the loop over the incoming sections applies them one at a time and logs their warnings |
| Update.UpdateConfig | configdot/configdot.py:299-345 | for every order `__iter__` may yield, the target ends up reading as the merge of the two configurations, and the warnings are exactly the merge's |
| Order.SortedKeys | configdot/configdot.py:367 | `sorted` yields every name exactly once, in ascending order |
| Order.SortedUnique | configdot/configdot.py:374 | an ascending sequence of exactly these names is the sorted one |
| Dump.ItemLines | configdot/configdot.py:375-377 | each item gives two lines |
| DumpProps.ItemLinesAt | configdot/configdot.py:375-377 | the `i`-th item takes lines `2i` and `2i + 1` of its block: its comment line, written even for an empty comment, and then its definition |
| DumpProps.DumpBlanks | configdot/configdot.py:368-370 | a configuration of `n` sections dumps with exactly `n - 1` empty lines, so only between two sections |
| DumpProps.DumpOpens | configdot/configdot.py:367-373 | the dump opens with the section whose name sorts first, with no empty line before it: its comment line when it has a comment, else its header |
| DumpKinds.CommentLineKind | configdot/configdot.py:372 | a dumped comment line parses as a comment whose text is the comment left-stripped |
| DumpKinds.HeaderLineKind | configdot/configdot.py:373 | a dumped header line parses as the header of that section |
| DumpKinds.ItemDefKind | configdot/configdot.py:116-119 | an `item_def` line parses as the definition of that item, with the printed value stripped |
| DumpKinds.EmptyLineKind | configdot/configdot.py:370 | the empty line between sections parses as a blank line |
| RoundTrip.ItemsRun | configdot/configdot.py:374-377 | the dumped lines of a section's items store every item, comments left-stripped |
| RoundTrip.SectionRun | configdot/configdot.py:371-377 | the dumped lines of a section open it and store all its items |
| RoundTrip.SeparatedRun | configdot/configdot.py:368-377 | the sections after the first, each after its empty line, are all stored |
| RoundTrip.ParseDumpLines | configdot/configdot.py:361-377 | parsing the dumped lines gives the configuration back, comments left-stripped |
| DumpText.SplitDump | configdot/configdot.py:379 | splitting the dumped text into lines gives back the lines the generator yielded |
| DumpText.DumpThenParse | configdot/configdot.py:361-363 | the dumped text, split into lines and parsed, gives the configuration back, each comment without its leading whitespace |
| DumpText.DumpThenParseExact | configdot/configdot.py:361-363 | a configuration whose comments have no leading whitespace comes back exactly |

## Left out

- `parse_config`: opening the file, the encoding and the Windows warning are I/O. The model starts from the list of lines; `str.splitlines()` is modelled only to tie the dumped text to those lines.
- Logging: `update_config`'s warnings are returned as a sequence of `Merge.Warning` values rather than logged, and the parser's errors are a `Parser.ParseError` (its kind, line number and, for a syntax error, the line) rather than a `ValueError` message.
- Update.UpdateConfig: states which warnings are logged, as a set. Their order follows the dict's iteration order, which is not modelled.
- `ast.literal_eval` and `pprint.pformat` are the parameters `eval` and `pretty`. Exceptions from `literal_eval` other than `ValueError` and `SyntaxError` are not modelled.
- The round trip needs the stripped printed value of every item to evaluate back to the item's value. It also needs the printed values, the comments and the names to fit on one line. `pformat` splits long values over several lines, and such configurations are outside the proved round trip.
- `\w` is ASCII letters, digits and `_`. Python's Unicode word characters beyond ASCII are not modelled, and neither is Unicode upper-casing in `get_description`.
- Dict insertion order: containers map names to children. `__iter__` yields every pair once in an unspecified order, and `update_config` is proved for every such order.
- Configurations deeper than root, sections and items are not modelled, and neither are shallower ones: an item bound directly in the root by `root.x = 1` is excluded by `IsConfig`. On such a tree `update_config` and `dump_config` would raise `TypeError` when they iterate an item. The parser never builds either shape, and `update_config` is modelled on two-level trees.
- Tree.ConfigContainer.SetAttr: a plain value assigned to a name bound to a container is excluded by a precondition. The source would then set an attribute `value` on that container.
- Update.UpdateConfig: requires the two configurations to share no objects. Afterwards the target may hold incoming section and item objects, as the source binds them, and the model does not follow later changes through that sharing.
- `__repr__`, `literal_value`, `_simple_match` (inlined into each classifier), `RE_SUBSECTION_HEADER` and `_parse_subsection_header`: debugging text, a trivial wrapper, and code the parser never calls.
- Tree.ConfigContainer.GetAttr: models the `__getattr__` fallback only. Python calls it only after normal attribute lookup fails, so an item whose name is an instance or class attribute (`_comment`, `_items`, `__dict__`, `__class__`, `__doc__`) is stored by the parser but shadowed for `container.name`.
- `create_new_items` is modelled as a flag or a list of section names. The source tests `isinstance(..., list)` and otherwise uses truthiness, so a tuple, a set or `None` acts as an all-or-nothing flag; only the bool and the list are modelled.
