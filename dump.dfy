/** `dump_config`: the lines its generator yields, joined with newlines. Sections come in name
    order, each after an empty line except the first, with its comment line when it has a
    comment, then its header, then its items in name order, each after its comment line.
    `pprint.pformat` is the parameter `pretty`. */
module Dump {

  import opened Text
  import opened Values
  import opened Order

  /** The comment line above a section or an item: `# ` and the comment. */
  function CommentLine(c: string): string {
    "# " + c
  }

  /** The header line of a section. */
  function HeaderLine(name: string): string {
    "[" + name + "]"
  }

  /** `item_def`: the item's own name, ` = ` and the printed value. */
  function ItemDef<V>(it: Item<V>, pretty: V -> string): string {
    it.name + " = " + pretty(it.value)
  }

  /** The items named by `names`, in that order, each as its comment line and its definition. */
  function ItemLines<V>(items: map<string, Item<V>>, names: seq<string>, pretty: V -> string): (r: seq<string>)
    requires forall n :: n in names ==> n in items
    ensures |r| == 2 * |names|
  {
    if names == [] then []
    else [CommentLine(items[names[0]].comment), ItemDef(items[names[0]], pretty)] + ItemLines(items, names[1..], pretty)
  }

  /** The start of a section: its comment line only when the comment is not empty, then its
      header. */
  function SectionHead(name: string, comment: string): seq<string> {
    (if comment != [] then [CommentLine(comment)] else []) + [HeaderLine(name)]
  }

  /** A section: its start, then its items sorted by name. */
  function SectionLines<V>(name: string, sec: Section<V>, pretty: V -> string): seq<string> {
    SectionHead(name, sec.comment) + ItemLines(sec.items, SortedKeys(sec.items.Keys), pretty)
  }

  /** The sections named by `names`, in that order, each after an empty line. */
  function SeparatedLines<V>(cfg: Config<V>, names: seq<string>, pretty: V -> string): seq<string>
    requires forall n :: n in names ==> n in cfg
  {
    if names == [] then []
    else [""] + SectionLines(names[0], cfg[names[0]], pretty) + SeparatedLines(cfg, names[1..], pretty)
  }

  /** What the generator of `dump_config` yields: the sections sorted by name, with an empty line
      between two sections. */
  function DumpLines<V>(cfg: Config<V>, pretty: V -> string): seq<string> {
    var names := SortedKeys(cfg.Keys);
    if names == [] then []
    else SectionLines(names[0], cfg[names[0]], pretty) + SeparatedLines(cfg, names[1..], pretty)
  }

  /** `dump_config(cfg)`: the yielded lines joined with `"\n"`. */
  function DumpConfig<V>(cfg: Config<V>, pretty: V -> string): string {
    Join(DumpLines(cfg, pretty), "\n")
  }
}
