/** `update_config` as a specification on values: which sections and items of the incoming
    configuration reach the target, with which values and comments, and which are reported as
    unknown instead. */
module Merge {

  import opened Values

  /** `create_new_items`: either a flag for every section, or the list of the sections in
      which incoming items may be created. */
  datatype ItemPolicy = AllSections(create: bool) | ListedSections(names: seq<string>)

  /** The keyword arguments of `update_config`. */
  datatype Options = Options(createSections: bool, createItems: ItemPolicy, updateComments: bool)

  /** What `update_config` logs as a warning. */
  datatype Warning = UnknownItem(section: string, item: string) | UnknownSection(section: string)

  /** Whether incoming items may be created in the section `secname`. */
  predicate CreatesItems(policy: ItemPolicy, secname: string) {
    match policy
    case AllSections(create) => create
    case ListedSections(names) => secname in names
  }

  /** The items of a merged section: an item present in both keeps its comment and takes the
      incoming value, or is replaced outright when comments are updated; an incoming item is added only
      when items may be created; every other item stays. */
  function MergeItems<V>(base: map<string, Item<V>>, incoming: map<string, Item<V>>, create: bool, updateComments: bool): (r: map<string, Item<V>>)
    ensures r.Keys == base.Keys + (if create then incoming.Keys else {})
  {
    map k | k in base.Keys + (if create then incoming.Keys else {}) ::
      if k !in incoming then base[k]
      else if k in base && !updateComments then base[k].(value := incoming[k].value)
      else incoming[k]
  }

  /** The section branch: the items merged, and the comment copied when comments are updated. */
  function MergeSection<V>(base: Section<V>, incoming: Section<V>, create: bool, updateComments: bool): Section<V> {
    Section(MergeItems(base.items, incoming.items, create, updateComments), if updateComments then incoming.comment else base.comment)
  }

  /** `update_config(cfg, incoming)` on values: a section present in both is merged, an incoming section is
      added whole only when sections may be created, and every other section stays. */
  function MergeConfig<V>(base: Config<V>, incoming: Config<V>, opts: Options): (r: Config<V>)
    ensures r.Keys == base.Keys + (if opts.createSections then incoming.Keys else {})
  {
    map s | s in base.Keys + (if opts.createSections then incoming.Keys else {}) ::
      if s !in incoming then base[s]
      else if s in base then MergeSection(base[s], incoming[s], CreatesItems(opts.createItems, s), opts.updateComments)
      else incoming[s]
  }

  /** The warnings `update_config` logs: one per incoming section it may not create, and one per incoming
      item it may not create in a section both have. */
  function Warnings<V>(base: Config<V>, incoming: Config<V>, opts: Options): set<Warning> {
    (set s | s in incoming && s !in base && !opts.createSections :: UnknownSection(s))
    + (set s, k | s in incoming && s in base && k in incoming[s].items && k !in base[s].items && !CreatesItems(opts.createItems, s) :: UnknownItem(s, k))
  }

  /** Every value of the incoming configuration reaches the target, unless it is reported. */
  lemma NewValuesApplied<V>(base: Config<V>, incoming: Config<V>, opts: Options, s: string, k: string)
    requires s in incoming && k in incoming[s].items
    ensures var r := MergeConfig(base, incoming, opts);
      (s in r && k in r[s].items && r[s].items[k].value == incoming[s].items[k].value)
      || UnknownSection(s) in Warnings(base, incoming, opts) || UnknownItem(s, k) in Warnings(base, incoming, opts)
  {
    if s in base && k !in base[s].items && !CreatesItems(opts.createItems, s) {
      assert UnknownItem(s, k) in Warnings(base, incoming, opts);
    } else if s !in base && !opts.createSections {
      assert UnknownSection(s) in Warnings(base, incoming, opts);
    }
  }

  /** A reported name does not reach the target, and the report names it exactly. */
  lemma WarningsExact<V>(base: Config<V>, incoming: Config<V>, opts: Options, w: Warning)
    ensures w in Warnings(base, incoming, opts) <==>
      match w
      case UnknownSection(s) => s in incoming && s !in MergeConfig(base, incoming, opts)
      case UnknownItem(s, k) => s in incoming && s in base && k in incoming[s].items && k !in MergeConfig(base, incoming, opts)[s].items
  {
    match w
    case UnknownSection(s) =>
    case UnknownItem(s, k) =>
      if s in incoming && s in base && k in incoming[s].items && k !in MergeConfig(base, incoming, opts)[s].items {
        assert UnknownItem(s, k) in Warnings(base, incoming, opts);
      }
  }

  /** What the incoming configuration does not name stays exactly as it was. */
  lemma UntouchedKept<V>(base: Config<V>, incoming: Config<V>, opts: Options, s: string)
    requires s in base
    ensures var r := MergeConfig(base, incoming, opts);
      && s in r
      && (s !in incoming ==> r[s] == base[s])
      && (forall k :: k in base[s].items && (s !in incoming || k !in incoming[s].items) ==> k in r[s].items && r[s].items[k] == base[s].items[k])
  {
  }

  /** Without `update_comments` every comment already in the target is kept. */
  lemma CommentsKept<V>(base: Config<V>, incoming: Config<V>, opts: Options, s: string)
    requires s in base && !opts.updateComments
    ensures var r := MergeConfig(base, incoming, opts);
      && r[s].comment == base[s].comment
      && (forall k :: k in base[s].items ==> k in r[s].items && r[s].items[k].comment == base[s].items[k].comment && r[s].items[k].name == base[s].items[k].name)
  {
  }

  /** Merging the same items again changes nothing more. */
  lemma MergeItemsIdempotent<V>(base: map<string, Item<V>>, incoming: map<string, Item<V>>, create: bool, updateComments: bool)
    ensures var once := MergeItems(base, incoming, create, updateComments);
      MergeItems(once, incoming, create, updateComments) == once
  {
    var once := MergeItems(base, incoming, create, updateComments);
    var twice := MergeItems(once, incoming, create, updateComments);
    forall k | k in twice ensures twice[k] == once[k] {
    }
  }

  /** Items merged into themselves are unchanged. */
  lemma MergeItemsSelf<V>(items: map<string, Item<V>>, create: bool, updateComments: bool)
    ensures MergeItems(items, items, create, updateComments) == items
  {
    var r := MergeItems(items, items, create, updateComments);
    forall k | k in r ensures r[k] == items[k] {
    }
  }

  /** Merging the same configuration again changes nothing more. */
  lemma MergeIdempotent<V>(base: Config<V>, incoming: Config<V>, opts: Options)
    ensures MergeConfig(MergeConfig(base, incoming, opts), incoming, opts) == MergeConfig(base, incoming, opts)
  {
    var once := MergeConfig(base, incoming, opts);
    var twice := MergeConfig(once, incoming, opts);
    forall s | s in twice ensures twice[s] == once[s] {
      if s in incoming {
        var c := CreatesItems(opts.createItems, s);
        if s in base {
          MergeItemsIdempotent(base[s].items, incoming[s].items, c, opts.updateComments);
        } else {
          MergeItemsSelf(incoming[s].items, c, opts.updateComments);
        }
      }
    }
  }

  /** A configuration merged into itself is unchanged. */
  lemma MergeSelf<V>(c: Config<V>, opts: Options)
    ensures MergeConfig(c, c, opts) == c
  {
    var r := MergeConfig(c, c, opts);
    forall s | s in r ensures r[s] == c[s] {
      MergeItemsSelf(c[s].items, CreatesItems(opts.createItems, s), opts.updateComments);
    }
  }

  /** Merging an empty configuration changes nothing and reports nothing. */
  lemma MergeNothing<V>(c: Config<V>, opts: Options)
    ensures MergeConfig(c, map[], opts) == c && Warnings(c, map[], opts) == {}
  {
    assert MergeConfig(c, map[], opts).Keys == c.Keys;
  }

  /** Items stored under their own names stay so. */
  lemma MergeKeyedByName<V>(base: Config<V>, incoming: Config<V>, opts: Options)
    requires KeyedByName(base) && KeyedByName(incoming)
    ensures KeyedByName(MergeConfig(base, incoming, opts))
  {
  }
}
