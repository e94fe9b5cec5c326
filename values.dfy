/** The configuration as a value: what a tree of `ConfigContainer` and `ConfigItem` objects
    holds once identity is forgotten. The parser, the merge and the dump are specified on it. */
module Values {

  /** A `ConfigItem`: its name, its evaluated value and its comment. */
  datatype Item<V> = Item(name: string, value: V, comment: string)

  /** A section: a `ConfigContainer` whose children are items. */
  datatype Section<V> = Section(items: map<string, Item<V>>, comment: string)

  /** The root container: section names to sections. */
  type Config<V> = map<string, Section<V>>

  /** Every item is stored under its own name, as the parser and the merge store them. */
  predicate SectionKeyedByName<V>(sec: Section<V>) {
    forall k :: k in sec.items ==> sec.items[k].name == k
  }

  predicate KeyedByName<V>(c: Config<V>) {
    forall s :: s in c ==> SectionKeyedByName(c[s])
  }
}
