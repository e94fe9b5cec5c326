/** The two passes of `update_config` on values: the section pass over the incoming root and,
    for a section both configurations have, the item pass over the incoming section, each as a
    fold over the names in the order the pass visits them. Whatever that order, a pass over
    every name once gives `Merge.MergeConfig` and `Merge.MergeItems`, and logs exactly the
    warnings of `Merge.Warnings`. */
module UpdatePasses {

  import opened Values
  import opened Merge

  /** The entries of `m` whose names are in `done`: the part of the incoming configuration a
      pass has reached. */
  function Only<X>(m: map<string, X>, done: set<string>): (r: map<string, X>)
    ensures r.Keys == m.Keys * done
    ensures forall k :: k in r ==> r[k] == m[k]
  {
    map k | k in m && k in done :: m[k]
  }

  /** The warnings for the items of one section both configurations have. */
  function ItemWarnings<V>(s: string, base: map<string, Item<V>>, incoming: map<string, Item<V>>, create: bool): (r: set<Warning>)
    ensures forall w :: w in r <==> w.UnknownItem? && w.section == s && w.item in incoming && w.item !in base && !create
  {
    set k | k in incoming && k !in base && !create :: UnknownItem(s, k)
  }

  /** The warnings of `update_config` are those of the sections it cannot create and those of the
      items of each section both configurations have. */
  lemma WarningsBySection<V>(base: Config<V>, incoming: Config<V>, opts: Options, w: Warning)
    ensures w in Warnings(base, incoming, opts) <==>
      || (w.UnknownSection? && w.section in incoming && w.section !in base && !opts.createSections)
      || (w.UnknownItem? && w.section in incoming && w.section in base
          && w in ItemWarnings(w.section, base[w.section].items, incoming[w.section].items, CreatesItems(opts.createItems, w.section)))
  {
  }

  /** The names of the pairs, in order. */
  function Names<X>(entries: seq<(string, X)>): (ns: seq<string>)
    ensures |ns| == |entries| && forall j :: 0 <= j < |entries| ==> ns[j] == entries[j].0
  {
    seq(|entries|, j requires 0 <= j < |entries| => entries[j].0)
  }

  predicate Distinct(names: seq<string>) {
    forall i, j :: 0 <= i < j < |names| ==> names[i] != names[j]
  }

  /** The names `__iter__` yields for a container whose children are `m`: each of them once. */
  predicate IteratesOnce<X, Y>(m: map<string, X>, entries: seq<(string, Y)>) {
    && (forall i :: 0 <= i < |entries| ==> entries[i].0 in m)
    && (forall i, j :: 0 <= i < j < |entries| ==> entries[i].0 != entries[j].0)
    && (forall k :: k in m ==> exists i :: 0 <= i < |entries| && entries[i].0 == k)
  }

  /** A pass over what `__iter__` yields visits every name of the container once. */
  lemma IterNames<X, Y>(m: map<string, X>, entries: seq<(string, Y)>)
    requires IteratesOnce(m, entries)
    ensures Distinct(Names(entries)) && forall k :: k in m <==> k in Names(entries)
  {
    var ns := Names(entries);
    forall k | k in m ensures k in ns {
      var i :| 0 <= i < |entries| && entries[i].0 == k;
      assert ns[i] == k;
    }
  }

  /** The names a pass has reached, built up in the order it reaches them. */
  function NameSet(names: seq<string>): set<string>
    decreases |names|
  {
    if names == [] then {} else NameSet(names[..|names| - 1]) + {names[|names| - 1]}
  }

  lemma {:induction false} NameSetMembers(names: seq<string>)
    ensures forall n :: n in NameSet(names) <==> n in names
    decreases |names|
  {
    if names != [] {
      var prev := names[..|names| - 1];
      NameSetMembers(prev);
      assert names == prev + [names[|names| - 1]];
    }
  }

  /** Of distinct names, the last is not among the others, which are distinct too. */
  lemma LastIsNew(names: seq<string>)
    requires names != [] && Distinct(names)
    ensures Distinct(names[..|names| - 1]) && names[|names| - 1] !in NameSet(names[..|names| - 1])
  {
    NameSetMembers(names[..|names| - 1]);
  }

  /** The items of a section after one incoming item `it` named `name`: an item of that name is
      updated, in value alone or as a whole, a new one is added only when items may be created. */
  function NextItems<V>(m: map<string, Item<V>>, name: string, it: Item<V>, create: bool, updateComments: bool): map<string, Item<V>> {
    if name in m then m[name := if updateComments then it else m[name].(value := it.value)]
    else if create then m[name := it]
    else m
  }

  /** The warning one incoming item named `name` gives, if the section does not have it and may
      not gain it. */
  function ItemWarning<V>(secname: string, m: map<string, Item<V>>, name: string, create: bool): seq<Warning> {
    if name !in m && !create then [UnknownItem(secname, name)] else []
  }

  /** The configuration after one incoming section `sec` named `s`: a section of that name is
      merged, a new one is added whole only when sections may be created. */
  function NextConfig<V>(m: Config<V>, s: string, sec: Section<V>, opts: Options): Config<V> {
    if s in m then m[s := MergeSection(m[s], sec, CreatesItems(opts.createItems, s), opts.updateComments)]
    else if opts.createSections then m[s := sec]
    else m
  }

  /** The warnings one incoming section gives: those of its items, or its own when it may not be
      created. */
  function SectionWarnings<V>(m: Config<V>, s: string, sec: Section<V>, opts: Options): set<Warning> {
    if s in m then ItemWarnings(s, m[s].items, sec.items, CreatesItems(opts.createItems, s))
    else if opts.createSections then {}
    else {UnknownSection(s)}
  }

  /** Reaching one more incoming item: `MergeItems` takes the step `NextItems` describes. */
  lemma MergeItemsStep<V>(base: map<string, Item<V>>, incoming: map<string, Item<V>>, done: set<string>, k: string, create: bool, updateComments: bool)
    requires k in incoming && k !in done
    ensures MergeItems(base, Only(incoming, done + {k}), create, updateComments) ==
      NextItems(MergeItems(base, Only(incoming, done), create, updateComments), k, incoming[k], create, updateComments)
  {
    var m := MergeItems(base, Only(incoming, done), create, updateComments);
    var m' := MergeItems(base, Only(incoming, done + {k}), create, updateComments);
    var r := NextItems(m, k, incoming[k], create, updateComments);
    assert k in m <==> k in base;
    forall j ensures (j in m' <==> j in r) && (j in m' ==> m'[j] == r[j]) {
    }
  }

  /** Reaching one more incoming item adds its warning, if it has one. */
  lemma ItemWarningsStep<V>(s: string, base: map<string, Item<V>>, incoming: map<string, Item<V>>, done: set<string>, k: string,
                            create: bool, updateComments: bool)
    requires k in incoming && k !in done
    ensures forall w :: w in ItemWarnings(s, base, Only(incoming, done + {k}), create) <==>
      w in ItemWarnings(s, base, Only(incoming, done), create)
      || w in ItemWarning(s, MergeItems(base, Only(incoming, done), create, updateComments), k, create)
  {
    assert !create ==> (k in MergeItems(base, Only(incoming, done), create, updateComments) <==> k in base);
  }

  /** Reaching one more incoming section: `MergeConfig` takes the step `NextConfig` describes. */
  lemma MergeConfigStep<V>(base: Config<V>, incoming: Config<V>, done: set<string>, s: string, opts: Options)
    requires s in incoming && s !in done
    ensures MergeConfig(base, Only(incoming, done + {s}), opts) == NextConfig(MergeConfig(base, Only(incoming, done), opts), s, incoming[s], opts)
  {
    var m := MergeConfig(base, Only(incoming, done), opts);
    var m' := MergeConfig(base, Only(incoming, done + {s}), opts);
    var r := NextConfig(m, s, incoming[s], opts);
    assert s in m <==> s in base;
    assert s in m ==> m[s] == base[s];
    forall j ensures (j in m' <==> j in r) && (j in m' ==> m'[j] == r[j]) {
    }
  }

  /** Reaching one more incoming section adds its own warning, or the warnings of its items. */
  lemma WarningsStep<V>(base: Config<V>, incoming: Config<V>, done: set<string>, s: string, opts: Options)
    requires s in incoming && s !in done
    ensures Warnings(base, Only(incoming, done + {s}), opts) ==
      Warnings(base, Only(incoming, done), opts) + SectionWarnings(MergeConfig(base, Only(incoming, done), opts), s, incoming[s], opts)
  {
    var m := MergeConfig(base, Only(incoming, done), opts);
    assert s in m <==> s in base;
    assert s in m ==> m[s] == base[s];
    var w0 := Warnings(base, Only(incoming, done), opts);
    var w1 := Warnings(base, Only(incoming, done + {s}), opts);
    var extra := SectionWarnings(m, s, incoming[s], opts);
    forall w ensures w in w1 <==> w in w0 + extra {
      WarningsBySection(base, Only(incoming, done + {s}), opts, w);
      WarningsBySection(base, Only(incoming, done), opts, w);
    }
  }

  /** The items after the incoming items named `names` went through the item pass in that
      order. */
  function ApplyItems<V>(base: map<string, Item<V>>, inc: map<string, Item<V>>, names: seq<string>, create: bool, updateComments: bool): map<string, Item<V>>
    requires forall n :: n in names ==> n in inc
    decreases |names|
  {
    if names == [] then base
    else
      var last := names[|names| - 1];
      NextItems(ApplyItems(base, inc, names[..|names| - 1], create, updateComments), last, inc[last], create, updateComments)
  }

  /** The warnings the item pass logs for the incoming items named `names`, in that order. */
  function ItemLog<V>(secname: string, base: map<string, Item<V>>, inc: map<string, Item<V>>, names: seq<string>, create: bool, updateComments: bool): seq<Warning>
    requires forall n :: n in names ==> n in inc
    decreases |names|
  {
    if names == [] then []
    else
      var last := names[|names| - 1];
      var prev := names[..|names| - 1];
      ItemLog(secname, base, inc, prev, create, updateComments)
        + ItemWarning(secname, ApplyItems(base, inc, prev, create, updateComments), last, create)
  }

  /** The configuration after the incoming sections named `names` went through the section pass
      in that order. */
  function ApplySections<V>(base: Config<V>, inc: Config<V>, names: seq<string>, opts: Options): Config<V>
    requires forall n :: n in names ==> n in inc
    decreases |names|
  {
    if names == [] then base
    else
      var last := names[|names| - 1];
      NextConfig(ApplySections(base, inc, names[..|names| - 1], opts), last, inc[last], opts)
  }

  /** The warnings the section pass logs for the incoming sections named `names`. */
  function SectionLog<V>(base: Config<V>, inc: Config<V>, names: seq<string>, opts: Options): set<Warning>
    requires forall n :: n in names ==> n in inc
    decreases |names|
  {
    if names == [] then {}
    else
      var last := names[|names| - 1];
      var prev := names[..|names| - 1];
      SectionLog(base, inc, prev, opts) + SectionWarnings(ApplySections(base, inc, prev, opts), last, inc[last], opts)
  }

  /** Going through the items named by a list of distinct names, in any order, gives `MergeItems`
      for those names. */
  lemma {:induction false} ApplyItemsMerges<V>(base: map<string, Item<V>>, inc: map<string, Item<V>>, names: seq<string>,
                                              create: bool, updateComments: bool)
    requires Distinct(names) && forall n :: n in names ==> n in inc
    ensures ApplyItems(base, inc, names, create, updateComments) == MergeItems(base, Only(inc, NameSet(names)), create, updateComments)
    decreases |names|
  {
    if names == [] {
      assert MergeItems(base, Only(inc, {}), create, updateComments) == base;
    } else {
      var prev := names[..|names| - 1];
      LastIsNew(names);
      ApplyItemsMerges(base, inc, prev, create, updateComments);
      MergeItemsStep(base, inc, NameSet(prev), names[|names| - 1], create, updateComments);
    }
  }

  /** The warnings logged going through the items named by a list of distinct names are exactly
      the warnings `update_config` gives for those items. */
  lemma {:induction false} ItemLogWarns<V>(secname: string, base: map<string, Item<V>>, inc: map<string, Item<V>>, names: seq<string>,
                                          create: bool, updateComments: bool)
    requires Distinct(names) && forall n :: n in names ==> n in inc
    ensures forall w :: w in ItemLog(secname, base, inc, names, create, updateComments) <==>
      w in ItemWarnings(secname, base, Only(inc, NameSet(names)), create)
    decreases |names|
  {
    if names != [] {
      var prev := names[..|names| - 1];
      LastIsNew(names);
      ItemLogWarns(secname, base, inc, prev, create, updateComments);
      ApplyItemsMerges(base, inc, prev, create, updateComments);
      ItemWarningsStep(secname, base, inc, NameSet(prev), names[|names| - 1], create, updateComments);
    }
  }

  /** Going through the sections named by a list of distinct names, in any order, gives
      `MergeConfig` for those names. */
  lemma {:induction false} ApplySectionsMerges<V>(base: Config<V>, inc: Config<V>, names: seq<string>, opts: Options)
    requires Distinct(names) && forall n :: n in names ==> n in inc
    ensures ApplySections(base, inc, names, opts) == MergeConfig(base, Only(inc, NameSet(names)), opts)
    decreases |names|
  {
    if names == [] {
      assert MergeConfig(base, Only(inc, {}), opts) == base;
    } else {
      var prev := names[..|names| - 1];
      LastIsNew(names);
      ApplySectionsMerges(base, inc, prev, opts);
      MergeConfigStep(base, inc, NameSet(prev), names[|names| - 1], opts);
    }
  }

  /** The warnings logged going through the sections named by a list of distinct names are
      exactly the warnings `update_config` gives for those sections. */
  lemma {:induction false} SectionLogWarns<V>(base: Config<V>, inc: Config<V>, names: seq<string>, opts: Options)
    requires Distinct(names) && forall n :: n in names ==> n in inc
    ensures SectionLog(base, inc, names, opts) == Warnings(base, Only(inc, NameSet(names)), opts)
    decreases |names|
  {
    if names == [] {
      assert Warnings(base, Only(inc, {}), opts) == {};
    } else {
      var prev := names[..|names| - 1];
      LastIsNew(names);
      SectionLogWarns(base, inc, prev, opts);
      ApplySectionsMerges(base, inc, prev, opts);
      WarningsStep(base, inc, NameSet(prev), names[|names| - 1], opts);
    }
  }

  /** All the names of a map, once each, reach all of it. */
  lemma AllReached<X>(m: map<string, X>, names: seq<string>)
    requires forall n :: n in m <==> n in names
    ensures Only(m, NameSet(names)) == m
  {
    NameSetMembers(names);
  }

  /** An item pass over every incoming item, each once, merges them all and logs exactly their
      warnings. */
  lemma ItemPassComplete<V>(secname: string, base: map<string, Item<V>>, inc: map<string, Item<V>>, names: seq<string>,
                            create: bool, updateComments: bool)
    requires Distinct(names) && forall n :: n in inc <==> n in names
    ensures ApplyItems(base, inc, names, create, updateComments) == MergeItems(base, inc, create, updateComments)
    ensures forall w :: w in ItemLog(secname, base, inc, names, create, updateComments) <==> w in ItemWarnings(secname, base, inc, create)
  {
    ApplyItemsMerges(base, inc, names, create, updateComments);
    ItemLogWarns(secname, base, inc, names, create, updateComments);
    AllReached(inc, names);
  }

  /** A section pass over every incoming section, each once, merges them all and logs exactly
      their warnings. */
  lemma SectionPassComplete<V>(base: Config<V>, inc: Config<V>, names: seq<string>, opts: Options)
    requires Distinct(names) && forall n :: n in inc <==> n in names
    ensures ApplySections(base, inc, names, opts) == MergeConfig(base, inc, opts)
    ensures SectionLog(base, inc, names, opts) == Warnings(base, inc, opts)
  {
    ApplySectionsMerges(base, inc, names, opts);
    SectionLogWarns(base, inc, names, opts);
    AllReached(inc, names);
  }

  /** The item pass after one more name. */
  lemma ApplyItemsSnoc<V>(secname: string, base: map<string, Item<V>>, inc: map<string, Item<V>>, ns: seq<string>, i: nat, next: nat,
                          create: bool, updateComments: bool)
    requires next == i + 1 && next <= |ns| && forall n :: n in ns ==> n in inc
    ensures ApplyItems(base, inc, ns[..next], create, updateComments) ==
      NextItems(ApplyItems(base, inc, ns[..i], create, updateComments), ns[i], inc[ns[i]], create, updateComments)
    ensures ItemLog(secname, base, inc, ns[..next], create, updateComments) ==
      ItemLog(secname, base, inc, ns[..i], create, updateComments)
        + ItemWarning(secname, ApplyItems(base, inc, ns[..i], create, updateComments), ns[i], create)
  {
    assert ns[..next][..i] == ns[..i];
  }

  /** The section pass after one more name. */
  lemma ApplySectionsSnoc<V>(base: Config<V>, inc: Config<V>, ns: seq<string>, i: nat, next: nat, opts: Options)
    requires next == i + 1 && next <= |ns| && forall n :: n in ns ==> n in inc
    ensures ApplySections(base, inc, ns[..next], opts) == NextConfig(ApplySections(base, inc, ns[..i], opts), ns[i], inc[ns[i]], opts)
    ensures SectionLog(base, inc, ns[..next], opts) ==
      SectionLog(base, inc, ns[..i], opts) + SectionWarnings(ApplySections(base, inc, ns[..i], opts), ns[i], inc[ns[i]], opts)
  {
    assert ns[..next][..i] == ns[..i];
  }
}
