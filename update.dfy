/** `update_config` as the source runs it: a pass over the sections of the incoming root
    container and, for a section both have, a pass over its items, changing the target's objects
    in place or binding the incoming objects into it. It is proved to leave the target reading
    exactly as `Merge.MergeConfig` specifies, and to log exactly the warnings of
    `Merge.Warnings`. */
module Update {

  import opened Values
  import opened Tree
  import opened Merge
  import opened UpdatePasses

  /** `item_old.value = item.value`: the value of the item bound to `name` changes in place, and
      nothing else. */
  method SetItemValue<V>(sec: ConfigContainer<V>, name: string, v: V)
    requires sec.IsSection() && name in sec.items
    modifies sec.items[name].item
    ensures sec.IsSection() && sec.items == old(sec.items) && sec.Repr == old(sec.Repr)
    ensures sec.SectionView() ==
      old(sec.SectionView()).(items := old(sec.SectionView()).items[name := old(sec.SectionView()).items[name].(value := v)])
  {
    var it := sec.items[name].item;
    it.value := v;
    ghost var m0 := old(sec.SectionView()).items;
    forall k | k in sec.items ensures sec.items[k].item.View() == m0[name := m0[name].(value := v)][k] {
      if k != name {
        assert sec.items[k].item != it;
      }
    }
  }

  /** `setattr(sec_old, itname, item)` with an item object from elsewhere: the object is bound to
      `name`, in place of any item of that name, and nothing else changes. */
  method BindItem<V>(sec: ConfigContainer<V>, name: string, item: ConfigItem<V>)
    requires sec.IsSection() && item !in sec.Repr
    modifies sec
    ensures sec.IsSection() && sec.comment == old(sec.comment)
    ensures sec.items == old(sec.items)[name := ItemChild(item)] && sec.Repr == old(sec.Repr) + {item}
    ensures sec.SectionView() == old(sec.SectionView()).(items := old(sec.SectionView()).items[name := item.View()])
  {
    sec.SetAttr(name, AssignChild(ItemChild(item)));
    sec.Repr := sec.Repr + {item};
    ghost var m0 := old(sec.SectionView()).items;
    forall k | k in sec.items ensures sec.items[k].item.View() == m0[name := item.View()][k] {
    }
  }

  /** One incoming item of the item pass: the item of that name is updated, in value alone or
      as a whole object when comments are updated, or the incoming object is bound when items
      may be created, or a warning names it. */
  method UpdateItem<V>(secname: string, sec: ConfigContainer<V>, itname: string, item: ConfigItem<V>, create: bool, updateComments: bool,
                       ghost m: map<string, Item<V>>, ghost it: Item<V>)
    returns (warned: bool)
    requires sec.IsSection() && item !in sec.Repr
    requires m == sec.SectionView().items && it == item.View()
    modifies sec, if itname in sec.items then {sec.items[itname].item} else {}
    ensures sec.IsSection() && sec.Repr <= old(sec.Repr) + {item} && sec.comment == old(sec.comment)
    ensures forall k :: k in sec.items && k != itname ==> k in old(sec.items) && sec.items[k] == old(sec.items[k])
    ensures warned <==> itname !in m && !create
    ensures sec.SectionView().items == NextItems(m, itname, it, create, updateComments)
  {
    warned := false;
    if sec.Contains(itname) {
      if updateComments {
        BindItem(sec, itname, item);
      } else {
        SetItemValue(sec, itname, item.value);
      }
    } else if create {
      BindItem(sec, itname, item);
    } else {
      warned := true;
    }
  }

  /** What the item pass keeps of the section's objects after the pairs named `done`: it is still
      a section made of its own objects and the incoming items it took, no incoming item not
      reached yet is among them, and a name not reached yet is bound as before. */
  ghost predicate ItemsShape<V>(sec: ConfigContainer<V>, entries: seq<(string, Child<V>)>, i: nat, done: seq<string>,
                                items0: map<string, Child<V>>, repr0: set<object>, taken: set<object>)
    reads sec, sec.Repr
  {
    && i <= |entries|
    && sec.IsSection()
    && sec.Repr <= repr0 + taken
    && (forall j :: i <= j < |entries| && entries[j].1.ItemChild? ==> entries[j].1.item !in taken)
    && (forall k :: k in sec.items && k !in done ==> k in items0 && sec.items[k] == items0[k])
  }

  /** The body of the item pass for pair `i`, with `next` the index after it: `UpdateItem`, and
      the section keeps its shape. */
  method ItemStep<V>(sec: ConfigContainer<V>, entries: seq<(string, Child<V>)>, i: nat, ghost next: nat, ghost ns: seq<string>, secname: string,
                     create: bool, updateComments: bool,
                     ghost items0: map<string, Child<V>>, ghost repr0: set<object>, ghost taken: set<object>,
                     ghost m: map<string, Item<V>>, ghost it: Item<V>)
    returns (warned: bool)
    requires next == i + 1 && i < |entries| && ns == Names(entries) && ItemsShape(sec, entries, i, ns[..i], items0, repr0, taken)
    requires forall j :: i < j < |entries| && entries[j].1.ItemChild? ==> entries[j].1 != entries[i].1
    requires entries[i].1.ItemChild? && entries[i].1.item !in repr0
    requires m == sec.SectionView().items && it == entries[i].1.item.View()
    requires forall k :: k in items0 ==> items0[k].ItemChild? && items0[k].item in repr0
    modifies sec, if entries[i].0 in sec.items then {sec.items[entries[i].0].item} else {}
    ensures ItemsShape(sec, entries, next, ns[..next], items0, repr0, taken + {entries[i].1.item})
    ensures sec.comment == old(sec.comment)
    ensures warned <==> entries[i].0 !in m && !create
    ensures sec.SectionView().items == NextItems(m, entries[i].0, it, create, updateComments)
  {
    var itname := entries[i].0;
    var item := entries[i].1.item;
    assert ns[..next] == ns[..i] + [itname];
    warned := UpdateItem(secname, sec, itname, item, create, updateComments, m, it);
  }

  /** The pairs an item pass goes through: every item of `inc` once, under its name, each a
      different object among `incRepr` that reads as that item. */
  ghost predicate ItemPairs<V>(entries: seq<(string, Child<V>)>, inc: map<string, Item<V>>, incRepr: set<object>)
    reads incRepr
  {
    && Distinct(Names(entries))
    && (forall k :: k in inc <==> k in Names(entries))
    && (forall j, j' :: 0 <= j < j' < |entries| ==> entries[j].1 != entries[j'].1)
    && (forall j :: 0 <= j < |entries| ==>
          && entries[j].1.ItemChild? && entries[j].1.item in incRepr && entries[j].1.item.View() == inc[entries[j].0])
  }

  /** The loop of the item pass over the `(name, item)` pairs `__iter__` yields for the incoming
      section, whose items read as `inc` and whose objects are `incRepr`: each pair goes through
      `UpdateItem`. The items end up as `MergeItems` says and the warnings name exactly the items
      that could not be created. */
  method UpdateItems<V>(secname: string, sec: ConfigContainer<V>, entries: seq<(string, Child<V>)>, create: bool, updateComments: bool,
                        ghost base: map<string, Item<V>>, ghost inc: map<string, Item<V>>, ghost incRepr: set<object>)
    returns (warnings: seq<Warning>)
    requires sec.IsSection() && base == sec.SectionView().items && sec.Repr !! incRepr
    requires ItemPairs(entries, inc, incRepr)
    modifies sec.Repr
    ensures sec.IsSection() && sec.Repr <= old(sec.Repr) + incRepr && sec.comment == old(sec.comment)
    ensures sec.SectionView().items == ApplyItems(base, inc, Names(entries), create, updateComments)
    ensures warnings == ItemLog(secname, base, inc, Names(entries), create, updateComments)
  {
    ghost var ns := Names(entries);
    ghost var items0 := sec.items;
    ghost var repr0 := sec.Repr;
    ghost var comment0 := sec.comment;
    ghost var taken: set<object> := {};
    warnings := [];
    var i := 0;
    while i < |entries|
      invariant i <= |entries|
      invariant ItemsShape(sec, entries, i, ns[..i], items0, repr0, taken)
      invariant taken <= incRepr && sec.comment == comment0
      invariant sec.SectionView().items == ApplyItems(base, inc, ns[..i], create, updateComments)
      invariant warnings == ItemLog(secname, base, inc, ns[..i], create, updateComments)
    {
      var next := i + 1;
      ghost var it := inc[entries[i].0];
      ApplyItemsSnoc(secname, base, inc, ns, i, next, create, updateComments);
      var warned := ItemStep(sec, entries, i, next, ns, secname, create, updateComments, items0, repr0, taken,
                             ApplyItems(base, inc, ns[..i], create, updateComments), it);
      if warned {
        warnings := warnings + [UnknownItem(secname, entries[i].0)];
      }
      taken := taken + {entries[i].1.item};
      i := next;
    }
    assert ns[..i] == ns;
  }

  /** What `__iter__` of a section yields, as the item pass uses it: every item once, under its
      name, each a different object of the section. */
  lemma SectionPairs<V>(incoming: ConfigContainer<V>, entries: seq<(string, Child<V>)>)
    requires incoming.IsSection()
    requires |entries| == |incoming.items|
    requires forall i :: 0 <= i < |entries| ==> entries[i].0 in incoming.items && incoming.items[entries[i].0] == entries[i].1
    requires forall i, j :: 0 <= i < j < |entries| ==> entries[i].0 != entries[j].0
    requires forall k :: k in incoming.items ==> exists i :: 0 <= i < |entries| && entries[i].0 == k
    ensures ItemPairs(entries, incoming.SectionView().items, incoming.Repr)
  {
    IterNames(incoming.items, entries);
  }

  /** `for itname, item in sec: ...`: every item of the incoming section, in the order
      `__iter__` yields them, goes through `UpdateItem`. The items end up as `MergeItems` says,
      the warnings name exactly the items that could not be created, and the section's objects
      are its own and the incoming items it took. */
  method ItemPass<V>(secname: string, sec: ConfigContainer<V>, incoming: ConfigContainer<V>, create: bool, updateComments: bool)
    returns (warnings: seq<Warning>)
    requires sec.IsSection() && incoming.IsSection() && sec.Repr !! incoming.Repr
    modifies sec.Repr
    ensures sec.IsSection() && sec.Repr <= old(sec.Repr) + incoming.Repr && sec.comment == old(sec.comment)
    ensures sec.SectionView().items == MergeItems(old(sec.SectionView()).items, old(incoming.SectionView()).items, create, updateComments)
    ensures forall w :: w in warnings <==>
      w in ItemWarnings(secname, old(sec.SectionView()).items, old(incoming.SectionView()).items, create)
  {
    ghost var base := sec.SectionView().items;
    ghost var inc := incoming.SectionView().items;
    var entries := incoming.Iter();
    SectionPairs(incoming, entries);
    warnings := UpdateItems(secname, sec, entries, create, updateComments, base, inc, incoming.Repr);
    ItemPassComplete(secname, base, inc, Names(entries), create, updateComments);
  }

  /** The branch of `update_config` for a section both configurations have: with
      `update_comments` the comment is copied first, then the item pass runs. The section ends up
      reading as `MergeSection` says and the warnings name exactly the items that could not be
      created. */
  method UpdateSection<V>(secname: string, sec: ConfigContainer<V>, incoming: ConfigContainer<V>, create: bool, updateComments: bool)
    returns (warnings: seq<Warning>)
    requires sec.IsSection() && incoming.IsSection() && sec.Repr !! incoming.Repr
    modifies sec.Repr
    ensures sec.IsSection() && sec.Repr <= old(sec.Repr) + incoming.Repr
    ensures sec.SectionView() == MergeSection(old(sec.SectionView()), old(incoming.SectionView()), create, updateComments)
    ensures forall w :: w in warnings <==>
      w in ItemWarnings(secname, old(sec.SectionView()).items, old(incoming.SectionView()).items, create)
  {
    if updateComments {
      sec.SetComment(incoming.comment);
    }
    warnings := ItemPass(secname, sec, incoming, create, updateComments);
  }

  /** `sec_old = cfg[secname]` and the branch for a section both configurations have: the root
      keeps its bindings, the section reads as `MergeSection` says, and the root's objects gain
      the incoming section's. */
  method UpdateExisting<V>(cfg: ConfigContainer<V>, secname: string, incoming: ConfigContainer<V>, create: bool, updateComments: bool)
    returns (warnings: seq<Warning>)
    requires cfg.IsConfig() && secname in cfg.items && incoming.IsSection() && cfg.Repr !! incoming.Repr
    modifies cfg, cfg.items[secname].section.Repr
    ensures cfg.IsConfig() && cfg.items == old(cfg.items) && cfg.Repr == old(cfg.Repr) + incoming.Repr
    ensures forall k :: k in cfg.items && k != secname ==> cfg.items[k].section.Repr == old(cfg.items[k].section.Repr)
    ensures cfg.View() == old(cfg.View())[secname := MergeSection(old(cfg.View())[secname], old(incoming.SectionView()), create, updateComments)]
    ensures forall w :: w in warnings <==>
      w in ItemWarnings(secname, old(cfg.View())[secname].items, old(incoming.SectionView()).items, create)
  {
    var sec := cfg.items[secname].section;
    warnings := UpdateSection(secname, sec, incoming, create, updateComments);
    cfg.Repr := cfg.Repr + incoming.Repr;
    SectionUpdated(cfg, secname, sec);
  }

  /** `setattr(cfg, secname, sec)`: the incoming section object itself is bound into the root,
      which reads as before with that section added. */
  method AddSection<V>(cfg: ConfigContainer<V>, secname: string, incoming: ConfigContainer<V>)
    requires cfg.IsConfig() && incoming.IsSection() && cfg.Repr !! incoming.Repr
    modifies cfg
    ensures cfg.IsConfig() && cfg.Repr == old(cfg.Repr) + incoming.Repr
    ensures forall k :: k in cfg.items && k != secname ==>
      k in old(cfg.items) && cfg.items[k].section.Repr == old(cfg.items[k].section.Repr)
    ensures cfg.View() == old(cfg.View())[secname := incoming.SectionView()]
  {
    cfg.SetAttr(secname, AssignChild(SectionChild(incoming)));
    cfg.Repr := cfg.Repr + incoming.Repr;
    OthersKept(cfg, secname, incoming);
    ConfigRebound(cfg, secname, incoming);
  }

  /** The footprints of the sections of a root, by name. */
  ghost function SectionReprs<V>(c: ConfigContainer<V>): map<string, set<object>>
    reads c, c.Repr
    requires c.IsConfig()
  {
    map k | k in c.items :: c.items[k].section.Repr
  }

  /** The pairs the section pass goes through: every section of `inc` once, under its name, each
      a section object with footprint `incR[name]` inside `incRepr` that reads as that section. */
  ghost predicate SectionEntries<V>(entries: seq<(string, Child<V>)>, inc: Config<V>, incR: map<string, set<object>>, incRepr: set<object>)
    reads incRepr
  {
    forall j :: 0 <= j < |entries| ==>
      && entries[j].1.SectionChild? && entries[j].0 in incR && entries[j].0 in inc && entries[j].1.section in incRepr
      && entries[j].1.section.Repr == incR[entries[j].0] && incR[entries[j].0] <= incRepr
      && entries[j].1.section.IsSection() && entries[j].1.section.SectionView() == inc[entries[j].0]
  }

  /** What `__iter__` of a root yields, as the section pass uses it. */
  lemma RootPairs<V>(c: ConfigContainer<V>, entries: seq<(string, Child<V>)>, inc: Config<V>, incR: map<string, set<object>>)
    requires c.IsConfig() && inc == c.View() && incR == SectionReprs(c)
    requires forall i :: 0 <= i < |entries| ==> entries[i].0 in c.items && c.items[entries[i].0] == entries[i].1
    ensures inc.Keys == c.items.Keys && incR.Keys == c.items.Keys
    ensures forall k, k' :: k in incR && k' in incR && k != k' ==> incR[k] !! incR[k']
    ensures SectionEntries(entries, inc, incR, c.Repr)
  {
  }

  /** What the section pass keeps of the root after the sections named `ns[..i]`: it is still a
      root, made of its own objects and the incoming sections it took; no incoming section not
      reached yet shares an object with it, and a section not reached yet has only its own
      objects. */
  ghost predicate RootShape<V>(cfg: ConfigContainer<V>, ns: seq<string>, i: nat, incR: map<string, set<object>>,
                               repr0: set<object>, incRepr: set<object>)
    reads cfg, cfg.Repr
  {
    && i <= |ns|
    && cfg.IsConfig()
    && cfg.Repr <= repr0 + incRepr
    && (forall j :: i <= j < |ns| && ns[j] in incR ==> incR[ns[j]] !! cfg.Repr)
    && (forall k :: k in cfg.items && k !in ns[..i] ==> cfg.items[k].section.Repr <= repr0)
  }

  /** The incoming section named `ns[i]` is reached once, and no section reached after it shares
      an object with it. */
  lemma ReachedOnce(ns: seq<string>, incR: map<string, set<object>>, i: nat)
    requires i < |ns| && Distinct(ns) && ns[i] in incR
    requires forall k, k' :: k in incR && k' in incR && k != k' ==> incR[k] !! incR[k']
    ensures ns[i] !in ns[..i]
    ensures forall j :: i < j < |ns| && ns[j] in incR ==> incR[ns[j]] !! incR[ns[i]]
  {
  }

  /** The body of the section pass for pair `i`, with `next` the index after it. */
  method SectionStep<V>(cfg: ConfigContainer<V>, entries: seq<(string, Child<V>)>, i: nat, ghost next: nat, ghost ns: seq<string>, opts: Options,
                        ghost incR: map<string, set<object>>, ghost repr0: set<object>, ghost incRepr: set<object>,
                        ghost m: Config<V>, ghost sv: Section<V>)
    returns (warnings: seq<Warning>)
    requires next == i + 1 && i < |entries| && ns == Names(entries) && ns[i] !in ns[..i]
    requires RootShape(cfg, ns, i, incR, repr0, incRepr)
    requires entries[i].1.SectionChild? && ns[i] in incR && entries[i].1.section.Repr == incR[ns[i]] && incR[ns[i]] <= incRepr
    requires entries[i].1.section.IsSection()
    requires forall j :: i < j < |ns| && ns[j] in incR ==> incR[ns[j]] !! incR[ns[i]]
    requires m == cfg.View() && sv == entries[i].1.section.SectionView()
    modifies cfg, if ns[i] in cfg.items then cfg.items[ns[i]].section.Repr else {}
    ensures RootShape(cfg, ns, next, incR, repr0, incRepr)
    ensures cfg.View() == NextConfig(m, ns[i], sv, opts)
    ensures forall w :: w in warnings <==> w in SectionWarnings(m, ns[i], sv, opts)
  {
    var secname := entries[i].0;
    var sec := entries[i].1.section;
    var create := CreatesItems(opts.createItems, secname);
    assert ns[..next] == ns[..i] + [secname];
    if cfg.Contains(secname) {
      warnings := UpdateExisting(cfg, secname, sec, create, opts.updateComments);
    } else if opts.createSections {
      AddSection(cfg, secname, sec);
      warnings := [];
    } else {
      warnings := [UnknownSection(secname)];
    }
  }

  /** The loop of the section pass over the `(name, section)` pairs `__iter__` yields for the
      incoming root, whose sections read as `inc` and have footprints `incR`, inside `incRepr`:
      each pair goes through `SectionStep`. */
  method UpdateSections<V>(cfg: ConfigContainer<V>, entries: seq<(string, Child<V>)>, opts: Options,
                           ghost base: Config<V>, ghost inc: Config<V>, ghost incR: map<string, set<object>>, ghost incRepr: set<object>)
    returns (warnings: seq<Warning>)
    requires cfg.IsConfig() && base == cfg.View() && cfg.Repr !! incRepr
    requires Distinct(Names(entries)) && (forall k :: k in inc <==> k in Names(entries)) && forall k :: k in incR ==> k in inc
    requires forall k, k' :: k in incR && k' in incR && k != k' ==> incR[k] !! incR[k']
    requires SectionEntries(entries, inc, incR, incRepr)
    modifies cfg.Repr
    ensures cfg.IsConfig() && cfg.Repr <= old(cfg.Repr) + incRepr
    ensures cfg.View() == ApplySections(base, inc, Names(entries), opts)
    ensures forall w :: w in warnings <==> w in SectionLog(base, inc, Names(entries), opts)
  {
    ghost var ns := Names(entries);
    ghost var repr0 := cfg.Repr;
    warnings := [];
    var i := 0;
    while i < |entries|
      invariant i <= |entries|
      invariant RootShape(cfg, ns, i, incR, repr0, incRepr)
      invariant SectionEntries(entries, inc, incR, incRepr)
      invariant cfg.View() == ApplySections(base, inc, ns[..i], opts)
      invariant forall w :: w in warnings <==> w in SectionLog(base, inc, ns[..i], opts)
    {
      var next := i + 1;
      ApplySectionsSnoc(base, inc, ns, i, next, opts);
      ReachedOnce(ns, incR, i);
      var w := SectionStep(cfg, entries, i, next, ns, opts, incR, repr0, incRepr,
                           ApplySections(base, inc, ns[..i], opts), inc[ns[i]]);
      warnings := warnings + w;
      i := next;
    }
    assert ns[..i] == ns;
  }

  /** `update_config(cfg, cfg_new, ...)`: every section of `cfg_new`, in the order `__iter__`
      yields them, is merged into the section of that name, or bound into `cfg` when sections may
      be created, or named in a warning. `cfg` ends up reading as `MergeConfig` says and the
      warnings are exactly those of `Warnings`; `cfg` is made of its own objects and of objects
      of `cfg_new`, which it may now share. */
  method UpdateConfig<V>(cfg: ConfigContainer<V>, cfgNew: ConfigContainer<V>, opts: Options)
    returns (warnings: seq<Warning>)
    requires cfg.IsConfig() && cfgNew.IsConfig() && cfg.Repr !! cfgNew.Repr
    modifies cfg.Repr
    ensures cfg.IsConfig() && cfg.Repr <= old(cfg.Repr) + cfgNew.Repr
    ensures cfg.View() == MergeConfig(old(cfg.View()), old(cfgNew.View()), opts)
    ensures forall w :: w in warnings <==> w in Warnings(old(cfg.View()), old(cfgNew.View()), opts)
  {
    var entries := cfgNew.Iter();
    ConfigKept(cfg);
    ConfigKept(cfgNew);
    ghost var base := cfg.View();
    ghost var inc := cfgNew.View();
    ghost var incR := SectionReprs(cfgNew);
    RootPairs(cfgNew, entries, inc, incR);
    IterNames(cfgNew.items, entries);
    warnings := UpdateSections(cfg, entries, opts, base, inc, incR, cfgNew.Repr);
    SectionPassComplete(base, inc, Names(entries), opts);
  }
}
