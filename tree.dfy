/** The objects of a configuration: `ConfigItem` and `ConfigContainer`, with the attribute-style
    reads and writes of the container. A configuration is a root container whose children are
    section containers whose children are items; `View` forgets object identity. */
module Tree {

  import opened Wrappers
  import opened Text
  import opened Values

  /** `get_description`, given the `_comment` of the item or section: the comment with its first
      character upper-cased. */
  function GetDescription(comment: string): (d: string)
    ensures |d| == |comment|
    ensures comment != [] ==> d[0] == UpperAscii(comment[0]) && d[1..] == comment[1..]
  {
    if comment == [] then [] else [UpperAscii(comment[0])] + comment[1..]
  }

  /** Describing a description changes nothing more. */
  lemma DescriptionIdempotent(comment: string)
    ensures GetDescription(GetDescription(comment)) == GetDescription(comment)
  {
    if comment != [] {
      var d := GetDescription(comment);
      assert d[0] == UpperAscii(comment[0]);
      assert GetDescription(d)[1..] == d[1..];
    }
  }

  class ConfigItem<V> {
    var name: string
    var value: V
    var comment: string

    /** `ConfigItem(name, value, comment)`; an omitted comment is the empty string. */
    constructor (name: string, value: V, comment: string)
      ensures this.name == name && this.value == value && this.comment == comment
    {
      this.name := name;
      this.value := value;
      this.comment := comment;
    }

    ghost function View(): Item<V>
      reads this
    {
      Item(name, value, comment)
    }
  }

  /** What a container holds under a name. */
  datatype Child<V> = ItemChild(item: ConfigItem<V>) | SectionChild(section: ConfigContainer<V>)

  /** What `__getattr__` gives for `container.name` once normal attribute lookup has failed: the
      value of an item, or a container itself. */
  datatype Member<V> = ValueMember(value: V) | ContainerMember(container: ConfigContainer<V>)

  /** What `container.name = x` assigns: an item or container object, or a plain value. */
  datatype Assigned<V> = AssignChild(child: Child<V>) | AssignValue(value: V)

  /** The exceptions of a failed lookup. */
  datatype LookupError = AttributeError(name: string) | KeyError(name: string)

  class ConfigContainer<V> {
    var items: map<string, Child<V>>
    var comment: string
    /** The objects a section or root container is made of, itself included. */
    ghost var Repr: set<object>

    /** `ConfigContainer(items, comment)`. */
    constructor (items: map<string, Child<V>>, comment: string)
      ensures this.items == items && this.comment == comment && Repr == {this}
    {
      this.items := items;
      this.comment := comment;
      Repr := {this};
    }

    ghost function ItemObjects(): set<ConfigItem<V>>
      reads this
    {
      set k | k in items && items[k].ItemChild? :: items[k].item
    }

    /** `__contains__`: names are looked up among the children. */
    predicate Contains(name: string)
      reads this
    {
      name in items
    }

    /** `__getitem__`: the child object itself; a missing name raises `KeyError`. */
    function GetItem(name: string): (r: Result<Child<V>, LookupError>)
      reads this
      ensures r.Ok? <==> Contains(name)
      ensures r.Ok? ==> r.value == items[name]
      ensures r.Err? ==> r.error == KeyError(name)
    {
      if name in items then Ok(items[name]) else Err(KeyError(name))
    }

    /** `__getattr__`: a name bound to an item reads as the item's value, a name bound to a
        container as the container; a missing name raises `AttributeError`. */
    function GetAttr(name: string): (r: Result<Member<V>, LookupError>)
      reads this, ItemObjects()
      ensures r.Ok? <==> Contains(name)
      ensures r.Err? ==> r.error == AttributeError(name)
      ensures r.Ok? && items[name].ItemChild? ==> r.value == ValueMember(items[name].item.value)
      ensures r.Ok? && items[name].SectionChild? ==> r.value == ContainerMember(items[name].section)
    {
      match GetItem(name)
      case Err(_) => Err(AttributeError(name))
      case Ok(ItemChild(it)) => Ok(ValueMember(it.value))
      case Ok(SectionChild(c)) => Ok(ContainerMember(c))
    }

    /** `__iter__`: every `(name, child)` pair once. */
    method Iter() returns (entries: seq<(string, Child<V>)>)
      ensures |entries| == |items|
      ensures forall i :: 0 <= i < |entries| ==> entries[i].0 in items && items[entries[i].0] == entries[i].1
      ensures forall i, j :: 0 <= i < j < |entries| ==> entries[i].0 != entries[j].0
      ensures forall k :: k in items ==> exists i :: 0 <= i < |entries| && entries[i].0 == k
    {
      entries := [];
      var rest := items.Keys;
      while rest != {}
        invariant rest <= items.Keys
        invariant |entries| + |rest| == |items|
        invariant forall i :: 0 <= i < |entries| ==> entries[i].0 in items && entries[i].0 !in rest && items[entries[i].0] == entries[i].1
        invariant forall i, j :: 0 <= i < j < |entries| ==> entries[i].0 != entries[j].0
        invariant forall k :: k in items && k !in rest ==> exists i :: 0 <= i < |entries| && entries[i].0 == k
        decreases rest
      {
        var k :| k in rest;
        ghost var before := entries;
        entries := entries + [(k, items[k])];
        rest := rest - {k};
        forall k' | k' in items && k' !in rest ensures exists i :: 0 <= i < |entries| && entries[i].0 == k' {
          if k' == k {
            assert entries[|before|].0 == k;
          } else {
            var i :| 0 <= i < |before| && before[i].0 == k';
            assert entries[i].0 == k';
          }
        }
      }
    }

    /** The item object whose value a plain assignment changes in place, if any. */
    ghost function ValueTarget(name: string, a: Assigned<V>): set<object>
      reads this
    {
      if a.AssignValue? && name in items && items[name].ItemChild? then {items[name].item} else {}
    }

    /** `__setattr__` for every name but `_comment`: an item or container replaces the binding; a
        plain value updates the value of the item bound to the name, or creates an item with an
        empty comment. No other binding changes, and the name reads back what was assigned. */
    method SetAttr(name: string, a: Assigned<V>)
      requires a.AssignValue? ==> name != "_comment" && (name in items ==> items[name].ItemChild?)
      modifies this, ValueTarget(name, a)
      ensures comment == old(comment) && Repr == old(Repr)
      ensures items.Keys == old(items.Keys) + {name}
      ensures forall k :: k in old(items) && k != name ==> items[k] == old(items[k])
      ensures a.AssignChild? ==> items == old(items)[name := a.child]
      ensures a.AssignValue? ==> items[name].ItemChild? && GetAttr(name) == Ok(ValueMember(a.value))
      ensures a.AssignValue? && name in old(items) ==>
        items[name] == old(items[name]) && items[name].item.name == old(items[name].item.name)
        && items[name].item.comment == old(items[name].item.comment)
      ensures a.AssignValue? && name !in old(items) ==>
        fresh(items[name].item) && items[name].item.name == name && items[name].item.comment == ""
    {
      match a
      case AssignChild(child) =>
        items := items[name := child];
      case AssignValue(v) =>
        if name in items {
          items[name].item.value := v;
        } else {
          var it := new ConfigItem(name, v, "");
          items := items[name := ItemChild(it)];
        }
    }

    /** The `_comment` branch of `__setattr__`. */
    method SetComment(c: string)
      modifies this
      ensures comment == c && items == old(items) && Repr == old(Repr)
      ensures old(IsSection()) ==> IsSection() && SectionView() == old(SectionView()).(comment := c)
    {
      comment := c;
    }

    /** A section container holds items only, each in its footprint, and no item object under
        two names. */
    ghost predicate IsSection()
      reads this, Repr
    {
      && this in Repr
      && (forall k :: k in items ==> items[k].ItemChild? && items[k].item in Repr)
      && (forall k, j :: k in items && j in items && k != j ==> items[k].item != items[j].item)
    }

    ghost function SectionView(): Section<V>
      reads this, Repr
      requires IsSection()
    {
      Section(map k | k in items :: items[k].item.View(), comment)
    }

    /** A root container as the parser builds it: sections of items, each section's footprint
        inside the root's, apart from the root and from every other section's. */
    ghost predicate IsConfig()
      reads this, Repr
    {
      && this in Repr
      && (forall k :: k in items ==>
            && items[k].SectionChild? && items[k].section in Repr && items[k].section.Repr <= Repr
            && this !in items[k].section.Repr && items[k].section.IsSection())
      && (forall k, j :: k in items && j in items && k != j ==> items[k].section.Repr !! items[j].section.Repr)
    }

    ghost function View(): Config<V>
      reads this, Repr
      requires IsConfig()
    {
      map k | k in items :: items[k].section.SectionView()
    }
  }

  /** A section that gained one fresh item under a new name, and whose other objects did not
      change, reads as before with that item added. */
  twostate lemma SectionGained<V>(s: ConfigContainer<V>, new name: string, new item: ConfigItem<V>)
    requires old(s.IsSection()) && name !in old(s.items) && fresh(item)
    requires s.items == old(s.items)[name := ItemChild(item)] && s.comment == old(s.comment)
    requires s.Repr == old(s.Repr) + {item} && unchanged(old(s.Repr) - {s})
    ensures s.IsSection()
    ensures s.SectionView() == old(s.SectionView()).(items := old(s.SectionView()).items[name := item.View()])
  {
    var m0 := old(s.SectionView()).items;
    var m1 := s.SectionView().items;
    forall k | k in m1 ensures m1[k] == m0[name := item.View()][k] {
      if k != name {
        assert s.items[k] == old(s.items[k]);
      }
    }
  }

  /** The sections a root rebinding leaves in place still read as before. */
  twostate lemma OthersKept<V>(c: ConfigContainer<V>, new name: string, new sec: ConfigContainer<V>)
    requires old(c.IsConfig()) && c.items == old(c.items)[name := SectionChild(sec)]
    requires forall k :: k in old(c.items) && k != name ==> sec.Repr !! old(c.items[k].section.Repr)
    requires sec in sec.Repr && unchanged(old(c.Repr) - {c, sec})
    ensures forall k :: k in c.items && k != name ==>
      && c.items[k] == old(c.items[k]) && c.items[k].section.Repr == old(c.items[k].section.Repr)
      && c.items[k].section.IsSection() && c.items[k].section.SectionView() == old(c.items[k].section.SectionView())
  {
    forall k | k in c.items && k != name
      ensures c.items[k].section.IsSection()
      ensures c.items[k].section.SectionView() == old(c.items[k].section.SectionView())
    {
      var s := c.items[k].section;
      assert c !in s.Repr && sec !in s.Repr;
      SectionKept(s);
    }
  }

  /** A root that binds `name` to a section whose footprint is apart from the other sections',
      the other sections unchanged, reads as before with that section bound to `name`. */
  twostate lemma ConfigRebound<V>(c: ConfigContainer<V>, new name: string, new sec: ConfigContainer<V>)
    requires old(c.IsConfig()) && c.items == old(c.items)[name := SectionChild(sec)]
    requires sec.IsSection() && c !in sec.Repr && c.Repr == old(c.Repr) + sec.Repr
    requires forall k :: k in old(c.items) && k != name ==> sec.Repr !! old(c.items[k].section.Repr)
    requires unchanged(old(c.Repr) - {c, sec})
    ensures c.IsConfig()
    ensures c.View() == old(c.View())[name := sec.SectionView()]
  {
    OthersKept(c, name, sec);
    assert c.IsConfig();
    var m0 := old(c.View());
    var m1 := c.View();
    forall k | k in m1 ensures m1[k] == m0[name := sec.SectionView()][k] {
    }
  }

  /** A root one of whose sections gained a fresh item under a new name, nothing else having
      changed, reads as before with that item added to that section. */
  twostate lemma ItemAdded<V>(c: ConfigContainer<V>, new secname: string, new sec: ConfigContainer<V>, new name: string, new item: ConfigItem<V>)
    requires old(c.IsConfig()) && secname in old(c.items) && old(c.items[secname]) == SectionChild(sec)
    requires name !in old(sec.items) && fresh(item)
    requires c.items == old(c.items) && c.Repr == old(c.Repr) + {item}
    requires sec.items == old(sec.items)[name := ItemChild(item)] && sec.comment == old(sec.comment)
    requires sec.Repr == old(sec.Repr) + {item} && unchanged(old(c.Repr) - {c, sec})
    ensures c.IsConfig()
    ensures c.View() == old(c.View())[secname := old(c.View())[secname].(items := old(c.View())[secname].items[name := item.View()])]
  {
    assert old(c.View())[secname] == old(sec.SectionView());
    SectionGained(sec, name, item);
    ConfigRebound(c, secname, sec);
  }

  /** A root one of whose sections changed in place, growing by objects apart from the other
      sections, nothing outside that section having changed, reads as before with that section's
      new reading. */
  twostate lemma SectionUpdated<V>(c: ConfigContainer<V>, new name: string, new sec: ConfigContainer<V>)
    requires old(c.IsConfig()) && name in old(c.items) && old(c.items[name]) == SectionChild(sec)
    requires c.items == old(c.items) && sec.IsSection() && c !in sec.Repr
    requires c in c.Repr && old(c.Repr) <= c.Repr && sec.Repr <= c.Repr
    requires forall k :: k in old(c.items) && k != name ==> sec.Repr !! old(c.items[k].section.Repr)
    requires unchanged(old(c.Repr) - old(sec.Repr) - {c})
    ensures c.IsConfig()
    ensures forall k :: k in c.items && k != name ==> c.items[k].section.Repr == old(c.items[k].section.Repr)
    ensures c.View() == old(c.View())[name := sec.SectionView()]
  {
    forall k | k in c.items && k != name
      ensures c.items[k].section.Repr == old(c.items[k].section.Repr)
      ensures c.items[k].section.IsSection() && c.items[k].section.SectionView() == old(c.items[k].section.SectionView())
    {
      var s := c.items[k].section;
      assert old(s.Repr) !! old(sec.Repr);
      SectionKept(s);
    }
    assert c.IsConfig();
    var m0 := old(c.View());
    var m1 := c.View();
    forall k | k in m1 ensures m1[k] == m0[name := sec.SectionView()][k] {
    }
  }

  /** A section none of whose objects changed reads the same as before. */
  twostate lemma SectionKept<V>(s: ConfigContainer<V>)
    requires old(s.IsSection()) && unchanged(s) && unchanged(s.Repr)
    ensures s.IsSection() && s.SectionView() == old(s.SectionView())
  {
  }

  /** A root none of whose objects changed reads the same as before. */
  twostate lemma ConfigKept<V>(c: ConfigContainer<V>)
    requires old(c.IsConfig()) && unchanged(c) && unchanged(c.Repr)
    ensures c.IsConfig() && c.View() == old(c.View())
  {
    forall k | k in c.items
      ensures c.items[k].section.IsSection() && c.items[k].section.SectionView() == old(c.items[k].section.SectionView())
    {
      SectionKept(c.items[k].section);
    }
  }
}
