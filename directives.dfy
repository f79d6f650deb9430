/**
 * Reading the record-level configuration of the macro: the attributes
 * `#[dynaccess(...)]` are filtered and flattened (`filter_dynaccess_attrs`),
 * and the directives inside them are folded, left to right, into the module
 * name and the list of extra attributes for every marker struct.
 */
module Directives {
  import opened Wrappers
  import opened Syntax

  /** The closure given to `filter_map`: the entries of an attribute `#[dynaccess(...)]`. */
  function DynaccessItems(a: Attribute): Option<seq<Nested>> {
    if a.value.List? && a.value.name == "dynaccess" then Some(a.value.items) else None
  }

  /** `filter_map`: the entry lists of the `dynaccess` attributes, in order. */
  function SelectDynaccess(attrs: seq<Attribute>): seq<seq<Nested>> {
    if attrs == [] then []
    else
      var rest := SelectDynaccess(attrs[1..]);
      match DynaccessItems(attrs[0])
      case Some(items) => [items] + rest
      case None => rest
  }

  /** `flat_map(|a| a)`: the concatenation of the lists, in order. */
  function Flatten<T>(xss: seq<seq<T>>): seq<T> {
    if xss == [] then [] else xss[0] + Flatten(xss[1..])
  }

  /** The directives of the record: every entry of every `#[dynaccess(...)]`, in order. */
  function FilterDynaccessAttrs(attrs: seq<Attribute>): seq<Nested> {
    Flatten(SelectDynaccess(attrs))
  }

  /** What one attribute contributes to the directives. */
  function Contribution(a: Attribute): seq<Nested> {
    match DynaccessItems(a)
    case Some(items) => items
    case None => []
  }

  lemma {:induction false} FlattenAppend<T>(a: seq<seq<T>>, b: seq<seq<T>>)
    ensures Flatten(a + b) == Flatten(a) + Flatten(b)
  {
    if a == [] {
      assert a + b == b;
    } else {
      assert (a + b)[1..] == a[1..] + b;
      FlattenAppend(a[1..], b);
    }
  }

  /** The first attribute's entries come first, then those of the rest. */
  lemma FilterDynaccessCons(attrs: seq<Attribute>)
    requires attrs != []
    ensures FilterDynaccessAttrs(attrs) == Contribution(attrs[0]) + FilterDynaccessAttrs(attrs[1..])
  {
    if DynaccessItems(attrs[0]).Some? {
      FlattenAppend([attrs[0].value.items], SelectDynaccess(attrs[1..]));
      assert Flatten([attrs[0].value.items]) == attrs[0].value.items by {
        assert [attrs[0].value.items][1..] == [];
      }
    }
  }

  /** Filtering distributes over concatenation of attribute lists: order is preserved. */
  lemma {:induction false} FilterDynaccessAppend(a: seq<Attribute>, b: seq<Attribute>)
    ensures FilterDynaccessAttrs(a + b) == FilterDynaccessAttrs(a) + FilterDynaccessAttrs(b)
  {
    if a == [] {
      assert a + b == b;
    } else {
      FilterDynaccessCons(a + b);
      assert (a + b)[0] == a[0];
      assert (a + b)[1..] == a[1..] + b;
      FilterDynaccessAppend(a[1..], b);
      FilterDynaccessCons(a);
    }
  }

  /** An entry is a directive exactly when it is an entry of some `#[dynaccess(...)]` attribute. */
  lemma {:induction false} FilterDynaccessMembership(attrs: seq<Attribute>, x: Nested)
    ensures x in FilterDynaccessAttrs(attrs) <==>
      exists i :: 0 <= i < |attrs| && DynaccessItems(attrs[i]).Some? && x in DynaccessItems(attrs[i]).value
  {
    if attrs != [] {
      FilterDynaccessCons(attrs);
      FilterDynaccessMembership(attrs[1..], x);
      if x in FilterDynaccessAttrs(attrs[1..]) {
        var i :| 0 <= i < |attrs[1..]| && DynaccessItems(attrs[1..][i]).Some? && x in DynaccessItems(attrs[1..][i]).value;
        assert attrs[i + 1] == attrs[1..][i];
      }
      if exists i :: 0 <= i < |attrs| && DynaccessItems(attrs[i]).Some? && x in DynaccessItems(attrs[i]).value {
        var i :| 0 <= i < |attrs| && DynaccessItems(attrs[i]).Some? && x in DynaccessItems(attrs[i]).value;
        if i > 0 {
          assert attrs[1..][i - 1] == attrs[i];
        }
      }
    }
  }

  /** Without a `#[dynaccess(...)]` attribute there are no directives (and no error). */
  lemma {:induction false} FilterDynaccessNone(attrs: seq<Attribute>)
    requires forall i :: 0 <= i < |attrs| ==> DynaccessItems(attrs[i]).None?
    ensures FilterDynaccessAttrs(attrs) == []
  {
    if attrs != [] {
      FilterDynaccessCons(attrs);
      FilterDynaccessNone(attrs[1..]);
    }
  }

  /** The configuration the directives produce. */
  datatype Config = Config(modName: string, fieldAttrs: seq<Attribute>)

  /** The module name used when no `module` directive is given. */
  const DefaultModule: string := "field"

  const InitialConfig: Config := Config(DefaultModule, [])

  /** `module = "<str>"`: the string; any other entry (a non-string value included) gives None. */
  function ModuleValue(d: Nested): Option<string> {
    if d.Meta? && d.item.NameValue? && d.item.name == "module" && d.item.lit.Str?
    then Some(d.item.lit.value)
    else None
  }

  /** `field_attrs(...)`: its entries. */
  function FieldAttrsItems(d: Nested): Option<seq<Nested>> {
    if d.Meta? && d.item.List? && d.item.name == "field_attrs" then Some(d.item.items) else None
  }

  /** The `MetaItem` entries of a list; literal entries are dropped. */
  function MetaItems(items: seq<Nested>): seq<MetaItem> {
    if items == [] then []
    else if items[0].Meta? then [items[0].item] + MetaItems(items[1..])
    else MetaItems(items[1..])
  }

  /** An outer, non-doc attribute carrying m. */
  function OuterAttribute(m: MetaItem): Attribute {
    Attribute(Outer, m, false)
  }

  /** The attributes built from the entries of one `field_attrs(...)` directive. */
  function WrapFieldAttrs(items: seq<Nested>): seq<Attribute> {
    var ms := MetaItems(items);
    seq(|ms|, i requires 0 <= i < |ms| => OuterAttribute(ms[i]))
  }

  /** One iteration of the directive loop; unrecognised directives change nothing. */
  function Step(c: Config, d: Nested): Config {
    if ModuleValue(d).Some? then c.(modName := ModuleValue(d).value)
    else if FieldAttrsItems(d).Some? then c.(fieldAttrs := c.fieldAttrs + WrapFieldAttrs(FieldAttrsItems(d).value))
    else c
  }

  /** The directive loop as a left fold starting from c. */
  function Fold(c: Config, ds: seq<Nested>): Config
    decreases |ds|
  {
    if ds == [] then c else Fold(Step(c, ds[0]), ds[1..])
  }

  /** The configuration of a list of directives. */
  function ReadConfig(ds: seq<Nested>): Config {
    Fold(InitialConfig, ds)
  }

  /** Folding over a concatenation folds over the first part, then the second. */
  lemma {:induction false} FoldAppend(c: Config, a: seq<Nested>, b: seq<Nested>)
    ensures Fold(c, a + b) == Fold(Fold(c, a), b)
    decreases |a|
  {
    if a == [] {
      assert a + b == b;
    } else {
      assert (a + b)[0] == a[0];
      assert (a + b)[1..] == a[1..] + b;
      FoldAppend(Step(c, a[0]), a[1..], b);
    }
  }

  /** Without a `module` directive, the fold keeps the module name it started with. */
  lemma {:induction false} FoldKeepsModule(c: Config, ds: seq<Nested>)
    requires forall i :: 0 <= i < |ds| ==> ModuleValue(ds[i]).None?
    ensures Fold(c, ds).modName == c.modName
    decreases |ds|
  {
    if ds != [] {
      FoldKeepsModule(Step(c, ds[0]), ds[1..]);
    }
  }

  /** No `module = "<str>"` directive: the module is named `field`. */
  lemma ModuleNameDefault(ds: seq<Nested>)
    requires forall i :: 0 <= i < |ds| ==> ModuleValue(ds[i]).None?
    ensures ReadConfig(ds).modName == "field"
  {
    FoldKeepsModule(InitialConfig, ds);
  }

  /** The last `module = "<str>"` directive decides the module name. */
  lemma ModuleNameLast(ds: seq<Nested>, i: nat)
    requires i < |ds| && ModuleValue(ds[i]).Some?
    requires forall j :: i < j < |ds| ==> ModuleValue(ds[j]).None?
    ensures ReadConfig(ds).modName == ModuleValue(ds[i]).value
  {
    assert ds == ds[..i] + ([ds[i]] + ds[i + 1..]);
    FoldAppend(InitialConfig, ds[..i], [ds[i]] + ds[i + 1..]);
    var c := Fold(InitialConfig, ds[..i]);
    assert ([ds[i]] + ds[i + 1..])[1..] == ds[i + 1..];
    var rest := ds[i + 1..];
    forall j | 0 <= j < |rest| ensures ModuleValue(rest[j]).None? {
      assert rest[j] == ds[i + 1 + j];
    }
    FoldKeepsModule(Step(c, ds[i]), rest);
  }

  /** The extra attributes one directive contributes. */
  function DirectiveAttrs(d: Nested): seq<Attribute> {
    match FieldAttrsItems(d)
    case Some(items) => WrapFieldAttrs(items)
    case None => []
  }

  /** The fold appends the contributions of the directives, in directive order. */
  lemma {:induction false} FoldFieldAttrs(c: Config, ds: seq<Nested>)
    ensures Fold(c, ds).fieldAttrs == c.fieldAttrs + Flatten(seq(|ds|, i requires 0 <= i < |ds| => DirectiveAttrs(ds[i])))
    decreases |ds|
  {
    var xs := seq(|ds|, i requires 0 <= i < |ds| => DirectiveAttrs(ds[i]));
    if ds == [] {
      assert xs == [];
    } else {
      var c' := Step(c, ds[0]);
      assert c'.fieldAttrs == c.fieldAttrs + DirectiveAttrs(ds[0]);
      FoldFieldAttrs(c', ds[1..]);
      var ys := seq(|ds[1..]|, i requires 0 <= i < |ds[1..]| => DirectiveAttrs(ds[1..][i]));
      assert xs[1..] == ys;
    }
  }

  /** A `MetaItem` is kept exactly when it is an entry of the list. */
  lemma {:induction false} MetaItemsMembership(items: seq<Nested>, m: MetaItem)
    ensures m in MetaItems(items) <==> Meta(m) in items
  {
    if items != [] {
      MetaItemsMembership(items[1..], m);
      assert items == [items[0]] + items[1..];
    }
  }

  /** The extra attributes are outer, non-doc attributes carrying the `MetaItem` entries of `field_attrs(...)` directives. */
  lemma {:induction false} FieldAttrsMembership(ds: seq<Nested>, a: Attribute)
    ensures a in ReadConfig(ds).fieldAttrs <==>
      a.style == Outer && !a.isSugaredDoc &&
      exists i :: 0 <= i < |ds| && FieldAttrsItems(ds[i]).Some? && Meta(a.value) in FieldAttrsItems(ds[i]).value
  {
    var xs := seq(|ds|, i requires 0 <= i < |ds| => DirectiveAttrs(ds[i]));
    FoldFieldAttrs(InitialConfig, ds);
    assert ReadConfig(ds).fieldAttrs == Flatten(xs);
    FlattenMembership(xs, a);
    if a in Flatten(xs) {
      var i :| 0 <= i < |xs| && a in xs[i];
      assert FieldAttrsItems(ds[i]).Some?;
      var ms := MetaItems(FieldAttrsItems(ds[i]).value);
      var k :| 0 <= k < |ms| && xs[i][k] == a;
      assert ms[k] == a.value;
      MetaItemsMembership(FieldAttrsItems(ds[i]).value, a.value);
    }
    if a.style == Outer && !a.isSugaredDoc &&
       exists i :: 0 <= i < |ds| && FieldAttrsItems(ds[i]).Some? && Meta(a.value) in FieldAttrsItems(ds[i]).value
    {
      var i :| 0 <= i < |ds| && FieldAttrsItems(ds[i]).Some? && Meta(a.value) in FieldAttrsItems(ds[i]).value;
      MetaItemsMembership(FieldAttrsItems(ds[i]).value, a.value);
      var ms := MetaItems(FieldAttrsItems(ds[i]).value);
      var k :| 0 <= k < |ms| && ms[k] == a.value;
      assert xs[i][k] == OuterAttribute(a.value) == a;
    }
  }

  lemma {:induction false} FlattenMembership<T>(xss: seq<seq<T>>, x: T)
    ensures x in Flatten(xss) <==> exists i :: 0 <= i < |xss| && x in xss[i]
  {
    if xss != [] {
      FlattenMembership(xss[1..], x);
      if x in Flatten(xss[1..]) {
        var i :| 0 <= i < |xss[1..]| && x in xss[1..][i];
        assert xss[i + 1] == xss[1..][i];
      }
      if exists i :: 0 <= i < |xss| && x in xss[i] {
        var i :| 0 <= i < |xss| && x in xss[i];
        if i > 0 {
          assert xss[1..][i - 1] == xss[i];
        }
      }
    }
  }

  /** A directive the loop does not recognise. */
  predicate Ignored(d: Nested) {
    ModuleValue(d).None? && FieldAttrsItems(d).None?
  }

  /** Unrecognised directives may appear anywhere without changing the configuration. */
  lemma IgnoredDirective(a: seq<Nested>, d: Nested, b: seq<Nested>)
    requires Ignored(d)
    ensures ReadConfig(a + [d] + b) == ReadConfig(a + b)
  {
    FoldAppend(InitialConfig, a + [d], b);
    FoldAppend(InitialConfig, a, [d]);
    FoldAppend(InitialConfig, a, b);
    assert Fold(Fold(InitialConfig, a), [d]) == Fold(InitialConfig, a) by {
      assert [d][1..] == [];
    }
  }
}
