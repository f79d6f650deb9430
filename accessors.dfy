/**
 * The run-time meaning of the generated code: a record whose fields are
 * read, replaced and updated in place through marker constants. Rust picks
 * the `Field<S>` impl from the marker's type at compile time; here the
 * marker is an explicit selector (the record type it was generated for and
 * the position of its field), and the record is a class whose field values
 * the accessors change.
 */
module Accessors {
  import opened Wrappers
  import opened Syntax
  import opened NameCase
  import opened Directives
  import opened Expansion

  /** A marker constant: the record type it implements `Field` for and the field it stands for. */
  datatype Marker = Marker(record: string, index: nat)

  /**
   * The names the generated module gives to values of field items' marker
   * type: the constant (line 42), and the unit marker struct itself, whose name
   * is also a value of its type (line 40; line 42 uses it so).
   */
  predicate NamesField(it: FieldItems, name: string) {
    it.constName == name || it.markerName == name
  }

  /** The position of the first item at or after `from` that declares a value named `name`. */
  function FindValue(items: seq<FieldItems>, name: string, from: nat): (r: Option<nat>)
    requires from <= |items|
    decreases |items| - from
    ensures r.Some? ==> from <= r.value < |items| && NamesField(items[r.value], name)
    ensures forall j :: from <= j < |items| && (r.None? || j < r.value) ==> !NamesField(items[j], name)
  {
    if from == |items| then None
    else if NamesField(items[from], name) then Some(from)
    else FindValue(items, name, from + 1)
  }

  /** The marker that the path `modName::name` names in the generated module, if any. */
  function Resolve(plan: ModulePlan, modName: string, name: string): (r: Option<Marker>)
    ensures r.Some? <==>
      modName == plan.modName &&
      exists j :: 0 <= j < |plan.items| && (plan.items[j].constName == name || plan.items[j].markerName == name)
    ensures r.Some? ==>
      r.value.record == plan.recordName && r.value.index < |plan.items| &&
      (plan.items[r.value.index].constName == name || plan.items[r.value.index].markerName == name)
  {
    if modName != plan.modName then None
    else
      match FindValue(plan.items, name, 0)
      case Some(i) => Some(Marker(plan.recordName, i))
      case None => None
  }

  /**
   * No value name is declared twice in the module: no constant or marker of
   * one field equals the constant or marker of another, nor a field's
   * constant its own marker (Rust rejects a module that declares one twice).
   */
  predicate DistinctValueNames(items: seq<FieldItems>) {
    && (forall i :: 0 <= i < |items| ==> items[i].constName != items[i].markerName)
    && (forall i, j :: 0 <= i < j < |items| ==>
          !NamesField(items[j], items[i].constName) && !NamesField(items[j], items[i].markerName))
  }

  /** With distinct value names, a field's constant and its marker value both select exactly that field. */
  lemma ResolveConstant(plan: ModulePlan, i: nat)
    requires i < |plan.items| && DistinctValueNames(plan.items)
    ensures Resolve(plan, plan.modName, plan.items[i].constName) == Some(Marker(plan.recordName, i))
    ensures Resolve(plan, plan.modName, plan.items[i].markerName) == Some(Marker(plan.recordName, i))
  {
    var it := plan.items[i];
    assert NamesField(it, it.constName) && NamesField(it, it.markerName);
  }

  /**
   * In the basic fixture, `field::Field` and the unit-struct value
   * `field::_Field` select the first field, `field::Name` and `field::_Name`
   * the second.
   */
  lemma BasicResolves()
    ensures var plan := Expand(BasicInput()).value;
      && Resolve(plan, "field", "Field") == Resolve(plan, "field", "_Field") == Some(Marker("Struct", 0))
      && Resolve(plan, "field", "Name") == Resolve(plan, "field", "_Name") == Some(Marker("Struct", 1))
  {
    BasicExpansion();
    var plan := Expand(BasicInput()).value;
    assert DistinctValueNames(plan.items);
    ResolveConstant(plan, 0);
    ResolveConstant(plan, 1);
  }

  /**
   * Fields `_foo` and `__foo` both declare a value `__foo` (the first field's
   * marker, the second field's constant); the macro lets them through.
   */
  lemma MarkerConstantClash()
    ensures var plan := Expand(MacroInput("S", [], Body.Struct(VariantData.Struct([
        Field("_foo", Ty("u8"), []), Field("__foo", Ty("u8"), [])])))).value;
      && plan.items[0].markerName == plan.items[1].constName == "__foo"
      && !DistinctValueNames(plan.items)
      && Resolve(plan, "field", "__foo") == Some(Marker("S", 0))
  {
    FilterDynaccessNone([]);
    ConstNameCapitalizesFirst("_foo");
    ConstNameCapitalizesFirst("__foo");
  }

  /** The declared field names, in order: the fields the item groups access. */
  function FieldIdents(items: seq<FieldItems>): seq<string> {
    seq(|items|, i requires 0 <= i < |items| => items[i].fieldIdent)
  }

  /** A value of a record type that derives Dynaccess; V stands for the field values. */
  class Record<V> {
    const name: string
    const fieldNames: seq<string>
    var values: seq<V>

    ghost predicate Valid()
      reads this
    {
      |values| == |fieldNames|
    }

    /** The bound `F: Field<Self>`: the marker was generated for this record type and one of its fields. */
    predicate Selects(m: Marker) {
      m.record == name && m.index < |fieldNames|
    }

    /** A record of the type the plan was generated for, holding the given field values. */
    constructor (plan: ModulePlan, initial: seq<V>)
      requires |initial| == |plan.items|
      ensures Valid() && name == plan.recordName && fieldNames == FieldIdents(plan.items)
      ensures values == initial
    {
      name := plan.recordName;
      fieldNames := FieldIdents(plan.items);
      values := initial;
    }

    /** `FieldAccessors::set`: forwards to the marker's `Field::set`. */
    method Set(field: Marker, value: V)
      requires Valid() && Selects(field)
      modifies this
      ensures Valid() && values == old(values)[field.index := value]
      ensures values[field.index] == value
      ensures forall j :: 0 <= j < |values| && j != field.index ==> values[j] == old(values)[j]
    {
      FieldSet(this, field, value);
    }

    /** `FieldAccessors::get`: forwards to the marker's `Field::get`; the record is not changed. */
    method Get(field: Marker) returns (value: V)
      requires Valid() && Selects(field)
      ensures value == values[field.index]
    {
      value := FieldGet(this, field);
    }

    /** `FieldAccessors::get_mut`, with the caller's in-place change given as `update`. */
    method GetMut(field: Marker, update: V -> V)
      requires Valid() && Selects(field)
      modifies this
      ensures Valid() && values == old(values)[field.index := update(old(values)[field.index])]
      ensures forall j :: 0 <= j < |values| && j != field.index ==> values[j] == old(values)[j]
    {
      FieldGetMut(this, field, update);
    }
  }

  /** The generated `Field::set` (`s.<field> = v`): replaces one field's value. */
  method FieldSet<V>(s: Record<V>, m: Marker, v: V)
    requires s.Valid() && s.Selects(m)
    modifies s
    ensures s.Valid() && s.values == old(s.values)[m.index := v]
  {
    s.values := s.values[m.index := v];
  }

  /** The generated `Field::get` (`&s.<field>`): reads one field's value. */
  method FieldGet<V>(s: Record<V>, m: Marker) returns (v: V)
    requires s.Valid() && s.Selects(m)
    ensures v == s.values[m.index]
  {
    v := s.values[m.index];
  }

  /** The generated `Field::get_mut` (`&mut s.<field>`), followed by the caller's change through it. */
  method FieldGetMut<V>(s: Record<V>, m: Marker, update: V -> V)
    requires s.Valid() && s.Selects(m)
    modifies s
    ensures s.Valid() && s.values == old(s.values)[m.index := update(old(s.values)[m.index])]
  {
    var current := s.values[m.index];
    s.values := s.values[m.index := update(current)];
  }

  /** Two successive sets of one field leave the record as the second set alone would. */
  method SetTwice<V>(s: Record<V>, m: Marker, first: V, second: V)
    requires s.Valid() && s.Selects(m)
    modifies s
    ensures s.Valid() && s.values == old(s.values)[m.index := second]
  {
    s.Set(m, first);
    s.Set(m, second);
  }

  /** A set followed by a get of the same field returns the value just set. */
  method SetThenGet<V>(s: Record<V>, m: Marker, v: V) returns (r: V)
    requires s.Valid() && s.Selects(m)
    modifies s
    ensures r == v
    ensures s.Valid() && s.values == old(s.values)[m.index := v]
  {
    s.Set(m, v);
    r := s.Get(m);
  }

  /** The field values of the fixtures: `bool` and `String`. */
  datatype FixtureValue = Flag(flag: bool) | Text(text: string)

  /** `push_str(" World!")` on a string field. */
  function PushWorld(v: FixtureValue): FixtureValue {
    if v.Text? then Text(v.text + " World!") else v
  }

  /**
   * The basic fixture: on `Struct { field: false, name: "Hello" }`,
   * `set(field::Field, true)` and then `get_mut(field::Name).push_str(" World!")`.
   */
  method BasicScenario() returns (field: FixtureValue, name: FixtureValue)
    ensures field == Flag(true) && name == Text("Hello World!")
  {
    BasicExpansion();
    BasicResolves();
    var r := Dynaccess(BasicInput());
    var plan := r.value;
    var fieldMarker := Resolve(plan, "field", "Field").value;
    var nameMarker := Resolve(plan, "field", "Name").value;
    var s := new Record<FixtureValue>(plan, [Flag(false), Text("Hello")]);
    s.Set(fieldMarker, Flag(true));
    s.GetMut(nameMarker, PushWorld);
    field := s.Get(fieldMarker);
    name := s.Get(nameMarker);
  }

  /**
   * The module-name fixture: `get(dog_field::Name)` on `Dog { name: "doge" }`.
   * Dog's expansion puts no marker under `field`, so no path `field::...`
   * yields a marker of `Dog` (a `field::Name` from another record fails the
   * bound `Field<Dog>`).
   */
  method ModuleNameScenario() returns (name: FixtureValue)
    ensures name == Text("doge")
    ensures forall n :: Resolve(Expand(DogInput()).value, "field", n).None?
  {
    DogExpansion();
    var r := Dynaccess(DogInput());
    var plan := r.value;
    ResolveConstant(plan, 0);
    var nameMarker := Resolve(plan, "dog_field", "Name").value;
    var d := new Record<FixtureValue>(plan, [Text("doge")]);
    name := d.Get(nameMarker);
  }
}
