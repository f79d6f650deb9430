/**
 * The expansion plan of `#[derive(Dynaccess)]`: the generated module's name,
 * the record it serves (its `FieldAccessors` impl) and, for every named
 * field in declaration order, the marker struct, its constant, the extra
 * attributes on the marker and the field its `Field` impl reads and writes.
 * The plan is data; the tokens `quote!` would print are not modelled.
 */
module Expansion {
  import opened Wrappers
  import opened Syntax
  import opened NameCase
  import opened Directives

  /** What `create_field_items` emits for one field. */
  datatype FieldItems = FieldItems(
    attrs: seq<Attribute>,   // attributes placed on the marker struct
    markerName: string,      // `pub struct <markerName>;`
    constName: string,       // `pub const <constName>: <markerName>`
    recordName: string,      // `impl Field<recordName> for <markerName>`
    fieldIdent: string,      // the field that get/get_mut/set access
    fieldType: Ty)           // `type Type = <fieldType>`

  /** The generated module: the `FieldAccessors` impl for recordName, then the field items. */
  datatype ModulePlan = ModulePlan(modName: string, recordName: string, items: seq<FieldItems>)

  /** The macro's panic, as a failed expansion with its message. */
  datatype Error = Panic(message: string)

  const NotAStructMessage: string := "#[derive(FieldModule)] is only defined for structs"

  /** The items of one field (`create_field_items`). */
  function CreateFieldItems(recordName: string, fieldAttrs: seq<Attribute>, f: Field): FieldItems {
    FieldItems(fieldAttrs, MarkerName(f.ident), ConstName(f.ident), recordName, f.ident, f.ty)
  }

  /** `fields.iter().map(...)`: the items of every field, in declaration order. */
  function FieldGens(recordName: string, fieldAttrs: seq<Attribute>, fields: seq<Field>): seq<FieldItems> {
    seq(|fields|, i requires 0 <= i < |fields| => CreateFieldItems(recordName, fieldAttrs, fields[i]))
  }

  /** The named fields of a body; None for enums, tuple structs and unit structs. */
  function NamedFields(body: Body): Option<seq<Field>> {
    if body.Struct? && body.data.Struct? then Some(body.data.fields) else None
  }

  /** The record-level configuration: only the record's own attributes are consulted. */
  function RecordConfig(input: MacroInput): Config {
    ReadConfig(FilterDynaccessAttrs(input.attrs))
  }

  /** The whole expansion, as a function of the parsed input. */
  function Expand(input: MacroInput): (r: Result<ModulePlan, Error>)
    ensures r.Ok? <==> input.body.Struct? && input.body.data.Struct?
    ensures r.Err? ==> r.error.message == NotAStructMessage
  {
    var cfg := RecordConfig(input);
    match NamedFields(input.body)
    case Some(fields) => Ok(ModulePlan(cfg.modName, input.ident, FieldGens(input.ident, cfg.fieldAttrs, fields)))
    case None => Err(Panic(NotAStructMessage))
  }

  /** The macro entry point: the directive loop of lines 85-112, then the body check. */
  method Dynaccess(input: MacroInput) returns (r: Result<ModulePlan, Error>)
    ensures r == Expand(input)
  {
    var attrs := FilterDynaccessAttrs(input.attrs);
    var modName := DefaultModule;
    var fieldAttrs: seq<Attribute> := [];
    for i := 0 to |attrs|
      invariant Fold(Config(modName, fieldAttrs), attrs[i..]) == ReadConfig(attrs)
    {
      var attr := attrs[i];
      assert attrs[i..][1..] == attrs[i + 1..];
      match ModuleValue(attr) {
        case Some(value) =>
          modName := value;
        case None =>
          match FieldAttrsItems(attr) {
            case Some(items) =>
              var newAttrs := WrapFieldAttrs(items);
              fieldAttrs := fieldAttrs + newAttrs;
            case None =>
          }
      }
    }
    match NamedFields(input.body) {
      case Some(fields) =>
        r := Ok(ModulePlan(modName, input.ident, FieldGens(input.ident, fieldAttrs, fields)));
      case None =>
        r := Err(Panic(NotAStructMessage));
    }
  }

  /**
   * One item group per field, in declaration order; each group names the
   * field, upper-cases its first character for the constant, prefixes `_`
   * for the marker and carries the record's extra attributes.
   */
  lemma ExpandFieldGroup(input: MacroInput, i: nat)
    requires Expand(input).Ok? && NamedFields(input.body).Some?
    requires i < |NamedFields(input.body).value|
    ensures var plan := Expand(input).value; var f := NamedFields(input.body).value[i];
      && |plan.items| == |NamedFields(input.body).value|
      && plan.recordName == input.ident
      && plan.items[i].fieldIdent == f.ident && plan.items[i].fieldType == f.ty
      && plan.items[i].recordName == input.ident
      && plan.items[i].attrs == RecordConfig(input).fieldAttrs
      && plan.items[i].markerName == "_" + plan.items[i].constName
      && (IsIdent(f.ident) ==> plan.items[i].constName == [Upper(f.ident[0])] + f.ident[1..])
  {
    var f := NamedFields(input.body).value[i];
    if IsIdent(f.ident) {
      assert IsIdentChar(f.ident[0]);
      ConstNameCapitalizesFirst(f.ident);
    }
  }

  /** Every group carries the same record-level attribute list. */
  lemma ExpandSharedAttrs(input: MacroInput, i: nat, j: nat)
    requires Expand(input).Ok?
    requires i < |Expand(input).value.items| && j < |Expand(input).value.items|
    ensures Expand(input).value.items[i].attrs == Expand(input).value.items[j].attrs
  {
  }

  /** A struct with no named fields yields a module with no field items. */
  lemma ExpandNoFields(input: MacroInput)
    requires input.body == Body.Struct(VariantData.Struct([]))
    ensures Expand(input).Ok? && Expand(input).value.items == []
  {
  }

  /** The module name: `field` unless a `module = "<str>"` directive names another. */
  lemma ExpandModuleName(input: MacroInput)
    requires Expand(input).Ok?
    ensures var ds := FilterDynaccessAttrs(input.attrs);
      && ((forall k :: 0 <= k < |ds| ==> ModuleValue(ds[k]).None?) ==> Expand(input).value.modName == "field")
      && (forall k :: (0 <= k < |ds| && ModuleValue(ds[k]).Some? &&
                       (forall j :: k < j < |ds| ==> ModuleValue(ds[j]).None?)) ==>
            Expand(input).value.modName == ModuleValue(ds[k]).value)
  {
    var ds := FilterDynaccessAttrs(input.attrs);
    if forall k :: 0 <= k < |ds| ==> ModuleValue(ds[k]).None? {
      ModuleNameDefault(ds);
    }
    forall k | 0 <= k < |ds| && ModuleValue(ds[k]).Some? && (forall j :: k < j < |ds| ==> ModuleValue(ds[j]).None?)
      ensures Expand(input).value.modName == ModuleValue(ds[k]).value
    {
      ModuleNameLast(ds, k);
    }
  }

  /** The same body with each field's attributes replaced (and nothing else changed). */
  predicate SameFieldsButAttrs(a: seq<Field>, b: seq<Field>) {
    |a| == |b| && forall i :: 0 <= i < |a| ==> a[i].ident == b[i].ident && a[i].ty == b[i].ty
  }

  /** Attributes on individual fields, `field_attrs` directives included, have no effect on the expansion. */
  lemma ExpandIgnoresFieldAttributes(input: MacroInput, fields': seq<Field>)
    requires NamedFields(input.body).Some? && SameFieldsButAttrs(NamedFields(input.body).value, fields')
    ensures Expand(input.(body := Body.Struct(VariantData.Struct(fields')))) == Expand(input)
  {
    var input' := input.(body := Body.Struct(VariantData.Struct(fields')));
    var cfg := RecordConfig(input);
    var fields := NamedFields(input.body).value;
    assert FieldGens(input.ident, cfg.fieldAttrs, fields') == FieldGens(input.ident, cfg.fieldAttrs, fields);
  }

  /** `struct Struct { field: bool, name: String }` with no attributes. */
  function BasicInput(): MacroInput {
    MacroInput("Struct", [], Body.Struct(VariantData.Struct([
      Field("field", Ty("bool"), []),
      Field("name", Ty("String"), [])])))
  }

  /** `#[dynaccess(module = "dog_field")] struct Dog { name: String }`. */
  function DogInput(): MacroInput {
    MacroInput("Dog",
      [Attribute(Outer, List("dynaccess", [Meta(NameValue("module", Str("dog_field")))]), false)],
      Body.Struct(VariantData.Struct([Field("name", Ty("String"), [])])))
  }

  /** The basic fixture expands to module `field` with constants `Field` and `Name`. */
  lemma BasicExpansion()
    ensures Expand(BasicInput()) == Ok(ModulePlan("field", "Struct", [
      FieldItems([], "_Field", "Field", "Struct", "field", Ty("bool")),
      FieldItems([], "_Name", "Name", "Struct", "name", Ty("String"))]))
  {
    FixtureNames();
    var input := BasicInput();
    FilterDynaccessNone(input.attrs);
    assert RecordConfig(input) == InitialConfig;
    var items := FieldGens("Struct", [], input.body.data.fields);
    assert |items| == 2;
    assert items[0] == FieldItems([], "_Field", "Field", "Struct", "field", Ty("bool"));
    assert items[1] == FieldItems([], "_Name", "Name", "Struct", "name", Ty("String"));
    assert items == [items[0], items[1]];
    assert Expand(input) == Ok(ModulePlan("field", "Struct", items));
  }

  /** The `module` directive moves the constants into `dog_field`. */
  lemma DogExpansion()
    ensures Expand(DogInput()) == Ok(ModulePlan("dog_field", "Dog", [
      FieldItems([], "_Name", "Name", "Dog", "name", Ty("String"))]))
  {
    FixtureNames();
    var input := DogInput();
    var ds := [Meta(NameValue("module", Str("dog_field")))];
    FilterDynaccessCons(input.attrs);
    FilterDynaccessNone(input.attrs[1..]);
    assert FilterDynaccessAttrs(input.attrs) == ds;
    assert ds[1..] == [];
    assert RecordConfig(input) == Config("dog_field", []);
    var items := FieldGens("Dog", [], input.body.data.fields);
    assert |items| == 1;
    assert items[0] == FieldItems([], "_Name", "Name", "Dog", "name", Ty("String"));
    assert items == [items[0]];
    assert Expand(input) == Ok(ModulePlan("dog_field", "Dog", items));
  }

  /**
   * A record named `_Foo` with a field `foo` gets a marker struct `_Foo`,
   * the same name the module imports with `use super::_Foo`; the macro
   * expands it all the same.
   */
  lemma RecordMarkerClash()
    ensures var plan := Expand(MacroInput("_Foo", [], Body.Struct(VariantData.Struct([
        Field("foo", Ty("u8"), [])])))).value;
      && plan.recordName == "_Foo" && plan.items[0].markerName == "_Foo"
  {
    FilterDynaccessNone([]);
    ConstNameCapitalizesFirst("foo");
  }

  /** An enum is rejected with the panic message instead of producing a module. */
  lemma EnumRejected(name: string, variants: seq<Variant>, attrs: seq<Attribute>)
    ensures Expand(MacroInput(name, attrs, Enum(variants))) == Err(Panic(NotAStructMessage))
  {
  }
}
