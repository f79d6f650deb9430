# dynaccess, modelled in Dafny

`#[derive(Dynaccess)]` is a Rust derive macro. For a struct with named fields it generates a module (named `field` unless the struct says otherwise) holding, per field, a zero-size marker struct, a constant of that marker type, and an impl of `Field<Struct>` whose `get`, `get_mut` and `set` reach that one field. Next to these sit an impl of `FieldAccessors` for the struct that forwards `s.set(marker, v)`, `s.get(marker)` and `s.get_mut(marker)` to the marker's `Field` impl.

The model has two halves:

- **The macro** (`dynaccess_macros/src/lib.rs`), as functions over the syn 0.11 syntax tree (`Syntax`). It covers:
  - the name transform (`NameCase`): leftmost-first matching of the fixed pattern `(?:^|_)(.)`, and `Regex::replace` rewriting that one match;
  - `filter_dynaccess_attrs`, and the directive loop as a left fold (`Directives`);
  - the expansion plan, with the rejection of anything that is not a struct with named fields (`Expansion`). `Expansion.Dynaccess` is the macro's entry point. It is a method with the source's `for` loop, and it is proved equal to the functional `Expansion.Expand`.
- **The generated code's behaviour** (`dynaccess_traits/src/lib.rs` and the impl bodies the macro emits), in `Accessors`. A record is a class. Its field values change in place through `Set` and `GetMut` and are read through `Get`. A marker is an explicit selector that stands in for Rust's type-level dispatch. The module-level methods `FieldSet`, `FieldGet` and `FieldGetMut` are the per-field `Field` impls. The class methods are the `FieldAccessors` impl that forwards to them.

Three points of the code's behaviour are easy to misread:

- **The name transform capitalises only the first character.** A full snake_case to PascalCase conversion would give `IsUnique`, but the code calls `Regex::replace`, which rewrites only the leftmost match, not `replace_all`. For any non-empty name that does not start with a line feed, that match is the `^` alternative at position 0. So `is_unique` becomes `Is_unique` (`NameCase.IsUniqueExample`), and `_foo` stays `_foo`. The empty name has no match and stays empty (`NameCase.ConstNameEmpty`).
- **A field-level `field_attrs(...)` is never read,** because only the struct's own attributes, `ast.attrs`, are consulted (`dynaccess_macros/src/lib.rs` line 80); see `Expansion.ExpandIgnoresFieldAttributes`.
- **Module names: the last `module = "<str>"` directive wins.** A `module` directive whose value is not a string literal is ignored.

## Model

| member | source | states |
|---|---|---|
| `NameCase.MatchAt` | dynaccess_macros/src/lib.rs:21 | a match found at position p is a real match of the fixed pattern that starts at p |
| `NameCase.MatchAtComplete` | dynaccess_macros/src/lib.rs:21 | every match that starts at p is seen by the attempt at p, and that attempt picks the preferred alternative (`^` before `_`) |
| `NameCase.FindFrom` | dynaccess_macros/src/lib.rs:28-29 | the result is the match at the first matching position at or after p; no position before it, and none at all when the result is None, has a match |
| `NameCase.FindMatch` | dynaccess_macros/src/lib.rs:28-29 | leftmost-first: the result is a match, starts no later than any other match, and is the preferred alternative at its start; None exactly when the string has no match |
| `NameCase.Upper` | dynaccess_macros/src/lib.rs:31-32 | `to_uppercase` on one character, for ASCII letters only (see "## Left out"); used by `NameCase.ReplaceFirst` and stated through `NameCase.ConstNameCapitalizesFirst` and `NameCase.ConstNameCollision` |
| `NameCase.ReplaceFirst` | dynaccess_macros/src/lib.rs:28-33 | `Regex::replace` with the upper-casing closure: the leftmost-first match (`NameCase.FindMatch`) is replaced by its upper-cased capture and the rest is kept; its properties are stated by `NameCase.ConstNameCapitalizesFirst`, `NameCase.ConstNameEmpty` and `NameCase.UnderscoreAlternativeExample` |
| `NameCase.ConstName` | dynaccess_macros/src/lib.rs:28-36 | the constant's name is the transform of the field's name; stated by `NameCase.ConstNameCapitalizesFirst`, `NameCase.ConstNameLengthAndIdempotent`, `NameCase.ConstNameIdent` and `NameCase.ConstNameCollision` |
| `NameCase.MarkerName` | dynaccess_macros/src/lib.rs:35 | the marker struct's name is `_` and the constant's name; stated by `NameCase.MarkerNameShape` and `NameCase.MarkerConstCollision` |
| `NameCase.FirstMatchIsStart` | dynaccess_macros/src/lib.rs:21 | for a non-empty string not starting with a line feed, the leftmost-first match is (start 0, end 1, capture = first character) |
| `NameCase.ConstNameCapitalizesFirst` | dynaccess_macros/src/lib.rs:28-33 | the const name is the first character upper-cased, followed by the unchanged rest |
| `NameCase.ConstNameEmpty` | dynaccess_macros/src/lib.rs:28-33 | the empty name has no match and is returned unchanged |
| `NameCase.ConstNameLengthAndIdempotent` | dynaccess_macros/src/lib.rs:28-36 | for a name that is empty or starts with an ASCII identifier character, the transform preserves length, and applying it twice equals applying it once |
| `NameCase.ConstNameIdent` | dynaccess_macros/src/lib.rs:28-36 | an ASCII identifier maps to an ASCII identifier of the same length; the transform is idempotent on it, and every character after the first is kept |
| `NameCase.ConstNameCollision` | dynaccess_macros/src/lib.rs:35-36 | two identifiers get the same const name exactly when they differ at most in the case of their first letter; the same holds for marker names |
| `NameCase.MarkerConstCollision` | dynaccess_macros/src/lib.rs:35-42 | for identifiers a and b, the marker of a equals the constant of b exactly when b is `_` followed by the constant of a; `_foo` and `__foo` both give `__foo` |
| `NameCase.MarkerNameShape` | dynaccess_macros/src/lib.rs:35-36 | the marker name is `_` followed by the const name, one character longer, and never equal to that const name |
| `NameCase.IsUniqueExample` | dynaccess_macros/src/lib.rs:28-33 | `is_unique` gives the constant `Is_unique` and the marker `_Is_unique`, not `IsUnique` |
| `NameCase.LeadingUnderscoreExample` | dynaccess_macros/src/lib.rs:28-33 | `_foo` stays `_foo`, because the `^` alternative captures the underscore |
| `NameCase.FixtureNames` | dynaccess_macros/src/lib.rs:35-36 | `field` gives `Field`/`_Field`, and `name` gives `Name`/`_Name` |
| `NameCase.UnderscoreAlternativeExample` | dynaccess_macros/src/lib.rs:21 | when `^` cannot match (a leading line feed), the first `_x` is rewritten to `X` and a later `_b` is left alone |
| `Directives.DynaccessItems` | dynaccess_macros/src/lib.rs:65-71 | the `filter_map` closure: the entries of a `#[dynaccess(...)]` list attribute, and None for any other attribute; stated through `Directives.FilterDynaccessCons` and `Directives.FilterDynaccessMembership` |
| `Directives.FilterDynaccessAttrs` | dynaccess_macros/src/lib.rs:62-73 | the directives are the entries of the `#[dynaccess(...)]` list attributes, in order; stated by `Directives.FilterDynaccessCons`, `Directives.FilterDynaccessAppend`, `Directives.FilterDynaccessMembership` and `Directives.FilterDynaccessNone` |
| `Directives.FilterDynaccessCons` | dynaccess_macros/src/lib.rs:62-73 | the directives of a list are the entries of its first attribute (when that is `#[dynaccess(...)]`) followed by those of the rest |
| `Directives.FilterDynaccessAppend` | dynaccess_macros/src/lib.rs:62-73 | filtering a concatenation gives the concatenation of the filtered parts, so attribute order is kept |
| `Directives.FilterDynaccessMembership` | dynaccess_macros/src/lib.rs:65-72 | an entry is a directive exactly when it is an entry of some `List("dynaccess", ...)` attribute; words, name-values and other lists contribute nothing |
| `Directives.FilterDynaccessNone` | dynaccess_macros/src/lib.rs:65-72 | with no `dynaccess` list attribute the result is empty, not an error |
| `Directives.MetaItems` | dynaccess_macros/src/lib.rs:95-99 | the `MetaItem` entries of a `field_attrs(...)` list, in order, with literals dropped; stated by `Directives.MetaItemsMembership` |
| `Directives.WrapFieldAttrs` | dynaccess_macros/src/lib.rs:95-106 | each `MetaItem` entry wrapped as an outer, non-sugared-doc attribute, in order; stated by `Directives.FieldAttrsMembership` and `Directives.FoldFieldAttrs` |
| `Directives.Step` | dynaccess_macros/src/lib.rs:86-111 | one loop iteration: `module = "<str>"` replaces the module name, `field_attrs(...)` appends its wrapped entries, anything else changes nothing; stated by `Directives.FoldKeepsModule`, `Directives.FoldFieldAttrs` and `Directives.IgnoredDirective` |
| `Directives.Fold` | dynaccess_macros/src/lib.rs:85-112 | the loop over the directives in order; stated by `Directives.FoldAppend`, `Directives.ModuleNameLast`, `Directives.FoldFieldAttrs`, and by the invariant of `Expansion.Dynaccess` |
| `Directives.ReadConfig` | dynaccess_macros/src/lib.rs:82-112 | the loop started from module `field` and no extra attributes; stated by `Directives.ModuleNameDefault`, `Directives.ModuleNameLast` and `Directives.FieldAttrsMembership` |
| `Directives.FoldAppend` | dynaccess_macros/src/lib.rs:85-112 | the loop over a concatenation is the loop over the first part continued over the second |
| `Directives.FoldKeepsModule` | dynaccess_macros/src/lib.rs:85-91 | without a `module = "<str>"` directive the loop keeps the module name it started with |
| `Directives.ModuleNameDefault` | dynaccess_macros/src/lib.rs:82 | with no string `module` directive, the module name is `field` |
| `Directives.ModuleNameLast` | dynaccess_macros/src/lib.rs:85-91 | the module name is the string of the last `module = "<str>"` directive |
| `Directives.FoldFieldAttrs` | dynaccess_macros/src/lib.rs:92-109 | the extra attributes are the attributes already held, followed by the contributions of the directives in directive order |
| `Directives.MetaItemsMembership` | dynaccess_macros/src/lib.rs:95-99 | a `MetaItem` is kept exactly when it is an entry of the list; literal entries are dropped |
| `Directives.FieldAttrsMembership` | dynaccess_macros/src/lib.rs:92-109 | an attribute is among the extra attributes exactly when it is outer, not a sugared doc comment, and carries a `MetaItem` entry of some `field_attrs(...)` directive |
| `Directives.IgnoredDirective` | dynaccess_macros/src/lib.rs:110 | a directive that is neither `module = "<str>"` nor `field_attrs(...)` can be removed from anywhere without changing the configuration |
| `Expansion.CreateFieldItems` | dynaccess_macros/src/lib.rs:15-59 | one field's group: the record's extra attributes, marker `_` + constant, the constant from the name transform, and the field and type its `Field` impl accesses; stated by `Expansion.ExpandFieldGroup` |
| `Expansion.FieldGens` | dynaccess_macros/src/lib.rs:116-119 | the groups of all fields, in declaration order; stated by `Expansion.ExpandFieldGroup`, `Expansion.ExpandSharedAttrs` and `Expansion.ExpandNoFields` |
| `Expansion.NamedFields` | dynaccess_macros/src/lib.rs:116 | the pattern `Body::Struct(VariantData::Struct(ref fields))`: the fields of a struct with named fields, None otherwise; stated through `Expansion.Expand` and `Expansion.EnumRejected` |
| `Expansion.Expand` | dynaccess_macros/src/lib.rs:116-122 | expansion succeeds exactly for a struct with named fields; enums, tuple structs and unit structs fail with the panic message |
| `Expansion.Dynaccess` | dynaccess_macros/src/lib.rs:80-122 | the entry point (directive loop, then body check) returns exactly the expansion `Expand` describes |
| `Expansion.ExpandFieldGroup` | dynaccess_macros/src/lib.rs:116-119 | one item group per field, in declaration order; group i accesses field i with its type in the `Field` impl for the record, carries the record-level extra attributes, and has marker `_` + const; for an identifier the const is its first character upper-cased and the rest unchanged |
| `Expansion.ExpandSharedAttrs` | dynaccess_macros/src/lib.rs:116-119 | every group carries the same attribute list |
| `Expansion.ExpandNoFields` | dynaccess_macros/src/lib.rs:116-119 | a struct with zero named fields expands to a module with no field items |
| `Expansion.ExpandModuleName` | dynaccess_macros/src/lib.rs:82-91 | the generated module is named `field` without a string `module` directive, and otherwise after the last one |
| `Expansion.ExpandIgnoresFieldAttributes` | dynaccess_macros/src/lib.rs:80 | changing the attributes of individual fields, `field_attrs` included, leaves the expansion unchanged |
| `Expansion.BasicExpansion` | dynaccess_tests/src/lib.rs:10-14 | `Struct { field: bool, name: String }` expands to module `field` with `_Field`/`Field` and `_Name`/`Name`, and no extra attributes |
| `Expansion.DogExpansion` | dynaccess_tests/src/lib.rs:16-20 | `#[dynaccess(module = "dog_field")] struct Dog { name: String }` expands to module `dog_field` with `_Name`/`Name` |
| `Expansion.RecordMarkerClash` | dynaccess_macros/src/lib.rs:35-40 | a record `_Foo` with a field `foo` expands to a marker struct `_Foo`, the same name the module imports from its parent |
| `Expansion.EnumRejected` | dynaccess_macros/src/lib.rs:120-122 | any enum is rejected with the panic message and produces no module |
| `Accessors.FindValue` | dynaccess_macros/src/lib.rs:40-42 | the result is the first position at or after `from` whose constant or unit marker struct has that name; no earlier position, and none at all when the result is None, declares it |
| `Accessors.Resolve` | dynaccess_macros/src/lib.rs:40-42 | a path `m::N` names a marker exactly when m is the generated module and some field's constant or unit marker struct (a value of its own type) is N; that marker belongs to the record and selects a field that declares N |
| `Accessors.ResolveConstant` | dynaccess_macros/src/lib.rs:40-42 | when no value name is declared twice, each field's constant and its marker value both resolve to the marker of exactly that field of that record |
| `Accessors.BasicResolves` | dynaccess_macros/src/lib.rs:40-42 | in the basic fixture `field::Field` and `field::_Field` select field `field`, and `field::Name` and `field::_Name` select field `name` |
| `Accessors.MarkerConstantClash` | dynaccess_macros/src/lib.rs:35-42 | for `struct S { _foo: u8, __foo: u8 }` the first field's marker and the second's constant are both `__foo`, so the module declares a value twice, and `field::__foo` resolves to the first field |
| `Accessors.Record.constructor` | dynaccess_tests/src/lib.rs:24-27 | a record of the plan's type whose field names are the plan's fields, in order, holding the given values |
| `Accessors.FieldSet` | dynaccess_macros/src/lib.rs:55-57 | `Field::set` replaces the selected field's value and leaves every other field as it was |
| `Accessors.FieldGet` | dynaccess_macros/src/lib.rs:47-49 | `Field::get` returns the selected field's value and changes nothing |
| `Accessors.FieldGetMut` | dynaccess_macros/src/lib.rs:51-53 | a change made through `Field::get_mut` becomes the selected field's value; other fields are untouched |
| `Accessors.Record.Set` | dynaccess_macros/src/lib.rs:132-136 | `FieldAccessors::set` has the effect of the marker's `Field::set`: a later get returns the new value, and every other field is unchanged |
| `Accessors.Record.Get` | dynaccess_macros/src/lib.rs:138-142 | `FieldAccessors::get` returns what the marker's `Field::get` returns, and has no modifies clause |
| `Accessors.Record.GetMut` | dynaccess_macros/src/lib.rs:144-148 | `FieldAccessors::get_mut` has the effect of the marker's `Field::get_mut`: the change is seen by later reads, and no other field changes |
| `Accessors.SetThenGet` | dynaccess_macros/src/lib.rs:132-142 | a `set` of a field followed by a `get` of the same field returns the value just set, and the record holds it |
| `Accessors.SetTwice` | dynaccess_macros/src/lib.rs:55-57 | setting a field twice leaves the record as the second set alone would |
| `Accessors.BasicScenario` | dynaccess_tests/src/lib.rs:22-36 | on `Struct { field: false, name: "Hello" }`, `set(field::Field, true)` then `get_mut(field::Name)` with `push_str(" World!")` gives `true` and `"Hello World!"` |
| `Accessors.ModuleNameScenario` | dynaccess_tests/src/lib.rs:38-47 | `get(dog_field::Name)` on `Dog { name: "doge" }` gives `"doge"`, and no path `field::N`, for any N, resolves to a marker in Dog's plan |

## Left out

- Turning the `TokenStream` into a string and parsing it (`syn::parse_macro_input`, lines 77-78) is left out. So is re-parsing the generated code (`gen.parse()`, line 155), with the panics of both. The model starts from the parsed `Syntax.MacroInput` and stops at the plan.
- `quote!` token emission (lines 38-59, 126-153) is not modelled. This includes the module's `#[allow(unused_variables, non_upper_case_globals)]` and `use super::...` lines. The plan records the names, attributes, fields and types that the tokens would carry.
- The general regex engine and the `lazy_static` cache (lines 20-22) are not modelled. Only leftmost-first matching of the one fixed pattern is.
- `to_uppercase` is modelled for ASCII letters only. Any other character is left unchanged, whereas Rust may change it or expand it into several characters. The name lemmas that mention identifiers are stated for ASCII identifiers.
- The source's `unwrap` of a field's name (line 24) cannot fail in the model, because named fields always carry a name in `Syntax.Field`.
- Struct generics and visibility are not modelled. The macro ignores them as well.
- Field types and the bound `F: Field<S, Type = V>` are checked by the Rust compiler and are not modelled. `Accessors.Record` holds values of one type `V`. `Record.Selects` stands for the bound that the marker was generated for this record.
- References and borrows are not modelled. `get` and `get_mut` return references in Rust. Here `Get` returns the value, and `GetMut` takes the caller's change as an update function that it applies in place.
- The macro does not check that the value names it declares are distinct: two constants can collide (`NameCase.ConstNameCollision`), and so can one field's marker struct with another's constant (`NameCase.MarkerConstCollision`, `Accessors.MarkerConstantClash`: fields `_foo` and `__foo` both declare `__foo`), and so can a marker struct with the record's own name that the module imports with `use super::<record>` (`dynaccess_macros/src/lib.rs` line 128; `Expansion.RecordMarkerClash`: record `_Foo` with field `foo`). The Rust compiler rejects the duplicate declarations later; the model does not, and `Accessors.Resolve` then takes the first field that declares the name.
- `dynaccess_tests/src/lib.rs` is not modelled as a target. Its two fixtures only appear as concrete lemmas and scenarios.
