/**
 * The part of syn's (0.11) parsed derive input that the Dynaccess macro
 * inspects: the record's name, its attributes and its body. The macro
 * starts from this tree; parsing the token stream is not modelled.
 */
module Syntax {

  /** A literal (syn::Lit). Only string literals matter to the macro; every other kind is ignored alike. */
  datatype Lit =
    | Str(value: string)
    | ByteStr(bytes: seq<bv8>)
    | Byte(byte: bv8)
    | Char(charValue: char)
    | Int(intValue: int)
    | Float(text: string)
    | Bool(boolValue: bool)

  /** The content of an attribute `#[...]` (syn::MetaItem). */
  datatype MetaItem =
    | Word(name: string)
    | List(name: string, items: seq<Nested>)
    | NameValue(name: string, lit: Lit)

  /** One entry inside a `List` (syn::NestedMetaItem). */
  datatype Nested = Meta(item: MetaItem) | Literal(lit: Lit)

  datatype AttrStyle = Outer | Inner

  /** An attribute attached to a declaration (syn::Attribute). */
  datatype Attribute = Attribute(style: AttrStyle, value: MetaItem, isSugaredDoc: bool)

  /** A type as written (syn::Ty); the macro copies it into the output untouched. */
  datatype Ty = Ty(path: string)

  /** A named field. Its attributes are part of the tree but the macro never reads them. */
  datatype Field = Field(ident: string, ty: Ty, attrs: seq<Attribute>)

  /** The shape of a struct or an enum variant (syn::VariantData). */
  datatype VariantData = Struct(fields: seq<Field>) | Tuple(types: seq<Ty>) | Unit

  datatype Variant = Variant(ident: string, data: VariantData)

  /** The body of the annotated declaration (syn::Body). */
  datatype Body = Enum(variants: seq<Variant>) | Struct(data: VariantData)

  /** The annotated declaration (syn::MacroInput); visibility and generics are not modelled. */
  datatype MacroInput = MacroInput(ident: string, attrs: seq<Attribute>, body: Body)
}
