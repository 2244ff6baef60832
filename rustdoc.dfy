/**
 * The part of rustdoc's JSON output the resolvers read: the `.index` of items of the
 * documented crate, and the `.paths` summaries of items of every crate it mentions.
 * Item ids are natural numbers; attribute parsing is replaced by the `docInline` flag,
 * which says whether the item carries `#[doc(inline)]`.
 */
module Rustdoc {
  import opened Wrappers

  type Id = nat

  datatype Visibility = Public | Default | Crate | Restricted

  datatype StructKind = Unit | Tuple(fieldIds: seq<Option<Id>>) | Plain(fields: seq<Id>)

  datatype VariantKind = PlainVariant | TupleVariant(fieldIds: seq<Option<Id>>) | StructVariant(fields: seq<Id>)

  /** `rustdoc_types::ItemEnum`, with the ids each variant refers to. */
  datatype ItemEnum =
    | Module(items: seq<Id>)
    | ExternCrate
    | Use(target: Option<Id>, isGlob: bool)
    | Union(fields: seq<Id>, impls: seq<Id>)
    | Struct(kind: StructKind, impls: seq<Id>)
    | StructField
    | Enum(variants: seq<Id>, impls: seq<Id>)
    | Variant(variantKind: VariantKind)
    | Function(hasBody: bool)
    | Trait(items: seq<Id>, implementations: seq<Id>)
    | TraitAlias
    | Impl(items: seq<Id>)
    | TypeAlias
    | Constant
    | Static
    | ExternType
    | Macro
    | ProcMacro
    | Primitive(impls: seq<Id>)
    | AssocConst
    | AssocType

  datatype Item = Item(name: Option<string>, inner: ItemEnum, docInline: bool, visibility: Visibility)

  /** `crate.index`. */
  type Index = map<Id, Item>

  /** `rustdoc_types::ItemKind`, the kind recorded in a `.paths` summary. */
  datatype ItemKind =
    | Module | ExternCrate | Use | Struct | StructField | Union | Enum | Variant | Function
    | TypeAlias | Constant | Trait | TraitAlias | Impl | Static | ExternType | Macro
    | ProcAttribute | ProcDerive | AssocConst | AssocType | Primitive | Keyword

  /** An `ItemSummary`: the item's full path, crate first, and its kind. */
  datatype ItemSummary = ItemSummary(path: seq<string>, kind: ItemKind)

  /** `crate.paths`. */
  type Paths = map<Id, ItemSummary>

  /**
   * An enumeration of a set of ids: the order a `HashMap` hands out its keys in. The map
   * hands out each key once; the loops modelled here give the same result when a key repeats,
   * so that is not required.
   */
  ghost predicate Enumerates(keys: seq<Id>, m: set<Id>)
  {
    forall k :: k in keys <==> k in m
  }

  /** The present ids of a tuple's fields, `ids.iter().filter_map(Option::as_ref)`. */
  function Present(ids: seq<Option<Id>>): (r: seq<Id>)
    ensures |r| <= |ids|
    ensures forall x :: x in r <==> Some(x) in ids
  {
    if ids == [] then []
    else
      var rest := Present(ids[1..]);
      assert ids == [ids[0]] + ids[1..];
      if ids[0].Some? then [ids[0].value] + rest else rest
  }
}
