/**
 * The reduction of rustdoc's `.index` to `SimpleItem`s: a name, a kind and the ids of the
 * item's children, with glob `use`s flattened into the children of the module they import.
 */
module SimpleIndex {
  import opened Wrappers
  import opened Rustdoc

  datatype SimpleItemKind =
    | Module | ExternCrate | Use(inline: bool) | Union | Struct | StructField | Enum | Variant
    | Function(hasBody: bool) | Trait | TraitAlias | Impl | TypeAlias | Constant | Static
    | ExternType | Macro | ProcMacro | Primitive | AssocConst | AssocType

  datatype SimpleItem = SimpleItem(name: string, kind: SimpleItemKind, children: seq<Id>)

  /** The item's name, or the empty string for unnamed items such as impls. */
  function Name(item: Item): (r: string)
    ensures item.name.Some? ==> r == item.name.value
    ensures item.name.None? ==> r == ""
  {
    if item.name.Some? then item.name.value else ""
  }

  /** One kind per `ItemEnum` variant; a `use` records whether it is `#[doc(inline)]`. */
  function Kind(item: Item): (r: SimpleItemKind)
    ensures r.Use? <==> item.inner.Use?
    ensures r.Use? ==> r.inline == item.docInline
    ensures r.Function? <==> item.inner.Function?
    ensures r.Function? ==> r.hasBody == item.inner.hasBody
  {
    match item.inner
    case Module(_) => SimpleItemKind.Module
    case ExternCrate => SimpleItemKind.ExternCrate
    case Use(_, _) => SimpleItemKind.Use(item.docInline)
    case Union(_, _) => SimpleItemKind.Union
    case Struct(_, _) => SimpleItemKind.Struct
    case StructField => SimpleItemKind.StructField
    case Enum(_, _) => SimpleItemKind.Enum
    case Variant(_) => SimpleItemKind.Variant
    case Function(hasBody) => SimpleItemKind.Function(hasBody)
    case Trait(_, _) => SimpleItemKind.Trait
    case TraitAlias => SimpleItemKind.TraitAlias
    case Impl(_) => SimpleItemKind.Impl
    case TypeAlias => SimpleItemKind.TypeAlias
    case Constant => SimpleItemKind.Constant
    case Static => SimpleItemKind.Static
    case ExternType => SimpleItemKind.ExternType
    case Macro => SimpleItemKind.Macro
    case ProcMacro => SimpleItemKind.ProcMacro
    case Primitive(_) => SimpleItemKind.Primitive
    case AssocConst => SimpleItemKind.AssocConst
    case AssocType => SimpleItemKind.AssocType
  }

  predicate IsGlobUse(inner: ItemEnum)
  {
    inner.Use? && inner.isGlob
  }

  /**
   * The children of an item. A glob `use` takes the children of the item it imports;
   * `fuel` bounds how many glob `use`s are followed in a row.
   */
  function Children(index: Index, item: Item, fuel: nat): (r: seq<Id>)
    decreases fuel
  {
    match item.inner
    case Module(items) => items
    case ExternCrate => []
    case Use(target, isGlob) =>
      if !isGlob then (if target.Some? then [target.value] else [])
      else if fuel == 0 || target.None? || target.value !in index then []
      else Children(index, index[target.value], fuel - 1)
    case Union(fields, impls) => fields + impls
    case Struct(kind, impls) =>
      (match kind
       case Unit => []
       case Tuple(ids) => Present(ids) + impls
       case Plain(fields) => fields + impls)
    case StructField => []
    case Enum(variants, impls) => variants + impls
    case Variant(kind) =>
      (match kind
       case PlainVariant => []
       case TupleVariant(ids) => Present(ids)
       case StructVariant(fields) => fields)
    case Function(_) => []
    case Trait(items, implementations) => items + implementations
    case TraitAlias => []
    case Impl(items) => items
    case TypeAlias => []
    case Constant => []
    case Static => []
    case ExternType => []
    case Macro => []
    case ProcMacro => []
    case Primitive(impls) => impls
    case AssocConst => []
    case AssocType => []
  }

  /** `SimpleItem::from_item`; a chain of glob `use`s is followed at most `|index|` deep. */
  function FromItem(index: Index, item: Item): (r: SimpleItem)
    ensures r.name == Name(item) && r.kind == Kind(item)
    ensures r.children == Children(index, item, |index|)
  {
    SimpleItem(Name(item), Kind(item), Children(index, item, |index|))
  }

  /** The simple index: every item of `index` under its own id. */
  function Simplify(index: Index): (r: map<Id, SimpleItem>)
    ensures r.Keys == index.Keys
    ensures forall id :: id in r ==> r[id] == FromItem(index, index[id])
  {
    map id | id in index :: FromItem(index, index[id])
  }

  /** Every id an item mentions: an independent description of what `Children` collects. */
  function Mentioned(inner: ItemEnum): (r: set<Id>)
  {
    match inner
    case Module(items) => set x | x in items
    case Use(target, _) => if target.Some? then {target.value} else {}
    case Union(fields, impls) => (set x | x in fields) + (set x | x in impls)
    case Struct(kind, impls) =>
      (set x | x in impls) +
      (match kind
       case Unit => {}
       case Tuple(ids) => set o | o in ids && o.Some? :: o.value
       case Plain(fields) => set x | x in fields)
    case Enum(variants, impls) => (set x | x in variants) + (set x | x in impls)
    case Variant(kind) =>
      (match kind
       case PlainVariant => {}
       case TupleVariant(ids) => set o | o in ids && o.Some? :: o.value
       case StructVariant(fields) => set x | x in fields)
    case Trait(items, implementations) => (set x | x in items) + (set x | x in implementations)
    case Impl(items) => set x | x in items
    case Primitive(impls) => set x | x in impls
    case _ => {}
  }

  /**
   * Apart from glob `use`s, the children are exactly the ids the item mentions, except
   * that a unit struct has no children even when it has impls.
   */
  lemma ChildrenAreMentioned(index: Index, item: Item, fuel: nat, x: Id)
    requires !IsGlobUse(item.inner)
    ensures x in Children(index, item, fuel) <==>
      x in Mentioned(item.inner) && !(item.inner.Struct? && item.inner.kind.Unit?)
  {
  }

  /** The order of the children within each item kind. */
  lemma ChildrenOrder(index: Index, item: Item, fuel: nat)
    ensures item.inner.Struct? && item.inner.kind.Plain? ==>
      Children(index, item, fuel) == item.inner.kind.fields + item.inner.impls
    ensures item.inner.Struct? && item.inner.kind.Tuple? ==>
      Children(index, item, fuel) == Present(item.inner.kind.fieldIds) + item.inner.impls
    ensures item.inner.Enum? ==> Children(index, item, fuel) == item.inner.variants + item.inner.impls
    ensures item.inner.Trait? ==> Children(index, item, fuel) == item.inner.items + item.inner.implementations
    ensures item.inner.Union? ==> Children(index, item, fuel) == item.inner.fields + item.inner.impls
    ensures item.inner.Impl? ==> Children(index, item, fuel) == item.inner.items
    ensures item.inner.Primitive? ==> Children(index, item, fuel) == item.inner.impls
    ensures item.inner.Module? ==> Children(index, item, fuel) == item.inner.items
  {
  }

  /** The kinds that never have children. */
  predicate IsLeaf(inner: ItemEnum)
  {
    inner.StructField? || inner.Function? || inner.TraitAlias? || inner.TypeAlias? ||
    inner.Constant? || inner.Static? || inner.ExternType? || inner.Macro? || inner.ProcMacro? ||
    inner.AssocConst? || inner.AssocType? || inner.ExternCrate? ||
    (inner.Struct? && inner.kind.Unit?) || (inner.Variant? && inner.variantKind.PlainVariant?)
  }

  lemma LeavesHaveNoChildren(index: Index, item: Item, fuel: nat)
    requires IsLeaf(item.inner)
    ensures Children(index, item, fuel) == []
  {
  }

  /** A non-glob `use` has at most one child: the item it names. */
  lemma UseHasItsTarget(index: Index, item: Item, fuel: nat)
    requires item.inner.Use? && !item.inner.isGlob
    ensures |Children(index, item, fuel)| <= 1
    ensures forall x :: x in Children(index, item, fuel) <==> item.inner.target == Some(x)
  {
  }

  /** Outside glob `use`s the fuel plays no part. */
  lemma ChildrenIgnoreFuel(index: Index, item: Item, fuel: nat, fuel': nat)
    requires !IsGlobUse(item.inner)
    ensures Children(index, item, fuel) == Children(index, item, fuel')
  {
  }

  /**
   * A glob `use` of an item that is not itself a glob `use` (a module, in practice) has
   * exactly that item's children; a glob `use` of an id missing from the index has none.
   */
  lemma GlobUseTakesTargetChildren(index: Index, item: Item, fuel: nat)
    requires IsGlobUse(item.inner) && item.inner.target.Some?
    ensures item.inner.target.value !in index ==> Children(index, item, fuel) == []
    ensures item.inner.target.value in index && !IsGlobUse(index[item.inner.target.value].inner) && fuel > 0 ==>
      Children(index, item, fuel) == Children(index, index[item.inner.target.value], 0)
  {
    var t := item.inner.target.value;
    if t in index && !IsGlobUse(index[t].inner) && fuel > 0 {
      ChildrenIgnoreFuel(index, index[t], fuel - 1, 0);
    }
  }
}
