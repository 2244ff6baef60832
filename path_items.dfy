/**
 * What both resolver trees produce: leaf-first paths of named, kinded items, and the
 * inverted tree (child to parent) they are read from.
 */
module PathItems {
  import opened Wrappers
  import opened Seqs
  import opened Rustdoc

  /** The kinds a documentation URL distinguishes; `Method` is inferred, not read. */
  datatype Kind =
    | Module | Union | Struct | StructField | Enum | Variant | Function | Trait | TraitAlias
    | TypeAlias | Constant | Static | ExternType | Macro | ProcMacro | Primitive | AssocConst
    | AssocType | ProcAttribute | ProcDerive | Method

  datatype PathItem = PathItem(name: string, kind: Kind)

  /** The kinds documented on their parent's page, under an anchor. */
  predicate IsFragment(kind: Kind)
  {
    kind.StructField? || kind.Variant? || kind.AssocConst? || kind.AssocType? || kind.Method?
  }

  /** A page of its own, `{prefix}.{name}.html`. */
  function Page(prefix: string, name: string): (r: string)
    ensures EndsWith(r, "." + name + ".html")
  {
    var r := prefix + "." + name + ".html";
    assert r == prefix + ("." + name + ".html");
    r
  }

  /** An anchor on the parent's page, `#{prefix}.{name}`. */
  function Anchor(prefix: string, name: string): (r: string)
    ensures |r| > 0 && r[0] == '#' && EndsWith(r, "." + name)
  {
    var r := "#" + prefix + "." + name;
    assert r == "#" + prefix + ("." + name);
    r
  }

  /**
   * The URL piece of one item below the crate: a module is a directory, an item documented
   * on its parent's page is an anchor, and every other item is a page of its own.
   */
  function UrlPathSegment(item: PathItem): string
  {
    var name := item.name;
    match item.kind
    case Module => name + "/"
    case Union => Page("union", name)
    case Struct => Page("struct", name)
    case StructField => Anchor("structfield", name)
    case Enum => Page("enum", name)
    case Variant => Anchor("variant", name)
    case Function => Page("fn", name)
    case Trait => Page("trait", name)
    case TraitAlias => Page("traitalias", name)
    case TypeAlias => Page("type", name)
    case Constant => Page("constant", name)
    case Static => Page("static", name)
    case ExternType => Page("foreigntype", name)
    case Macro => Page("macro", name)
    case ProcMacro => Page("macro", name)
    case Primitive => Page("primitive", name)
    case AssocConst => Anchor("associatedconstant", name)
    case AssocType => Anchor("associatedtype", name)
    case ProcAttribute => Page("attr", name)
    case ProcDerive => Page("derive", name)
    case Method => Anchor("method", name)
  }

  /** The segment is total, and its shape depends only on whether the kind is a module, an anchor or a page. */
  lemma UrlPathSegmentShape(item: PathItem)
    ensures item.kind.Module? ==> UrlPathSegment(item) == item.name + "/"
    ensures IsFragment(item.kind) ==>
      var r := UrlPathSegment(item); |r| > 0 && r[0] == '#' && EndsWith(r, "." + item.name)
    ensures !item.kind.Module? && !IsFragment(item.kind) ==> EndsWith(UrlPathSegment(item), "." + item.name + ".html")
  {
  }

  /** An entry of the inverted tree: the item's parent, if it has one, its kind and name. */
  datatype Value = Value(parent: Option<Id>, kind: Kind, name: string)

  type InvTree = map<Id, Value>

  /** Does the walk from `id` up the parent links leave the tree within `fuel` steps? */
  predicate Ends(tree: InvTree, id: Id, fuel: nat)
    decreases fuel
  {
    id !in tree || tree[id].parent.None? || (fuel > 0 && Ends(tree, tree[id].parent.value, fuel - 1))
  }

  /** The ids the walk from `id` visits, `id` first: each next one is the previous one's parent. */
  function Walk(tree: InvTree, id: Id, fuel: nat): (ids: seq<Id>)
    requires Ends(tree, id, fuel)
    ensures id !in tree <==> ids == []
    ensures ids != [] ==> ids[0] == id
    ensures forall i :: 0 <= i < |ids| ==> ids[i] in tree
    ensures forall i :: 0 <= i < |ids| - 1 ==> tree[ids[i]].parent == Some(ids[i + 1])
    ensures ids != [] ==> var last := ids[|ids| - 1];
      tree[last].parent.None? || tree[last].parent.value !in tree
    decreases fuel
  {
    if id !in tree then []
    else if tree[id].parent.None? then [id]
    else [id] + Walk(tree, tree[id].parent.value, fuel - 1)
  }

  /** Where the walk stops: the last visited item without a parent, or the first id not in the tree. */
  function StopAt(tree: InvTree, id: Id, fuel: nat): (r: Id)
    requires Ends(tree, id, fuel)
    ensures Walk(tree, id, fuel) == [] ==> r == id
    ensures Walk(tree, id, fuel) != [] ==> var ids := Walk(tree, id, fuel); var last := ids[|ids| - 1];
      if tree[last].parent.None? then r == last else r == tree[last].parent.value
    decreases fuel
  {
    if id !in tree || tree[id].parent.None? then id
    else StopAt(tree, tree[id].parent.value, fuel - 1)
  }

  /** The path items of the visited ids, in the same order: what `path_to` collects. */
  function Climb(tree: InvTree, id: Id, fuel: nat): (r: seq<PathItem>)
    requires Ends(tree, id, fuel)
    decreases fuel
  {
    if id !in tree then []
    else
      var here := PathItem(tree[id].name, tree[id].kind);
      if tree[id].parent.None? then [here] else [here] + Climb(tree, tree[id].parent.value, fuel - 1)
  }

  /** The items are those of the visited ids, one for one. */
  lemma {:induction false} ClimbIsWalk(tree: InvTree, id: Id, fuel: nat)
    requires Ends(tree, id, fuel)
    ensures var ids := Walk(tree, id, fuel);
      |Climb(tree, id, fuel)| == |ids| &&
      forall i :: 0 <= i < |ids| ==> Climb(tree, id, fuel)[i] == PathItem(tree[ids[i]].name, tree[ids[i]].kind)
    decreases fuel
  {
    if id in tree && tree[id].parent.Some? {
      ClimbIsWalk(tree, tree[id].parent.value, fuel - 1);
    }
  }

  lemma {:induction false} WalkStep(tree: InvTree, id: Id, fuel: nat)
    requires id in tree && tree[id].parent.Some? && Ends(tree, id, fuel)
    ensures fuel > 0 && Ends(tree, tree[id].parent.value, fuel - 1)
    ensures Walk(tree, id, fuel) == [id] + Walk(tree, tree[id].parent.value, fuel - 1)
    ensures StopAt(tree, id, fuel) == StopAt(tree, tree[id].parent.value, fuel - 1)
    ensures Climb(tree, id, fuel) ==
      [PathItem(tree[id].name, tree[id].kind)] + Climb(tree, tree[id].parent.value, fuel - 1)
  {
  }

  /** The walk does not depend on the fuel, as long as there is enough. */
  lemma {:induction false} EndsMore(tree: InvTree, id: Id, fuel: nat, more: nat)
    requires Ends(tree, id, fuel) && fuel <= more
    ensures Ends(tree, id, more)
    ensures Walk(tree, id, fuel) == Walk(tree, id, more)
    ensures StopAt(tree, id, fuel) == StopAt(tree, id, more)
    ensures Climb(tree, id, fuel) == Climb(tree, id, more)
    decreases fuel
  {
    if id in tree && tree[id].parent.Some? {
      EndsMore(tree, tree[id].parent.value, fuel - 1, more - 1);
    }
  }
}
