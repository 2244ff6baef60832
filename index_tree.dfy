/**
 * The inverted tree read from the crate's own `.index`: every item except `use`s, impls and
 * extern crates, with the parent chosen by the traversal, where `use` parents are skipped
 * and a function inside an impl becomes a method of the impl's parent.
 */
module IndexTree {
  import opened Wrappers
  import opened Rustdoc
  import opened SimpleIndex
  import opened IndexParents
  import opened PathItems

  datatype Tree = Tree(invTree: InvTree)

  /** The kind an item is linked as; `use`s, impls and extern crates are dissolved instead. */
  function ItemKind(kind: SimpleItemKind): (r: Option<Kind>)
    ensures r.None? <==> kind.Use? || kind.Impl? || kind.ExternCrate?
    ensures kind.Function? ==> r == Some(Kind.Function)
    ensures r != Some(Kind.Method)
  {
    match kind
    case Module => Some(Kind.Module)
    case ExternCrate => None
    case Use(_) => None
    case Union => Some(Kind.Union)
    case Struct => Some(Kind.Struct)
    case StructField => Some(Kind.StructField)
    case Enum => Some(Kind.Enum)
    case Variant => Some(Kind.Variant)
    case Function(_) => Some(Kind.Function)
    case Trait => Some(Kind.Trait)
    case TraitAlias => Some(Kind.TraitAlias)
    case Impl => None
    case TypeAlias => Some(Kind.TypeAlias)
    case Constant => Some(Kind.Constant)
    case Static => Some(Kind.Static)
    case ExternType => Some(Kind.ExternType)
    case Macro => Some(Kind.Macro)
    case ProcMacro => Some(Kind.ProcMacro)
    case Primitive => Some(Kind.Primitive)
    case AssocConst => Some(Kind.AssocConst)
    case AssocType => Some(Kind.AssocType)
  }

  /**
   * Does the parent-resolution loop that starts at `p` finish within `fuel` hops? Each `use`
   * is replaced by its own recorded parent; a `use` without one makes the loop repeat for ever.
   */
  predicate Resolves(index: map<Id, SimpleItem>, parents: map<Id, Id>, p: Id, fuel: nat)
    decreases fuel
  {
    p in index &&
    (index[p].kind.Use? ==> p in parents && fuel > 0 && Resolves(index, parents, parents[p], fuel - 1))
  }

  /** The first item that is not a `use` on the way up from `p`. */
  function FirstNonUse(index: map<Id, SimpleItem>, parents: map<Id, Id>, p: Id, fuel: nat): (r: Id)
    requires Resolves(index, parents, p, fuel)
    ensures r in index && !index[r].kind.Use?
    ensures !index[p].kind.Use? ==> r == p
    ensures index[p].kind.Use? ==> r == FirstNonUse(index, parents, parents[p], fuel - 1)
    decreases fuel
  {
    if index[p].kind.Use? then FirstNonUse(index, parents, parents[p], fuel - 1) else p
  }

  /**
   * Where the loop settles for a child of kind `childKind` recorded under `p`: an impl is
   * replaced by its own parent when it has one, and a function under an impl is a method.
   */
  function Resolve(index: map<Id, SimpleItem>, parents: map<Id, Id>, p: Id, childKind: Kind, fuel: nat): (r: (Id, Kind))
    requires Resolves(index, parents, p, fuel)
    ensures var q := FirstNonUse(index, parents, p, fuel);
      r.0 == (if index[q].kind.Impl? && q in parents then parents[q] else q) &&
      r.1 == (if index[q].kind.Impl? && childKind == Kind.Function then Kind.Method else childKind)
    decreases fuel
  {
    var item := index[p];
    if item.kind.Use? then Resolve(index, parents, parents[p], childKind, fuel - 1)
    else if item.kind.Impl? then
      (if p in parents then parents[p] else p, if childKind == Kind.Function then Kind.Method else childKind)
    else (p, childKind)
  }

  /** Every child the tree will hold reaches a parent; the bound is one hop per recorded child. */
  predicate ResolvesAll(index: map<Id, SimpleItem>, parents: map<Id, Id>)
  {
    forall c :: c in parents && c in index && ItemKind(index[c].kind).Some? ==>
      Resolves(index, parents, parents[c], |parents| + 1)
  }

  function ValueFor(index: map<Id, SimpleItem>, parents: map<Id, Id>, c: Id): (r: Value)
    requires ResolvesAll(index, parents) && c in index && ItemKind(index[c].kind).Some?
  {
    var kind := ItemKind(index[c].kind).value;
    if c in parents then
      var (p, k) := Resolve(index, parents, parents[c], kind, |parents| + 1);
      Value(Some(p), k, index[c].name)
    else Value(None, kind, index[c].name)
  }

  /** The tree `new_simple` builds from the chosen parents. */
  function InvTreeOf(index: map<Id, SimpleItem>, parents: map<Id, Id>): (r: InvTree)
    requires ResolvesAll(index, parents)
  {
    map c | c in index && ItemKind(index[c].kind).Some? :: ValueFor(index, parents, c)
  }

  /**
   * What the tree holds: every item that is not a `use`, an impl or an extern crate, under
   * its own name; a parent exactly when one was chosen, and that parent is not a `use`
   * unless it is the recorded parent of an impl; a method only where a function was.
   */
  lemma InvTreeShape(index: map<Id, SimpleItem>, parents: map<Id, Id>, c: Id)
    requires ResolvesAll(index, parents)
    requires forall k :: k in parents ==> parents[k] in index
    ensures c in InvTreeOf(index, parents) <==> c in index && !index[c].kind.Use? && !index[c].kind.Impl? && !index[c].kind.ExternCrate?
    ensures c in InvTreeOf(index, parents) ==>
      var v := InvTreeOf(index, parents)[c];
      v.name == index[c].name &&
      (v.parent.None? <==> c !in parents) &&
      (v.kind == Kind.Method ==> index[c].kind.Function?) &&
      (v.kind != Kind.Method ==> Some(v.kind) == ItemKind(index[c].kind)) &&
      (v.parent.Some? ==>
         v.parent.value in index &&
         (index[v.parent.value].kind.Use? ==>
            var q := FirstNonUse(index, parents, parents[c], |parents| + 1);
            index[q].kind.Impl? && q in parents && v.parent.value == parents[q]))
  {
  }

  /** The tree built from the children enumerated so far. */
  function Built(index: map<Id, SimpleItem>, parents: map<Id, Id>, ks: seq<Id>): (r: InvTree)
    requires ResolvesAll(index, parents) && forall c :: c in ks ==> c in index
  {
    map c | c in ks && ItemKind(index[c].kind).Some? :: ValueFor(index, parents, c)
  }

  lemma BuiltStep(index: map<Id, SimpleItem>, parents: map<Id, Id>, ks: seq<Id>, c: Id)
    requires ResolvesAll(index, parents) && c in index && forall k :: k in ks ==> k in index
    ensures ItemKind(index[c].kind).None? ==> Built(index, parents, ks + [c]) == Built(index, parents, ks)
    ensures ItemKind(index[c].kind).Some? ==>
      Built(index, parents, ks + [c]) == Built(index, parents, ks)[c := ValueFor(index, parents, c)]
  {
  }

  lemma BuiltAll(index: map<Id, SimpleItem>, parents: map<Id, Id>, keys: seq<Id>)
    requires ResolvesAll(index, parents) && Enumerates(keys, index.Keys)
    ensures Built(index, parents, keys) == InvTreeOf(index, parents)
  {
  }

  /** The inner loop of `new_simple`: climb from the recorded parent until it is not a `use`. */
  method ResolveParent(index: map<Id, SimpleItem>, parents: map<Id, Id>, start: Id, kind: Kind)
    returns (p: Id, childKind: Kind)
    requires Resolves(index, parents, start, |parents| + 1)
    ensures (p, childKind) == Resolve(index, parents, start, kind, |parents| + 1)
  {
    p := start;
    childKind := kind;
    ghost var fuel: nat := |parents| + 1;
    while true
      invariant Resolves(index, parents, p, fuel)
      invariant Resolve(index, parents, start, kind, |parents| + 1) == Resolve(index, parents, p, childKind, fuel)
      decreases fuel
    {
      var parentItem := index[p];
      ghost var q := p;
      if (parentItem.kind.Use? || parentItem.kind.Impl?) && p in parents {
        p := parents[p];
      }
      if parentItem.kind.Use? {
        fuel := fuel - 1;
        continue;
      }
      if parentItem.kind.Impl? && childKind == Kind.Function {
        childKind := Kind.Method;
      }
      assert Resolve(index, parents, q, kind, fuel) == (p, childKind);
      break;
    }
  }

  /** `Tree::new_simple`. */
  method NewSimple(index: map<Id, SimpleItem>, root: Id, keys: seq<Id>) returns (r: Outcome<Tree>)
    requires Enumerates(keys, index.Keys)
    requires ParentsOf(index, root).Done? ==> ResolvesAll(index, ParentsOf(index, root).value)
    ensures ParentsOf(index, root).TooDeep? ==> r == TooDeep(ParentsOf(index, root).itemPath)
    ensures ParentsOf(index, root).Done? ==> r == Done(Tree(InvTreeOf(index, ParentsOf(index, root).value)))
  {
    var found := Parents(index, root);
    if found.TooDeep? {
      return TooDeep(found.itemPath);
    }
    var parents := found.value;
    var invTree: InvTree := map[];
    for i := 0 to |keys|
      invariant invTree == Built(index, parents, keys[..i])
    {
      var childId := keys[i];
      assert keys[..i + 1] == keys[..i] + [childId];
      BuiltStep(index, parents, keys[..i], childId);
      var childItem := index[childId];
      var kind := ItemKind(childItem.kind);
      if kind.None? {
        continue;
      }
      var childKind := kind.value;
      var parentId: Option<Id> := None;
      if childId in parents {
        var p;
        p, childKind := ResolveParent(index, parents, parents[childId], childKind);
        parentId := Some(p);
      }
      invTree := invTree[childId := Value(parentId, childKind, childItem.name)];
    }
    assert keys[..|keys|] == keys;
    BuiltAll(index, parents, keys);
    return Done(Tree(invTree));
  }

  /** The path `path_to` reports: the items on the walk up from `id`, leaf first. */
  function PathOf(tree: Tree, id: Id): (r: Option<seq<PathItem>>)
    requires Ends(tree.invTree, id, |tree.invTree|)
  {
    var path := Climb(tree.invTree, id, |tree.invTree|);
    if path == [] then None else Some(path)
  }

  /**
   * `path_to` finds nothing exactly for ids outside the tree; otherwise the first item is the
   * one asked for and each next item is the parent entry of the one before.
   */
  lemma PathOfShape(tree: Tree, id: Id)
    requires Ends(tree.invTree, id, |tree.invTree|)
    ensures PathOf(tree, id).None? <==> id !in tree.invTree
    ensures PathOf(tree, id).Some? ==>
      var path := PathOf(tree, id).value;
      var ids := Walk(tree.invTree, id, |tree.invTree|);
      |path| == |ids| && path[0] == PathItem(tree.invTree[id].name, tree.invTree[id].kind) &&
      (forall i :: 0 <= i < |path| - 1 ==> tree.invTree[ids[i]].parent == Some(ids[i + 1])) &&
      (forall i :: 0 <= i < |path| ==> path[i] == PathItem(tree.invTree[ids[i]].name, tree.invTree[ids[i]].kind))
  {
    ClimbIsWalk(tree.invTree, id, |tree.invTree|);
  }

  /** `Tree::path_to`; the walk up must reach an item without a parent, or the source loops. */
  method PathTo(tree: Tree, id: Id) returns (r: Option<seq<PathItem>>)
    requires Ends(tree.invTree, id, |tree.invTree|)
    ensures r == PathOf(tree, id)
  {
    var inv := tree.invTree;
    var path: seq<PathItem> := [];
    var cur := id;
    ghost var fuel: nat := |inv|;
    while cur in inv
      invariant Ends(inv, cur, fuel)
      invariant Climb(inv, id, |inv|) == path + Climb(inv, cur, fuel)
      decreases fuel
    {
      var v := inv[cur];
      if v.parent.None? {
        assert Climb(inv, cur, fuel) == [PathItem(v.name, v.kind)];
        path := path + [PathItem(v.name, v.kind)];
        break;
      }
      WalkStep(inv, cur, fuel);
      path := path + [PathItem(v.name, v.kind)];
      cur := v.parent.value;
      fuel := fuel - 1;
    }
    assert path == Climb(inv, id, |inv|);
    if path == [] {
      return None;
    }
    return Some(path);
  }

  /** A function in an impl of a struct is a method of the struct. */
  lemma ImplFunctionIsMethod()
    ensures var index := map[
        0 := SimpleItem("Widget", SimpleItemKind.Struct, [1]),
        1 := SimpleItem("", SimpleItemKind.Impl, [2]),
        2 := SimpleItem("size", SimpleItemKind.Function(true), [])];
      var parents := map[1 := 0, 2 := 1];
      Resolve(index, parents, 1, Kind.Function, 3) == (0, Kind.Method)
  {
  }
}
