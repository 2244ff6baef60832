/**
 * The inverted tree read from `.paths`, the summaries of items of every crate the docs
 * mention. An item's parent is the item whose path is its own path without the last
 * segment; ancestors missing from `.paths` are assumed to be modules.
 */
module PathsTree {
  import opened Wrappers
  import opened Seqs
  import opened Rustdoc
  import opened PathItems

  datatype Tree = Tree(paths: Paths, invTree: InvTree)

  /** The last path segment, or the empty string for an empty path. */
  function ItemName(item: ItemSummary): (r: string)
    ensures item.path != [] ==> r == item.path[|item.path| - 1]
    ensures item.path == [] ==> r == ""
  {
    if item.path == [] then "" else item.path[|item.path| - 1]
  }

  /** The kind a summary is linked as; extern crates, `use`s, impls and keywords have none. */
  function SummaryKind(kind: ItemKind): (r: Option<Kind>)
    ensures r.None? <==> kind.ExternCrate? || kind.Use? || kind.Impl? || kind.Keyword?
    ensures r != Some(Kind.Method)
  {
    match kind
    case Module => Some(Kind.Module)
    case ExternCrate => None
    case Use => None
    case Struct => Some(Kind.Struct)
    case StructField => Some(Kind.StructField)
    case Union => Some(Kind.Union)
    case Enum => Some(Kind.Enum)
    case Variant => Some(Kind.Variant)
    case Function => Some(Kind.Function)
    case TypeAlias => Some(Kind.TypeAlias)
    case Constant => Some(Kind.Constant)
    case Trait => Some(Kind.Trait)
    case TraitAlias => Some(Kind.TraitAlias)
    case Impl => None
    case Static => Some(Kind.Static)
    case ExternType => Some(Kind.ExternType)
    case Macro => Some(Kind.Macro)
    case ProcAttribute => Some(Kind.ProcAttribute)
    case ProcDerive => Some(Kind.ProcDerive)
    case AssocConst => Some(Kind.AssocConst)
    case AssocType => Some(Kind.AssocType)
    case Primitive => Some(Kind.Primitive)
    case Keyword => None
  }

  /** All but the last element, or nothing for an empty sequence. */
  function WithoutLast<T>(s: seq<T>): (r: Option<seq<T>>)
    ensures r.None? <==> s == []
    ensures r.Some? ==> r.value + [s[|s| - 1]] == s
  {
    if s == [] then None else Some(s[..|s| - 1])
  }

  /** `path_to_id`: each path to the id that owns it; of two ids with one path, the later wins. */
  function PathToIdOf(paths: Paths, order: seq<Id>): (r: map<seq<string>, Id>)
    requires forall i :: 0 <= i < |order| ==> order[i] in paths
  {
    if order == [] then map[]
    else
      var last := order[|order| - 1];
      PathToIdOf(paths, order[..|order| - 1])[paths[last].path := last]
  }

  /** Every path of a visited id is a key, and every key maps to a visited id that has it. */
  lemma {:induction false} PathToIdShape(paths: Paths, order: seq<Id>)
    requires forall i :: 0 <= i < |order| ==> order[i] in paths
    ensures var r := PathToIdOf(paths, order);
      forall k :: k in r ==> r[k] in order && r[k] in paths && paths[r[k]].path == k
    ensures var r := PathToIdOf(paths, order);
      forall i :: 0 <= i < |order| ==> paths[order[i]].path in r
  {
    if order != [] {
      PathToIdShape(paths, order[..|order| - 1]);
    }
  }

  /** Of the ids sharing a path, the one visited last wins. */
  lemma {:induction false} PathToIdLaterWins(paths: Paths, order: seq<Id>, i: nat)
    requires forall i :: 0 <= i < |order| ==> order[i] in paths
    requires i < |order| && forall l :: i < l < |order| ==> paths[order[l]].path != paths[order[i]].path
    ensures var r := PathToIdOf(paths, order);
      paths[order[i]].path in r && r[paths[order[i]].path] == order[i]
  {
    if i < |order| - 1 {
      PathToIdLaterWins(paths, order[..|order| - 1], i);
    }
  }

  method PathToId(paths: Paths, order: seq<Id>) returns (r: map<seq<string>, Id>)
    requires forall i :: 0 <= i < |order| ==> order[i] in paths
    ensures r == PathToIdOf(paths, order)
  {
    r := map[];
    for i := 0 to |order|
      invariant r == PathToIdOf(paths, order[..i])
    {
      assert order[..i + 1][..i] == order[..i];
      r := r[paths[order[i]].path := order[i]];
    }
    assert order[..|order|] == order;
  }

  /** The parent of one summary: the owner of its path without the last segment. */
  function ParentOf(paths: Paths, pathToId: map<seq<string>, Id>, id: Id): Option<Id>
    requires id in paths
  {
    var path := paths[id].path;
    if |path| <= 1 then None
    else if path[..|path| - 1] in pathToId then Some(pathToId[path[..|path| - 1]])
    else None
  }

  function ParentsMap(paths: Paths, pathToId: map<seq<string>, Id>): map<Id, Id>
  {
    map id | id in paths && ParentOf(paths, pathToId, id).Some? :: ParentOf(paths, pathToId, id).value
  }

  /** The parents recorded for the ids visited so far. */
  function ParentsBuilt(paths: Paths, pathToId: map<seq<string>, Id>, ks: seq<Id>): map<Id, Id>
  {
    map id | id in ks && id in paths && ParentOf(paths, pathToId, id).Some? :: ParentOf(paths, pathToId, id).value
  }

  lemma ParentsBuiltStep(paths: Paths, pathToId: map<seq<string>, Id>, ks: seq<Id>, c: Id)
    requires c in paths
    ensures ParentOf(paths, pathToId, c).None? ==>
      ParentsBuilt(paths, pathToId, ks + [c]) == ParentsBuilt(paths, pathToId, ks)
    ensures ParentOf(paths, pathToId, c).Some? ==>
      ParentsBuilt(paths, pathToId, ks + [c]) ==
      ParentsBuilt(paths, pathToId, ks)[c := ParentOf(paths, pathToId, c).value]
  {
  }

  lemma ParentsBuiltAll(paths: Paths, pathToId: map<seq<string>, Id>, ids: seq<Id>)
    requires Enumerates(ids, paths.Keys)
    ensures ParentsBuilt(paths, pathToId, ids) == ParentsMap(paths, pathToId)
  {
  }

  /**
   * `parents`. The source visits the ids sorted; every id is visited once and no visit
   * reads what another wrote, so any enumeration `ids` gives the same map.
   */
  method Parents(paths: Paths, order: seq<Id>, ids: seq<Id>) returns (r: map<Id, Id>)
    requires Enumerates(order, paths.Keys) && Enumerates(ids, paths.Keys)
    ensures r == ParentsMap(paths, PathToIdOf(paths, order))
  {
    var pathToId := PathToId(paths, order);
    r := map[];
    for i := 0 to |ids|
      invariant r == ParentsBuilt(paths, pathToId, ids[..i])
    {
      var id := ids[i];
      assert ids[..i + 1] == ids[..i] + [id];
      ParentsBuiltStep(paths, pathToId, ids[..i], id);
      var path := paths[id].path;
      if |path| <= 1 {
        continue;
      }
      var parentPath := path[..|path| - 1];
      if parentPath !in pathToId {
        continue;
      }
      r := r[id := pathToId[parentPath]];
    }
    assert ids[..|ids|] == ids;
    ParentsBuiltAll(paths, pathToId, ids);
  }

  /**
   * A summary's parent is the summary whose path is its own without the last segment: one
   * is recorded exactly when the path has more than one segment and some id owns that prefix.
   */
  lemma ParentsMapShape(paths: Paths, order: seq<Id>, c: Id)
    requires Enumerates(order, paths.Keys)
    ensures var parents := ParentsMap(paths, PathToIdOf(paths, order));
      c in parents ==>
        |paths[c].path| > 1 && parents[c] in paths &&
        paths[parents[c]].path == paths[c].path[..|paths[c].path| - 1]
    ensures var parents := ParentsMap(paths, PathToIdOf(paths, order));
      c in paths && |paths[c].path| > 1 &&
      (exists p :: p in paths && paths[p].path == paths[c].path[..|paths[c].path| - 1]) ==>
        c in parents
  {
    var pathToId := PathToIdOf(paths, order);
    PathToIdShape(paths, order);
    if c in paths && |paths[c].path| > 1 {
      var parentPath := paths[c].path[..|paths[c].path| - 1];
      if p :| p in paths && paths[p].path == parentPath {
        var i :| 0 <= i < |order| && order[i] == p;
        assert parentPath in pathToId;
      }
    }
  }

  /** Parents recorded for summaries point at summaries. */
  predicate ParentsWithin(paths: Paths, parents: map<Id, Id>)
  {
    forall c :: c in parents ==> c in paths && parents[c] in paths
  }

  /** A child of an impl that has a parent itself moves up to that parent and becomes a method. */
  function ValueFor(paths: Paths, parents: map<Id, Id>, c: Id): (r: Value)
    requires ParentsWithin(paths, parents) && c in paths && SummaryKind(paths[c].kind).Some?
  {
    var kind := SummaryKind(paths[c].kind).value;
    var name := ItemName(paths[c]);
    if c !in parents then Value(None, kind, name)
    else
      var p := parents[c];
      if paths[p].kind.Impl? && p in parents then Value(Some(parents[p]), Kind.Method, name)
      else Value(Some(p), kind, name)
  }

  function InvTreeOf(paths: Paths, parents: map<Id, Id>): (r: InvTree)
    requires ParentsWithin(paths, parents)
  {
    map c | c in paths && SummaryKind(paths[c].kind).Some? :: ValueFor(paths, parents, c)
  }

  /** The tree built from the summaries enumerated so far. */
  function Built(paths: Paths, parents: map<Id, Id>, ks: seq<Id>): InvTree
    requires ParentsWithin(paths, parents)
  {
    map c | c in ks && c in paths && SummaryKind(paths[c].kind).Some? :: ValueFor(paths, parents, c)
  }

  lemma BuiltStep(paths: Paths, parents: map<Id, Id>, ks: seq<Id>, c: Id)
    requires ParentsWithin(paths, parents) && c in paths
    ensures SummaryKind(paths[c].kind).None? ==> Built(paths, parents, ks + [c]) == Built(paths, parents, ks)
    ensures SummaryKind(paths[c].kind).Some? ==>
      Built(paths, parents, ks + [c]) == Built(paths, parents, ks)[c := ValueFor(paths, parents, c)]
  {
  }

  lemma BuiltAll(paths: Paths, parents: map<Id, Id>, order: seq<Id>)
    requires ParentsWithin(paths, parents) && Enumerates(order, paths.Keys)
    ensures Built(paths, parents, order) == InvTreeOf(paths, parents)
  {
  }

  lemma ParentsMapWithin(paths: Paths, order: seq<Id>)
    requires Enumerates(order, paths.Keys)
    ensures ParentsWithin(paths, ParentsMap(paths, PathToIdOf(paths, order)))
  {
    PathToIdShape(paths, order);
  }

  /** The parent lookup of `new_simple`, which lifts the children of an impl to its parent. */
  method ParentFor(paths: Paths, parents: map<Id, Id>, childId: Id, kind: Kind)
    returns (parentId: Option<Id>, childKind: Kind)
    requires ParentsWithin(paths, parents) && childId in paths && SummaryKind(paths[childId].kind) == Some(kind)
    ensures Value(parentId, childKind, ItemName(paths[childId])) == ValueFor(paths, parents, childId)
  {
    childKind := kind;
    parentId := None;
    if childId in parents {
      var p := parents[childId];
      if paths[p].kind.Impl? && p in parents {
        p := parents[p];
        childKind := Kind.Method;
      }
      parentId := Some(p);
    }
  }

  /** `Tree::new_simple`; `order` is the iteration order of the `HashMap` of summaries. */
  method NewSimple(paths: Paths, order: seq<Id>, ids: seq<Id>) returns (tree: Tree)
    requires Enumerates(order, paths.Keys) && Enumerates(ids, paths.Keys)
    ensures ParentsWithin(paths, ParentsMap(paths, PathToIdOf(paths, order)))
    ensures tree == Tree(paths, InvTreeOf(paths, ParentsMap(paths, PathToIdOf(paths, order))))
  {
    var parents := Parents(paths, order, ids);
    ParentsMapWithin(paths, order);
    var invTree: InvTree := map[];
    for i := 0 to |order|
      invariant invTree == Built(paths, parents, order[..i])
    {
      var childId := order[i];
      assert order[..i + 1] == order[..i] + [childId];
      BuiltStep(paths, parents, order[..i], childId);
      var childItem := paths[childId];
      var childName := ItemName(childItem);
      var kind := SummaryKind(childItem.kind);
      if kind.None? {
        continue;
      }
      var parentId, childKind := ParentFor(paths, parents, childId, kind.value);
      invTree := invTree[childId := Value(parentId, childKind, childName)];
    }
    assert order[..|order|] == order;
    BuiltAll(paths, parents, order);
    tree := Tree(paths, invTree);
  }

  /** The invariant of a built tree: entries are summaries, and a parent has a shorter path. */
  predicate Valid(tree: Tree)
  {
    forall c :: c in tree.invTree ==>
      c in tree.paths &&
      (tree.invTree[c].parent.Some? ==>
         tree.invTree[c].parent.value in tree.paths &&
         |tree.paths[tree.invTree[c].parent.value].path| < |tree.paths[c].path|)
  }

  /** Parents are found by dropping path segments, so every parent link shortens the path. */
  lemma BuiltIsValid(paths: Paths, order: seq<Id>)
    requires Enumerates(order, paths.Keys)
    ensures ParentsWithin(paths, ParentsMap(paths, PathToIdOf(paths, order)))
    ensures Valid(Tree(paths, InvTreeOf(paths, ParentsMap(paths, PathToIdOf(paths, order)))))
  {
    ParentsMapWithin(paths, order);
    var parents := ParentsMap(paths, PathToIdOf(paths, order));
    var inv := InvTreeOf(paths, parents);
    forall c | c in inv && inv[c].parent.Some?
      ensures |paths[inv[c].parent.value].path| < |paths[c].path|
    {
      ParentsMapShape(paths, order, c);
      var p := parents[c];
      if paths[p].kind.Impl? && p in parents {
        ParentsMapShape(paths, order, p);
      }
    }
  }

  /** Enough steps for the walk up from `id`: one per path segment. */
  function Height(tree: Tree, id: Id): nat
  {
    if id in tree.paths then |tree.paths[id].path| else 0
  }

  lemma {:induction false} ValidEnds(tree: Tree, id: Id, fuel: nat)
    requires Valid(tree) && Height(tree, id) <= fuel
    ensures Ends(tree.invTree, id, fuel)
    ensures StopAt(tree.invTree, id, fuel) in tree.paths || StopAt(tree.invTree, id, fuel) == id
    ensures id in tree.paths ==> StopAt(tree.invTree, id, fuel) in tree.paths
    decreases fuel
  {
    var inv := tree.invTree;
    if id in inv && inv[id].parent.Some? {
      ValidEnds(tree, inv[id].parent.value, fuel - 1);
    }
  }

  /** The remaining ancestors, root last, as modules. */
  function Modules(names: seq<string>): (r: seq<PathItem>)
    ensures |r| == |names|
    ensures forall i :: 0 <= i < |names| ==> r[i] == PathItem(names[|names| - 1 - i], Kind.Module)
  {
    if names == [] then [] else Modules(names[1..]) + [PathItem(names[0], Kind.Module)]
  }

  /**
   * What `path_to` reports: the items on the walk up from `id`, leaf first, then the path of
   * the place the walk stopped at, without its last segment, as modules up to the root.
   */
  function PathOf(tree: Tree, id: Id): Option<seq<PathItem>>
    requires Valid(tree)
  {
    ValidEnds(tree, id, Height(tree, id));
    var items := Climb(tree.invTree, id, Height(tree, id));
    if items == [] then None
    else
      var rest := WithoutLast(tree.paths[StopAt(tree.invTree, id, Height(tree, id))].path);
      Some(items + if rest.Some? then Modules(rest.value) else [])
  }

  lemma PathOfNone(tree: Tree, id: Id)
    requires Valid(tree)
    ensures PathOf(tree, id).None? <==> id !in tree.invTree
  {
    ValidEnds(tree, id, Height(tree, id));
  }

  /** `Tree::path_to`. */
  method PathTo(tree: Tree, id: Id) returns (r: Option<seq<PathItem>>)
    requires Valid(tree)
    ensures r == PathOf(tree, id)
  {
    ValidEnds(tree, id, Height(tree, id));
    var path, cur := Ascend(tree.invTree, id, Height(tree, id));
    if path == [] {
      return None;
    }
    assert cur in tree.paths;
    var remaining := WithoutLast(tree.paths[cur].path);
    assert PathOf(tree, id) == Some(path + if remaining.Some? then Modules(remaining.value) else []);
    if remaining.Some? {
      path := PushModules(path, remaining.value);
    } else {
      assert path + [] == path;
    }
    return Some(path);
  }

  /** The first loop of `path_to`: the items from `id` up, and the id the walk stopped at. */
  method Ascend(inv: InvTree, id: Id, ghost height: nat) returns (path: seq<PathItem>, cur: Id)
    requires Ends(inv, id, height)
    ensures path == Climb(inv, id, height) && cur == StopAt(inv, id, height)
  {
    path := [];
    cur := id;
    ghost var fuel: nat := height;
    while cur in inv
      invariant Ends(inv, cur, fuel)
      invariant Climb(inv, id, height) == path + Climb(inv, cur, fuel)
      invariant StopAt(inv, id, height) == StopAt(inv, cur, fuel)
      decreases fuel
    {
      var v := inv[cur];
      if v.parent.None? {
        assert Climb(inv, cur, fuel) == [PathItem(v.name, v.kind)];
        path := path + [PathItem(v.name, v.kind)];
        break;
      }
      WalkStep(inv, cur, fuel);
      path := path + [PathItem(v.name, v.kind)];
      cur := v.parent.value;
      fuel := fuel - 1;
    }
  }

  /** The loop at the end of `path_to`: the names, last first, pushed as modules. */
  method PushModules(path: seq<PathItem>, names: seq<string>) returns (r: seq<PathItem>)
    ensures r == path + Modules(names)
  {
    r := path;
    var i := |names|;
    while i > 0
      invariant 0 <= i <= |names|
      invariant r == path + Modules(names[i..])
    {
      i := i - 1;
      assert names[i..][1..] == names[i + 1..];
      r := r + [PathItem(names[i], Kind.Module)];
    }
    assert names[0..] == names;
  }

  /** The names of path items, last item first: a leaf-first path read root first. */
  function RootFirstNames(items: seq<PathItem>): (r: seq<string>)
    ensures |r| == |items|
  {
    if items == [] then [] else RootFirstNames(items[1..]) + [items[0].name]
  }

  lemma RootFirstNamesCons(item: PathItem, rest: seq<PathItem>)
    ensures RootFirstNames([item] + rest) == RootFirstNames(rest) + [item.name]
  {
    assert ([item] + rest)[1..] == rest;
  }

  lemma {:induction false} RootFirstNamesAppend(a: seq<PathItem>, b: seq<PathItem>)
    ensures RootFirstNames(a + b) == RootFirstNames(b) + RootFirstNames(a)
  {
    if a != [] {
      assert (a + b)[1..] == a[1..] + b;
      RootFirstNamesAppend(a[1..], b);
    } else {
      assert a + b == b;
    }
  }

  lemma {:induction false} RootFirstModules(names: seq<string>)
    ensures RootFirstNames(Modules(names)) == names
  {
    if names != [] {
      RootFirstNamesAppend(Modules(names[1..]), [PathItem(names[0], Kind.Module)]);
      RootFirstModules(names[1..]);
      assert [names[0]] + names[1..] == names;
    }
  }

  /** An entry named by the last segment of its path, whose parent's path is its own without it. */
  predicate Link(tree: Tree, c: Id)
    requires c in tree.invTree
  {
    c in tree.paths && tree.paths[c].path != [] &&
    var path := tree.paths[c].path;
    tree.invTree[c].name == path[|path| - 1] &&
    (tree.invTree[c].parent.Some? ==>
       var p := tree.invTree[c].parent.value;
       p in tree.paths && |path| > 1 && tree.paths[p].path == path[..|path| - 1])
  }

  /** The links of a tree built without impls. */
  predicate Chained(tree: Tree)
  {
    forall c :: c in tree.invTree ==> Link(tree, c)
  }

  lemma ChainedIsValid(tree: Tree)
    requires Chained(tree)
    ensures Valid(tree)
  {
    forall c | c in tree.invTree
      ensures c in tree.paths
    {
      assert Link(tree, c);
    }
  }

  /** Without impls among the summaries no entry is re-parented. */
  lemma BuiltIsChained(paths: Paths, order: seq<Id>)
    requires Enumerates(order, paths.Keys)
    requires forall c :: c in paths ==> paths[c].path != [] && !paths[c].kind.Impl?
    ensures ParentsWithin(paths, ParentsMap(paths, PathToIdOf(paths, order)))
    ensures Chained(Tree(paths, InvTreeOf(paths, ParentsMap(paths, PathToIdOf(paths, order)))))
  {
    ParentsMapWithin(paths, order);
    var parents := ParentsMap(paths, PathToIdOf(paths, order));
    var tree := Tree(paths, InvTreeOf(paths, parents));
    forall c | c in tree.invTree
      ensures Link(tree, c)
    {
      ParentsMapShape(paths, order, c);
    }
  }

  /** What a walk that stopped at `stop` has not read of the item's path. */
  function Unread(tree: Tree, stop: Id): seq<string>
    requires stop in tree.paths
  {
    var path := tree.paths[stop].path;
    if stop in tree.invTree && path != [] then path[..|path| - 1] else path
  }

  /** Climbing from `cur` reads its path from the end, down to where the walk stopped. */
  lemma {:induction false} ClimbNames(tree: Tree, cur: Id, fuel: nat)
    requires Chained(tree) && Ends(tree.invTree, cur, fuel) && cur in tree.invTree
    ensures var stop := StopAt(tree.invTree, cur, fuel);
      stop in tree.paths && tree.paths[stop].path != [] &&
      Unread(tree, stop) + RootFirstNames(Climb(tree.invTree, cur, fuel)) == tree.paths[cur].path
    decreases fuel
  {
    var inv := tree.invTree;
    assert Link(tree, cur);
    var path := tree.paths[cur].path;
    var here := PathItem(inv[cur].name, inv[cur].kind);
    if inv[cur].parent.None? {
      assert Climb(inv, cur, fuel) == [here];
      assert RootFirstNames([here]) == [here.name];
      assert path[..|path| - 1] + [path[|path| - 1]] == path;
    } else {
      var p := inv[cur].parent.value;
      WalkStep(inv, cur, fuel);
      RootFirstNamesCons(here, Climb(inv, p, fuel - 1));
      var names := RootFirstNames(Climb(inv, p, fuel - 1));
      assert path[..|path| - 1] + [path[|path| - 1]] == path;
      if p in inv {
        ClimbNames(tree, p, fuel - 1);
        var u := Unread(tree, StopAt(inv, p, fuel - 1));
        assert u + (names + [here.name]) == (u + names) + [here.name];
      } else {
        assert Climb(inv, p, fuel - 1) == [];
      }
    }
  }

  /**
   * Read root first, what `path_to` reports is the item's own path when the walk stops at an
   * entry of the tree; when it stops at an ancestor outside the tree (an impl or a `use`),
   * that ancestor's own segment is missing from the report.
   */
  lemma PathOfNames(tree: Tree, id: Id)
    requires Chained(tree) && id in tree.invTree
    ensures Valid(tree) && Ends(tree.invTree, id, Height(tree, id)) && PathOf(tree, id).Some?
    ensures var stop := StopAt(tree.invTree, id, Height(tree, id));
      stop in tree.invTree ==> RootFirstNames(PathOf(tree, id).value) == tree.paths[id].path
    ensures var stop := StopAt(tree.invTree, id, Height(tree, id));
      stop !in tree.invTree ==>
        stop in tree.paths && tree.paths[stop].path != [] &&
        exists tail :: tree.paths[id].path == tree.paths[stop].path + tail &&
          RootFirstNames(PathOf(tree, id).value) == WithoutLast(tree.paths[stop].path).value + tail
  {
    ChainedIsValid(tree);
    var inv := tree.invTree;
    ValidEnds(tree, id, Height(tree, id));
    ClimbNames(tree, id, Height(tree, id));
    var items := Climb(inv, id, Height(tree, id));
    var stop := StopAt(inv, id, Height(tree, id));
    var rest := WithoutLast(tree.paths[stop].path).value;
    assert items != [];
    RootFirstNamesAppend(items, Modules(rest));
    RootFirstModules(rest);
    assert RootFirstNames(PathOf(tree, id).value) == rest + RootFirstNames(items);
  }

  /** A trait whose module has no summary: the missing ancestors are reported as modules. */
  lemma PartiallyDanglingPath()
    ensures var paths := map[0 := ItemSummary(["std", "io", "Write"], ItemKind.Trait)];
      ParentsWithin(paths, ParentsMap(paths, PathToIdOf(paths, [0]))) &&
      var tree := Tree(paths, InvTreeOf(paths, ParentsMap(paths, PathToIdOf(paths, [0]))));
      Valid(tree) &&
      PathOf(tree, 0) == Some([PathItem("Write", Kind.Trait), PathItem("io", Kind.Module), PathItem("std", Kind.Module)])
  {
    var writeTrait := ItemSummary(["std", "io", "Write"], ItemKind.Trait);
    var paths := map[0 := writeTrait];
    var pathToId := PathToIdOf(paths, [0]);
    var none: seq<Id> := [];
    assert [0][..0] == none;
    assert PathToIdOf(paths, none) == map[];
    assert pathToId == PathToIdOf(paths, none)[writeTrait.path := 0];
    assert writeTrait.path[..2] == ["std", "io"];
    assert ParentOf(paths, pathToId, 0).None?;
    var parents := ParentsMap(paths, pathToId);
    assert 0 !in parents;
    BuiltIsValid(paths, [0]);
    var inv := InvTreeOf(paths, parents);
    assert 0 in inv && inv[0] == Value(None, Kind.Trait, "Write");
    assert Climb(inv, 0, 3) == [PathItem("Write", Kind.Trait)];
    assert StopAt(inv, 0, 3) == 0;
    assert WithoutLast(writeTrait.path) == Some(["std", "io"]);
    assert Modules(["std", "io"]) == [PathItem("io", Kind.Module), PathItem("std", Kind.Module)];
    var tree := Tree(paths, inv);
    assert Height(tree, 0) == 3;
    assert PathOf(tree, 0) == Some([PathItem("Write", Kind.Trait)] + Modules(["std", "io"]));
    assert [PathItem("Write", Kind.Trait)] + Modules(["std", "io"]) ==
      [PathItem("Write", Kind.Trait), PathItem("io", Kind.Module), PathItem("std", Kind.Module)];
  }

  const WriteFn := ItemSummary(["std", "io", "Write", "write"], ItemKind.Function)
  const WriteTrait := ItemSummary(["std", "io", "Write"], ItemKind.Trait)
  const StdRoot := ItemSummary(["std"], ItemKind.Module)

  /**
   * `std::io::Write::write` with summaries for the trait and the crate root; of the two
   * entries for id 2 (`std::io` and `std`) the later replaces the earlier.
   */
  const SimplePaths: Paths := map[0 := WriteFn, 1 := WriteTrait, 2 := ItemSummary(["std", "io"], ItemKind.Module)][2 := StdRoot]

  lemma SimplePathToId()
    ensures PathToIdOf(SimplePaths, [0, 1, 2]) == map[WriteFn.path := 0, WriteTrait.path := 1, StdRoot.path := 2]
  {
    var none: seq<Id> := [];
    assert [0, 1, 2][..2] == [0, 1] && [0, 1][..1] == [0] && [0][..0] == none;
    assert PathToIdOf(SimplePaths, none) == map[];
    assert PathToIdOf(SimplePaths, [0]) == map[WriteFn.path := 0];
    assert PathToIdOf(SimplePaths, [0, 1]) == map[WriteFn.path := 0, WriteTrait.path := 1];
  }

  /** Only the function has a parent: the trait's module `std::io` has no summary left. */
  lemma SimpleParents()
    ensures var parents := ParentsMap(SimplePaths, PathToIdOf(SimplePaths, [0, 1, 2]));
      0 in parents && parents[0] == 1 && 1 !in parents
  {
    SimplePathToId();
    var pathToId := PathToIdOf(SimplePaths, [0, 1, 2]);
    assert WriteFn.path[..3] == WriteTrait.path;
    assert WriteTrait.path[..2] == ["std", "io"];
    assert ParentOf(SimplePaths, pathToId, 0) == Some(1);
    assert ParentOf(SimplePaths, pathToId, 1).None?;
  }

  lemma SimpleOrder()
    ensures Enumerates([0, 1, 2], SimplePaths.Keys)
  {
    assert SimplePaths.Keys == {0, 1, 2};
  }

  lemma SimpleInvTree()
    ensures ParentsWithin(SimplePaths, ParentsMap(SimplePaths, PathToIdOf(SimplePaths, [0, 1, 2])))
    ensures var inv := InvTreeOf(SimplePaths, ParentsMap(SimplePaths, PathToIdOf(SimplePaths, [0, 1, 2])));
      Valid(Tree(SimplePaths, inv)) &&
      0 in inv && inv[0] == Value(Some(1), Kind.Function, "write") &&
      1 in inv && inv[1] == Value(None, Kind.Trait, "Write")
  {
    SimpleParents();
    SimpleOrder();
    BuiltIsValid(SimplePaths, [0, 1, 2]);
  }

  lemma StdIoModules()
    ensures WithoutLast(WriteTrait.path) == Some(["std", "io"])
    ensures [PathItem("write", Kind.Function), PathItem("Write", Kind.Trait)] + Modules(["std", "io"]) ==
      [PathItem("write", Kind.Function), PathItem("Write", Kind.Trait), PathItem("io", Kind.Module), PathItem("std", Kind.Module)]
  {
    assert WriteTrait.path[..2] == ["std", "io"];
    assert Modules(["std", "io"]) == [PathItem("io", Kind.Module), PathItem("std", Kind.Module)];
  }

  lemma SimplePath()
    ensures ParentsWithin(SimplePaths, ParentsMap(SimplePaths, PathToIdOf(SimplePaths, [0, 1, 2])))
    ensures var tree := Tree(SimplePaths, InvTreeOf(SimplePaths, ParentsMap(SimplePaths, PathToIdOf(SimplePaths, [0, 1, 2]))));
      Valid(tree) &&
      PathOf(tree, 0) == Some([PathItem("write", Kind.Function), PathItem("Write", Kind.Trait),
                               PathItem("io", Kind.Module), PathItem("std", Kind.Module)])
  {
    SimpleInvTree();
    StdIoModules();
    var inv := InvTreeOf(SimplePaths, ParentsMap(SimplePaths, PathToIdOf(SimplePaths, [0, 1, 2])));
    var tree := Tree(SimplePaths, inv);
    assert Height(tree, 0) == 4;
    WalkStep(inv, 0, 4);
    assert Climb(inv, 1, 3) == [PathItem("Write", Kind.Trait)];
    assert Climb(inv, 0, 4) == [PathItem("write", Kind.Function), PathItem("Write", Kind.Trait)];
    assert StopAt(inv, 0, 4) == 1;
    assert SimplePaths[1] == WriteTrait;
    assert PathOf(tree, 0) == Some(Climb(inv, 0, 4) + Modules(["std", "io"]));
  }
}
