/**
 * The choice of a parent for every item reachable from the crate root in the simple index.
 * One recursive traversal offers each child its current parent as a candidate and keeps the
 * better one: non-inline `use`s are avoided, and otherwise the shallowest parent wins, with
 * `use`s not counting towards depth. The traversal gives up once the path from the root is
 * longer than 64 items, which is what makes it stop on cyclic re-export graphs.
 */
module IndexParents {
  import opened Wrappers
  import opened Seqs
  import opened Rustdoc
  import opened SimpleIndex

  const RecursionLimit: nat := 64

  /** The message of the error the traversal fails with; the item path goes with it. */
  const TooDeepMessage: string := "recursed too deep while resolving item paths (64)"

  datatype ParentKind = NonInlineUse | Other

  /** A candidate parent: its id, its depth (smaller is better) and its kind. */
  datatype Parent = Parent(id: Id, depth: nat, kind: ParentKind)

  /** The outcome of the traversal: a value, or the path at which it recursed too deep. */
  datatype Outcome<T> = Done(value: T) | TooDeep(itemPath: string)

  function KindOf(kind: SimpleItemKind): (r: ParentKind)
    ensures r == NonInlineUse <==> kind == SimpleItemKind.Use(false)
  {
    if kind == SimpleItemKind.Use(false) then NonInlineUse else Other
  }

  predicate IsBetterThan(a: Parent, b: Parent)
  {
    if a.kind == NonInlineUse || b.kind == NonInlineUse then b.kind == NonInlineUse
    else a.depth < b.depth
  }

  /** The four cases of the comparison. */
  lemma BetterThanRules(a: Parent, b: Parent)
    ensures a.kind == NonInlineUse && b.kind == Other ==> !IsBetterThan(a, b)
    ensures a.kind == Other && b.kind == NonInlineUse ==> IsBetterThan(a, b)
    ensures a.kind == Other && b.kind == Other ==> (IsBetterThan(a, b) <==> a.depth < b.depth)
    ensures a.kind == NonInlineUse && b.kind == NonInlineUse ==> IsBetterThan(a, b)
  {
  }

  /** The order the comparison serves: any parent is as good as a non-inline `use`, and
    * among the others a smaller depth is better. */
  predicate AtLeastAsGood(a: Parent, b: Parent)
  {
    b.kind == NonInlineUse || (a.kind == Other && a.depth <= b.depth)
  }

  lemma AtLeastAsGoodIsPreorder(a: Parent, b: Parent, c: Parent)
    ensures AtLeastAsGood(a, a)
    ensures AtLeastAsGood(a, b) && AtLeastAsGood(b, c) ==> AtLeastAsGood(a, c)
    ensures AtLeastAsGood(a, b) || AtLeastAsGood(b, a)
  {
  }

  /**
   * Offer `p` as the parent of `c`: a child seen for the first time takes it, and a
   * recorded parent is replaced only by a better one. Whatever is kept is at least as good
   * as both the old parent and the candidate, so a recorded parent never gets worse.
   */
  function Record(table: map<Id, Parent>, c: Id, p: Parent): (r: map<Id, Parent>)
    ensures r.Keys == table.Keys + {c}
    ensures c !in table ==> r[c] == p
    ensures r[c] == p || (c in table && r[c] == table[c])
    ensures AtLeastAsGood(r[c], p) && (c in table ==> AtLeastAsGood(r[c], table[c]))
    ensures forall k :: k in table && k != c ==> r[k] == table[k]
  {
    if c !in table || IsBetterThan(p, table[c]) then table[c := p] else table
  }

  /** A `use` does not count towards depth: the depth grows only across other edges. */
  function ChildDepth(parentIsUse: bool, childIsUse: bool, depth: nat): (r: nat)
    ensures depth <= r <= depth + 1
    ensures r == depth <==> parentIsUse || childIsUse
  {
    if parentIsUse || childIsUse then depth else depth + 1
  }

  function NonEmptyNames(path: seq<string>): (r: seq<string>)
    ensures forall s :: s in r <==> s in path && s != ""
  {
    if path == [] then []
    else
      var rest := NonEmptyNames(path[..|path| - 1]);
      assert path == path[..|path| - 1] + [path[|path| - 1]];
      if path[|path| - 1] == "" then rest else rest + [path[|path| - 1]]
  }

  /** The path reported with the error: the non-empty names, root first, joined by `::`. */
  function ItemPath(path: seq<string>): string
  {
    Join(NonEmptyNames(path), "::")
  }

  /**
   * `parents_recurse` as a function: visit `parentId`, reached along `path` (the names of
   * the items above it, root first), at `depth`.
   */
  function Node(index: map<Id, SimpleItem>, table: map<Id, Parent>, parentId: Id, depth: nat,
                path: seq<string>): Outcome<map<Id, Parent>>
    requires |path| <= RecursionLimit + 1
    decreases RecursionLimit + 1 - |path|, 0, 0
  {
    if |path| > RecursionLimit then TooDeep(ItemPath(path))
    else if parentId !in index then Done(table)
    else
      var item := index[parentId];
      Kids(index, table, Parent(parentId, depth, KindOf(item.kind)), item.kind.Use?, item.children,
           path + [item.name])
  }

  /** The loop over the children `kids` of `parent`, each visited along `childPath`. */
  function Kids(index: map<Id, SimpleItem>, table: map<Id, Parent>, parent: Parent, parentIsUse: bool,
                kids: seq<Id>, childPath: seq<string>): Outcome<map<Id, Parent>>
    requires |childPath| <= RecursionLimit + 1
    decreases RecursionLimit + 1 - |childPath|, 1, |kids|
  {
    if kids == [] then Done(table)
    else if kids[0] !in index then Kids(index, table, parent, parentIsUse, kids[1..], childPath)
    else
      var c := kids[0];
      var depth := ChildDepth(parentIsUse, index[c].kind.Use?, parent.depth);
      match Node(index, Record(table, c, parent), c, depth, childPath)
      case TooDeep(p) => TooDeep(p)
      case Done(t) => Kids(index, t, parent, parentIsUse, kids[1..], childPath)
  }

  lemma KidsStep(index: map<Id, SimpleItem>, table: map<Id, Parent>, parent: Parent, parentIsUse: bool,
                 kids: seq<Id>, i: nat, childPath: seq<string>)
    requires |childPath| <= RecursionLimit + 1 && i < |kids|
    ensures kids[i] !in index ==>
      Kids(index, table, parent, parentIsUse, kids[i..], childPath) ==
      Kids(index, table, parent, parentIsUse, kids[i + 1..], childPath)
    ensures kids[i] in index ==>
      Kids(index, table, parent, parentIsUse, kids[i..], childPath) ==
      match Node(index, Record(table, kids[i], parent), kids[i],
                 ChildDepth(parentIsUse, index[kids[i]].kind.Use?, parent.depth), childPath)
      case TooDeep(p) => TooDeep(p)
      case Done(t) => Kids(index, t, parent, parentIsUse, kids[i + 1..], childPath)
  {
    assert kids[i..][0] == kids[i] && kids[i..][1..] == kids[i + 1..];
  }

  /** `parents_recurse`: the table is threaded through the loop over the children. */
  method ParentsRecurse(index: map<Id, SimpleItem>, table: map<Id, Parent>, parentId: Id, depth: nat,
                        path: seq<string>) returns (r: Outcome<map<Id, Parent>>)
    requires |path| <= RecursionLimit + 1
    ensures r == Node(index, table, parentId, depth, path)
    decreases RecursionLimit + 1 - |path|
  {
    if |path| > RecursionLimit {
      return TooDeep(ItemPath(path));
    }
    if parentId !in index {
      return Done(table);
    }
    var parentItem := index[parentId];
    var parentIsUse := parentItem.kind.Use?;
    var parent := Parent(parentId, depth, KindOf(parentItem.kind));
    var childPath := path + [parentItem.name];
    var kids := parentItem.children;
    var parents := table;
    for i := 0 to |kids|
      invariant Node(index, table, parentId, depth, path) ==
        Kids(index, parents, parent, parentIsUse, kids[i..], childPath)
    {
      var childId := kids[i];
      KidsStep(index, parents, parent, parentIsUse, kids, i, childPath);
      if childId !in index {
        continue;
      }
      if childId in parents {
        if IsBetterThan(parent, parents[childId]) {
          parents := parents[childId := parent];
        }
      } else {
        parents := parents[childId := parent];
      }
      var childIsUse := index[childId].kind.Use?;
      var childDepth := if parentIsUse || childIsUse then depth else depth + 1;
      var sub := ParentsRecurse(index, parents, childId, childDepth, childPath);
      if sub.TooDeep? {
        return sub;
      }
      parents := sub.value;
    }
    return Done(parents);
  }

  /** The parent ids of a finished table. */
  function Ids(table: map<Id, Parent>): (r: map<Id, Id>)
    ensures r.Keys == table.Keys
    ensures forall c :: c in r ==> r[c] == table[c].id
  {
    map c | c in table :: table[c].id
  }

  /** `parents`: the traversal from the crate root at depth 0 along the empty path. */
  function ParentsOf(index: map<Id, SimpleItem>, root: Id): Outcome<map<Id, Id>>
  {
    match Node(index, map[], root, 0, [])
    case TooDeep(p) => TooDeep(p)
    case Done(t) => Done(Ids(t))
  }

  method Parents(index: map<Id, SimpleItem>, root: Id) returns (r: Outcome<map<Id, Id>>)
    ensures r == ParentsOf(index, root)
  {
    var parents := ParentsRecurse(index, map[], root, 0, []);
    if parents.TooDeep? {
      return TooDeep(parents.itemPath);
    }
    return Done(Ids(parents.value));
  }

  // What the traversal guarantees about the table.

  /** Every recorded child is in the index and is a child of its recorded parent, whose
    * kind the entry reflects. */
  predicate Sound(index: map<Id, SimpleItem>, table: map<Id, Parent>)
  {
    forall c :: c in table ==>
      c in index && table[c].id in index && c in index[table[c].id].children &&
      table[c].kind == KindOf(index[table[c].id].kind)
  }

  /** Every recorded parent is the root or has been recorded as a child itself. */
  predicate Rooted(table: map<Id, Parent>, root: Id)
  {
    forall c :: c in table ==> table[c].id == root || table[c].id in table
  }

  /** The present children of `p` are recorded. */
  predicate ChildrenRecorded(index: map<Id, SimpleItem>, table: map<Id, Parent>, p: Id)
    requires p in index
  {
    forall k :: k in index[p].children && k in index ==> k in table
  }

  /** Every child recorded in `after` but not in `before` has its own children recorded. */
  predicate NewClosed(index: map<Id, SimpleItem>, before: map<Id, Parent>, after: map<Id, Parent>)
  {
    forall c :: c in after && c !in before ==> c in index && ChildrenRecorded(index, after, c)
  }

  lemma NewClosedGrow(index: map<Id, SimpleItem>, t0: map<Id, Parent>, t1: map<Id, Parent>, t2: map<Id, Parent>)
    requires t0.Keys <= t1.Keys <= t2.Keys
    requires NewClosed(index, t0, t1) && NewClosed(index, t1, t2)
    ensures NewClosed(index, t0, t2)
  {
  }

  lemma {:induction false} NodeInvariant(index: map<Id, SimpleItem>, table: map<Id, Parent>, p: Id, depth: nat,
                                         path: seq<string>, root: Id)
    requires |path| <= RecursionLimit + 1
    requires Sound(index, table) && Rooted(table, root) && (p == root || p in table)
    ensures Node(index, table, p, depth, path).Done? ==>
      var t := Node(index, table, p, depth, path).value;
      Sound(index, t) && Rooted(t, root) && table.Keys <= t.Keys && NewClosed(index, table, t) &&
      (p in index ==> ChildrenRecorded(index, t, p))
    decreases RecursionLimit + 1 - |path|, 0, 0
  {
    if |path| <= RecursionLimit && p in index {
      var item := index[p];
      KidsInvariant(index, table, Parent(p, depth, KindOf(item.kind)), item.kind.Use?, item.children,
                    path + [item.name], root);
    }
  }

  lemma {:induction false} KidsInvariant(index: map<Id, SimpleItem>, table: map<Id, Parent>, parent: Parent,
                                         parentIsUse: bool, kids: seq<Id>, childPath: seq<string>, root: Id)
    requires |childPath| <= RecursionLimit + 1
    requires Sound(index, table) && Rooted(table, root) && (parent.id == root || parent.id in table)
    requires parent.id in index && parent.kind == KindOf(index[parent.id].kind)
    requires forall k :: k in kids ==> k in index[parent.id].children
    ensures Kids(index, table, parent, parentIsUse, kids, childPath).Done? ==>
      var t := Kids(index, table, parent, parentIsUse, kids, childPath).value;
      Sound(index, t) && Rooted(t, root) && table.Keys <= t.Keys && NewClosed(index, table, t) &&
      (forall k :: k in kids && k in index ==> k in t)
    decreases RecursionLimit + 1 - |childPath|, 1, |kids|
  {
    if kids != [] {
      var c := kids[0];
      assert forall k :: k in kids[1..] ==> k in kids;
      if c !in index {
        KidsInvariant(index, table, parent, parentIsUse, kids[1..], childPath, root);
      } else {
        var t1 := Record(table, c, parent);
        var depth := ChildDepth(parentIsUse, index[c].kind.Use?, parent.depth);
        RecordKeeps(index, table, c, parent, root);
        NodeInvariant(index, t1, c, depth, childPath, root);
        var n := Node(index, t1, c, depth, childPath);
        if n.Done? {
          var t2 := n.value;
          KidsInvariant(index, t2, parent, parentIsUse, kids[1..], childPath, root);
          var k := Kids(index, t2, parent, parentIsUse, kids[1..], childPath);
          if k.Done? {
            KidsCombine(index, table, t1, t2, k.value, c, kids);
          }
        }
      }
    }
  }

  lemma RecordKeeps(index: map<Id, SimpleItem>, table: map<Id, Parent>, c: Id, parent: Parent, root: Id)
    requires Sound(index, table) && Rooted(table, root) && (parent.id == root || parent.id in table)
    requires c in index && parent.id in index && c in index[parent.id].children
    requires parent.kind == KindOf(index[parent.id].kind)
    ensures Sound(index, Record(table, c, parent)) && Rooted(Record(table, c, parent), root)
  {
  }

  /** The new keys of one loop step are `c`, whose children the visit of `c` recorded, and
    * the new keys of that visit and of the rest of the loop, which are closed already. */
  lemma KidsCombine(index: map<Id, SimpleItem>, table: map<Id, Parent>, t1: map<Id, Parent>,
                    t2: map<Id, Parent>, t: map<Id, Parent>, c: Id, kids: seq<Id>)
    requires kids != [] && kids[0] == c && c in index
    requires t1.Keys == table.Keys + {c} && t1.Keys <= t2.Keys <= t.Keys
    requires NewClosed(index, t1, t2) && ChildrenRecorded(index, t2, c)
    requires NewClosed(index, t2, t) && forall k :: k in kids[1..] && k in index ==> k in t
    ensures NewClosed(index, table, t) && forall k :: k in kids && k in index ==> k in t
  {
    assert forall k :: k in kids ==> k == c || k in kids[1..];
  }

  /**
   * What `parents` returns: each key is a present child of its value, each value is the
   * root or a key itself, the root's present children are keys, and so are the present
   * children of every key. The keys are therefore exactly the items reachable from the
   * root, apart from the root itself unless it lies on a cycle.
   */
  lemma ParentsSound(index: map<Id, SimpleItem>, root: Id)
    requires ParentsOf(index, root).Done?
    ensures var m := ParentsOf(index, root).value;
      (forall c :: c in m ==> c in index && m[c] in index && c in index[m[c]].children) &&
      (forall c :: c in m ==> m[c] == root || m[c] in m) &&
      (root in index ==> forall k :: k in index[root].children && k in index ==> k in m) &&
      (forall c, k :: c in m && k in index[c].children && k in index ==> k in m)
  {
    NodeInvariant(index, map[], root, 0, [], root);
  }

  /**
   * An item that is among its own children (a glob `use` that imports its own module,
   * say) makes any traversal that reaches it fail: each visit reaches it again one level
   * deeper, until the path is longer than the limit.
   */
  lemma {:induction false} SelfLoopTooDeep(index: map<Id, SimpleItem>, table: map<Id, Parent>, x: Id,
                                           depth: nat, path: seq<string>)
    requires |path| <= RecursionLimit + 1
    requires x in index && x in index[x].children
    ensures Node(index, table, x, depth, path).TooDeep?
    decreases RecursionLimit + 1 - |path|, 0, 0
  {
    if |path| <= RecursionLimit {
      var item := index[x];
      KidsReachSelf(index, table, Parent(x, depth, KindOf(item.kind)), item.kind.Use?, item.children,
                    path + [item.name], x);
    }
  }

  lemma {:induction false} KidsReachSelf(index: map<Id, SimpleItem>, table: map<Id, Parent>, parent: Parent,
                                         parentIsUse: bool, kids: seq<Id>, childPath: seq<string>, x: Id)
    requires |childPath| <= RecursionLimit + 1
    requires x in index && x in index[x].children && x in kids
    ensures Kids(index, table, parent, parentIsUse, kids, childPath).TooDeep?
    decreases RecursionLimit + 1 - |childPath|, 1, |kids|
  {
    var c := kids[0];
    if c !in index {
      KidsReachSelf(index, table, parent, parentIsUse, kids[1..], childPath, x);
    } else {
      var depth := ChildDepth(parentIsUse, index[c].kind.Use?, parent.depth);
      var n := Node(index, Record(table, c, parent), c, depth, childPath);
      if c == x {
        SelfLoopTooDeep(index, Record(table, c, parent), c, depth, childPath);
      } else if n.Done? {
        KidsReachSelf(index, n.value, parent, parentIsUse, kids[1..], childPath, x);
      }
    }
  }

  /** In the simple index, a glob `use` of the module that contains it is its own child,
    * so the traversal fails once it reaches that `use`. */
  lemma GlobSelfImportTooDeep(index: Index, useId: Id, moduleId: Id, table: map<Id, Parent>,
                              depth: nat, path: seq<string>)
    requires |path| <= RecursionLimit + 1
    requires useId in index && moduleId in index
    requires index[useId].inner == ItemEnum.Use(Some(moduleId), true)
    requires index[moduleId].inner.Module? && useId in index[moduleId].inner.items
    ensures Node(Simplify(index), table, useId, depth, path).TooDeep?
  {
    var simple := Simplify(index);
    assert |index| > 0;
    assert Children(index, index[useId], |index|) == index[moduleId].inner.items;
    SelfLoopTooDeep(simple, table, useId, depth, path);
  }
}
