/**
 * The parent table of the earlier generation of the resolver. One recursive traversal from
 * the crate root over the raw `.index` offers every child its current parent and keeps the
 * better one, by the same rule the newer resolver uses; unlike the newer one it has no
 * recursion limit, so it needs an acyclic item graph to stop. The table is then cleaned:
 * `use` children are dropped and `use` parents are replaced by their own recorded parents.
 */
module ChildToParent {
  import opened Wrappers
  import opened Rustdoc
  import SimpleIndex
  import IndexParents

  /** A candidate parent: its id, its depth (smaller is better), and whether it is a `use` without `#[doc(inline)]`. */
  datatype Parent = Parent(id: Id, depth: nat, isNonInlineUse: bool)

  predicate IsBetterThan(a: Parent, b: Parent)
  {
    if a.isNonInlineUse || b.isNonInlineUse then b.isNonInlineUse else a.depth < b.depth
  }

  /** The same candidate in the newer resolver's terms. */
  function AsIndexParent(p: Parent): (r: IndexParents.Parent)
    ensures r.id == p.id && r.depth == p.depth
    ensures r.kind == IndexParents.NonInlineUse <==> p.isNonInlineUse
  {
    IndexParents.Parent(p.id, p.depth, if p.isNonInlineUse then IndexParents.NonInlineUse else IndexParents.Other)
  }

  /** Both generations compare candidates by the same rule. */
  lemma SameRuleAsIndex(a: Parent, b: Parent)
    ensures IsBetterThan(a, b) <==> IndexParents.IsBetterThan(AsIndexParent(a), AsIndexParent(b))
  {
  }

  /**
   * The ids an item lists as its children. Unlike the newer resolver, a glob `use` is not
   * flattened: its one child is the module it imports.
   */
  function Children(item: Item): (r: seq<Id>)
  {
    match item.inner
    case Module(items) => items
    case ExternCrate => []
    case Use(target, _) => if target.Some? then [target.value] else []
    case Union(fields, impls) => fields + impls
    case Struct(kind, impls) =>
      (match kind
       case Unit => []
       case Tuple(ids) => Present(ids) + impls
       case Plain(fields) => fields + impls)
    case StructField => []
    case Enum(variants, impls) => variants + impls
    case Variant(kind) =>
      (match kind
       case PlainVariant => []
       case TupleVariant(ids) => Present(ids)
       case StructVariant(fields) => fields)
    case Function(_) => []
    case Trait(items, implementations) => items + implementations
    case TraitAlias => []
    case Impl(items) => items
    case TypeAlias => []
    case Constant => []
    case Static => []
    case ExternType => []
    case Macro => []
    case ProcMacro => []
    case Primitive(impls) => impls
    case AssocConst => []
    case AssocType => []
  }

  /** Apart from glob `use`s these are the children the newer resolver reads; a glob `use` has just its target. */
  lemma ChildrenAsSimple(index: Index, item: Item, fuel: nat)
    ensures !SimpleIndex.IsGlobUse(item.inner) ==> Children(item) == SimpleIndex.Children(index, item, fuel)
    ensures SimpleIndex.IsGlobUse(item.inner) ==>
      Children(item) == (if item.inner.target.Some? then [item.inner.target.value] else [])
  {
  }

  /**
   * A rank that grows from every child to its parent, bounded by the size of the index: it
   * exists exactly when the child graph of the index has no cycle.
   */
  ghost predicate Acyclic(index: Index, rank: map<Id, nat>)
  {
    forall p {:trigger Ranked(index, rank, p)} :: p in index ==> Ranked(index, rank, p)
  }

  /** The rank of `p` is below the size of the index and above the ranks of its children. */
  ghost predicate Ranked(index: Index, rank: map<Id, nat>, p: Id)
  {
    p in index ==>
      p in rank && rank[p] < |index| &&
      forall c :: c in Children(index[p]) && c in index ==> c in rank && rank[c] < rank[p]
  }

  ghost function RankOf(index: Index, rank: map<Id, nat>, p: Id): nat
  {
    if p in index && p in rank then rank[p] else 0
  }

  lemma ChildRank(index: Index, rank: map<Id, nat>, p: Id, c: Id)
    requires Acyclic(index, rank) && p in index && c in Children(index[p]) && c in index
    ensures RankOf(index, rank, c) < RankOf(index, rank, p) < |index|
  {
    assert Ranked(index, rank, p);
  }

  /**
   * Offer `p` as the parent of `c`: a child seen for the first time takes it, and a
   * recorded parent is replaced only by a better one.
   */
  function Record(table: map<Id, Parent>, c: Id, p: Parent): (r: map<Id, Parent>)
    ensures r.Keys == table.Keys + {c}
    ensures c !in table ==> r[c] == p
    ensures c in table ==> r[c] == (if IsBetterThan(p, table[c]) then p else table[c])
    ensures forall k :: k in table && k != c ==> r[k] == table[k]
  {
    if c !in table || IsBetterThan(p, table[c]) then table[c := p] else table
  }

  /** `child_to_parent_struct_build` as a function: visit `parentId` at `depth`. */
  ghost function Node(index: Index, table: map<Id, Parent>, parentId: Id, depth: nat, rank: map<Id, nat>): map<Id, Parent>
    requires Acyclic(index, rank)
    decreases RankOf(index, rank, parentId), 1, 0
  {
    if parentId !in index then table
    else
      var item := index[parentId];
      var isUse := item.inner.Use?;
      Kids(index, table, Parent(parentId, depth, isUse && !item.docInline), isUse, Children(item), rank)
  }

  /** The loop over the children `kids` of `parent`. */
  ghost function Kids(index: Index, table: map<Id, Parent>, parent: Parent, parentIsUse: bool, kids: seq<Id>,
                      rank: map<Id, nat>): map<Id, Parent>
    requires Acyclic(index, rank)
    requires parent.id in index && forall k :: k in kids ==> k in Children(index[parent.id])
    decreases RankOf(index, rank, parent.id), 0, |kids|
  {
    if kids == [] then table
    else if kids[0] !in index then Kids(index, table, parent, parentIsUse, kids[1..], rank)
    else
      var c := kids[0];
      ChildRank(index, rank, parent.id, c);
      var depth := IndexParents.ChildDepth(parentIsUse, index[c].inner.Use?, parent.depth);
      var t := Node(index, Record(table, c, parent), c, depth, rank);
      Kids(index, t, parent, parentIsUse, kids[1..], rank)
  }

  lemma KidsStep(index: Index, table: map<Id, Parent>, parent: Parent, parentIsUse: bool, kids: seq<Id>, i: nat,
                 rank: map<Id, nat>)
    requires Acyclic(index, rank) && i < |kids|
    requires parent.id in index && forall k :: k in kids ==> k in Children(index[parent.id])
    ensures forall k :: k in kids[i..] ==> k in Children(index[parent.id])
    ensures kids[i] !in index ==>
      Kids(index, table, parent, parentIsUse, kids[i..], rank) ==
      Kids(index, table, parent, parentIsUse, kids[i + 1..], rank)
    ensures kids[i] in index ==>
      Kids(index, table, parent, parentIsUse, kids[i..], rank) ==
      Kids(index, Node(index, Record(table, kids[i], parent), kids[i],
                       IndexParents.ChildDepth(parentIsUse, index[kids[i]].inner.Use?, parent.depth), rank),
           parent, parentIsUse, kids[i + 1..], rank)
  {
    assert kids[i..][0] == kids[i] && kids[i..][1..] == kids[i + 1..];
  }

  /**
   * `child_to_parent_struct_build`: the table is threaded through the loop over the children.
   * A child's visibility is worked out but never consulted.
   */
  method StructBuild(index: Index, table: map<Id, Parent>, parentId: Id, depth: nat, ghost rank: map<Id, nat>)
    returns (r: map<Id, Parent>)
    requires Acyclic(index, rank)
    ensures r == Node(index, table, parentId, depth, rank)
    decreases RankOf(index, rank, parentId)
  {
    if parentId !in index {
      return table;
    }
    var parentItem := index[parentId];
    var isTrait := parentItem.inner.Trait?;
    var isUse := parentItem.inner.Use?;
    var parent := Parent(parentId, depth, isUse && !parentItem.docInline);
    var kids := Children(parentItem);
    var parents := table;
    for i := 0 to |kids|
      invariant Node(index, table, parentId, depth, rank) == Kids(index, parents, parent, isUse, kids[i..], rank)
    {
      var childId := kids[i];
      KidsStep(index, parents, parent, isUse, kids, i, rank);
      if childId !in index {
        continue;
      }
      var childItem := index[childId];
      ChildRank(index, rank, parentId, childId);
      var isPublic := match childItem.visibility
        case Public => true
        case Default => isTrait
        case _ => false;
      if childId in parents {
        if IsBetterThan(parent, parents[childId]) {
          parents := parents[childId := parent];
        }
      } else {
        parents := parents[childId := parent];
      }
      // a use does not count towards the depth score
      var newDepth := if isUse || childItem.inner.Use? then depth else depth + 1;
      parents := StructBuild(index, parents, childId, newDepth, rank);
    }
    return parents;
  }

  /** Every recorded child is in the index and is a child of its recorded parent, whose kind the entry reflects. */
  ghost predicate Sound(index: Index, table: map<Id, Parent>)
  {
    forall c :: c in table ==>
      c in index && table[c].id in index && c in Children(index[table[c].id]) &&
      table[c].isNonInlineUse == (index[table[c].id].inner.Use? && !index[table[c].id].docInline)
  }

  lemma {:induction false} NodeSound(index: Index, table: map<Id, Parent>, p: Id, depth: nat, rank: map<Id, nat>)
    requires Acyclic(index, rank) && Sound(index, table)
    ensures Sound(index, Node(index, table, p, depth, rank))
    ensures table.Keys <= Node(index, table, p, depth, rank).Keys
    decreases RankOf(index, rank, p), 1, 0
  {
    if p in index {
      var item := index[p];
      var isUse := item.inner.Use?;
      KidsSound(index, table, Parent(p, depth, isUse && !item.docInline), isUse, Children(item), rank);
    }
  }

  lemma {:induction false} KidsSound(index: Index, table: map<Id, Parent>, parent: Parent, parentIsUse: bool,
                                     kids: seq<Id>, rank: map<Id, nat>)
    requires Acyclic(index, rank) && Sound(index, table)
    requires parent.id in index && forall k :: k in kids ==> k in Children(index[parent.id])
    requires parent.isNonInlineUse == (index[parent.id].inner.Use? && !index[parent.id].docInline)
    ensures Sound(index, Kids(index, table, parent, parentIsUse, kids, rank))
    ensures table.Keys <= Kids(index, table, parent, parentIsUse, kids, rank).Keys
    decreases RankOf(index, rank, parent.id), 0, |kids|
  {
    if kids != [] {
      assert forall k :: k in kids[1..] ==> k in kids;
      var c := kids[0];
      if c !in index {
        KidsSound(index, table, parent, parentIsUse, kids[1..], rank);
      } else {
        var t1 := Record(table, c, parent);
        assert Sound(index, t1);
        ChildRank(index, rank, parent.id, c);
        var depth := IndexParents.ChildDepth(parentIsUse, index[c].inner.Use?, parent.depth);
        NodeSound(index, t1, c, depth, rank);
        KidsSound(index, Node(index, t1, c, depth, rank), parent, parentIsUse, kids[1..], rank);
      }
    }
  }

  /** Two indexes that differ at most in the visibility of their items. */
  ghost predicate SameButVisibility(index: Index, other: Index)
  {
    index.Keys == other.Keys &&
    forall id :: id in index ==>
      index[id].name == other[id].name && index[id].inner == other[id].inner &&
      index[id].docInline == other[id].docInline
  }

  /** Visibility filters nothing: the traversal gives the same table whatever the items' visibility. */
  lemma {:induction false} NodeIgnoresVisibility(index: Index, other: Index, table: map<Id, Parent>, p: Id,
                                                 depth: nat, rank: map<Id, nat>)
    requires Acyclic(index, rank) && SameButVisibility(index, other)
    ensures Acyclic(other, rank)
    ensures Node(index, table, p, depth, rank) == Node(other, table, p, depth, rank)
    decreases RankOf(index, rank, p), 1, 0
  {
    assert |index| == |other| by { assert index.Keys == other.Keys; }
    assert forall q :: q in index ==> Children(index[q]) == Children(other[q]);
    forall q | q in other ensures Ranked(other, rank, q) {
      assert Ranked(index, rank, q);
    }
    if p in index {
      var item := index[p];
      var isUse := item.inner.Use?;
      KidsIgnoreVisibility(index, other, table, Parent(p, depth, isUse && !item.docInline), isUse, Children(item), rank);
    }
  }

  lemma {:induction false} KidsIgnoreVisibility(index: Index, other: Index, table: map<Id, Parent>, parent: Parent,
                                                parentIsUse: bool, kids: seq<Id>, rank: map<Id, nat>)
    requires Acyclic(index, rank) && SameButVisibility(index, other)
    requires parent.id in index && forall k :: k in kids ==> k in Children(index[parent.id])
    ensures Acyclic(other, rank) && parent.id in other && forall k :: k in kids ==> k in Children(other[parent.id])
    ensures Kids(index, table, parent, parentIsUse, kids, rank) == Kids(other, table, parent, parentIsUse, kids, rank)
    decreases RankOf(index, rank, parent.id), 0, |kids|
  {
    assert |index| == |other| by { assert index.Keys == other.Keys; }
    assert forall q :: q in index ==> Children(index[q]) == Children(other[q]);
    forall q | q in other ensures Ranked(other, rank, q) {
      assert Ranked(index, rank, q);
    }
    if kids != [] {
      assert forall k :: k in kids[1..] ==> k in kids;
      var c := kids[0];
      if c !in index {
        KidsIgnoreVisibility(index, other, table, parent, parentIsUse, kids[1..], rank);
      } else {
        var t1 := Record(table, c, parent);
        var depth := IndexParents.ChildDepth(parentIsUse, index[c].inner.Use?, parent.depth);
        ChildRank(index, rank, parent.id, c);
        NodeIgnoresVisibility(index, other, t1, c, depth, rank);
        KidsIgnoreVisibility(index, other, Node(index, t1, c, depth, rank), parent, parentIsUse, kids[1..], rank);
      }
    }
  }

  /**
   * The loop of `clean_map` for one recorded parent `p`: a `use` is replaced by its own
   * recorded parent, until the parent is not a `use` or is a `use` without a recorded parent.
   * Every step goes one rank up, so the loop stops.
   */
  ghost function Resolved(index: Index, table: map<Id, Parent>, rank: map<Id, nat>, p: Id): (r: Id)
    requires Acyclic(index, rank) && Sound(index, table) && p in index
    ensures r in index && !(index[r].inner.Use? && r in table)
    ensures !(index[p].inner.Use? && p in table) ==> r == p
    decreases |index| - RankOf(index, rank, p)
  {
    if index[p].inner.Use? && p in table then
      ChildRank(index, rank, table[p].id, p);
      Resolved(index, table, rank, table[p].id)
    else p
  }

  /** `clean_map`: the `use` children are gone and every parent is resolved past `use`s. */
  ghost function CleanMapOf(index: Index, table: map<Id, Parent>, rank: map<Id, nat>): (r: map<Id, Id>)
    requires Acyclic(index, rank) && Sound(index, table)
  {
    map c | c in table && !index[c].inner.Use? :: Resolved(index, table, rank, table[c].id)
  }

  /** The keys are exactly the recorded children that are not `use`s, and no value is a `use` with a recorded parent. */
  lemma CleanMapShape(index: Index, table: map<Id, Parent>, rank: map<Id, nat>)
    requires Acyclic(index, rank) && Sound(index, table)
    ensures forall c :: c in CleanMapOf(index, table, rank) <==> c in table && !index[c].inner.Use?
    ensures forall c :: c in CleanMapOf(index, table, rank) ==>
      var p := CleanMapOf(index, table, rank)[c];
      p in index && !(index[p].inner.Use? && p in table)
  {
  }

  /** The entries of the cleaned map for the first children of an enumeration. */
  ghost function CleanedFor(index: Index, table: map<Id, Parent>, rank: map<Id, nat>, keys: seq<Id>): map<Id, Id>
    requires Acyclic(index, rank) && Sound(index, table)
  {
    map c | c in keys && c in table && !index[c].inner.Use? :: Resolved(index, table, rank, table[c].id)
  }

  lemma CleanedStep(index: Index, table: map<Id, Parent>, rank: map<Id, nat>, keys: seq<Id>, c: Id)
    requires Acyclic(index, rank) && Sound(index, table) && c in table
    ensures index[c].inner.Use? ==> CleanedFor(index, table, rank, keys + [c]) == CleanedFor(index, table, rank, keys)
    ensures !index[c].inner.Use? ==>
      CleanedFor(index, table, rank, keys + [c]) ==
      CleanedFor(index, table, rank, keys)[c := Resolved(index, table, rank, table[c].id)]
  {
  }

  lemma CleanedAll(index: Index, table: map<Id, Parent>, rank: map<Id, nat>, keys: seq<Id>)
    requires Acyclic(index, rank) && Sound(index, table) && Enumerates(keys, table.Keys)
    ensures CleanedFor(index, table, rank, keys) == CleanMapOf(index, table, rank)
  {
  }

  /** The inner loop of `clean_map`. */
  method ResolveUse(index: Index, table: map<Id, Parent>, ghost rank: map<Id, nat>, start: Id) returns (p: Id)
    requires Acyclic(index, rank) && Sound(index, table) && start in index
    ensures p == Resolved(index, table, rank, start)
  {
    p := start;
    while index[p].inner.Use? && p in table
      invariant p in index && Resolved(index, table, rank, p) == Resolved(index, table, rank, start)
      decreases |index| - RankOf(index, rank, p)
    {
      ChildRank(index, rank, table[p].id, p);
      p := table[p].id;
    }
  }

  /** `clean_map`, over an enumeration `keys` of the table's children. */
  method CleanMap(index: Index, table: map<Id, Parent>, keys: seq<Id>, ghost rank: map<Id, nat>)
    returns (r: map<Id, Id>)
    requires Acyclic(index, rank) && Sound(index, table) && Enumerates(keys, table.Keys)
    ensures r == CleanMapOf(index, table, rank)
  {
    r := map[];
    for i := 0 to |keys|
      invariant r == CleanedFor(index, table, rank, keys[..i])
    {
      var childId := keys[i];
      assert keys[..i + 1] == keys[..i] + [childId];
      CleanedStep(index, table, rank, keys[..i], childId);
      if index[childId].inner.Use? {
        continue;
      }
      var parentId := ResolveUse(index, table, rank, table[childId].id);
      r := r[childId := parentId];
    }
    assert keys[..|keys|] == keys;
    CleanedAll(index, table, rank, keys);
  }

  /** `child_to_parent`: the cleaned table of the traversal from the crate root at depth 0. */
  ghost function ChildToParentOf(index: Index, root: Id, rank: map<Id, nat>): (r: map<Id, Id>)
    requires Acyclic(index, rank)
    ensures forall c :: c in r ==> c in index && !index[c].inner.Use? && r[c] in index
  {
    NodeSound(index, map[], root, 0, rank);
    var table := Node(index, map[], root, 0, rank);
    CleanMapShape(index, table, rank);
    CleanMapOf(index, table, rank)
  }

  method ChildToParent(index: Index, root: Id, ghost rank: map<Id, nat>) returns (r: map<Id, Id>)
    requires Acyclic(index, rank)
    ensures r == ChildToParentOf(index, root, rank)
  {
    var table := StructBuild(index, map[], root, 0, rank);
    NodeSound(index, map[], root, 0, rank);
    var keys := KeysOf(table.Keys);
    r := CleanMap(index, table, keys, rank);
  }

  /**
   * The keys of a table, one by one. A `BTreeMap` visits them in increasing order; every
   * child is written once under its own key, so the cleaned map does not depend on the order.
   */
  method KeysOf(s: set<Id>) returns (keys: seq<Id>)
    ensures Enumerates(keys, s) && |keys| == |s|
  {
    keys := [];
    var rest := s;
    while rest != {}
      invariant rest <= s && (forall k :: k in keys <==> k in s && k !in rest)
      invariant |keys| + |rest| == |s|
      decreases rest
    {
      var k :| k in rest;
      keys := keys + [k];
      rest := rest - {k};
    }
  }

  // The re-exports of the test crate: a plain `use` of `reexport::Reexport` and an inline
  // `use` of `reexport_inline::ReexportInline`, both at the crate root (the deeper inline
  // re-export under `very::nested::module` is left out).

  // Names play no part in the traversal; the items are, in order: the crate root, the `use`
  // of `Reexport`, the struct `Reexport`, the module `reexport`, the inline `use` of
  // `ReexportInline`, the struct `ReexportInline` and the module `reexport_inline`.
  const Fixture: Index := map[
    0 := Item(None, ItemEnum.Module([1, 3, 4, 6]), false, Public),
    1 := Item(None, ItemEnum.Use(Some(2), false), false, Public),
    2 := Item(None, ItemEnum.Struct(Unit, []), false, Public),
    3 := Item(None, ItemEnum.Module([2]), false, Public),
    4 := Item(None, ItemEnum.Use(Some(5), false), true, Public),
    5 := Item(None, ItemEnum.Struct(Unit, []), false, Public),
    6 := Item(None, ItemEnum.Module([5]), false, Public)]

  const FixtureRank: map<Id, nat> := map[0 := 2, 1 := 1, 2 := 0, 3 := 1, 4 := 1, 5 := 0, 6 := 1]

  const Root := Parent(0, 0, false)
  const UseParent := Parent(1, 0, true)
  const ModuleParent := Parent(3, 1, false)
  const InlineParent := Parent(4, 0, false)

  // The table after each visit, in traversal order.
  const T1: map<Id, Parent> := map[1 := Root]
  const T2 := T1[2 := UseParent]
  const T3 := T2[3 := Root]
  const T4 := T3[2 := ModuleParent]
  const T5 := T4[4 := Root]
  const T6 := T5[5 := InlineParent]
  const FixtureTable := T6[6 := Root]

  lemma FixtureAcyclic()
    ensures Acyclic(Fixture, FixtureRank)
  {
    forall p | p in Fixture ensures Ranked(Fixture, FixtureRank, p) {
      FixtureRanked(p);
    }
  }

  lemma FixtureSize()
    ensures |Fixture| == 7
  {
    assert Fixture.Keys == {0, 1, 2, 3, 4, 5, 6};
  }

  lemma FixtureRanked(p: Id)
    ensures Ranked(Fixture, FixtureRank, p)
  {
    FixtureSize();
    if p == 0 {
      assert Children(Fixture[0]) == [1, 3, 4, 6];
    } else if p == 1 || p == 3 {
      assert Children(Fixture[p]) == [2];
    } else if p == 4 || p == 6 {
      assert Children(Fixture[p]) == [5];
    } else if p == 2 || p == 5 {
      assert Children(Fixture[p]) == [];
    } else {
      assert p !in Fixture;
    }
  }

  /** A unit struct has no children: visiting it changes nothing. */
  lemma FixtureStructs(table: map<Id, Parent>, depth: nat)
    requires Acyclic(Fixture, FixtureRank)
    ensures Node(Fixture, table, 2, depth, FixtureRank) == table
    ensures Node(Fixture, table, 5, depth, FixtureRank) == table
  {
    assert Children(Fixture[2]) == [] && Children(Fixture[5]) == [];
  }

  /** The plain `use` records the struct under itself. */
  lemma FixtureUse()
    requires Acyclic(Fixture, FixtureRank)
    ensures Node(Fixture, T1, 1, 0, FixtureRank) == T2
  {
    assert Children(Fixture[1]) == [2];
    FixtureStructs(T2, 0);
    assert [2][1..] == [];
  }

  /** The module `reexport` takes the struct over from the non-inline `use`. */
  lemma FixtureModule()
    requires Acyclic(Fixture, FixtureRank)
    ensures Node(Fixture, T3, 3, 1, FixtureRank) == T4
  {
    assert Children(Fixture[3]) == [2];
    assert Record(T3, 2, ModuleParent) == T4;
    FixtureStructs(T4, 2);
    assert [2][1..] == [];
  }

  /** The inline `use` records the struct it re-exports under itself. */
  lemma FixtureInlineUse()
    requires Acyclic(Fixture, FixtureRank)
    ensures Node(Fixture, T5, 4, 0, FixtureRank) == T6
  {
    assert Children(Fixture[4]) == [5];
    FixtureStructs(T6, 0);
    assert [5][1..] == [];
  }

  /** An inline `use` is not a non-inline one, so it keeps the struct against the deeper module. */
  lemma FixtureInlineModule()
    requires Acyclic(Fixture, FixtureRank)
    ensures Node(Fixture, FixtureTable, 6, 1, FixtureRank) == FixtureTable
  {
    assert Children(Fixture[6]) == [5];
    assert Record(FixtureTable, 5, Parent(6, 1, false)) == FixtureTable;
    FixtureStructs(FixtureTable, 2);
    assert [5][1..] == [];
  }

  /** The loop over the root's children. */
  lemma FixtureRootLoop()
    requires Acyclic(Fixture, FixtureRank)
    ensures Kids(Fixture, map[], Root, false, [1, 3, 4, 6], FixtureRank) == FixtureTable
  {
    FixtureRootFirst();
    FixtureRootSecond();
    FixtureRootLoopEnd();
  }

  lemma FixtureRootFirst()
    requires Acyclic(Fixture, FixtureRank)
    ensures Kids(Fixture, map[], Root, false, [1, 3, 4, 6], FixtureRank) == Kids(Fixture, T2, Root, false, [3, 4, 6], FixtureRank)
  {
    assert Record(map[], 1, Root) == T1;
    FixtureUse();
    assert [1, 3, 4, 6][1..] == [3, 4, 6];
  }

  lemma FixtureRootSecond()
    requires Acyclic(Fixture, FixtureRank)
    ensures Kids(Fixture, T2, Root, false, [3, 4, 6], FixtureRank) == Kids(Fixture, T4, Root, false, [4, 6], FixtureRank)
  {
    assert Record(T2, 3, Root) == T3;
    FixtureModule();
    assert [3, 4, 6][1..] == [4, 6];
  }

  lemma FixtureRootLoopEnd()
    requires Acyclic(Fixture, FixtureRank)
    ensures Kids(Fixture, T4, Root, false, [4, 6], FixtureRank) == FixtureTable
  {
    FixtureRootThird();
    assert Record(T6, 6, Root) == FixtureTable;
    FixtureInlineModule();
    assert [6][1..] == [];
  }

  lemma FixtureRootThird()
    requires Acyclic(Fixture, FixtureRank)
    ensures Kids(Fixture, T4, Root, false, [4, 6], FixtureRank) == Kids(Fixture, T6, Root, false, [6], FixtureRank)
  {
    assert Record(T4, 4, Root) == T5;
    FixtureInlineUse();
    assert [4, 6][1..] == [6];
  }

  /** The traversal of the fixture from its root. */
  lemma FixtureTraversal()
    ensures Acyclic(Fixture, FixtureRank)
    ensures Node(Fixture, map[], 0, 0, FixtureRank) == FixtureTable
  {
    FixtureAcyclic();
    assert Children(Fixture[0]) == [1, 3, 4, 6];
    FixtureRootLoop();
  }

  lemma FixtureKinds()
    ensures FixtureTable.Keys == {1, 2, 3, 4, 5, 6} && Fixture.Keys == {0, 1, 2, 3, 4, 5, 6}
    ensures Fixture[1].inner.Use? && Fixture[4].inner.Use?
    ensures !Fixture[0].inner.Use? && !Fixture[2].inner.Use? && !Fixture[3].inner.Use?
    ensures !Fixture[5].inner.Use? && !Fixture[6].inner.Use?
  {
  }

  lemma FixtureResolved()
    requires Acyclic(Fixture, FixtureRank) && Sound(Fixture, FixtureTable)
    ensures Resolved(Fixture, FixtureTable, FixtureRank, 0) == 0
    ensures Resolved(Fixture, FixtureTable, FixtureRank, 3) == 3
    ensures Resolved(Fixture, FixtureTable, FixtureRank, 4) == 0
  {
    FixtureKinds();
    assert FixtureTable[4].id == 0;
  }

  lemma FixtureCleaned()
    requires Acyclic(Fixture, FixtureRank) && Sound(Fixture, FixtureTable)
    ensures var m := CleanMapOf(Fixture, FixtureTable, FixtureRank);
      1 !in m && 4 !in m && 2 in m && 3 in m && 5 in m && 6 in m &&
      m[2] == 3 && m[3] == 0 && m[5] == 0 && m[6] == 0
  {
    FixtureKinds();
    FixtureResolved();
    assert FixtureTable[2].id == 3 && FixtureTable[3].id == 0 && FixtureTable[5].id == 4 && FixtureTable[6].id == 0;
  }

  /**
   * The test's expectation: `Reexport` sits under the `reexport` module, and
   * `ReexportInline` directly under the crate root; the `use`s themselves are gone.
   */
  lemma FixtureReexports()
    ensures Acyclic(Fixture, FixtureRank)
    ensures var m := ChildToParentOf(Fixture, 0, FixtureRank);
      1 !in m && 4 !in m && 2 in m && 3 in m && 5 in m && 6 in m &&
      m[2] == 3 && m[3] == 0 && m[5] == 0 && m[6] == 0
  {
    FixtureTraversal();
    NodeSound(Fixture, map[], 0, 0, FixtureRank);
    FixtureCleaned();
  }
}
