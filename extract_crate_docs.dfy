/**
 * The earlier generation of the resolver, `extract_crate_docs`: it looks an id up in the
 * crate's index or in `.paths`, climbs the child-to-parent map (and, from a summary, the
 * summary's own path), fuses an impl and its function into a method, and turns the path
 * into a URL; `extract` then rewrites the crate documentation's links to those URLs.
 */
module CrateDocs {
  import opened Wrappers
  import opened Seqs
  import opened Text
  import opened StringReplacing
  import Rustdoc
  import PathItems
  import Resolver
  import IndexTree
  import PathsTree
  import Markdown

  type Id = Rustdoc.Id

  /** The kinds of index items, then the three only summaries have, then the inferred `Method`. */
  datatype BasicItemKind =
    | Module | ExternCrate | Use | Union | Struct | StructField | Enum | Variant | Function
    | Trait | TraitAlias | Impl | TypeAlias | Constant | Static | ExternType | Macro | ProcMacro
    | Primitive | AssocConst | AssocType
    | ProcAttribute | ProcDerive | Keyword
    | Method

  predicate SummaryOnly(kind: BasicItemKind)
  {
    kind.ProcAttribute? || kind.ProcDerive? || kind.Keyword?
  }

  /** `From<&Item>`: one kind per `ItemEnum` variant. */
  function KindOfItem(inner: Rustdoc.ItemEnum): (r: BasicItemKind)
    ensures !SummaryOnly(r) && !r.Method?
    ensures r.Use? <==> inner.Use?
    ensures r.Impl? <==> inner.Impl?
    ensures r.Function? <==> inner.Function?
    ensures r.Module? <==> inner.Module?
  {
    match inner
    case Module(_) => Module
    case ExternCrate => ExternCrate
    case Use(_, _) => Use
    case Union(_, _) => Union
    case Struct(_, _) => Struct
    case StructField => StructField
    case Enum(_, _) => Enum
    case Variant(_) => Variant
    case Function(_) => Function
    case Trait(_, _) => Trait
    case TraitAlias => TraitAlias
    case Impl(_) => Impl
    case TypeAlias => TypeAlias
    case Constant => Constant
    case Static => Static
    case ExternType => ExternType
    case Macro => Macro
    case ProcMacro => ProcMacro
    case Primitive(_) => Primitive
    case AssocConst => AssocConst
    case AssocType => AssocType
  }

  /** The summary kind a basic kind stands for; only `Method` stands for none. */
  function SummaryKind(kind: BasicItemKind): (r: Option<Rustdoc.ItemKind>)
  {
    match kind
    case Module => Some(Rustdoc.ItemKind.Module)
    case ExternCrate => Some(Rustdoc.ItemKind.ExternCrate)
    case Use => Some(Rustdoc.ItemKind.Use)
    case Union => Some(Rustdoc.ItemKind.Union)
    case Struct => Some(Rustdoc.ItemKind.Struct)
    case StructField => Some(Rustdoc.ItemKind.StructField)
    case Enum => Some(Rustdoc.ItemKind.Enum)
    case Variant => Some(Rustdoc.ItemKind.Variant)
    case Function => Some(Rustdoc.ItemKind.Function)
    case Trait => Some(Rustdoc.ItemKind.Trait)
    case TraitAlias => Some(Rustdoc.ItemKind.TraitAlias)
    case Impl => Some(Rustdoc.ItemKind.Impl)
    case TypeAlias => Some(Rustdoc.ItemKind.TypeAlias)
    case Constant => Some(Rustdoc.ItemKind.Constant)
    case Static => Some(Rustdoc.ItemKind.Static)
    case ExternType => Some(Rustdoc.ItemKind.ExternType)
    case Macro => Some(Rustdoc.ItemKind.Macro)
    case ProcMacro => None
    case Primitive => Some(Rustdoc.ItemKind.Primitive)
    case AssocConst => Some(Rustdoc.ItemKind.AssocConst)
    case AssocType => Some(Rustdoc.ItemKind.AssocType)
    case ProcAttribute => Some(Rustdoc.ItemKind.ProcAttribute)
    case ProcDerive => Some(Rustdoc.ItemKind.ProcDerive)
    case Keyword => Some(Rustdoc.ItemKind.Keyword)
    case Method => None
  }

  /** `From<ItemKind>`: it loses nothing, since `SummaryKind` takes every result back. */
  function KindOfSummary(kind: Rustdoc.ItemKind): (r: BasicItemKind)
    ensures SummaryKind(r) == Some(kind)
    ensures !r.Method? && !r.ProcMacro?
  {
    match kind
    case Module => Module
    case ExternCrate => ExternCrate
    case Use => Use
    case Struct => Struct
    case StructField => StructField
    case Union => Union
    case Enum => Enum
    case Variant => Variant
    case Function => Function
    case TypeAlias => TypeAlias
    case Constant => Constant
    case Trait => Trait
    case TraitAlias => TraitAlias
    case Impl => Impl
    case Static => Static
    case ExternType => ExternType
    case Macro => Macro
    case ProcAttribute => ProcAttribute
    case ProcDerive => ProcDerive
    case AssocConst => AssocConst
    case AssocType => AssocType
    case Primitive => Primitive
    case Keyword => Keyword
  }

  /** The `Debug` name of a kind. */
  function DebugName(kind: BasicItemKind): string
  {
    match kind
    case Module => "Module"
    case ExternCrate => "ExternCrate"
    case Use => "Use"
    case Union => "Union"
    case Struct => "Struct"
    case StructField => "StructField"
    case Enum => "Enum"
    case Variant => "Variant"
    case Function => "Function"
    case Trait => "Trait"
    case TraitAlias => "TraitAlias"
    case Impl => "Impl"
    case TypeAlias => "TypeAlias"
    case Constant => "Constant"
    case Static => "Static"
    case ExternType => "ExternType"
    case Macro => "Macro"
    case ProcMacro => "ProcMacro"
    case Primitive => "Primitive"
    case AssocConst => "AssocConst"
    case AssocType => "AssocType"
    case ProcAttribute => "ProcAttribute"
    case ProcDerive => "ProcDerive"
    case Keyword => "Keyword"
    case Method => "Method"
  }

  function UnexpectedPathSegment(kind: BasicItemKind, name: string): string
  {
    "encountered unexpected url path segment '" + DebugName(kind) + "' with the name '" + name + "'\n"
      + "This is a bug! please report it at:\n"
      + "https://github.com/bluurryy/cargo-insert-docs"
  }

  /** The kinds that have no place in a URL. */
  predicate IsUnexpected(kind: BasicItemKind)
  {
    kind.ExternCrate? || kind.Keyword?
  }

  /** The kind of the newer resolver's path items a basic kind becomes; `use`s, impls, extern crates and keywords become none. */
  function AsPathKind(kind: BasicItemKind): (r: Option<PathItems.Kind>)
    ensures r.None? <==> IsUnexpected(kind) || kind.Use? || kind.Impl?
    ensures r == Some(PathItems.Kind.Module) <==> kind.Module?
  {
    match kind
    case Module => Some(PathItems.Kind.Module)
    case ExternCrate => None
    case Use => None
    case Union => Some(PathItems.Kind.Union)
    case Struct => Some(PathItems.Kind.Struct)
    case StructField => Some(PathItems.Kind.StructField)
    case Enum => Some(PathItems.Kind.Enum)
    case Variant => Some(PathItems.Kind.Variant)
    case Function => Some(PathItems.Kind.Function)
    case Trait => Some(PathItems.Kind.Trait)
    case TraitAlias => Some(PathItems.Kind.TraitAlias)
    case Impl => None
    case TypeAlias => Some(PathItems.Kind.TypeAlias)
    case Constant => Some(PathItems.Kind.Constant)
    case Static => Some(PathItems.Kind.Static)
    case ExternType => Some(PathItems.Kind.ExternType)
    case Macro => Some(PathItems.Kind.Macro)
    case ProcMacro => Some(PathItems.Kind.ProcMacro)
    case Primitive => Some(PathItems.Kind.Primitive)
    case AssocConst => Some(PathItems.Kind.AssocConst)
    case AssocType => Some(PathItems.Kind.AssocType)
    case ProcAttribute => Some(PathItems.Kind.ProcAttribute)
    case ProcDerive => Some(PathItems.Kind.ProcDerive)
    case Keyword => None
    case Method => Some(PathItems.Kind.Method)
  }

  /**
   * `to_path_segment`: the URL piece of an item below the crate. Its table of formats is
   * the newer resolver's `url_path_segment`, word for word, for every kind that has a
   * page or an anchor; those are taken from there.
   */
  function ToPathSegment(kind: BasicItemKind, name: string): (r: Result<string>)
    ensures r.Err? <==> IsUnexpected(kind)
    ensures r.Err? ==> r.error == UnexpectedPathSegment(kind, name)
    ensures kind.Use? || kind.Impl? ==> r == Ok("")
    ensures kind.Module? ==> r == Ok(name + "/")
    ensures AsPathKind(kind).Some? && !kind.Module? ==>
      r.Ok? && (EndsWith(r.value, "." + name) || EndsWith(r.value, "." + name + ".html"))
  {
    match AsPathKind(kind)
    case Some(k) =>
      var item := PathItems.PathItem(name, k);
      PathItems.UrlPathSegmentShape(item);
      Ok(PathItems.UrlPathSegment(item))
    case None => if IsUnexpected(kind) then Err(UnexpectedPathSegment(kind, name)) else Ok("")
  }

  /** `pop`: all but the last element, or nothing for an empty slice. */
  function Pop<T>(s: seq<T>): (r: Option<seq<T>>)
    ensures r.None? <==> s == []
    ensures r.Some? ==> |r.value| == |s| - 1 && r.value + [s[|s| - 1]] == s
  {
    if s == [] then None else Some(s[..|s| - 1])
  }

  /** Popping undoes a push. */
  lemma PopPush<T>(s: seq<T>, x: T)
    ensures Pop(s + [x]) == Some(s)
  {
    assert (s + [x])[..|s|] == s;
  }

  datatype NameKind = NameKind(name: string, kind: BasicItemKind)

  /** An impl directly followed by one of its functions, at `i`. */
  predicate ImplFunctionAt(path: seq<NameKind>, i: nat)
  {
    i + 1 < |path| && path[i].kind == Impl && path[i + 1].kind == Function
  }

  /** The first impl-function pair at `from` or later. */
  function FirstImplFunction(path: seq<NameKind>, from: nat): (r: Option<nat>)
    ensures r.Some? ==> from <= r.value && ImplFunctionAt(path, r.value)
    ensures r.Some? ==> forall j :: from <= j < r.value ==> !ImplFunctionAt(path, j)
    ensures r.None? ==> forall j :: from <= j ==> !ImplFunctionAt(path, j)
    decreases |path| - from
  {
    if from + 1 >= |path| then None
    else if ImplFunctionAt(path, from) then Some(from)
    else FirstImplFunction(path, from + 1)
  }

  /**
   * `fuse_impl_function_to_method`: the first impl-function pair becomes one method named
   * after the function; every other entry stays where it is.
   */
  function Fused(path: seq<NameKind>): (r: seq<NameKind>)
    ensures (forall j :: 0 <= j < |path| ==> !ImplFunctionAt(path, j)) ==> r == path
    ensures forall i :: 0 <= i < |path| && ImplFunctionAt(path, i) && (forall j :: 0 <= j < i ==> !ImplFunctionAt(path, j)) ==>
      |r| == |path| - 1 && r == path[..i] + [NameKind(path[i + 1].name, Method)] + path[i + 2..]
  {
    match FirstImplFunction(path, 0)
    case None => path
    case Some(i) => path[..i] + [NameKind(path[i + 1].name, Method)] + path[i + 2..]
  }

  /** `fuse_impl_function_to_method` as the source runs it: a search over windows of two, then a splice. */
  method FuseImplFunctionToMethod(path: seq<NameKind>) returns (r: seq<NameKind>)
    ensures r == Fused(path)
  {
    var i := 0;
    while i + 1 < |path|
      invariant i <= |path|
      invariant forall j :: 0 <= j < i ==> !ImplFunctionAt(path, j)
    {
      if path[i].kind == Impl && path[i + 1].kind == Function {
        var name := path[i + 1].name;
        r := path[..i] + [NameKind(name, Method)] + path[i + 2..];
        return;
      }
      i := i + 1;
    }
    r := path;
  }

  /** Where an item's parent is read from: the child-to-parent map, or a summary's own path. */
  datatype ParentRef = ParentId(id: Id) | ParentPath(path: seq<string>)

  datatype BasicItem = BasicItem(name: string, kind: BasicItemKind, parent: Option<ParentRef>)

  /**
   * `Resolve`: the crate's index and summaries, the child-to-parent map, the kind of every
   * summary path, and what `crate_doc_url` reads from the metadata and the options.
   */
  datatype Resolve = Resolve(
    index: Rustdoc.Index,
    paths: Rustdoc.Paths,
    childToParent: map<Id, Id>,
    pathToKind: map<seq<string>, Rustdoc.ItemKind>,
    metadata: Resolver.Metadata,
    crateToPackage: map<string, Resolver.Package>,
    options: Resolver.Options)

  const DanglingId := "rustdoc produced dangling id?"

  /**
   * `crate_doc_url` is the same text in both generations and reads neither tree, so it is
   * the newer resolver's function over this resolver's metadata.
   */
  function CrateDocUrl(r: Resolve, name: string): string
  {
    Resolver.CrateDocUrl(
      Resolver.Resolver(r.metadata, IndexTree.Tree(map[]), PathsTree.Tree(map[], map[]), r.crateToPackage, r.options),
      name)
  }

  function LastOr(path: seq<string>): string
  {
    if path == [] then "" else path[|path| - 1]
  }

  /** The parent `item` gives a summary, as written: a one-segment path gets the empty path as its parent. */
  function SummaryParentAsWritten(path: seq<string>): (r: Option<ParentRef>)
    ensures r.Some? <==> path != []
    ensures r.Some? ==> r.value.ParentPath? && r.value.path + [LastOr(path)] == path
    ensures |path| == 1 ==> r == Some(ParentPath([]))
  {
    match Pop(path)
    case None => None
    case Some(p) => Some(ParentPath(p))
  }

  /** The parent of a summary: its path without the last segment, and none for a crate's root. */
  function SummaryParent(path: seq<string>): (r: Option<ParentRef>)
    ensures r.Some? <==> |path| > 1
    ensures r.Some? ==> r.value.ParentPath? && r.value.path != [] && r.value.path + [LastOr(path)] == path
  {
    match Pop(path)
    case None => None
    case Some(p) => if p == [] then None else Some(ParentPath(p))
  }

  /** `item` with the summary parent given by `parent`. */
  function ItemWith(r: Resolve, id: Id, asWritten: bool): Result<BasicItem>
  {
    if id in r.index then
      var item := r.index[id];
      Ok(BasicItem(
        if item.name.Some? then item.name.value else "",
        KindOfItem(item.inner),
        if id in r.childToParent then Some(ParentId(r.childToParent[id])) else None))
    else if id in r.paths then
      var summary := r.paths[id];
      Ok(BasicItem(
        LastOr(summary.path),
        KindOfSummary(summary.kind),
        if asWritten then SummaryParentAsWritten(summary.path) else SummaryParent(summary.path)))
    else Err(DanglingId)
  }

  /**
   * `item`: the index first, then the summaries, and otherwise a dangling id. An index
   * item's parent is the recorded one; a summary's parent is the path it lies under.
   */
  function ItemOf(r: Resolve, id: Id): (res: Result<BasicItem>)
    ensures res.Err? <==> id !in r.index && id !in r.paths
    ensures res.Err? ==> res.error == DanglingId
    ensures id in r.index ==> res.value.kind == KindOfItem(r.index[id].inner)
    ensures id in r.index ==> (res.value.parent.Some? <==> id in r.childToParent)
    ensures id in r.index && id in r.childToParent ==> res.value.parent == Some(ParentId(r.childToParent[id]))
    ensures id !in r.index && id in r.paths ==>
      res.value.kind == KindOfSummary(r.paths[id].kind) &&
      (res.value.parent.Some? <==> |r.paths[id].path| > 1) &&
      (res.value.parent.Some? ==>
         res.value.parent.value.ParentPath? && res.value.parent.value.path + [res.value.name] == r.paths[id].path)
  {
    ItemWith(r, id, false)
  }

  /** `item` as written. */
  function ItemAsWritten(r: Resolve, id: Id): Result<BasicItem>
  {
    ItemWith(r, id, true)
  }

  /** The kind a summary path is linked as: its summary's kind, or `Module` when no summary has that path. */
  function KindAt(r: Resolve, path: seq<string>): BasicItemKind
  {
    if path in r.pathToKind then KindOfSummary(r.pathToKind[path]) else Module
  }

  /** The entries the inner loop of `item_path` pushes for a summary parent: it pushes, pops, and stops once the path is empty. */
  function Expand(r: Resolve, path: seq<string>): (es: seq<NameKind>)
    decreases |path|
  {
    [NameKind(LastOr(path), KindAt(r, path))] + if |path| <= 1 then [] else Expand(r, path[..|path| - 1])
  }

  /** A non-empty parent path gives one entry per segment. */
  lemma {:induction false} ExpandLength(r: Resolve, path: seq<string>)
    requires path != []
    ensures |Expand(r, path)| == |path|
    decreases |path|
  {
    if |path| > 1 {
      ExpandLength(r, path[..|path| - 1]);
    }
  }

  /** Entry `k` names segment `|path| - 1 - k`, last segment first, with the kind recorded for the prefix ending there. */
  lemma {:induction false} ExpandAt(r: Resolve, path: seq<string>, k: nat)
    requires k < |path|
    ensures |Expand(r, path)| == |path|
    ensures Expand(r, path)[k] == NameKind(path[|path| - 1 - k], KindAt(r, path[..|path| - k]))
    decreases k
  {
    ExpandLength(r, path);
    if k == 0 {
      assert path[..|path|] == path;
    } else {
      var front := path[..|path| - 1];
      ExpandAt(r, front, k - 1);
      assert Expand(r, path)[k] == Expand(r, front)[k - 1];
      assert front[..|front| - (k - 1)] == path[..|path| - k];
    }
  }

  /** The walk up the index's parent links ends within `fuel` steps; the source loops forever otherwise. */
  predicate Climbs(r: Resolve, id: Id, fuel: nat)
    decreases fuel
  {
    id in r.index && id in r.childToParent ==> fuel > 0 && Climbs(r, r.childToParent[id], fuel - 1)
  }

  /** The result of `item_path` with `acc` already pushed. */
  function After(acc: seq<NameKind>, rest: Result<seq<NameKind>>): Result<seq<NameKind>>
  {
    match rest
    case Err(e) => Err(e)
    case Ok(p) => Ok(acc + p)
  }

  /** `item_path`: the item and its ancestors, leaf first, or the first lookup's error. */
  function ItemPathWith(r: Resolve, id: Id, fuel: nat, asWritten: bool): Result<seq<NameKind>>
    requires Climbs(r, id, fuel)
    decreases fuel
  {
    match ItemWith(r, id, asWritten)
    case Err(e) => Err(e)
    case Ok(item) =>
      var here := [NameKind(item.name, item.kind)];
      match item.parent
      case None => Ok(here)
      case Some(ParentId(p)) => After(here, ItemPathWith(r, p, fuel - 1, asWritten))
      case Some(ParentPath(p)) => Ok(here + Expand(r, p))
  }

  function ItemPathOf(r: Resolve, id: Id, fuel: nat): Result<seq<NameKind>>
    requires Climbs(r, id, fuel)
  {
    ItemPathWith(r, id, fuel, false)
  }

  /** The path starts with the item itself, and fails exactly when some id on the way is in neither table. */
  lemma {:induction false} ItemPathShape(r: Resolve, id: Id, fuel: nat)
    requires Climbs(r, id, fuel)
    ensures id !in r.index && id !in r.paths ==> ItemPathOf(r, id, fuel) == Err(DanglingId)
    ensures ItemPathOf(r, id, fuel).Ok? ==>
      var p := ItemPathOf(r, id, fuel).value;
      |p| > 0 && p[0] == NameKind(ItemOf(r, id).value.name, ItemOf(r, id).value.kind)
    ensures id in r.index && id !in r.childToParent ==> |ItemPathOf(r, id, fuel).value| == 1
    ensures id !in r.index && id in r.paths ==>
      var summary := r.paths[id];
      ItemPathOf(r, id, fuel).Ok? && |ItemPathOf(r, id, fuel).value| == if |summary.path| <= 1 then 1 else |summary.path|
  {
    var item := ItemOf(r, id);
    if item.Ok? {
      match item.value.parent {
        case None =>
        case Some(ParentId(p)) =>
        case Some(ParentPath(p)) => ExpandLength(r, p);
      }
    }
  }

  /** `item_path` as the source runs it: a loop over the parent links, and an inner loop over a summary's path. */
  method ItemPath(r: Resolve, id: Id, ghost fuel: nat) returns (res: Result<seq<NameKind>>)
    requires Climbs(r, id, fuel)
    ensures res == ItemPathOf(r, id, fuel)
  {
    var current := id;
    ghost var f := fuel;
    var acc: seq<NameKind> := [];
    AfterAssoc([], [], ItemPathOf(r, id, fuel));
    while true
      invariant Climbs(r, current, f)
      invariant ItemPathOf(r, id, fuel) == After(acc, ItemPathOf(r, current, f))
      decreases f
    {
      var done, next;
      done, res, next, acc := Visit(r, current, f, acc);
      if done {
        return;
      }
      current := next;
      f := f - 1;
    }
  }

  /**
   * One turn of `item_path`'s loop: push the item's entry, then either step to its
   * recorded parent or finish, pushing a summary parent's segments first.
   */
  method Visit(r: Resolve, current: Id, ghost f: nat, acc: seq<NameKind>)
    returns (done: bool, res: Result<seq<NameKind>>, next: Id, acc': seq<NameKind>)
    requires Climbs(r, current, f)
    ensures done ==> res == After(acc, ItemPathOf(r, current, f))
    ensures !done ==> f > 0 && Climbs(r, next, f - 1)
    ensures !done ==> After(acc, ItemPathOf(r, current, f)) == After(acc', ItemPathOf(r, next, f - 1))
  {
    var item := ItemOf(r, current);
    ItemPathStep(r, current, f);
    next, acc' := current, acc;
    if item.Err? {
      return true, Err(item.error), next, acc';
    }
    var entry := NameKind(item.value.name, item.value.kind);
    var parent := item.value.parent;
    if parent.None? {
      return true, Ok(acc + [entry]), next, acc';
    }
    if parent.value.ParentPath? {
      var pushed := PushAncestors(r, parent.value.path, acc + [entry]);
      assert pushed == acc + ([entry] + Expand(r, parent.value.path));
      return true, Ok(pushed), next, acc';
    }
    AfterAssoc(acc, [entry], ItemPathOf(r, parent.value.id, f - 1));
    return false, Ok([]), parent.value.id, acc + [entry];
  }

  /** One turn of `item_path`'s loop: the path of an id in terms of its item and its parent. */
  lemma ItemPathStep(r: Resolve, id: Id, fuel: nat)
    requires Climbs(r, id, fuel)
    ensures var item := ItemOf(r, id);
      && (item.Err? ==> ItemPathOf(r, id, fuel) == Err(item.error))
      && (item.Ok? && item.value.parent.None? ==> ItemPathOf(r, id, fuel) == Ok([NameKind(item.value.name, item.value.kind)]))
      && (item.Ok? && item.value.parent.Some? && item.value.parent.value.ParentId? ==>
            var p := item.value.parent.value.id;
            fuel > 0 && Climbs(r, p, fuel - 1) &&
            ItemPathOf(r, id, fuel) == After([NameKind(item.value.name, item.value.kind)], ItemPathOf(r, p, fuel - 1)))
      && (item.Ok? && item.value.parent.Some? && item.value.parent.value.ParentPath? ==>
            var p := item.value.parent.value.path;
            p != [] && ItemPathOf(r, id, fuel) == Ok([NameKind(item.value.name, item.value.kind)] + Expand(r, p)))
  {
  }

  /** The inner loop of `item_path`: push the entry of the path, drop its last segment, and stop once it is empty. */
  method PushAncestors(r: Resolve, p: seq<string>, acc0: seq<NameKind>) returns (acc: seq<NameKind>)
    requires p != []
    ensures acc == acc0 + Expand(r, p)
  {
    acc := acc0;
    var path := p;
    while true
      invariant 0 < |path| <= |p|
      invariant acc + Expand(r, path) == acc0 + Expand(r, p)
      decreases |path|
    {
      assert Expand(r, path) == [NameKind(LastOr(path), KindAt(r, path))] + if |path| <= 1 then [] else Expand(r, path[..|path| - 1]);
      acc := acc + [NameKind(LastOr(path), KindAt(r, path))];
      if |path| <= 1 {
        return;
      }
      path := path[..|path| - 1];
    }
  }

  lemma AfterAssoc(a: seq<NameKind>, b: seq<NameKind>, rest: Result<seq<NameKind>>)
    ensures After(a, After(b, rest)) == After(a + b, rest)
    ensures After([], rest) == rest
  {
    if rest.Ok? {
      assert a + (b + rest.value) == a + b + rest.value;
      assert [] + rest.value == rest.value;
    }
  }

  /** One URL piece: the crate's documentation root first, then the kind's piece. */
  function SegmentOf(r: Resolve, path: seq<NameKind>, i: nat): Result<string>
    requires i < |path|
  {
    if i == 0 then Ok(CrateDocUrl(r, path[0].name)) else ToPathSegment(path[i].kind, path[i].name)
  }

  /** The URL of the first `n` entries of a root-first path: the pieces joined, or the first piece's error. */
  function UrlOf(r: Resolve, path: seq<NameKind>, n: nat): Result<string>
    requires n <= |path|
  {
    if n == 0 then Ok("")
    else match UrlOf(r, path, n - 1)
      case Err(e) => Err(e)
      case Ok(url) =>
        match SegmentOf(r, path, n - 1)
        case Err(e) => Err(e)
        case Ok(segment) => Ok(url + segment)
  }

  /**
   * The URL fails exactly when a later entry is an extern crate or a keyword, with the
   * message about the first of them; otherwise it starts with the crate's documentation root.
   */
  lemma {:induction false} UrlOfShape(r: Resolve, path: seq<NameKind>, n: nat)
    requires 0 < n <= |path|
    ensures UrlOf(r, path, n).Ok? <==> forall i :: 1 <= i < n ==> !IsUnexpected(path[i].kind)
    ensures UrlOf(r, path, n).Ok? ==> StartsWith(UrlOf(r, path, n).value, CrateDocUrl(r, path[0].name))
    ensures UrlOf(r, path, n).Err? ==>
      exists i :: 1 <= i < n && IsUnexpected(path[i].kind) &&
        (forall j :: 1 <= j < i ==> !IsUnexpected(path[j].kind)) &&
        UrlOf(r, path, n).error == UnexpectedPathSegment(path[i].kind, path[i].name)
  {
    if n == 1 {
      assert UrlOf(r, path, 0) == Ok("");
      assert "" + CrateDocUrl(r, path[0].name) == CrateDocUrl(r, path[0].name);
    } else {
      UrlOfShape(r, path, n - 1);
      var before := UrlOf(r, path, n - 1);
      if before.Ok? {
        var segment := SegmentOf(r, path, n - 1);
        if segment.Ok? {
          StartsWithExtend(before.value, segment.value, CrateDocUrl(r, path[0].name));
        }
      }
    }
  }

  /** Once a piece fails, the URL of every longer prefix fails with the same error. */
  lemma {:induction false} UrlOfErrSticks(r: Resolve, path: seq<NameKind>, n: nat, m: nat)
    requires n <= m <= |path| && UrlOf(r, path, n).Err?
    ensures UrlOf(r, path, m) == UrlOf(r, path, n)
    decreases m - n
  {
    if n < m {
      UrlOfErrSticks(r, path, n, m - 1);
    }
  }

  /** `item_url`: the item path root first, fused, and joined into a URL. */
  function ItemUrlOf(r: Resolve, id: Id, fuel: nat): Result<string>
    requires Climbs(r, id, fuel)
  {
    match ItemPathOf(r, id, fuel)
    case Err(e) => Err(e)
    case Ok(p) =>
      var path := Fused(Reverse(p));
      UrlOf(r, path, |path|)
  }

  /** `item_url` as the source runs it: a loop pushing one piece per entry, returning at the first failing piece. */
  method ItemUrl(r: Resolve, id: Id, ghost fuel: nat) returns (res: Result<string>)
    requires Climbs(r, id, fuel)
    ensures res == ItemUrlOf(r, id, fuel)
  {
    var itemPath := ItemPath(r, id, fuel);
    if itemPath.Err? {
      return Err(itemPath.error);
    }
    var path := FuseImplFunctionToMethod(Reverse(itemPath.value));
    res := JoinSegments(r, path);
  }

  /** The loop of `item_url`: one piece per entry, returning at the first piece that fails. */
  method JoinSegments(r: Resolve, path: seq<NameKind>) returns (res: Result<string>)
    ensures res == UrlOf(r, path, |path|)
  {
    var url := "";
    for i := 0 to |path|
      invariant UrlOf(r, path, i) == Ok(url)
    {
      var segment;
      if i == 0 {
        segment := CrateDocUrl(r, path[i].name);
      } else {
        var piece := ToPathSegment(path[i].kind, path[i].name);
        if piece.Err? {
          UrlOfErrSticks(r, path, i + 1, |path|);
          return Err(piece.error);
        }
        segment := piece.value;
      }
      url := url + segment;
    }
    return Ok(url);
  }

  /** `path_to_kind_map`: every summary's path to its kind, inserted in the order `keys` hands out the summaries. */
  method PathToKindMap(paths: Rustdoc.Paths, keys: seq<Id>) returns (m: map<seq<string>, Rustdoc.ItemKind>)
    requires Rustdoc.Enumerates(keys, paths.Keys)
    ensures forall id :: id in paths ==> paths[id].path in m
    ensures forall p :: p in m ==> exists id :: id in paths && paths[id].path == p && paths[id].kind == m[p]
    ensures forall id :: id in paths && (forall other :: other in paths && paths[other].path == paths[id].path ==> other == id) ==>
      m[paths[id].path] == paths[id].kind
  {
    m := map[];
    for i := 0 to |keys|
      invariant forall j :: 0 <= j < i ==> paths[keys[j]].path in m
      invariant forall p :: p in m ==> exists id :: id in paths && paths[id].path == p && paths[id].kind == m[p]
    {
      var summary := paths[keys[i]];
      m := m[summary.path := summary.kind];
    }
    forall id | id in paths
      ensures paths[id].path in m
    {
      var j :| 0 <= j < |keys| && keys[j] == id;
    }
  }

  /** A link as the markdown parser reports it: where it is, where it points, its title and its text. */
  datatype Link = Link(span: Markdown.Range, destUrl: string, title: string, contentSpan: Option<Markdown.Range>)

  /** The links lie inside the documentation, in order and without overlapping, and so does each one's text. */
  predicate LinksOrdered(links: seq<Link>, len: nat)
  {
    (forall k :: 0 <= k < |links| ==> links[k].span.start <= links[k].span.end <= len) &&
    (forall k, l :: 0 <= k < l < |links| ==> links[k].span.end <= links[l].span.start) &&
    (forall k :: 0 <= k < |links| && links[k].contentSpan.Some? ==>
       links[k].contentSpan.value.start <= links[k].contentSpan.value.end <= len)
  }

  /** The `#…` part of a destination, or nothing. */
  function Fragment(dest: string): (r: string)
    ensures r == [] || (r[0] == '#' && EndsWith(dest, r))
  {
    match IndexOf(dest, '#')
    case None => ""
    case Some(h) => dest[h..]
  }

  function TitlePart(title: string): string
  {
    if title == "" then "" else " \"" + title + "\""
  }

  /** The text of a link: the bytes of its content span, or nothing. */
  function Content(docs: Bytes, link: Link): (c: Bytes)
    requires link.contentSpan.Some? ==> link.contentSpan.value.start <= link.contentSpan.value.end <= |docs|
  {
    if link.contentSpan.None? then [] else docs[link.contentSpan.value.start..link.contentSpan.value.end]
  }

  /** What a link rustdoc knows becomes: an inline link to the URL, or just its text when the URL failed. */
  function Replacement(content: Bytes, link: Link, url: Result<string>): (r: Bytes)
    ensures url.Err? ==> r == content
  {
    match url
    case Err(_) => content
    case Ok(u) => Str("[") + content + Str("](" + u + Fragment(link.destUrl) + TitlePart(link.title) + ")")
  }

  /** The edit for one link: none when rustdoc has no item under its destination. */
  function LinkEdit(docs: Bytes, r: Resolve, fuel: nat, rootLinks: map<string, Id>, link: Link): (e: Option<Edit>)
    requires link.contentSpan.Some? ==> link.contentSpan.value.start <= link.contentSpan.value.end <= |docs|
    requires forall k :: k in rootLinks ==> Climbs(r, rootLinks[k], fuel)
    ensures e.None? <==> link.destUrl !in rootLinks
    ensures e.Some? ==> e.value.start == link.span.start && e.value.end == link.span.end
  {
    if link.destUrl !in rootLinks then None
    else
      var url := ItemUrlOf(r, rootLinks[link.destUrl], fuel);
      Some(Edit(link.span.start, link.span.end, Replacement(Content(docs, link), link, url)))
  }

  function OptionList(e: Option<Edit>): seq<Edit>
  {
    if e.None? then [] else [e.value]
  }

  /** The edits of the links from index `i` on, last link first. */
  function LinkEdits(docs: Bytes, r: Resolve, fuel: nat, rootLinks: map<string, Id>, links: seq<Link>, i: nat): seq<Edit>
    requires i <= |links| && LinksOrdered(links, |docs|)
    requires forall k :: k in rootLinks ==> Climbs(r, rootLinks[k], fuel)
    decreases |links| - i
  {
    if i == |links| then []
    else LinkEdits(docs, r, fuel, rootLinks, links, i + 1) + OptionList(LinkEdit(docs, r, fuel, rootLinks, links[i]))
  }

  /** The edits come back to front, and all of them start at or after the end of every earlier link. */
  lemma {:induction false} LinkEditsBackToFront(docs: Bytes, r: Resolve, fuel: nat, rootLinks: map<string, Id>, links: seq<Link>, i: nat)
    requires i <= |links| && LinksOrdered(links, |docs|)
    requires forall k :: k in rootLinks ==> Climbs(r, rootLinks[k], fuel)
    ensures var edits := LinkEdits(docs, r, fuel, rootLinks, links, i);
      BackToFront(|docs|, edits) && forall k :: 0 <= k < i ==> links[k].span.end <= Cut(|docs|, edits)
    decreases |links| - i
  {
    if i < |links| {
      LinkEditsBackToFront(docs, r, fuel, rootLinks, links, i + 1);
      var before := LinkEdits(docs, r, fuel, rootLinks, links, i + 1);
      var e := LinkEdit(docs, r, fuel, rootLinks, links[i]);
      PushEdit(docs, before, e, links[i].span.start, links[i].span.end);
      assert LinkEdits(docs, r, fuel, rootLinks, links, i) == before + OptionList(e);
    }
  }

  /** Appending the edit of a link that lies before every earlier edit keeps the list back to front. */
  lemma PushEdit(docs: Bytes, before: seq<Edit>, e: Option<Edit>, start: nat, end: nat)
    requires BackToFront(|docs|, before) && start <= end <= Cut(|docs|, before)
    requires e.Some? ==> e.value.start == start && e.value.end == end
    ensures BackToFront(|docs|, before + OptionList(e))
    ensures Cut(|docs|, before + OptionList(e)) == if e.Some? then start else Cut(|docs|, before)
  {
    if e.Some? {
      ReplaceRangesAppend(docs, before, e.value);
    } else {
      assert before + OptionList(e) == before;
    }
  }

  /** With no link rustdoc knows, the documentation is left as it is. */
  lemma {:induction false} NoKnownLinks(docs: Bytes, r: Resolve, fuel: nat, rootLinks: map<string, Id>, links: seq<Link>, i: nat)
    requires i <= |links| && LinksOrdered(links, |docs|)
    requires forall k :: k in rootLinks ==> Climbs(r, rootLinks[k], fuel)
    requires forall k :: i <= k < |links| ==> links[k].destUrl !in rootLinks
    ensures LinkEdits(docs, r, fuel, rootLinks, links, i) == []
    decreases |links| - i
  {
    if i < |links| {
      NoKnownLinks(docs, r, fuel, rootLinks, links, i + 1);
    }
  }

  /** Replacing a range inside the untouched prefix of an edited text is appending that edit. */
  lemma EditInPlace(s: Bytes, edits: seq<Edit>, e: Edit)
    requires BackToFront(|s|, edits) && e.start <= e.end <= Cut(|s|, edits)
    ensures BackToFront(|s|, edits + [e])
    ensures var t := ReplaceRanges(s, edits);
      e.end <= |t| && ReplaceRanges(s, edits + [e]) == t[..e.start] + e.with + t[e.end..]
  {
    ReplaceRangesAppend(s, edits, e);
    SpliceParts(s, ReplaceRanges(s, edits), Cut(|s|, edits), e.start, e.end, e.with);
  }

  /** Where `t` agrees with `s` up to `c`, a splice of `s` before `c` followed by the rest of `t` is that splice of `t`. */
  lemma SpliceParts(s: Bytes, t: Bytes, c: nat, i: nat, j: nat, w: Bytes)
    requires i <= j <= c <= |s| && c <= |t| && t[..c] == s[..c]
    ensures s[..i] + w + s[j..c] + t[c..] == t[..i] + w + t[j..]
  {
    var front, back := t[..c], t[c..];
    assert t == front + back;
    SplitAt(front, back, i);
    SplitAt(front, back, j);
    PrefixParts(s, c, i, j, c);
    assert front[j..] == s[j..c];
  }

  /**
   * The link-rewrite loop of `extract`, last link first: a link rustdoc knows is replaced
   * by an inline link to its item's URL, or by its text; every other link is kept.
   */
  method RewriteLinks(docs: Bytes, links: seq<Link>, rootLinks: map<string, Id>, r: Resolve, ghost fuel: nat) returns (newDocs: Bytes)
    requires LinksOrdered(links, |docs|)
    requires forall k :: k in rootLinks ==> Climbs(r, rootLinks[k], fuel)
    ensures BackToFront(|docs|, LinkEdits(docs, r, fuel, rootLinks, links, 0))
    ensures newDocs == ReplaceRanges(docs, LinkEdits(docs, r, fuel, rootLinks, links, 0))
  {
    newDocs := docs;
    var i := |links|;
    while i > 0
      invariant 0 <= i <= |links|
      invariant BackToFront(|docs|, LinkEdits(docs, r, fuel, rootLinks, links, i))
      invariant newDocs == ReplaceRanges(docs, LinkEdits(docs, r, fuel, rootLinks, links, i))
      decreases i
    {
      i := i - 1;
      var link := links[i];
      ghost var edits := LinkEdits(docs, r, fuel, rootLinks, links, i + 1);
      if link.destUrl !in rootLinks {
        assert LinkEdits(docs, r, fuel, rootLinks, links, i) == edits + [];
        assert edits + [] == edits;
        continue;
      }
      var url := ItemUrl(r, rootLinks[link.destUrl], fuel);
      var content := Content(docs, link);
      var replaceWith := Replacement(content, link, url);
      ghost var e := Edit(link.span.start, link.span.end, replaceWith);
      assert LinkEdit(docs, r, fuel, rootLinks, link) == Some(e);
      assert LinkEdits(docs, r, fuel, rootLinks, links, i) == edits + [e];
      LinkEditsBackToFront(docs, r, fuel, rootLinks, links, i + 1);
      EditInPlace(docs, edits, e);
      newDocs := newDocs[..link.span.start] + replaceWith + newDocs[link.span.end..];
    }
  }

  /** A resolver that knows only the summary of the crate root `alloc`, under id 7. */
  const AllocOnly := Resolve(
    map[],
    map[7 := Rustdoc.ItemSummary(["alloc"], Rustdoc.ItemKind.Module)],
    map[],
    map[["alloc"] := Rustdoc.ItemKind.Module],
    Resolver.Metadata([], {}),
    map[],
    Resolver.Options(false))

  /**
   * As written, the crate root's summary gets the empty path as its parent, so `item_path`
   * pushes a nameless module above it and the URL names a crate called "".
   */
  lemma RootSummaryAsWritten()
    ensures ItemAsWritten(AllocOnly, 7) == Ok(BasicItem("alloc", Module, Some(ParentPath([]))))
    ensures ItemPathWith(AllocOnly, 7, 0, true) == Ok([NameKind("alloc", Module), NameKind("", Module)])
    ensures UrlOf(AllocOnly, [NameKind("", Module), NameKind("alloc", Module)], 2) == Ok("https://docs.rs//latest//alloc/")
  {
    assert Pop(["alloc"]) == Some([]);
    assert ItemWith(AllocOnly, 7, true) == Ok(BasicItem("alloc", Module, Some(ParentPath([]))));
    assert Expand(AllocOnly, []) == [NameKind("", Module)];
    assert ItemPathWith(AllocOnly, 7, 0, true) == Ok([NameKind("alloc", Module)] + Expand(AllocOnly, []));
    assert [NameKind("alloc", Module)] + [NameKind("", Module)] == [NameKind("alloc", Module), NameKind("", Module)];
    var path := [NameKind("", Module), NameKind("alloc", Module)];
    assert CrateDocUrl(AllocOnly, "") == "https://docs.rs//latest//";
    assert UrlOf(AllocOnly, path, 0) == Ok("");
    assert "" + "https://docs.rs//latest//" == "https://docs.rs//latest//";
    assert UrlOf(AllocOnly, path, 1) == Ok("https://docs.rs//latest//");
    assert ToPathSegment(Module, "alloc") == Ok("alloc" + "/");
    assert "alloc" + "/" == "alloc/";
    assert SegmentOf(AllocOnly, path, 1) == Ok("alloc/");
    assert "https://docs.rs//latest//" + "alloc/" == "https://docs.rs//latest//alloc/";
  }

  /** With a crate root having no parent, the link goes to the standard crate's documentation. */
  lemma RootSummaryUrl()
    ensures ItemOf(AllocOnly, 7) == Ok(BasicItem("alloc", Module, None))
    ensures ItemUrlOf(AllocOnly, 7, 0) == Ok("https://doc.rust-lang.org/alloc/")
  {
    assert ItemWith(AllocOnly, 7, false) == Ok(BasicItem("alloc", Module, None));
    var path := [NameKind("alloc", Module)];
    assert ItemPathOf(AllocOnly, 7, 0) == Ok(path);
    assert Reverse(path) == path;
    assert FirstImplFunction(path, 0) == None;
    assert Fused(path) == path;
    assert CrateDocUrl(AllocOnly, "alloc") == "https://doc.rust-lang.org/alloc/";
    assert UrlOf(AllocOnly, path, 0) == Ok("");
    assert "" + "https://doc.rust-lang.org/alloc/" == "https://doc.rust-lang.org/alloc/";
  }
}
