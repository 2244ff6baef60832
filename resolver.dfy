/**
 * The resolver: an item id to the URL of its documentation, through the path found in the
 * crate's own index or, failing that, in the summaries of `.paths`.
 */
module Resolver {
  import opened Wrappers
  import opened Seqs
  import opened Rustdoc
  import opened PathItems
  import IndexTree
  import PathsTree

  /** A package of the cargo metadata; `id` is its package id. */
  datatype Package = Package(id: string, name: string, version: string)

  datatype Metadata = Metadata(packages: seq<Package>, workspaceMembers: set<string>)

  datatype Options = Options(linkToLatest: bool)

  /**
   * The resolver's state. `crateToPackage` is the package a crate name belongs to; the
   * source keeps the package id and looks the package up in the metadata, which holds one
   * package per id.
   */
  datatype Resolver = Resolver(
    metadata: Metadata,
    index: IndexTree.Tree,
    paths: PathsTree.Tree,
    crateToPackage: map<string, Package>,
    options: Options)

  const DanglingId := "rustdoc produced dangling id (known bug of rustdoc)"

  /** A package name as a crate name: every `-` becomes `_`. */
  function Underscored(name: string): (r: string)
    ensures |r| == |name|
    ensures forall i :: 0 <= i < |name| ==> r[i] == if name[i] == '-' then '_' else name[i]
    ensures '-' !in r
  {
    if name == [] then []
    else [if name[0] == '-' then '_' else name[0]] + Underscored(name[1..])
  }

  /** The crate-name-to-package map, collected in package order: of two packages with one crate name the later wins. */
  function CrateToPackage(packages: seq<Package>): (r: map<string, Package>)
  {
    if packages == [] then map[]
    else
      var last := packages[|packages| - 1];
      CrateToPackage(packages[..|packages| - 1])[Underscored(last.name) := last]
  }

  /** Every package is reachable under its crate name, and every key names a package of its own. */
  lemma {:induction false} CrateToPackageShape(packages: seq<Package>)
    ensures var r := CrateToPackage(packages);
      forall k :: k in r ==> r[k] in packages && Underscored(r[k].name) == k
    ensures forall i :: 0 <= i < |packages| ==> Underscored(packages[i].name) in CrateToPackage(packages)
  {
    if packages != [] {
      var front := packages[..|packages| - 1];
      var last := packages[|packages| - 1];
      CrateToPackageShape(front);
      var r := CrateToPackage(packages);
      assert r == CrateToPackage(front)[Underscored(last.name) := last];
      forall k | k in r
        ensures r[k] in packages && Underscored(r[k].name) == k
      {
        if k != Underscored(last.name) {
          assert r[k] in front;
        }
      }
      assert forall i :: 0 <= i < |front| ==> front[i] == packages[i];
    }
  }

  /** Of the packages sharing a crate name, the one listed last wins. */
  lemma {:induction false} CrateToPackageLaterWins(packages: seq<Package>, i: nat)
    requires i < |packages|
    requires forall l :: i < l < |packages| ==> Underscored(packages[l].name) != Underscored(packages[i].name)
    ensures Underscored(packages[i].name) in CrateToPackage(packages)
    ensures CrateToPackage(packages)[Underscored(packages[i].name)] == packages[i]
  {
    CrateToPackageShape(packages);
    if i < |packages| - 1 {
      CrateToPackageLaterWins(packages[..|packages| - 1], i);
    }
  }

  predicate IsStandardCrate(name: string)
  {
    name == "core" || name == "alloc" || name == "std"
  }

  /** The version a docs.rs link names: `latest` for an unknown package or a pinned workspace member. */
  function Version(res: Resolver, name: string): (v: string)
    ensures name !in res.crateToPackage ==> v == "latest"
    ensures name in res.crateToPackage ==>
      (res.options.linkToLatest && res.crateToPackage[name].id in res.metadata.workspaceMembers ==> v == "latest")
    ensures name in res.crateToPackage ==>
      (!(res.options.linkToLatest && res.crateToPackage[name].id in res.metadata.workspaceMembers) ==>
         v == res.crateToPackage[name].version)
  {
    if name !in res.crateToPackage then "latest"
    else
      var package := res.crateToPackage[name];
      var linkToLatest := res.options.linkToLatest && package.id in res.metadata.workspaceMembers;
      if !linkToLatest then package.version else "latest"
  }

  /** The package a docs.rs link names: the crate's package, or the crate name itself. */
  function PackageName(res: Resolver, name: string): (r: string)
    ensures name in res.crateToPackage ==> r == res.crateToPackage[name].name
    ensures name !in res.crateToPackage ==> r == name
  {
    if name in res.crateToPackage then res.crateToPackage[name].name else name
  }

  /** `crate_doc_url`: the standard crates live on doc.rust-lang.org, every other crate on docs.rs. */
  function CrateDocUrl(res: Resolver, name: string): string
  {
    if IsStandardCrate(name) then "https://doc.rust-lang.org/" + name + "/"
    else "https://docs.rs/" + PackageName(res, name) + "/" + Version(res, name) + "/" + name + "/"
  }

  /** Either host, the URL ends with the crate's name as a directory. */
  lemma CrateDocUrlShape(res: Resolver, name: string)
    ensures IsStandardCrate(name) ==> StartsWith(CrateDocUrl(res, name), "https://doc.rust-lang.org/")
    ensures !IsStandardCrate(name) ==> StartsWith(CrateDocUrl(res, name), "https://docs.rs/")
    ensures EndsWith(CrateDocUrl(res, name), name + "/")
  {
    var r := CrateDocUrl(res, name);
    if IsStandardCrate(name) {
      assert r == "https://doc.rust-lang.org/" + (name + "/");
    } else {
      assert r == "https://docs.rs/" + (PackageName(res, name) + "/" + Version(res, name) + "/" + name + "/");
      assert r == "https://docs.rs/" + PackageName(res, name) + "/" + Version(res, name) + "/" + (name + "/");
    }
  }

  /** Every id the index tree holds can be walked up to a root. */
  ghost predicate IndexEnds(tree: IndexTree.Tree)
  {
    forall id :: id in tree.invTree ==> Ends(tree.invTree, id, |tree.invTree|)
  }

  ghost predicate Valid(res: Resolver)
  {
    IndexEnds(res.index) && PathsTree.Valid(res.paths)
  }

  /** `item_path`: the index first, then the summaries, else the dangling-id error. */
  function ItemPathOf(res: Resolver, id: Id): (r: Result<seq<PathItem>>)
    requires Valid(res)
    ensures r.Err? <==> id !in res.index.invTree && id !in res.paths.invTree
    ensures r.Err? ==> r.error == DanglingId
    ensures id in res.index.invTree ==> r == Ok(IndexTree.PathOf(res.index, id).value)
    ensures id !in res.index.invTree && id in res.paths.invTree ==> r == Ok(PathsTree.PathOf(res.paths, id).value)
    ensures r.Ok? ==> r.value != []
  {
    PathsTree.PathOfNone(res.paths, id);
    if id in res.index.invTree then
      IndexTree.PathOfShape(res.index, id);
      Ok(IndexTree.PathOf(res.index, id).value)
    else if id in res.paths.invTree then
      var path := PathsTree.PathOf(res.paths, id).value;
      PathsTree.ValidEnds(res.paths, id, PathsTree.Height(res.paths, id));
      Ok(path)
    else
      Err(DanglingId)
  }

  method ItemPath(res: Resolver, id: Id) returns (r: Result<seq<PathItem>>)
    requires Valid(res)
    ensures r == ItemPathOf(res, id)
  {
    var fromIndex: Option<seq<PathItem>> := None;
    if id in res.index.invTree {
      fromIndex := IndexTree.PathTo(res.index, id);
    } else {
      IndexTree.PathOfShape(res.index, id);
    }
    if fromIndex.Some? {
      return Ok(fromIndex.value);
    }
    var fromPaths := PathsTree.PathTo(res.paths, id);
    if fromPaths.Some? {
      PathsTree.PathOfNone(res.paths, id);
      return Ok(fromPaths.value);
    }
    PathsTree.PathOfNone(res.paths, id);
    return Err(DanglingId);
  }

  /** The URL piece of the `i`-th item counted from the root: the crate's URL for the root. */
  function Segment(res: Resolver, path: seq<PathItem>, i: nat): string
    requires i < |path|
  {
    var item := path[|path| - 1 - i];
    if i == 0 then CrateDocUrl(res, item.name) else UrlPathSegment(item)
  }

  /** The URL pieces of all the items, root first. */
  function Segments(res: Resolver, path: seq<PathItem>): (r: seq<string>)
  {
    seq(|path|, i requires 0 <= i < |path| => Segment(res, path, i))
  }

  /** Every assembled URL starts with the URL of the crate the path starts at. */
  lemma AssembleStartsWithCrate(res: Resolver, path: seq<PathItem>)
    requires |path| > 0
    ensures StartsWith(Concat(Segments(res, path)), CrateDocUrl(res, path[|path| - 1].name))
  {
    ConcatStartsWithFirst(Segments(res, path));
  }

  /** A directory URL is completed with `index.html`. */
  function Finish(url: string): (r: string)
    ensures !EndsWith(r, "/")
    ensures EndsWith(url, "/") ==> r == url + "index.html"
    ensures !EndsWith(url, "/") ==> r == url
  {
    if EndsWith(url, "/") then
      var r := url + "index.html";
      assert r[|r| - 1..] == "l";
      r
    else url
  }

  /** `item_url`, as a value. */
  function ItemUrlOf(res: Resolver, id: Id): (r: Result<string>)
    requires Valid(res)
  {
    var path := ItemPathOf(res, id);
    if path.Err? then Err(path.error) else Ok(Finish(Concat(Segments(res, path.value))))
  }

  /**
   * A URL is found exactly when a path is; it starts with the URL of the path's crate and
   * never ends in `/`.
   */
  lemma ItemUrlShape(res: Resolver, id: Id)
    requires Valid(res)
    ensures ItemUrlOf(res, id).Err? <==> id !in res.index.invTree && id !in res.paths.invTree
    ensures ItemUrlOf(res, id).Err? ==> ItemUrlOf(res, id).error == DanglingId
    ensures ItemUrlOf(res, id).Ok? ==>
      var path := ItemPathOf(res, id).value;
      StartsWith(ItemUrlOf(res, id).value, CrateDocUrl(res, path[|path| - 1].name)) &&
      !EndsWith(ItemUrlOf(res, id).value, "/")
  {
    var path := ItemPathOf(res, id);
    if path.Ok? {
      AssembleStartsWithCrate(res, path.value);
      var url := Concat(Segments(res, path.value));
      if EndsWith(url, "/") {
        StartsWithExtend(url, "index.html", CrateDocUrl(res, path.value[|path.value| - 1].name));
      }
    }
  }

  /** `Resolver::item_url`: the segments are appended root first. */
  method ItemUrl(res: Resolver, id: Id) returns (r: Result<string>)
    requires Valid(res)
    ensures r == ItemUrlOf(res, id)
  {
    var found := ItemPath(res, id);
    if found.Err? {
      return Err(found.error);
    }
    var url := AssembleUrl(res, found.value);
    if EndsWith(url, "/") {
      url := url + "index.html";
    }
    return Ok(url);
  }

  /** The loop of `item_url`: the items from the root down, the root as its crate's URL. */
  method AssembleUrl(res: Resolver, path: seq<PathItem>) returns (url: string)
    ensures url == Concat(Segments(res, path))
  {
    url := "";
    for i := 0 to |path|
      invariant url == Concat(Segments(res, path)[..i])
    {
      var item := path[|path| - 1 - i];
      var segment;
      if i == 0 {
        // The first item in a path ought to be a crate.
        segment := CrateDocUrl(res, item.name);
      } else {
        segment := UrlPathSegment(item);
      }
      AssembleStep(res, path, i);
      url := url + segment;
    }
    assert Segments(res, path)[..|path|] == Segments(res, path);
  }

  lemma AssembleStep(res: Resolver, path: seq<PathItem>, i: nat)
    requires i < |path|
    ensures Concat(Segments(res, path)[..i + 1]) == Concat(Segments(res, path)[..i]) + Segment(res, path, i)
  {
    var segments := Segments(res, path);
    assert segments[..i] + [segments[i]] == segments[..i + 1];
    ConcatAppend(segments[..i], segments[i]);
  }

  const ExamplePackage := Package("examplepkg 1.2.0", "examplepkg", "1.2.0")

  /** A resolver that knows `examplepkg` at version 1.2.0 and does not pin it to `latest`. */
  const ExampleResolver := Resolver(
    Metadata([ExamplePackage], {}),
    IndexTree.Tree(map[]),
    PathsTree.Tree(map[], map[]),
    map["examplepkg" := ExamplePackage],
    Options(false))

  lemma ExampleCrateUrl()
    ensures CrateDocUrl(ExampleResolver, "examplepkg") == "https://docs.rs/examplepkg/1.2.0/examplepkg/"
  {
    assert !IsStandardCrate("examplepkg");
    assert PackageName(ExampleResolver, "examplepkg") == "examplepkg";
    assert Version(ExampleResolver, "examplepkg") == "1.2.0";
  }

  lemma ExampleSegments()
    ensures UrlPathSegment(PathItem("Widget", Kind.Struct)) == "struct.Widget.html"
    ensures UrlPathSegment(PathItem("size", Kind.StructField)) == "#structfield.size"
  {
  }

  /** A struct field is an anchor on its struct's page, below the crate's versioned docs.rs URL. */
  lemma StructFieldUrl()
    ensures var path := [PathItem("size", Kind.StructField), PathItem("Widget", Kind.Struct),
                         PathItem("examplepkg", Kind.Module)];
      Finish(Concat(Segments(ExampleResolver, path))) ==
        "https://docs.rs/examplepkg/1.2.0/examplepkg/" + "struct.Widget.html" + "#structfield.size"
  {
    var path := [PathItem("size", Kind.StructField), PathItem("Widget", Kind.Struct),
                 PathItem("examplepkg", Kind.Module)];
    ExampleCrateUrl();
    ExampleSegments();
    var crate, page, anchor := "https://docs.rs/examplepkg/1.2.0/examplepkg/", "struct.Widget.html", "#structfield.size";
    var segments := Segments(ExampleResolver, path);
    assert segments[0] == crate && segments[1] == page && segments[2] == anchor;
    assert segments[1..][1..] == [anchor] && [anchor][1..] == [];
    assert Concat([anchor]) == anchor + "";
    assert Concat(segments[1..]) == page + anchor;
    assert Concat(segments) == crate + (page + anchor);
    var url := crate + page + anchor;
    assert crate + (page + anchor) == url;
    assert url[|url| - 1] == 'e';
  }
}
