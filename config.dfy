/**
 * Configuration layering: patches whose fields are all optional are laid over each other, a
 * later patch winning field by field, and the result is finished into a complete configuration
 * by filling in the defaults.
 */
module Config {
  import opened Wrappers

  /** Rust's `i8`. */
  newtype i8 = x: int | -128 <= x < 128

  const DefaultFeatureLabel := "**`{feature}`**"
  const DefaultFeatureSectionName := "feature documentation"
  const DefaultCrateSectionName := "crate documentation"
  const DefaultToolchain := "nightly-2025-12-05"
  const DefaultShrinkHeadings: i8 := 1

  /** A later patch's value wins when it has one. */
  function Override<T>(mine: Option<T>, theirs: Option<T>): (r: Option<T>)
    ensures theirs.Some? ==> r == theirs
    ensures theirs.None? ==> r == mine
  {
    if theirs.Some? then theirs else mine
  }

  function UnwrapOr<T>(o: Option<T>, default: T): (r: T)
    ensures o.Some? ==> r == o.value
    ensures o.None? ==> r == default
  {
    if o.Some? then o.value else default
  }

  // ----- the workspace configuration -----

  datatype WorkspaceConfig = WorkspaceConfig(package: seq<string>, workspace: bool, exclude: seq<string>)

  datatype WorkspacePatch = WorkspacePatch(
    package: Option<seq<string>>,
    workspace: Option<bool>,
    exclude: Option<seq<string>>)

  function WorkspaceApplied(p: WorkspacePatch, o: WorkspacePatch): WorkspacePatch
  {
    WorkspacePatch(Override(p.package, o.package), Override(p.workspace, o.workspace), Override(p.exclude, o.exclude))
  }

  /** Lay `overwrite` over `base`: every field it sets replaces the one of `base`. */
  method WorkspaceApply(base: WorkspacePatch, overwrite: WorkspacePatch) returns (patched: WorkspacePatch)
    ensures patched == WorkspaceApplied(base, overwrite)
  {
    patched := base;
    if overwrite.package.Some? {
      patched := patched.(package := Some(overwrite.package.value));
    }
    if overwrite.workspace.Some? {
      patched := patched.(workspace := Some(overwrite.workspace.value));
    }
    if overwrite.exclude.Some? {
      patched := patched.(exclude := Some(overwrite.exclude.value));
    }
  }

  /** A field left unset becomes its type's default: no packages, not the whole workspace, nothing excluded. */
  function WorkspaceFinish(p: WorkspacePatch): (r: WorkspaceConfig)
    ensures p.package.None? ==> r.package == []
    ensures p.workspace.None? ==> !r.workspace
    ensures p.exclude.None? ==> r.exclude == []
    ensures p.package.Some? ==> r.package == p.package.value
    ensures p.workspace.Some? ==> r.workspace == p.workspace.value
    ensures p.exclude.Some? ==> r.exclude == p.exclude.value
  {
    WorkspaceConfig(UnwrapOr(p.package, []), UnwrapOr(p.workspace, false), UnwrapOr(p.exclude, []))
  }

  // ----- target selection -----

  datatype TargetSelection = Lib | Bin(name: Option<string>)

  /** The value of `bin`: `true` or the name of a binary. */
  datatype BoolOrString = Bool(b: bool) | Str(s: string)

  /** The `--lib` / `--bin` arguments passed to cargo. */
  function Display(t: TargetSelection): (r: string)
    ensures t.Lib? ==> r == "--lib"
    ensures t == Bin(None) ==> r == "--bin"
    ensures t.Bin? && t.name.Some? ==> r == "--bin " + t.name.value
  {
    match t
    case Lib => "--lib"
    case Bin(Some(bin)) => "--bin " + bin
    case Bin(None) => "--bin"
  }

  /** `lib = true` wins; otherwise `bin = true` selects the binary and `bin = "name"` that one. */
  function Selection(lib: Option<bool>, bin: Option<BoolOrString>): (r: Option<TargetSelection>)
    ensures lib == Some(true) ==> r == Some(Lib)
    ensures lib != Some(true) && bin == Some(Bool(true)) ==> r == Some(Bin(None))
    ensures lib != Some(true) && bin.Some? && bin.value.Str? ==> r == Some(Bin(Some(bin.value.s)))
    ensures lib != Some(true) && (bin.None? || bin == Some(Bool(false))) ==> r.None?
  {
    match lib
    case Some(true) => Some(Lib)
    case _ =>
      match bin
      case Some(Bool(true)) => Some(Bin(None))
      case Some(Str(s)) => Some(Bin(Some(s)))
      case _ => None
  }

  /** The `lib` and `bin` fields a finished selection is written back as. */
  function Serialize(t: Option<TargetSelection>): (Option<bool>, Option<BoolOrString>)
  {
    match t
    case Some(Lib) => (Some(true), None)
    case Some(Bin(Some(name))) => (None, Some(Str(name)))
    case Some(Bin(None)) => (None, Some(Bool(true)))
    case None => (None, None)
  }

  /** Writing a selection back and reading it again gives the same selection. */
  lemma SerializeRoundTrip(t: Option<TargetSelection>)
    ensures Selection(Serialize(t).0, Serialize(t).1) == t
  {
  }

  /** A written-back selection never sets both fields, and sets one exactly when there is a selection. */
  lemma SerializeShape(t: Option<TargetSelection>)
    ensures var (lib, bin) := Serialize(t);
      !(lib.Some? && bin.Some?) && (t.Some? <==> lib.Some? || bin.Some?) && lib != Some(false) && bin != Some(Bool(false))
  {
  }

  // ----- the package configuration -----

  datatype PackageConfig = PackageConfig(
    featureIntoCrate: bool,
    crateIntoReadme: bool,
    featureLabel: string,
    featureSectionName: string,
    crateSectionName: string,
    shrinkHeadings: i8,
    linkToLatest: bool,
    documentPrivateItems: bool,
    noDeps: bool,
    check: bool,
    allowMissingSection: bool,
    allowDirty: bool,
    allowStaged: bool,
    features: seq<string>,
    allFeatures: bool,
    noDefaultFeatures: bool,
    targetSelection: Option<TargetSelection>,
    toolchain: string,
    target: Option<string>,
    targetDir: Option<string>,
    readmePath: Option<string>)

  datatype PackagePatch = PackagePatch(
    featureIntoCrate: Option<bool>,
    crateIntoReadme: Option<bool>,
    featureLabel: Option<string>,
    featureSectionName: Option<string>,
    crateSectionName: Option<string>,
    shrinkHeadings: Option<i8>,
    linkToLatest: Option<bool>,
    documentPrivateItems: Option<bool>,
    noDeps: Option<bool>,
    check: Option<bool>,
    allowMissingSection: Option<bool>,
    allowDirty: Option<bool>,
    allowStaged: Option<bool>,
    features: Option<seq<string>>,
    allFeatures: Option<bool>,
    noDefaultFeatures: Option<bool>,
    lib: Option<bool>,
    bin: Option<BoolOrString>,
    toolchain: Option<string>,
    target: Option<string>,
    targetDir: Option<string>,
    readmePath: Option<string>)

  const EmptyPatch := PackagePatch(
    None, None, None, None, None, None, None, None, None, None, None,
    None, None, None, None, None, None, None, None, None, None, None)

  /** Does the patch choose a target, through either `lib` or `bin`? */
  predicate SetsTarget(p: PackagePatch)
  {
    p.lib.Some? || p.bin.Some?
  }

  /**
   * `p` with `o` laid over it: field by field the later value wins, except that `lib` and
   * `bin` travel together, so that a later `bin` is not shadowed by an earlier `lib = true`.
   */
  function Applied(p: PackagePatch, o: PackagePatch): PackagePatch
  {
    PackagePatch(
      Override(p.featureIntoCrate, o.featureIntoCrate),
      Override(p.crateIntoReadme, o.crateIntoReadme),
      Override(p.featureLabel, o.featureLabel),
      Override(p.featureSectionName, o.featureSectionName),
      Override(p.crateSectionName, o.crateSectionName),
      Override(p.shrinkHeadings, o.shrinkHeadings),
      Override(p.linkToLatest, o.linkToLatest),
      Override(p.documentPrivateItems, o.documentPrivateItems),
      Override(p.noDeps, o.noDeps),
      Override(p.check, o.check),
      Override(p.allowMissingSection, o.allowMissingSection),
      Override(p.allowDirty, o.allowDirty),
      Override(p.allowStaged, o.allowStaged),
      Override(p.features, o.features),
      Override(p.allFeatures, o.allFeatures),
      Override(p.noDefaultFeatures, o.noDefaultFeatures),
      if SetsTarget(o) then o.lib else p.lib,
      if SetsTarget(o) then o.bin else p.bin,
      Override(p.toolchain, o.toolchain),
      Override(p.target, o.target),
      Override(p.targetDir, o.targetDir),
      Override(p.readmePath, o.readmePath))
  }

  /** Lay the fields that say what is written where of `overwrite` over `base`. */
  method ApplyOutputs(base: PackagePatch, overwrite: PackagePatch) returns (patched: PackagePatch)
    ensures patched == base.(
        featureIntoCrate := Override(base.featureIntoCrate, overwrite.featureIntoCrate),
        crateIntoReadme := Override(base.crateIntoReadme, overwrite.crateIntoReadme),
        featureLabel := Override(base.featureLabel, overwrite.featureLabel),
        featureSectionName := Override(base.featureSectionName, overwrite.featureSectionName),
        crateSectionName := Override(base.crateSectionName, overwrite.crateSectionName),
        shrinkHeadings := Override(base.shrinkHeadings, overwrite.shrinkHeadings))
  {
    patched := base;
    if overwrite.featureIntoCrate.Some? {
      patched := patched.(featureIntoCrate := overwrite.featureIntoCrate);
    }
    if overwrite.crateIntoReadme.Some? {
      patched := patched.(crateIntoReadme := overwrite.crateIntoReadme);
    }
    if overwrite.featureLabel.Some? {
      patched := patched.(featureLabel := overwrite.featureLabel);
    }
    if overwrite.featureSectionName.Some? {
      patched := patched.(featureSectionName := overwrite.featureSectionName);
    }
    if overwrite.crateSectionName.Some? {
      patched := patched.(crateSectionName := overwrite.crateSectionName);
    }
    if overwrite.shrinkHeadings.Some? {
      patched := patched.(shrinkHeadings := overwrite.shrinkHeadings);
    }
  }

  /** Lay the fields passed on to rustdoc or that guard the run of `overwrite` over `base`. */
  method ApplyRustdocFlags(base: PackagePatch, overwrite: PackagePatch) returns (patched: PackagePatch)
    ensures patched == base.(
        linkToLatest := Override(base.linkToLatest, overwrite.linkToLatest),
        documentPrivateItems := Override(base.documentPrivateItems, overwrite.documentPrivateItems),
        noDeps := Override(base.noDeps, overwrite.noDeps),
        check := Override(base.check, overwrite.check),
        allowMissingSection := Override(base.allowMissingSection, overwrite.allowMissingSection),
        allowDirty := Override(base.allowDirty, overwrite.allowDirty),
        allowStaged := Override(base.allowStaged, overwrite.allowStaged))
  {
    patched := base;
    if overwrite.linkToLatest.Some? {
      patched := patched.(linkToLatest := overwrite.linkToLatest);
    }
    if overwrite.documentPrivateItems.Some? {
      patched := patched.(documentPrivateItems := overwrite.documentPrivateItems);
    }
    if overwrite.noDeps.Some? {
      patched := patched.(noDeps := overwrite.noDeps);
    }
    if overwrite.check.Some? {
      patched := patched.(check := overwrite.check);
    }
    if overwrite.allowMissingSection.Some? {
      patched := patched.(allowMissingSection := overwrite.allowMissingSection);
    }
    if overwrite.allowDirty.Some? {
      patched := patched.(allowDirty := overwrite.allowDirty);
    }
    if overwrite.allowStaged.Some? {
      patched := patched.(allowStaged := overwrite.allowStaged);
    }
  }

  /** Lay the feature selection of `overwrite` over `base`. */
  method ApplyFeatures(base: PackagePatch, overwrite: PackagePatch) returns (patched: PackagePatch)
    ensures patched == base.(
        features := Override(base.features, overwrite.features),
        allFeatures := Override(base.allFeatures, overwrite.allFeatures),
        noDefaultFeatures := Override(base.noDefaultFeatures, overwrite.noDefaultFeatures))
  {
    patched := base;
    if overwrite.features.Some? {
      patched := patched.(features := overwrite.features);
    }
    if overwrite.allFeatures.Some? {
      patched := patched.(allFeatures := overwrite.allFeatures);
    }
    if overwrite.noDefaultFeatures.Some? {
      patched := patched.(noDefaultFeatures := overwrite.noDefaultFeatures);
    }
  }

  /** Lays `overwrite`'s target and toolchain over `base`'s: `lib` and `bin` are replaced together when `overwrite` sets either. */
  method ApplyBuild(base: PackagePatch, overwrite: PackagePatch) returns (patched: PackagePatch)
    ensures patched == base.(
        lib := if SetsTarget(overwrite) then overwrite.lib else base.lib,
        bin := if SetsTarget(overwrite) then overwrite.bin else base.bin,
        toolchain := Override(base.toolchain, overwrite.toolchain),
        target := Override(base.target, overwrite.target),
        targetDir := Override(base.targetDir, overwrite.targetDir),
        readmePath := Override(base.readmePath, overwrite.readmePath))
  {
    patched := base;
    if overwrite.lib.Some? || overwrite.bin.Some? {
      patched := patched.(lib := overwrite.lib, bin := overwrite.bin);
    }
    if overwrite.toolchain.Some? {
      patched := patched.(toolchain := overwrite.toolchain);
    }
    if overwrite.target.Some? {
      patched := patched.(target := overwrite.target);
    }
    if overwrite.targetDir.Some? {
      patched := patched.(targetDir := overwrite.targetDir);
    }
    if overwrite.readmePath.Some? {
      patched := patched.(readmePath := overwrite.readmePath);
    }
  }

  /** Lay `overwrite` over a copy of `base`, one field at a time. */
  method Apply(base: PackagePatch, overwrite: PackagePatch) returns (patched: PackagePatch)
    ensures patched == Applied(base, overwrite)
  {
    patched := ApplyOutputs(base, overwrite);
    patched := ApplyRustdocFlags(patched, overwrite);
    patched := ApplyFeatures(patched, overwrite);
    patched := ApplyBuild(patched, overwrite);
  }

  /** Fill in the defaults of every field the patches left unset. */
  function Finish(p: PackagePatch): (c: PackageConfig)
    ensures c.featureIntoCrate == UnwrapOr(p.featureIntoCrate, true)
    ensures c.crateIntoReadme == UnwrapOr(p.crateIntoReadme, true)
    ensures c.featureLabel == UnwrapOr(p.featureLabel, DefaultFeatureLabel)
    ensures c.featureSectionName == UnwrapOr(p.featureSectionName, DefaultFeatureSectionName)
    ensures c.crateSectionName == UnwrapOr(p.crateSectionName, DefaultCrateSectionName)
    ensures c.shrinkHeadings == UnwrapOr(p.shrinkHeadings, DefaultShrinkHeadings)
    ensures c.toolchain == UnwrapOr(p.toolchain, DefaultToolchain)
    ensures c.allowDirty == (p.allowDirty == Some(true))
    ensures p.allowDirty.Some? ==> c.allowStaged == p.allowDirty.value
    ensures p.allowDirty.None? ==> c.allowStaged == (p.allowStaged == Some(true))
    ensures c.targetSelection == Selection(p.lib, p.bin)
    ensures c.features == UnwrapOr(p.features, [])
    ensures c.target == p.target && c.targetDir == p.targetDir && c.readmePath == p.readmePath
  {
    PackageConfig(
      UnwrapOr(p.featureIntoCrate, true),
      UnwrapOr(p.crateIntoReadme, true),
      UnwrapOr(p.featureLabel, DefaultFeatureLabel),
      UnwrapOr(p.featureSectionName, DefaultFeatureSectionName),
      UnwrapOr(p.crateSectionName, DefaultCrateSectionName),
      UnwrapOr(p.shrinkHeadings, DefaultShrinkHeadings),
      UnwrapOr(p.linkToLatest, false),
      UnwrapOr(p.documentPrivateItems, false),
      UnwrapOr(p.noDeps, false),
      UnwrapOr(p.check, false),
      UnwrapOr(p.allowMissingSection, false),
      UnwrapOr(p.allowDirty, false),
      UnwrapOr(Override(p.allowStaged, p.allowDirty), false),
      UnwrapOr(p.features, []),
      UnwrapOr(p.allFeatures, false),
      UnwrapOr(p.noDefaultFeatures, false),
      Selection(p.lib, p.bin),
      UnwrapOr(p.toolchain, DefaultToolchain),
      p.target,
      p.targetDir,
      p.readmePath)
  }

  // ----- what layering promises -----

  /** Laying the empty patch over a patch, or a patch over the empty one, changes nothing. */
  lemma ApplyEmpty(p: PackagePatch)
    ensures Applied(p, EmptyPatch) == p
    ensures Applied(EmptyPatch, p) == p
  {
  }

  /** Laying a patch over itself changes nothing. */
  lemma ApplyIdempotent(p: PackagePatch)
    ensures Applied(p, p) == p
  {
  }

  /** Layering is associative: three sources can be combined in either grouping. */
  lemma ApplyAssociative(a: PackagePatch, b: PackagePatch, c: PackagePatch)
    ensures Applied(Applied(a, b), c) == Applied(a, Applied(b, c))
  {
  }

  /** A patch that chooses a target replaces the whole choice; one that does not keeps the earlier choice. */
  lemma ApplyTarget(p: PackagePatch, o: PackagePatch)
    ensures SetsTarget(o) ==> Selection(Applied(p, o).lib, Applied(p, o).bin) == Selection(o.lib, o.bin)
    ensures !SetsTarget(o) ==> Selection(Applied(p, o).lib, Applied(p, o).bin) == Selection(p.lib, p.bin)
  {
  }

  /** A selection written back into a patch and finished again is the same selection. */
  lemma FinishSerialized(p: PackagePatch, t: Option<TargetSelection>)
    ensures Finish(p.(lib := Serialize(t).0, bin := Serialize(t).1)).targetSelection == t
  {
    SerializeRoundTrip(t);
  }

  /** With nothing configured, every field takes its default. */
  lemma FinishDefaults()
    ensures Finish(EmptyPatch) == PackageConfig(
      true, true, DefaultFeatureLabel, DefaultFeatureSectionName, DefaultCrateSectionName,
      DefaultShrinkHeadings, false, false, false, false, false, false, false, [], false, false,
      None, DefaultToolchain, None, None, None)
  {
  }

  /** The workspace patches layer the same way. */
  lemma WorkspaceApplyLaws(a: WorkspacePatch, b: WorkspacePatch, c: WorkspacePatch)
    ensures WorkspaceApplied(a, WorkspacePatch(None, None, None)) == a
    ensures WorkspaceApplied(a, a) == a
    ensures WorkspaceApplied(WorkspaceApplied(a, b), c) == WorkspaceApplied(a, WorkspaceApplied(b, c))
  {
  }
}
