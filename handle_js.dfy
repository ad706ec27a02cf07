/** The resolver of `src/handle-js.ts`: classifying an import specifier as a
    catalog package or a project file, computing the file it names and the
    canonical relative `.js` path it is rewritten to, the per-file dedup of
    new sources, and the output path of a compiled file. */
module HandleJs {
  import opened Wrappers
  import opened NodePath
  import opened Utils
  import opened Types

  // ---------------------------------------------------------------------
  // importedIsPackage / isPackageForPath
  // ---------------------------------------------------------------------

  /** `importedPath.split("/")[0]`. */
  function FirstSegment(p: string): string {
    Split(p)[0]
  }

  /** `importedIsPackage(importedPath, packageName)`. */
  function ImportedIsPackage(importedPath: string, packageName: string): bool {
    if importedPath == packageName then true
    else if FirstSegment(importedPath) == packageName then true
    else false
  }

  /** A specifier names a package when it is the package name, or when the
      name holds no '/' and the specifier continues it with '/'. */
  lemma ImportedIsPackageIff(p: string, name: string)
    ensures ImportedIsPackage(p, name) <==> p == name || ('/' !in name && name + "/" <= p)
  {
    var i := SlashIndex(p);
    if i >= 0 {
      assert FirstSegment(p) == p[..i];
    } else {
      assert FirstSegment(p) == p;
    }
    if '/' !in name && name + "/" <= p {
      var rest := p[|name| + 1..];
      assert p == name + "/" + rest;
      SlashIndexAt(name, rest);
      assert p[..|name|] == name;
    }
    if FirstSegment(p) == name && p != name {
      assert p[..i + 1] == name + "/";
    }
  }

  /** Deep imports match by their first segment only: `libA/sub` belongs to
      `libA`, `libAAA` does not, and a scoped name never matches deeper. */
  lemma ImportedIsPackageExamples()
    ensures ImportedIsPackage("libA/sub", "libA")
    ensures !ImportedIsPackage("libAAA", "libA")
    ensures !ImportedIsPackage("@s/p/x", "@s/p")
  {
    ImportedIsPackageIff("libA/sub", "libA");
    assert "libA" + "/" <= "libA/sub";
    ImportedIsPackageIff("libAAA", "libA");
    assert !("libA" + "/" <= "libAAA") by {
      assert "libAAA"[4] != '/';
    }
    ImportedIsPackageIff("@s/p/x", "@s/p");
    assert "@s/p"[2] == '/';
  }

  /** `isPackageForPath(importedPath)`, the predicate handed to `find`. */
  function IsPackageForPath(importedPath: string): PackageInfo -> bool {
    (info: PackageInfo) => ImportedIsPackage(importedPath, info.packageName)
  }

  // ---------------------------------------------------------------------
  // Array.prototype.find
  // ---------------------------------------------------------------------

  /** The index of the first element satisfying `f`, or -1. */
  function FindIndex<T>(xs: seq<T>, f: T -> bool): (i: int)
    ensures -1 <= i < |xs|
    ensures i >= 0 ==> f(xs[i]) && forall j :: 0 <= j < i ==> !f(xs[j])
    ensures i < 0 ==> forall j :: 0 <= j < |xs| ==> !f(xs[j])
  {
    if xs == [] then -1
    else if f(xs[0]) then 0
    else
      var j := FindIndex(xs[1..], f);
      if j < 0 then -1 else j + 1
  }

  /** `xs.find(f)`, with `undefined` as `None`. */
  function Find<T>(xs: seq<T>, f: T -> bool): Option<T> {
    var i := FindIndex(xs, f);
    if i < 0 then None else Some(xs[i])
  }

  // ---------------------------------------------------------------------
  // filePathFromPackage, toNodeModuleInfo, toCustomModuleInfo
  // ---------------------------------------------------------------------

  /** A bare package import names the package's entry file; a deep import
      is looked up under `node_modules` with the whole specifier. */
  function FilePathFromPackage(nodeModules: AbsPath, importedPath: string, info: PackageInfo): AbsPath {
    if info.packageName == importedPath then info.defaultFilePath
    else Join(nodeModules, importedPath)
  }

  /** The path a module is imported by from the file `srcPath`. */
  function RelativeJsImportPath(srcPath: AbsPath, filePath: AbsPath): string {
    ToJsExt(UrlRelative(Dirname(srcPath), filePath))
  }

  function ToNodeModuleInfo(nodeModules: AbsPath, info: PackageInfo, srcPath: AbsPath, importedPath: string): ModuleInfo {
    var filePath := Resolve(FilePathFromPackage(nodeModules, importedPath, info));
    NodeModule(info, filePath, RelativeJsImportPath(srcPath, filePath))
  }

  function ToCustomModuleInfo(srcPath: AbsPath, importedPath: string): ModuleInfo {
    var filePath := Resolve(Join(Dirname(srcPath), importedPath));
    CustomModule(filePath, RelativeJsImportPath(srcPath, filePath))
  }

  /** `moduleInfoFromPath(importedPath)` inside `handleJs` for the file `srcPath`. */
  function ModuleInfoFromPath(infos: seq<PackageInfo>, nodeModules: AbsPath, srcPath: AbsPath, importedPath: string): ModuleInfo {
    match Find(infos, IsPackageForPath(importedPath))
    case Some(info) => ToNodeModuleInfo(nodeModules, info, srcPath, importedPath)
    case None => ToCustomModuleInfo(srcPath, importedPath)
  }

  /** The first package in catalog order that the specifier names decides a
      `nodeModule`, carried unchanged; with no such package the result is a
      `customModule`. */
  lemma ModuleInfoFromPathFirstMatch(infos: seq<PackageInfo>, nodeModules: AbsPath, srcPath: AbsPath, importedPath: string)
    ensures var m := ModuleInfoFromPath(infos, nodeModules, srcPath, importedPath);
      m.NodeModule? <==> exists i :: 0 <= i < |infos| && ImportedIsPackage(importedPath, infos[i].packageName)
    ensures var m := ModuleInfoFromPath(infos, nodeModules, srcPath, importedPath);
      m.NodeModule? ==>
        exists i :: 0 <= i < |infos| && m.packageInfo == infos[i]
          && ImportedIsPackage(importedPath, infos[i].packageName)
          && forall j :: 0 <= j < i ==> !ImportedIsPackage(importedPath, infos[j].packageName)
  {
    var f := IsPackageForPath(importedPath);
    var i := FindIndex(infos, f);
    assert forall j :: 0 <= j < |infos| ==> f(infos[j]) == ImportedIsPackage(importedPath, infos[j].packageName);
  }

  /** A bare package import resolves to the package's entry file, a deep one
      to `node_modules` joined with the specifier; a project import to the
      specifier resolved against the importing file's directory. */
  lemma ModuleInfoFromPathFile(infos: seq<PackageInfo>, nodeModules: AbsPath, srcPath: AbsPath, importedPath: string)
    requires Normal(nodeModules) && Normal(srcPath)
    requires forall i :: 0 <= i < |infos| ==> Normal(infos[i].defaultFilePath)
    ensures var m := ModuleInfoFromPath(infos, nodeModules, srcPath, importedPath);
      && (m.NodeModule? && m.packageInfo.packageName == importedPath ==> m.filePath == m.packageInfo.defaultFilePath)
      && (m.NodeModule? && m.packageInfo.packageName != importedPath ==> m.filePath == Join(nodeModules, importedPath))
      && (m.CustomModule? ==> m.filePath == Join(Dirname(srcPath), importedPath))
      && Normal(m.filePath)
  {
    var f := IsPackageForPath(importedPath);
    var i := FindIndex(infos, f);
    if i >= 0 {
      ResolveNormal(FilePathFromPackage(nodeModules, importedPath, infos[i]));
    } else {
      ResolveNormal(Join(Dirname(srcPath), importedPath));
    }
  }

  /** Both kinds of module are imported by a path that starts with '.' and
      ends with `.js`. */
  lemma RelativeJsImportPathShape(infos: seq<PackageInfo>, nodeModules: AbsPath, srcPath: AbsPath, importedPath: string)
    ensures var r := ModuleInfoFromPath(infos, nodeModules, srcPath, importedPath).relativeJsImportPath;
      r != [] && r[0] == '.' && EndsWithJs(r)
  {
    var m := ModuleInfoFromPath(infos, nodeModules, srcPath, importedPath);
    ToJsExtFirstChar(UrlRelative(Dirname(srcPath), m.filePath));
  }

  // ---------------------------------------------------------------------
  // The canonical import path is a fixpoint
  // ---------------------------------------------------------------------

  /** No catalog name starts with '.' (npm names never do). */
  predicate NoDotNames(infos: seq<PackageInfo>) {
    forall i :: 0 <= i < |infos| ==> infos[i].packageName == [] || infos[i].packageName[0] != '.'
  }

  /** A specifier that starts with '.' names no package of such a catalog. */
  lemma DotPathIsCustom(infos: seq<PackageInfo>, nodeModules: AbsPath, srcPath: AbsPath, c: string)
    requires NoDotNames(infos) && c != [] && c[0] == '.'
    ensures ModuleInfoFromPath(infos, nodeModules, srcPath, c) == ToCustomModuleInfo(srcPath, c)
  {
    forall i | 0 <= i < |infos|
      ensures !ImportedIsPackage(c, infos[i].packageName)
    {
      var name := infos[i].packageName;
      ImportedIsPackageIff(c, name);
      if name == [] {
        assert !("/" <= c);
      } else {
        assert !(name + "/" <= c) by {
          assert (name + "/")[0] == name[0];
        }
      }
    }
    var f := IsPackageForPath(c);
    assert forall j :: 0 <= j < |infos| ==> !f(infos[j]);
  }

  /** The path with its last segment passed through `toJsExt`. */
  function WithJsName(f: AbsPath): AbsPath
    requires f != []
  {
    f[..|f| - 1] + [ToJsExt(f[|f| - 1])]
  }

  lemma WithJsNameShape(f: AbsPath)
    requires f != [] && Normal(f) && NoBackslash(f)
    ensures Normal(WithJsName(f)) && NoBackslash(WithJsName(f))
    ensures |WithJsName(f)| == |f| && WithJsName(f)[..|f| - 1] == f[..|f| - 1]
    ensures WithJsName(f)[|f| - 1][0] == f[|f| - 1][0]
    ensures ExtOf(WithJsName(f)[|f| - 1]) == ".js"
  {
    ToJsExtName(f[|f| - 1]);
  }

  /** The rewritten specifier, seen from the same file, is the relative path
      to the target with its `.js` name. */
  lemma RewrittenIsUrlRelative(srcPath: AbsPath, f: AbsPath)
    requires f != [] && Normal(f) && NoBackslash(f)
    requires !(f <= Dirname(srcPath)) && !(WithJsName(f) <= Dirname(srcPath))
    ensures RelativeJsImportPath(srcPath, f) == UrlRelative(Dirname(srcPath), WithJsName(f))
    ensures Extname(RelativeJsImportPath(srcPath, f)) == ".js"
  {
    var d, g := Dirname(srcPath), WithJsName(f);
    var b := f[|f| - 1];
    WithJsNameShape(f);
    UrlHeadLastChanged(d, f, g);
    UrlRelativeHead(d, f);
    UrlRelativeHead(d, g);
    var h := UrlHead(d, f);
    ToJsExtAppend(h, b);
    ExtnameAfterSlash(h, ToJsExt(b));
  }

  /** Convergence of the rewrite: resolving the rewritten specifier again
      from the same file gives the project file with the `.js` name, and
      the same specifier, so a revisit replaces nothing. The target must lie
      outside the importing file's ancestors (both before and after its
      name gets `.js`); otherwise `relative` is empty and `toJsExt` turns
      `./` into `./.js`. */
  lemma CanonicalFixpoint(infos: seq<PackageInfo>, nodeModules: AbsPath, srcPath: AbsPath, importedPath: string)
    requires NoDotNames(infos) && Normal(srcPath)
    requires var f := ModuleInfoFromPath(infos, nodeModules, srcPath, importedPath).filePath;
      f != [] && Normal(f) && NoBackslash(f)
      && !(f <= Dirname(srcPath)) && !(WithJsName(f) <= Dirname(srcPath))
    ensures var m := ModuleInfoFromPath(infos, nodeModules, srcPath, importedPath);
      var c := m.relativeJsImportPath;
      ModuleInfoFromPath(infos, nodeModules, srcPath, c) == CustomModule(WithJsName(m.filePath), c)
  {
    var m := ModuleInfoFromPath(infos, nodeModules, srcPath, importedPath);
    var f, c := m.filePath, m.relativeJsImportPath;
    var d, g := Dirname(srcPath), WithJsName(f);
    assert c == RelativeJsImportPath(srcPath, f);
    RewrittenIsUrlRelative(srcPath, f);
    RelativeJsImportPathShape(infos, nodeModules, srcPath, importedPath);
    DotPathIsCustom(infos, nodeModules, srcPath, c);
    WithJsNameShape(f);
    UrlRelativeResolves(d, g);
    ResolveNormal(g);
  }

  /** The case `CanonicalFixpoint` excludes: an import of the importing
      file's own directory. `./` names the directory and becomes `./.js`;
      that names the file `.js` beside the importer and becomes the bare
      `.js.js` (a name that starts with '.' gets no `./`), which names the
      file `.js.js` and is its own rewrite. So the rewrite settles after two
      replacements, on a specifier that names neither the directory nor the
      file `.js`. */
  lemma OwnDirectoryResolutions(infos: seq<PackageInfo>, nodeModules: AbsPath, srcPath: AbsPath)
    requires NoDotNames(infos) && Normal(srcPath)
    ensures var d := Dirname(srcPath);
      ModuleInfoFromPath(infos, nodeModules, srcPath, "./") == CustomModule(d, "./.js")
    ensures var d := Dirname(srcPath);
      ModuleInfoFromPath(infos, nodeModules, srcPath, "./.js") == CustomModule(d + [".js"], ".js.js")
    ensures var d := Dirname(srcPath);
      ModuleInfoFromPath(infos, nodeModules, srcPath, ".js.js") == CustomModule(d + [".js.js"], ".js.js")
  {
    OwnDirectory(infos, nodeModules, srcPath);
    OwnDirectoryJs(infos, nodeModules, srcPath);
    OwnDirectoryJsJs(infos, nodeModules, srcPath);
  }

  /** A '.'-prefixed specifier resolved in three steps: the joined file
      path, its URL from the importer's directory, and that URL's `.js` form. */
  lemma CustomResolution(infos: seq<PackageInfo>, nodeModules: AbsPath, srcPath: AbsPath,
                         c: string, f: AbsPath, u: string, r: string)
    requires NoDotNames(infos) && c != [] && c[0] == '.'
    requires Resolve(Join(Dirname(srcPath), c)) == f
    requires UrlRelative(Dirname(srcPath), f) == u && ToJsExt(u) == r
    ensures ModuleInfoFromPath(infos, nodeModules, srcPath, c) == CustomModule(f, r)
  {
    DotPathIsCustom(infos, nodeModules, srcPath, c);
  }

  lemma OwnDirectory(infos: seq<PackageInfo>, nodeModules: AbsPath, srcPath: AbsPath)
    requires NoDotNames(infos) && Normal(srcPath)
    ensures ModuleInfoFromPath(infos, nodeModules, srcPath, "./") == CustomModule(Dirname(srcPath), "./.js")
  {
    var d := Dirname(srcPath);
    JoinDotSlash(d);
    ResolveNormal(d);
    UrlRelativeSelf(d);
    ToJsExtOnDirectory("./");
    assert "./" + ".js" == "./.js";
    CustomResolution(infos, nodeModules, srcPath, "./", d, "./", "./.js");
  }

  lemma OwnDirectoryJs(infos: seq<PackageInfo>, nodeModules: AbsPath, srcPath: AbsPath)
    requires NoDotNames(infos) && Normal(srcPath)
    ensures ModuleInfoFromPath(infos, nodeModules, srcPath, "./.js") == CustomModule(Dirname(srcPath) + [".js"], ".js.js")
  {
    var d := Dirname(srcPath);
    var f := d + [".js"];
    assert "./" + ".js" == "./.js";
    JoinDotSlashSegment(d, ".js");
    NormalAppend(d, ".js");
    ResolveNormal(f);
    UrlRelativeDotChild(d, ".js");
    ToJsExtDotJs();
    CustomResolution(infos, nodeModules, srcPath, "./.js", f, ".js", ".js.js");
  }

  lemma OwnDirectoryJsJs(infos: seq<PackageInfo>, nodeModules: AbsPath, srcPath: AbsPath)
    requires NoDotNames(infos) && Normal(srcPath)
    ensures ModuleInfoFromPath(infos, nodeModules, srcPath, ".js.js") == CustomModule(Dirname(srcPath) + [".js.js"], ".js.js")
  {
    var d := Dirname(srcPath);
    var f := d + [".js.js"];
    JoinSegment(d, ".js.js");
    NormalAppend(d, ".js.js");
    ResolveNormal(f);
    UrlRelativeDotChild(d, ".js.js");
    ToJsExtDotJsJs();
    CustomResolution(infos, nodeModules, srcPath, ".js.js", f, ".js.js", ".js.js");
  }

  // ---------------------------------------------------------------------
  // handleNewImport
  // ---------------------------------------------------------------------

  /** What `handleNewImport` has done so far in one file: the memo's keys
      and the paths passed to `onNewSrc`. */
  datatype HandlerState = HandlerState(known: set<string>, newSrcs: seq<AbsPath>)

  /** One `handleNewImport(importInfo)`: skipped when the memo holds the
      imported path; otherwise the memo records the rewritten path and the
      imported file is announced. */
  function NewImportStep(st: HandlerState, info: ImportInfo): HandlerState {
    if info.importedPath in st.known then st
    else HandlerState(st.known + {info.newImportPath}, st.newSrcs + [info.moduleInfo.filePath])
  }

  /** The reports of a file handled in order. */
  function Handled(st: HandlerState, infos: seq<ImportInfo>): HandlerState
    decreases |infos|
  {
    if infos == [] then st
    else NewImportStep(Handled(st, infos[..|infos| - 1]), infos[|infos| - 1])
  }

  /** The memo only grows and the announcements are only appended to. */
  lemma {:induction false} HandledGrows(st: HandlerState, infos: seq<ImportInfo>)
    ensures st.known <= Handled(st, infos).known
    ensures st.newSrcs <= Handled(st, infos).newSrcs
    decreases |infos|
  {
    if infos != [] {
      HandledGrows(st, infos[..|infos| - 1]);
    }
  }

  /** The revisit of a node after its replacement reports the rewritten path
      as its imported path; it is suppressed, so one import with a fresh
      path announces its file exactly once. */
  lemma RevisitSuppressed(st: HandlerState, info: ImportInfo, revisit: ImportInfo)
    requires info.importedPath !in st.known
    requires revisit.importedPath == info.newImportPath
    ensures Handled(st, [info, revisit]).newSrcs == st.newSrcs + [info.moduleInfo.filePath]
  {
    HandledPair(st, info, revisit);
  }

  lemma HandledPair(st: HandlerState, a: ImportInfo, b: ImportInfo)
    ensures Handled(st, [a, b]) == NewImportStep(NewImportStep(st, a), b)
  {
    assert [a, b][..1] == [a];
    assert [a][..0] == [];
    assert Handled(st, [a]) == NewImportStep(st, a);
  }

  /** The set of imported paths of some reports. */
  function ImportedPaths(infos: seq<ImportInfo>): set<string>
    decreases |infos|
  {
    if infos == [] then {} else ImportedPaths(infos[..|infos| - 1]) + {infos[|infos| - 1].importedPath}
  }

  /** Reports whose paths are already canonical announce each distinct path
      once, and the memo ends up holding exactly those paths. */
  lemma {:induction false} CanonicalImportsAnnouncedOnce(st: HandlerState, infos: seq<ImportInfo>)
    requires forall i :: 0 <= i < |infos| ==> infos[i].importedPath == infos[i].newImportPath
    ensures Handled(st, infos).known == st.known + ImportedPaths(infos)
    ensures |Handled(st, infos).newSrcs| == |st.newSrcs| + |ImportedPaths(infos) - st.known|
    decreases |infos|
  {
    if infos != [] {
      var init, last := infos[..|infos| - 1], infos[|infos| - 1];
      CanonicalImportsAnnouncedOnce(st, init);
      var before := ImportedPaths(init) - st.known;
      if last.importedPath in st.known + ImportedPaths(init) {
        assert ImportedPaths(infos) - st.known == before;
      } else {
        assert ImportedPaths(infos) - st.known == before + {last.importedPath};
      }
    }
  }

  /** An import whose path is not canonical does not record its own path,
      so the same specifier written twice in one file is announced twice. */
  lemma NonCanonicalRepeatAnnouncedTwice(info: ImportInfo)
    requires info.importedPath != info.newImportPath
    ensures Handled(HandlerState({}, []), [info, info]).newSrcs == [info.moduleInfo.filePath, info.moduleInfo.filePath]
  {
    HandledPair(HandlerState({}, []), info, info);
  }

  // ---------------------------------------------------------------------
  // handleJs: output path and the per-file state
  // ---------------------------------------------------------------------

  /** `toJsExt(join(outPath, relative(rootPath, path)))`. */
  function OutputPath(root: AbsPath, out: AbsPath, path: AbsPath): string {
    ToJsExt(PathString(Join(out, Relative(root, path))))
  }

  /** A file below the project root is written to the same place below the
      output directory, with its name passed through `toJsExt`. */
  lemma OutputPathBelowRoot(root: AbsPath, out: AbsPath, rest: AbsPath)
    requires Normal(out) && Normal(rest)
    ensures OutputPath(root, out, root + rest) == ToJsExt(PathString(out + rest))
  {
    RelativeBelow(root, rest);
    JoinNormal(out, rest);
  }

  /** Joining a directory with a normalised relative path appends its segments. */
  lemma JoinNormal(base: AbsPath, rest: AbsPath)
    requires Normal(rest)
    ensures Join(base, JoinSegs(rest)) == base + rest
  {
    if rest == [] {
      assert Split("") == [""];
      assert Walk(base, [""]) == Walk(base, []);
    } else {
      SplitJoin(rest);
      WalkNormal(base, rest);
    }
  }

  /** The state of one `handleJs(packageInfos, path, events)` call: the
      file's output path, its memo and the sources it announced. */
  class JsFile {
    const infos: seq<PackageInfo>
    const nodeModules: AbsPath
    const path: AbsPath
    const outputPath: string
    const isKnown: Memo
    /** The arguments of every `onNewSrc` call, in order. */
    var newSrcs: seq<AbsPath>

    function State(): HandlerState
      reads this, isKnown
    {
      HandlerState(isKnown.known, newSrcs)
    }

    constructor (infos: seq<PackageInfo>, root: AbsPath, nodeModules: AbsPath, out: AbsPath, path: AbsPath)
      ensures this.infos == infos && this.nodeModules == nodeModules && this.path == path
      ensures outputPath == OutputPath(root, out, path)
      ensures fresh(isKnown) && State() == HandlerState({}, [])
    {
      this.infos := infos;
      this.nodeModules := nodeModules;
      this.path := path;
      outputPath := OutputPath(root, out, path);
      isKnown := new Memo();
      newSrcs := [];
    }

    /** The `moduleInfoFromPath` closure of this file. */
    function ModuleInfoOf(importedPath: string): ModuleInfo {
      ModuleInfoFromPath(infos, nodeModules, path, importedPath)
    }

    /** `handleNewImport(importInfo)`. */
    method HandleNewImport(info: ImportInfo)
      modifies this, isKnown
      ensures State() == NewImportStep(old(State()), info)
    {
      var hit := isKnown.Check(info.importedPath, Some(info.newImportPath));
      if hit {
        return;
      }
      newSrcs := newSrcs + [info.moduleInfo.filePath];
    }
  }
}
