/** The rewriting visitor of `src/new-babel-plugin-ts.ts`. For every static
    import, re-export with a source and dynamic import it asks the resolver
    for the module, reports the import through `onNewImport`, and replaces
    the node when the canonical path differs from the written one. Babel
    visits a replaced node again; that revisit is the bounded loop of
    `Rewriter.VisitUntilStable`. */
module RewritePlugin {
  import opened Wrappers
  import opened NodePath
  import opened Types
  import opened BabelAst
  import opened HandleJs

  /** The effect of one visitor call on one node. */
  datatype Visit =
    | NoEffect
    | VisitFailed(error: ImportError)
    | Visited(info: ImportInfo, replacement: Option<Node>)

  /** The object passed to `onNewImport`. */
  function Report(resolve: string -> ModuleInfo, importedPath: string, importedAll: bool, importedSpecifiers: seq<string>): ImportInfo {
    var moduleInfo := resolve(importedPath);
    ImportInfo(moduleInfo, importedPath, moduleInfo.relativeJsImportPath, importedSpecifiers, importedAll)
  }

  /** The three visitor methods. `ExportAllDeclaration` has no visitor in
      this plugin. */
  function VisitNode(n: Node, resolve: string -> ModuleInfo): Visit {
    match n
    case ImportDeclaration(specifiers, source) =>
      var info := Report(resolve, source, ImportedAll(specifiers), ImportedNames(specifiers));
      var newSrc := info.newImportPath;
      Visited(info, if newSrc != source then Some(ImportDeclaration(specifiers, newSrc)) else None)
    case ExportNamedDeclaration(declaration, specifiers, source) =>
      if source.None? then NoEffect
      else
        var info := Report(resolve, source.value, ExportedAll(specifiers), ExportedLocals(specifiers));
        var newSrc := info.newImportPath;
        Visited(info, if newSrc != source.value then Some(ExportNamedDeclaration(declaration, specifiers, Some(newSrc))) else None)
    case ImportCall(callee, arguments) =>
      (match GetImportPathFromImportCall(arguments)
       case Failure(e) => VisitFailed(e)
       case Success(importedPath) =>
         var info := Report(resolve, importedPath, true, []);
         var newSrc := info.newImportPath;
         Visited(info, if newSrc != importedPath then Some(ImportCall(callee, [StringLiteral(newSrc)])) else None))
    case ExportAllDeclaration(_) => NoEffect
    case OtherNode => NoEffect
  }

  /** `b` is `a` with at most its source string changed: same kind, same
      specifiers, same exported declaration, same callee. */
  predicate SameExceptSource(a: Node, b: Node) {
    match a
    case ImportDeclaration(specifiers, _) => b.ImportDeclaration? && b.specifiers == specifiers
    case ExportNamedDeclaration(declaration, specifiers, _) =>
      b.ExportNamedDeclaration? && b.declaration == declaration && b.exportSpecifiers == specifiers
    case ImportCall(callee, _) => b.ImportCall? && b.callee == callee
    case ExportAllDeclaration(_) => false
    case OtherNode => false
  }

  /** What a visit reports, and when and how it replaces the node. */
  lemma VisitContract(n: Node, resolve: string -> ModuleInfo)
    ensures var v := VisitNode(n, resolve);
      v.Visited? ==>
        v.info.moduleInfo == resolve(v.info.importedPath) &&
        v.info.newImportPath == v.info.moduleInfo.relativeJsImportPath &&
        (v.replacement.Some? <==> v.info.newImportPath != v.info.importedPath)
    ensures var v := VisitNode(n, resolve);
      v.Visited? && v.replacement.Some? ==>
        var w := VisitNode(v.replacement.value, resolve);
        SameExceptSource(n, v.replacement.value) &&
        w.Visited? && w.info.importedPath == v.info.newImportPath &&
        w.info.importedAll == v.info.importedAll &&
        w.info.importedSpecifiers == v.info.importedSpecifiers
  {
  }

  /** Which nodes are reported, with which flag and names, and which fail. */
  lemma VisitKinds(n: Node, resolve: string -> ModuleInfo)
    ensures VisitNode(n, resolve).NoEffect? <==>
      n.OtherNode? || n.ExportAllDeclaration? || (n.ExportNamedDeclaration? && n.exportSource.None?)
    ensures VisitNode(n, resolve).VisitFailed? <==>
      n.ImportCall? && GetImportPathFromImportCall(n.arguments).Failure?
    ensures n.ImportDeclaration? ==>
      var i := VisitNode(n, resolve).info;
      i.importedPath == n.source && i.importedAll == ImportedAll(n.specifiers) &&
      i.importedSpecifiers == ImportedNames(n.specifiers)
    ensures n.ExportNamedDeclaration? && n.exportSource.Some? ==>
      var i := VisitNode(n, resolve).info;
      i.importedPath == n.exportSource.value && i.importedAll == ExportedAll(n.exportSpecifiers) &&
      i.importedSpecifiers == ExportedLocals(n.exportSpecifiers)
    ensures n.ImportCall? && GetImportPathFromImportCall(n.arguments).Success? ==>
      var i := VisitNode(n, resolve).info;
      i.importedPath == GetImportPathFromImportCall(n.arguments).value && i.importedAll && i.importedSpecifiers == []
  {
  }

  // ---------------------------------------------------------------------
  // The revisit loop
  // ---------------------------------------------------------------------

  /** The node after the visits, the reports made, a thrown error, and
      whether the last visit replaced nothing. */
  datatype Outcome = Outcome(node: Node, reports: seq<ImportInfo>, error: Option<ImportError>, stable: bool)

  /** Visiting `n` and each replacement in turn, at most `fuel` times. */
  function RevisitLoop(n: Node, resolve: string -> ModuleInfo, fuel: nat): Outcome
    decreases fuel
  {
    if fuel == 0 then Outcome(n, [], None, false)
    else match VisitNode(n, resolve)
      case NoEffect => Outcome(n, [], None, true)
      case VisitFailed(e) => Outcome(n, [], Some(e), false)
      case Visited(info, replacement) =>
        if replacement.None? then Outcome(n, [info], None, true)
        else
          var rest := RevisitLoop(replacement.value, resolve, fuel - 1);
          rest.(reports := [info] + rest.reports)
  }

  /** The outcome of a loop that has made the reports `done` and stands
      at `n` with `fuel` visits left. */
  function Continue(done: seq<ImportInfo>, n: Node, resolve: string -> ModuleInfo, fuel: nat, stable: bool, error: Option<ImportError>): Outcome {
    if stable || error.Some? then Outcome(n, done, error, stable)
    else
      var rest := RevisitLoop(n, resolve, fuel);
      rest.(reports := done + rest.reports)
  }

  /** One visit of the loop. */
  lemma ContinueStep(done: seq<ImportInfo>, n: Node, resolve: string -> ModuleInfo, fuel: nat)
    requires fuel >= 1
    ensures Continue(done, n, resolve, fuel, false, None) ==
      match VisitNode(n, resolve)
      case NoEffect => Continue(done, n, resolve, fuel - 1, true, None)
      case VisitFailed(e) => Continue(done, n, resolve, fuel - 1, false, Some(e))
      case Visited(info, replacement) =>
        Continue(done + [info], replacement.GetOr(n), resolve, fuel - 1, replacement.None?, None)
  {
    match VisitNode(n, resolve)
    case NoEffect =>
    case VisitFailed(e) =>
    case Visited(info, replacement) =>
      if replacement.Some? {
        var rest := RevisitLoop(replacement.value, resolve, fuel - 1);
        AppendAssoc(done, [info], rest.reports);
      }
  }

  /** A node the visitor leaves alone. */
  predicate Settled(n: Node, resolve: string -> ModuleInfo) {
    var v := VisitNode(n, resolve);
    !v.VisitFailed? && !(v.Visited? && v.replacement.Some?)
  }

  lemma SettledLoop(n: Node, resolve: string -> ModuleInfo, fuel: nat)
    requires fuel >= 1 && Settled(n, resolve)
    ensures RevisitLoop(n, resolve, fuel).node == n && RevisitLoop(n, resolve, fuel).error.None?
  {
  }

  /** The resolver maps the rewritten path of `n`, if any, to itself: the
      requirement stated in the comments at lines 49 and 138-140. */
  predicate CanonicalAfterRewrite(n: Node, resolve: string -> ModuleInfo) {
    var v := VisitNode(n, resolve);
    v.Visited? && v.replacement.Some? ==>
      resolve(v.info.newImportPath).relativeJsImportPath == v.info.newImportPath
  }

  /** Convergence: when the rewritten path is canonical, two visits suffice.
      The loop ends stable on a settled node, with one report, or two where
      the second reports the rewritten path as its imported path. */
  lemma CanonicalConverges(n: Node, resolve: string -> ModuleInfo, fuel: nat)
    requires fuel >= 2 && CanonicalAfterRewrite(n, resolve)
    requires !VisitNode(n, resolve).VisitFailed?
    ensures var o := RevisitLoop(n, resolve, fuel);
      o.stable && o.error.None? && Settled(o.node, resolve) && |o.reports| <= 2
    ensures var o := RevisitLoop(n, resolve, fuel);
      |o.reports| == 2 ==> o.reports[1].importedPath == o.reports[0].newImportPath
  {
    var v := VisitNode(n, resolve);
    VisitContract(n, resolve);
    if v.Visited? && v.replacement.Some? {
      var n' := v.replacement.value;
      var w := VisitNode(n', resolve);
      assert w.info.moduleInfo == resolve(v.info.newImportPath);
      assert w.replacement.None?;
      assert RevisitLoop(n', resolve, fuel - 1) == Outcome(n', [w.info], None, true);
    }
  }

  // ---------------------------------------------------------------------
  // A whole file
  // ---------------------------------------------------------------------

  datatype FileOutcome = FileOutcome(nodes: seq<Node>, reports: seq<ImportInfo>, error: Option<ImportError>)

  /** The nodes visited in order, each until it is stable; an error stops
      the traversal and leaves the remaining nodes as they are. */
  function RewriteFile(program: seq<Node>, resolve: string -> ModuleInfo, fuel: nat): (r: FileOutcome)
    ensures |r.nodes| == |program|
    decreases |program|
  {
    if program == [] then FileOutcome([], [], None)
    else
      var pre := RewriteFile(program[..|program| - 1], resolve, fuel);
      var n := program[|program| - 1];
      if pre.error.Some? then FileOutcome(pre.nodes + [n], pre.reports, pre.error)
      else
        var o := RevisitLoop(n, resolve, fuel);
        FileOutcome(pre.nodes + [o.node], pre.reports + o.reports, o.error)
  }

  /** After an error the rest of the program is left untouched. */
  lemma {:induction false} RewriteFileAfterError(p: seq<Node>, q: seq<Node>, resolve: string -> ModuleInfo, fuel: nat)
    requires RewriteFile(p, resolve, fuel).error.Some?
    ensures var r := RewriteFile(p, resolve, fuel);
      RewriteFile(p + q, resolve, fuel) == FileOutcome(r.nodes + q, r.reports, r.error)
    decreases |q|
  {
    if q == [] {
      assert p + q == p;
    } else {
      var q' := q[..|q| - 1];
      assert (p + q)[..|p + q| - 1] == p + q';
      RewriteFileAfterError(p, q', resolve, fuel);
      assert RewriteFile(p, resolve, fuel).nodes + q' + [q[|q| - 1]] == RewriteFile(p, resolve, fuel).nodes + q;
    }
  }

  /** A program of settled nodes is left unchanged, without an error. */
  lemma {:induction false} RewriteFileSettled(program: seq<Node>, resolve: string -> ModuleInfo, fuel: nat)
    requires fuel >= 1
    requires forall k :: 0 <= k < |program| ==> Settled(program[k], resolve)
    ensures RewriteFile(program, resolve, fuel).nodes == program
    ensures RewriteFile(program, resolve, fuel).error.None?
    decreases |program|
  {
    if program != [] {
      var init := program[..|program| - 1];
      assert forall k :: 0 <= k < |init| ==> init[k] == program[k];
      RewriteFileSettled(init, resolve, fuel);
      SettledLoop(program[|program| - 1], resolve, fuel);
      assert program == init + [program[|program| - 1]];
    }
  }

  /** When every rewritten path is canonical and nothing fails, every node
      of the output is settled. */
  lemma {:induction false} RewriteFileSettles(program: seq<Node>, resolve: string -> ModuleInfo, fuel: nat)
    requires fuel >= 2
    requires forall k :: 0 <= k < |program| ==> CanonicalAfterRewrite(program[k], resolve)
    requires forall k :: 0 <= k < |program| ==> !VisitNode(program[k], resolve).VisitFailed?
    ensures RewriteFile(program, resolve, fuel).error.None?
    ensures var out := RewriteFile(program, resolve, fuel).nodes;
      forall k :: 0 <= k < |out| ==> Settled(out[k], resolve)
    decreases |program|
  {
    if program != [] {
      var init, last := program[..|program| - 1], program[|program| - 1];
      assert forall k :: 0 <= k < |init| ==> init[k] == program[k];
      RewriteFileSettles(init, resolve, fuel);
      CanonicalConverges(last, resolve, fuel);
    }
  }

  /** Rewriting is idempotent under the same condition: a second pass over
      the output changes nothing. */
  lemma RewriteFileIdempotent(program: seq<Node>, resolve: string -> ModuleInfo, fuel: nat)
    requires fuel >= 2
    requires forall k :: 0 <= k < |program| ==> CanonicalAfterRewrite(program[k], resolve)
    requires forall k :: 0 <= k < |program| ==> !VisitNode(program[k], resolve).VisitFailed?
    ensures var out := RewriteFile(program, resolve, fuel).nodes;
      RewriteFile(out, resolve, fuel).nodes == out
  {
    RewriteFileSettles(program, resolve, fuel);
    RewriteFileSettled(RewriteFile(program, resolve, fuel).nodes, resolve, fuel);
  }

  // ---------------------------------------------------------------------
  // The resolver of one JavaScript file
  // ---------------------------------------------------------------------

  /** The `moduleInfoFromPath` closure handed to the plugin for the file at
      `srcPath`. */
  function FileResolver(infos: seq<PackageInfo>, nodeModules: AbsPath, srcPath: AbsPath): string -> ModuleInfo {
    importedPath => ModuleInfoFromPath(infos, nodeModules, srcPath, importedPath)
  }

  /** The file resolver meets the convergence requirement for every node
      whose target file lies outside the importing file's ancestors. */
  lemma FileResolverCanonical(infos: seq<PackageInfo>, nodeModules: AbsPath, srcPath: AbsPath, n: Node)
    requires NoDotNames(infos) && Normal(srcPath)
    requires var v := VisitNode(n, FileResolver(infos, nodeModules, srcPath));
      v.Visited? ==>
        var f := v.info.moduleInfo.filePath;
        f != [] && Normal(f) && NoBackslash(f)
        && !(f <= Dirname(srcPath)) && !(WithJsName(f) <= Dirname(srcPath))
    ensures CanonicalAfterRewrite(n, FileResolver(infos, nodeModules, srcPath))
  {
    var resolve := FileResolver(infos, nodeModules, srcPath);
    var v := VisitNode(n, resolve);
    if v.Visited? {
      VisitContract(n, resolve);
      CanonicalFixpoint(infos, nodeModules, srcPath, v.info.importedPath);
    }
  }

  /** One import with a fresh path, rewritten and revisited, announces its
      file to `handleNewImport` exactly once. */
  lemma RewriteAnnouncesOnce(st: HandlerState, n: Node, resolve: string -> ModuleInfo, fuel: nat)
    requires fuel >= 2 && CanonicalAfterRewrite(n, resolve)
    requires VisitNode(n, resolve).Visited?
    requires VisitNode(n, resolve).info.importedPath !in st.known
    ensures Handled(st, RevisitLoop(n, resolve, fuel).reports).newSrcs ==
      st.newSrcs + [VisitNode(n, resolve).info.moduleInfo.filePath]
  {
    var v := VisitNode(n, resolve);
    var o := RevisitLoop(n, resolve, fuel);
    CanonicalConverges(n, resolve, fuel);
    if v.replacement.Some? {
      assert |o.reports| == 2 && o.reports[0] == v.info;
      assert o.reports == [o.reports[0], o.reports[1]];
      RevisitSuppressed(st, v.info, o.reports[1]);
    } else {
      assert o.reports == [v.info];
      assert o.reports[..0] == [];
    }
  }

  /** The case `FileResolverCanonical` excludes: `import ... from "./"`
      in a `.js` file is replaced twice, by `./.js` and then by `.js.js`,
      whose revisit replaces nothing. The three reports name the directory,
      the file `.js` and the file `.js.js`; the second is skipped by
      `handleNewImport` (its path is the first one's rewrite), so the
      directory itself and the file `.js.js` are announced. */
  lemma OwnDirectoryImportSettles(infos: seq<PackageInfo>, nodeModules: AbsPath, srcPath: AbsPath,
                                  specifiers: seq<ImportSpec>, st: HandlerState, fuel: nat)
    requires NoDotNames(infos) && Normal(srcPath) && fuel >= 3
    requires "./" !in st.known && ".js.js" !in st.known
    ensures var o := RevisitLoop(ImportDeclaration(specifiers, "./"), FileResolver(infos, nodeModules, srcPath), fuel);
      o.stable && o.error.None? && o.node == ImportDeclaration(specifiers, ".js.js") && |o.reports| == 3
    ensures var o := RevisitLoop(ImportDeclaration(specifiers, "./"), FileResolver(infos, nodeModules, srcPath), fuel);
      var d := Dirname(srcPath);
      |o.reports| == 3 &&
      o.reports[0].moduleInfo.filePath == d &&
      o.reports[1].moduleInfo.filePath == d + [".js"] &&
      o.reports[2].moduleInfo.filePath == d + [".js.js"] &&
      Handled(st, o.reports).newSrcs == st.newSrcs + [d, d + [".js.js"]]
  {
    var resolve := FileResolver(infos, nodeModules, srcPath);
    var d := Dirname(srcPath);
    OwnDirectoryResolutions(infos, nodeModules, srcPath);
    var n0 := ImportDeclaration(specifiers, "./");
    var n1 := ImportDeclaration(specifiers, "./.js");
    var n2 := ImportDeclaration(specifiers, ".js.js");
    assert resolve("./") == CustomModule(d, "./.js");
    assert resolve("./.js") == CustomModule(d + [".js"], ".js.js");
    assert resolve(".js.js") == CustomModule(d + [".js.js"], ".js.js");
    ImportVisit(specifiers, "./", resolve);
    ImportVisit(specifiers, "./.js", resolve);
    ImportVisit(specifiers, ".js.js", resolve);
    var v0, v1, v2 := VisitNode(n0, resolve), VisitNode(n1, resolve), VisitNode(n2, resolve);
    SettlesAfterTwo(n0, resolve, fuel);
    HandledThree(st, v0.info, v1.info, v2.info);
  }

  /** The visit of a static import whose resolution is known. */
  lemma ImportVisit(specifiers: seq<ImportSpec>, source: string, resolve: string -> ModuleInfo)
    ensures var v := VisitNode(ImportDeclaration(specifiers, source), resolve);
      var c := resolve(source).relativeJsImportPath;
      v.Visited? && v.info.importedPath == source && v.info.moduleInfo == resolve(source) &&
      v.info.newImportPath == c &&
      v.replacement == (if c != source then Some(ImportDeclaration(specifiers, c)) else None)
  {
  }

  /** A node replaced twice whose second replacement is stable. */
  lemma SettlesAfterTwo(n: Node, resolve: string -> ModuleInfo, fuel: nat)
    requires fuel >= 3
    requires var v0 := VisitNode(n, resolve);
      v0.Visited? && v0.replacement.Some? &&
      var v1 := VisitNode(v0.replacement.value, resolve);
      v1.Visited? && v1.replacement.Some? &&
      var v2 := VisitNode(v1.replacement.value, resolve);
      v2.Visited? && v2.replacement.None?
    ensures var v0 := VisitNode(n, resolve);
      var v1 := VisitNode(v0.replacement.value, resolve);
      var v2 := VisitNode(v1.replacement.value, resolve);
      RevisitLoop(n, resolve, fuel) == Outcome(v1.replacement.value, [v0.info, v1.info, v2.info], None, true)
  {
    var v0 := VisitNode(n, resolve);
    var n1 := v0.replacement.value;
    var v1 := VisitNode(n1, resolve);
    var n2 := v1.replacement.value;
    var v2 := VisitNode(n2, resolve);
    assert RevisitLoop(n2, resolve, fuel - 2) == Outcome(n2, [v2.info], None, true);
    assert RevisitLoop(n1, resolve, fuel - 1) == Outcome(n2, [v1.info, v2.info], None, true);
  }

  /** Three reports where the second is the first one's rewrite: the
      first and third are announced. */
  lemma HandledThree(st: HandlerState, a: ImportInfo, b: ImportInfo, c: ImportInfo)
    requires a.importedPath !in st.known && b.importedPath == a.newImportPath
    requires c.importedPath !in st.known && c.importedPath != a.newImportPath
    ensures Handled(st, [a, b, c]).newSrcs == st.newSrcs + [a.moduleInfo.filePath, c.moduleInfo.filePath]
  {
    var s1 := NewImportStep(st, a);
    assert Handled(st, [a]) == s1 by { assert [a][..0] == []; }
    assert Handled(st, [a, b]) == s1 by { assert [a, b][..1] == [a]; }
    assert [a, b, c][..2] == [a, b];
  }

  // ---------------------------------------------------------------------
  // The traversal as a stateful object
  // ---------------------------------------------------------------------

  /** One more node of a file whose prefix has no error. */
  lemma RewriteFileStep(program: seq<Node>, i: nat, resolve: string -> ModuleInfo, fuel: nat)
    requires i < |program| && RewriteFile(program[..i], resolve, fuel).error.None?
    ensures var pre := RewriteFile(program[..i], resolve, fuel);
      var o := RevisitLoop(program[i], resolve, fuel);
      RewriteFile(program[..i + 1], resolve, fuel) == FileOutcome(pre.nodes + [o.node], pre.reports + o.reports, o.error)
  {
    assert program[..i + 1][..i] == program[..i];
  }

  lemma Splice(done: seq<Node>, program: seq<Node>, i: nat, x: Node)
    requires |done| == i < |program|
    ensures (done + program[i..])[i] == program[i]
    ensures (done + program[i..])[i := x] == (done + [x]) + program[i + 1..]
  {
  }

  /** One traversal of a program's import-related nodes, in visit order, with
      the log of `onNewImport` calls and the error thrown, if any. */
  class Rewriter {
    const resolve: string -> ModuleInfo
    var nodes: seq<Node>
    var reports: seq<ImportInfo>
    var error: Option<ImportError>

    constructor (program: seq<Node>, resolve: string -> ModuleInfo)
      ensures this.resolve == resolve && nodes == program && reports == [] && error == None
    {
      this.resolve := resolve;
      nodes := program;
      reports := [];
      error := None;
    }

    /** One visitor call on `nodes[i]`: report first, then replace. */
    method VisitAt(i: nat) returns (stable: bool)
      requires i < |nodes|
      modifies this
      ensures var v := VisitNode(old(nodes[i]), resolve);
        match v
        case NoEffect => nodes == old(nodes) && reports == old(reports) && error == old(error) && stable
        case VisitFailed(e) => nodes == old(nodes) && reports == old(reports) && error == Some(e) && !stable
        case Visited(info, replacement) =>
          reports == old(reports) + [info] && error == old(error) &&
          nodes == (if replacement.Some? then old(nodes)[i := replacement.value] else old(nodes)) &&
          stable == replacement.None?
    {
      var v := VisitNode(nodes[i], resolve);
      match v
      case NoEffect =>
        stable := true;
      case VisitFailed(e) =>
        error := Some(e);
        stable := false;
      case Visited(info, replacement) =>
        reports := reports + [info];
        if replacement.Some? {
          nodes := nodes[i := replacement.value];
        }
        stable := replacement.None?;
    }

    /** Babel's revisit of a replaced node, bounded by `fuel` visits. */
    method VisitUntilStable(i: nat, fuel: nat) returns (stable: bool)
      requires i < |nodes| && error.None?
      modifies this
      ensures var o := RevisitLoop(old(nodes[i]), resolve, fuel);
        nodes == old(nodes)[i := o.node] && reports == old(reports) + o.reports &&
        error == o.error && stable == o.stable
    {
      ghost var o := RevisitLoop(nodes[i], resolve, fuel);
      ghost var origin, base := nodes, reports;
      ghost var done: seq<ImportInfo> := [];
      var visits := 0;
      stable := false;
      assert o == Continue(done, nodes[i], resolve, fuel, stable, error);
      while visits < fuel && !stable && error.None?
        invariant 0 <= visits <= fuel
        invariant |nodes| == |origin| && nodes == origin[i := nodes[i]]
        invariant reports == base + done
        invariant o == Continue(done, nodes[i], resolve, fuel - visits, stable, error)
        decreases fuel - visits
      {
        ContinueStep(done, nodes[i], resolve, fuel - visits);
        ghost var v := VisitNode(nodes[i], resolve);
        stable := VisitAt(i);
        if v.Visited? {
          AppendAssoc(base, done, [v.info]);
          done := done + [v.info];
        }
        visits := visits + 1;
      }
    }

    /** The whole traversal. */
    method Transform(fuel: nat)
      requires error.None?
      modifies this
      ensures var r := RewriteFile(old(nodes), resolve, fuel);
        nodes == r.nodes && reports == old(reports) + r.reports && error == r.error
    {
      ghost var program, before := nodes, reports;
      var i := 0;
      while i < |nodes| && error.None?
        invariant 0 <= i <= |program|
        invariant Progress(program, before, i, fuel)
        decreases |program| - i
      {
        TransformStep(program, before, i, fuel);
        i := i + 1;
      }
      if i < |program| {
        RewriteFileAfterError(program[..i], program[i..], resolve, fuel);
        assert program[..i] + program[i..] == program;
      } else {
        assert program[..i] == program && program[i..] == [];
        assert nodes == RewriteFile(program, resolve, fuel).nodes + [];
      }
    }

    /** The state after the first `i` nodes of `program` are visited. */
    ghost predicate Progress(program: seq<Node>, before: seq<ImportInfo>, i: nat, fuel: nat)
      reads this
    {
      && i <= |program|
      && var done := RewriteFile(program[..i], resolve, fuel);
      && nodes == done.nodes + program[i..]
      && reports == before + done.reports
      && error == done.error
    }

    /** Visiting node `i` extends the visited prefix by one. */
    method TransformStep(ghost program: seq<Node>, ghost before: seq<ImportInfo>, i: nat, fuel: nat)
      requires i < |program| && error.None? && Progress(program, before, i, fuel)
      modifies this
      ensures Progress(program, before, i + 1, fuel)
    {
      ghost var pre := RewriteFile(program[..i], resolve, fuel);
      ghost var o := RevisitLoop(program[i], resolve, fuel);
      RewriteFileStep(program, i, resolve, fuel);
      Splice(pre.nodes, program, i, o.node);
      var _ := VisitUntilStable(i, fuel);
      AppendAssoc(before, pre.reports, o.reports);
    }
  }
}
