/** The earlier, self-contained driver of `src/builder.ts`: a catalog made
    of the root manifest's own dependencies only, and a traversal whose
    readiness check looks at `isReady` again after waiting, so that once
    ready it stays ready. Its resolver helpers are the ones of the
    handle-js module and are not repeated here. */
module Builder {
  import opened Wrappers
  import opened NodePath
  import opened Types
  import opened Utils
  import LoadPackageInfos
  import DevServer

  datatype BuildError =
    /** `Object.keys(pkg.dependencies)` on a root manifest without them. */
    | NoDependencies
    /** `node_modules/<dep>/package.json` cannot be read. */
    | UnreadableManifest(dep: string)
    /** `require.resolve(dep)` throws. */
    | Unresolvable(dep: string)

  /** `dependencyToModulePath`. The manifest of a dependency is looked up
      under its key; `requireResolve` stands for `require.resolve`, whose
      failure is not caught here. */
  function DependencyToModulePath(nodeModules: AbsPath, dep: string, manifests: map<string, LoadPackageInfos.Manifest>,
                                  requireResolve: string -> Option<AbsPath>): Result<AbsPath, BuildError> {
    var moduleDir := Join(nodeModules, dep);
    if dep !in manifests then Failure(UnreadableManifest(dep))
    else
      var m := manifests[dep];
      if LoadPackageInfos.Truthy(m.moduleField) then Success(Resolve(Join(moduleDir, m.moduleField.value)))
      else if LoadPackageInfos.Truthy(m.main) then Success(Resolve(Join(moduleDir, m.main.value)))
      else match requireResolve(dep)
        case None => Failure(Unresolvable(dep))
        case Some(p) => Success(p)
  }

  /** `toPackageInfo`: the entry is named after the dependency key. */
  function ToPackageInfo(nodeModules: AbsPath, dep: string, manifests: map<string, LoadPackageInfos.Manifest>,
                         requireResolve: string -> Option<AbsPath>): Result<PackageInfo, BuildError> {
    match DependencyToModulePath(nodeModules, dep, manifests, requireResolve)
    case Failure(e) => Failure(e)
    case Success(p) => Success(PackageInfo(Join(nodeModules, dep), p, dep))
  }

  /** What one dependency gives: the entry sits at `nodeModules/dep` and is
      named `dep`; it fails exactly when the manifest is missing, or when
      neither `module` nor `main` is set and `require.resolve` throws. */
  lemma ToPackageInfoRules(nodeModules: AbsPath, dep: string, manifests: map<string, LoadPackageInfos.Manifest>,
                           requireResolve: string -> Option<AbsPath>)
    ensures var r := ToPackageInfo(nodeModules, dep, manifests, requireResolve);
      (r.Success? ==> r.value.packageName == dep && r.value.path == Join(nodeModules, dep)) &&
      (r == Failure(UnreadableManifest(dep)) <==> dep !in manifests) &&
      (r == Failure(Unresolvable(dep)) <==>
        dep in manifests && !LoadPackageInfos.Truthy(manifests[dep].moduleField) &&
        !LoadPackageInfos.Truthy(manifests[dep].main) && requireResolve(dep).None?) &&
      (r.Failure? ==> r.error == UnreadableManifest(dep) || r.error == Unresolvable(dep))
  {
  }

  /** Where the two catalog builders can be compared, for a manifest named
      after its key and an entry point that is found, they build the same
      entry. */
  lemma AgreesWithLoader(nodeModules: AbsPath, dep: string, manifests: map<string, LoadPackageInfos.Manifest>,
                         requireResolve: string -> Option<AbsPath>)
    requires dep in manifests && manifests[dep].name == dep
    requires LoadPackageInfos.Truthy(manifests[dep].moduleField) || LoadPackageInfos.Truthy(manifests[dep].main) ||
      requireResolve(dep).Some?
    ensures ToPackageInfo(nodeModules, dep, manifests, requireResolve) ==
      Success(LoadPackageInfos.ToPackageInfo(nodeModules, manifests[dep], requireResolve))
  {
  }

  /** And where they differ: with no entry field and a throwing
      `require.resolve`, this one fails while the loader falls back to the
      package directory. */
  lemma DiffersFromLoaderOnFallback(nodeModules: AbsPath, dep: string, manifests: map<string, LoadPackageInfos.Manifest>,
                                    requireResolve: string -> Option<AbsPath>)
    requires dep in manifests && manifests[dep].name == dep
    requires !LoadPackageInfos.Truthy(manifests[dep].moduleField) && !LoadPackageInfos.Truthy(manifests[dep].main)
    requires requireResolve(dep).None?
    ensures ToPackageInfo(nodeModules, dep, manifests, requireResolve) == Failure(Unresolvable(dep))
    ensures LoadPackageInfos.ToPackageInfo(nodeModules, manifests[dep], requireResolve).defaultFilePath == Join(nodeModules, dep)
  {
  }

  /** `Promise.all(xs.map(f))`: one result per element, in order, or the
      failure of the first failing one. */
  function AllOf<T, E>(f: string -> Result<T, E>, xs: seq<string>): (r: Result<seq<T>, E>)
    ensures r.Success? ==> |r.value| == |xs|
    decreases |xs|
  {
    if xs == [] then Success([])
    else
      var pre := AllOf(f, xs[..|xs| - 1]);
      if pre.Failure? then pre
      else match f(xs[|xs| - 1])
        case Failure(e) => Failure(e)
        case Success(v) => Success(pre.value + [v])
  }

  /** `AllOf` succeeds exactly when every element does; it then holds each
      element's result at its own position, and a failure is the failure
      of one of them. */
  lemma {:induction false} AllOfEach<T, E>(f: string -> Result<T, E>, xs: seq<string>)
    ensures var r := AllOf(f, xs);
      (r.Success? <==> forall i :: 0 <= i < |xs| ==> f(xs[i]).Success?) &&
      (r.Success? ==> forall i :: 0 <= i < |xs| ==> r.value[i] == f(xs[i]).value) &&
      (r.Failure? ==> exists i :: 0 <= i < |xs| && f(xs[i]) == Failure(r.error))
    decreases |xs|
  {
    if xs != [] {
      var n := |xs| - 1;
      var init := xs[..n];
      assert forall i :: 0 <= i < n ==> init[i] == xs[i];
      AllOfEach(f, init);
      var pre := AllOf(f, init);
      if pre.Failure? {
        var i :| 0 <= i < n && f(init[i]) == Failure(pre.error);
        assert f(xs[i]) == Failure(pre.error);
      }
    }
  }

  /** The dependencies' entries, in key order. */
  function InfosFor(nodeModules: AbsPath, deps: seq<string>, manifests: map<string, LoadPackageInfos.Manifest>,
                    requireResolve: string -> Option<AbsPath>): (r: Result<seq<PackageInfo>, BuildError>)
    ensures r.Success? ==> |r.value| == |deps|
  {
    AllOf(dep => ToPackageInfo(nodeModules, dep, manifests, requireResolve), deps)
  }

  /** `loadPackageInfos` of the builder: no walk into the dependencies'
      own manifests. */
  function PackageInfos(nodeModules: AbsPath, root: LoadPackageInfos.Manifest, manifests: map<string, LoadPackageInfos.Manifest>,
                        requireResolve: string -> Option<AbsPath>): Result<seq<PackageInfo>, BuildError> {
    match root.dependencies
    case None => Failure(NoDependencies)
    case Some(deps) => InfosFor(nodeModules, deps, manifests, requireResolve)
  }

  /** The catalog lists the root's dependencies, each under its own key,
      and nothing else; a root without `dependencies` is an error. */
  lemma PackageInfosAreRootDeps(nodeModules: AbsPath, root: LoadPackageInfos.Manifest, manifests: map<string, LoadPackageInfos.Manifest>,
                                requireResolve: string -> Option<AbsPath>)
    ensures var r := PackageInfos(nodeModules, root, manifests, requireResolve);
      (root.dependencies.None? <==> r == Failure(NoDependencies)) &&
      (r.Success? ==>
        |r.value| == |root.dependencies.value| &&
        (forall i :: 0 <= i < |r.value| ==>
          r.value[i].packageName == root.dependencies.value[i] &&
          r.value[i].path == Join(nodeModules, root.dependencies.value[i])))
  {
    if root.dependencies.Some? {
      var deps := root.dependencies.value;
      var f := dep => ToPackageInfo(nodeModules, dep, manifests, requireResolve);
      AllOfEach(f, deps);
      var r := InfosFor(nodeModules, deps, manifests, requireResolve);
      assert r == AllOf(f, deps);
      if r.Success? {
        forall i | 0 <= i < |deps|
          ensures r.value[i].packageName == deps[i] && r.value[i].path == Join(nodeModules, deps[i])
        {
          ToPackageInfoRules(nodeModules, deps[i], manifests, requireResolve);
        }
      } else {
        var i :| 0 <= i < |deps| && ToPackageInfo(nodeModules, deps[i], manifests, requireResolve) == Failure(r.error);
        ToPackageInfoRules(nodeModules, deps[i], manifests, requireResolve);
      }
    }
  }

  // ---------------------------------------------------------------------
  // The server
  // ---------------------------------------------------------------------

  /** The state of `start()` after the catalog is loaded: the `done` map and
      the handlers started (the same traversal as the dev server), the
      length of `firstPromises`, the `then(checkIsReady)` callbacks not yet
      run, the snapshots of the checks waiting on `Promise.all`, `isReady`,
      how often `bs.init` ran, and the paths passed to `bs.reload`. */
  class Server {
    var done: map<AbsPath, bool>
    var dispatched: seq<(AbsPath, DevServer.Handler)>
    var promises: nat
    var scheduled: nat
    ghost var waiting: multiset<nat>
    var isReady: bool
    var inits: nat
    var reloads: seq<string>
    const outPath: AbsPath

    ghost predicate Valid()
      reads this
    {
      && promises == |dispatched|
      && (forall s :: s in waiting ==> s <= promises)
      && inits == (if isReady then 1 else 0)
    }

    function State(): DevServer.Traversal
      reads this
    {
      DevServer.Traversal(done, dispatched)
    }

    /** `start()` once the catalog is loaded: seeded with `rootPath/index.html`. */
    constructor (root: AbsPath, outPath: AbsPath)
      ensures Valid()
      ensures State() == DevServer.NewFileStep(DevServer.Traversal(map[], []), root + ["index.html"])
      ensures dispatched == [(root + ["index.html"], DevServer.HtmlHandler)]
      ensures promises == 1 && scheduled == 1 && waiting == multiset{}
      ensures !isReady && reloads == [] && this.outPath == outPath
    {
      done, dispatched, promises, scheduled := map[], [], 0, 0;
      waiting := multiset{};
      isReady, inits, reloads := false, 0, [];
      this.outPath := outPath;
      new;
      DevServer.IndexIsHtml(root);
      HandleNewFile(root + ["index.html"]);
    }

    /** `handleNewFile(path)`: a started handler's promise is pushed to
        `firstPromises` and schedules one readiness check. */
    method HandleNewFile(path: AbsPath)
      requires Valid()
      modifies this
      ensures Valid()
      ensures State() == DevServer.NewFileStep(old(State()), path)
      ensures scheduled == old(scheduled) + |dispatched| - |old(dispatched)|
      ensures isReady == old(isReady) && inits == old(inits) && reloads == old(reloads) && waiting == old(waiting)
    {
      if path in done && done[path] {
        return;
      }
      done := done[path := true];
      var kind := DevServer.DispatchKind(path);
      if kind.Some? {
        dispatched := dispatched + [(path, kind.value)];
        promises := promises + 1;
        scheduled := scheduled + 1;
      }
    }

    /** `handleUnlink(path)`. */
    method HandleUnlink(path: AbsPath)
      requires Valid()
      modifies this
      ensures Valid()
      ensures State() == DevServer.UnlinkStep(old(State()), path)
      ensures isReady == old(isReady) && inits == old(inits) && reloads == old(reloads)
      ensures scheduled == old(scheduled) && waiting == old(waiting)
    {
      done := done[path := false];
    }

    /** `handleChange(outputPath)`: once ready, the browser reloads the
        output path relative to the output directory, with '/' separators. */
    method HandleChange(outputPath: AbsPath)
      requires Valid()
      modifies this
      ensures Valid()
      ensures reloads == old(reloads) + (if isReady then [Slash(Relative(outPath, outputPath))] else [])
      ensures State() == old(State()) && isReady == old(isReady) && inits == old(inits)
      ensures scheduled == old(scheduled) && waiting == old(waiting)
    {
      if isReady {
        reloads := reloads + [Slash(Relative(outPath, outputPath))];
      }
    }

    /** `checkIsReady` up to its `await`: nothing once ready, otherwise a
        snapshot of `firstPromises`. */
    method BeginCheck() returns (snapshot: Option<nat>)
      requires Valid() && scheduled > 0
      modifies this
      ensures Valid()
      ensures scheduled == old(scheduled) - 1
      ensures old(isReady) ==> snapshot == None && waiting == old(waiting)
      ensures !old(isReady) ==> snapshot == Some(promises) && waiting == old(waiting) + multiset{promises}
      ensures State() == old(State()) && isReady == old(isReady) && inits == old(inits) && reloads == old(reloads)
    {
      scheduled := scheduled - 1;
      if isReady {
        return None;
      }
      snapshot := Some(promises);
      waiting := waiting + multiset{promises};
    }

    /** `checkIsReady` after its `await`: readiness is looked at again, so it
        is never withdrawn, and `bs.init` runs at most once. */
    method ResumeCheck(snapshot: nat) returns (started: bool)
      requires Valid() && snapshot in waiting
      modifies this
      ensures Valid()
      ensures waiting == old(waiting) - multiset{snapshot}
      ensures isReady == (old(isReady) || snapshot == promises)
      ensures started == (!old(isReady) && isReady)
      ensures inits == old(inits) + (if started then 1 else 0) && inits <= 1
      ensures State() == old(State()) && reloads == old(reloads) && scheduled == old(scheduled)
    {
      waiting := waiting - multiset{snapshot};
      started := false;
      if isReady {
        return;
      }
      isReady := snapshot == promises;
      if isReady {
        inits := inits + 1;
        started := true;
      }
    }
  }
}
