/** The dependency catalog of `src/load-package-infos.ts`: a breadth-first
    walk over the package manifests below `node_modules`, starting at the
    root manifest's dependencies. The manifests are given as a map from
    the directory name below `node_modules` to the parsed `package.json`;
    a name without an entry is a manifest that cannot be read. */
module LoadPackageInfos {
  import opened Wrappers
  import opened NodePath
  import opened Types
  import HandleJs

  /** The fields of a `package.json` that are read (`moduleField` is `module`). `dependencies` holds the
      keys of the dependency object, in order. */
  datatype Manifest = Manifest(name: string, moduleField: Option<string>, main: Option<string>, dependencies: Option<seq<string>>)

  /** JavaScript truthiness of an optional string field: present and not "". */
  predicate Truthy(field: Option<string>) {
    field.Some? && field.value != ""
  }

  function Dependencies(m: Manifest): seq<string> {
    m.dependencies.GetOr([])
  }

  /** `modulePathFromPackageJson`. `requireResolve` stands for Node's
      `require.resolve`, which may throw (`None`). */
  function ModulePathFromPackageJson(nodeModules: AbsPath, m: Manifest, requireResolve: string -> Option<AbsPath>): AbsPath {
    var moduleDir := Join(nodeModules, m.name);
    if Truthy(m.moduleField) then Resolve(Join(moduleDir, m.moduleField.value))
    else if Truthy(m.main) then Resolve(Join(moduleDir, m.main.value))
    else requireResolve(m.name).GetOr(moduleDir)
  }

  /** `module` wins over `main`, `main` over the fallback, and a failing
      fallback leaves the package directory. */
  lemma ModulePathPreference(nodeModules: AbsPath, m: Manifest, requireResolve: string -> Option<AbsPath>)
    requires Normal(nodeModules)
    ensures var moduleDir := Join(nodeModules, m.name);
      var p := ModulePathFromPackageJson(nodeModules, m, requireResolve);
      (Truthy(m.moduleField) ==> p == Join(moduleDir, m.moduleField.value)) &&
      (!Truthy(m.moduleField) && Truthy(m.main) ==> p == Join(moduleDir, m.main.value)) &&
      (!Truthy(m.moduleField) && !Truthy(m.main) ==>
        p == (if requireResolve(m.name).Some? then requireResolve(m.name).value else moduleDir))
  {
    var moduleDir := Join(nodeModules, m.name);
    if Truthy(m.moduleField) {
      ResolveNormal(Join(moduleDir, m.moduleField.value));
    } else if Truthy(m.main) {
      ResolveNormal(Join(moduleDir, m.main.value));
    }
  }

  /** An entry field with no `..` segment points inside the package
      directory. */
  lemma ModulePathInsidePackage(nodeModules: AbsPath, m: Manifest, requireResolve: string -> Option<AbsPath>)
    requires Normal(nodeModules)
    requires Truthy(m.moduleField) || Truthy(m.main)
    requires var field := if Truthy(m.moduleField) then m.moduleField.value else m.main.value;
      ".." !in Split(field)
    ensures Join(nodeModules, m.name) <= ModulePathFromPackageJson(nodeModules, m, requireResolve)
  {
    var moduleDir := Join(nodeModules, m.name);
    var field := if Truthy(m.moduleField) then m.moduleField.value else m.main.value;
    ModulePathPreference(nodeModules, m, requireResolve);
    WalkExtends(moduleDir, Split(field));
  }

  /** `toPackageInfo`. */
  function ToPackageInfo(nodeModules: AbsPath, m: Manifest, requireResolve: string -> Option<AbsPath>): PackageInfo {
    PackageInfo(Join(nodeModules, m.name), ModulePathFromPackageJson(nodeModules, m, requireResolve), m.name)
  }

  /** The entry is named after the manifest's `name`, sits at
      `nodeModules/name`, and a bare import of that name selects it. */
  lemma ToPackageInfoNamesItself(nodeModules: AbsPath, m: Manifest, requireResolve: string -> Option<AbsPath>)
    requires Normal(nodeModules)
    ensures var info := ToPackageInfo(nodeModules, m, requireResolve);
      info.packageName == m.name && info.path == Join(nodeModules, m.name) && Normal(info.path) &&
      HandleJs.ImportedIsPackage(m.name, info.packageName) &&
      HandleJs.FilePathFromPackage(nodeModules, m.name, info) == info.defaultFilePath
  {
  }

  // ---------------------------------------------------------------------
  // The walk
  // ---------------------------------------------------------------------

  /** `x` was put into the queue: it is a root dependency or a dependency
      of one of the `order` packages. */
  predicate Enqueued(x: string, rootDeps: seq<string>, order: seq<string>, manifests: map<string, Manifest>) {
    x in rootDeps || exists j :: 0 <= j < |order| && order[j] in manifests && x in Dependencies(manifests[order[j]])
  }

  /** Every name of `order` was enqueued by the root or by an earlier entry:
      the names form a breadth-first discovery order. */
  predicate Discovered(rootDeps: seq<string>, order: seq<string>, manifests: map<string, Manifest>) {
    forall i :: 0 <= i < |order| ==> Enqueued(order[i], rootDeps, order[..i], manifests)
  }

  /** Nothing reachable is missing: the root's and every processed
      package's dependencies are all processed. */
  predicate Closed(rootDeps: seq<string>, names: set<string>, manifests: map<string, Manifest>) {
    (forall x :: x in rootDeps ==> x in names) &&
    (forall n, x :: n in names && n in manifests && x in Dependencies(manifests[n]) ==> x in names)
  }

  predicate Distinct(xs: seq<string>) {
    forall i, j :: 0 <= i < j < |xs| ==> xs[i] != xs[j]
  }

  /** `loadPackageInfos`. The rounds of `queue.splice(0, queue.length)` are
      the levels of a first-in-first-out walk, which is how the loop takes
      them. `processed` names the packages in the order their entries were
      appended. A manifest that cannot be read fails the whole call with
      its name. */
  method LoadPackageInfos(nodeModules: AbsPath, root: Manifest, manifests: map<string, Manifest>, requireResolve: string -> Option<AbsPath>)
    returns (r: Result<seq<PackageInfo>, string>, ghost processed: seq<string>)
    ensures root.dependencies.None? ==> r == Success([])
    ensures forall i :: 0 <= i < |processed| ==> processed[i] in manifests
    ensures Distinct(processed) && Discovered(Dependencies(root), processed, manifests)
    ensures r.Success? ==> r.value == Infos(nodeModules, manifests, requireResolve, processed)
    ensures r.Success? ==> Closed(Dependencies(root), set i | 0 <= i < |processed| :: processed[i], manifests)
    ensures r.Failure? ==>
      r.error !in manifests && r.error !in processed && Enqueued(r.error, Dependencies(root), processed, manifests)
  {
    var rootDeps := Dependencies(root);
    var done: set<string> := {};
    var queue := rootDeps;
    var res: seq<PackageInfo> := [];
    processed := [];
    while queue != []
      invariant WalkInv(nodeModules, rootDeps, manifests, requireResolve, done, queue, processed, res)
      decreases |manifests.Keys - done|, |queue|
    {
      var name := queue[0];
      if name in done {
        WalkPopKnown(nodeModules, rootDeps, manifests, requireResolve, done, queue, processed, res);
        queue := queue[1..];
        continue;
      }
      if name !in manifests {
        assert QueueFrom(queue, rootDeps, processed, manifests);
        return Failure(name), processed;
      }
      var m := manifests[name];
      WalkPopNew(nodeModules, rootDeps, manifests, requireResolve, done, queue, processed, res);
      assert manifests.Keys - (done + {name}) < manifests.Keys - done;
      done := done + {name};
      processed := processed + [name];
      queue := queue[1..] + Dependencies(m);
      res := res + [ToPackageInfo(nodeModules, m, requireResolve)];
    }
    WalkDone(nodeModules, rootDeps, manifests, requireResolve, done, processed, res);
    r := Success(res);
  }

  /** The loop invariant of `LoadPackageInfos`. */
  ghost predicate WalkInv(nodeModules: AbsPath, rootDeps: seq<string>, manifests: map<string, Manifest>, requireResolve: string -> Option<AbsPath>,
                    done: set<string>, queue: seq<string>, processed: seq<string>, res: seq<PackageInfo>) {
    && (forall x :: x in done <==> x in processed)
    && Distinct(processed)
    && (forall i :: 0 <= i < |processed| ==> processed[i] in manifests)
    && res == Infos(nodeModules, manifests, requireResolve, processed)
    && Discovered(rootDeps, processed, manifests)
    && QueueFrom(queue, rootDeps, processed, manifests)
    && Frontier(rootDeps, done, queue, manifests)
    && (rootDeps == [] ==> processed == [] && queue == [])
  }

  lemma WalkPopKnown(nodeModules: AbsPath, rootDeps: seq<string>, manifests: map<string, Manifest>, requireResolve: string -> Option<AbsPath>,
                     done: set<string>, queue: seq<string>, processed: seq<string>, res: seq<PackageInfo>)
    requires WalkInv(nodeModules, rootDeps, manifests, requireResolve, done, queue, processed, res)
    requires queue != [] && queue[0] in done
    ensures WalkInv(nodeModules, rootDeps, manifests, requireResolve, done, queue[1..], processed, res)
  {
    PopKnown(rootDeps, done, queue, processed, manifests);
  }

  lemma WalkPopNew(nodeModules: AbsPath, rootDeps: seq<string>, manifests: map<string, Manifest>, requireResolve: string -> Option<AbsPath>,
                   done: set<string>, queue: seq<string>, processed: seq<string>, res: seq<PackageInfo>)
    requires WalkInv(nodeModules, rootDeps, manifests, requireResolve, done, queue, processed, res)
    requires queue != [] && queue[0] !in done && queue[0] in manifests
    ensures var name := queue[0];
      WalkInv(nodeModules, rootDeps, manifests, requireResolve, done + {name}, queue[1..] + Dependencies(manifests[name]),
              processed + [name], res + [ToPackageInfo(nodeModules, manifests[name], requireResolve)])
  {
    var name := queue[0];
    PopNew(rootDeps, done, queue, processed, manifests);
    DistinctSnoc(processed, name);
    var processed' := processed + [name];
    assert forall x :: x in done + {name} <==> x in processed';
    assert forall i :: 0 <= i < |processed'| ==> processed'[i] in manifests;
    InfosSnoc(nodeModules, manifests, requireResolve, processed, name);
  }

  lemma InfosSnoc(nodeModules: AbsPath, manifests: map<string, Manifest>, requireResolve: string -> Option<AbsPath>, order: seq<string>, name: string)
    requires forall i :: 0 <= i < |order| ==> order[i] in manifests
    requires name in manifests
    ensures forall i :: 0 <= i < |order + [name]| ==> (order + [name])[i] in manifests
    ensures Infos(nodeModules, manifests, requireResolve, order + [name]) ==
      Infos(nodeModules, manifests, requireResolve, order) + [ToPackageInfo(nodeModules, manifests[name], requireResolve)]
  {
    assert (order + [name])[..|order|] == order;
  }

  lemma WalkDone(nodeModules: AbsPath, rootDeps: seq<string>, manifests: map<string, Manifest>, requireResolve: string -> Option<AbsPath>,
                 done: set<string>, processed: seq<string>, res: seq<PackageInfo>)
    requires WalkInv(nodeModules, rootDeps, manifests, requireResolve, done, [], processed, res)
    ensures rootDeps == [] ==> res == []
    ensures Closed(rootDeps, set i | 0 <= i < |processed| :: processed[i], manifests)
  {
    assert (set i | 0 <= i < |processed| :: processed[i]) == done;
    FrontierClosed(rootDeps, done, manifests);
  }

  /** The entries of the packages `order`, in order. */
  function Infos(nodeModules: AbsPath, manifests: map<string, Manifest>, requireResolve: string -> Option<AbsPath>, order: seq<string>): (r: seq<PackageInfo>)
    requires forall i :: 0 <= i < |order| ==> order[i] in manifests
    ensures |r| == |order|
    ensures forall i :: 0 <= i < |order| ==> r[i] == ToPackageInfo(nodeModules, manifests[order[i]], requireResolve)
    decreases |order|
  {
    if order == [] then []
    else Infos(nodeModules, manifests, requireResolve, order[..|order| - 1]) + [ToPackageInfo(nodeModules, manifests[order[|order| - 1]], requireResolve)]
  }

  /** Every queued name was enqueued by the root or by a processed package. */
  predicate QueueFrom(queue: seq<string>, rootDeps: seq<string>, order: seq<string>, manifests: map<string, Manifest>) {
    forall k :: 0 <= k < |queue| ==> Enqueued(queue[k], rootDeps, order, manifests)
  }

  /** Whatever has been enqueued is processed or still queued. */
  predicate Frontier(rootDeps: seq<string>, done: set<string>, queue: seq<string>, manifests: map<string, Manifest>) {
    (forall x :: x in rootDeps ==> x in done || x in queue) &&
    (forall n, x :: n in done && n in manifests && x in Dependencies(manifests[n]) ==> x in done || x in queue)
  }

  lemma FrontierClosed(rootDeps: seq<string>, done: set<string>, manifests: map<string, Manifest>)
    requires Frontier(rootDeps, done, [], manifests)
    ensures Closed(rootDeps, done, manifests)
  {
  }

  /** Dropping a name that is already done. */
  lemma PopKnown(rootDeps: seq<string>, done: set<string>, queue: seq<string>, order: seq<string>, manifests: map<string, Manifest>)
    requires queue != [] && queue[0] in done
    requires Frontier(rootDeps, done, queue, manifests) && QueueFrom(queue, rootDeps, order, manifests)
    ensures Frontier(rootDeps, done, queue[1..], manifests) && QueueFrom(queue[1..], rootDeps, order, manifests)
  {
    assert forall x :: x in queue ==> x == queue[0] || x in queue[1..];
    assert forall k :: 0 <= k < |queue| - 1 ==> queue[1..][k] == queue[k + 1];
  }

  /** Processing a new name: it becomes done and its dependencies join the
      queue. */
  lemma PopNew(rootDeps: seq<string>, done: set<string>, queue: seq<string>, order: seq<string>, manifests: map<string, Manifest>)
    requires queue != [] && queue[0] !in done && queue[0] in manifests
    requires Frontier(rootDeps, done, queue, manifests) && QueueFrom(queue, rootDeps, order, manifests)
    requires Discovered(rootDeps, order, manifests)
    ensures var name := queue[0];
      var queue' := queue[1..] + Dependencies(manifests[name]);
      Frontier(rootDeps, done + {name}, queue', manifests) &&
      QueueFrom(queue', rootDeps, order + [name], manifests) &&
      Discovered(rootDeps, order + [name], manifests)
  {
    var name := queue[0];
    var deps := Dependencies(manifests[name]);
    var queue' := queue[1..] + deps;
    assert forall x :: x in queue ==> x == name || x in queue';
    assert forall x :: x in deps ==> x in queue';
    EnqueuedGrows(order, name, rootDeps, manifests, queue);
    forall k | 0 <= k < |queue'|
      ensures Enqueued(queue'[k], rootDeps, order + [name], manifests)
    {
      if k < |queue| - 1 {
        assert queue'[k] == queue[k + 1];
      } else {
        assert queue'[k] in deps;
      }
    }
    assert Enqueued(name, rootDeps, order, manifests);
    DiscoveredGrows(rootDeps, order, name, manifests);
  }

  lemma DistinctSnoc(xs: seq<string>, x: string)
    requires Distinct(xs) && x !in xs
    ensures Distinct(xs + [x])
  {
  }

  /** The queue's provenance survives appending a processed name. */
  lemma EnqueuedGrows(order: seq<string>, name: string, rootDeps: seq<string>, manifests: map<string, Manifest>, queue: seq<string>)
    requires QueueFrom(queue, rootDeps, order, manifests)
    requires name in manifests
    ensures QueueFrom(queue, rootDeps, order + [name], manifests)
    ensures forall x :: x in Dependencies(manifests[name]) ==> Enqueued(x, rootDeps, order + [name], manifests)
  {
    var order' := order + [name];
    forall k | 0 <= k < |queue|
      ensures Enqueued(queue[k], rootDeps, order', manifests)
    {
      if queue[k] !in rootDeps {
        var j :| 0 <= j < |order| && order[j] in manifests && queue[k] in Dependencies(manifests[order[j]]);
        assert order'[j] == order[j];
      }
    }
    forall x | x in Dependencies(manifests[name])
      ensures Enqueued(x, rootDeps, order', manifests)
    {
      assert order'[|order|] == name;
    }
  }

  lemma DiscoveredGrows(rootDeps: seq<string>, order: seq<string>, name: string, manifests: map<string, Manifest>)
    requires Discovered(rootDeps, order, manifests)
    requires Enqueued(name, rootDeps, order, manifests)
    ensures Discovered(rootDeps, order + [name], manifests)
  {
    var order' := order + [name];
    forall i | 0 <= i < |order'|
      ensures Enqueued(order'[i], rootDeps, order'[..i], manifests)
    {
      if i < |order| {
        assert order'[..i] == order[..i];
      } else {
        assert order'[..i] == order;
      }
    }
  }
}
