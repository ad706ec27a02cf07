# babel-build: the module graph of the development build, in Dafny

babel-build is a small development server. It starts from the project's
`index.html`. It passes every JavaScript file it reaches through a Babel
plugin that rewrites bare and extension-less import specifiers into
relative paths ending in `.js`. Each file the plugin finds is announced
to the traversal. A path with the extension `.js`, `.mjs` or `.html` is
handed to a handler at most once between unlinks of that path; other
paths go to no handler. The browser is reloaded only after the first wave
of handlers has settled.

The project models that core:

- **`NodePath`** (`nodepath.dfy`): the parts of Node's `path` module that
  the core relies on. It covers `join`, `resolve`, `dirname`, `relative`,
  `basename` and `extname`, over absolute paths written as segment lists.
- **`Utils`** (`utils.dfy`): the helpers of `src/utils.ts`. These are
  `slash`, `urlRelative`, `toJsExt`, `either`, the memo of `createMemo`,
  the event of `createNewEvent` and the promise queue of `newPromiseQueue`.
- **`Types`** (`custom_types.dfy`): the records of `src/customTypes.ts`.
- **`HandleJs`** (`handle-js.ts`): the resolver `moduleInfoFromPath`, the
  once-per-specifier memo of `handleNewImport`, and the output path.
- **`BabelAst`**: the Babel node shapes the two plugins read.
- **`RewritePlugin`**: the rewriting plugin of `src/new-babel-plugin-ts.ts`.
  This includes Babel's revisit of a replaced node.
- **`GetImportsPlugin`**: the read-only plugin of
  `src/babel-plugin-get-imports.ts`.
- **`LoadPackageInfos`**: the breadth-first dependency catalog of
  `src/load-package-infos.ts`.
- **`DevServer`**: the traversal of `src/dev-server.ts`.
- **`Builder`**: the traversal of `src/builder.ts`. It has its own
  readiness check and its own catalog, which is not transitive.

Stateful code stays stateful:

- The memo, the event, the promise queue, the per-file state of
  `handleJs`, the plugin's traversal and both servers are classes. Their
  methods are proved against the pure step functions.
- The catalog walk is a `while` loop over a queue.
- The plugin run over a program is a loop that fires an event.

The central property is convergence of the rewrite. Babel revisits every
node the plugin replaces. The plugin relies on the rewritten specifier
resolving to itself, as the comments at `src/new-babel-plugin-ts.ts`
lines 49 and 138-140 require. `HandleJs.CanonicalFixpoint` proves this
for every target that is not an ancestor directory of the importing
file. `RewritePlugin.RewriteFileIdempotent` lifts the property to a whole
file. `RewritePlugin.RewriteAnnouncesOnce` shows that the revisit does not
announce the file a second time. For an import of the importing file's own
directory the specifier is not canonical, and
`RewritePlugin.OwnDirectoryImportSettles` follows that case to the end.

The code's comments say that a rewritten import is handled once
(`src/handle-js.ts:97-99`). They also say that the server starts once
every initial import has been processed (`src/dev-server.ts:23`). The
model follows what the code does, which differs in five places:

- A specifier that is not canonical, written twice in one file, is
  announced twice (`HandleJs.NonCanonicalRepeatAnnouncedTwice`).
- The queue of `src/utils.ts` can withdraw readiness once given. Two
  checks that took the same snapshot resume in the order they began; if a
  promise is added between the two, the second check sets `isReady` back
  to `false` (`Utils.ReadinessCanBeWithdrawn`). The builder's check never
  withdraws readiness (`Builder.Server.ResumeCheck`).
- The rewriting plugin has no `ExportAllDeclaration` visitor. `export *
  from` is therefore neither rewritten nor announced, while the read-only
  plugin reports it (`GetImportsPlugin.ExtractAgreesWithRewriter`).
- An import of the importing file's own directory settles only after two
  replacements, and on a different file. `./` becomes `./.js`, which names
  the file `.js` beside the importer. That becomes the bare `.js.js`: a name
  that starts with `.` gets no `./`. `.js.js` names the file `.js.js` and is
  its own rewrite. The directory and the file `.js.js` are announced
  (`RewritePlugin.OwnDirectoryImportSettles`).
- The builder's `dependencyToModulePath` fails where the loader falls
  back to the package directory (`Builder.DiffersFromLoaderOnFallback`).

## Model

| member | source | states |
|---|---|---|
| NodePath.Split | src/handle-js.ts:65 | splitting at `/` gives at least one piece, and no piece contains `/` |
| NodePath.SplitJoin | src/handle-js.ts:65 | joining segments that contain no `/` with `/`, then splitting, gives back exactly those segments |
| NodePath.Join | src/handle-js.ts:51 | `resolve(join(base, rel))` stays normalised when the base is |
| NodePath.Resolve | src/handle-js.ts:51 | `resolve` of pieces free of `/` is a normalised absolute path |
| NodePath.Dirname | src/handle-js.ts:51 | `dirname` keeps a path normalised, and the directory followed by the last segment is the path |
| NodePath.WalkNormal | src/handle-js.ts:28 | joining a normalised relative path appends its segments to the base |
| NodePath.ResolveNormal | src/load-package-infos.ts:26 | `resolve` leaves a normalised absolute path unchanged |
| NodePath.WalkUps | src/utils.ts:27 | walking `n` segments `..` from a path climbs exactly `n` directories |
| NodePath.WalkExtends | src/handle-js.ts:51 | a relative path without `..` leads below its base |
| NodePath.CommonPrefix | src/utils.ts:27 | the paths agree up to the common prefix and differ just after it, unless one of them ends there |
| NodePath.CommonPrefixUnique | src/utils.ts:27 | any length with those two properties is the common prefix, so `relative` is well defined |
| NodePath.WalkRelativeSegs | src/utils.ts:27 | walking the segments of `relative(from, to)` from `from` reaches `to` |
| NodePath.RelativeRoundTrip | src/utils.ts:27 | `resolve(join(from, relative(from, to)))` gives back `to` |
| NodePath.RelativeSegsShape | src/utils.ts:27 | every segment of `relative` is non-empty and free of `/`, and free of `\` when the target is |
| NodePath.RelativeBelow | src/handle-js.ts:83 | relative to an ancestor, `relative` is the remaining segments |
| NodePath.RelativeSelf | src/utils.ts:27 | `relative` of a path to itself is empty |
| NodePath.JoinDotSlash | src/handle-js.ts:51 | joining `./` to a base gives the base |
| NodePath.JoinSegment | src/handle-js.ts:51 | joining a single segment appends it to the base |
| NodePath.JoinDotSlashSegment | src/handle-js.ts:51 | joining `./name` appends `name`, as joining `name` does |
| NodePath.Walk | src/handle-js.ts:51 | its contract is carried by `NodePath.WalkNormal`, `NodePath.WalkUps`, `NodePath.WalkExtends` and `NodePath.WalkRelativeSegs`: a normalised walk appends, `..` climbs, and the segments of `relative` reach the target |
| NodePath.Relative | src/utils.ts:27 | its contract is carried by `NodePath.RelativeRoundTrip`, `NodePath.RelativeSegsShape` and `NodePath.RelativeBelow`: joining the result to `from` gives back `to` |
| NodePath.Extname | src/utils.ts:59 | its contract is carried by `NodePath.ExtnameSuffix`, `NodePath.ExtnameShorter` and `NodePath.ExtnameAfterSlash`: the extension is a suffix of the basename that starts with `.`, after a non-empty stem |
| NodePath.Basename | src/utils.ts:59 | the basename contains no `/` and is no longer than the path |
| NodePath.BasenameSplit | src/utils.ts:59 | the path is a prefix followed by its basename, and that prefix is empty or ends in `/` |
| NodePath.BasenameAppend | src/utils.ts:62 | appending text without `/` extends the basename by that text |
| NodePath.BasenameAfterSlash | src/utils.ts:62 | a name after a `/` is the basename |
| NodePath.ExtOfSuffix | src/utils.ts:59 | a name is its stem followed by its extension; a non-empty extension starts with `.` and is shorter than the name |
| NodePath.ExtnameSuffix | src/utils.ts:59 | the path is its stem followed by its extension, and the extension contains no `/` |
| NodePath.ExtnameShorter | src/utils.ts:62 | a non-empty extension is shorter than the path, so the stem is never empty |
| NodePath.ExtnameAfterSlash | src/utils.ts:59 | the extension of a path is the extension of its basename |
| NodePath.ExtnameOfPath | src/dev-server.ts:57 | the extension of a joined path is that of its last segment |
| Utils.Slash | src/utils.ts:22-24 | `slash` keeps the length of the path |
| Utils.SlashChars | src/utils.ts:22-24 | `slash(s)` has no `\`: each `\` became `/` and every other character is kept |
| Utils.SlashIdempotent | src/utils.ts:22-24 | `slash` is idempotent |
| Utils.SlashNoBackslash | src/utils.ts:22-24 | `slash` of a path without `\` is the path itself |
| Utils.UrlRelative | src/utils.ts:26-34 | `urlRelative` always starts with `.` |
| Utils.UrlRelativeSelf | src/utils.ts:26-34 | from a directory to itself, `urlRelative` is `./` |
| Utils.UrlRelativeDotChild | src/utils.ts:29-31 | to a child whose name starts with `.`, `urlRelative` is that bare name, without `./` |
| Utils.UrlRelativeResolves | src/utils.ts:26-34 | resolving `urlRelative(from, to)` from `from` gives back `to` |
| Utils.ToJsExt | src/utils.ts:58-65 | `toJsExt` always ends in `.js`; a path whose extension is `.js` is unchanged |
| Utils.ToJsExtParts | src/utils.ts:58-65 | `toJsExt` replaces the extension with `.js` and keeps the stem |
| Utils.ToJsExtIdempotent | src/utils.ts:58-65 | a second `toJsExt` changes nothing when the basename is not empty |
| Utils.ToJsExtOnDirectory | src/utils.ts:58-65 | on a path ending in `/`, `toJsExt` appends `.js`, and a second application appends another `.js`, so it is not idempotent there |
| Utils.ToJsExtDotJs | src/utils.ts:58-65 | a leading dot is no extension: `toJsExt(".js")` is `.js.js` |
| Utils.ToJsExtDotJsJs | src/utils.ts:58-65 | `.js.js` has the extension `.js`, so `toJsExt` leaves it alone |
| Utils.ToJsExtAppend | src/utils.ts:58-65 | `toJsExt` of a path ending in a name only changes that name |
| Utils.ToJsExtName | src/utils.ts:58-65 | `toJsExt` of a file name is again a file name, with the same first character and the extension `.js` |
| Utils.Memo.constructor | src/utils.ts:36-38 | a fresh memo knows no key |
| Utils.Memo.Check | src/utils.ts:39-46 | the call answers whether `key` is known; on a miss it records `memoKey`, or `key` when there is none |
| Utils.Deliveries | src/utils.ts:114-118 | one firing delivers the value to every subscriber, in subscription order |
| Utils.Event.constructor | src/utils.ts:108-112 | a fresh event has no subscribers |
| Utils.Event.OnEvent | src/utils.ts:120-122 | the subscriber is appended and nothing is delivered |
| Utils.Event.Fire | src/utils.ts:114-118 | the deliveries are extended by one call per subscriber, in order |
| Utils.PromiseQueue.constructor | src/utils.ts:73-76 | the queue starts not ready, not called, and empty |
| Utils.PromiseQueue.OnReady | src/utils.ts:94-96 | the callback is appended; nothing else changes |
| Utils.PromiseQueue.AddToQueue | src/utils.ts:98-101 | the queue grows by one and one check is scheduled |
| Utils.PromiseQueue.BeginCheck | src/utils.ts:78-84 | once ready, the check returns at once; otherwise it waits on a snapshot of the queue length |
| Utils.PromiseQueue.ResumeCheck | src/utils.ts:86-91 | readiness means the snapshot equals the current length; the callbacks run exactly when readiness is reached and they had not run before |
| HandleJs.ImportedIsPackageIff | src/handle-js.ts:60-70 | a specifier belongs to a package exactly when it is the name, or the name followed by `/` (for a name without `/`) |
| HandleJs.ImportedIsPackage | src/handle-js.ts:60-70 | its contract is carried by `HandleJs.ImportedIsPackageIff`: the specifier is the package name, or the name followed by `/` |
| HandleJs.IsPackageForPath | src/handle-js.ts:72-76 | the predicate handed to `find` is `importedIsPackage` of the specifier and the package's name; `HandleJs.ModuleInfoFromPathFirstMatch` uses it |
| HandleJs.FilePathFromPackage | src/handle-js.ts:22-30 | its contract is carried by `HandleJs.ModuleInfoFromPathFile`: the package's default file for the bare name, the specifier below `node_modules` for a deep import |
| HandleJs.RelativeJsImportPath | src/handle-js.ts:43-56 | its contract is carried by `HandleJs.RelativeJsImportPathShape` and `HandleJs.RewrittenIsUrlRelative`: it starts with `.`, ends in `.js`, and is the URL from the importer's directory to the file's `.js` name |
| HandleJs.ToNodeModuleInfo | src/handle-js.ts:32-45 | its contract is carried by `HandleJs.ModuleInfoFromPathFirstMatch` and `HandleJs.ModuleInfoFromPathFile`: the package record is kept, the file is resolved |
| HandleJs.ToCustomModuleInfo | src/handle-js.ts:47-58 | its contract is carried by `HandleJs.ModuleInfoFromPathFile` and `HandleJs.CanonicalFixpoint`: the file next to the importer, and its canonical specifier |
| HandleJs.ModuleInfoFromPath | src/handle-js.ts:86-92 | its contract is carried by `HandleJs.ModuleInfoFromPathFirstMatch`, `HandleJs.ModuleInfoFromPathFile` and `HandleJs.CanonicalFixpoint` |
| HandleJs.ImportedIsPackageExamples | src/handle-js.ts:60-70 | `libA/sub` belongs to `libA` and `libAAA` does not; a deep import `@s/p/x` is not matched to the scoped package `@s/p` |
| HandleJs.FindIndex | src/handle-js.ts:87 | `find` returns the first element that satisfies the predicate, and none when no element does |
| HandleJs.ModuleInfoFromPathFirstMatch | src/handle-js.ts:86-92 | a specifier is a node module exactly when some package matches, and then it uses the first match in catalog order |
| HandleJs.ModuleInfoFromPathFile | src/handle-js.ts:22-58 | the file is: the package's default file for a bare name; below `node_modules` for a deep import; next to the importing file otherwise; always normalised |
| HandleJs.RelativeJsImportPathShape | src/handle-js.ts:43-56 | the rewritten specifier starts with `.` and ends in `.js` |
| HandleJs.DotPathIsCustom | src/handle-js.ts:86-92 | a specifier starting with `.` is never taken for a package when no package name starts with `.` |
| HandleJs.WithJsNameShape | src/handle-js.ts:43-56 | giving a file its `.js` name keeps its directory and the first character of its name, gives the name the extension `.js`, and keeps the path normalised |
| HandleJs.RewrittenIsUrlRelative | src/handle-js.ts:47-58 | the rewritten specifier is `urlRelative` from the importing file's directory to the file with its `.js` name |
| HandleJs.CanonicalFixpoint | src/handle-js.ts:47-58 | resolving the rewritten specifier again from the same file gives a project module with the same specifier, provided the target is not an ancestor directory |
| HandleJs.OwnDirectoryResolutions | src/handle-js.ts:47-58 | from a file in directory `d`, `./` resolves to `d` with the specifier `./.js`; `./.js` to `d/.js` with `.js.js`; `.js.js` to `d/.js.js` with `.js.js` itself |
| HandleJs.NewImportStep | src/handle-js.ts:96-104 | its contract is carried by `HandleJs.HandledGrows`, `HandleJs.RevisitSuppressed` and `HandleJs.JsFile.HandleNewImport`: a known specifier changes nothing; a miss records the rewritten specifier and announces the file |
| HandleJs.Handled | src/handle-js.ts:96-104 | its contract is carried by `HandleJs.CanonicalImportsAnnouncedOnce` and `HandleJs.NonCanonicalRepeatAnnouncedTwice` |
| HandleJs.HandledGrows | src/handle-js.ts:96-104 | the memo only grows, and announcements are only appended |
| HandleJs.RevisitSuppressed | src/handle-js.ts:96-104 | the revisit that reports the rewritten specifier is suppressed, so a fresh import is announced once |
| HandleJs.CanonicalImportsAnnouncedOnce | src/handle-js.ts:96-104 | with canonical specifiers, each distinct specifier is announced once, and the memo holds exactly those specifiers |
| HandleJs.NonCanonicalRepeatAnnouncedTwice | src/handle-js.ts:96-104 | a non-canonical specifier written twice in one file is announced twice |
| HandleJs.OutputPathBelowRoot | src/handle-js.ts:83 | a file below the root is written to the same place below the output directory, under its `.js` name |
| HandleJs.OutputPath | src/handle-js.ts:83 | its contract is carried by `HandleJs.OutputPathBelowRoot`: the same place below the output directory, under the `.js` name |
| HandleJs.JoinNormal | src/handle-js.ts:83 | joining a directory with a normalised relative path appends its segments |
| HandleJs.JsFile.constructor | src/handle-js.ts:78-94 | a file's handler starts with its output path, an empty memo and no announcements |
| HandleJs.JsFile.HandleNewImport | src/handle-js.ts:96-104 | one call performs exactly the memo step: it records or suppresses the import and announces it on a miss |
| BabelAst.GetImportPathFromImportCall | src/new-babel-plugin-ts.ts:26-42 | its contract is carried by `BabelAst.GetImportPathRules` |
| BabelAst.ImportedAll | src/new-babel-plugin-ts.ts:58-60 | its contract is carried by `BabelAst.ImportedAllIff` |
| BabelAst.ExportedAll | src/new-babel-plugin-ts.ts:93-95 | its contract is carried by `BabelAst.ExportedAllIff` |
| BabelAst.GetImportPathRules | src/new-babel-plugin-ts.ts:26-42 | a string literal or a template without expressions gives its text; a template with expressions, or any other argument, throws the named error |
| BabelAst.Some | src/new-babel-plugin-ts.ts:58-60 | `some` holds exactly when some element satisfies the predicate |
| BabelAst.ImportedAllIff | src/new-babel-plugin-ts.ts:58-60 | an import imports everything exactly when it has a default or a namespace specifier |
| BabelAst.ExportedAllIff | src/new-babel-plugin-ts.ts:93-95 | a re-export exports everything exactly when it has a default or a namespace specifier |
| BabelAst.ImportedNames | src/new-babel-plugin-ts.ts:62-64 | a name is listed exactly when a named specifier imports it, and there are no more names than specifiers |
| BabelAst.ExportedLocals | src/new-babel-plugin-ts.ts:97-99 | a local name is listed exactly when a named re-export names it, and there are no more names than specifiers |
| BabelAst.ImportedNamesAppend | src/new-babel-plugin-ts.ts:62-64 | `filter` followed by `map` distributes over concatenation, so names keep specifier order |
| BabelAst.ExportedLocalsAppend | src/new-babel-plugin-ts.ts:97-99 | the same, for re-exports |
| RewritePlugin.Report | src/new-babel-plugin-ts.ts:69-75 | the report carries the resolver's module and its specifier as `newImportPath`; `RewritePlugin.VisitContract` states it |
| RewritePlugin.VisitNode | src/new-babel-plugin-ts.ts:55-146 | its contract is carried by `RewritePlugin.VisitContract` and `RewritePlugin.VisitKinds` |
| RewritePlugin.ImportVisit | src/new-babel-plugin-ts.ts:55-84 | a static import reports its source and the resolver's module, and is replaced by the same import with the resolver's specifier exactly when that differs |
| RewritePlugin.VisitContract | src/new-babel-plugin-ts.ts:55-146 | a visit reports the resolver's module and its specifier; it replaces the node exactly when that specifier differs; the replacement keeps everything except the source, and revisiting it reports the new specifier with the same names and flag |
| RewritePlugin.VisitKinds | src/new-babel-plugin-ts.ts:55-146 | which nodes are left alone, which throw, and the path, flag and names each kind reports |
| RewritePlugin.SettledLoop | src/new-babel-plugin-ts.ts:79-83 | a node that the visitor neither replaces nor fails on is left unchanged, without an error |
| RewritePlugin.CanonicalConverges | src/new-babel-plugin-ts.ts:138-145 | when the rewritten specifier is canonical, two visits suffice: the node ends settled, with at most two reports, the second reporting the rewritten specifier |
| RewritePlugin.RevisitLoop | src/new-babel-plugin-ts.ts:138-145 | its contract is carried by `RewritePlugin.SettledLoop`, `RewritePlugin.CanonicalConverges`, `RewritePlugin.SettlesAfterTwo` and `RewritePlugin.OwnDirectoryImportSettles` |
| RewritePlugin.SettlesAfterTwo | src/new-babel-plugin-ts.ts:138-145 | a node replaced twice, whose second replacement is stable, ends there, settled, after three reports |
| RewritePlugin.OwnDirectoryImportSettles | src/new-babel-plugin-ts.ts:55-84 | `import ... from "./"` ends settled as `.js.js` after three visits; the reports name the directory, `d/.js` and `d/.js.js`, and the directory and `d/.js.js` are announced |
| RewritePlugin.RewriteFile | src/new-babel-plugin-ts.ts:54-147 | the traversal keeps one output node per input node |
| RewritePlugin.RewriteFileAfterError | src/new-babel-plugin-ts.ts:31-41 | after a thrown error, the rest of the program is left untouched and reports nothing |
| RewritePlugin.RewriteFileSettled | src/new-babel-plugin-ts.ts:79-83 | a program of settled nodes is left unchanged, without an error |
| RewritePlugin.RewriteFileSettles | src/new-babel-plugin-ts.ts:138-145 | when every rewritten specifier is canonical, every output node is settled |
| RewritePlugin.RewriteFileIdempotent | src/new-babel-plugin-ts.ts:138-145 | under the same condition, a second rewrite of the output changes nothing |
| RewritePlugin.FileResolverCanonical | src/handle-js.ts:86-92 | the resolver of a file meets the convergence condition for targets that are not its ancestors |
| RewritePlugin.FileResolver | src/handle-js.ts:86-92 | the plugin's `moduleInfoFromPath` is `HandleJs.ModuleInfoFromPath` for the file being compiled |
| RewritePlugin.HandledThree | src/handle-js.ts:96-104 | of three reports where the second reports the first one's rewrite, the first and the third are announced |
| RewritePlugin.RewriteAnnouncesOnce | src/handle-js.ts:96-104 | a fresh import, rewritten and revisited, announces its file exactly once |
| RewritePlugin.Rewriter.constructor | src/new-babel-plugin-ts.ts:50-54 | the traversal starts over the program, with no reports and no error |
| RewritePlugin.Rewriter.VisitAt | src/new-babel-plugin-ts.ts:55-146 | one visit of node `i` does exactly what the pure visit does: it reports, replaces or throws |
| RewritePlugin.Rewriter.VisitUntilStable | src/new-babel-plugin-ts.ts:138-145 | revisiting node `i` until it is stable leaves the state that the pure revisit loop describes |
| RewritePlugin.Rewriter.Transform | src/new-babel-plugin-ts.ts:54-147 | the traversal of the whole program leaves the nodes, reports and error of the pure file rewrite |
| GetImportsPlugin.Extract | src/babel-plugin-get-imports.ts:48-102 | its contract is carried by `GetImportsPlugin.ExtractAgreesWithRewriter` |
| GetImportsPlugin.ScanProgram | src/babel-plugin-get-imports.ts:48-102 | its contract is carried by `GetImportsPlugin.ScanAppend`, `GetImportsPlugin.ScanAfterError` and `GetImportsPlugin.ScanCount` |
| GetImportsPlugin.ExtractAgreesWithRewriter | src/babel-plugin-get-imports.ts:48-102 | the two plugins skip the same nodes, throw the same errors and report the same path, flag and names; only `export * from` differs |
| GetImportsPlugin.ScanAppend | src/babel-plugin-get-imports.ts:48-102 | scanning is compositional over an error-free first part |
| GetImportsPlugin.ScanAfterError | src/babel-plugin-get-imports.ts:93-101 | nothing after a thrown error is reported |
| GetImportsPlugin.ScanCount | src/babel-plugin-get-imports.ts:48-102 | a program that does not throw gives one record per reported node |
| GetImportsPlugin.Fanout | src/utils.ts:114-118 | each record reaches every subscriber: the count of deliveries is records times subscribers |
| GetImportsPlugin.FanoutAt | src/utils.ts:114-118 | subscriber `s` receives record `k` at position `k * subscribers + s` |
| GetImportsPlugin.RunPlugin | src/babel-plugin-get-imports.ts:45-112 | a run fires every record of the program, in visit order, to every subscriber, and returns the first thrown error |
| LoadPackageInfos.ModulePathFromPackageJson | src/load-package-infos.ts:20-40 | its contract is carried by `LoadPackageInfos.ModulePathPreference` and `LoadPackageInfos.ModulePathInsidePackage` |
| LoadPackageInfos.ToPackageInfo | src/load-package-infos.ts:42-48 | its contract is carried by `LoadPackageInfos.ToPackageInfoNamesItself` |
| LoadPackageInfos.ModulePathPreference | src/load-package-infos.ts:20-40 | a truthy `module` wins over `main`, `main` wins over `require.resolve`, and a failing `require.resolve` gives the package directory |
| LoadPackageInfos.ModulePathInsidePackage | src/load-package-infos.ts:23-31 | an entry field without `..` points inside the package directory |
| LoadPackageInfos.ToPackageInfoNamesItself | src/load-package-infos.ts:42-48 | the record carries the manifest's name and its normalised directory below `node_modules`, and the bare name resolves to the record's default file |
| LoadPackageInfos.Infos | src/load-package-infos.ts:73 | one record per processed package, in processing order |
| LoadPackageInfos.LoadPackageInfos | src/load-package-infos.ts:53-87 | whatever the outcome, the processed packages are distinct, each has a manifest, and each was reached from the root. Without dependencies the result is empty. On success: one record per processed package, in processing order, and the processed set is closed under dependencies. On failure: the error names a reached package, not processed, whose manifest cannot be read |
| DevServer.DispatchKind | src/dev-server.ts:57-77 | its contract is carried by `DevServer.IndexIsHtml`, `DevServer.ExtensionlessNotDispatched` and `DevServer.NewFileStepEffect` |
| DevServer.NewFileStep | src/dev-server.ts:50-78 | its contract is carried by `DevServer.NewFileStepEffect` and `DevServer.AtMostOnceBetweenUnlinks` |
| DevServer.UnlinkStep | src/dev-server.ts:33-36 | its contract is carried by `DevServer.UnlinkReenables` |
| DevServer.NewFileStepEffect | src/dev-server.ts:50-78 | a path already done is ignored; otherwise it is marked done, and at most one handler starts, for this path and no other |
| DevServer.AtMostOnceBetweenUnlinks | src/dev-server.ts:50-78 | between unlinks, a path is handed to a handler at most once, and not at all once done |
| DevServer.UnlinkReenables | src/dev-server.ts:33-36 | after an unlink, the next new-file event dispatches the path again |
| DevServer.ExtensionlessNotDispatched | src/dev-server.ts:57-77 | a path whose last segment has no `.` goes to no handler |
| DevServer.IndexIsHtml | src/dev-server.ts:80 | the seed `index.html` goes to the HTML handler |
| DevServer.Server.constructor | src/dev-server.ts:21-31 | the server registers its ready callback and dispatches `index.html`, scheduling one check |
| DevServer.Server.HandleNewFile | src/dev-server.ts:50-78 | the state advances by exactly the new-file step, and each started handler schedules one check |
| DevServer.Server.HandleUnlink | src/dev-server.ts:33-36 | the path is marked not done; nothing else changes |
| DevServer.Server.HandleChange | src/dev-server.ts:38-42 | the browser reloads the output path only once ready |
| DevServer.Server.BeginCheck | src/utils.ts:78-84 | a check waits on the number of started handlers, unless the queue is already ready |
| DevServer.Server.ResumeCheck | src/dev-server.ts:27-31 | the server becomes ready once a check sees no new handler; it starts at most once |
| Builder.DependencyToModulePath | src/builder.ts:31-47 | its contract is carried by `Builder.ToPackageInfoRules` and `Builder.DiffersFromLoaderOnFallback` |
| Builder.ToPackageInfo | src/builder.ts:49-57 | its contract is carried by `Builder.ToPackageInfoRules` and `Builder.AgreesWithLoader` |
| Builder.PackageInfos | src/builder.ts:179-186 | its contract is carried by `Builder.PackageInfosAreRootDeps` |
| Builder.ToPackageInfoRules | src/builder.ts:31-57 | a missing manifest fails exactly when the key has none; `require.resolve` failing without `module` or `main` is the other error; a record carries the key as name and its directory |
| Builder.AgreesWithLoader | src/builder.ts:31-57 | when the directory and the manifest name agree and an entry is found, the builder's record equals the loader's |
| Builder.DiffersFromLoaderOnFallback | src/builder.ts:45-46 | when `require.resolve` fails, the builder fails while the loader falls back to the package directory |
| Builder.AllOf | src/builder.ts:183-185 | `Promise.all` gives one value per element |
| Builder.AllOfEach | src/builder.ts:183-185 | `Promise.all` succeeds exactly when every element does; the values are per element, in order; a failure is some element's failure |
| Builder.InfosFor | src/builder.ts:183-185 | one record per root dependency |
| Builder.PackageInfosAreRootDeps | src/builder.ts:179-186 | a root without `dependencies` fails; otherwise the catalog has exactly one record per root dependency, in key order, named and placed by its key, with no transitive step |
| Builder.Server.constructor | src/builder.ts:226-236 | the builder starts with `index.html` dispatched to the HTML handler and one check scheduled |
| Builder.Server.HandleNewFile | src/builder.ts:276-307 | the state advances by exactly the new-file step, and each started handler adds one promise and schedules one check |
| Builder.Server.HandleUnlink | src/builder.ts:238-241 | the path is marked not done; nothing else changes |
| Builder.Server.HandleChange | src/builder.ts:243-248 | once ready, the browser reloads the output path made relative to the output directory and slashed |
| Builder.Server.BeginCheck | src/builder.ts:256-262 | once ready, the check returns at once; otherwise it waits on a snapshot of the promise count |
| Builder.Server.ResumeCheck | src/builder.ts:264-274 | readiness is never withdrawn: it is reached when the snapshot equals the count; the server starts exactly when readiness is first reached, at most once |

## Left out

- File system, watchers, `browser-sync` and the network are not modelled. This covers file reads and writes, `mkdirp`, `rimraf`, `chokidar`, `fatalWrite`, and `when` and `GET` in `src/utils.ts`. Their effects appear only as events or parameters: changed files, unlinked files, reloads.
- `require.resolve` is a parameter of type `string -> Option<AbsPath>`; `None` stands for a throw.
- Parsing `package.json` is not modelled. Manifests are given as parsed records, keyed by their directory below `node_modules`; a missing key is a manifest that cannot be read.
- The HTML handler (`src/handle-html.ts`, and `handleHtml` in `src/builder.ts`) is not part of this model. It reads `<script src>` through cheerio and `existsSync`; the model only dispatches to it.
- The builder's own copies of the path helpers and of `handleJs` (`src/builder.ts:59-177`) are not modelled separately. They repeat `src/handle-js.ts` and `src/utils.ts`, which the `HandleJs` and `Utils` modules model.
- `src/loadRawPackage.ts`, `src/paths.ts`, `src/test-bla.ts` and `src/types.d.ts` are not part of this model. The constant paths of `src/paths.ts` are parameters.
- Babel itself is left out: parsing, printing, code generation, source maps and the order in which it walks nested nodes. A program is a flat sequence of the nodes the visitors care about, visited in order.
- RewritePlugin.RevisitLoop: Babel's revisit after a replacement is bounded by a `fuel` parameter. Settlement is proved for canonical targets (two visits) and for an import of the importing file's own directory (three visits). For a target that is a further ancestor directory, no bound is proved; the loop stops when `fuel` runs out.
- Utils.Memo.Check: the memo of `createMemo` is a plain object, so on a fresh memo the keys it inherits from `Object.prototype` (`constructor`, `toString`, `valueOf`, `hasOwnProperty`, `__proto__` and the others) read as known. The model's memo starts empty: for such a specifier the code skips the first announcement, while the model makes it.
- Utils.PromiseQueue.ResumeCheck: a suspended check may resume at any point, and other steps may come between two resumptions. In JavaScript the job queue fixes that order, and the model does not track it. `Utils.ReadinessCanBeWithdrawn` resumes in the order the checks began, but whether a promise can be added between two resumptions depends on that job order.
- LoadPackageInfos.LoadPackageInfos: each round of `queue.splice` loads its packages concurrently, so the order within a round depends on which read finishes first. The model processes them first-in, first-out. The contract therefore states the processed set and its closure, not one fixed order.
- Builder.AllOf: `Promise.all` rejects with the first rejection in time. The model reports the first failure in list order.
- NodePath.Extname: Node ignores trailing slashes. Paths here are segment lists without them, so that rule is not modelled.
- Backslash separators (Windows paths) are not modelled except in `slash`.
- Logging (`console.log`, `console.warn`, `console.trace`, `console.time`) and `process.exit` are left out.
- The server callbacks stand for `bs.init`. Each server counts its starts as `inits`.
