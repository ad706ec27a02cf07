/** The record shapes shared by the resolver, the Babel visitors and the
    package catalog (`src/customTypes.ts`). */
module Types {
  import opened NodePath

  /** One package of the dependency catalog. */
  datatype PackageInfo = PackageInfo(
    /** The directory of the package under `node_modules`. */
    path: AbsPath,
    /** The file a bare import of the package resolves to. */
    defaultFilePath: AbsPath,
    packageName: string)

  /** Where an import specifier points. A `nodeModule` carries the fields
      of the package it belongs to (the source spreads them in). */
  datatype ModuleInfo =
    | NodeModule(packageInfo: PackageInfo, filePath: AbsPath, relativeJsImportPath: string)
    | CustomModule(filePath: AbsPath, relativeJsImportPath: string)

  /** What a visitor reports for one import or re-export. */
  datatype ImportInfo = ImportInfo(
    moduleInfo: ModuleInfo,
    importedPath: string,
    newImportPath: string,
    importedSpecifiers: seq<string>,
    importedAll: bool)
}
