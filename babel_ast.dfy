/** The part of Babel's AST that the two import visitors look at, and the
    extraction rules both of them apply: the path of a dynamic import, the
    `importedAll` flag and the list of imported names. */
module BabelAst {
  import opened Wrappers
  import opened Utils

  datatype ImportSpec =
    | ImportDefaultSpecifier(local: string)
    | ImportNamespaceSpecifier(local: string)
    | ImportSpecifier(imported: string, local: string)

  datatype ExportSpec =
    | ExportDefaultSpecifier(exported: string)
    | ExportNamespaceSpecifier(exported: string)
    | ExportSpecifier(local: string, exported: string)

  /** An argument of `import(...)`: a string literal, a template literal
      with its raw quasis and the number of its embedded expressions, or
      anything else. */
  datatype ImportArg =
    | StringLiteral(value: string)
    | TemplateLiteral(quasis: seq<string>, expressions: nat)
    | OtherArg

  /** The nodes the visitors handle, plus everything else as `OtherNode`.
      A declaration exported in place is abstracted to its text. */
  datatype Node =
    | ImportDeclaration(specifiers: seq<ImportSpec>, source: string)
    | ExportNamedDeclaration(declaration: Option<string>, exportSpecifiers: seq<ExportSpec>, exportSource: Option<string>)
    | ExportAllDeclaration(allSource: string)
    | ImportCall(callee: string, arguments: seq<ImportArg>)
    | OtherNode

  datatype ImportError =
    | ExpressionsInDynamicImport
    | NonStaticDynamicImport
    /** `quasis[0]` of a template literal without quasis. */
    | MissingQuasi

  /** `getImportPathFromImportCall`: the first argument must be a string
      literal or a template literal without expressions. A missing first
      argument is `undefined`, which is neither. */
  function GetImportPathFromImportCall(arguments: seq<ImportArg>): Result<string, ImportError> {
    if arguments == [] then Failure(NonStaticDynamicImport)
    else match arguments[0]
      case TemplateLiteral(quasis, expressions) =>
        if expressions > 0 then Failure(ExpressionsInDynamicImport)
        else if quasis == [] then Failure(MissingQuasi)
        else Success(quasis[0])
      case StringLiteral(value) => Success(value)
      case OtherArg => Failure(NonStaticDynamicImport)
  }

  /** Which first arguments give a path, and which path. */
  lemma GetImportPathRules(arguments: seq<ImportArg>)
    ensures GetImportPathFromImportCall(arguments).Success? <==>
      arguments != [] &&
      (arguments[0].StringLiteral? ||
       (arguments[0].TemplateLiteral? && arguments[0].expressions == 0 && arguments[0].quasis != []))
    ensures GetImportPathFromImportCall(arguments).Success? ==>
      GetImportPathFromImportCall(arguments).value ==
        (if arguments[0].StringLiteral? then arguments[0].value else arguments[0].quasis[0])
    ensures arguments != [] && arguments[0].TemplateLiteral? && arguments[0].expressions > 0 ==>
      GetImportPathFromImportCall(arguments) == Failure(ExpressionsInDynamicImport)
    ensures arguments == [] || arguments[0].OtherArg? ==>
      GetImportPathFromImportCall(arguments) == Failure(NonStaticDynamicImport)
  {
  }

  // ---------------------------------------------------------------------
  // Array.prototype.some / filter / map on specifier lists
  // ---------------------------------------------------------------------

  /** `xs.some(f)`. */
  function Some<T>(xs: seq<T>, f: T -> bool): (r: bool)
    ensures r <==> exists i :: 0 <= i < |xs| && f(xs[i])
  {
    if xs == [] then false
    else f(xs[0]) || (assert forall i :: 1 <= i < |xs| ==> xs[i] == xs[1..][i - 1]; Some(xs[1..], f))
  }

  function IsImportDefaultSpecifier(s: ImportSpec): bool { s.ImportDefaultSpecifier? }
  function IsImportNamespaceSpecifier(s: ImportSpec): bool { s.ImportNamespaceSpecifier? }
  function IsExportDefaultSpecifier(s: ExportSpec): bool { s.ExportDefaultSpecifier? }
  function IsExportNamespaceSpecifier(s: ExportSpec): bool { s.ExportNamespaceSpecifier? }

  /** `importedAll` of an import declaration. */
  function ImportedAll(specs: seq<ImportSpec>): bool {
    Some(specs, Either(IsImportDefaultSpecifier, IsImportNamespaceSpecifier))
  }

  /** `importedAll` of a re-export. */
  function ExportedAll(specs: seq<ExportSpec>): bool {
    Some(specs, Either(IsExportDefaultSpecifier, IsExportNamespaceSpecifier))
  }

  /** A declaration imports everything exactly when it has a default or a
      namespace specifier. */
  lemma ImportedAllIff(specs: seq<ImportSpec>)
    ensures ImportedAll(specs) <==>
      exists i :: 0 <= i < |specs| && (specs[i].ImportDefaultSpecifier? || specs[i].ImportNamespaceSpecifier?)
  {
    var f := Either(IsImportDefaultSpecifier, IsImportNamespaceSpecifier);
    assert forall i :: 0 <= i < |specs| ==> f(specs[i]) == (specs[i].ImportDefaultSpecifier? || specs[i].ImportNamespaceSpecifier?);
  }

  lemma ExportedAllIff(specs: seq<ExportSpec>)
    ensures ExportedAll(specs) <==>
      exists i :: 0 <= i < |specs| && (specs[i].ExportDefaultSpecifier? || specs[i].ExportNamespaceSpecifier?)
  {
    var f := Either(IsExportDefaultSpecifier, IsExportNamespaceSpecifier);
    assert forall i :: 0 <= i < |specs| ==> f(specs[i]) == (specs[i].ExportDefaultSpecifier? || specs[i].ExportNamespaceSpecifier?);
  }

  /** `specs.filter(isImportSpecifier).map(s => s.imported.name)`. */
  function ImportedNames(specs: seq<ImportSpec>): (r: seq<string>)
    ensures |r| <= |specs|
    ensures forall x :: x in r <==> exists i :: 0 <= i < |specs| && specs[i].ImportSpecifier? && specs[i].imported == x
    decreases |specs|
  {
    if specs == [] then []
    else
      var init, last := specs[..|specs| - 1], specs[|specs| - 1];
      assert forall i :: 0 <= i < |init| ==> init[i] == specs[i];
      ImportedNames(init) + (if last.ImportSpecifier? then [last.imported] else [])
  }

  /** `specs.filter(isExportSpecifier).map(s => s.local.name)`. */
  function ExportedLocals(specs: seq<ExportSpec>): (r: seq<string>)
    ensures |r| <= |specs|
    ensures forall x :: x in r <==> exists i :: 0 <= i < |specs| && specs[i].ExportSpecifier? && specs[i].local == x
    decreases |specs|
  {
    if specs == [] then []
    else
      var init, last := specs[..|specs| - 1], specs[|specs| - 1];
      assert forall i :: 0 <= i < |init| ==> init[i] == specs[i];
      ExportedLocals(init) + (if last.ExportSpecifier? then [last.local] else [])
  }

  /** The names keep source order: the names of a concatenation are the
      concatenation of the names. */
  lemma {:induction false} ImportedNamesAppend(a: seq<ImportSpec>, b: seq<ImportSpec>)
    ensures ImportedNames(a + b) == ImportedNames(a) + ImportedNames(b)
    decreases |b|
  {
    if b == [] {
      assert a + b == a;
    } else {
      var b' := b[..|b| - 1];
      assert (a + b)[..|a + b| - 1] == a + b';
      ImportedNamesAppend(a, b');
    }
  }

  lemma {:induction false} ExportedLocalsAppend(a: seq<ExportSpec>, b: seq<ExportSpec>)
    ensures ExportedLocals(a + b) == ExportedLocals(a) + ExportedLocals(b)
    decreases |b|
  {
    if b == [] {
      assert a + b == a;
    } else {
      var b' := b[..|b| - 1];
      assert (a + b)[..|a + b| - 1] == a + b';
      ExportedLocalsAppend(a, b');
    }
  }
}
