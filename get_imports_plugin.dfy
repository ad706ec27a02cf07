/** The read-only visitor of `src/babel-plugin-get-imports.ts`: it reports
    every static import, re-export with a source, `export * from` and
    dynamic import through an event, and never edits the tree. */
module GetImportsPlugin {
  import opened Wrappers
  import opened Utils
  import opened BabelAst
  import Types
  import RewritePlugin

  /** The `ImportInfo` of this plugin. */
  datatype ImportRecord = ImportRecord(importedAll: bool, importedSpecifiers: seq<string>, importedPath: string)

  /** What the visitor does on one node. */
  datatype Extracted = Nothing | Record(record: ImportRecord) | Thrown(error: ImportError)

  function Extract(n: Node): Extracted {
    match n
    case ImportDeclaration(specifiers, source) =>
      Record(ImportRecord(ImportedAll(specifiers), ImportedNames(specifiers), source))
    case ExportAllDeclaration(source) => Record(ImportRecord(true, [], source))
    case ExportNamedDeclaration(_, specifiers, source) =>
      if source.None? then Nothing
      else Record(ImportRecord(ExportedAll(specifiers), ExportedLocals(specifiers), source.value))
    case ImportCall(_, arguments) =>
      (match GetImportPathFromImportCall(arguments)
       case Failure(e) => Thrown(e)
       case Success(p) => Record(ImportRecord(true, [], p)))
    case OtherNode => Nothing
  }

  /** The two plugins agree on every node except `export * from`, which only
      this one reports: the same nodes are skipped, the same ones throw the
      same error, and the reports carry the same path, flag and names. */
  lemma ExtractAgreesWithRewriter(n: Node, resolve: string -> Types.ModuleInfo)
    ensures !n.ExportAllDeclaration? ==>
      var v := RewritePlugin.VisitNode(n, resolve);
      (Extract(n).Nothing? <==> v.NoEffect?) &&
      (Extract(n).Thrown? <==> v.VisitFailed?) &&
      (Extract(n).Thrown? ==> Extract(n).error == v.error) &&
      (Extract(n).Record? ==>
        Extract(n).record == ImportRecord(v.info.importedAll, v.info.importedSpecifiers, v.info.importedPath))
    ensures n.ExportAllDeclaration? ==>
      Extract(n) == Record(ImportRecord(true, [], n.allSource)) &&
      RewritePlugin.VisitNode(n, resolve).NoEffect?
  {
  }

  // ---------------------------------------------------------------------
  // The records of a program
  // ---------------------------------------------------------------------

  datatype Scan = Scan(records: seq<ImportRecord>, error: Option<ImportError>)

  /** The records of the nodes in visit order, up to the first error. */
  function ScanProgram(program: seq<Node>): Scan
    decreases |program|
  {
    if program == [] then Scan([], None)
    else
      var pre := ScanProgram(program[..|program| - 1]);
      if pre.error.Some? then pre
      else match Extract(program[|program| - 1])
        case Nothing => pre
        case Record(r) => Scan(pre.records + [r], None)
        case Thrown(e) => Scan(pre.records, Some(e))
  }

  /** Scanning is compositional: a program split in two scans as its
      error-free first part followed by the rest. */
  lemma {:induction false} ScanAppend(p: seq<Node>, q: seq<Node>)
    requires ScanProgram(p).error.None?
    ensures ScanProgram(p + q) == Scan(ScanProgram(p).records + ScanProgram(q).records, ScanProgram(q).error)
    decreases |q|
  {
    if q == [] {
      assert p + q == p;
    } else {
      var q' := q[..|q| - 1];
      assert (p + q)[..|p + q| - 1] == p + q';
      assert (p + q)[|p + q| - 1] == q[|q| - 1];
      ScanAppend(p, q');
    }
  }

  /** Nothing after an error is reported. */
  lemma {:induction false} ScanAfterError(p: seq<Node>, q: seq<Node>)
    requires ScanProgram(p).error.Some?
    ensures ScanProgram(p + q) == ScanProgram(p)
    decreases |q|
  {
    if q == [] {
      assert p + q == p;
    } else {
      var q' := q[..|q| - 1];
      assert (p + q)[..|p + q| - 1] == p + q';
      ScanAfterError(p, q');
    }
  }

  /** A program whose nodes do not throw scans without an error, into one
      record per reported node: as many records as nodes, less the skipped ones. */
  lemma {:induction false} ScanCount(program: seq<Node>)
    requires forall k :: 0 <= k < |program| ==> !Extract(program[k]).Thrown?
    ensures ScanProgram(program).error.None?
    ensures |ScanProgram(program).records| == |program| - Skipped(program)
    decreases |program|
  {
    if program != [] {
      var init := program[..|program| - 1];
      assert forall k :: 0 <= k < |init| ==> init[k] == program[k];
      ScanCount(init);
    }
  }

  /** The number of nodes the visitor does not report. */
  function Skipped(program: seq<Node>): (r: nat)
    ensures r <= |program|
    decreases |program|
  {
    if program == [] then 0
    else Skipped(program[..|program| - 1]) + (if Extract(program[|program| - 1]).Nothing? then 1 else 0)
  }

  // ---------------------------------------------------------------------
  // Firing the records
  // ---------------------------------------------------------------------

  /** The calls the subscribers receive for some records: each record, in
      order, to every subscriber in subscription order. */
  function Fanout(subs: seq<nat>, records: seq<ImportRecord>): (r: seq<(nat, ImportRecord)>)
    ensures |r| == |records| * |subs|
    decreases |records|
  {
    if records == [] then []
    else
      var n := |records|;
      assert (n - 1) * |subs| + |subs| == n * |subs|;
      Fanout(subs, records[..n - 1]) + Deliveries(subs, records[n - 1])
  }

  /** Subscriber `s` receives record `k` at position `k * |subs| + s`. */
  lemma {:induction false} FanoutAt(subs: seq<nat>, records: seq<ImportRecord>, k: nat, s: nat)
    requires k < |records| && s < |subs|
    ensures k * |subs| + s < |Fanout(subs, records)|
    ensures Fanout(subs, records)[k * |subs| + s] == (subs[s], records[k])
    decreases |records|
  {
    var n := |records|;
    var init := records[..n - 1];
    var prefix := Fanout(subs, init);
    assert |prefix| == (n - 1) * |subs|;
    Below(k, s, n, |subs|);
    if k < n - 1 {
      Below(k, s, n - 1, |subs|);
      FanoutAt(subs, init, k, s);
    } else {
      assert k * |subs| == |prefix|;
    }
  }

  lemma FanoutSnoc(subs: seq<nat>, records: seq<ImportRecord>, r: ImportRecord)
    ensures Fanout(subs, records + [r]) == Fanout(subs, records) + Deliveries(subs, r)
  {
    assert (records + [r])[..|records|] == records;
  }

  lemma ScanStep(program: seq<Node>, i: nat)
    requires i < |program| && ScanProgram(program[..i]).error.None?
    ensures var pre := ScanProgram(program[..i]);
      ScanProgram(program[..i + 1]) ==
        match Extract(program[i])
        case Nothing => pre
        case Record(r) => Scan(pre.records + [r], None)
        case Thrown(e) => Scan(pre.records, Some(e))
  {
    assert program[..i + 1][..i] == program[..i];
  }

  lemma ScanStopsAt(program: seq<Node>, i: nat)
    requires i < |program| && ScanProgram(program[..i + 1]).error.Some?
    ensures ScanProgram(program) == ScanProgram(program[..i + 1])
  {
    assert program[..i + 1] + program[i + 1..] == program;
    ScanAfterError(program[..i + 1], program[i + 1..]);
  }

  lemma Below(k: nat, s: nat, n: nat, m: nat)
    requires k < n && s < m
    ensures k * m + s < n * m
  {
    assert k * m + s < k * m + m == (k + 1) * m;
    assert (k + 1) * m <= n * m;
  }

  /** The visitor run over a program with the event of `createPlugin`:
      every record is fired in visit order; a thrown error stops the run. */
  method RunPlugin(event: Event<ImportRecord>, program: seq<Node>) returns (error: Option<ImportError>)
    modifies event
    ensures event.subscribers == old(event.subscribers)
    ensures error == ScanProgram(program).error
    ensures event.delivered == old(event.delivered) + Fanout(event.subscribers, ScanProgram(program).records)
  {
    error := None;
    var i := 0;
    ghost var subs := event.subscribers;
    ghost var recs: seq<ImportRecord> := [];
    while i < |program|
      invariant 0 <= i <= |program|
      invariant event.subscribers == subs
      invariant ScanProgram(program[..i]) == Scan(recs, None)
      invariant event.delivered == old(event.delivered) + Fanout(subs, recs)
      decreases |program| - i
    {
      ScanStep(program, i);
      var x := Extract(program[i]);
      if x.Thrown? {
        error := Some(x.error);
        ScanStopsAt(program, i);
        return;
      }
      if x.Record? {
        event.Fire(x.record);
        FanoutSnoc(subs, recs, x.record);
        AppendAssoc(old(event.delivered), Fanout(subs, recs), Deliveries(subs, x.record));
        recs := recs + [x.record];
      }
      i := i + 1;
    }
    assert program[..i] == program;
  }
}
