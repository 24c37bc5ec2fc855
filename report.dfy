/**
 * The run report: the per-envelope results the download loop records, the
 * run summary, and the structure of the HTML page built from them. The page
 * is modelled as a list of sections made of rows and cells with their
 * class names; the literal markup and style sheet are not.
 */
module Report {
  import opened Wrappers
  import opened Text
  import opened Configuration

  // ---------------------------------------------------------------------
  // Recorded results
  // ---------------------------------------------------------------------

  function Abs(x: int): nat
  {
    if x < 0 then -x else x
  }

  /** The size check that marks a download verified. */
  predicate SizesAgree(responseSize: int, fileSize: int, allowance: int)
  {
    fileSize > 0 && Abs(responseSize - fileSize) <= allowance
  }

  /**
   * One envelope's entry in the report. `exception` holds the message of the
   * exception recorded for it, if any.
   */
  class ReportEnvelopeResult {
    var envelopeId: string
    var originalName: string
    var fileName: string
    var responseSize: int
    var fileSize: int
    var exception: Option<string>
    var verified: bool

    constructor ()
      ensures envelopeId == "" && originalName == "" && fileName == ""
      ensures responseSize == 0 && fileSize == 0
      ensures exception == None && !verified
    {
      envelopeId, originalName, fileName := "", "", "";
      responseSize, fileSize := 0, 0;
      exception := None;
      verified := false;
    }

    /**
     * Sets the verified flag when the saved file is non-empty and its size is
     * within `allowance` of the response size. The flag is never cleared and
     * no other field changes.
     */
    method Verify(allowance: int)
      modifies this
      ensures verified == (old(verified) || SizesAgree(responseSize, fileSize, allowance))
      ensures envelopeId == old(envelopeId) && originalName == old(originalName)
      ensures fileName == old(fileName) && exception == old(exception)
      ensures responseSize == old(responseSize) && fileSize == old(fileSize)
    {
      if fileSize > 0 && Abs(responseSize - fileSize) <= allowance {
        verified := true;
      }
    }
  }

  /** The run summary the report is built from. */
  class ReportDetails {
    var userName: string
    var userEmail: string
    var accountName: string
    /** The run date as the report prints it. */
    var runDate: string
    var succeeded: bool
    var totalEnvelopes: string
    var unpurgedEnvelopes: int
    var results: seq<ReportEnvelopeResult>
    var overallException: Option<string>

    constructor ()
      ensures userName == "" && userEmail == "" && accountName == "" && runDate == ""
      ensures !succeeded && totalEnvelopes == "" && unpurgedEnvelopes == 0
      ensures results == [] && overallException == None
    {
      userName, userEmail, accountName, runDate := "", "", "", "";
      succeeded := false;
      totalEnvelopes := "";
      unpurgedEnvelopes := 0;
      results := [];
      overallException := None;
    }
  }

  /** The report's user, date and envelope-count fields, which the download loop leaves alone. */
  function Header(report: ReportDetails): (string, string, string, string, string, int)
    reads report
  {
    (report.userName, report.userEmail, report.accountName, report.runDate,
     report.totalEnvelopes, report.unpurgedEnvelopes)
  }

  /** No object occurs twice in `s`. */
  predicate Distinct(s: seq<ReportEnvelopeResult>)
  {
    forall i, j :: 0 <= i < j < |s| ==> s[i] != s[j]
  }

  // ---------------------------------------------------------------------
  // Report structure
  // ---------------------------------------------------------------------

  /** What a cell shows: text, or a number or flag the page prints in decimal or as True/False. */
  datatype Value = Str(s: string) | Num(n: int) | Flag(b: bool)
  datatype Cell = Cell(classes: seq<string>, style: string, text: Value)
  datatype Row = Row(classes: seq<string>, cells: seq<Cell>)
  datatype Part = StatusTable | ConfigTable | EnvelopesTable | ResultsTable | ErrorsTable
  datatype Section =
    | Styles
    | Title(runDate: string, userName: string, accountName: string, userEmail: string)
    | Table(part: Part, caption: string, header: seq<Cell>, rows: seq<Row>)

  /** A cell without inline style. */
  function Td(classes: seq<string>, text: string): Cell
  {
    Cell(classes, "", Str(text))
  }

  function TdValue(classes: seq<string>, value: Value): Cell
  {
    Cell(classes, "", value)
  }

  function Corner(last: bool, name: string): seq<string>
  {
    if last then [name] else []
  }

  /** The row has the bottom-left class on its first cell and the bottom-right class on its last. */
  predicate Cornered(row: Row)
  {
    |row.cells| >= 2 && "blr" in row.cells[0].classes && "brr" in row.cells[|row.cells| - 1].classes
  }

  /** Some cell of the row has a bottom corner class. */
  predicate CarriesCorner(row: Row)
  {
    exists c :: c in row.cells && ("blr" in c.classes || "brr" in c.classes)
  }

  /** Exactly the final row of `rows` has its bottom corners rounded. */
  predicate CornersOnLastOnly(rows: seq<Row>)
  {
    forall i :: 0 <= i < |rows| ==>
      (i == |rows| - 1 ==> Cornered(rows[i])) && (i < |rows| - 1 ==> !CarriesCorner(rows[i]))
  }

  /** Whether the document holds a table of the given part. */
  predicate Shows(doc: seq<Section>, part: Part)
  {
    exists k :: 0 <= k < |doc| && doc[k].Table? && doc[k].part == part
  }

  lemma ShowsAppend(a: seq<Section>, b: seq<Section>, part: Part)
    ensures Shows(a + b, part) <==> Shows(a, part) || Shows(b, part)
  {
    if Shows(a + b, part) {
      var k :| 0 <= k < |a + b| && (a + b)[k].Table? && (a + b)[k].part == part;
      if k >= |a| {
        assert b[k - |a|] == (a + b)[k];
      }
    }
    if Shows(a, part) {
      var k :| 0 <= k < |a| && a[k].Table? && a[k].part == part;
      assert (a + b)[k] == a[k];
    }
    if Shows(b, part) {
      var k :| 0 <= k < |b| && b[k].Table? && b[k].part == part;
      assert (a + b)[|a| + k] == b[k];
    }
  }

  // ---------------------------------------------------------------------
  // Title and status
  // ---------------------------------------------------------------------

  function TitlePart(report: ReportDetails): Section
    reads report
  {
    Title(report.runDate, report.userName, report.accountName, report.userEmail)
  }

  /** The status table: one row reading SUCCESS in green or FAILED in red. */
  function StatusPart(succeeded: bool): (s: Section)
    ensures s.Table? && s.part == StatusTable && |s.rows| == 1 && |s.rows[0].cells| == 2
    ensures s.rows[0].cells[1].text == Str(if succeeded then "SUCCESS" else "FAILED")
    ensures s.rows[0].cells[1].style == (if succeeded then "color: green" else "color: red")
  {
    var verdict :=
      if succeeded then Cell(["trr", "brr"], "color: green", Str("SUCCESS"))
      else Cell(["trr", "brr"], "color: red", Str("FAILED"));
    Table(StatusTable, "", [], [Row([], [Td(["tlr", "blr"], "Status"), verdict])])
  }

  // ---------------------------------------------------------------------
  // Configuration table
  // ---------------------------------------------------------------------

  /** Every character after the fifth is replaced by '*'; the length is kept. */
  predicate Obscures(s: string, r: string)
  {
    |r| == |s| && forall k :: 0 <= k < |s| ==> r[k] == (if k < 5 then s[k] else '*')
  }

  method ObscureMostOfString(s: string) returns (r: string)
    ensures Obscures(s, r)
    ensures |s| <= 5 ==> r == s
  {
    var chars: seq<char> := [];
    for i := 0 to |s|
      invariant |chars| == i
      invariant forall k :: 0 <= k < i ==> chars[k] == (if k < 5 then s[k] else '*')
    {
      if i >= 0 && i < 5 {
        chars := chars + [s[i]];
      } else {
        chars := chars + ['*'];
      }
    }
    r := chars;
    if |s| <= 5 {
      assert forall k :: 0 <= k < |s| ==> r[k] == s[k];
    }
  }

  /** The envelope-listing options that have a value, in order. */
  function SetOptions(options: seq<(string, string)>): (r: seq<(string, string)>)
    ensures |r| <= |options|
    ensures forall o :: o in r <==> o in options && o.1 != ""
  {
    if options == [] then []
    else (if options[0].1 != "" then [options[0]] else []) + SetOptions(options[1..])
  }

  /** The eight entries after the two obscured credentials, shown as they are. */
  function PlainEntries(config: Config): (r: seq<(string, string)>)
    ensures |r| == 8 && r[0] == ("Redirect URI", config.redirectUri) && r[7] == ("Use Private", BoolString(config.usePrivate))
  {
    [
      ("Redirect URI", config.redirectUri),
      ("OAuth Base", config.oauthBase),
      ("Clear Previous Downloads", BoolString(config.clearPreviousDownloads)),
      ("Download Mode", config.downloadMode),
      ("Download Interval Milliseconds", IntString(config.downloadIntervalMilliseconds)),
      ("Fail on First Error", BoolString(config.failOnFirstError)),
      ("Browser", config.browser),
      ("Use Private", BoolString(config.usePrivate))]
  }

  /** The (option, value) pairs of the configuration table, in insertion order. */
  method ConfigEntries(config: Config) returns (entries: seq<(string, string)>)
    ensures |entries| == 10 + |SetOptions(config.envelopeOptions)|
    ensures entries[0].0 == "Client ID" && Obscures(config.clientId, entries[0].1)
    ensures entries[1].0 == "Client Secret" && Obscures(config.clientSecret, entries[1].1)
    ensures entries[2..] == PlainEntries(config) + SetOptions(config.envelopeOptions)
  {
    var id := ObscureMostOfString(config.clientId);
    var secret := ObscureMostOfString(config.clientSecret);
    var head := [("Client ID", id), ("Client Secret", secret)];
    var fixed := PlainEntries(config);
    entries := head + (fixed + SetOptions(config.envelopeOptions));
    assert entries[..2] == head && entries[2..] == fixed + SetOptions(config.envelopeOptions);
  }

  function ConfigRow(name: string, value: string, last: bool): (r: Row)
    ensures |r.cells| == 2 && r.cells[0].text == Str(name) && r.cells[1].text == Str(value)
    ensures last ==> Cornered(r)
    ensures !last ==> !CarriesCorner(r)
  {
    Row([], [Td(Corner(last, "blr"), name), Td(Corner(last, "brr"), value)])
  }

  /** One row per entry, in order; only the final row gets the bottom corner classes. */
  method ConfigRows(entries: seq<(string, string)>) returns (rows: seq<Row>)
    ensures |rows| == |entries|
    ensures forall i :: 0 <= i < |rows| ==> rows[i] == ConfigRow(entries[i].0, entries[i].1, i == |entries| - 1)
    ensures CornersOnLastOnly(rows)
  {
    rows := [];
    for i := 0 to |entries|
      invariant |rows| == i
      invariant forall k :: 0 <= k < i ==> rows[k] == ConfigRow(entries[k].0, entries[k].1, k == |entries| - 1)
    {
      var (key, value) := entries[i];
      if i == |entries| - 1 {
        rows := rows + [ConfigRow(key, value, true)];
      } else {
        rows := rows + [ConfigRow(key, value, false)];
      }
    }
  }

  method BuildConfigPart(config: Config) returns (s: Section, ghost entries: seq<(string, string)>)
    ensures s.Table? && s.part == ConfigTable
    ensures |entries| == 10 + |SetOptions(config.envelopeOptions)|
    ensures entries[0].0 == "Client ID" && Obscures(config.clientId, entries[0].1)
    ensures entries[1].0 == "Client Secret" && Obscures(config.clientSecret, entries[1].1)
    ensures entries[2..] == PlainEntries(config) + SetOptions(config.envelopeOptions)
    ensures |s.rows| == |entries|
    ensures forall i :: 0 <= i < |s.rows| ==> s.rows[i] == ConfigRow(entries[i].0, entries[i].1, i == |entries| - 1)
    ensures |s.rows| == 10 + |SetOptions(config.envelopeOptions)|
    ensures CornersOnLastOnly(s.rows)
    ensures |s.rows[1].cells| == 2 && s.rows[1].cells[0].text == Str("Client Secret") && s.rows[1].cells[1].text.Str? &&
      Obscures(config.clientSecret, s.rows[1].cells[1].text.s)
    ensures |s.rows[0].cells| == 2 && s.rows[0].cells[0].text == Str("Client ID") && s.rows[0].cells[1].text.Str? &&
      Obscures(config.clientId, s.rows[0].cells[1].text.s)
  {
    var pairs := ConfigEntries(config);
    var rows := ConfigRows(pairs);
    entries := pairs;
    s := Table(ConfigTable, "Configuration Options", [Td(["tlr"], "Option"), Td(["trr"], "Value")], rows);
  }

  // ---------------------------------------------------------------------
  // Envelope counts and download results
  // ---------------------------------------------------------------------

  function EnvelopesPart(report: ReportDetails): (s: Section)
    reads report
    ensures s.Table? && s.part == EnvelopesTable && CornersOnLastOnly(s.rows)
    ensures |s.rows| == 2 && |s.rows[0].cells| == 2 && |s.rows[1].cells| == 2
    ensures s.rows[0].cells[1].text == Str(report.totalEnvelopes)
    ensures s.rows[1].cells[1].text == Num(report.unpurgedEnvelopes)
  {
    var total := Row([], [Td(["tlr"], "Total"), Td(["trr"], report.totalEnvelopes)]);
    var unpurged := Row([], [Td(["blr"], "Unpurged"), TdValue(["brr"], Num(report.unpurgedEnvelopes))]);
    assert !CarriesCorner(total) by {
      forall c | c in total.cells ensures "blr" !in c.classes && "brr" !in c.classes { }
    }
    Table(EnvelopesTable, "Envelopes Found Count", [], [total, unpurged])
  }

  function ResultRow(result: ReportEnvelopeResult, last: bool): (r: Row)
    reads result
    ensures |r.cells| == 6 && r.cells[0].text == Str(result.envelopeId) && r.cells[3].text == Str(result.fileName)
    ensures r.cells[1].text == Str(result.originalName) && r.cells[5].text == Flag(result.verified)
    ensures r.cells[2].text == Num(result.responseSize) && r.cells[4].text == Num(result.fileSize)
    ensures "failed" in r.classes <==> !result.verified
    ensures last ==> Cornered(r)
    ensures !last ==> !CarriesCorner(r)
  {
    Row(if result.verified then [] else ["failed"], [
      Td(Corner(last, "blr"), result.envelopeId),
      Td([], result.originalName),
      TdValue([], Num(result.responseSize)),
      Td([], result.fileName),
      TdValue([], Num(result.fileSize)),
      TdValue(Corner(last, "brr"), Flag(result.verified))])
  }

  /**
   * One row per result, in order. A row is marked failed exactly when its
   * result is unverified, and gets the bottom corners when its result is the
   * same object as the list's last.
   */
  method ResultRows(results: seq<ReportEnvelopeResult>) returns (rows: seq<Row>)
    ensures |rows| == |results|
    ensures forall i :: 0 <= i < |rows| ==> rows[i] == ResultRow(results[i], results[i] == results[|results| - 1])
    ensures forall i :: 0 <= i < |rows| ==> ("failed" in rows[i].classes <==> !results[i].verified)
    ensures Distinct(results) ==> CornersOnLastOnly(rows)
  {
    rows := [];
    for i := 0 to |results|
      invariant |rows| == i
      invariant forall k :: 0 <= k < i ==> rows[k] == ResultRow(results[k], results[k] == results[|results| - 1])
    {
      rows := rows + [ResultRow(results[i], results[i] == results[|results| - 1])];
    }
    if Distinct(results) {
      LastObjectIsLastIndex(results);
    }
  }

  /** In a list without repeats, only the final position holds the final object. */
  lemma LastObjectIsLastIndex(results: seq<ReportEnvelopeResult>)
    requires Distinct(results)
    ensures forall i :: 0 <= i < |results| ==> (results[i] == results[|results| - 1] <==> i == |results| - 1)
  {
  }

  method BuildResultsPart(report: ReportDetails) returns (s: Section)
    ensures s.Table? && s.part == ResultsTable && |s.rows| == |report.results|
    ensures forall i :: 0 <= i < |s.rows| ==>
      s.rows[i] == ResultRow(report.results[i], report.results[i] == report.results[|report.results| - 1])
    ensures forall i :: 0 <= i < |s.rows| ==> ("failed" in s.rows[i].classes <==> !report.results[i].verified)
    ensures Distinct(report.results) ==> CornersOnLastOnly(s.rows)
  {
    var rows := ResultRows(report.results);
    s := Table(ResultsTable, "Download Results", [
      Td(["tlr"], "Envelope ID"), Td([], "Original Name"), Td([], "Response Size"),
      Td([], "Saved File Name"), Td([], "Saved File Size"), Td(["trr"], "Verified")], rows);
    assert s.rows == rows;
  }

  // ---------------------------------------------------------------------
  // Errors table
  // ---------------------------------------------------------------------

  /** The results that carry an exception, in order. */
  function WithException(results: seq<ReportEnvelopeResult>): (r: seq<ReportEnvelopeResult>)
    reads results
    ensures forall i :: 0 <= i < |r| ==> r[i] in results && r[i].exception.Some?
    ensures forall i :: 0 <= i < |results| && results[i].exception.Some? ==> results[i] in r
    ensures Distinct(results) ==> Distinct(r)
  {
    if results == [] then []
    else
      var tail := WithException(results[1..]);
      if results[0].exception.Some? then
        assert Distinct(results) ==> results[0] !in tail;
        [results[0]] + tail
      else tail
  }

  /** Filtering distributes over concatenation, so the results keep their order. */
  lemma {:induction false} WithExceptionAppend(a: seq<ReportEnvelopeResult>, b: seq<ReportEnvelopeResult>)
    ensures WithException(a + b) == WithException(a) + WithException(b)
    decreases |a|
  {
    if a == [] {
      assert a + b == b;
    } else {
      assert (a + b)[1..] == a[1..] + b;
      WithExceptionAppend(a[1..], b);
    }
  }

  function ErrorRow(result: ReportEnvelopeResult, last: bool): (r: Row)
    requires result.exception.Some?
    reads result
    ensures |r.cells| == 2 && r.cells[0].text == Str(result.envelopeId) && r.cells[1].text == Str(result.exception.value)
    ensures last ==> Cornered(r)
    ensures !last ==> !CarriesCorner(r)
  {
    Row([], [Td(Corner(last, "blr"), result.envelopeId), Td(Corner(last, "brr"), result.exception.value)])
  }

  /**
   * The error rows as the source builds them: a row gets the bottom corners
   * when its result is the last of ALL results, not the last of those with an
   * exception.
   */
  method ErrorRowsAsWritten(failed: seq<ReportEnvelopeResult>, all: seq<ReportEnvelopeResult>) returns (rows: seq<Row>)
    requires all != []
    requires forall i :: 0 <= i < |failed| ==> failed[i].exception.Some?
    ensures |rows| == |failed|
    ensures forall i :: 0 <= i < |rows| ==> rows[i] == ErrorRow(failed[i], failed[i] == all[|all| - 1])
  {
    rows := [];
    for i := 0 to |failed|
      invariant |rows| == i
      invariant forall k :: 0 <= k < i ==> rows[k] == ErrorRow(failed[k], failed[k] == all[|all| - 1])
    {
      rows := rows + [ErrorRow(failed[i], failed[i] == all[|all| - 1])];
    }
  }

  /**
   * With two results of which only the first has an exception, the errors
   * table built as written has one row and no bottom corner on it.
   */
  method UncorneredErrorRowExample() returns (rows: seq<Row>)
    ensures |rows| == 1 && !CarriesCorner(rows[0])
  {
    var a := new ReportEnvelopeResult();
    a.exception := Some("File cannot be verified.");
    var b := new ReportEnvelopeResult();
    rows := ErrorRowsAsWritten([a], [a, b]);
  }

  /** The error rows with the bottom corners on the last row of the errors table. */
  method ErrorRows(failed: seq<ReportEnvelopeResult>) returns (rows: seq<Row>)
    requires forall i :: 0 <= i < |failed| ==> failed[i].exception.Some?
    ensures |rows| == |failed|
    ensures forall i :: 0 <= i < |rows| ==> rows[i] == ErrorRow(failed[i], failed[i] == failed[|failed| - 1])
    ensures forall i :: 0 <= i < |rows| ==>
      |rows[i].cells| == 2 && rows[i].cells[0].text == Str(failed[i].envelopeId) && rows[i].cells[1].text == Str(failed[i].exception.value)
    ensures Distinct(failed) ==> CornersOnLastOnly(rows)
  {
    rows := [];
    for i := 0 to |failed|
      invariant |rows| == i
      invariant forall k :: 0 <= k < i ==> rows[k] == ErrorRow(failed[k], failed[k] == failed[|failed| - 1])
    {
      rows := rows + [ErrorRow(failed[i], failed[i] == failed[|failed| - 1])];
    }
  }

  /** The errors table shown when the whole run failed: the message alone. */
  function OverallErrorPart(message: string): Section
  {
    Table(ErrorsTable, "Errors", [Td(["trr", "tlr"], "Message")], [Row([], [Td(["brr", "blr"], message)])])
  }

  /**
   * The errors table, or nothing when there is neither an overall exception
   * nor a result with one. An overall exception hides the per-envelope errors.
   */
  method BuildErrorsPart(report: ReportDetails) returns (s: Option<Section>)
    ensures s.None? <==>
      report.overallException.None? && forall i :: 0 <= i < |report.results| ==> report.results[i].exception.None?
    ensures report.overallException.Some? ==> s == Some(OverallErrorPart(report.overallException.value))
    ensures s.Some? ==> s.value.Table? && s.value.part == ErrorsTable
    ensures report.overallException.None? && s.Some? ==>
      |s.value.rows| == |WithException(report.results)| &&
      (Distinct(report.results) ==> CornersOnLastOnly(s.value.rows))
    ensures report.overallException.None? && s.Some? ==>
      var failed := WithException(report.results);
      forall i :: 0 <= i < |s.value.rows| ==>
        s.value.rows[i] == ErrorRow(failed[i], failed[i] == failed[|failed| - 1]) &&
        |s.value.rows[i].cells| == 2 && s.value.rows[i].cells[0].text == Str(failed[i].envelopeId) &&
        s.value.rows[i].cells[1].text == Str(failed[i].exception.value)
  {
    var failed := WithException(report.results);
    if report.overallException.None? && |failed| == 0 {
      forall i | 0 <= i < |report.results| ensures report.results[i].exception.None? {
        assert report.results[i] in report.results;
      }
      return None;
    }
    if report.overallException.Some? {
      return Some(OverallErrorPart(report.overallException.value));
    }
    assert failed[0] in failed;
    forall i | 0 <= i < |failed| ensures failed[i].exception.Some? {
      assert failed[i] in failed;
    }
    var rows := ErrorRows(failed);
    s := Some(Table(ErrorsTable, "Errors", [Td(["tlr"], "Envelope ID"), Td(["trr"], "Message")], rows));
    assert s.value.rows == rows;
  }

  // ---------------------------------------------------------------------
  // The whole report
  // ---------------------------------------------------------------------

  /**
   * The report's sections in page order. Styles, title and status always
   * come first; the configuration table appears exactly when there is a
   * configuration, the envelope and result tables exactly when there is no
   * overall exception, and the errors table exactly when something failed.
   */
  method BuildReport(report: ReportDetails, config: Option<Config>) returns (doc: seq<Section>)
    ensures |doc| >= 3 && doc[0] == Styles && doc[1] == TitlePart(report) && doc[2] == StatusPart(report.succeeded)
    ensures Shows(doc, ConfigTable) <==> config.Some?
    ensures Shows(doc, EnvelopesTable) <==> report.overallException.None?
    ensures Shows(doc, ResultsTable) <==> report.overallException.None?
    ensures Shows(doc, ErrorsTable) <==>
      report.overallException.Some? || exists i :: 0 <= i < |report.results| && report.results[i].exception.Some?
  {
    var head := [Styles, TitlePart(report), StatusPart(report.succeeded)];
    var configPart := OptionalConfigPart(config);
    var envelopesPart, resultsPart := OptionalRunParts(report);
    var errorsPart := OptionalErrorsPart(report);
    doc := head + configPart + envelopesPart + resultsPart + errorsPart;
    ReportParts(head, configPart, envelopesPart, resultsPart, errorsPart);
  }

  method OptionalConfigPart(config: Option<Config>) returns (parts: seq<Section>)
    ensures OnlyPart(parts, ConfigTable) && |parts| <= 1 && (parts != [] <==> config.Some?)
  {
    parts := [];
    if config.Some? {
      var c, _ := BuildConfigPart(config.value);
      parts := [c];
    }
  }

  method OptionalRunParts(report: ReportDetails) returns (envelopesPart: seq<Section>, resultsPart: seq<Section>)
    ensures OnlyPart(envelopesPart, EnvelopesTable) && (envelopesPart != [] <==> report.overallException.None?)
    ensures OnlyPart(resultsPart, ResultsTable) && (resultsPart != [] <==> report.overallException.None?)
  {
    envelopesPart, resultsPart := [], [];
    if report.overallException.None? {
      var r := BuildResultsPart(report);
      envelopesPart := [EnvelopesPart(report)];
      resultsPart := [r];
    }
  }

  method OptionalErrorsPart(report: ReportDetails) returns (parts: seq<Section>)
    ensures OnlyPart(parts, ErrorsTable)
    ensures parts != [] <==>
      report.overallException.Some? || exists i :: 0 <= i < |report.results| && report.results[i].exception.Some?
  {
    var errors := BuildErrorsPart(report);
    parts := if errors.Some? then [errors.value] else [];
  }

  /** Every section of `sections` is a table of the given part. */
  predicate OnlyPart(sections: seq<Section>, part: Part)
  {
    forall k :: 0 <= k < |sections| ==> sections[k].Table? && sections[k].part == part
  }

  lemma ShowsOnly(sections: seq<Section>, part: Part, p: Part)
    requires OnlyPart(sections, part)
    ensures Shows(sections, p) <==> sections != [] && p == part
  {
    if sections != [] && p == part {
      assert sections[0].Table? && sections[0].part == p;
    }
  }

  /** Which tables a report assembled from its parts shows. */
  lemma ReportParts(head: seq<Section>, configPart: seq<Section>, envelopesPart: seq<Section>,
                    resultsPart: seq<Section>, errorsPart: seq<Section>)
    requires |head| == 3 && !head[0].Table? && !head[1].Table? && head[2].Table? && head[2].part == StatusTable
    requires OnlyPart(configPart, ConfigTable) && OnlyPart(envelopesPart, EnvelopesTable)
    requires OnlyPart(resultsPart, ResultsTable) && OnlyPart(errorsPart, ErrorsTable)
    ensures Shows(head + configPart + envelopesPart + resultsPart + errorsPart, ConfigTable) <==> configPart != []
    ensures Shows(head + configPart + envelopesPart + resultsPart + errorsPart, EnvelopesTable) <==> envelopesPart != []
    ensures Shows(head + configPart + envelopesPart + resultsPart + errorsPart, ResultsTable) <==> resultsPart != []
    ensures Shows(head + configPart + envelopesPart + resultsPart + errorsPart, ErrorsTable) <==> errorsPart != []
  {
    forall p | p != StatusTable
      ensures Shows(head + configPart + envelopesPart + resultsPart + errorsPart, p) <==>
        (configPart != [] && p == ConfigTable) || (envelopesPart != [] && p == EnvelopesTable) ||
        (resultsPart != [] && p == ResultsTable) || (errorsPart != [] && p == ErrorsTable)
    {
      ShowsAppend(head + configPart + envelopesPart + resultsPart, errorsPart, p);
      ShowsAppend(head + configPart + envelopesPart, resultsPart, p);
      ShowsAppend(head + configPart, envelopesPart, p);
      ShowsAppend(head, configPart, p);
      ShowsOnly(configPart, ConfigTable, p);
      ShowsOnly(envelopesPart, EnvelopesTable, p);
      ShowsOnly(resultsPart, ResultsTable, p);
      ShowsOnly(errorsPart, ErrorsTable, p);
      assert OnlyPart(head[2..], StatusTable);
      assert !Shows(head[..2], p);
      assert head == head[..2] + head[2..];
      ShowsAppend(head[..2], head[2..], p);
      ShowsOnly(head[2..], StatusTable, p);
    }
  }

}
