/** GET /issues/export: a narrower filter than the list query (status,
    priority, severity and an inclusive creation-date range), newest first,
    served either as the raw rows or as CSV text. */
module IssueExport {
  import opened Common
  import opened Sequences
  import opened Tables
  import opened IssueQuery

  /** The export query string; an absent text parameter is "", an absent
      date None. Dates are day numbers, compared with `DATE(created_at)`. */
  datatype ExportQuery = ExportQuery(
    format: string,
    status: string,
    priority: string,
    severity: string,
    fromDate: Option<int>,
    toDate: Option<int>)

  /** The export filter, conjunct by conjunct; both date bounds are inclusive. */
  predicate ExportFilter(q: ExportQuery, i: Issue) {
    && ExportStatusOk(q, i)
    && ExportPriorityOk(q, i)
    && ExportSeverityOk(q, i)
    && (q.fromDate.Some? ==> q.fromDate.value <= Day(i.createdAt))
    && (q.toDate.Some? ==> Day(i.createdAt) <= q.toDate.value)
  }

  predicate ExportStatusOk(q: ExportQuery, i: Issue) {
    q.status != "" ==> i.status == Some(q.status)
  }

  predicate ExportPriorityOk(q: ExportQuery, i: Issue) {
    q.priority != "" ==> i.priority == Some(q.priority)
  }

  predicate ExportSeverityOk(q: ExportQuery, i: Issue) {
    q.severity != "" ==> i.severity == Some(q.severity)
  }

  /** Builds the export WHERE clause by appending one conjunct per supplied
      parameter; it selects exactly the rows `ExportFilter` accepts. */
  method ExportWhere(q: ExportQuery) returns (conds: seq<Cond>)
    ensures forall i :: HoldsAll(i, conds) <==> ExportFilter(q, i)
  {
    conds := [];
    if q.status != "" {
      AppendCond(conds, StatusIs(q.status));
      conds := conds + [StatusIs(q.status)];
    }
    assert forall i :: HoldsAll(i, conds) <==> ExportStatusOk(q, i);
    if q.priority != "" {
      AppendCond(conds, PriorityIs(q.priority));
      conds := conds + [PriorityIs(q.priority)];
    }
    assert forall i :: HoldsAll(i, conds) <==> ExportStatusOk(q, i) && ExportPriorityOk(q, i);
    if q.severity != "" {
      AppendCond(conds, SeverityIs(q.severity));
      conds := conds + [SeverityIs(q.severity)];
    }
    assert forall i :: HoldsAll(i, conds) <==>
      ExportStatusOk(q, i) && ExportPriorityOk(q, i) && ExportSeverityOk(q, i);
    if q.fromDate.Some? {
      AppendCond(conds, CreatedFrom(q.fromDate.value));
      conds := conds + [CreatedFrom(q.fromDate.value)];
    }
    assert forall i :: HoldsAll(i, conds) <==>
      ExportStatusOk(q, i) && ExportPriorityOk(q, i) && ExportSeverityOk(q, i)
      && (q.fromDate.Some? ==> q.fromDate.value <= Day(i.createdAt));
    if q.toDate.Some? {
      AppendCond(conds, CreatedUntil(q.toDate.value));
      conds := conds + [CreatedUntil(q.toDate.value)];
    }
  }

  /** The rows an export returns: the filtered table, newest first. */
  function ExportRows(issues: map<int, Issue>, next: int, q: ExportQuery): seq<Issue> {
    SortIssues(Filter(Rows(issues, 1, next), (i: Issue) => ExportFilter(q, i)), ByCreatedAt(false))
  }

  /** An export holds exactly the table rows that pass the filter, each as
      often as the filtered scan holds it, newest first. */
  lemma ExportRowsMeaning(issues: map<int, Issue>, next: int, q: ExportQuery)
    requires IssuesWellFormed(issues, next)
    ensures var out := ExportRows(issues, next, q);
      && (forall x :: x in out <==> x.id in issues && issues[x.id] == x && ExportFilter(q, x))
      && (forall j, k :: 0 <= j < k < |out| ==> out[j].createdAt >= out[k].createdAt)
      && multiset(out) == multiset(Filter(Rows(issues, 1, next), (i: Issue) => ExportFilter(q, i)))
  {
    var out := ExportRows(issues, next, q);
    IssueRowsExact(issues, next);
    CreatedAtOrder(out, false);
  }

  // ---- CSV ----

  const CsvHeader: string := "ID,Title,Description,Severity,Priority,Status,Created By,Assigned To,Created At,Updated At"

  /** `s.replace(/"/g, '""')`. */
  function Escape(s: string): (r: string)
    ensures |r| >= |s|
  {
    if s == [] then []
    else (if s[0] == '"' then "\"\"" else [s[0]]) + Escape(s[1..])
  }

  /** Reads back a field written by `Escape`: a doubled quote is one quote. */
  function Unescape(s: string): string
    decreases |s|
  {
    if s == [] then []
    else if |s| >= 2 && s[0] == '"' && s[1] == '"' then "\"" + Unescape(s[2..])
    else [s[0]] + Unescape(s[1..])
  }

  /** Quote doubling loses nothing: the field reads back as written. */
  lemma {:induction false} EscapeRoundTrip(s: string)
    ensures Unescape(Escape(s)) == s
  {
    if s != [] {
      EscapeRoundTrip(s[1..]);
      var tail := Escape(s[1..]);
      if s[0] == '"' {
        assert Escape(s) == "\"\"" + tail;
        assert (Escape(s))[2..] == tail;
      } else {
        assert Escape(s) == [s[0]] + tail;
        assert (Escape(s))[1..] == tail;
      }
    }
  }

  /** The escaped field is longer than the input by exactly its number of
      quotes: one extra character per doubled quote. */
  lemma {:induction false} EscapeDoublesQuotes(s: string)
    ensures |Escape(s)| == |s| + QuoteCount(s)
  {
    if s != [] {
      EscapeDoublesQuotes(s[1..]);
    }
  }

  function QuoteCount(s: string): nat {
    if s == [] then 0 else (if s[0] == '"' then 1 else 0) + QuoteCount(s[1..])
  }

  /** A title or description cell: `"` + escaped text + `"`, with a null
      column written as the empty string. */
  function TextCell(column: Option<string>): (r: string)
    ensures |r| >= 2 && r[0] == '"' && r[|r| - 1] == '"'
    ensures Unescape(r[1..|r| - 1]) == (if column.Some? then column.value else "")
  {
    var text := if column.Some? then column.value else "";
    EscapeRoundTrip(text);
    var r := "\"" + Escape(text) + "\"";
    assert r[1..|r| - 1] == Escape(text);
    r
  }

  /** A cell that `Array.join` writes unquoted: null becomes "". */
  function PlainCell(column: Option<string>): string {
    if column.Some? then column.value else ""
  }

  /** The ten cells of one issue, in the header's column order. Timestamps
      are written by `formatDate`, the JavaScript Date-to-string conversion. */
  function CsvCells(v: IssueView, formatDate: int -> string): (cells: seq<string>)
    ensures |cells| == 10
    ensures cells[0] == IntToString(v.issue.id)
    ensures cells[1] == TextCell(v.issue.title) && cells[2] == TextCell(v.issue.description)
    ensures cells[3] == PlainCell(v.issue.severity) && cells[4] == PlainCell(v.issue.priority)
    ensures cells[5] == PlainCell(v.issue.status) && cells[6] == PlainCell(v.createdByEmail)
    ensures cells[7] == PlainCell(v.assignedToEmail)
    ensures cells[8] == formatDate(v.issue.createdAt) && cells[9] == formatDate(v.issue.updatedAt)
  {
    [IntToString(v.issue.id), TextCell(v.issue.title), TextCell(v.issue.description)]
    + [PlainCell(v.issue.severity), PlainCell(v.issue.priority), PlainCell(v.issue.status)]
    + [PlainCell(v.createdByEmail), PlainCell(v.assignedToEmail)]
    + [formatDate(v.issue.createdAt), formatDate(v.issue.updatedAt)]
  }

  function CsvLine(v: IssueView, formatDate: int -> string): string {
    Join(CsvCells(v, formatDate), ",")
  }

  /** One CSV line per issue, in the order of the rows. */
  function CsvLines(views: seq<IssueView>, formatDate: int -> string): (r: seq<string>)
    ensures |r| == |views|
    ensures forall k :: 0 <= k < |views| ==> r[k] == CsvLine(views[k], formatDate)
  {
    seq(|views|, k requires 0 <= k < |views| => CsvLine(views[k], formatDate))
  }

  lemma CsvLinesSnoc(views: seq<IssueView>, k: int, formatDate: int -> string)
    requires 0 <= k < |views|
    ensures CsvLines(views[..k + 1], formatDate) == CsvLines(views[..k], formatDate) + [CsvLine(views[k], formatDate)]
  {
    var a := CsvLines(views[..k + 1], formatDate);
    var b := CsvLines(views[..k], formatDate) + [CsvLine(views[k], formatDate)];
    assert |a| == |b|;
    forall j | 0 <= j < |a|
      ensures a[j] == b[j]
    {
      assert views[..k + 1][j] == views[j];
      if j < k {
        assert views[..k][j] == views[j];
      }
    }
  }

  /** The CSV branch: the header, then one row pushed per issue, joined by
      newlines. */
  method RenderCsv(views: seq<IssueView>, formatDate: int -> string) returns (text: string)
    ensures text == Join([CsvHeader] + CsvLines(views, formatDate), "\n")
  {
    var csvRows := [CsvHeader];
    var k := 0;
    while k < |views|
      invariant 0 <= k <= |views|
      invariant csvRows == [CsvHeader] + CsvLines(views[..k], formatDate)
    {
      CsvLinesSnoc(views, k, formatDate);
      csvRows := csvRows + [CsvLine(views[k], formatDate)];
      k := k + 1;
    }
    assert views[..|views|] == views;
    text := Join(csvRows, "\n");
  }

  /** The CSV text starts with the header line; each further line is one
      issue's row, in export order. */
  lemma {:induction false} CsvStartsWithHeader(lines: seq<string>)
    ensures Join([CsvHeader] + lines, "\n") == CsvHeader + (if lines == [] then "" else "\n" + Join(lines, "\n"))
  {
    if lines != [] {
      assert ([CsvHeader] + lines)[1..] == lines;
    }
  }

  datatype ExportOut = Csv(text: string) | Json(rows: seq<IssueView>)

  /** GET /issues/export. `format` "csv" gives the CSV text, any other
      value the joined rows. */
  method ExportIssues(db: Db, q: ExportQuery, formatDate: int -> string) returns (r: Response<ExportOut>)
    requires db.Valid()
    ensures var views := Views(db.users, ExportRows(db.issues, db.nextIssueId, q));
      r == Ok(200, if q.format == "csv" then Csv(Join([CsvHeader] + CsvLines(views, formatDate), "\n")) else Json(views))
  {
    var conds := ExportWhere(q);
    var rows := Rows(db.issues, 1, db.nextIssueId);
    var selected := SelectWhere(rows, conds);
    FilterAgrees(rows, (i: Issue) => HoldsAll(i, conds), (i: Issue) => ExportFilter(q, i));
    var views := Views(db.users, SortIssues(selected, ByCreatedAt(false)));
    if q.format == "csv" {
      var text := RenderCsv(views, formatDate);
      r := Ok(200, Csv(text));
    } else {
      r := Ok(200, Json(views));
    }
  }
}
