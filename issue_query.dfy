/** The issue list query of `getIssues`: the WHERE clause built from the
    query string, the ORDER BY allow-list, LIMIT/OFFSET pagination, and
    the status breakdown over the whole table. */
module IssueQuery {
  import opened Common
  import opened Sequences
  import opened Paging
  import opened Tables

  const ValidStatuses: seq<string> := ["open", "in_progress", "resolved", "closed"]
  const ValidSeverities: seq<string> := ["low", "medium", "high", "critical"]
  const ValidPriorities: seq<string> := ["low", "medium", "high", "urgent"]
  const ValidSortFields: seq<string> := ["created_at", "due_date"]
  const ValidSortOrders: seq<string> := ["ASC", "DESC"]

  /** A query-string parameter read through `parseInt`: its raw text ("" when
      absent) and the integer parsed from it (None where parseInt gives NaN). */
  datatype IntParam = IntParam(raw: string, num: Option<int>)

  /** The query string of GET /issues; an absent string parameter is "". */
  datatype IssueQuery = IssueQuery(
    page: Option<int>,
    limit: Option<int>,
    search: string,
    status: string,
    priority: string,
    severity: string,
    assignedTo: IntParam,
    createdBy: IntParam,
    sortBy: string,
    sortOrder: string)

  /** One `AND ...` conjunct of a WHERE clause together with its parameter. */
  datatype Cond =
    | TextLike(pattern: string)
    | StatusIs(status: string)
    | PriorityIs(priority: string)
    | SeverityIs(severity: string)
    | AssigneeIsNull
    | AssigneeIs(assignee: Option<int>)
    | CreatorIs(creator: Option<int>)
    | CreatedFrom(fromDay: int)
    | CreatedUntil(toDay: int)

  /** `column LIKE '%pattern%'`; a NULL column never matches. */
  predicate TextMatches(column: Option<string>, pattern: string) {
    column.Some? && Contains(column.value, pattern)
  }

  /** What one conjunct means for a row. A NaN parameter binds as NULL and
      so matches no row. */
  predicate Holds(i: Issue, c: Cond) {
    match c
    case TextLike(s) => TextMatches(i.title, s) || TextMatches(i.description, s)
    case StatusIs(s) => i.status == Some(s)
    case PriorityIs(s) => i.priority == Some(s)
    case SeverityIs(s) => i.severity == Some(s)
    case AssigneeIsNull => i.assignedTo.None?
    case AssigneeIs(v) => v.Some? && i.assignedTo == v
    case CreatorIs(v) => v == Some(i.createdBy)
    case CreatedFrom(d) => Day(i.createdAt) >= d
    case CreatedUntil(d) => Day(i.createdAt) <= d
  }

  /** `WHERE 1=1 AND ...`: every conjunct holds. */
  predicate HoldsAll(i: Issue, conds: seq<Cond>) {
    forall k :: 0 <= k < |conds| ==> Holds(i, conds[k])
  }

  lemma HoldsAllAppend(i: Issue, conds: seq<Cond>, c: Cond)
    ensures HoldsAll(i, conds + [c]) <==> HoldsAll(i, conds) && Holds(i, c)
  {
    assert forall k :: 0 <= k < |conds| ==> (conds + [c])[k] == conds[k];
    assert (conds + [c])[|conds|] == c;
  }

  /** The rows the database returns for a WHERE clause. */
  function SelectWhere(rows: seq<Issue>, conds: seq<Cond>): (r: seq<Issue>)
    ensures forall x :: x in r <==> x in rows && HoldsAll(x, conds)
  {
    Filter(rows, (i: Issue) => HoldsAll(i, conds))
  }

  /** The list filter, stated field by field: a conjunction of the search
      text (in the title or the description), status, priority, severity,
      assignee ("unassigned" meaning no assignee) and creator; an empty
      parameter does not filter. */
  predicate ListFilter(q: IssueQuery, i: Issue) {
    SearchOk(q, i) && StatusOk(q, i) && PriorityOk(q, i) && SeverityOk(q, i) && AssigneeOk(q, i) && CreatorOk(q, i)
  }

  predicate SearchOk(q: IssueQuery, i: Issue) {
    q.search != "" ==> TextMatches(i.title, q.search) || TextMatches(i.description, q.search)
  }

  predicate StatusOk(q: IssueQuery, i: Issue) {
    q.status != "" ==> i.status == Some(q.status)
  }

  predicate PriorityOk(q: IssueQuery, i: Issue) {
    q.priority != "" ==> i.priority == Some(q.priority)
  }

  predicate SeverityOk(q: IssueQuery, i: Issue) {
    q.severity != "" ==> i.severity == Some(q.severity)
  }

  predicate AssigneeOk(q: IssueQuery, i: Issue) {
    && (q.assignedTo.raw == "unassigned" ==> i.assignedTo.None?)
    && (q.assignedTo.raw != "unassigned" && q.assignedTo.raw != "" ==>
          q.assignedTo.num.Some? && i.assignedTo == q.assignedTo.num)
  }

  predicate CreatorOk(q: IssueQuery, i: Issue) {
    q.createdBy.raw != "" ==> q.createdBy.num == Some(i.createdBy)
  }

  /** The issues of `rows` the list query selects, in the order given. */
  function ListMatches(rows: seq<Issue>, q: IssueQuery): (r: seq<Issue>)
    ensures forall x :: x in r <==> x in rows && ListFilter(q, x)
  {
    Filter(rows, (i: Issue) => ListFilter(q, i))
  }

  lemma AppendCond(conds: seq<Cond>, c: Cond)
    ensures forall i :: HoldsAll(i, conds + [c]) <==> HoldsAll(i, conds) && Holds(i, c)
  {
    forall i
      ensures HoldsAll(i, conds + [c]) <==> HoldsAll(i, conds) && Holds(i, c)
    {
      HoldsAllAppend(i, conds, c);
    }
  }

  /** Builds the WHERE clause of the list query by appending one conjunct per
      supplied filter; the clause selects exactly the rows `ListFilter`
      accepts. */
  method ListWhere(q: IssueQuery) returns (conds: seq<Cond>)
    ensures forall i :: HoldsAll(i, conds) <==> ListFilter(q, i)
  {
    conds := [];
    if q.search != "" {
      AppendCond(conds, TextLike(q.search));
      conds := conds + [TextLike(q.search)];
    }
    assert forall i :: HoldsAll(i, conds) <==> SearchOk(q, i);
    if q.status != "" {
      AppendCond(conds, StatusIs(q.status));
      conds := conds + [StatusIs(q.status)];
    }
    assert forall i :: HoldsAll(i, conds) <==> SearchOk(q, i) && StatusOk(q, i);
    if q.priority != "" {
      AppendCond(conds, PriorityIs(q.priority));
      conds := conds + [PriorityIs(q.priority)];
    }
    assert forall i :: HoldsAll(i, conds) <==> SearchOk(q, i) && StatusOk(q, i) && PriorityOk(q, i);
    if q.severity != "" {
      AppendCond(conds, SeverityIs(q.severity));
      conds := conds + [SeverityIs(q.severity)];
    }
    assert forall i :: HoldsAll(i, conds) <==>
      SearchOk(q, i) && StatusOk(q, i) && PriorityOk(q, i) && SeverityOk(q, i);
    if q.assignedTo.raw == "unassigned" {
      AppendCond(conds, AssigneeIsNull);
      conds := conds + [AssigneeIsNull];
    } else if q.assignedTo.raw != "" {
      AppendCond(conds, AssigneeIs(q.assignedTo.num));
      conds := conds + [AssigneeIs(q.assignedTo.num)];
    }
    assert forall i :: HoldsAll(i, conds) <==>
      SearchOk(q, i) && StatusOk(q, i) && PriorityOk(q, i) && SeverityOk(q, i) && AssigneeOk(q, i);
    if q.createdBy.raw != "" {
      AppendCond(conds, CreatorIs(q.createdBy.num));
      conds := conds + [CreatorIs(q.createdBy.num)];
    }
  }

  /** The ORDER BY the list query uses. */
  datatype SortKey = ByCreatedAt(ascending: bool) | ByDueDate(ascending: bool)

  /** The sort field falls back to created_at outside the allow-list; the
      order is upper-cased and anything but ASC or DESC means DESC. */
  function SortKeyOf(sortBy: string, sortOrder: string): (k: SortKey)
    ensures k.ByDueDate? <==> sortBy == "due_date"
    ensures k.ascending <==> Upper(sortOrder) == "ASC"
  {
    var field := if sortBy in ValidSortFields then sortBy else "created_at";
    var order := if Upper(sortOrder) in ValidSortOrders then Upper(sortOrder) else "DESC";
    if field == "due_date" then ByDueDate(order == "ASC") else ByCreatedAt(order == "ASC")
  }

  /** `a` may precede `b` under the key. For due_date:
      `ORDER BY due_date IS NULL, due_date <dir>, created_at DESC`. */
  predicate IssueLe(a: Issue, b: Issue, key: SortKey) {
    match key
    case ByCreatedAt(asc) =>
      if asc then a.createdAt <= b.createdAt else a.createdAt >= b.createdAt
    case ByDueDate(asc) =>
      if a.dueDate.None? != b.dueDate.None? then b.dueDate.None?
      else if a.dueDate.Some? && a.dueDate.value != b.dueDate.value then
        (if asc then a.dueDate.value < b.dueDate.value else a.dueDate.value > b.dueDate.value)
      else a.createdAt >= b.createdAt
  }

  function IssueOrder(key: SortKey): (Issue, Issue) -> bool {
    (a: Issue, b: Issue) => IssueLe(a, b, key)
  }

  lemma IssueOrderIsTotalPreorder(key: SortKey)
    ensures TotalPreorder(IssueOrder(key))
  {
    var le := IssueOrder(key);
    forall a: Issue, b: Issue, c: Issue | le(a, b) && le(b, c)
      ensures le(a, c)
    {
      assert IssueLe(a, b, key) && IssueLe(b, c, key);
    }
  }

  /** The rows in the order ORDER BY gives them; rows the key does not
      tell apart keep their table order. */
  function SortIssues(rows: seq<Issue>, key: SortKey): (r: seq<Issue>)
    ensures SortedBy(r, IssueOrder(key))
    ensures multiset(r) == multiset(rows)
    ensures forall x :: x in r <==> x in rows
  {
    IssueOrderIsTotalPreorder(key);
    SortedMembers(rows, IssueOrder(key));
    InsertionSort(rows, IssueOrder(key))
  }

  /** A due_date sort puts every null due date last, orders the others by
      due date in the chosen direction, and breaks ties by newest first. */
  lemma DueDateOrder(s: seq<Issue>, asc: bool)
    requires SortedBy(s, IssueOrder(ByDueDate(asc)))
    ensures forall i, j :: 0 <= i < j < |s| && s[i].dueDate.None? ==> s[j].dueDate.None?
    ensures forall i, j :: 0 <= i < j < |s| && s[i].dueDate.Some? && s[j].dueDate.Some? ==>
              if asc then s[i].dueDate.value <= s[j].dueDate.value else s[i].dueDate.value >= s[j].dueDate.value
    ensures forall i, j :: 0 <= i < j < |s| && s[i].dueDate == s[j].dueDate ==> s[i].createdAt >= s[j].createdAt
  {
    forall i, j | 0 <= i < j < |s|
      ensures IssueLe(s[i], s[j], ByDueDate(asc))
    {
      assert IssueOrder(ByDueDate(asc))(s[i], s[j]);
    }
  }

  /** A created_at sort orders by creation time in the chosen direction. */
  lemma CreatedAtOrder(s: seq<Issue>, asc: bool)
    requires SortedBy(s, IssueOrder(ByCreatedAt(asc)))
    ensures forall i, j :: 0 <= i < j < |s| ==>
              if asc then s[i].createdAt <= s[j].createdAt else s[i].createdAt >= s[j].createdAt
  {
    forall i, j | 0 <= i < j < |s|
      ensures IssueLe(s[i], s[j], ByCreatedAt(asc))
    {
      assert IssueOrder(ByCreatedAt(asc))(s[i], s[j]);
    }
  }

  /** An issue row joined with the emails of its creator and assignee. */
  datatype IssueView = IssueView(issue: Issue, createdByEmail: Option<string>, assignedToEmail: Option<string>)

  /** `SELECT i.*, u1.email, u2.email ... LEFT JOIN users`. */
  function ViewOf(users: map<int, User>, i: Issue): (v: IssueView)
    ensures v.issue == i
    ensures v.createdByEmail == EmailOf(users, i.createdBy)
    ensures i.assignedTo.None? ==> v.assignedToEmail.None?
    ensures i.assignedTo.Some? ==> v.assignedToEmail == EmailOf(users, i.assignedTo.value)
  {
    IssueView(i, EmailOf(users, i.createdBy),
      if i.assignedTo.Some? then EmailOf(users, i.assignedTo.value) else None)
  }

  function Views(users: map<int, User>, s: seq<Issue>): (r: seq<IssueView>)
    ensures |r| == |s|
    ensures forall k :: 0 <= k < |s| ==> r[k] == ViewOf(users, s[k])
  {
    if s == [] then [] else [ViewOf(users, s[0])] + Views(users, s[1..])
  }

  /** The JavaScript property key `counts[status]` writes: null becomes "null". */
  function StatusKey(s: Option<string>): string {
    if s.None? then "null" else s.value
  }

  /** `COUNT(*)` of the rows with the given status. */
  function CountStatus(rows: seq<Issue>, st: Option<string>): nat {
    if rows == [] then 0
    else (if rows[0].status == st then 1 else 0) + CountStatus(rows[1..], st)
  }

  /** The status column of the rows. */
  function Statuses(rows: seq<Issue>): (r: seq<Option<string>>)
    ensures |r| == |rows|
    ensures forall k :: 0 <= k < |rows| ==> r[k] == rows[k].status
  {
    if rows == [] then [] else [rows[0].status] + Statuses(rows[1..])
  }

  lemma {:induction false} CountAbsent(rows: seq<Issue>, st: Option<string>)
    requires st !in Statuses(rows)
    ensures CountStatus(rows, st) == 0
  {
    if rows != [] {
      assert Statuses(rows) == [rows[0].status] + Statuses(rows[1..]);
      CountAbsent(rows[1..], st);
    }
  }

  /** The distinct statuses of the rows. */
  function DistinctStatuses(rows: seq<Issue>): (r: seq<Option<string>>)
    ensures forall i, j :: 0 <= i < j < |r| ==> r[i] != r[j]
    ensures forall s :: s in r <==> s in Statuses(rows)
  {
    if rows == [] then []
    else
      var rest := DistinctStatuses(rows[1..]);
      assert Statuses(rows) == [rows[0].status] + Statuses(rows[1..]);
      if rows[0].status in rest then rest else [rows[0].status] + rest
  }

  /** `SELECT status, COUNT(*) FROM issues GROUP BY status`: one row per
      distinct status with its count. */
  function GroupByStatus(rows: seq<Issue>): (g: seq<(Option<string>, nat)>)
    ensures forall i, j :: 0 <= i < j < |g| ==> g[i].0 != g[j].0
    ensures forall k :: 0 <= k < |g| ==> g[k].0 in Statuses(rows) && g[k].1 == CountStatus(rows, g[k].0)
    ensures forall s :: s in Statuses(rows) ==> exists k :: 0 <= k < |g| && g[k].0 == s
  {
    var ds := DistinctStatuses(rows);
    var g := seq(|ds|, j requires 0 <= j < |ds| => (ds[j], CountStatus(rows, ds[j])));
    assert forall s :: s in Statuses(rows) ==> exists k :: 0 <= k < |g| && g[k].0 == s by {
      forall s | s in Statuses(rows)
        ensures exists k :: 0 <= k < |g| && g[k].0 == s
      {
        var k :| 0 <= k < |ds| && ds[k] == s;
        assert g[k].0 == s;
      }
    }
    g
  }

  /** The `counts` object: four statuses at zero, then each group's count
      written under its key, later groups overwriting earlier ones. */
  function Overlay(base: map<string, int>, groups: seq<(Option<string>, nat)>): (r: map<string, int>)
    ensures r.Keys == base.Keys + set g | g in groups :: StatusKey(g.0)
    decreases |groups|
  {
    if groups == [] then base
    else Overlay(base[StatusKey(groups[0].0) := groups[0].1], groups[1..])
  }

  const ZeroCounts: map<string, int> := map["open" := 0, "in_progress" := 0, "resolved" := 0, "closed" := 0]

  /** The forEach loop that writes each GROUP BY row into `counts`. */
  method TallyStatuses(groups: seq<(Option<string>, nat)>) returns (counts: map<string, int>)
    ensures counts == Overlay(ZeroCounts, groups)
  {
    counts := ZeroCounts;
    var j := 0;
    while j < |groups|
      invariant 0 <= j <= |groups|
      invariant Overlay(counts, groups[j..]) == Overlay(ZeroCounts, groups)
    {
      assert groups[j..][1..] == groups[j + 1..];
      counts := counts[StatusKey(groups[j].0) := groups[j].1];
      j := j + 1;
    }
    assert groups[j..] == [];
  }

  /** The value the overlay leaves under the key of a real status `s`:
      the count of the group for `s` if there is one, else the base value. */
  lemma {:induction false} OverlayAt(base: map<string, int>, groups: seq<(Option<string>, nat)>, s: string)
    requires s != "null" && s in base
    requires forall i, j :: 0 <= i < j < |groups| ==> groups[i].0 != groups[j].0
    ensures s in Overlay(base, groups)
    ensures (forall k :: 0 <= k < |groups| ==> groups[k].0 != Some(s)) ==> Overlay(base, groups)[s] == base[s]
    ensures forall k :: 0 <= k < |groups| && groups[k].0 == Some(s) ==> Overlay(base, groups)[s] == groups[k].1
    decreases |groups|
  {
    if groups != [] {
      var next := base[StatusKey(groups[0].0) := groups[0].1];
      OverlayAt(next, groups[1..], s);
      forall k | 1 <= k < |groups|
        ensures groups[1..][k - 1] == groups[k]
      {
      }
      if groups[0].0 == Some(s) {
        assert forall k :: 0 <= k < |groups[1..]| ==> groups[1..][k].0 != Some(s);
      }
    }
  }

  /** Every real status is reported with its count over the whole table,
      and a status no issue has is reported as 0. */
  lemma TallyCountsTable(rows: seq<Issue>, s: string)
    requires s in ValidStatuses
    ensures s in Overlay(ZeroCounts, GroupByStatus(rows))
    ensures Overlay(ZeroCounts, GroupByStatus(rows))[s] == CountStatus(rows, Some(s))
  {
    var g := GroupByStatus(rows);
    OverlayAt(ZeroCounts, g, s);
    if exists k :: 0 <= k < |g| && g[k].0 == Some(s) {
      var k :| 0 <= k < |g| && g[k].0 == Some(s);
      assert Overlay(ZeroCounts, g)[s] == g[k].1;
    } else {
      assert Some(s) !in Statuses(rows);
      CountAbsent(rows, Some(s));
    }
  }

  datatype PageInfo = PageInfo(page: int, limit: int, total: int, pages: int)

  datatype IssueList = IssueList(issues: seq<IssueView>, pagination: PageInfo, counts: map<string, int>)

  /** The response body of a successful GET /issues, as the database
      computes it: the page of the filtered and sorted rows, the pagination
      block, and the status breakdown of the whole table. */
  function ListResult(users: map<int, User>, issues: map<int, Issue>, next: int, q: IssueQuery, p: Paging): IssueList
    requires p.offset >= 0 && p.limit >= 1
  {
    var rows := Rows(issues, 1, next);
    var matching := ListMatches(rows, q);
    var page := Window(SortIssues(matching, SortKeyOf(q.sortBy, q.sortOrder)), p.offset, p.limit);
    IssueList(Views(users, page),
      PageInfo(p.page, p.limit, |matching|, PageCount(|matching|, p.limit)),
      Overlay(ZeroCounts, GroupByStatus(rows)))
  }

  /** What a list response promises: at most `limit` issues, each a row of
      the table that satisfies every filter, in the requested order; `total`
      and `pages` count the same filtered rows; and each real status is
      reported with its count over the whole table, filters notwithstanding. */
  lemma ListResultMeaning(users: map<int, User>, issues: map<int, Issue>, next: int, q: IssueQuery, p: Paging)
    requires IssuesWellFormed(issues, next)
    requires p.offset >= 0 && p.limit >= 1
    ensures var res := ListResult(users, issues, next, q, p);
      && |res.issues| <= p.limit
      && (forall k :: 0 <= k < |res.issues| ==>
            var i := res.issues[k].issue;
            ListFilter(q, i) && i.id in issues && issues[i.id] == i)
      && (forall j, k :: 0 <= j < k < |res.issues| ==>
            IssueLe(res.issues[j].issue, res.issues[k].issue, SortKeyOf(q.sortBy, q.sortOrder)))
      && res.pagination.total == |ListMatches(Rows(issues, 1, next), q)|
      && res.pagination.pages * p.limit >= res.pagination.total
      && (forall s :: s in ValidStatuses ==>
            s in res.counts && res.counts[s] == CountStatus(Rows(issues, 1, next), Some(s)))
  {
    var rows := Rows(issues, 1, next);
    var key := SortKeyOf(q.sortBy, q.sortOrder);
    var sorted := SortIssues(ListMatches(rows, q), key);
    var page := Window(sorted, p.offset, p.limit);
    var res := ListResult(users, issues, next, q, p);
    IssueRowsExact(issues, next);
    forall k | 0 <= k < |page|
      ensures ListFilter(q, page[k]) && page[k].id in issues && issues[page[k].id] == page[k]
    {
      assert page[k] in sorted;
    }
    forall j, k | 0 <= j < k < |page|
      ensures IssueLe(page[j], page[k], key)
    {
      assert IssueOrder(key)(sorted[p.offset + j], sorted[p.offset + k]);
    }
    forall s | s in ValidStatuses
      ensures s in res.counts && res.counts[s] == CountStatus(rows, Some(s))
    {
      TallyCountsTable(rows, s);
    }
  }

  /** GET /issues. */
  method GetIssues(db: Db, q: IssueQuery) returns (r: Response<IssueList>)
    requires db.Valid()
    ensures Paginate(q.page, q.limit).None? <==> r == Err(400, "Invalid pagination parameters")
    ensures Paginate(q.page, q.limit).Some? ==>
      r == Ok(200, ListResult(db.users, db.issues, db.nextIssueId, q, Paginate(q.page, q.limit).value))
  {
    var paging := Paginate(q.page, q.limit);
    if paging.None? {
      return Err(400, "Invalid pagination parameters");
    }
    var p := paging.value;
    var key := SortKeyOf(q.sortBy, q.sortOrder);
    var conds := ListWhere(q);
    var rows := Rows(db.issues, 1, db.nextIssueId);
    var matching := SelectWhere(rows, conds);
    FilterAgrees(rows, (i: Issue) => HoldsAll(i, conds), (i: Issue) => ListFilter(q, i));
    assert matching == ListMatches(rows, q);
    var page := Window(SortIssues(matching, key), p.offset, p.limit);
    var total := |matching|;
    var counts := TallyStatuses(GroupByStatus(rows));
    r := Ok(200, IssueList(Views(db.users, page), PageInfo(p.page, p.limit, total, PageCount(total, p.limit)), counts));
  }
}
