/**
  The AdSense side of the job (`AdSenseAPI` in Adsense.py): listing the
  accounts reachable under one credential and turning one account's report
  response into rows.

  The Management API is not called: a service is modelled by the response
  its account listing returns and by the response it gives to each report
  request. A response is either a body or `RequestFailed` (`.execute()`
  raised). Keys of the JSON body that may be missing are `Option`s.
 */
module AdSense {
  import opened Wrappers
  import opened Calendar
  import opened Frame

  /** The outcome of executing one API request. */
  datatype Response<T> = Ok(body: T) | RequestFailed

  datatype Account = Account(name: Option<string>, displayName: Option<string>)

  /** The body of `accounts().list()`; its `accounts` key may be absent. */
  datatype AccountList = AccountList(accounts: Option<seq<Account>>)

  datatype Header = Header(name: Option<string>)
  datatype Cell = Cell(value: Option<string>)
  datatype ReportRow = ReportRow(cells: Option<seq<Cell>>)

  /** The body of `accounts().reports().generate()`; its `rows` key is absent when there is no data. */
  datatype Report = Report(headers: Option<seq<Header>>, rows: Option<seq<ReportRow>>)

  /** The parameters `fetch_report` passes to `generate`. */
  datatype ReportRequest = ReportRequest(
    account: string,
    dateRange: string,
    startDate: Date,
    endDate: Date,
    metrics: seq<string>,
    dimensions: seq<string>)

  /** One credentialed connection: what its listing returns and how it answers report requests. */
  datatype AdSenseService = AdSenseService(
    accountList: Response<AccountList>,
    generate: ReportRequest -> Response<Report>)

  const ReportMetrics: seq<string> := [
    "ESTIMATED_EARNINGS", "PAGE_VIEWS", "PAGE_VIEWS_RPM", "CLICKS",
    "AD_REQUESTS_CTR", "COST_PER_CLICK", "TOTAL_IMPRESSIONS",
    "AD_REQUESTS", "MATCHED_AD_REQUESTS", "IMPRESSIONS",
    "INDIVIDUAL_AD_IMPRESSIONS"]

  const ReportDimensions: seq<string> := ["DATE", "DOMAIN_NAME", "COUNTRY_CODE"]

  // ----- list_accounts -----

  /** Reading `name` and `displayName` of an account succeeds. */
  predicate AccountReadable(a: Account) {
    a.name.Some? && a.displayName.Some?
  }

  /** What `list_accounts` returns for a listing response. */
  function AccountIds(listing: Response<AccountList>): (ids: seq<string>) {
    match listing
    case RequestFailed => []
    case Ok(body) =>
      match body.accounts
      case None => []
      case Some(accounts) =>
        if forall i :: 0 <= i < |accounts| ==> AccountReadable(accounts[i])
        then seq(|accounts|, i requires 0 <= i < |accounts| && AccountReadable(accounts[i]) =>
                   accounts[i].name.value)
        else []
  }

  /**
    `list_accounts`: the account names in response order; empty when the
    request fails, when the `accounts` key is absent, or when any account
    lacks `name` or `displayName` (the exception discards the partial list).
   */
  method ListAccounts(api: AdSenseService) returns (ids: seq<string>)
    ensures ids == AccountIds(api.accountList)
    ensures api.accountList.RequestFailed? ==> ids == []
    ensures api.accountList.Ok? && api.accountList.body.accounts.None? ==> ids == []
    ensures api.accountList.Ok? && api.accountList.body.accounts.Some? ==>
      var accounts := api.accountList.body.accounts.value;
      && (ids != [] ==> |ids| == |accounts|)
      && (ids != [] <==> |accounts| > 0 && forall i :: 0 <= i < |accounts| ==> AccountReadable(accounts[i]))
      && forall i :: 0 <= i < |ids| ==> accounts[i].name == Some(ids[i])
  {
    if api.accountList.RequestFailed? {
      return [];
    }
    var accounts := api.accountList.body.accounts;
    if accounts.None? {
      return [];
    }
    var listed := accounts.value;
    ids := [];
    var i := 0;
    while i < |listed|
      invariant 0 <= i <= |listed|
      invariant |ids| == i
      invariant forall j :: 0 <= j < i ==> AccountReadable(listed[j]) && listed[j].name == Some(ids[j])
    {
      var account := listed[i];
      if account.name.None? || account.displayName.None? {
        return [];
      }
      ids := ids + [account.name.value];
      i := i + 1;
    }
  }

  // ----- fetch_report -----

  /** The request for one account: the window from the day before `today` to `today`. */
  function ReportRequestFor(accountId: string, today: Date): (q: ReportRequest)
    requires HasPredecessor(today)
    ensures q.account == accountId && q.dateRange == "CUSTOM"
    ensures q.endDate == today && HasSuccessor(q.startDate) && NextDay(q.startDate) == today
    ensures Ordinal(q.startDate) == Ordinal(today) - 1
    ensures q.metrics == ReportMetrics && q.dimensions == ReportDimensions
  {
    PrevDayOrdinal(today);
    NextOfPrev(today);
    ReportRequest(accountId, "CUSTOM", PrevDay(today), today, ReportMetrics, ReportDimensions)
  }

  function Min(a: int, b: int): (m: int) {
    if a < b then a else b
  }

  /** Python's `s[3:]`: empty when `s` has three elements or fewer. */
  function DropDimensions<T>(s: seq<T>): (r: seq<T>)
    ensures |s| <= 3 ==> r == []
    ensures |s| > 3 ==> r == s[3..]
  {
    if |s| <= 3 then [] else s[3..]
  }

  /** Python's `zip`: pairs position by position, as many as the shorter list has. */
  function Zip<A, B>(a: seq<A>, b: seq<B>): (z: seq<(A, B)>)
    ensures |z| == Min(|a|, |b|)
    ensures forall k :: 0 <= k < |z| ==> z[k] == (a[k], b[k])
  {
    seq(Min(|a|, |b|), k requires 0 <= k < Min(|a|, |b|) => (a[k], b[k]))
  }

  /**
    `zip(headers[3:], cells[3:])` in terms of the report's own lists: for
    each position past the three dimensions that both lists have, the
    header and the cell at that position, and nothing else.
   */
  lemma MetricPairs(headers: seq<Header>, cells: seq<Cell>)
    requires |cells| >= 3
    ensures var z := Zip(DropDimensions(headers), cells[3..]);
      && |z| == (if Min(|headers|, |cells|) <= 3 then 0 else Min(|headers|, |cells|) - 3)
      && forall k :: 0 <= k < |z| ==> z[k] == (headers[k + 3], cells[k + 3])
  {
  }

  /** Both `header['name']` and `float(cell['value'])` succeed for one zipped pair. */
  predicate PairReadable(p: (Header, Cell), toFloat: string -> Option<real>) {
    p.0.name.Some? && p.1.value.Some? && toFloat(p.1.value.value).Some?
  }

  predicate AllPairsReadable(pairs: seq<(Header, Cell)>, toFloat: string -> Option<real>) {
    forall k :: 0 <= k < |pairs| ==> PairReadable(pairs[k], toFloat)
  }

  /** No later pair carries the same header name as pair `k`. */
  predicate LastOfItsName(pairs: seq<(Header, Cell)>, k: int)
    requires 0 <= k < |pairs|
  {
    forall j :: k < j < |pairs| ==> pairs[j].0.name != pairs[k].0.name
  }

  /**
    The metrics dict comprehension `{header['name']: float(cell['value']) ...}`
    over the zipped pairs: a later pair of the same name overwrites an earlier
    one. `None` when any pair cannot be read.
   */
  function MetricDict(pairs: seq<(Header, Cell)>, toFloat: string -> Option<real>): (r: Option<map<string, Metric>>)
    ensures r.Some? <==> AllPairsReadable(pairs, toFloat)
    decreases |pairs|
  {
    if |pairs| == 0 then Some(map[])
    else
      var last := pairs[|pairs| - 1];
      match MetricDict(pairs[..|pairs| - 1], toFloat)
      case None => None
      case Some(m) =>
        if PairReadable(last, toFloat)
        then Some(m[last.0.name.value := Float(toFloat(last.1.value.value).value)])
        else None
  }

  /** The metric names are exactly the header names of the pairs. */
  lemma {:induction false} MetricDictKeys(pairs: seq<(Header, Cell)>, toFloat: string -> Option<real>)
    requires AllPairsReadable(pairs, toFloat)
    ensures MetricDict(pairs, toFloat).value.Keys == set k | 0 <= k < |pairs| :: pairs[k].0.name.value
    decreases |pairs|
  {
    if |pairs| > 0 {
      var n := |pairs| - 1;
      var pre := pairs[..n];
      assert AllPairsReadable(pre, toFloat) by {
        forall k | 0 <= k < n ensures PairReadable(pre[k], toFloat) {
          assert pre[k] == pairs[k];
        }
      }
      MetricDictKeys(pre, toFloat);
      var keys := set k | 0 <= k < |pairs| :: pairs[k].0.name.value;
      var preKeys := set k | 0 <= k < n :: pre[k].0.name.value;
      assert keys == preKeys + {pairs[n].0.name.value} by {
        forall x | x in keys ensures x in preKeys + {pairs[n].0.name.value} {
          var k :| 0 <= k < |pairs| && x == pairs[k].0.name.value;
          if k < n {
            assert pre[k] == pairs[k];
          }
        }
        forall x | x in preKeys ensures x in keys {
          var k :| 0 <= k < n && x == pre[k].0.name.value;
          assert pre[k] == pairs[k];
        }
      }
    }
  }

  /** Each pair not overwritten later contributes its parsed value under its header name. */
  lemma {:induction false} MetricDictValues(pairs: seq<(Header, Cell)>, toFloat: string -> Option<real>, k: int)
    requires AllPairsReadable(pairs, toFloat)
    requires 0 <= k < |pairs| && LastOfItsName(pairs, k)
    ensures pairs[k].0.name.value in MetricDict(pairs, toFloat).value
    ensures MetricDict(pairs, toFloat).value[pairs[k].0.name.value] == Float(toFloat(pairs[k].1.value.value).value)
    decreases |pairs|
  {
    var n := |pairs| - 1;
    if k < n {
      var pre := pairs[..n];
      assert AllPairsReadable(pre, toFloat) by {
        forall j | 0 <= j < n ensures PairReadable(pre[j], toFloat) {
          assert pre[j] == pairs[j];
        }
      }
      assert pre[k] == pairs[k];
      assert LastOfItsName(pre, k) by {
        forall j | k < j < n ensures pre[j].0.name != pre[k].0.name {
          assert pre[j] == pairs[j];
        }
      }
      MetricDictValues(pre, toFloat, k);
      assert pairs[n].0.name != pairs[k].0.name;
    }
  }

  /**
    One `row_data` record: the requested account id, cells 0 to 2 as date,
    domain and country, and the metrics of `headers[3:]` zipped with
    `cells[3:]`. `None` when any lookup along the way raises.
   */
  function BuildRow(accountId: string, headers: Option<seq<Header>>, row: ReportRow,
                    toFloat: string -> Option<real>): (r: Option<Row>)
    ensures r.Some? <==>
      && row.cells.Some? && |row.cells.value| >= 3
      && (forall k :: 0 <= k < 3 ==> row.cells.value[k].value.Some?)
      && headers.Some?
      && MetricDict(Zip(DropDimensions(headers.value), row.cells.value[3..]), toFloat).Some?
    ensures r.Some? ==>
      var cells := row.cells.value;
      && r.value.accountId == accountId
      && r.value.date == cells[0].value.value
      && r.value.domain == cells[1].value.value
      && r.value.country == cells[2].value.value
      && Some(r.value.metrics) == MetricDict(Zip(DropDimensions(headers.value), cells[3..]), toFloat)
  {
    match row.cells
    case None => None
    case Some(cells) =>
      if |cells| < 3 || cells[0].value.None? || cells[1].value.None? || cells[2].value.None? then None
      else if headers.None? then None
      else
        match MetricDict(Zip(DropDimensions(headers.value), cells[3..]), toFloat)
        case None => None
        case Some(m) => Some(Row(accountId, cells[0].value.value, cells[1].value.value, cells[2].value.value, m))
  }

  /** A row of exactly the three dimension cells carries no metrics at all. */
  lemma ThreeCellRowHasNoMetrics(accountId: string, headers: seq<Header>, row: ReportRow,
                                 toFloat: string -> Option<real>)
    requires row.cells.Some? && |row.cells.value| == 3
    requires forall k :: 0 <= k < 3 ==> row.cells.value[k].value.Some?
    ensures BuildRow(accountId, Some(headers), row, toFloat).Some?
    ensures BuildRow(accountId, Some(headers), row, toFloat).value.metrics == map[]
  {
  }

  /** Every row of the report can be built. */
  predicate AllRowsBuild(accountId: string, report: Report, rows: seq<ReportRow>, toFloat: string -> Option<real>) {
    forall i :: 0 <= i < |rows| ==> BuildRow(accountId, report.headers, rows[i], toFloat).Some?
  }

  /** What `fetch_report` returns for one report response. */
  function ReportRows(response: Response<Report>, accountId: string, toFloat: string -> Option<real>): (rows: seq<Row>) {
    match response
    case RequestFailed => []
    case Ok(report) =>
      match report.rows
      case None => []
      case Some(rows) =>
        if AllRowsBuild(accountId, report, rows, toFloat)
        then seq(|rows|, i requires 0 <= i < |rows| && BuildRow(accountId, report.headers, rows[i], toFloat).Some? =>
                   BuildRow(accountId, report.headers, rows[i], toFloat).value)
        else []
  }

  /**
    The shape of a fetch result: empty on a failed request or an absent
    `rows` key; otherwise all or nothing, each row built from its report row.
   */
  lemma ReportRowsShape(response: Response<Report>, accountId: string, toFloat: string -> Option<real>)
    ensures var rows := ReportRows(response, accountId, toFloat);
      && (response.RequestFailed? ==> rows == [])
      && (response.Ok? && response.body.rows.None? ==> rows == [])
      && (response.Ok? && response.body.rows.Some? ==>
            var reportRows := response.body.rows.value;
            && (rows != [] ==> |rows| == |reportRows|)
            && (|rows| == |reportRows| <==> AllRowsBuild(accountId, response.body, reportRows, toFloat))
            && forall i :: 0 <= i < |rows| ==>
                 BuildRow(accountId, response.body.headers, reportRows[i], toFloat) == Some(rows[i]))
  {
  }

  /** A report whose rows all build yields those rows, in order. */
  lemma ReportRowsAllBuilt(report: Report, accountId: string, toFloat: string -> Option<real>, rows: seq<Row>)
    requires report.rows.Some? && |rows| == |report.rows.value|
    requires forall j :: 0 <= j < |rows| ==> BuildRow(accountId, report.headers, report.rows.value[j], toFloat) == Some(rows[j])
    ensures rows == ReportRows(Ok(report), accountId, toFloat)
  {
    assert AllRowsBuild(accountId, report, report.rows.value, toFloat);
  }

  /** One row that cannot be built discards the whole report. */
  lemma ReportRowsOneFails(report: Report, accountId: string, toFloat: string -> Option<real>, i: int)
    requires report.rows.Some? && 0 <= i < |report.rows.value|
    requires BuildRow(accountId, report.headers, report.rows.value[i], toFloat).None?
    ensures ReportRows(Ok(report), accountId, toFloat) == []
  {
  }

  /**
    `fetch_report`: one output row per report row, in order, or nothing at
    all: a failed request, an absent `rows` key and any row that cannot be
    built all give the empty result.
   */
  method FetchReport(api: AdSenseService, accountId: string, today: Date, toFloat: string -> Option<real>)
    returns (rows: seq<Row>)
    requires HasPredecessor(today)
    ensures var response := api.generate(ReportRequestFor(accountId, today));
      && rows == ReportRows(response, accountId, toFloat)
      && (response.RequestFailed? ==> rows == [])
      && (response.Ok? && response.body.rows.None? ==> rows == [])
      && (response.Ok? && response.body.rows.Some? ==>
            var reportRows := response.body.rows.value;
            && (rows != [] ==> |rows| == |reportRows|)
            && (|rows| == |reportRows| <==> AllRowsBuild(accountId, response.body, reportRows, toFloat))
            && forall i :: 0 <= i < |rows| ==>
                 BuildRow(accountId, response.body.headers, reportRows[i], toFloat) == Some(rows[i]))
  {
    var response := api.generate(ReportRequestFor(accountId, today));
    ReportRowsShape(response, accountId, toFloat);
    if response.RequestFailed? {
      return [];
    }
    if response.body.rows.None? {
      return [];
    }
    rows := BuildReportRows(response.body, accountId, toFloat);
    assert response == Ok(response.body);
  }

  /**
    The loop over `report['rows']` in `fetch_report`: each report row is
    built in turn, and the first one that cannot be built ends the fetch
    with no rows.
   */
  method BuildReportRows(report: Report, accountId: string, toFloat: string -> Option<real>)
    returns (rows: seq<Row>)
    requires report.rows.Some?
    ensures rows == ReportRows(Ok(report), accountId, toFloat)
  {
    var reportRows := report.rows.value;
    rows := [];
    var i := 0;
    while i < |reportRows|
      invariant 0 <= i <= |reportRows|
      invariant |rows| == i
      invariant forall j :: 0 <= j < i ==> BuildRow(accountId, report.headers, reportRows[j], toFloat) == Some(rows[j])
    {
      var row := BuildRow(accountId, report.headers, reportRows[i], toFloat);
      if row.None? {
        ReportRowsOneFails(report, accountId, toFloat, i);
        return [];
      }
      rows := rows + [row.value];
      i := i + 1;
    }
    ReportRowsAllBuilt(report, accountId, toFloat, rows);
  }
}
