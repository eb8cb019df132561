/**
  The warehouse side of the job (`BigQueryClient` in main.py): the frame is
  prepared (count columns coerced to integers, two rate columns renamed), the
  rows dated on or after yesterday are deleted from the table, and the
  prepared rows are appended.

  The BigQuery table is held as a sequence of rows in `BigQueryClient.table`;
  `issued` records the warehouse operations in the order they were sent.
 */
module BigQuery {
  import opened Wrappers
  import opened Calendar
  import opened DateText
  import opened Frame

  /** The columns `push_to_bigquery` converts with `fillna(0).astype(int)`. */
  const CountColumns: seq<string> := [
    "CLICKS", "PAGE_VIEWS", "TOTAL_IMPRESSIONS", "IMPRESSIONS",
    "INDIVIDUAL_AD_IMPRESSIONS", "MATCHED_AD_REQUESTS", "AD_REQUESTS"]

  const CtrColumn := "AD_REQUESTS_CTR"
  const CpcColumn := "COST_PER_CLICK"
  const CtrName := "ctr"
  const CpcName := "cpc"

  // ----- integer coercion -----

  /** `astype(int)` on a float: truncation toward zero. */
  function Trunc(x: real): (n: int)
    ensures 0.0 <= x ==> 0 <= n && n as real <= x < n as real + 1.0
    ensures x < 0.0 ==> n <= 0 && n as real - 1.0 < x <= n as real
  {
    if x >= 0.0 then x.Floor else -((-x).Floor)
  }

  function CountValue(v: Metric): (n: int) {
    match v
    case Float(x) => Trunc(x)
    case Int(n) => n
  }

  /** One row after `df[int_cols] = df[int_cols].fillna(0).astype(int)`. */
  function CoerceRow(r: Row): (c: Row)
    ensures c.accountId == r.accountId && c.date == r.date && c.domain == r.domain && c.country == r.country
    ensures forall k :: k in CountColumns ==>
      k in c.metrics && c.metrics[k] == Int(if k in r.metrics then CountValue(r.metrics[k]) else 0)
    ensures forall k :: k !in CountColumns ==>
      (k in c.metrics <==> k in r.metrics) && (k in r.metrics ==> c.metrics[k] == r.metrics[k])
  {
    r.(metrics := r.metrics + map k | k in CountColumns :: Int(if k in r.metrics then CountValue(r.metrics[k]) else 0))
  }

  /** Some row of the frame has column `k` (pandas: `k in df.columns`). */
  predicate FrameHasColumn(frame: seq<Row>, k: string) {
    exists i :: 0 <= i < |frame| && k in frame[i].metrics
  }

  /**
    The count columns absent from the whole frame. Selecting `df[int_cols]`
    raises `KeyError` when this set is not empty.
   */
  function MissingCountColumns(frame: seq<Row>): (missing: set<string>)
    ensures forall k :: k in missing <==> k in CountColumns && !FrameHasColumn(frame, k)
  {
    set k | k in CountColumns && !FrameHasColumn(frame, k)
  }

  /** The coerced frame, or `None` where the column selection raises. */
  function CoerceCounts(frame: seq<Row>): (r: Option<seq<Row>>)
    ensures r.None? <==> MissingCountColumns(frame) != {}
    ensures r.Some? ==> |r.value| == |frame| && forall i :: 0 <= i < |frame| ==> r.value[i] == CoerceRow(frame[i])
  {
    if MissingCountColumns(frame) == {} then Some(seq(|frame|, i requires 0 <= i < |frame| => CoerceRow(frame[i])))
    else None
  }

  // ----- column rename -----

  /** One row after `rename(columns={'AD_REQUESTS_CTR': 'ctr', 'COST_PER_CLICK': 'cpc'})`. */
  function RenameRow(r: Row): (n: Row)
    ensures n.accountId == r.accountId && n.date == r.date && n.domain == r.domain && n.country == r.country
    ensures CtrColumn !in n.metrics && CpcColumn !in n.metrics
    ensures CtrColumn in r.metrics ==> CtrName in n.metrics && n.metrics[CtrName] == r.metrics[CtrColumn]
    ensures CpcColumn in r.metrics ==> CpcName in n.metrics && n.metrics[CpcName] == r.metrics[CpcColumn]
    ensures forall k :: k in r.metrics && k !in {CtrColumn, CpcColumn, CtrName, CpcName} ==>
      k in n.metrics && n.metrics[k] == r.metrics[k]
    ensures forall k :: k in n.metrics ==>
      k in r.metrics || (k == CtrName && CtrColumn in r.metrics) || (k == CpcName && CpcColumn in r.metrics)
  {
    var kept := r.metrics - {CtrColumn, CpcColumn};
    var withCtr := if CtrColumn in r.metrics then kept[CtrName := r.metrics[CtrColumn]] else kept;
    var withCpc := if CpcColumn in r.metrics then withCtr[CpcName := r.metrics[CpcColumn]] else withCtr;
    r.(metrics := withCpc)
  }

  /** The reverse rename, `ctr` back to `AD_REQUESTS_CTR` and `cpc` back to `COST_PER_CLICK`. */
  function UnrenameRow(r: Row): (n: Row) {
    var kept := r.metrics - {CtrName, CpcName};
    var withCtr := if CtrName in r.metrics then kept[CtrColumn := r.metrics[CtrName]] else kept;
    var withCpc := if CpcName in r.metrics then withCtr[CpcColumn := r.metrics[CpcName]] else withCtr;
    r.(metrics := withCpc)
  }

  /** The rename loses nothing: on rows without `ctr`/`cpc` columns the reverse rename restores the row. */
  lemma RenameLossless(r: Row)
    requires CtrName !in r.metrics && CpcName !in r.metrics
    ensures UnrenameRow(RenameRow(r)) == r
  {
    var back := UnrenameRow(RenameRow(r)).metrics;
    assert back.Keys == r.metrics.Keys;
    assert forall k :: k in back ==> back[k] == r.metrics[k];
  }

  /** The frame after coercion (line 109) and rename (line 112), as appended. */
  function Prepare(frame: seq<Row>): (r: Option<seq<Row>>)
    ensures r.None? <==> MissingCountColumns(frame) != {}
    ensures r.Some? ==> |r.value| == |frame|
    ensures r.Some? ==> forall i :: 0 <= i < |frame| ==> r.value[i] == RenameRow(CoerceRow(frame[i]))
  {
    match CoerceCounts(frame)
    case None => None
    case Some(coerced) => Some(seq(|coerced|, i requires 0 <= i < |coerced| => RenameRow(coerced[i])))
  }

  /** No count column is one of the rate columns or their new names: their lengths differ. */
  lemma CountColumnIsNoRate(k: string)
    requires k in CountColumns
    ensures k !in {CtrColumn, CpcColumn, CtrName, CpcName}
  {
    assert |k| in {6, 10, 11, 17, 19, 25};
    assert |CtrColumn| == 15 && |CpcColumn| == 14 && |CtrName| == 3 && |CpcName| == 3;
  }

  /** The frame can be prepared exactly when each count column appears in some row. */
  lemma PrepareSucceedsIff(frame: seq<Row>)
    ensures Prepare(frame).Some? <==>
      forall k :: k in CountColumns ==> exists i :: 0 <= i < |frame| && k in frame[i].metrics
  {
    if Prepare(frame).Some? {
      forall k | k in CountColumns ensures exists i :: 0 <= i < |frame| && k in frame[i].metrics {
        assert k !in MissingCountColumns(frame);
      }
    } else {
      var k :| k in MissingCountColumns(frame);
      assert !FrameHasColumn(frame, k);
    }
  }

  /** Count column `k` of an appended row: the row's value truncated to an integer, or 0 when the row lacks it. */
  lemma PreparedRow(frame: seq<Row>, i: int, k: string)
    requires Prepare(frame).Some? && 0 <= i < |frame| && k in CountColumns
    ensures k in Prepare(frame).value[i].metrics
    ensures Prepare(frame).value[i].metrics[k] ==
      Int(if k in frame[i].metrics then CountValue(frame[i].metrics[k]) else 0)
  {
    var c := CoerceRow(frame[i]);
    assert k in c.metrics && c.metrics[k] == Int(if k in frame[i].metrics then CountValue(frame[i].metrics[k]) else 0);
    CountColumnIsNoRate(k);
    assert Prepare(frame).value[i] == RenameRow(c);
  }

  /** The rate columns of an appended row hold the row's own rate values under their new names. */
  lemma PreparedRates(frame: seq<Row>, i: int)
    requires Prepare(frame).Some? && 0 <= i < |frame|
    ensures var p := Prepare(frame).value[i];
      && CtrColumn !in p.metrics && CpcColumn !in p.metrics
      && (CtrColumn in frame[i].metrics ==> CtrName in p.metrics && p.metrics[CtrName] == frame[i].metrics[CtrColumn])
      && (CpcColumn in frame[i].metrics ==> CpcName in p.metrics && p.metrics[CpcName] == frame[i].metrics[CpcColumn])
  {
    var c := CoerceRow(frame[i]);
    assert CtrColumn !in CountColumns && CpcColumn !in CountColumns by {
      if CtrColumn in CountColumns {
        CountColumnIsNoRate(CtrColumn);
      }
      if CpcColumn in CountColumns {
        CountColumnIsNoRate(CpcColumn);
      }
    }
    assert Prepare(frame).value[i] == RenameRow(c);
  }

  /** Preparation keeps row count, row order and every row's key columns. */
  lemma PrepareKeepsKeys(frame: seq<Row>, i: int)
    requires Prepare(frame).Some? && 0 <= i < |frame|
    ensures var p := Prepare(frame).value[i];
      p.accountId == frame[i].accountId && p.date == frame[i].date &&
      p.domain == frame[i].domain && p.country == frame[i].country
  {
  }

  // ----- delete and append -----

  /** `strftime('%Y-%m-%d')` of the day before `today`. */
  function Cutoff(today: Date): (c: string)
    requires HasPredecessor(today)
    ensures |c| == 10
  {
    Format(PrevDay(today))
  }

  /** The rows `DELETE ... WHERE date >= cutoff` leaves, in their order. */
  function Keep(table: seq<Row>, cutoff: string): (kept: seq<Row>)
    decreases |table|
  {
    if |table| == 0 then []
    else
      var last := table[|table| - 1];
      Keep(table[..|table| - 1], cutoff) + (if LexLess(last.date, cutoff) then [last] else [])
  }

  /** Exactly the rows dated before the cutoff survive the delete. */
  lemma {:induction false} KeepMembers(table: seq<Row>, cutoff: string, r: Row)
    ensures r in Keep(table, cutoff) <==> r in table && LexLess(r.date, cutoff)
    decreases |table|
  {
    if |table| > 0 {
      var n := |table| - 1;
      KeepMembers(table[..n], cutoff, r);
      assert table == table[..n] + [table[n]];
    }
  }

  /** Deleting from two parts is deleting from each. */
  lemma {:induction false} KeepAppend(a: seq<Row>, b: seq<Row>, cutoff: string)
    ensures Keep(a + b, cutoff) == Keep(a, cutoff) + Keep(b, cutoff)
    decreases |b|
  {
    if |b| == 0 {
      assert a + b == a;
    } else {
      var n := |b| - 1;
      assert (a + b)[..|a + b| - 1] == a + b[..n];
      assert (a + b)[|a + b| - 1] == b[n];
      KeepAppend(a, b[..n], cutoff);
    }
  }

  /** A table with only earlier rows is left as it is: the delete never reorders. */
  lemma {:induction false} KeepAllEarlier(table: seq<Row>, cutoff: string)
    requires forall i :: 0 <= i < |table| ==> LexLess(table[i].date, cutoff)
    ensures Keep(table, cutoff) == table
    decreases |table|
  {
    if |table| > 0 {
      var n := |table| - 1;
      KeepAllEarlier(table[..n], cutoff);
      assert table == table[..n] + [table[n]];
    }
  }

  /** A table with only rows on or after the cutoff is emptied. */
  lemma {:induction false} KeepNoneLater(table: seq<Row>, cutoff: string)
    requires forall i :: 0 <= i < |table| ==> !LexLess(table[i].date, cutoff)
    ensures Keep(table, cutoff) == []
    decreases |table|
  {
    if |table| > 0 {
      KeepNoneLater(table[..|table| - 1], cutoff);
    }
  }

  /** Deleting twice deletes nothing more. */
  lemma KeepIdempotent(table: seq<Row>, cutoff: string)
    ensures Keep(Keep(table, cutoff), cutoff) == Keep(table, cutoff)
  {
    var kept := Keep(table, cutoff);
    forall i | 0 <= i < |kept| ensures LexLess(kept[i].date, cutoff) {
      KeepMembers(table, cutoff, kept[i]);
    }
    KeepAllEarlier(kept, cutoff);
  }

  /** The table after deleting at `cutoff` and appending `rows`. */
  function Loaded(table: seq<Row>, cutoff: string, rows: seq<Row>): (after: seq<Row>) {
    Keep(table, cutoff) + rows
  }

  /** After a load the only rows dated on or after the cutoff are those just appended; earlier rows stay first. */
  lemma LoadReplacesWindow(table: seq<Row>, cutoff: string, rows: seq<Row>)
    ensures var after := Loaded(table, cutoff, rows);
      && after[..|Keep(table, cutoff)|] == Keep(table, cutoff)
      && after[|Keep(table, cutoff)|..] == rows
      && forall r :: r in after && !LexLess(r.date, cutoff) ==> r in rows
  {
    var after := Loaded(table, cutoff, rows);
    forall r | r in after && !LexLess(r.date, cutoff) ensures r in rows {
      KeepMembers(table, cutoff, r);
    }
  }

  /** Loading the same rows twice equals loading them once, when they all date on or after the cutoff. */
  lemma LoadIdempotent(table: seq<Row>, cutoff: string, rows: seq<Row>)
    requires forall i :: 0 <= i < |rows| ==> !LexLess(rows[i].date, cutoff)
    ensures Loaded(Loaded(table, cutoff, rows), cutoff, rows) == Loaded(table, cutoff, rows)
  {
    KeepAppend(Keep(table, cutoff), rows, cutoff);
    KeepIdempotent(table, cutoff);
    KeepNoneLater(rows, cutoff);
  }

  /** A row dated by a calendar date is deleted exactly when that date is yesterday or later. */
  lemma CutoffMeaning(today: Date, d: Date)
    requires HasPredecessor(today) && ValidDate(d)
    ensures !LexLess(Format(d), Cutoff(today)) <==> !Before(d, PrevDay(today))
    ensures !LexLess(Format(d), Cutoff(today)) <==> Ordinal(d) >= Ordinal(today) - 1
  {
    FormatOrder(d, PrevDay(today));
    OrdinalOrder(d, PrevDay(today));
    PrevDayOrdinal(today);
  }

  /** Both days of the report window, yesterday and today, are at or after the cutoff. */
  lemma WindowDatesDeleted(today: Date)
    requires HasPredecessor(today)
    ensures !LexLess(Format(PrevDay(today)), Cutoff(today))
    ensures !LexLess(Format(today), Cutoff(today))
  {
    CutoffMeaning(today, PrevDay(today));
    CutoffMeaning(today, today);
  }

  /** What one call of `push_to_bigquery` leaves in the table. */
  function TableAfterPush(table: seq<Row>, frame: seq<Row>, today: Date): (after: seq<Row>)
    requires HasPredecessor(today)
  {
    if |frame| == 0 then table
    else match Prepare(frame)
      case None => table
      case Some(rows) => Loaded(table, Cutoff(today), rows)
  }

  /**
    Pushing the same frame twice leaves the table as pushing it once, when
    every row of the frame dates on or after the cutoff — the duplicate
    avoidance the delete step exists for.
   */
  lemma PushIdempotent(table: seq<Row>, frame: seq<Row>, today: Date)
    requires HasPredecessor(today)
    requires forall i :: 0 <= i < |frame| ==> !LexLess(frame[i].date, Cutoff(today))
    ensures TableAfterPush(TableAfterPush(table, frame, today), frame, today) == TableAfterPush(table, frame, today)
  {
    if |frame| > 0 && Prepare(frame).Some? {
      var rows := Prepare(frame).value;
      forall i | 0 <= i < |rows| ensures !LexLess(rows[i].date, Cutoff(today)) {
        PrepareKeepsKeys(frame, i);
      }
      LoadIdempotent(table, Cutoff(today), rows);
    }
  }

  /** A frame of rows dated in the report window (yesterday or today) is pushed idempotently. */
  lemma WindowPushIdempotent(table: seq<Row>, frame: seq<Row>, today: Date)
    requires HasPredecessor(today)
    requires forall i :: 0 <= i < |frame| ==>
      frame[i].date == Format(PrevDay(today)) || frame[i].date == Format(today)
    ensures TableAfterPush(TableAfterPush(table, frame, today), frame, today) == TableAfterPush(table, frame, today)
  {
    WindowDatesDeleted(today);
    PushIdempotent(table, frame, today);
  }

  /** A warehouse request, as sent. */
  datatype WarehouseOp = DeleteFrom(cutoff: string) | Append(rows: seq<Row>)

  /** How `push_to_bigquery` ends: nothing to insert, rows pushed, or `KeyError` on absent count columns. */
  datatype PushResult = NoData | Pushed(count: nat) | MissingColumns(columns: set<string>)

  class BigQueryClient {
    /** The destination table's rows. */
    var table: seq<Row>
    /** The delete and append requests sent so far, in order. */
    var issued: seq<WarehouseOp>

    constructor(initial: seq<Row>)
      ensures table == initial && issued == []
    {
      table := initial;
      issued := [];
    }

    /** `delete_yesterday_data`: remove every row dated on or after yesterday and wait for completion. */
    method DeleteYesterdayData(today: Date)
      requires HasPredecessor(today)
      modifies this
      ensures table == Keep(old(table), Cutoff(today))
      ensures issued == old(issued) + [DeleteFrom(Cutoff(today))]
    {
      var previousDate := Format(PrevDay(today));
      table := Keep(table, previousDate);
      issued := issued + [DeleteFrom(previousDate)];
    }

    /**
      `push_to_bigquery`: an empty frame is a no-op; otherwise coerce, rename,
      delete and then append. A count column absent from every row raises
      before the delete, so the table is untouched.
     */
    method PushToBigQuery(df: seq<Row>, today: Date) returns (result: PushResult)
      requires HasPredecessor(today)
      modifies this
      ensures table == TableAfterPush(old(table), df, today)
      ensures |df| == 0 ==> result == NoData && table == old(table) && issued == old(issued)
      ensures |df| > 0 && MissingCountColumns(df) != {} ==>
        result == MissingColumns(MissingCountColumns(df)) && table == old(table) && issued == old(issued)
      ensures |df| > 0 && MissingCountColumns(df) == {} ==>
        var rows := Prepare(df).value;
        && result == Pushed(|df|)
        && table == Keep(old(table), Cutoff(today)) + rows
        && issued == old(issued) + [DeleteFrom(Cutoff(today)), Append(rows)]
    {
      if |df| == 0 {
        return NoData;
      }
      var coerced := CoerceCounts(df);
      if coerced.None? {
        return MissingColumns(MissingCountColumns(df));
      }
      var frame := seq(|coerced.value|, i requires 0 <= i < |coerced.value| => RenameRow(coerced.value[i]));
      DeleteYesterdayData(today);
      table := table + frame;
      issued := issued + [Append(frame)];
      result := Pushed(|frame|);
    }
  }
}
