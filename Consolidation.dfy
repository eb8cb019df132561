/**
  The fetch loop of `process_reports`: for each credentialed source in turn,
  for each account it lists, the account's report rows are appended
  (`pd.concat(..., ignore_index=True)`) to one table. Nothing is
  deduplicated and an account whose fetch fails simply contributes no rows.
 */
module Consolidation {
  import opened Wrappers
  import opened Calendar
  import opened Frame
  import opened AdSense

  /** Concatenation of tables in order. */
  function Flatten(tables: seq<seq<Row>>): (merged: seq<Row>)
    decreases |tables|
  {
    if |tables| == 0 then [] else Flatten(tables[..|tables| - 1]) + tables[|tables| - 1]
  }

  /** The sum of the tables' row counts. */
  function TotalRows(tables: seq<seq<Row>>): (total: nat)
    decreases |tables|
  {
    if |tables| == 0 then 0 else TotalRows(tables[..|tables| - 1]) + |tables[|tables| - 1]|
  }

  lemma {:induction false} FlattenLength(tables: seq<seq<Row>>)
    ensures |Flatten(tables)| == TotalRows(tables)
    decreases |tables|
  {
    if |tables| > 0 {
      FlattenLength(tables[..|tables| - 1]);
    }
  }

  lemma {:induction false} FlattenAppend(a: seq<seq<Row>>, b: seq<seq<Row>>)
    ensures Flatten(a + b) == Flatten(a) + Flatten(b)
    decreases |b|
  {
    if |b| == 0 {
      assert a + b == a;
    } else {
      var n := |b| - 1;
      assert (a + b)[..|a + b| - 1] == a + b[..n];
      assert (a + b)[|a + b| - 1] == b[n];
      assert Flatten(a + b) == Flatten(a + b[..n]) + b[n];
      FlattenAppend(a, b[..n]);
      assert Flatten(b) == Flatten(b[..n]) + b[n];
    }
  }

  lemma FlattenPrefixStep(tables: seq<seq<Row>>, k: int)
    requires 0 <= k < |tables|
    ensures Flatten(tables[..k + 1]) == Flatten(tables[..k]) + tables[k]
  {
    assert tables[..k + 1][..k] == tables[..k];
  }

  /** Appending table `k` to a merge of the tables before it extends the merge by one table. */
  lemma AppendOneTable(base: seq<Row>, tables: seq<seq<Row>>, k: int)
    requires 0 <= k < |tables|
    ensures (base + Flatten(tables[..k])) + tables[k] == base + Flatten(tables[..k + 1])
  {
    FlattenPrefixStep(tables, k);
  }

  /** Two tables merge into the rows of the first followed by the rows of the second. */
  lemma MergeTwo(r1: seq<Row>, r2: seq<Row>)
    ensures Flatten([r1, r2]) == r1 + r2
  {
    assert [r1, r2][..1] == [r1];
    assert [r1][..0] == [];
    assert Flatten([r1]) == Flatten([]) + r1;
  }

  /** Merging only empty tables, or none, gives the empty table. */
  lemma {:induction false} FlattenOfEmpties(tables: seq<seq<Row>>)
    requires forall i :: 0 <= i < |tables| ==> tables[i] == []
    ensures Flatten(tables) == []
    decreases |tables|
  {
    if |tables| > 0 {
      FlattenOfEmpties(tables[..|tables| - 1]);
    }
  }

  /** An empty table in the middle drops out: the tables around it are all kept, in order. */
  lemma FlattenSkipsEmpty(tables: seq<seq<Row>>, i: int)
    requires 0 <= i < |tables| && tables[i] == []
    ensures Flatten(tables) == Flatten(tables[..i]) + Flatten(tables[i + 1..])
  {
    FlattenPrefixStep(tables, i);
    assert tables[..i + 1] + tables[i + 1..] == tables;
    FlattenAppend(tables[..i + 1], tables[i + 1..]);
    assert Flatten(tables[..i]) + [] == Flatten(tables[..i]);
  }

  /** Every row of the merge comes from some table, and every row of every table is in the merge. */
  lemma {:induction false} FlattenMembers(tables: seq<seq<Row>>, r: Row)
    ensures r in Flatten(tables) <==> exists i :: 0 <= i < |tables| && r in tables[i]
    decreases |tables|
  {
    if |tables| > 0 {
      var n := |tables| - 1;
      FlattenMembers(tables[..n], r);
      if r in Flatten(tables[..n]) {
        var i :| 0 <= i < n && r in tables[..n][i];
        assert tables[i] == tables[..n][i];
      }
      if exists i :: 0 <= i < |tables| && r in tables[i] {
        var i :| 0 <= i < |tables| && r in tables[i];
        if i < n {
          assert tables[..n][i] == tables[i];
        }
      }
    }
  }

  /** The per-account tables of one source, in listing order. */
  function SourceTables(api: AdSenseService, today: Date, toFloat: string -> Option<real>): (t: seq<seq<Row>>)
    requires HasPredecessor(today)
    ensures |t| == |AccountIds(api.accountList)|
  {
    var ids := AccountIds(api.accountList);
    seq(|ids|, k requires 0 <= k < |ids| =>
      ReportRows(api.generate(ReportRequestFor(ids[k], today)), ids[k], toFloat))
  }

  /** Entry `k` of a source's tables is the fetch result for its `k`-th account. */
  lemma SourceTableAt(api: AdSenseService, today: Date, toFloat: string -> Option<real>, k: int)
    requires HasPredecessor(today) && 0 <= k < |AccountIds(api.accountList)|
    ensures var id := AccountIds(api.accountList)[k];
      SourceTables(api, today, toFloat)[k] == ReportRows(api.generate(ReportRequestFor(id, today)), id, toFloat)
  {
  }

  /** The per-account tables of all sources: source by source, account by account. */
  function AccountTables(sources: seq<AdSenseService>, today: Date, toFloat: string -> Option<real>): (tables: seq<seq<Row>>)
    requires HasPredecessor(today)
    decreases |sources|
  {
    if |sources| == 0 then []
    else AccountTables(sources[..|sources| - 1], today, toFloat) + SourceTables(sources[|sources| - 1], today, toFloat)
  }

  /** The consolidated table `all_data` after the fetch loop. */
  function Consolidated(sources: seq<AdSenseService>, today: Date, toFloat: string -> Option<real>): (allData: seq<Row>)
    requires HasPredecessor(today)
  {
    Flatten(AccountTables(sources, today, toFloat))
  }

  /** The rows one source contributes. */
  function SourceRows(api: AdSenseService, today: Date, toFloat: string -> Option<real>): (rows: seq<Row>)
    requires HasPredecessor(today)
  {
    Flatten(SourceTables(api, today, toFloat))
  }

  lemma {:induction false} AccountTablesAppend(a: seq<AdSenseService>, b: seq<AdSenseService>, today: Date,
                                               toFloat: string -> Option<real>)
    requires HasPredecessor(today)
    ensures AccountTables(a + b, today, toFloat) == AccountTables(a, today, toFloat) + AccountTables(b, today, toFloat)
    decreases |b|
  {
    if |b| == 0 {
      assert a + b == a;
    } else {
      var n := |b| - 1;
      assert (a + b)[..|a + b| - 1] == a + b[..n];
      assert (a + b)[|a + b| - 1] == b[n];
      AccountTablesAppend(a, b[..n], today, toFloat);
    }
  }

  /** Sources are consolidated in order: the rows of the first sources, then those of the rest. */
  lemma SourcesInOrder(a: seq<AdSenseService>, b: seq<AdSenseService>, today: Date, toFloat: string -> Option<real>)
    requires HasPredecessor(today)
    ensures Consolidated(a + b, today, toFloat) == Consolidated(a, today, toFloat) + Consolidated(b, today, toFloat)
  {
    AccountTablesAppend(a, b, today, toFloat);
    FlattenAppend(AccountTables(a, today, toFloat), AccountTables(b, today, toFloat));
  }

  lemma SingleSource(api: AdSenseService, today: Date, toFloat: string -> Option<real>)
    requires HasPredecessor(today)
    ensures Consolidated([api], today, toFloat) == SourceRows(api, today, toFloat)
  {
    assert [api][..0] == [];
    assert AccountTables([api], today, toFloat) == [] + SourceTables(api, today, toFloat);
    assert [] + SourceTables(api, today, toFloat) == SourceTables(api, today, toFloat);
  }

  /** The four credential sets of the job, one after the other. */
  lemma FourSources(s1: AdSenseService, s2: AdSenseService, s3: AdSenseService, s4: AdSenseService,
                    today: Date, toFloat: string -> Option<real>)
    requires HasPredecessor(today)
    ensures Consolidated([s1, s2, s3, s4], today, toFloat) ==
      SourceRows(s1, today, toFloat) + SourceRows(s2, today, toFloat) +
      SourceRows(s3, today, toFloat) + SourceRows(s4, today, toFloat)
  {
    assert [s1, s2, s3, s4] == [s1] + [s2] + [s3] + [s4];
    SourcesInOrder([s1] + [s2] + [s3], [s4], today, toFloat);
    SourcesInOrder([s1] + [s2], [s3], today, toFloat);
    SourcesInOrder([s1], [s2], today, toFloat);
    SingleSource(s1, today, toFloat);
    SingleSource(s2, today, toFloat);
    SingleSource(s3, today, toFloat);
    SingleSource(s4, today, toFloat);
  }

  /** The consolidated row count is the sum of the per-account row counts: nothing dropped, nothing deduplicated. */
  lemma ConsolidatedLength(sources: seq<AdSenseService>, today: Date, toFloat: string -> Option<real>)
    requires HasPredecessor(today)
    ensures |Consolidated(sources, today, toFloat)| == TotalRows(AccountTables(sources, today, toFloat))
  {
    FlattenLength(AccountTables(sources, today, toFloat));
  }

  /** When no source lists any account, the consolidated table is empty. */
  lemma {:induction false} NoAccountsNoRows(sources: seq<AdSenseService>, today: Date, toFloat: string -> Option<real>)
    requires HasPredecessor(today)
    requires forall s :: 0 <= s < |sources| ==> AccountIds(sources[s].accountList) == []
    ensures Consolidated(sources, today, toFloat) == []
    decreases |sources|
  {
    if |sources| > 0 {
      var n := |sources| - 1;
      NoAccountsNoRows(sources[..n], today, toFloat);
      FlattenAppend(AccountTables(sources[..n], today, toFloat), SourceTables(sources[n], today, toFloat));
      assert SourceTables(sources[n], today, toFloat) == [];
    }
  }

  /**
    A failed fetch for one account is isolated: the merge is exactly the rows
    of every other account, in order.
   */
  lemma FailedFetchIsolated(sources: seq<AdSenseService>, today: Date, toFloat: string -> Option<real>, i: int)
    requires HasPredecessor(today)
    requires 0 <= i < |AccountTables(sources, today, toFloat)|
    requires AccountTables(sources, today, toFloat)[i] == []
    ensures var tables := AccountTables(sources, today, toFloat);
      Consolidated(sources, today, toFloat) == Flatten(tables[..i]) + Flatten(tables[i + 1..])
  {
    FlattenSkipsEmpty(AccountTables(sources, today, toFloat), i);
  }

  /**
    One credential block of `process_reports`: every account the source
    lists has its report appended to `allData`, in listing order.
   */
  method AppendSourceRows(api: AdSenseService, today: Date, toFloat: string -> Option<real>, allData: seq<Row>)
    returns (extended: seq<Row>)
    requires HasPredecessor(today)
    ensures extended == allData + SourceRows(api, today, toFloat)
  {
    extended := allData;
    var ids := ListAccounts(api);
    ghost var tables := SourceTables(api, today, toFloat);
    assert extended == allData + Flatten(tables[..0]);
    for k := 0 to |ids|
      invariant extended == allData + Flatten(tables[..k])
    {
      var df := FetchReport(api, ids[k], today, toFloat);
      SourceTableAt(api, today, toFloat, k);
      AppendOneTable(allData, tables, k);
      extended := extended + df;
    }
    assert tables[..|ids|] == tables;
  }

  /**
    The fetch loop of `process_reports`: `all_data` starts empty and the
    sources' blocks run one after another.
   */
  method Consolidate(sources: seq<AdSenseService>, today: Date, toFloat: string -> Option<real>)
    returns (allData: seq<Row>)
    requires HasPredecessor(today)
    ensures allData == Consolidated(sources, today, toFloat)
  {
    allData := [];
    for s := 0 to |sources|
      invariant allData == Consolidated(sources[..s], today, toFloat)
    {
      allData := AppendSourceRows(sources[s], today, toFloat, allData);
      assert sources[..s + 1][..s] == sources[..s];
      FlattenAppend(AccountTables(sources[..s], today, toFloat), SourceTables(sources[s], today, toFloat));
    }
    assert sources[..|sources|] == sources;
  }
}
