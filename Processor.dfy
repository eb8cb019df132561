/**
  `AdSenseReportProcessor` in Adsense.py: four credentialed AdSense sources
  and one BigQuery client. `process_reports` consolidates every account's
  rows and pushes the result only when it is not empty.
 */
module Processor {
  import opened Wrappers
  import opened Calendar
  import opened DateText
  import opened Frame
  import opened AdSense
  import opened Consolidation
  import opened BigQuery

  /** What a run leaves in the warehouse table. */
  function TableAfterRun(table: seq<Row>, sources: seq<AdSenseService>, today: Date,
                         toFloat: string -> Option<real>): (after: seq<Row>)
    requires HasPredecessor(today)
  {
    TableAfterPush(table, Consolidated(sources, today, toFloat), today)
  }

  /**
    Running the job twice on the same day, against sources that answer the
    same way, leaves the table as one run does, provided every fetched row
    dates on or after yesterday.
   */
  lemma RunIdempotent(table: seq<Row>, sources: seq<AdSenseService>, today: Date, toFloat: string -> Option<real>)
    requires HasPredecessor(today)
    requires var all := Consolidated(sources, today, toFloat);
      forall i :: 0 <= i < |all| ==> !LexLess(all[i].date, Cutoff(today))
    ensures TableAfterRun(TableAfterRun(table, sources, today, toFloat), sources, today, toFloat) ==
            TableAfterRun(table, sources, today, toFloat)
  {
    PushIdempotent(table, Consolidated(sources, today, toFloat), today);
  }

  /** When no source lists an account, a run leaves the table alone. */
  lemma NoAccountsNoLoad(table: seq<Row>, sources: seq<AdSenseService>, today: Date, toFloat: string -> Option<real>)
    requires HasPredecessor(today)
    requires forall s :: 0 <= s < |sources| ==> AccountIds(sources[s].accountList) == []
    ensures TableAfterRun(table, sources, today, toFloat) == table
  {
    NoAccountsNoRows(sources, today, toFloat);
  }

  class AdSenseReportProcessor {
    /** The credential sets 1 to 4, in the order they are processed. */
    const sources: seq<AdSenseService>
    const bigqueryClient: BigQueryClient

    constructor(api1: AdSenseService, api2: AdSenseService, api3: AdSenseService, api4: AdSenseService,
                client: BigQueryClient)
      ensures |sources| == 4
      ensures sources[0] == api1 && sources[1] == api2 && sources[2] == api3 && sources[3] == api4
      ensures bigqueryClient == client
    {
      sources := [api1, api2, api3, api4];
      bigqueryClient := client;
    }

    /**
      `process_reports`: consolidate sources 1 to 4 and push the table when it
      is not empty; otherwise no warehouse request is sent.
     */
    method ProcessReports(today: Date, toFloat: string -> Option<real>) returns (result: PushResult)
      requires HasPredecessor(today)
      modifies bigqueryClient
      ensures var all := Consolidated(sources, today, toFloat);
        && bigqueryClient.table == TableAfterRun(old(bigqueryClient.table), sources, today, toFloat)
        && (|all| == 0 ==> result == NoData && bigqueryClient.issued == old(bigqueryClient.issued))
        && (|all| > 0 && MissingCountColumns(all) == {} ==>
              bigqueryClient.issued == old(bigqueryClient.issued) + [DeleteFrom(Cutoff(today)), Append(Prepare(all).value)]
              && result == Pushed(|all|))
        && (|all| > 0 && MissingCountColumns(all) != {} ==>
              bigqueryClient.issued == old(bigqueryClient.issued) && result == MissingColumns(MissingCountColumns(all)))
    {
      var allData := Consolidate(sources, today, toFloat);
      if |allData| > 0 {
        result := bigqueryClient.PushToBigQuery(allData, today);
      } else {
        result := NoData;
      }
    }
  }
}
