/** One invocation of the monthly billing job, up to the point where its rows
    are handed to the warehouse: resolve the window, fetch the usage report for
    it, aggregate, and build one row per service. */
module BillingJob {
  import opened Calendar
  import opened ReportWindow
  import opened UsageReport
  import opened Aggregation

  /** What a run prepares for the warehouse load. */
  datatype Report = Report(
    window: Window,
    rows: seq<Row>,
    totalBytesDelivered: int,
    metadataCalls: seq<ServiceId>)

  /** How a run ends: the rows prepared for the warehouse, or one of the two
      failures the job can meet on its own. */
  datatype Outcome =
    | Prepared(report: Report)
    /** Python's OverflowError: a run in January of year 1 has no previous month. */
    | DateOverflow
    /** Python's ZeroDivisionError: the report lists services but their
        bandwidths add up to 0, so the first percentage divides by zero. */
    | DivisionByZero

  /** `fetchUsage` stands for the usage request over the window and `getService`
      for the metadata request. */
  method Run(today: Date, fetchUsage: Window -> UsageData, getService: ServiceId -> ServiceInfo)
    returns (r: Outcome)
    requires Valid(today)
    ensures r.DateOverflow? <==> today.year == MinYear && today.month == 1
    ensures r.DivisionByZero? <==>
              && !(today.year == MinYear && today.month == 1)
              && var es := Flatten(fetchUsage(ResolveWindow(today).value));
                 es != [] && TotalBandwidth(es) == 0
    ensures r.Prepared? ==> r.report.window == ResolveWindow(today).value
    ensures r.Prepared? ==>
              var rep := r.report;
              var es := Flatten(fetchUsage(rep.window));
              && rep.totalBytesDelivered == TotalBandwidth(es)
              && RowsBandwidth(rep.rows) == rep.totalBytesDelivered
              && rep.metadataCalls == FirstSeen(es)
              && Distinct(rep.metadataCalls)
              && (forall s :: s in rep.metadataCalls <==> s in ServiceIds(es))
              && |rep.rows| == |rep.metadataCalls|
              && forall k :: 0 <= k < |rep.rows| ==>
                   var sid := rep.metadataCalls[k];
                   rep.rows[k] == Row(rep.window.end, getService(sid).name, sid,
                                      getService(sid).serviceType,
                                      BandwidthOf(es, sid), RequestsOf(es, sid))
  {
    var window := ResolveWindow(today);
    if window.None? {
      return DateOverflow;
    }
    var w := window.value;
    var data := fetchUsage(w);
    var services, finalResults, resultOrder, total, calls := Aggregate(data, getService);
    ghost var es := Flatten(data);
    if es != [] {
      assert es[0].sid in ServiceIds(es);
    }
    var rows := BuildRows(w.end, resultOrder, services, finalResults, total);
    if rows.None? {
      return DivisionByZero;
    }
    r := Prepared(Report(w, rows.value, total, calls));
  }
}
