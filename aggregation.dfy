/** The job's aggregation loop and the rows it prepares for the warehouse:
    per-service running totals, the global `total_bytes_delivered`, and the
    `services` memo that fetches each service's metadata once. */
module Aggregation {
  import opened Calendar
  import opened UsageReport

  /** The part of `get_service`'s answer that the rows use. */
  datatype ServiceInfo = ServiceInfo(name: string, serviceType: string)

  /** One `final_results[sid]` entry. All three keys start at 0; the loop adds
      to `bandwidth` and `requests` and never to `compute_requests`. */
  datatype Totals = Totals(bandwidth: int, requests: int, computeRequests: int)

  /** One row for the warehouse table, without its floating-point
      `percentage_of_total` column. */
  datatype Row = Row(
    date: Date,
    serviceName: string,
    serviceId: ServiceId,
    serviceType: string,
    bandwidthBytes: int,
    requests: int)

  /** The bandwidth totals of the services in `ids`, summed. */
  function SumBandwidth(ids: seq<ServiceId>, totals: map<ServiceId, Totals>): int {
    if ids == [] then 0
    else
      var s := ids[|ids| - 1];
      SumBandwidth(ids[..|ids| - 1], totals) + (if s in totals then totals[s].bandwidth else 0)
  }

  /** The `bandwidth_bytes` of the rows, summed. */
  function RowsBandwidth(rows: seq<Row>): int {
    if rows == [] then 0 else RowsBandwidth(rows[..|rows| - 1]) + rows[|rows| - 1].bandwidthBytes
  }

  /** Summing totals that hold each service's bandwidth is summing the
      bandwidths themselves. */
  lemma {:induction false} SumBandwidthOfTotals(ids: seq<ServiceId>, totals: map<ServiceId, Totals>, es: seq<Entry>)
    requires forall s :: s in ids ==> s in totals && totals[s].bandwidth == BandwidthOf(es, s)
    ensures SumBandwidth(ids, totals) == SumServiceBandwidth(ids, es)
    decreases |ids|
  {
    if ids != [] {
      var p := ids[..|ids| - 1];
      assert forall s :: s in p ==> s in ids;
      SumBandwidthOfTotals(p, totals, es);
    }
  }

  /** The `services` memo after the loop has visited the entries `es`: an id's
      metadata is looked up the first time the id is met and kept afterwards. */
  function MemoOf(es: seq<Entry>, getService: ServiceId -> ServiceInfo): map<ServiceId, ServiceInfo> {
    if es == [] then map[]
    else
      var memo := MemoOf(es[..|es| - 1], getService);
      var sid := es[|es| - 1].sid;
      if sid in memo then memo else memo[sid := getService(sid)]
  }

  /** The `final_results` table after the loop has visited the entries `es`: an
      id's totals start at zero the first time the id is met, then every entry
      adds its bandwidth, and its edge plus compute requests, to its own id. */
  function TotalsOf(es: seq<Entry>): map<ServiceId, Totals> {
    if es == [] then map[]
    else
      var table := TotalsOf(es[..|es| - 1]);
      var e := es[|es| - 1];
      var t := if e.sid in table then table[e.sid] else Totals(0, 0, 0);
      table[e.sid := Totals(t.bandwidth + e.usage.bandwidth,
                            t.requests + e.usage.requests + e.usage.computeRequests,
                            t.computeRequests)]
  }

  lemma ServiceIdsAppend(es: seq<Entry>, e: Entry)
    ensures ServiceIds(es + [e]) == ServiceIds(es) + {e.sid}
  {
    var next := es + [e];
    assert next[|es|].sid == e.sid;
    forall s | s in ServiceIds(next) ensures s in ServiceIds(es) + {e.sid} {
      var k :| 0 <= k < |next| && next[k].sid == s;
      if k < |es| {
        assert es[k] == next[k];
      }
    }
    forall s | s in ServiceIds(es) ensures s in ServiceIds(next) {
      var k :| 0 <= k < |es| && es[k].sid == s;
      assert next[k] == es[k];
    }
  }

  /** One step of each fold: its value after `seen + [e]` from its value after `seen`. */
  lemma MemoOfAppend(seen: seq<Entry>, e: Entry, getService: ServiceId -> ServiceInfo)
    ensures MemoOf(seen + [e], getService)
            == if e.sid in MemoOf(seen, getService) then MemoOf(seen, getService)
               else MemoOf(seen, getService)[e.sid := getService(e.sid)]
  {
    assert (seen + [e])[..|seen|] == seen;
  }

  lemma TotalsOfAppend(seen: seq<Entry>, e: Entry)
    ensures
      var table := TotalsOf(seen);
      var t := if e.sid in table then table[e.sid] else Totals(0, 0, 0);
      TotalsOf(seen + [e])
        == table[e.sid := Totals(t.bandwidth + e.usage.bandwidth,
                                 t.requests + e.usage.requests + e.usage.computeRequests,
                                 t.computeRequests)]
  {
    assert (seen + [e])[..|seen|] == seen;
  }

  lemma TotalBandwidthAppend(seen: seq<Entry>, e: Entry)
    ensures TotalBandwidth(seen + [e]) == TotalBandwidth(seen) + e.usage.bandwidth
  {
    assert (seen + [e])[..|seen|] == seen;
  }

  lemma FirstSeenAppend(seen: seq<Entry>, e: Entry)
    ensures FirstSeen(seen + [e])
            == if e.sid in FirstSeen(seen) then FirstSeen(seen) else FirstSeen(seen) + [e.sid]
  {
    assert (seen + [e])[..|seen|] == seen;
  }

  lemma {:induction false} MemoKeys(es: seq<Entry>, getService: ServiceId -> ServiceInfo)
    ensures MemoOf(es, getService).Keys == ServiceIds(es)
    decreases |es|
  {
    if es != [] {
      var p := es[..|es| - 1];
      assert es == p + [es[|es| - 1]];
      MemoKeys(p, getService);
      ServiceIdsAppend(p, es[|es| - 1]);
    }
  }

  lemma {:induction false} TotalsKeys(es: seq<Entry>)
    ensures TotalsOf(es).Keys == ServiceIds(es)
    decreases |es|
  {
    if es != [] {
      var p := es[..|es| - 1];
      assert es == p + [es[|es| - 1]];
      TotalsKeys(p);
      ServiceIdsAppend(p, es[|es| - 1]);
    }
  }

  /** The memo has an entry for exactly the ids met, and it holds each id's
      metadata. */
  lemma {:induction false} MemoHoldsMetadataOfEachService(es: seq<Entry>, getService: ServiceId -> ServiceInfo)
    ensures MemoOf(es, getService).Keys == ServiceIds(es)
    ensures forall s :: s in MemoOf(es, getService) ==> MemoOf(es, getService)[s] == getService(s)
    decreases |es|
  {
    MemoKeys(es, getService);
    if es != [] {
      MemoHoldsMetadataOfEachService(es[..|es| - 1], getService);
    }
  }

  /** The table has an entry for exactly the ids met, and each entry holds that
      service's bandwidth and requests summed over all its entries, with
      `compute_requests` left at zero. */
  lemma {:induction false} TotalsAreExactSums(es: seq<Entry>)
    ensures TotalsOf(es).Keys == ServiceIds(es)
    ensures forall s :: s in TotalsOf(es) ==>
              TotalsOf(es)[s] == Totals(BandwidthOf(es, s), RequestsOf(es, s), 0)
    decreases |es|
  {
    TotalsKeys(es);
    if es != [] {
      var p := es[..|es| - 1];
      var e := es[|es| - 1];
      TotalsAreExactSums(p);
      if e.sid !in TotalsOf(p) {
        AbsentServiceIsZero(p, e.sid);
      }
    }
  }

  /** The memo and the table the loop ends with do not depend on the order of
      the entries; only the order of their keys (`FirstSeen`) does. */
  lemma TablesIgnoreEntryOrder(es: seq<Entry>, es': seq<Entry>, getService: ServiceId -> ServiceInfo)
    requires multiset(es') == multiset(es)
    ensures MemoOf(es', getService) == MemoOf(es, getService)
    ensures TotalsOf(es') == TotalsOf(es)
  {
    MemoHoldsMetadataOfEachService(es, getService);
    MemoHoldsMetadataOfEachService(es', getService);
    TotalsAreExactSums(es);
    TotalsAreExactSums(es');
    forall s ensures ServiceIds(es') == ServiceIds(es)
                     && BandwidthOf(es', s) == BandwidthOf(es, s)
                     && RequestsOf(es', s) == RequestsOf(es, s) {
      EntryOrderIrrelevant(es, es', s);
    }
  }

  /** The loop's state after it has visited the entries `seen`. */
  ghost predicate Accumulated(
    seen: seq<Entry>,
    getService: ServiceId -> ServiceInfo,
    services: map<ServiceId, ServiceInfo>,
    finalResults: map<ServiceId, Totals>,
    resultOrder: seq<ServiceId>,
    totalBytesDelivered: int,
    calls: seq<ServiceId>)
  {
    && services == MemoOf(seen, getService)
    && finalResults == TotalsOf(seen)
    && totalBytesDelivered == TotalBandwidth(seen)
    && calls == FirstSeen(seen)
    && resultOrder == calls
  }

  /** The memo, the table and the call order know the same ids. */
  lemma KeysAgree(seen: seq<Entry>, getService: ServiceId -> ServiceInfo, s: ServiceId)
    ensures s in MemoOf(seen, getService) <==> s in TotalsOf(seen)
    ensures s in MemoOf(seen, getService) <==> s in FirstSeen(seen)
  {
    MemoKeys(seen, getService);
    TotalsKeys(seen);
  }

  /** Visiting one more entry moves the loop's state from `seen` to `seen + [e]`:
      the memo gains the entry's service if it is new, the service's totals
      (created at zero if new) gain the entry's figures, the accumulator gains
      its bandwidth, and a new service is appended to the call order. */
  lemma StepKeepsAccumulated(
    seen: seq<Entry>, e: Entry, getService: ServiceId -> ServiceInfo,
    services: map<ServiceId, ServiceInfo>, finalResults: map<ServiceId, Totals>,
    resultOrder: seq<ServiceId>, totalBytesDelivered: int, calls: seq<ServiceId>,
    services': map<ServiceId, ServiceInfo>, finalResults': map<ServiceId, Totals>,
    resultOrder': seq<ServiceId>, totalBytesDelivered': int, calls': seq<ServiceId>)
    requires Accumulated(seen, getService, services, finalResults, resultOrder, totalBytesDelivered, calls)
    requires services' == if e.sid in services then services else services[e.sid := getService(e.sid)]
    requires
      var t := if e.sid in finalResults then finalResults[e.sid] else Totals(0, 0, 0);
      finalResults' == finalResults[e.sid := Totals(t.bandwidth + e.usage.bandwidth,
                                                    t.requests + e.usage.requests + e.usage.computeRequests,
                                                    t.computeRequests)]
    requires totalBytesDelivered' == totalBytesDelivered + e.usage.bandwidth
    requires calls' == (if e.sid in services then calls else calls + [e.sid]) && resultOrder' == calls'
    ensures Accumulated(seen + [e], getService, services', finalResults', resultOrder', totalBytesDelivered', calls')
  {
    KeysAgree(seen, getService, e.sid);
    MemoOfAppend(seen, e, getService);
    TotalsOfAppend(seen, e);
    TotalBandwidthAppend(seen, e);
    FirstSeenAppend(seen, e);
  }

  /** The body of the inner loop, for one entry of one region: fetch the
      service's metadata unless the memo has it, create its totals at zero
      unless they exist, then add the entry's bandwidth to the service and to
      the global accumulator, and its edge plus compute requests to the service. */
  method Visit(
    e: Entry,
    getService: ServiceId -> ServiceInfo,
    services: map<ServiceId, ServiceInfo>,
    finalResults: map<ServiceId, Totals>,
    resultOrder: seq<ServiceId>,
    totalBytesDelivered: int,
    calls: seq<ServiceId>,
    ghost seen: seq<Entry>)
    returns (services': map<ServiceId, ServiceInfo>, finalResults': map<ServiceId, Totals>,
             resultOrder': seq<ServiceId>, totalBytesDelivered': int, calls': seq<ServiceId>)
    requires Accumulated(seen, getService, services, finalResults, resultOrder, totalBytesDelivered, calls)
    ensures Accumulated(seen + [e], getService, services', finalResults', resultOrder', totalBytesDelivered', calls')
    ensures calls' == if e.sid in services then calls else calls + [e.sid]
  {
    var sid := e.sid;
    KeysAgree(seen, getService, sid);
    ghost var t0 := if sid in finalResults then finalResults[sid] else Totals(0, 0, 0);
    services', finalResults', resultOrder', totalBytesDelivered', calls' :=
      services, finalResults, resultOrder, totalBytesDelivered, calls;
    if sid !in services' {
      services' := services'[sid := getService(sid)];
      calls' := calls' + [sid];
    }
    if sid !in finalResults' {
      finalResults' := finalResults'[sid := Totals(0, 0, 0)];
      resultOrder' := resultOrder' + [sid];
    }
    assert finalResults' == finalResults[sid := t0];
    var t := finalResults'[sid];
    finalResults' := finalResults'[sid := t.(bandwidth := t.bandwidth + e.usage.bandwidth)];
    totalBytesDelivered' := totalBytesDelivered' + e.usage.bandwidth;
    t := finalResults'[sid];
    finalResults' := finalResults'[sid := t.(requests := t.requests + e.usage.requests + e.usage.computeRequests)];
    StepKeepsAccumulated(seen, e, getService, services, finalResults, resultOrder, totalBytesDelivered, calls,
                         services', finalResults', resultOrder', totalBytesDelivered', calls');
  }

  /** The nested loops over regions and services. `getService` stands for the
      metadata request; `calls` lists the ids it was asked for, in order, and
      `resultOrder` is the insertion order of `finalResults`' keys. */
  method Aggregate(data: UsageData, getService: ServiceId -> ServiceInfo)
    returns (services: map<ServiceId, ServiceInfo>, finalResults: map<ServiceId, Totals>,
             resultOrder: seq<ServiceId>, totalBytesDelivered: int, calls: seq<ServiceId>)
    ensures Distinct(calls) && forall s :: s in calls <==> s in ServiceIds(Flatten(data))
    ensures calls == FirstSeen(Flatten(data)) && resultOrder == calls
    ensures services.Keys == finalResults.Keys == ServiceIds(Flatten(data))
    ensures forall s :: s in services ==> services[s] == getService(s)
    ensures forall s :: s in finalResults ==>
              && finalResults[s].bandwidth == BandwidthOf(Flatten(data), s)
              && finalResults[s].requests == RequestsOf(Flatten(data), s)
              && finalResults[s].computeRequests == 0
    ensures totalBytesDelivered == TotalBandwidth(Flatten(data))
    ensures SumBandwidth(resultOrder, finalResults) == totalBytesDelivered
  {
    services, finalResults, resultOrder, totalBytesDelivered, calls := map[], map[], [], 0, [];
    ghost var seen: seq<Entry> := [];
    var i := 0;
    while i < |data|
      invariant 0 <= i <= |data|
      invariant seen == Flatten(data[..i])
      invariant Accumulated(seen, getService, services, finalResults, resultOrder, totalBytesDelivered, calls)
    {
      var region := data[i].services;
      var j := 0;
      while j < |region|
        invariant 0 <= j <= |region|
        invariant seen == Flatten(data[..i]) + region[..j]
        invariant Accumulated(seen, getService, services, finalResults, resultOrder, totalBytesDelivered, calls)
      {
        services, finalResults, resultOrder, totalBytesDelivered, calls :=
          Visit(region[j], getService, services, finalResults, resultOrder, totalBytesDelivered, calls, seen);
        Extend(Flatten(data[..i]), region, j);
        seen := seen + [region[j]];
        j := j + 1;
      }
      Extend(Flatten(data[..i]), region, j);
      assert data[..i + 1][..i] == data[..i];
      i := i + 1;
    }
    assert data[..i] == data;
    MemoHoldsMetadataOfEachService(seen, getService);
    TotalsAreExactSums(seen);
    SumBandwidthOfTotals(resultOrder, finalResults, seen);
    ServiceBandwidthsPartitionTotal(seen);
  }

  lemma Extend(done: seq<Entry>, region: seq<Entry>, j: int)
    requires 0 <= j <= |region|
    ensures j < |region| ==> done + region[..j + 1] == (done + region[..j]) + [region[j]]
    ensures j == |region| ==> done + region[..j] == done + region
  {
    if j < |region| {
      assert region[..j + 1] == region[..j] + [region[j]];
    }
  }

  /** The `for sid in final_results` loop: one row per service, in key order,
      dated with the window's last day and carrying the service's metadata and
      totals unchanged. The rows' bandwidths add up to the summed totals. Each
      pass divides the service's bandwidth by `total_bytes_delivered` for its
      percentage, so a zero total fails on the first pass (`None`, Python's
      ZeroDivisionError) and an empty table builds no rows and never divides. */
  method BuildRows(
    endDate: Date,
    resultOrder: seq<ServiceId>,
    services: map<ServiceId, ServiceInfo>,
    finalResults: map<ServiceId, Totals>,
    totalBytesDelivered: int)
    returns (r: Option<seq<Row>>)
    requires forall s :: s in resultOrder ==> s in services && s in finalResults
    ensures r.None? <==> |resultOrder| > 0 && totalBytesDelivered == 0
    ensures r.Some? ==> |r.value| == |resultOrder|
    ensures r.Some? ==>
              forall k :: 0 <= k < |r.value| ==>
                && r.value[k].date == endDate
                && r.value[k].serviceId == resultOrder[k]
                && r.value[k].serviceName == services[resultOrder[k]].name
                && r.value[k].serviceType == services[resultOrder[k]].serviceType
                && r.value[k].bandwidthBytes == finalResults[resultOrder[k]].bandwidth
                && r.value[k].requests == finalResults[resultOrder[k]].requests
    ensures r.Some? ==> RowsBandwidth(r.value) == SumBandwidth(resultOrder, finalResults)
  {
    var rows: seq<Row> := [];
    var k := 0;
    while k < |resultOrder|
      invariant 0 <= k <= |resultOrder|
      invariant k > 0 ==> totalBytesDelivered != 0
      invariant |rows| == k
      invariant forall n :: 0 <= n < k ==>
                  && rows[n].date == endDate
                  && rows[n].serviceId == resultOrder[n]
                  && rows[n].serviceName == services[resultOrder[n]].name
                  && rows[n].serviceType == services[resultOrder[n]].serviceType
                  && rows[n].bandwidthBytes == finalResults[resultOrder[n]].bandwidth
                  && rows[n].requests == finalResults[resultOrder[n]].requests
      invariant RowsBandwidth(rows) == SumBandwidth(resultOrder[..k], finalResults)
    {
      var sid := resultOrder[k];
      if totalBytesDelivered == 0 {
        return None;
      }
      var row := Row(endDate, services[sid].name, sid, services[sid].serviceType,
                     finalResults[sid].bandwidth, finalResults[sid].requests);
      assert (rows + [row])[..|rows|] == rows;
      assert resultOrder[..k + 1][..k] == resultOrder[..k];
      rows := rows + [row];
      k := k + 1;
    }
    assert resultOrder[..k] == resultOrder;
    r := Some(rows);
  }
}
