/** The usage report the vendor's `usage_by_service` endpoint returns under its
    `data` field, and what the per-service totals of that report are, defined
    entry by entry. A JSON object (a Python dict) is modelled as the sequence of
    its entries in iteration order. */
module UsageReport {

  type ServiceId = string

  /** The figures for one service in one region. */
  datatype Usage = Usage(bandwidth: int, requests: int, computeRequests: int)

  datatype Entry = Entry(sid: ServiceId, usage: Usage)

  /** One region of the report: its name and the services listed under it. */
  datatype RegionUsage = RegionUsage(region: string, services: seq<Entry>)

  /** `response['data']`: the regions in iteration order. */
  type UsageData = seq<RegionUsage>

  predicate Distinct<T(==)>(s: seq<T>) {
    forall i, j :: 0 <= i < j < |s| ==> s[i] != s[j]
  }

  /** All (service, usage) entries of the report, region after region, in the
      order the job's nested loops visit them. */
  function Flatten(data: UsageData): seq<Entry> {
    if data == [] then [] else Flatten(data[..|data| - 1]) + data[|data| - 1].services
  }

  /** The service ids that occur in the entries. */
  function ServiceIds(es: seq<Entry>): (ids: set<ServiceId>)
    ensures forall s :: s in ids <==> exists k :: 0 <= k < |es| && es[k].sid == s
  {
    set k | 0 <= k < |es| :: es[k].sid
  }

  /** The bandwidth reported for service `s`, summed over the entries. */
  function BandwidthOf(es: seq<Entry>, s: ServiceId): int {
    if es == [] then 0
    else
      var last := es[|es| - 1];
      BandwidthOf(es[..|es| - 1], s) + (if last.sid == s then last.usage.bandwidth else 0)
  }

  /** The requests reported for service `s`, edge and compute requests together. */
  function RequestsOf(es: seq<Entry>, s: ServiceId): int {
    if es == [] then 0
    else
      var last := es[|es| - 1];
      RequestsOf(es[..|es| - 1], s)
        + (if last.sid == s then last.usage.requests + last.usage.computeRequests else 0)
  }

  /** The bandwidth of all entries, whatever their service. */
  function TotalBandwidth(es: seq<Entry>): int {
    if es == [] then 0 else TotalBandwidth(es[..|es| - 1]) + es[|es| - 1].usage.bandwidth
  }

  /** The distinct service ids of the entries, in the order they first occur. */
  function FirstSeen(es: seq<Entry>): (ids: seq<ServiceId>)
    ensures Distinct(ids)
    ensures forall s :: s in ids <==> s in ServiceIds(es)
  {
    if es == [] then []
    else
      var prefix := FirstSeen(es[..|es| - 1]);
      var s := es[|es| - 1].sid;
      if s in prefix then prefix else prefix + [s]
  }

  /** The bandwidth of each service in `ids`, summed. */
  function SumServiceBandwidth(ids: seq<ServiceId>, es: seq<Entry>): int {
    if ids == [] then 0
    else SumServiceBandwidth(ids[..|ids| - 1], es) + BandwidthOf(es, ids[|ids| - 1])
  }

  // ---------------------------------------------------------------------------
  // Sums split along the report.

  lemma {:induction false} FlattenAppend(d1: UsageData, d2: UsageData)
    ensures Flatten(d1 + d2) == Flatten(d1) + Flatten(d2)
    decreases |d2|
  {
    if d2 != [] {
      var d2' := d2[..|d2| - 1];
      assert (d1 + d2)[..|d1 + d2| - 1] == d1 + d2';
      FlattenAppend(d1, d2');
    } else {
      assert d1 + d2 == d1;
    }
  }

  lemma {:induction false} BandwidthOfAppend(a: seq<Entry>, b: seq<Entry>, s: ServiceId)
    ensures BandwidthOf(a + b, s) == BandwidthOf(a, s) + BandwidthOf(b, s)
    decreases |b|
  {
    if b == [] {
      assert a + b == a;
    } else {
      assert (a + b)[..|a + b| - 1] == a + b[..|b| - 1];
      BandwidthOfAppend(a, b[..|b| - 1], s);
    }
  }

  lemma {:induction false} RequestsOfAppend(a: seq<Entry>, b: seq<Entry>, s: ServiceId)
    ensures RequestsOf(a + b, s) == RequestsOf(a, s) + RequestsOf(b, s)
    decreases |b|
  {
    if b == [] {
      assert a + b == a;
    } else {
      assert (a + b)[..|a + b| - 1] == a + b[..|b| - 1];
      RequestsOfAppend(a, b[..|b| - 1], s);
    }
  }

  /** A service that does not occur contributes nothing. */
  lemma {:induction false} AbsentServiceIsZero(es: seq<Entry>, s: ServiceId)
    requires s !in ServiceIds(es)
    ensures BandwidthOf(es, s) == 0 && RequestsOf(es, s) == 0
    decreases |es|
  {
    if es != [] {
      var p := es[..|es| - 1];
      assert s !in ServiceIds(p) by {
        forall k | 0 <= k < |p| ensures p[k].sid != s {
          assert p[k] == es[k];
        }
      }
      AbsentServiceIsZero(p, s);
    }
  }

  /** Per region: a service's bandwidth in the whole report. */
  function RegionBandwidthSum(data: UsageData, s: ServiceId): int {
    if data == [] then 0
    else RegionBandwidthSum(data[..|data| - 1], s) + BandwidthOf(data[|data| - 1].services, s)
  }

  /** Per region: a service's requests in the whole report. */
  function RegionRequestsSum(data: UsageData, s: ServiceId): int {
    if data == [] then 0
    else RegionRequestsSum(data[..|data| - 1], s) + RequestsOf(data[|data| - 1].services, s)
  }

  /** A service's totals over the flattened report are the sums, region by
      region, of what each region lists for it; a region that does not list the
      service adds nothing. */
  lemma {:induction false} TotalsAreRegionSums(data: UsageData, s: ServiceId)
    ensures BandwidthOf(Flatten(data), s) == RegionBandwidthSum(data, s)
    ensures RequestsOf(Flatten(data), s) == RegionRequestsSum(data, s)
    ensures forall r :: 0 <= r < |data| && s !in ServiceIds(data[r].services) ==>
              BandwidthOf(data[r].services, s) == 0 && RequestsOf(data[r].services, s) == 0
    decreases |data|
  {
    if data != [] {
      var p := data[..|data| - 1];
      TotalsAreRegionSums(p, s);
      BandwidthOfAppend(Flatten(p), data[|data| - 1].services, s);
      RequestsOfAppend(Flatten(p), data[|data| - 1].services, s);
    }
    forall r | 0 <= r < |data| && s !in ServiceIds(data[r].services)
      ensures BandwidthOf(data[r].services, s) == 0 && RequestsOf(data[r].services, s) == 0
    {
      AbsentServiceIsZero(data[r].services, s);
    }
  }

  // ---------------------------------------------------------------------------
  // The order of the entries does not matter.

  /** The sum of `f` over the entries. */
  function SumOver(es: seq<Entry>, f: Entry -> int): int {
    if es == [] then 0 else SumOver(es[..|es| - 1], f) + f(es[|es| - 1])
  }

  /** What one entry adds to service `s`'s bandwidth, to its requests, and to
      the bandwidth of all services. */
  function BandwidthShare(s: ServiceId): Entry -> int {
    (e: Entry) => if e.sid == s then e.usage.bandwidth else 0
  }

  function RequestsShare(s: ServiceId): Entry -> int {
    (e: Entry) => if e.sid == s then e.usage.requests + e.usage.computeRequests else 0
  }

  function EntryBandwidth(e: Entry): int {
    e.usage.bandwidth
  }

  lemma {:induction false} SumOverAppend(a: seq<Entry>, b: seq<Entry>, f: Entry -> int)
    ensures SumOver(a + b, f) == SumOver(a, f) + SumOver(b, f)
    decreases |b|
  {
    if b == [] {
      assert a + b == a;
    } else {
      assert (a + b)[..|a + b| - 1] == a + b[..|b| - 1];
      SumOverAppend(a, b[..|b| - 1], f);
    }
  }

  /** A sum over the entries is the same for any arrangement of them. */
  lemma {:induction false} SumOverPermutation(a: seq<Entry>, b: seq<Entry>, f: Entry -> int)
    requires multiset(a) == multiset(b)
    ensures SumOver(a, f) == SumOver(b, f)
    decreases |a|
  {
    if a == [] {
      assert |b| == |multiset(b)| == 0;
    } else {
      var a' := a[..|a| - 1];
      var x := a[|a| - 1];
      assert a == a' + [x];
      assert x in multiset(b);
      var k :| 0 <= k < |b| && b[k] == x;
      var left, right := b[..k], b[k + 1..];
      assert b == left + [x] + right;
      RemoveOne(a', x, left, right);
      SumOverPermutation(a', left + right, f);
      SumOverSplit(left, x, right, f);
    }
  }

  lemma RemoveOne(a: seq<Entry>, x: Entry, left: seq<Entry>, right: seq<Entry>)
    requires multiset(a + [x]) == multiset(left + [x] + right)
    ensures multiset(a) == multiset(left + right)
  {
    calc {
      multiset(a) + multiset{x};
      multiset(a + [x]);
      multiset(left + [x] + right);
      multiset(left) + multiset{x} + multiset(right);
      multiset(left + right) + multiset{x};
    }
    assert multiset(a) == multiset(a) + multiset{x} - multiset{x};
    assert multiset(left + right) == multiset(left + right) + multiset{x} - multiset{x};
  }

  lemma SumOverSplit(left: seq<Entry>, x: Entry, right: seq<Entry>, f: Entry -> int)
    ensures SumOver(left + [x] + right, f) == SumOver(left + right, f) + f(x)
  {
    SumOverAppend(left, right, f);
    SumOverAppend(left + [x], right, f);
    SumOverAppend(left, [x], f);
    assert [x][..0] == [];
  }

  lemma {:induction false} BandwidthOfIsSum(es: seq<Entry>, s: ServiceId)
    ensures BandwidthOf(es, s) == SumOver(es, BandwidthShare(s))
    decreases |es|
  {
    if es != [] {
      BandwidthOfIsSum(es[..|es| - 1], s);
    }
  }

  lemma {:induction false} RequestsOfIsSum(es: seq<Entry>, s: ServiceId)
    ensures RequestsOf(es, s) == SumOver(es, RequestsShare(s))
    decreases |es|
  {
    if es != [] {
      RequestsOfIsSum(es[..|es| - 1], s);
    }
  }

  lemma {:induction false} TotalBandwidthIsSum(es: seq<Entry>)
    ensures TotalBandwidth(es) == SumOver(es, EntryBandwidth)
    decreases |es|
  {
    if es != [] {
      TotalBandwidthIsSum(es[..|es| - 1]);
    }
  }

  /** Two arrangements of the same entries list the same services and give
      every service the same bandwidth and requests, and the same total
      bandwidth. */
  lemma EntryOrderIrrelevant(es: seq<Entry>, es': seq<Entry>, s: ServiceId)
    requires multiset(es') == multiset(es)
    ensures ServiceIds(es') == ServiceIds(es)
    ensures BandwidthOf(es', s) == BandwidthOf(es, s)
    ensures RequestsOf(es', s) == RequestsOf(es, s)
    ensures TotalBandwidth(es') == TotalBandwidth(es)
  {
    SameEntriesSameIds(es, es');
    SameEntriesSameIds(es', es);
    BandwidthOfIsSum(es, s);
    BandwidthOfIsSum(es', s);
    SumOverPermutation(es, es', BandwidthShare(s));
    RequestsOfIsSum(es, s);
    RequestsOfIsSum(es', s);
    SumOverPermutation(es, es', RequestsShare(s));
    TotalBandwidthIsSum(es);
    TotalBandwidthIsSum(es');
    SumOverPermutation(es, es', EntryBandwidth);
  }

  /** Two reports holding the same entries, in whatever order of regions and of
      services within regions, list the same services and give every service the
      same bandwidth and requests, and the same total bandwidth. */
  lemma ReportOrderIrrelevant(data: UsageData, data': UsageData, s: ServiceId)
    requires multiset(Flatten(data')) == multiset(Flatten(data))
    ensures ServiceIds(Flatten(data')) == ServiceIds(Flatten(data))
    ensures BandwidthOf(Flatten(data'), s) == BandwidthOf(Flatten(data), s)
    ensures RequestsOf(Flatten(data'), s) == RequestsOf(Flatten(data), s)
    ensures TotalBandwidth(Flatten(data')) == TotalBandwidth(Flatten(data))
  {
    EntryOrderIrrelevant(Flatten(data), Flatten(data'), s);
  }

  lemma SameEntriesSameIds(es: seq<Entry>, es': seq<Entry>)
    requires multiset(es) == multiset(es')
    ensures ServiceIds(es) <= ServiceIds(es')
  {
    forall s | s in ServiceIds(es) ensures s in ServiceIds(es') {
      var k :| 0 <= k < |es| && es[k].sid == s;
      assert es[k] in multiset(es');
      var k' :| 0 <= k' < |es'| && es'[k'] == es[k];
    }
  }

  /** Swapping two whole groups of regions is one such rearrangement. */
  lemma RegionOrderIrrelevant(d1: UsageData, d2: UsageData, s: ServiceId)
    ensures BandwidthOf(Flatten(d1 + d2), s) == BandwidthOf(Flatten(d2 + d1), s)
    ensures RequestsOf(Flatten(d1 + d2), s) == RequestsOf(Flatten(d2 + d1), s)
  {
    FlattenAppend(d1, d2);
    FlattenAppend(d2, d1);
    ReportOrderIrrelevant(d1 + d2, d2 + d1, s);
  }

  /** A service is in the report exactly when some region lists it. */
  lemma {:induction false} ListedUnderSomeRegion(data: UsageData, s: ServiceId)
    ensures s in ServiceIds(Flatten(data)) <==>
              exists r :: 0 <= r < |data| && s in ServiceIds(data[r].services)
    decreases |data|
  {
    if data != [] {
      var p := data[..|data| - 1];
      var last := data[|data| - 1].services;
      ListedUnderSomeRegion(p, s);
      assert ServiceIds(Flatten(data)) == ServiceIds(Flatten(p)) + ServiceIds(last) by {
        ServiceIdsConcat(Flatten(p), last);
      }
      if exists r :: 0 <= r < |p| && s in ServiceIds(p[r].services) {
        var r :| 0 <= r < |p| && s in ServiceIds(p[r].services);
        assert data[r] == p[r];
      }
      if exists r :: 0 <= r < |data| && s in ServiceIds(data[r].services) {
        var r :| 0 <= r < |data| && s in ServiceIds(data[r].services);
        if r < |p| {
          assert p[r] == data[r];
        }
      }
    }
  }

  lemma ServiceIdsConcat(a: seq<Entry>, b: seq<Entry>)
    ensures ServiceIds(a + b) == ServiceIds(a) + ServiceIds(b)
  {
    forall s | s in ServiceIds(a + b) ensures s in ServiceIds(a) + ServiceIds(b) {
      var k :| 0 <= k < |a + b| && (a + b)[k].sid == s;
      if k < |a| {
        assert a[k] == (a + b)[k];
      } else {
        assert b[k - |a|] == (a + b)[k];
      }
    }
    forall s | s in ServiceIds(a) + ServiceIds(b) ensures s in ServiceIds(a + b) {
      if s in ServiceIds(a) {
        var k :| 0 <= k < |a| && a[k].sid == s;
        assert (a + b)[k] == a[k];
      } else {
        var k :| 0 <= k < |b| && b[k].sid == s;
        assert (a + b)[|a| + k] == b[k];
      }
    }
  }

  // ---------------------------------------------------------------------------
  // The per-service bandwidths add up to the total bandwidth.

  /** Appending one entry raises the sum over distinct ids by that entry's
      bandwidth if its service is among them, and leaves it alone otherwise. */
  lemma {:induction false} SumServiceBandwidthStep(ids: seq<ServiceId>, es: seq<Entry>, e: Entry)
    requires Distinct(ids)
    ensures SumServiceBandwidth(ids, es + [e])
         == SumServiceBandwidth(ids, es) + (if e.sid in ids then e.usage.bandwidth else 0)
    decreases |ids|
  {
    assert (es + [e])[..|es|] == es;
    if ids != [] {
      var p := ids[..|ids| - 1];
      assert Distinct(p);
      assert e.sid in ids <==> e.sid in p || e.sid == ids[|ids| - 1];
      assert ids[|ids| - 1] !in p;
      SumServiceBandwidthStep(p, es, e);
    }
  }

  lemma {:induction false} SumServiceBandwidthSnoc(ids: seq<ServiceId>, s: ServiceId, es: seq<Entry>)
    ensures SumServiceBandwidth(ids + [s], es) == SumServiceBandwidth(ids, es) + BandwidthOf(es, s)
  {
    assert (ids + [s])[..|ids|] == ids;
  }

  /** Summing each distinct service's bandwidth gives the bandwidth of the whole
      report: every entry is counted once, under its own service. */
  lemma {:induction false} ServiceBandwidthsPartitionTotal(es: seq<Entry>)
    ensures SumServiceBandwidth(FirstSeen(es), es) == TotalBandwidth(es)
    decreases |es|
  {
    if es != [] {
      var p := es[..|es| - 1];
      var e := es[|es| - 1];
      assert es == p + [e];
      ServiceBandwidthsPartitionTotal(p);
      SumServiceBandwidthStep(FirstSeen(p), p, e);
      if e.sid !in FirstSeen(p) {
        SumServiceBandwidthSnoc(FirstSeen(p), e.sid, es);
        AbsentServiceIsZero(p, e.sid);
      }
    }
  }

  // ---------------------------------------------------------------------------
  // A worked example: one service listed under two regions.

  lemma ExampleTwoRegions()
    ensures
      var data := [RegionUsage("region1", [Entry("svcA", Usage(100, 10, 5))]),
                   RegionUsage("region2", [Entry("svcA", Usage(50, 2, 0))])];
      && BandwidthOf(Flatten(data), "svcA") == 150
      && RequestsOf(Flatten(data), "svcA") == 17
      && TotalBandwidth(Flatten(data)) == 150
      && FirstSeen(Flatten(data)) == ["svcA"]
  {
    var data := [RegionUsage("region1", [Entry("svcA", Usage(100, 10, 5))]),
                 RegionUsage("region2", [Entry("svcA", Usage(50, 2, 0))])];
    assert data[..1] == [data[0]];
    assert data[..1][..0] == [];
    assert Flatten(data[..1]) == data[0].services;
    var es := Flatten(data);
    assert es == [Entry("svcA", Usage(100, 10, 5)), Entry("svcA", Usage(50, 2, 0))];
    assert es[..1] == [es[0]];
    assert es[..1][..0] == [];
  }
}
