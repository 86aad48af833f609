/** The batch a report sends: metric names, and what applying it to a store does. */
module Report {
  import opened Wrappers
  import opened Metrics

  const GAUGE_NAMES: seq<string> := [
    "Alloc", "BuckHashSys", "Frees", "GCCPUFraction", "GCSys", "HeapAlloc", "HeapIdle", "HeapInuse", "HeapObjects",
    "HeapReleased", "HeapSys", "LastGC", "Lookups", "MCacheInuse", "MCacheSys", "MSpanInuse", "MSpanSys", "Mallocs",
    "NextGC", "NumForcedGC", "NumGC", "OtherSys", "PauseTotalNs", "StackInuse", "StackSys", "Sys", "TotalAlloc"]

  const TOTAL_MEMORY := "TotalMemory"
  const FREE_MEMORY := "FreeMemory"
  const RANDOM_VALUE := "RandomValue"
  const CPU_PREFIX := "CPUutilization"

  function Digit(d: nat): char
    requires d < 10
  {
    '0' + d as char
  }

  function Decimal(n: nat): string {
    if n < 10 then [Digit(n)] else Decimal(n / 10) + [Digit(n % 10)]
  }

  lemma {:induction false} DecimalInjective(a: nat, b: nat)
    requires Decimal(a) == Decimal(b)
    ensures a == b
  {
    var da, db := Decimal(a), Decimal(b);
    assert da[|da| - 1] == Digit(a % 10) && db[|db| - 1] == Digit(b % 10);
    DecimalLength(a);
    DecimalLength(b);
    if a >= 10 {
      assert b >= 10;
      assert da[..|da| - 1] == Decimal(a / 10) && db[..|db| - 1] == Decimal(b / 10);
      DecimalInjective(a / 10, b / 10);
    }
  }

  lemma {:induction false} DecimalLength(n: nat)
    ensures |Decimal(n)| >= 1 && (|Decimal(n)| == 1 <==> n < 10)
  {
  }

  function CpuName(i: nat): string {
    CPU_PREFIX + Decimal(i)
  }

  function CpuNames(cpus: nat): seq<string> {
    seq(cpus, i requires 0 <= i < cpus => CpuName(i))
  }

  function HostNames(cpus: nat): seq<string> {
    [TOTAL_MEMORY, FREE_MEMORY] + CpuNames(cpus)
  }

  method GopsutilGaugeNames(cpus: nat) returns (names: seq<string>)
    ensures names == HostNames(cpus)
  {
    names := [TOTAL_MEMORY, FREE_MEMORY];
    for i := 0 to cpus
      invariant names == [TOTAL_MEMORY, FREE_MEMORY] + CpuNames(i)
    {
      names := names + [CpuName(i)];
      assert CpuNames(i + 1) == CpuNames(i) + [CpuName(i)];
    }
  }

  /** Every gauge a report carries, in order. */
  function ReportNames(host: seq<string>): seq<string> {
    GAUGE_NAMES + host + [RANDOM_VALUE]
  }

  /** A missing key reads as 0. */
  function Reading(snapshot: map<string, Float64>, name: string): Float64 {
    if name in snapshot then snapshot[name] else ZERO
  }

  function GaugeEntries(snapshot: map<string, Float64>, names: seq<string>): seq<Metric> {
    seq(|names|, i requires 0 <= i < |names| => GaugeMetric(names[i], Reading(snapshot, names[i])))
  }

  function BuildBatch(snapshot: map<string, Float64>, host: seq<string>, delta: int64): seq<Metric> {
    GaugeEntries(snapshot, ReportNames(host)) + [CounterMetric(POLL_COUNT, delta)]
  }

  // ---- Distinct names ----

  ghost predicate Distinct<T(!new)>(xs: seq<T>) {
    forall i, j :: 0 <= i < j < |xs| ==> xs[i] != xs[j]
  }

  /** The place of a fixed name in the report; anything else maps past the end. */
  function FixedRank(s: string): nat {
    if s == "Alloc" then 0 else if s == "BuckHashSys" then 1 else if s == "Frees" then 2
    else if s == "GCCPUFraction" then 3 else if s == "GCSys" then 4 else if s == "HeapAlloc" then 5
    else if s == "HeapIdle" then 6 else if s == "HeapInuse" then 7 else if s == "HeapObjects" then 8
    else if s == "HeapReleased" then 9 else if s == "HeapSys" then 10 else if s == "LastGC" then 11
    else if s == "Lookups" then 12 else if s == "MCacheInuse" then 13 else if s == "MCacheSys" then 14
    else if s == "MSpanInuse" then 15 else if s == "MSpanSys" then 16 else if s == "Mallocs" then 17
    else if s == "NextGC" then 18 else if s == "NumForcedGC" then 19 else if s == "NumGC" then 20
    else if s == "OtherSys" then 21 else if s == "PauseTotalNs" then 22 else if s == "StackInuse" then 23
    else if s == "StackSys" then 24 else if s == "Sys" then 25 else if s == "TotalAlloc" then 26 else 27
  }

  lemma FixedRanks(i: nat)
    requires i < 27
    ensures |GAUGE_NAMES| == 27 && FixedRank(GAUGE_NAMES[i]) == i
  {
    if i < 9 { FixedRanksFirst(i); } else if i < 18 { FixedRanksSecond(i); } else { FixedRanksThird(i); }
  }

  lemma FixedRanksFirst(i: nat)
    requires i < 9
    ensures FixedRank(GAUGE_NAMES[i]) == i
  {
  }

  lemma FixedRanksSecond(i: nat)
    requires 9 <= i < 18
    ensures FixedRank(GAUGE_NAMES[i]) == i
  {
  }

  lemma FixedRanksThird(i: nat)
    requires 18 <= i < 27
    ensures FixedRank(GAUGE_NAMES[i]) == i
  {
  }

  lemma OtherRank(cpus: nat, j: nat)
    requires 27 <= j < 31 + cpus
    ensures FixedRank((ReportNames(HostNames(cpus)) + [POLL_COUNT])[j]) == 27
  {
  }

  lemma FixedFromRest(cpus: nat, i: nat, j: nat)
    requires i < 27 && i < j < 31 + cpus
    ensures var names := ReportNames(HostNames(cpus)) + [POLL_COUNT]; names[i] != names[j]
  {
    NameAt(cpus, i);
    NameAt(cpus, j);
    FixedRanks(i);
    if j < 27 { FixedRanks(j); } else { OtherRank(cpus, j); }
  }

  lemma OthersApart(cpus: nat, i: nat, j: nat)
    requires 27 <= i < j < 31 + cpus
    ensures var names := ReportNames(HostNames(cpus)) + [POLL_COUNT]; names[i] != names[j]
  {
    if 29 <= i < 29 + cpus && 29 <= j < 29 + cpus {
      NameAt(cpus, i);
      NameAt(cpus, j);
      CpuNamesDiffer(i - 29, j - 29);
    } else {
      FirstLetter(cpus, i);
      FirstLetter(cpus, j);
    }
  }

  /** The fixed names differ by their place in the list, the others by their first letter or CPU index. */
  lemma {:induction false} AllDistinct(cpus: nat)
    ensures Distinct(ReportNames(HostNames(cpus)) + [POLL_COUNT])
  {
    var names := ReportNames(HostNames(cpus)) + [POLL_COUNT];
    NameAt(cpus, 0);
    forall i, j | 0 <= i < j < |names|
      ensures names[i] != names[j]
    {
      if i < 27 { FixedFromRest(cpus, i, j); } else { OthersApart(cpus, i, j); }
    }
  }

  lemma CpuNamesDiffer(i: nat, j: nat)
    requires i != j
    ensures CpuName(i) != CpuName(j)
  {
    if CpuName(i) == CpuName(j) {
      assert Decimal(i) == CpuName(i)[|CPU_PREFIX|..] == Decimal(j);
      DecimalInjective(i, j);
    }
  }

  lemma NameAt(cpus: nat, i: nat)
    requires i < 31 + cpus
    ensures var names := ReportNames(HostNames(cpus)) + [POLL_COUNT];
            && |names| == 31 + cpus
            && names[i] == (if i < 27 then GAUGE_NAMES[i]
                            else if i == 27 then TOTAL_MEMORY else if i == 28 then FREE_MEMORY
                            else if i < 29 + cpus then CpuName(i - 29)
                            else if i == 29 + cpus then RANDOM_VALUE else POLL_COUNT)
  {
  }

  lemma FirstLetter(cpus: nat, i: nat)
    requires 27 <= i < 31 + cpus
    ensures var names := ReportNames(HostNames(cpus)) + [POLL_COUNT];
            && |names| == 31 + cpus && names[i] != ""
            && names[i][0] == (if i == 27 then 'T' else if i == 28 then 'F' else if i < 29 + cpus then 'C'
                               else if i == 29 + cpus then 'R' else 'P')
  {
  }

  // ---- What a report does to a store ----

  lemma {:induction false} EntryValues(snapshot: map<string, Float64>, names: seq<string>, id: string)
    ensures LastValue(GaugeEntries(snapshot, names), id) == if id in names then Some(Reading(snapshot, id)) else None
  {
    if names != [] {
      var n := |names| - 1;
      assert GaugeEntries(snapshot, names)[..n] == GaugeEntries(snapshot, names[..n]);
      assert names == names[..n] + [names[n]];
      EntryValues(snapshot, names[..n], id);
    }
  }

  lemma {:induction false} NoDeltas(snapshot: map<string, Float64>, names: seq<string>, id: string)
    ensures SumDeltas(GaugeEntries(snapshot, names), id) == 0
  {
    if names != [] {
      var n := |names| - 1;
      assert GaugeEntries(snapshot, names)[..n] == GaugeEntries(snapshot, names[..n]);
      assert |GAUGE| != |COUNTER|;
      NoDeltas(snapshot, names[..n], id);
    }
  }

  /** A report adds its delta to PollCount and touches no other counter. */
  lemma ReportAddsDelta(s: Store, snapshot: map<string, Float64>, host: seq<string>, delta: int64, id: string)
    ensures var r := ApplyBatch(s, BuildBatch(snapshot, host, delta));
            r.Counter(id) == Wrap(s.Counter(id) + if id == "PollCount" then delta else 0)
  {
    var gauges := GaugeEntries(snapshot, ReportNames(host));
    var batch := BuildBatch(snapshot, host, delta);
    NoDeltas(snapshot, ReportNames(host), id);
    assert batch[..|batch| - 1] == gauges;
    CounterClosedForm(s, batch, id);
  }

  /** After a report is applied, every reported gauge has its snapshot value and no other gauge changed. */
  lemma ReportStoresSnapshot(s: Store, snapshot: map<string, Float64>, host: seq<string>, delta: int64, id: string)
    ensures
      var r := ApplyBatch(s, BuildBatch(snapshot, host, delta));
      Lookup(r.gauges, id) == if id in ReportNames(host) then Some(if id in snapshot then snapshot[id] else Finite(0))
      else Lookup(s.gauges, id)
  {
    var batch := BuildBatch(snapshot, host, delta);
    GaugeClosedForm(s, batch, id);
    EntryValues(snapshot, ReportNames(host), id);
    assert batch[..|batch| - 1] == GaugeEntries(snapshot, ReportNames(host));
    assert |GAUGE| != |COUNTER|;
  }

  predicate NamesCpu(id: string, i: nat) {
    id == "CPUutilization" + Decimal(i)
  }

  lemma CpusCarried(cpus: nat, id: string)
    ensures id in CpuNames(cpus) <==> exists i: nat :: i < cpus && NamesCpu(id, i)
  {
    var names := CpuNames(cpus);
    if i: nat :| i < cpus && NamesCpu(id, i) {
      assert names[i] == id;
    }
    if id in names {
      var k: nat :| k < |names| && names[k] == id;
      assert k < cpus && NamesCpu(id, k);
    }
  }

  lemma HostCarries(cpus: nat, id: string)
    ensures id in HostNames(cpus) <==>
      id == "TotalMemory" || id == "FreeMemory" || exists i: nat :: i < cpus && NamesCpu(id, i)
  {
    CpusCarried(cpus, id);
    assert id in HostNames(cpus) <==> id in [TOTAL_MEMORY, FREE_MEMORY] || id in CpuNames(cpus);
  }

  lemma JoinedCarries(fixed: seq<string>, host: seq<string>, id: string)
    ensures id in fixed + host + ["RandomValue"] <==> id in fixed || id in host || id == "RandomValue"
  {
  }

  /** The gauges a report carries, by name. */
  lemma ReportCarries(cpus: nat, id: string)
    ensures id in ReportNames(HostNames(cpus)) <==>
      || id in GAUGE_NAMES || id == "RandomValue" || id == "TotalMemory" || id == "FreeMemory"
      || exists i: nat :: i < cpus && NamesCpu(id, i)
  {
    HostCarries(cpus, id);
    JoinedCarries(GAUGE_NAMES, HostNames(cpus), id);
  }

  /** The number a text of digits stands for. */
  function ValueOf(digits: string): nat
    requires forall i :: 0 <= i < |digits| ==> '0' <= digits[i] <= '9'
  {
    if digits == [] then 0 else 10 * ValueOf(digits[..|digits| - 1]) + (digits[|digits| - 1] - '0') as nat
  }

  /** Decimal printing writes digits that read back as the number, without a leading zero. */
  lemma {:induction false} DecimalReads(n: nat)
    ensures forall i :: 0 <= i < |Decimal(n)| ==> '0' <= Decimal(n)[i] <= '9'
    ensures Decimal(n) != [] && ValueOf(Decimal(n)) == n && (n > 0 ==> Decimal(n)[0] != '0')
  {
    if n >= 10 {
      DecimalReads(n / 10);
      assert Decimal(n)[..|Decimal(n)| - 1] == Decimal(n / 10);
    } else {
      assert Decimal(n)[..0] == [];
    }
  }

  /**
   A report passes the agent's check exactly when its readings are finite, and then the server's; Postgres finds
   every entry well formed.
   */
  lemma ReportAccepted(snapshot: map<string, Float64>, cpus: nat, delta: int64)
    ensures var batch := BuildBatch(snapshot, HostNames(cpus), delta);
            && Validated(batch) && (forall m :: m in batch ==> WellFormed(m))
            && ((forall m :: m in batch ==> AgentAccepts(m)) <==>
                forall id :: id in ReportNames(HostNames(cpus)) ==> IsFinite(Reading(snapshot, id)))
  {
    var names := ReportNames(HostNames(cpus));
    var batch := BuildBatch(snapshot, HostNames(cpus), delta);
    forall i | 0 <= i < |batch| ensures ServerAccepts(batch[i]) {
      NameAt(cpus, i);
      assert batch[i].id == (names + [POLL_COUNT])[i];
      NameNotBlank(cpus, i);
    }
    forall id | id in names ensures GaugeMetric(id, Reading(snapshot, id)) in batch {
      var i :| 0 <= i < |names| && names[i] == id;
      assert batch[i] == GaugeMetric(id, Reading(snapshot, id));
    }
    if forall id :: id in names ==> IsFinite(Reading(snapshot, id)) {
      forall m | m in batch ensures AgentAccepts(m) {
        var i :| 0 <= i < |batch| && batch[i] == m;
        assert i < |names| ==> names[i] in names;
      }
    } else {
      var id :| id in names && !IsFinite(Reading(snapshot, id));
      assert !AgentAccepts(GaugeMetric(id, Reading(snapshot, id)));
    }
  }

  lemma FixedNotBlank(i: nat)
    requires i < 27
    ensures !Blank(GAUGE_NAMES[i])
  {
    assert GAUGE_NAMES[i] != "" && 'A' <= GAUGE_NAMES[i][0] <= 'Z';
  }

  lemma NameNotBlank(cpus: nat, i: nat)
    requires i < 31 + cpus
    ensures !Blank((ReportNames(HostNames(cpus)) + [POLL_COUNT])[i])
  {
    NameAt(cpus, i);
    if i < 27 {
      FixedNotBlank(i);
    } else {
      FirstLetter(cpus, i);
    }
  }
}
