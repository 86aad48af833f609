/** The in-memory repository; every method runs under the repository's mutex, as one step. */
module MemoryRepository {
  import opened Wrappers
  import opened Metrics

  class MemoryRepo {
    var gauges: map<string, Float64>
    var counters: map<string, int64>

    constructor ()
      ensures Contents() == EMPTY_STORE
    {
      gauges, counters := map[], map[];
    }

    function Contents(): Store
      reads this
    {
      Store(gauges, counters)
    }

    method SetGauge(name: string, value: Float64)
      modifies this
      ensures Contents() == old(Contents()).(gauges := old(gauges)[name := value])
      ensures Contents() == ApplyBatch(old(Contents()), [GaugeMetric(name, value)])
    {
      gauges := gauges[name := value];
    }

    method AddCounter(name: string, delta: int64)
      modifies this
      ensures Contents() == ApplyBatch(old(Contents()), [CounterMetric(name, delta)])
      ensures counters ==
        old(counters)[name := Wrap((if name in old(counters) then old(counters)[name] else 0) + delta)]
      ensures gauges == old(gauges)
    {
      var current: int64 := if name in counters then counters[name] else 0;
      counters := counters[name := Wrap(current + delta)];
    }

    method SetCounter(name: string, value: int64)
      modifies this
      ensures Contents() == old(Contents()).(counters := old(counters)[name := value])
    {
      counters := counters[name := value];
    }

    method GetGauge(name: string) returns (v: Float64, ok: bool)
      ensures (if ok then Some(v) else None) == Lookup(gauges, name)
    {
      ok := name in gauges;
      v := if ok then gauges[name] else ZERO;
    }

    method GetCounter(name: string) returns (v: int64, ok: bool)
      ensures (if ok then Some(v) else None) == Lookup(counters, name) && v == Contents().Counter(name)
    {
      ok := name in counters;
      v := if ok then counters[name] else 0;
    }

    /** A copy, whatever order the map is ranged over. */
    method Gauges() returns (out: map<string, Float64>)
      ensures out == gauges
    {
      out := CopyMap(gauges);
    }

    method Counters() returns (out: map<string, int64>)
      ensures out == counters
    {
      out := CopyMap(counters);
    }

    method UpdateMetricsBatch(metrics: seq<Metric>)
      modifies this
      ensures Contents() == ApplyBatch(old(Contents()), metrics)
    {
      var i := 0;
      while i < |metrics|
        invariant i <= |metrics|
        invariant Contents() == ApplyBatch(old(Contents()), metrics[..i])
      {
        var m := metrics[i];
        assert metrics[..i + 1][..i] == metrics[..i];
        if m.mtype == GAUGE {
          if m.value.Some? {
            gauges := gauges[m.id := m.value.value];
          }
        } else if m.mtype == COUNTER {
          if m.delta.Some? {
            counters := counters[m.id := Wrap((if m.id in counters then counters[m.id] else 0) + m.delta.value)];
          }
        }
        i := i + 1;
      }
      assert metrics[..i] == metrics;
    }
  }

  method CopyMap<K(==), V>(m: map<K, V>) returns (out: map<K, V>)
    ensures out == m
  {
    out := map[];
    var todo := m.Keys;
    while todo != {}
      invariant todo <= m.Keys
      invariant out == map k | k in m.Keys - todo :: m[k]
      decreases |todo|
    {
      var k :| k in todo;
      out := out[k := m[k]];
      todo := todo - {k};
    }
  }

  /** validateMetricsBatch: the batch is accepted exactly when every entry is well formed. */
  method ValidateMetricsBatch(metrics: seq<Metric>) returns (err: Option<string>)
    ensures err.None? <==> Validated(metrics)
    ensures err.None? <==> forall m :: m in metrics ==>
      && !Blank(m.id)
      && ((m.mtype == "gauge" && m.value.Some? && m.delta.None?) || (m.mtype == "counter" && m.delta.Some? &&
          m.value.None?))
  {
    var i := 0;
    while i < |metrics|
      invariant i <= |metrics|
      invariant Validated(metrics[..i])
    {
      var m := metrics[i];
      assert m in metrics;
      if Blank(m.id) {
        return Some("missing metric id");
      }
      if m.mtype == "" {
        return Some("missing metric type");
      }
      if m.mtype == GAUGE {
        if m.value.None? || m.delta.Some? {
          return Some("gauge metric requires value, delta must be omitted");
        }
      } else if m.mtype == COUNTER {
        if m.delta.None? || m.value.Some? {
          return Some("counter metric requires delta, value must be omitted");
        }
      } else {
        return Some("invalid metric type");
      }
      assert metrics[..i + 1] == metrics[..i] + [m];
      i := i + 1;
    }
    assert metrics[..i] == metrics;
    return None;
  }
}
