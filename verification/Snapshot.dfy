/** Snapshots as lists of metrics, their JSON form, and restoring them. */
module Snapshot {
  import opened Wrappers
  import opened Metrics
  import opened Http

  /** encoding/json, kept abstract. */
  datatype Json = Json(encode: seq<Metric> -> Option<seq<byte>>, decode: seq<byte> -> Option<seq<Metric>>) {
    /** Encoding fails exactly on a non-finite float; what it produces is non-empty and decodes back. */
    ghost predicate Faithful() {
      && (forall ms :: encode(ms).Some? <==> AllFinite(ms))
      && (forall ms :: encode(ms).Some? ==> encode(ms).value != [] && decode(encode(ms).value) == Some(ms))
    }
  }

  predicate AllFinite(ms: seq<Metric>) {
    forall m :: m in ms && m.value.Some? ==> IsFinite(m.value.value)
  }

  predicate IsEntryOf(m: Metric, s: Store) {
    || (m.id in s.gauges && m == GaugeMetric(m.id, s.gauges[m.id]))
    || (m.id in s.counters && m == CounterMetric(m.id, s.counters[m.id]))
  }

  /** `ms` lists both maps of `s`, in some order. */
  ghost predicate Enumerates(ms: seq<Metric>, s: Store) {
    && (forall m :: m in ms ==> IsEntryOf(m, s))
    && (forall id :: id in s.gauges ==> GaugeMetric(id, s.gauges[id]) in ms)
    && (forall id :: id in s.counters ==> CounterMetric(id, s.counters[id]) in ms)
  }

  /** applyMetricsSnapshot: absolute values, malformed entries skipped. */
  function RestoreMetric(s: Store, m: Metric): Store {
    if m.mtype == GAUGE && m.value.Some? then s.(gauges := s.gauges[m.id := m.value.value])
    else if m.mtype == COUNTER && m.delta.Some? then s.(counters := s.counters[m.id := m.delta.value])
    else s
  }

  function RestoreAll(s: Store, ms: seq<Metric>): Store {
    if ms == [] then s else RestoreMetric(RestoreAll(s, ms[..|ms| - 1]), ms[|ms| - 1])
  }

  /** Each gauge ends at its listed value, or as it started when it is not listed. */
  lemma {:induction false} RestoredGauge(start: Store, ms: seq<Metric>, s: Store, id: string)
    requires forall m :: m in ms ==> IsEntryOf(m, s)
    ensures var (r, listed) := (RestoreAll(start, ms), id in s.gauges && GaugeMetric(id, s.gauges[id]) in ms);
            && (id in r.gauges <==> listed || id in start.gauges)
            && (id in r.gauges ==> r.gauges[id] == if listed then s.gauges[id] else start.gauges[id])
  {
    if ms != [] {
      var front, last := ms[..|ms| - 1], ms[|ms| - 1];
      RestoredGauge(start, front, s, id);
      assert ms == front + [last];
      assert last in ms && IsEntryOf(last, s);
      assert GAUGE != COUNTER by { assert |GAUGE| != |COUNTER|; }
    }
  }

  lemma {:induction false} RestoredCounter(start: Store, ms: seq<Metric>, s: Store, id: string)
    requires forall m :: m in ms ==> IsEntryOf(m, s)
    ensures var (r, listed) := (RestoreAll(start, ms), id in s.counters && CounterMetric(id, s.counters[id]) in ms);
            && (id in r.counters <==> listed || id in start.counters)
            && (id in r.counters ==> r.counters[id] == if listed then s.counters[id] else start.counters[id])
  {
    if ms != [] {
      var front, last := ms[..|ms| - 1], ms[|ms| - 1];
      RestoredCounter(start, front, s, id);
      assert ms == front + [last];
      assert last in ms && IsEntryOf(last, s);
      assert GAUGE != COUNTER by { assert |GAUGE| != |COUNTER|; }
    }
  }

  /** Restoring a snapshot lays its maps over the current ones, whatever order it was listed in. */
  lemma RestoreOverlays(start: Store, ms: seq<Metric>, s: Store)
    requires Enumerates(ms, s)
    ensures RestoreAll(start, ms) == Store(start.gauges + s.gauges, start.counters + s.counters)
  {
    var r := RestoreAll(start, ms);
    forall id ensures id in r.gauges <==> id in start.gauges + s.gauges
              ensures id in r.gauges ==> r.gauges[id] == (start.gauges + s.gauges)[id] {
      RestoredGauge(start, ms, s, id);
    }
    forall id ensures id in r.counters <==> id in start.counters + s.counters
              ensures id in r.counters ==> r.counters[id] == (start.counters + s.counters)[id] {
      RestoredCounter(start, ms, s, id);
    }
    assert r.gauges == start.gauges + s.gauges && r.counters == start.counters + s.counters;
  }

  lemma FiniteExactlyWhen(ms: seq<Metric>, s: Store)
    requires Enumerates(ms, s)
    ensures AllFinite(ms) <==> forall id :: id in s.gauges ==> IsFinite(s.gauges[id])
  {
  }

  /** Save then Restore into an empty repository gives the same two maps, and restoring again changes nothing. */
  lemma SaveRestoreInverse(json: Json, ms: seq<Metric>, s: Store)
    requires json.Faithful() && Enumerates(ms, s)
    requires forall id :: id in s.gauges ==> IsFinite(s.gauges[id])
    ensures json.encode(ms).Some?
    ensures json.decode(json.encode(ms).value) == Some(ms)
    ensures RestoreAll(EMPTY_STORE, ms) == s && RestoreAll(s, ms) == s
  {
    FiniteExactlyWhen(ms, s);
    RestoreOverlays(EMPTY_STORE, ms, s);
    RestoreOverlays(s, ms, s);
    assert s.gauges + s.gauges == s.gauges && s.counters + s.counters == s.counters;
    assert map[] + s.gauges == s.gauges && map[] + s.counters == s.counters;
  }

  /** A snapshot cannot be written exactly when it holds a non-finite gauge. */
  lemma UnencodableExactlyWhen(json: Json, ms: seq<Metric>, s: Store)
    requires json.Faithful() && Enumerates(ms, s)
    ensures json.encode(ms).None? <==> exists id :: id in s.gauges && !IsFinite(s.gauges[id])
  {
  }
}
