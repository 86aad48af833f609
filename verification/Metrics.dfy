/** Metric values, and the store they are applied to (internal/model, internal/repository/memory.go). */
module Metrics {
  import opened Wrappers

  const TWO_63: int := 0x8000_0000_0000_0000
  const TWO_64: int := 0x1_0000_0000_0000_0000

  predicate InInt64(x: int) {
    -0x8000_0000_0000_0000 <= x < 0x8000_0000_0000_0000
  }

  type int64 = x: int | InInt64(x)

  /** Go's int64 arithmetic keeps the low 64 bits. */
  function Wrap(x: int): (r: int64)
    ensures InInt64(x) ==> r == x
  {
    (x + TWO_63) % TWO_64 - TWO_63
  }

  lemma WrapStep(x: int, y: int)
    ensures Wrap(Wrap(x) + y) == Wrap(x + y)
  {
  }

  /** Values are only copied and tested for finiteness; a finite one is its bit pattern. */
  datatype Float64 = Finite(bits: nat) | PosInf | NegInf | NaN

  const ZERO: Float64 := Finite(0)

  const GAUGE := "gauge"
  const COUNTER := "counter"
  const POLL_COUNT := "PollCount"

  datatype Metric = Metric(id: string, mtype: string, delta: Option<int64>, value: Option<Float64>)

  function GaugeMetric(id: string, v: Float64): Metric {
    Metric(id, GAUGE, None, Some(v))
  }

  function CounterMetric(id: string, d: int64): Metric {
    Metric(id, COUNTER, Some(d), None)
  }

  datatype Store = Store(gauges: map<string, Float64>, counters: map<string, int64>) {
    /** A missing counter reads as 0. */
    function Counter(id: string): int64 {
      if id in counters then counters[id] else 0
    }
  }

  const EMPTY_STORE := Store(map[], map[])

  function Lookup<K, V>(m: map<K, V>, k: K): Option<V> {
    if k in m then Some(m[k]) else None
  }

  predicate SetsGauge(m: Metric, id: string) {
    m.mtype == GAUGE && m.value.Some? && m.id == id
  }

  predicate AddsTo(m: Metric, id: string) {
    m.mtype == COUNTER && m.delta.Some? && m.id == id
  }

  function ApplyMetric(s: Store, m: Metric): Store {
    if m.mtype == GAUGE && m.value.Some? then s.(gauges := s.gauges[m.id := m.value.value])
    else if m.mtype == COUNTER && m.delta.Some? then
      s.(counters := s.counters[m.id := Wrap(s.Counter(m.id) + m.delta.value)])
    else s
  }

  function ApplyBatch(s: Store, ms: seq<Metric>): Store {
    if ms == [] then s else ApplyMetric(ApplyBatch(s, ms[..|ms| - 1]), ms[|ms| - 1])
  }

  // ---- Closed form of a batch ----

  function DeltaOf(m: Metric, id: string): int {
    if AddsTo(m, id) then m.delta.value else 0
  }

  function SumDeltas(ms: seq<Metric>, id: string): int {
    if ms == [] then 0 else SumDeltas(ms[..|ms| - 1], id) + DeltaOf(ms[|ms| - 1], id)
  }

  predicate Counts(ms: seq<Metric>, id: string) {
    exists m :: m in ms && AddsTo(m, id)
  }

  function LastValue(ms: seq<Metric>, id: string): Option<Float64> {
    if ms == [] then None
    else if SetsGauge(ms[|ms| - 1], id) then ms[|ms| - 1].value
    else LastValue(ms[..|ms| - 1], id)
  }

  lemma {:induction false} CounterClosedForm(s: Store, ms: seq<Metric>, id: string)
    ensures ApplyBatch(s, ms).Counter(id) == Wrap(s.Counter(id) + SumDeltas(ms, id))
  {
    if ms != [] {
      var front, m := ms[..|ms| - 1], ms[|ms| - 1];
      CounterClosedForm(s, front, id);
      WrapStep(s.Counter(id) + SumDeltas(front, id), DeltaOf(m, id));
    }
  }

  lemma {:induction false} CounterDomain(s: Store, ms: seq<Metric>, id: string)
    ensures id in ApplyBatch(s, ms).counters <==> id in s.counters || Counts(ms, id)
  {
    if ms != [] {
      var front, m := ms[..|ms| - 1], ms[|ms| - 1];
      CounterDomain(s, front, id);
      assert ms == front + [m];
      assert Counts(ms, id) <==> Counts(front, id) || AddsTo(m, id);
    }
  }

  lemma {:induction false} GaugeClosedForm(s: Store, ms: seq<Metric>, id: string)
    ensures Lookup(ApplyBatch(s, ms).gauges, id) ==
      if LastValue(ms, id).Some? then LastValue(ms, id) else Lookup(s.gauges, id)
  {
    if ms != [] {
      GaugeClosedForm(s, ms[..|ms| - 1], id);
    }
  }

  /** Each counter is its old value plus the sum of its deltas, wrapped once; each gauge is its last written value. */
  lemma {:induction false} BatchClosedForm(s: Store, ms: seq<Metric>, id: string)
    ensures var r := ApplyBatch(s, ms);
            && r.Counter(id) == Wrap(s.Counter(id) + SumDeltas(ms, id))
            && (id in r.counters <==> id in s.counters || Counts(ms, id))
            && Lookup(r.gauges, id) == (if LastValue(ms, id).Some? then LastValue(ms, id) else Lookup(s.gauges, id))
  {
    CounterClosedForm(s, ms, id);
    CounterDomain(s, ms, id);
    GaugeClosedForm(s, ms, id);
  }

  /** Applying a concatenation is applying the parts in turn. */
  lemma {:induction false} BatchConcat(s: Store, a: seq<Metric>, b: seq<Metric>)
    ensures ApplyBatch(s, a + b) == ApplyBatch(ApplyBatch(s, a), b)
  {
    if b == [] {
      assert a + b == a;
    } else {
      assert (a + b)[..|a + b| - 1] == a + b[..|b| - 1];
      BatchConcat(s, a, b[..|b| - 1]);
    }
  }

  lemma {:induction false} SumWithout(ms: seq<Metric>, i: nat, id: string)
    requires i < |ms|
    ensures SumDeltas(ms, id) == SumDeltas(ms[..i] + ms[i + 1..], id) + DeltaOf(ms[i], id)
  {
    var n := |ms| - 1;
    if i == n {
      assert ms[..i] + ms[i + 1..] == ms[..n];
    } else {
      SumWithout(ms[..n], i, id);
      var rest := ms[..i] + ms[i + 1..];
      assert rest[..|rest| - 1] == ms[..n][..i] + ms[..n][i + 1..];
    }
  }

  lemma {:induction false} SumOrderFree(a: seq<Metric>, b: seq<Metric>, id: string)
    requires multiset(a) == multiset(b)
    ensures SumDeltas(a, id) == SumDeltas(b, id)
  {
    if a == [] {
      assert |multiset(b)| == 0;
    } else {
      var m, n := a[|a| - 1], |a| - 1;
      assert a == a[..n] + [m];
      assert m in multiset(b);
      var i :| 0 <= i < |b| && b[i] == m;
      assert b == b[..i] + [m] + b[i + 1..];
      assert multiset(b[..i] + b[i + 1..]) == multiset(b) - multiset{m};
      SumWithout(b, i, id);
      SumOrderFree(a[..n], b[..i] + b[i + 1..], id);
    }
  }

  /** Counters do not depend on the order of a batch. */
  lemma CountersOrderFree(s: Store, a: seq<Metric>, b: seq<Metric>)
    requires multiset(a) == multiset(b)
    ensures ApplyBatch(s, a).counters == ApplyBatch(s, b).counters
  {
    var ra, rb := ApplyBatch(s, a).counters, ApplyBatch(s, b).counters;
    assert forall m :: m in a <==> m in multiset(a);
    assert forall m :: m in b <==> m in multiset(b);
    forall id
      ensures id in ra <==> id in rb
      ensures id in ra ==> ra[id] == rb[id]
    {
      BatchClosedForm(s, a, id);
      BatchClosedForm(s, b, id);
      SumOrderFree(a, b, id);
      assert Counts(a, id) <==> Counts(b, id);
    }
  }

  // ---- Batch validation ----

  /** The characters strings.TrimSpace removes. */
  predicate IsSpace(c: char) {
    || c == ' ' || '\t' <= c <= '\r' || c == 0x85 as char || c == 0xA0 as char || c == 0x1680 as char
    || 0x2000 as char <= c <= 0x200A as char || c == 0x2028 as char || c == 0x2029 as char
    || c == 0x202F as char || c == 0x205F as char || c == 0x3000 as char
  }

  predicate Blank(s: string) {
    forall i :: 0 <= i < |s| ==> IsSpace(s[i])
  }

  predicate IsFinite(v: Float64) {
    v.Finite?
  }

  /** One entry as the server's validateMetricsBatch accepts it. */
  predicate ServerAccepts(m: Metric) {
    && !Blank(m.id)
    && ((m.mtype == GAUGE && m.value.Some? && m.delta.None?) || (m.mtype == COUNTER && m.delta.Some? && m.value.None?))
  }

  /** One entry as the agent's PostMetricsBatch accepts it: the same, with finite gauges. */
  predicate AgentAccepts(m: Metric) {
    ServerAccepts(m) && (m.value.Some? ==> IsFinite(m.value.value))
  }

  /** What the stores need of an entry: the value or delta its type calls for. */
  predicate WellFormed(m: Metric) {
    (m.mtype == GAUGE && m.value.Some?) || (m.mtype == COUNTER && m.delta.Some?)
  }

  /** Both, spelled out. */
  lemma AcceptsIs(m: Metric)
    ensures ServerAccepts(m) <==>
      && !Blank(m.id)
      && ((m.mtype == "gauge" && m.value.Some? && m.delta.None?) || (m.mtype == "counter" && m.delta.Some? &&
          m.value.None?))
    ensures AgentAccepts(m) <==>
      && !Blank(m.id)
      && ((m.mtype == "gauge" && m.value.Some? && m.value.value.Finite? && m.delta.None?)
          || (m.mtype == "counter" && m.delta.Some? && m.value.None?))
  {
  }

  predicate Validated(ms: seq<Metric>) {
    forall m :: m in ms ==> ServerAccepts(m)
  }
}
