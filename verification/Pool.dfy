/** The object pool of metrics, whose Reset writes through pointers, and the batch builder that shares cells with it. */
module MetricsPool {
  import opened Wrappers
  import opened Metrics
  import opened Report

  class IntCell {
    var v: int64

    constructor (v: int64)
      ensures this.v == v
    {
      this.v := v;
    }
  }

  class FloatCell {
    var v: Float64

    constructor (v: Float64)
      ensures this.v == v
    {
      this.v := v;
    }
  }

  /** models.Metrics: the two values sit behind pointers. */
  class MetricObject {
    var id: string
    var mtype: string
    var delta: IntCell?
    var value: FloatCell?

    constructor ()
      ensures Clean()
    {
      id, mtype, delta, value := "", "", null, null;
    }

    predicate Clean()
      reads this
    {
      id == "" && mtype == "" && delta == null && value == null
    }

    /** The generated Reset: pointers stay, what they point to is zeroed. */
    method Reset()
      modifies this`id, this`mtype
      modifies if delta == null then {} else {delta}
      modifies if value == null then {} else {value}
      ensures id == "" && mtype == ""
      ensures delta != null ==> delta.v == 0
      ensures value != null ==> value.v == ZERO
    {
      id := "";
      mtype := "";
      if delta != null {
        delta.v := 0;
      }
      if value != null {
        value.v := ZERO;
      }
    }
  }

  /** A struct copy: the strings by value, the cells shared. */
  datatype Entry = Entry(id: string, mtype: string, delta: IntCell?, value: FloatCell?) {
    function Read(): Metric
      reads if delta == null then {} else {delta}
      reads if value == null then {} else {value}
    {
      Metric(id, mtype, if delta == null then None else Some(delta.v), if value == null then None else Some(value.v))
    }

    function Cells(): set<object> {
      (if delta == null then {} else {delta as object}) + (if value == null then {} else {value as object})
    }
  }

  class Pool {
    var free: seq<MetricObject>

    constructor ()
      ensures Valid() && free == []
    {
      free := [];
    }

    ghost function Objects(): set<MetricObject>
      reads this
    {
      set m | m in free
    }

    /** Every pooled object is blank and pooled once. */
    ghost predicate Valid()
      reads this, free
    {
      && (forall m :: m in free ==> m.Clean())
      && (forall i, j :: 0 <= i < j < |free| ==> free[i] != free[j])
    }

    /** Any pooled object may come back, or a new one. */
    method Get(pick: nat) returns (m: MetricObject)
      requires Valid()
      modifies this
      ensures Valid() && m.Clean() && m !in free && Objects() <= old(Objects())
      ensures m in old(Objects()) || fresh(m)
      ensures |free| == |old(free)| - if pick < |old(free)| then 1 else 0
    {
      if pick < |free| {
        m := free[pick];
        free := free[..pick] + free[pick + 1..];
      } else {
        m := new MetricObject();
      }
    }

    /** The runtime may discard pooled objects at any time. */
    method Discard(n: nat)
      requires Valid() && n <= |free|
      modifies this
      ensures Valid() && free == old(free)[n..]
    {
      free := free[n..];
    }

    /**
     The object is reset, through its pointers, and pooled; the pool stays valid exactly when it came without
     pointers.
     */
    method Put(m: MetricObject)
      requires Valid() && m !in free
      modifies this, m`id, m`mtype
      modifies if m.delta == null then {} else {m.delta}
      modifies if m.value == null then {} else {m.value}
      ensures free == old(free) + [m]
      ensures m.id == "" && m.mtype == ""
      ensures (m.delta != null ==> m.delta.v == 0) && (m.value != null ==> m.value.v == ZERO)
      ensures Valid() <==> m.delta == null && m.value == null
    {
      m.Reset();
      free := free + [m];
      assert m in free;
    }
  }

  // ---- The pool's other users ----

  /**
   One step of other code: objects are taken, filled as either sender does, and cleared and put back, in any
   order.
   */
  datatype Use =
    | Drop(n: nat)
    | Take(pick: nat)
    | FillGauge(i: nat, id: string, v: Float64)
    | FillCounter(i: nat, id: string, d: int64)
    | GiveBack(i: nat)

  /** The pool together with the objects that other code has taken from it and not put back yet. */
  class SharedPool {
    const pool: Pool
    var held: seq<MetricObject>

    constructor ()
      ensures Valid() && held == [] && fresh(pool) && pool.free == []
    {
      pool := new Pool();
      held := [];
    }

    ghost function Objects(): set<MetricObject>
      reads this, pool
    {
      pool.Objects() + set m | m in held
    }

    /** No object is held twice, or held and pooled. */
    ghost predicate Valid()
      reads this, pool, pool.free
    {
      && pool.Valid()
      && (forall m :: m in held ==> m !in pool.free)
      && (forall i, j :: 0 <= i < j < |held| ==> held[i] != held[j])
    }

    /** Takes an object out, which is then the caller's alone. */
    method Borrow(pick: nat) returns (m: MetricObject)
      requires Valid()
      modifies pool
      ensures Valid() && held == old(held) && m.Clean() && m !in Objects() && Objects() <= old(Objects())
      ensures m in old(Objects()) || fresh(m)
      ensures |pool.free| == |old(pool.free)| - if pick < |old(pool.free)| then 1 else 0
    {
      ghost var before := pool.Objects();
      m := pool.Get(pick);
      assert forall x :: x in pool.free ==> x in pool.Objects() && x in before;
      assert m in before ==> m !in held;
    }

    /** Puts a cleared object into the pool. */
    method PutBack(m: MetricObject)
      requires Valid() && m !in Objects() && m.delta == null && m.value == null
      modifies pool, m`id, m`mtype
      ensures Valid() && held == old(held) && Objects() == old(Objects()) + {m}
      ensures |pool.free| == |old(pool.free)| + 1
    {
      pool.Put(m);
      assert forall x :: x in pool.free <==> x in old(pool.free) || x == m;
    }

    method Fill(i: nat, id: string, mtype: string, delta: IntCell?, value: FloatCell?)
      requires Valid() && i < |held|
      modifies held
      ensures Valid()
    {
      var m := held[i];
      m.id, m.mtype, m.delta, m.value := id, mtype, delta, value;
    }

    method GiveBack(i: nat)
      requires Valid() && i < |held|
      modifies this, pool, held
      ensures Valid() && Objects() == old(Objects())
    {
      var m := held[i];
      held := held[..i] + held[i + 1..];
      m.value := null;
      m.delta := null;
      assert forall x :: x in old(held) <==> x in held || x == m;
      PutBack(m);
    }

    method Do(u: Use)
      requires Valid()
      modifies this, pool, Objects()
      ensures Valid() && fresh(Objects() - old(Objects()))
    {
      match u {
        case Drop(n) =>
          if n <= |pool.free| {
            pool.Discard(n);
          }
        case Take(pick) =>
          var m := Borrow(pick);
          held := held + [m];
        case FillGauge(i, id, v) =>
          if i < |held| {
            var cell := new FloatCell(v);
            Fill(i, id, GAUGE, null, cell);
          }
        case FillCounter(i, id, d) =>
          if i < |held| {
            var cell := new IntCell(d);
            Fill(i, id, COUNTER, cell, null);
          }
        case GiveBack(i) =>
          if i < |held| {
            GiveBack(i);
          }
      }
    }

    method DoAll(uses: seq<Use>)
      requires Valid()
      modifies this, pool, Objects()
      ensures Valid() && fresh(Objects() - old(Objects()))
      ensures uses == [] ==> pool.free == old(pool.free) && held == old(held)
    {
      var i := 0;
      while i < |uses|
        invariant i <= |uses|
        invariant Valid() && fresh(Objects() - old(Objects()))
        invariant i == 0 ==> pool.free == old(pool.free) && held == old(held)
      {
        Do(uses[i]);
        i := i + 1;
      }
    }
  }

  // ---- The batch builder, with other users' steps between any two of its own ----

  /** What other users do while the builder has an object: before it is copied, and before it is put back. */
  datatype Meanwhile = Meanwhile(filled: seq<Use>, copied: seq<Use>)

  /** The object is copied into the batch, cleared and put back. */
  method CopyAndPut(s: SharedPool, m: MetricObject, copied: seq<Use>) returns (e: Entry)
    requires s.Valid() && m !in s.Objects()
    modifies s, s.pool, s.Objects(), m
    ensures s.Valid() && fresh(s.Objects() - old(s.Objects()) - {m})
    ensures e == old(Entry(m.id, m.mtype, m.delta, m.value))
    ensures copied == [] ==> |s.pool.free| == |old(s.pool.free)| + 1
  {
    e := Entry(m.id, m.mtype, m.delta, m.value);
    m.value := null;
    m.delta := null;
    s.DoAll(copied);
    s.PutBack(m);
  }

  method AppendGauge(s: SharedPool, pick: nat, name: string, v: Float64, others: Meanwhile) returns (e: Entry)
    requires s.Valid()
    modifies s, s.pool, s.Objects()
    ensures s.Valid() && fresh(s.Objects() - old(s.Objects()))
    ensures e.Read() == GaugeMetric(name, v) && fresh(e.Cells())
    ensures others == Meanwhile([], []) ==>
      |s.pool.free| == |old(s.pool.free)| + if pick < |old(s.pool.free)| then 0 else 1
  {
    var m := s.Borrow(pick);
    m.id := name;
    m.mtype := GAUGE;
    m.value := new FloatCell(v);
    m.delta := null;
    s.DoAll(others.filled);
    e := CopyAndPut(s, m, others.copied);
  }

  method AppendCounter(s: SharedPool, pick: nat, name: string, d: int64, others: Meanwhile) returns (e: Entry)
    requires s.Valid()
    modifies s, s.pool, s.Objects()
    ensures s.Valid() && fresh(s.Objects() - old(s.Objects()))
    ensures e.Read() == CounterMetric(name, d) && fresh(e.Cells())
    ensures others == Meanwhile([], []) ==>
      |s.pool.free| == |old(s.pool.free)| + if pick < |old(s.pool.free)| then 0 else 1
  {
    var m := s.Borrow(pick);
    m.id := name;
    m.mtype := COUNTER;
    m.delta := new IntCell(d);
    m.value := null;
    s.DoAll(others.filled);
    e := CopyAndPut(s, m, others.copied);
  }

  method AppendGauges(s: SharedPool, picks: nat -> nat, others: nat -> Meanwhile,
      snapshot: map<string, Float64>, names: seq<string>) returns (batch: seq<Entry>)
    requires s.Valid()
    modifies s, s.pool, s.Objects()
    ensures s.Valid() && fresh(s.Objects() - old(s.Objects()))
    ensures |batch| == |names|
    ensures forall i :: 0 <= i < |names| ==> batch[i].Read() == GaugeMetric(names[i], Reading(snapshot, names[i]))
    ensures forall e :: e in batch ==> fresh(e.Cells())
  {
    batch := [];
    var i := 0;
    while i < |names|
      invariant i <= |names| && |batch| == i
      invariant s.Valid() && fresh(s.Objects() - old(s.Objects()))
      invariant forall j :: 0 <= j < i ==> batch[j].Read() == GaugeMetric(names[j], Reading(snapshot, names[j]))
      invariant forall e :: e in batch ==> fresh(e.Cells())
    {
      var e := AppendGauge(s, picks(i), names[i], Reading(snapshot, names[i]), others(i));
      batch := batch + [e];
      i := i + 1;
    }
  }

  /** buildMetricsFromSnapshot: the batch reads exactly as the snapshot and delta say, through cells nobody else has. */
  method BuildMetrics(s: SharedPool, picks: nat -> nat, others: nat -> Meanwhile,
      snapshot: map<string, Float64>, host: seq<string>, delta: int64) returns (batch: seq<Entry>)
    requires s.Valid()
    modifies s, s.pool, s.Objects()
    ensures s.Valid() && fresh(s.Objects() - old(s.Objects()))
    ensures |batch| == |ReportNames(host)| + 1
    ensures forall i :: 0 <= i < |batch| ==> batch[i].Read() == BuildBatch(snapshot, host, delta)[i]
    ensures forall e :: e in batch ==> fresh(e.Cells())
  {
    batch := AppendGauges(s, picks, others, snapshot, ReportNames(host));
    var last := AppendCounter(s, picks(|batch|), POLL_COUNT, delta, others(|batch|));
    batch := batch + [last];
  }

  /**
   Alias safety: whatever other code did with the pool before, whatever it does between any two steps of the
   builder and afterwards, holding any objects meanwhile, the batch reads exactly as its snapshot and delta;
   and all the while pooled objects are blank.
   */
  method BatchOutlivesPoolUse(before: seq<Use>, during: nat -> Meanwhile, after: seq<Use>, picks: nat -> nat,
      snapshot: map<string, Float64>, host: seq<string>, delta: int64) returns (s: SharedPool, batch: seq<Entry>)
    ensures s.Valid()
    ensures |batch| == |ReportNames(host)| + 1
    ensures forall i :: 0 <= i < |batch| ==> batch[i].Read() == BuildBatch(snapshot, host, delta)[i]
  {
    s := new SharedPool();
    s.DoAll(before);
    batch := BuildMetrics(s, picks, during, snapshot, host, delta);
    s.DoAll(after);
  }

  /** Clearing before Put is what this rests on: an entry copied from an object put back as it is loses its value. */
  method PutWithoutClearing(pool: Pool, name: string, v: Float64) returns (e: Entry)
    requires pool.Valid()
    modifies pool, pool.Objects()
    ensures e.Read() == GaugeMetric(name, ZERO) && !pool.Valid()
  {
    var m := pool.Get(0);
    m.id := name;
    m.mtype := GAUGE;
    m.value := new FloatCell(v);
    e := Entry(m.id, m.mtype, m.delta, m.value);
    pool.Put(m);
  }
}
