/** The PostgreSQL repository: one transaction per batch, retried on connection errors. */
module Postgres {
  import opened Wrappers
  import opened Metrics
  import opened Retry

  datatype PgError = SqlState(code: string) | Other(message: string)

  predicate IsConnectionException(code: string) {
    |code| >= 2 && code[0] == '0' && code[1] == '8'
  }

  predicate IsRetriable(e: PgError) {
    e.SqlState? && IsConnectionException(e.code)
  }

  const OUT_OF_RANGE := SqlState("22003")

  /** A failed commit may have been applied before its acknowledgement was lost. */
  datatype Commit = Committed | CommitFailed(err: PgError, applied: bool)

  /** What goes wrong during one attempt. */
  datatype Faults = Faults(
    begin: Option<PgError>, prepareGauge: Option<PgError>, prepareCounter: Option<PgError>,
    exec: nat -> Option<PgError>, commit: Commit)
  {
    predicate Quiet() {
      begin.None? && prepareGauge.None? && prepareCounter.None? && commit.Committed?
    }
  }

  datatype Tx = Open(s: Store) | Aborted(err: PgError)

  /**
   The error with which the name column refuses a text, if it does: TEXT holds no zero character and
   the unique index no very long key. It is an error of the data, not of the connection.
   */
  type Refusal = string -> Option<PgError>

  ghost predicate RefusesForGood(refuse: Refusal) {
    forall name :: refuse(name).Some? ==> !IsRetriable(refuse(name).value)
  }

  /** One upsert; BIGINT addition is checked. */
  function ExecMetric(refuse: Refusal, s: Store, m: Metric, fault: Option<PgError>): Tx {
    if m.mtype == GAUGE then
      if m.value.None? then Aborted(Other("missing gauge value"))
      else if fault.Some? then Aborted(fault.value)
      else if refuse(m.id).Some? then Aborted(refuse(m.id).value)
      else Open(s.(gauges := s.gauges[m.id := m.value.value]))
    else if m.mtype == COUNTER then
      if m.delta.None? then Aborted(Other("missing counter delta"))
      else if fault.Some? then Aborted(fault.value)
      else if refuse(m.id).Some? then Aborted(refuse(m.id).value)
      else if !InInt64(s.Counter(m.id) + m.delta.value) then Aborted(OUT_OF_RANGE)
      else Open(s.(counters := s.counters[m.id := s.Counter(m.id) + m.delta.value]))
    else Aborted(Other("invalid metric type"))
  }

  function ExecBatch(refuse: Refusal, s: Store, ms: seq<Metric>, exec: nat -> Option<PgError>): Tx {
    if ms == [] then Open(s)
    else
      var t := ExecBatch(refuse, s, ms[..|ms| - 1], exec);
      if t.Aborted? then t else ExecMetric(refuse, t.s, ms[|ms| - 1], exec(|ms| - 1))
  }

  /** One attempt: the database afterwards and the error returned. */
  function BatchOnce(refuse: Refusal, db: Store, ms: seq<Metric>, f: Faults): (Store, Option<PgError>) {
    if f.begin.Some? then (db, f.begin)
    else if f.prepareGauge.Some? then (db, f.prepareGauge)
    else if f.prepareCounter.Some? then (db, f.prepareCounter)
    else
      var t := ExecBatch(refuse, db, ms, f.exec);
      if t.Aborted? then (db, Some(t.err))
      else if f.commit.Committed? then (t.s, None)
      else (if f.commit.applied then t.s else db, Some(f.commit.err))
  }

  function Op(refuse: Refusal, ms: seq<Metric>, faults: nat -> Faults): (Store, nat) -> (Store, Attempt<PgError>) {
    (db: Store, k: nat) =>
      var (db', err) := BatchOnce(refuse, db, ms, faults(k));
      (db', if err.None? then Succeeded else Failed(err.value, IsRetriable(err.value)))
  }

  class PostgresRepo {
    /** The committed rows. */
    var db: Store
    const refuse: Refusal

    constructor (refuse: Refusal, db: Store)
      ensures this.refuse == refuse && this.db == db
    {
      this.refuse, this.db := refuse, db;
    }

    /** The statement for one entry, executed inside a transaction that has reached `tx`. */
    method Upsert(tx: Store, m: Metric, fault: Option<PgError>) returns (next: Tx)
      ensures next == ExecMetric(refuse, tx, m, fault)
    {
      if m.mtype == GAUGE {
        if m.value.None? {
          return Aborted(Other("missing gauge value"));
        }
        if fault.Some? || refuse(m.id).Some? {
          return Aborted(if fault.Some? then fault.value else refuse(m.id).value);
        }
        return Open(tx.(gauges := tx.gauges[m.id := m.value.value]));
      } else if m.mtype == COUNTER {
        if m.delta.None? {
          return Aborted(Other("missing counter delta"));
        }
        if fault.Some? || refuse(m.id).Some? {
          return Aborted(if fault.Some? then fault.value else refuse(m.id).value);
        }
        var sum := (if m.id in tx.counters then tx.counters[m.id] else 0) + m.delta.value;
        if !InInt64(sum) {
          return Aborted(OUT_OF_RANGE);
        }
        return Open(tx.(counters := tx.counters[m.id := sum]));
      }
      return Aborted(Other("invalid metric type"));
    }

    method UpdateMetricsBatchOnce(ms: seq<Metric>, f: Faults) returns (err: Option<PgError>)
      modifies this
      ensures (db, err) == BatchOnce(refuse, old(db), ms, f)
    {
      if f.begin.Some? {
        return f.begin;
      }
      var tx := db;
      if f.prepareGauge.Some? {
        return f.prepareGauge;
      }
      if f.prepareCounter.Some? {
        return f.prepareCounter;
      }
      var i := 0;
      while i < |ms|
        invariant i <= |ms|
        invariant db == old(db)
        invariant ExecBatch(refuse, db, ms[..i], f.exec) == Open(tx)
      {
        var m := ms[i];
        assert ms[..i + 1][..i] == ms[..i];
        PrefixAborts(refuse, db, ms, i + 1, f.exec);
        var next := Upsert(tx, m, f.exec(i));
        if next.Aborted? {
          return Some(next.err);
        }
        tx := next.s;
        i := i + 1;
      }
      assert ms[..i] == ms;
      match f.commit {
        case Committed => db := tx; err := None;
        case CommitFailed(e, applied) =>
          if applied {
            db := tx;
          }
          err := Some(e);
      }
    }

    /** retryPostgres around one attempt; `pause` is the error of the cancellable wait before an attempt. */
    method UpdateMetricsBatch(ms: seq<Metric>, faults: nat -> Faults, pause: nat -> Option<PgError>)
      returns (err: Option<PgError>)
      modifies this
      ensures ms == [] ==> db == old(db) && err.None?
      ensures ms != [] ==> (db, err) == RetryFrom(Op(refuse, ms, faults), pause, old(db), 0)
    {
      if |ms| == 0 {
        return None;
      }
      err := None;
      var k := 0;
      while k < MAX_ATTEMPTS
        invariant k <= MAX_ATTEMPTS
        invariant k < MAX_ATTEMPTS ==> RetryFrom(Op(refuse, ms, faults), pause, old(db), 0) == RetryFrom(Op(refuse,
            ms, faults), pause, db, k)
        invariant k == MAX_ATTEMPTS ==> RetryFrom(Op(refuse, ms, faults), pause, old(db), 0) == (db, err)
      {
        if k > 0 && pause(k).Some? {
          return pause(k);
        }
        err := UpdateMetricsBatchOnce(ms, faults(k));
        if err.None? || !IsRetriable(err.value) {
          return;
        }
        k := k + 1;
      }
    }
  }

  lemma {:induction false} PrefixAborts(refuse: Refusal, s: Store, ms: seq<Metric>, k: nat,
      exec: nat -> Option<PgError>)
    requires k <= |ms|
    ensures ExecBatch(refuse, s, ms[..k], exec).Aborted? ==>
        ExecBatch(refuse, s, ms, exec) == ExecBatch(refuse, s, ms[..k], exec)
  {
    if k == |ms| {
      assert ms[..k] == ms;
    } else {
      assert ms[..|ms| - 1][..k] == ms[..k];
      PrefixAborts(refuse, s, ms[..|ms| - 1], k, exec);
    }
  }

  // ---- Agreement with the in-memory store ----

  /** Whatever transaction reaches its commit holds exactly what the in-memory store would. */
  lemma {:induction false} StoresAgree(refuse: Refusal, s: Store, ms: seq<Metric>, exec: nat -> Option<PgError>)
    requires ExecBatch(refuse, s, ms, exec).Open?
    ensures ExecBatch(refuse, s, ms, exec).s == ApplyBatch(s, ms)
  {
    if ms != [] {
      StoresAgree(refuse, s, ms[..|ms| - 1], exec);
    }
  }

  /** No running total of any counter leaves the BIGINT range: not in the batch, nor in any prefix of it. */
  ghost predicate TotalsFit(s: Store, ms: seq<Metric>) {
    && (ms != [] ==> TotalsFit(s, ms[..|ms| - 1]))
    && (forall id :: InInt64(s.Counter(id) + SumDeltas(ms, id)))
  }

  /** What a batch needs for Postgres to take it. */
  ghost predicate Storable(refuse: Refusal, s: Store, ms: seq<Metric>) {
    AllTaken(refuse, ms) && TotalsFit(s, ms)
  }

  predicate AllTaken(refuse: Refusal, ms: seq<Metric>) {
    forall m :: m in ms ==> WellFormed(m) && refuse(m.id).None?
  }

  /** A transaction that has come this far holds every total exactly, unwrapped. */
  lemma {:induction false} OpenAddsExactly(refuse: Refusal, s: Store, ms: seq<Metric>, exec: nat -> Option<PgError>,
      id: string)
    requires ExecBatch(refuse, s, ms, exec).Open?
    ensures ExecBatch(refuse, s, ms, exec).s.Counter(id) == s.Counter(id) + SumDeltas(ms, id)
  {
    if ms != [] {
      OpenAddsExactly(refuse, s, ms[..|ms| - 1], exec, id);
    }
  }

  /** Of all totals only the last entry's own can newly leave the range. */
  lemma LastTotal(refuse: Refusal, s: Store, ms: seq<Metric>, exec: nat -> Option<PgError>, id: string)
    requires ms != [] && ExecBatch(refuse, s, ms[..|ms| - 1], exec).Open?
    ensures
      var (t, m) := (ExecBatch(refuse, s, ms[..|ms| - 1], exec).s, ms[|ms| - 1]);
      && s.Counter(id) + SumDeltas(ms, id) == t.Counter(id) + DeltaOf(m, id)
      && (id != m.id ==> InInt64(t.Counter(id) + DeltaOf(m, id)))
  {
    OpenAddsExactly(refuse, s, ms[..|ms| - 1], exec, id);
  }

  lemma AllTakenSplit(refuse: Refusal, ms: seq<Metric>)
    requires ms != []
    ensures AllTaken(refuse, ms) <==>
      AllTaken(refuse, ms[..|ms| - 1]) && WellFormed(ms[|ms| - 1]) && refuse(ms[|ms| - 1].id).None?
  {
    assert ms == ms[..|ms| - 1] + [ms[|ms| - 1]];
  }

  /**
   Without faults, a transaction reaches its commit exactly when every entry is well formed with a name
   the column takes, and no running total overflows.
   */
  lemma {:induction false} CommitsExactlyWhen(refuse: Refusal, s: Store, ms: seq<Metric>, exec: nat -> Option<PgError>)
    requires forall i :: exec(i).None?
    ensures ExecBatch(refuse, s, ms, exec).Open? <==> Storable(refuse, s, ms)
  {
    if ms == [] {
      assert forall id :: SumDeltas(ms, id) == 0;
    } else {
      var front, m := ms[..|ms| - 1], ms[|ms| - 1];
      CommitsExactlyWhen(refuse, s, front, exec);
      AllTakenSplit(refuse, ms);
      if ExecBatch(refuse, s, front, exec).Open? {
        var t := ExecBatch(refuse, s, front, exec).s;
        forall id ensures id != m.id ==> InInt64(s.Counter(id) + SumDeltas(ms, id)) {
          LastTotal(refuse, s, ms, exec, id);
        }
        LastTotal(refuse, s, ms, exec, m.id);
        assert ExecBatch(refuse, s, ms, exec) == ExecMetric(refuse, t, m, None);
      }
    }
  }

  /**
   On every validated batch and fault-free attempt: if the names are taken and no running total overflows,
   the database reaches the in-memory result; otherwise it is untouched and an error that is not retried
   comes back.
   */
  lemma BatchAgreement(refuse: Refusal, db: Store, ms: seq<Metric>, f: Faults)
    requires RefusesForGood(refuse) && Validated(ms) && f.Quiet() && forall i :: f.exec(i).None?
    ensures
      var (db', err) := BatchOnce(refuse, db, ms, f);
      if AllTaken(refuse, ms) && TotalsFit(db, ms) then db' == ApplyBatch(db, ms) && err.None?
      else db' == db && err.Some? && !IsRetriable(err.value)
           && (err == Some(OUT_OF_RANGE) || exists m :: m in ms && err == refuse(m.id))
  {
    CommitsExactlyWhen(refuse, db, ms, f.exec);
    assert forall m :: m in ms ==> ServerAccepts(m) && WellFormed(m);
    if ExecBatch(refuse, db, ms, f.exec).Open? {
      StoresAgree(refuse, db, ms, f.exec);
    } else {
      OnlyDataAborts(refuse, db, ms, f.exec);
    }
  }

  lemma {:induction false} OnlyDataAborts(refuse: Refusal, s: Store, ms: seq<Metric>, exec: nat -> Option<PgError>)
    requires forall i :: exec(i).None?
    requires forall m :: m in ms ==> WellFormed(m)
    requires ExecBatch(refuse, s, ms, exec).Aborted?
    ensures
      var err := ExecBatch(refuse, s, ms, exec).err;
      err == OUT_OF_RANGE || exists m :: m in ms && refuse(m.id) == Some(err)
  {
    var front, last := ms[..|ms| - 1], ms[|ms| - 1];
    assert last in ms;
    if ExecBatch(refuse, s, front, exec).Aborted? {
      OnlyDataAborts(refuse, s, front, exec);
      assert forall m :: m in front ==> m in ms;
    }
  }

  // ---- Retrying ----

  /** What a failing attempt reports: the first thing that goes wrong. */
  lemma AttemptErrors(refuse: Refusal, db: Store, ms: seq<Metric>, f: Faults, i: nat)
    ensures f.begin.Some? ==> BatchOnce(refuse, db, ms, f) == (db, f.begin)
    ensures f.begin.None? && f.prepareGauge.Some? ==> BatchOnce(refuse, db, ms, f) == (db, f.prepareGauge)
    ensures f.begin.None? && f.prepareGauge.None? && f.prepareCounter.Some? ==>
      BatchOnce(refuse, db, ms, f) == (db, f.prepareCounter)
    ensures
      && f.begin.None? && f.prepareGauge.None? && f.prepareCounter.None?
      && i < |ms| && ExecBatch(refuse, db, ms[..i], f.exec).Open? && WellFormed(ms[i]) && f.exec(i).Some? ==>
        BatchOnce(refuse, db, ms, f) == (db, f.exec(i))
    ensures
      && f.begin.None? && f.prepareGauge.None? && f.prepareCounter.None?
      && ExecBatch(refuse, db, ms, f.exec).Open? && f.commit.CommitFailed? ==>
        BatchOnce(refuse, db, ms, f).1 == Some(f.commit.err)
  {
    if i < |ms| && ExecBatch(refuse, db, ms[..i], f.exec).Open? && WellFormed(ms[i]) && f.exec(i).Some? {
      var front := ms[..i + 1];
      assert front[..i] == ms[..i];
      PrefixAborts(refuse, db, ms, i + 1, f.exec);
    }
  }

  /** SQLSTATE class 08. */
  predicate ConnectionLost(err: Option<PgError>) {
    err.Some? && err.value.SqlState? && |err.value.code| >= 2 && err.value.code[..2] == "08"
  }

  /**
   Some one to four attempts run. Exactly those that lose the connection are tried again, if the wait before
   the next one works; the last attempt's result, or the failed wait's error, is what the caller gets.
   */
  lemma AttemptsRun(refuse: Refusal, db: Store, ms: seq<Metric>, faults: nat -> Faults, pause: nat -> Option<PgError>)
    returns (n: nat)
    ensures 1 <= n <= 4
    ensures forall j: nat :: j < n - 1 ==>
      && ConnectionLost(BatchOnce(refuse, StateAt(Op(refuse, ms, faults), db, j), ms, faults(j)).1)
      && pause(j + 1).None?
    ensures
      var (db', err) := RetryFrom(Op(refuse, ms, faults), pause, db, 0);
      var last := BatchOnce(refuse, StateAt(Op(refuse, ms, faults), db, n - 1), ms, faults(n - 1));
      && db' == last.0
      && (if n < 4 && ConnectionLost(last.1) then pause(n).Some? && err == pause(n) else err == last.1)
  {
    var op := Op(refuse, ms, faults);
    n := RetryTrace(op, pause, db, 0);
    assert StateAt(op, db, 0) == db;
    forall j: nat | j < n - 1
      ensures ConnectionLost(BatchOnce(refuse, StateAt(op, db, j), ms, faults(j)).1) && pause(j + 1).None?
    {
      assert op(StateAt(op, db, j), j).1.Failed? && op(StateAt(op, db, j), j).1.retriable;
    }
  }

  /** The attempt's transaction was committed although its commit was reported as failed. */
  predicate CommitLost(refuse: Refusal, db: Store, ms: seq<Metric>, f: Faults) {
    && f.begin.None? && f.prepareGauge.None? && f.prepareCounter.None?
    && ExecBatch(refuse, db, ms, f.exec).Open? && f.commit.CommitFailed? && f.commit.applied
  }

  function Lost(refuse: Refusal, ms: seq<Metric>, faults: nat -> Faults): (Store, nat) -> bool {
    (db: Store, k: nat) => CommitLost(refuse, db, ms, faults(k))
  }

  /** One attempt applies the batch if it succeeds or loses its commit, and does nothing otherwise. */
  lemma OneAttempt(refuse: Refusal, db: Store, ms: seq<Metric>, f: Faults)
    ensures
      var (db', err) := BatchOnce(refuse, db, ms, f);
      && (err.None? ==> !CommitLost(refuse, db, ms, f))
      && db' == if err.None? || CommitLost(refuse, db, ms, f) then ApplyBatch(db, ms) else db
  {
    var t := ExecBatch(refuse, db, ms, f.exec);
    if t.Open? {
      StoresAgree(refuse, db, ms, f.exec);
    }
    var applied := ApplyBatch(db, ms);
    assert t.Open? ==> t.s == applied;
  }

  /** When it does, all totals are exact. */
  lemma OneAttemptAdds(refuse: Refusal, db: Store, ms: seq<Metric>, f: Faults, id: string)
    ensures
      var (db', err) := BatchOnce(refuse, db, ms, f);
      db'.Counter(id) == db.Counter(id) + if err.None? || CommitLost(refuse, db, ms, f) then SumDeltas(ms, id) else 0
  {
    if ExecBatch(refuse, db, ms, f.exec).Open? {
      OpenAddsExactly(refuse, db, ms, f.exec, id);
    }
  }

  /** Retrying applies the batch once for the success it reports and once for every lost commit, at most four times. */
  lemma RetriedBatchIterates(refuse: Refusal, db: Store, ms: seq<Metric>, faults: nat -> Faults,
      pause: nat -> Option<PgError>)
    ensures
      var n := EffectsFrom(Op(refuse, ms, faults), Lost(refuse, ms, faults), pause, db, 0);
      && n <= MAX_ATTEMPTS
      && RetryFrom(Op(refuse, ms, faults), pause, db, 0).0 == Times((s: Store) => ApplyBatch(s, ms), db, n)
  {
    var op, lost, effect := Op(refuse, ms, faults), Lost(refuse, ms, faults), (s: Store) => ApplyBatch(s, ms);
    forall s, k
      ensures op(s, k).1.Succeeded? ==> !lost(s, k)
      ensures op(s, k).0 == if op(s, k).1.Succeeded? || lost(s, k) then effect(s) else s
    {
      OneAttempt(refuse, s, ms, faults(k));
    }
    RetryEffects(op, lost, effect, pause, db, 0);
  }

  /** Each of these applications adds the sum of its deltas to a counter, no total ever wrapping. */
  lemma RetriedTotals(refuse: Refusal, db: Store, ms: seq<Metric>, faults: nat -> Faults,
      pause: nat -> Option<PgError>, id: string)
    ensures
      var n := EffectsFrom(Op(refuse, ms, faults), Lost(refuse, ms, faults), pause, db, 0);
      RetryFrom(Op(refuse, ms, faults), pause, db, 0).0.Counter(id) == db.Counter(id) + Multiple(n, SumDeltas(ms, id))
  {
    var op, lost, total := Op(refuse, ms, faults), Lost(refuse, ms, faults), (s: Store) => s.Counter(id) as int;
    forall s, k
      ensures op(s, k).1.Succeeded? ==> !lost(s, k)
      ensures total(op(s, k).0) == total(s) + if op(s, k).1.Succeeded? || lost(s, k) then SumDeltas(ms, id) else 0
    {
      OneAttempt(refuse, s, ms, faults(k));
      OneAttemptAdds(refuse, s, ms, faults(k), id);
    }
    RetryAdds(op, lost, total, SumDeltas(ms, id), pause, db, 0);
  }

  /** The batch changes no counter's total, though it may create counters and set gauges. */
  ghost predicate NetZero(ms: seq<Metric>) {
    forall id :: SumDeltas(ms, id) == 0
  }

  /** Such a batch does nothing the second time. */
  lemma NetZeroIdempotent(s: Store, ms: seq<Metric>)
    requires NetZero(ms)
    ensures ApplyBatch(ApplyBatch(s, ms), ms) == ApplyBatch(s, ms)
  {
    var once := ApplyBatch(s, ms);
    var twice := ApplyBatch(once, ms);
    forall id
      ensures id in once.counters <==> id in twice.counters
      ensures once.Counter(id) == twice.Counter(id)
      ensures Lookup(once.gauges, id) == Lookup(twice.gauges, id)
    {
      BatchClosedForm(s, ms, id);
      BatchClosedForm(once, ms, id);
      assert SumDeltas(ms, id) == 0;
    }
    SameStore(once, twice);
  }

  lemma SameStore(a: Store, b: Store)
    requires forall id :: id in a.counters <==> id in b.counters
    requires forall id :: a.Counter(id) == b.Counter(id)
    requires forall id :: Lookup(a.gauges, id) == Lookup(b.gauges, id)
    ensures a == b
  {
    forall id | id in a.counters ensures a.counters[id] == b.counters[id] {
      assert a.Counter(id) == b.Counter(id);
    }
    forall id ensures id in a.gauges <==> id in b.gauges
              ensures id in a.gauges ==> a.gauges[id] == b.gauges[id] {
      assert Lookup(a.gauges, id) == Lookup(b.gauges, id);
    }
    assert a.counters == b.counters && a.gauges == b.gauges;
  }

  lemma {:induction false} NetZeroTimes(s: Store, ms: seq<Metric>, n: nat)
    requires NetZero(ms) && n > 0
    ensures Times((s: Store) => ApplyBatch(s, ms), s, n) == ApplyBatch(s, ms)
    decreases n
  {
    var effect := (s: Store) => ApplyBatch(s, ms);
    if n == 1 {
      assert Times(effect, effect(s), 0) == effect(s);
    } else {
      NetZeroTimes(ApplyBatch(s, ms), ms, n - 1);
      NetZeroIdempotent(s, ms);
      assert Times(effect, s, n) == Times(effect, effect(s), n - 1);
    }
  }

  /**
   Retrying applies the batch exactly once on success and not at all on failure, exactly when no attempt
   loses its commit; or, for a batch that changes no total, when repeating it cannot be seen: after a
   reported success always, after a failure if even one application changes nothing.
   */
  lemma RetriedBatchExactlyOnce(refuse: Refusal, db: Store, ms: seq<Metric>, faults: nat -> Faults,
      pause: nat -> Option<PgError>)
    ensures
      var (db', err) := RetryFrom(Op(refuse, ms, faults), pause, db, 0);
      db' == (if err.None? then ApplyBatch(db, ms) else db) <==>
        || LostFrom(Op(refuse, ms, faults), Lost(refuse, ms, faults), pause, db, 0) == 0
        || (NetZero(ms) && (err.None? || ApplyBatch(db, ms) == db))
  {
    var lost := LostFrom(Op(refuse, ms, faults), Lost(refuse, ms, faults), pause, db, 0);
    var (db', err) := RetryFrom(Op(refuse, ms, faults), pause, db, 0);
    var n := lost + if err.None? then 1 else 0;
    var effect := (s: Store) => ApplyBatch(s, ms);
    RetriedBatchIterates(refuse, db, ms, faults, pause);
    assert Times(effect, db, 0) == db && Times(effect, db, 1) == effect(db) by {
      assert Times(effect, effect(db), 0) == effect(db);
    }
    if lost > 0 {
      if NetZero(ms) {
        NetZeroTimes(db, ms, n);
      } else {
        var id :| SumDeltas(ms, id) != 0;
        RetriedTotals(refuse, db, ms, faults, pause, id);
        CountsApart(db, ms, db', id, n, if err.None? then 1 else 0);
      }
    }
  }

  /** More applications than reported leave a counter with another total. */
  lemma CountsApart(db: Store, ms: seq<Metric>, db': Store, id: string, n: nat, expected: nat)
    requires SumDeltas(ms, id) != 0 && n > expected && expected <= 1
    requires db'.Counter(id) == db.Counter(id) + Multiple(n, SumDeltas(ms, id))
    ensures db' != if expected == 1 then ApplyBatch(db, ms) else db
  {
    MultipleGrows(n, SumDeltas(ms, id));
    if expected == 1 {
      BatchClosedForm(db, ms, id);
      assert InInt64(db.Counter(id) + SumDeltas(ms, id));
    }
  }

  /** For example a commit applied but reported as a connection error: the batch is applied again. */
  lemma LostCommitCountsTwice(refuse: Refusal, id: string, d: int64)
    requires InInt64(d + d) && refuse(id).None?
    ensures
      var lost := Faults(None, None, None, i => None, CommitFailed(SqlState("08006"), true));
      var fine := Faults(None, None, None, i => None, Committed);
      var faults := (k: nat) => if k == 0 then lost else fine;
      var (db, err) := RetryFrom(Op(refuse, [CounterMetric(id, d)], faults), k => None, EMPTY_STORE, 0);
      err.None? && db.Counter(id) == d + d
  {
    var lost := Faults(None, None, None, i => None, CommitFailed(SqlState("08006"), true));
    var fine := Faults(None, None, None, i => None, Committed);
    var ms := [CounterMetric(id, d)];
    var once := Store(map[], map[id := d]);
    assert ms[..|ms| - 1] == [];
    assert |GAUGE| != |COUNTER|;
    assert ExecBatch(refuse, EMPTY_STORE, ms, lost.exec) == Open(once);
    assert ExecBatch(refuse, once, ms, fine.exec) == Open(once.(counters := once.counters[id := d + d]));
    assert IsRetriable(SqlState("08006"));
    var faults := (k: nat) => if k == 0 then lost else fine;
    var op, pause := Op(refuse, ms, faults), (k: nat) => None;
    assert faults(0) == lost && faults(1) == fine;
    assert BatchOnce(refuse, EMPTY_STORE, ms, lost) == (once, Some(SqlState("08006")));
    assert BatchOnce(refuse, once, ms, fine) == (once.(counters := once.counters[id := d + d]), None);
    assert op(EMPTY_STORE, 0) == (once, Failed(SqlState("08006"), true));
    assert op(once, 1).0.Counter(id) == d + d && op(once, 1).1.Succeeded?;
    assert RetryFrom(op, pause, EMPTY_STORE, 0) == RetryFrom(op, pause, once, 1);
    assert RetryFrom(op, pause, once, 1) == (op(once, 1).0, None);
  }
}
