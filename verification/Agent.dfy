/** The agent's polling and reporting functions, run one after another. */
module Agent {
  import opened Wrappers
  import opened Metrics
  import opened Report
  import opened Retry

  datatype SendError = Transport(retriable: bool) | Status(code: nat) | Invalid(reason: string)

  predicate IsRetriableStatus(code: nat) {
    code in {500, 502, 503, 504}
  }

  /** How one post goes: whether the server applies the batch, and what the agent hears. */
  datatype Answer = Answer(applied: bool, reply: Reply)
  datatype Reply = NoReply(retriable: bool) | Replied(code: nat)

  /** The server answers 200 only after applying. */
  ghost predicate Truthful(net: nat -> Answer) {
    forall k :: net(k).reply == Replied(200) ==> net(k).applied
  }

  function PostOnce(batch: seq<Metric>, net: nat -> Answer): (Store, nat) -> (Store, Attempt<SendError>) {
    (server: Store, k: nat) =>
      (if net(k).applied then ApplyBatch(server, batch) else server,
       match net(k).reply
       case NoReply(retriable) => Failed(Transport(retriable), retriable)
       case Replied(code) => if code == 200 then Succeeded else Failed(Status(code), IsRetriableStatus(code)))
  }

  /** The answers after which the agent tries again. */
  predicate TriedAgain(r: Reply) {
    || (r.NoReply? && r.retriable)
    || (r.Replied? && (r.code == 500 || r.code == 502 || r.code == 503 || r.code == 504))
  }

  /** What the first n requests leave on the server, each applied or not. */
  function AfterRequests(server: Store, batch: seq<Metric>, net: nat -> Answer, n: nat): Store {
    if n == 0 then server
    else
      var before := AfterRequests(server, batch, net, n - 1);
      if net(n - 1).applied then ApplyBatch(before, batch) else before
  }

  /** Exactly n requests are sent: every one but the last is tried again, and the last is not, or is the fourth. */
  ghost predicate Sent(net: nat -> Answer, n: nat) {
    && 1 <= n <= 4
    && (forall j: nat :: j < n - 1 ==> TriedAgain(net(j).reply))
    && (n < 4 ==> !TriedAgain(net(n - 1).reply))
  }

  function ErrorFor(r: Reply): Option<SendError> {
    match r
    case NoReply(retriable) => Some(Transport(retriable))
    case Replied(code) => if code == 200 then None else Some(Status(code))
  }

  /** Some such number of requests gives this outcome. */
  ghost predicate Ran(server: Store, batch: seq<Metric>, net: nat -> Answer, after: Store, err: Option<SendError>) {
    exists n: nat ::
      n > 0 && Sent(net, n) && after == AfterRequests(server, batch, net, n) && err == ErrorFor(net(n - 1).reply)
  }

  lemma {:induction false} RequestStates(batch: seq<Metric>, net: nat -> Answer, server: Store, k: nat)
    ensures StateAt(PostOnce(batch, net), server, k) == AfterRequests(server, batch, net, k)
  {
    if k > 0 {
      RequestStates(batch, net, server, k - 1);
    }
  }

  lemma AgainExactlyWhen(batch: seq<Metric>, net: nat -> Answer, server: Store, k: nat)
    ensures var a := PostOnce(batch, net)(server, k).1; a.Failed? && a.retriable <==> TriedAgain(net(k).reply)
  {
    var r := net(k).reply;
    assert r.Replied? ==> (IsRetriableStatus(r.code) <==>
        r.code == 500 || r.code == 502 || r.code == 503 || r.code == 504);
  }

  /** Which requests are sent, what they leave on the server, and what the caller hears. */
  lemma PostRuns(batch: seq<Metric>, net: nat -> Answer, server: Store) returns (n: nat)
    ensures Sent(net, n)
    ensures RetryFrom(PostOnce(batch, net), (k: nat) => None, server, 0) ==
      (AfterRequests(server, batch, net, n), ErrorFor(net(n - 1).reply))
  {
    var op, pause := PostOnce(batch, net), (k: nat) => None;
    n := RetryTrace(op, pause, server, 0);
    forall j: nat | j < n - 1 ensures TriedAgain(net(j).reply) {
      assert op(StateAt(op, server, j), j).1.Failed? && op(StateAt(op, server, j), j).1.retriable;
      AgainExactlyWhen(batch, net, StateAt(op, server, j), j);
    }
    AgainExactlyWhen(batch, net, StateAt(op, server, n - 1), n - 1);
    RequestStates(batch, net, server, n);
    assert StateAt(op, server, 0) == server;
  }

  /** The post succeeds exactly if some request is answered 200 and all before it are tried again. */
  lemma AcknowledgedExactlyWhen(net: nat -> Answer, n: nat)
    requires Sent(net, n)
    ensures net(n - 1).reply == Replied(200) <==>
      exists k: nat :: k < 4 && net(k).reply == Replied(200) && forall j: nat :: j < k ==> TriedAgain(net(j).reply)
  {
    if k: nat :| k < 4 && net(k).reply == Replied(200) && forall j: nat :: j < k ==> TriedAgain(net(j).reply) {
      var last := net(n - 1).reply;
      assert k == n - 1;
    }
  }

  /** PostMetricsBatch: nothing is sent for an empty or invalid batch. */
  method PostMetricsBatch(batch: seq<Metric>, server: Store, net: nat -> Answer)
    returns (after: Store, err: Option<SendError>)
    ensures batch == [] ==> after == server && err.None?
    ensures (exists m :: m in batch && !AgentAccepts(m)) ==> after == server && err.Some? && err.value.Invalid?
    ensures batch != [] && (forall m :: m in batch ==> AgentAccepts(m)) ==>
      && (after, err) == RetryFrom(PostOnce(batch, net), (k: nat) => None, server, 0)
      && Ran(server, batch, net, after, err)
      && (err.None? <==>
          exists k: nat :: k < 4 && net(k).reply == Replied(200) && forall j: nat :: j < k ==> TriedAgain(net(j).reply))
  {
    if |batch| == 0 {
      return server, None;
    }
    var i := 0;
    while i < |batch|
      invariant i <= |batch|
      invariant forall m :: m in batch[..i] ==> AgentAccepts(m)
    {
      var m := batch[i];
      assert m in batch && batch[..i + 1] == batch[..i] + [m];
      if m.mtype == GAUGE {
        if m.value.None? || m.delta.Some? {
          return server, Some(Invalid("gauge metric requires value, delta must be omitted"));
        }
        if !IsFinite(m.value.value) {
          return server, Some(Invalid("invalid float value"));
        }
      } else if m.mtype == COUNTER {
        if m.delta.None? || m.value.Some? {
          return server, Some(Invalid("counter metric requires delta, value must be omitted"));
        }
      } else {
        return server, Some(Invalid("unsupported metric type"));
      }
      if Blank(m.id) {
        return server, Some(Invalid("missing metric id"));
      }
      i := i + 1;
    }
    assert batch[..i] == batch;
    after, err := RunRetry(PostOnce(batch, net), (k: nat) => None, server);
    ghost var n := PostRuns(batch, net, server);
    AcknowledgedExactlyWhen(net, n);
  }

  /** Whatever the network does, a post applies the batch between 0 and 4 times, and at least once when it succeeds. */
  lemma PostIterates(batch: seq<Metric>, net: nat -> Answer, server: Store) returns (n: nat)
    requires Truthful(net)
    ensures n <= MAX_ATTEMPTS
    ensures var (after, err) := RetryFrom(PostOnce(batch, net), (k: nat) => None, server, 0);
            after == Times((s: Store) => ApplyBatch(s, batch), server, n) && (err.None? ==> n > 0)
  {
    var op, effect := PostOnce(batch, net), (s: Store) => ApplyBatch(s, batch);
    forall s, k ensures (op(s, k).0 == s && op(s, k).1.Failed?) || op(s, k).0 == effect(s) {
      assert net(k).reply == Replied(200) ==> net(k).applied;
    }
    n := RetryIterates(op, effect, (k: nat) => None, server, 0);
  }

  lemma {:induction false} TimesCounter(effect: Store -> Store, batch: seq<Metric>, server: Store, n: nat, id: string)
    requires forall s :: effect(s) == ApplyBatch(s, batch)
    ensures Times(effect, server, n).Counter(id) == Wrap(server.Counter(id) + Multiple(n, SumDeltas(batch, id)))
    decreases n
  {
    if n > 0 {
      var c, d := server.Counter(id), SumDeltas(batch, id);
      TimesCounter(effect, batch, effect(server), n - 1, id);
      CounterClosedForm(server, batch, id);
      WrapStep(c + d, Multiple(n - 1, d));
    }
  }

  /** Applying a batch again changes no gauge. */
  lemma {:induction false} TimesGauge(effect: Store -> Store, batch: seq<Metric>, server: Store, n: nat, id: string)
    requires forall s :: effect(s) == ApplyBatch(s, batch)
    ensures Lookup(Times(effect, server, n).gauges, id) ==
      Lookup((if n > 0 then ApplyBatch(server, batch) else server).gauges, id)
    decreases n
  {
    if n > 0 {
      var next := effect(server);
      TimesGauge(effect, batch, next, n - 1, id);
      GaugeClosedForm(server, batch, id);
      GaugeClosedForm(next, batch, id);
    }
  }

  lemma ReportSum(snapshot: map<string, Float64>, host: seq<string>, delta: int64)
    ensures SumDeltas(BuildBatch(snapshot, host, delta), POLL_COUNT) == delta
  {
    var batch := BuildBatch(snapshot, host, delta);
    NoDeltas(snapshot, ReportNames(host), POLL_COUNT);
    assert batch[..|batch| - 1] == GaugeEntries(snapshot, ReportNames(host));
  }

  /** Posts a batch; `n` is how often the server's PollCount grew by the batch's deltas. */
  method Deliver(batch: seq<Metric>, server: Store, net: nat -> Answer)
      returns (after: Store, err: Option<SendError>, ghost n: nat)
    requires Truthful(net) && batch != []
    ensures n <= MAX_ATTEMPTS && (err.None? ==> n > 0)
    ensures after.Counter(POLL_COUNT) == Wrap(server.Counter(POLL_COUNT) + n * SumDeltas(batch, POLL_COUNT))
    ensures forall id :: Lookup(after.gauges, id) == Lookup((if n > 0 then ApplyBatch(server,
        batch) else server).gauges, id)
  {
    after, err := PostMetricsBatch(batch, server, net);
    if forall m :: m in batch ==> AgentAccepts(m) {
      n := PostIterates(batch, net, server);
      TimesCounter((s: Store) => ApplyBatch(s, batch), batch, server, n, POLL_COUNT);
      MultipleIs(n, SumDeltas(batch, POLL_COUNT));
      forall id ensures Lookup(after.gauges, id) == Lookup((if n > 0 then ApplyBatch(server,
          batch) else server).gauges, id) {
        TimesGauge((s: Store) => ApplyBatch(s, batch), batch, server, n, id);
      }
    } else {
      n := 0;
    }
  }

  class Agent {
    var pollCountDelta: int64
    var gaugeValues: map<string, Float64>
    const host: seq<string>

    constructor (host: seq<string>)
      ensures pollCountDelta == 0 && gaugeValues == map n | n in host :: ZERO
      ensures this.host == host
    {
      pollCountDelta := 0;
      this.host := host;
      gaugeValues := map n | n in host :: ZERO;
    }

    /** Gauges first, then the count. */
    method PollOnce(sample: map<string, Float64>)
      modifies this
      ensures gaugeValues == old(gaugeValues) + sample && pollCountDelta == Wrap(old(pollCountDelta) + 1)
    {
      gaugeValues := gaugeValues + sample;
      pollCountDelta := Wrap(pollCountDelta + 1);
    }

    /** The count is swapped out first, then the gauges are copied. */
    method TakeReportSnapshot() returns (snapshot: map<string, Float64>, delta: int64)
      modifies this
      ensures snapshot == old(gaugeValues) && gaugeValues == old(gaugeValues)
      ensures delta == old(pollCountDelta) && pollCountDelta == 0
    {
      delta := pollCountDelta;
      pollCountDelta := 0;
      snapshot := gaugeValues;
    }

    /**
     One report cycle. Acknowledged, it empties the pending count; failed, it puts the count back. Either
     way the server's PollCount grew by the delta some n <= 4 times, n >= 1 if acknowledged, and if it did the
     server's reported gauges are those the agent held.
     */
    method ReportCycle(server: Store, net: nat -> Answer) returns (after: Store, err: Option<SendError>, ghost n: nat)
      requires Truthful(net)
      modifies this
      ensures pollCountDelta == if err.None? then 0 else old(pollCountDelta)
      ensures gaugeValues == old(gaugeValues)
      ensures n <= 4 && (err.None? ==> n > 0)
      ensures after.Counter("PollCount") == Wrap(server.Counter("PollCount") + n * old(pollCountDelta))
      ensures forall id ::
        Lookup(after.gauges, id) ==
        if n > 0 && id in ReportNames(host) then Some(Reading(old(gaugeValues), id)) else Lookup(server.gauges, id)
    {
      var snapshot, delta := TakeReportSnapshot();
      var batch := BuildBatch(snapshot, host, delta);
      ReportSum(snapshot, host, delta);
      after, err, n := Deliver(batch, server, net);
      forall id
        ensures Lookup(after.gauges, id) ==
          if n > 0 && id in ReportNames(host) then Some(Reading(snapshot, id)) else Lookup(server.gauges, id)
      {
        ReportStoresSnapshot(server, snapshot, host, delta, id);
      }
      if err.Some? {
        pollCountDelta := Wrap(pollCountDelta + delta);
      }
    }
  }
}
