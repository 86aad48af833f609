/**
 The delivery protocol: polls, the report loop's swap and copy, four-attempt posts, a server that
 applies each request at most once but may do so late or lose the acknowledgement, and restores.
 */
module Delivery {
  import opened Wrappers
  import opened Metrics
  import opened Report

  datatype Request = InTransit | Applied | Dropped

  datatype Fate = Open | Acked | Failed

  /** One report cycle: what it took, the snapshot (of poll `version` or later), its requests and its end. */
  datatype Cycle = Cycle(
    ids: set<nat>, delta: int64, snapshot: map<string, Float64>, version: nat, requests: seq<Request>, fate: Fate)

  datatype Phase = Idle | Copying | Posting(awaiting: bool) | Failing

  /**
   `samples[i]` is what poll i + 1 wrote; `polls` of them have been counted; every poll writes the same
   `keys`. `pending` is pollCountDelta, `taken` the last swapped-out delta; the id sets say which polls
   the deltas stand for.
   */
  datatype State = State(
    keys: set<string>, samples: seq<map<string, Float64>>, polls: nat, gauges: map<string, Float64>,
    pending: int64, pendingIds: set<nat>,
    phase: Phase, taken: int64, takenIds: set<nat>,
    cycles: seq<Cycle>, server: Store)

  datatype Action =
    | PollWrite(sample: map<string, Float64>)
    | PollCount
    | HostWrite(values: map<string, Float64>)
    | Swap
    | Copy
    | Send
    | Apply(c: nat, k: nat)
    | Drop(c: nat, k: nat)
    | Succeed
    | Fail(retriable: bool)
    | LocalFail
    | Restore

  const MAX_SENDS := 4

  predicate Current(s: State) {
    s.phase.Posting? && s.cycles != []
  }

  function Last(s: State): Cycle
    requires s.cycles != []
  {
    s.cycles[|s.cycles| - 1]
  }

  predicate Enabled(s: State, a: Action) {
    match a
    case PollWrite(sample) => |s.samples| == s.polls && sample.Keys == s.keys
    case PollCount => |s.samples| == s.polls + 1
    case HostWrite(values) => values.Keys !! s.keys
    case Swap => s.phase.Idle?
    case Copy => s.phase.Copying?
    case Send => Current(s) && !s.phase.awaiting && |Last(s).requests| < MAX_SENDS
    case Apply(c, k) => c < |s.cycles| && k < |s.cycles[c].requests| && s.cycles[c].requests[k].InTransit?
    case Drop(c, k) => c < |s.cycles| && k < |s.cycles[c].requests| && s.cycles[c].requests[k].InTransit?
    case Succeed => Current(s) && s.phase.awaiting && Last(s).requests != [] &&
        Last(s).requests[|Last(s).requests| - 1].Applied?
    case Fail(_) => Current(s) && s.phase.awaiting
    case LocalFail => Current(s) && !s.phase.awaiting && Last(s).requests == []
    case Restore => s.phase.Failing?
  }

  function SetLast(s: State, c: Cycle): seq<Cycle>
    requires s.cycles != []
  {
    s.cycles[|s.cycles| - 1 := c]
  }

  function SetRequest(s: State, c: nat, k: nat, r: Request): seq<Cycle>
    requires c < |s.cycles| && k < |s.cycles[c].requests|
  {
    s.cycles[c := s.cycles[c].(requests := s.cycles[c].requests[k := r])]
  }

  /** The agent's side of a step, and the fate of requests. */
  function Moved(s: State, a: Action): State
    requires Enabled(s, a)
  {
    match a
    case PollWrite(sample) => s.(samples := s.samples + [sample], gauges := s.gauges + sample)
    case PollCount =>
      s.(polls := s.polls + 1, pending := Wrap(s.pending + 1), pendingIds := s.pendingIds + {s.polls + 1})
    case HostWrite(values) => s.(gauges := s.gauges + values)
    case Swap => s.(pending := 0, pendingIds := {}, phase := Copying, taken := s.pending, takenIds := s.pendingIds)
    case Copy =>
      s.(phase := Posting(false),
         cycles := s.cycles + [Cycle(s.takenIds, s.taken, s.gauges, |s.samples|, [], Open)])
    case Send =>
      s.(phase := Posting(true), cycles := SetLast(s, Last(s).(requests := Last(s).requests + [InTransit])))
    case Apply(c, k) => s.(cycles := SetRequest(s, c, k, Applied))
    case Drop(c, k) => s.(cycles := SetRequest(s, c, k, Dropped))
    case Succeed => s.(phase := Idle, cycles := SetLast(s, Last(s).(fate := Acked)), takenIds := {})
    case Fail(retriable) =>
      if retriable && |Last(s).requests| < MAX_SENDS then s.(phase := Posting(false))
      else s.(phase := Failing, cycles := SetLast(s, Last(s).(fate := Failed)))
    case LocalFail => s.(phase := Failing, cycles := SetLast(s, Last(s).(fate := Failed)))
    case Restore =>
      s.(phase := Idle, pending := Wrap(s.pending + s.taken), pendingIds := s.pendingIds + s.takenIds, takenIds := {})
  }

  /** The server's side: applying a request's batch. */
  function Received(host: seq<string>, s: State, a: Action): Store
    requires Enabled(s, a)
  {
    if a.Apply? then ApplyBatch(s.server, BuildBatch(s.cycles[a.c].snapshot, host, s.cycles[a.c].delta)) else s.server
  }

  function Next(host: seq<string>, s: State, a: Action): State
    requires Enabled(s, a)
  {
    Moved(s, a).(server := Received(host, s, a))
  }

  ghost predicate Init(s: State) {
    && s.samples == [] && s.polls == 0 && s.gauges.Keys !! s.keys
    && s.pending == 0 && s.pendingIds == {} && s.phase == Idle && s.takenIds == {} && s.cycles == []
  }

  ghost predicate Run(host: seq<string>, states: seq<State>, actions: seq<Action>) {
    && |states| == |actions| + 1
    && Init(states[0])
    && forall i :: 0 <= i < |actions| ==>
         Enabled(states[i], actions[i]) && states[i + 1] == Next(host, states[i], actions[i])
  }

  // ---- Accounting ----

  function CountApplied(rs: seq<Request>): nat {
    if rs == [] then 0 else CountApplied(rs[..|rs| - 1]) + if rs[|rs| - 1].Applied? then 1 else 0
  }

  /** How often the server applied a cycle's batch. */
  function Applications(c: Cycle): nat {
    CountApplied(c.requests)
  }

  /** Polls the cycle added on the server beyond the ones its acknowledgement stands for. */
  function Excess(c: Cycle): int {
    |c.ids| * (Applications(c) - if c.fate.Acked? then 1 else 0)
  }

  function ServerPolls(cs: seq<Cycle>): nat {
    if cs == [] then 0 else ServerPolls(cs[..|cs| - 1]) + |cs[|cs| - 1].ids| * Applications(cs[|cs| - 1])
  }

  function Extra(cs: seq<Cycle>): int {
    if cs == [] then 0 else Extra(cs[..|cs| - 1]) + Excess(cs[|cs| - 1])
  }

  function DeliveredCount(cs: seq<Cycle>): nat {
    if cs == [] then 0 else DeliveredCount(cs[..|cs| - 1]) + if cs[|cs| - 1].fate.Acked? then |cs[|cs| - 1].ids| else 0
  }

  lemma {:induction false} Balance(cs: seq<Cycle>)
    ensures ServerPolls(cs) == DeliveredCount(cs) + Extra(cs)
  {
    if cs != [] {
      Balance(cs[..|cs| - 1]);
      var c := cs[|cs| - 1];
      assert |c.ids| * (Applications(c) - 1) == |c.ids| * Applications(c) - |c.ids|;
    }
  }

  lemma {:induction false} CountBound(rs: seq<Request>)
    ensures CountApplied(rs) <= |rs|
    ensures CountApplied(rs) > 0 <==> exists k :: 0 <= k < |rs| && rs[k].Applied?
  {
    if rs != [] { CountBound(rs[..|rs| - 1]); }
  }

  /** Replacing a cycle by one with the same polls changes the sums by the difference of the two. */
  lemma {:induction false} SumsSet(cs: seq<Cycle>, i: nat, c: Cycle)
    requires i < |cs| && c.ids == cs[i].ids
    ensures ServerPolls(cs[i := c]) == ServerPolls(cs) + |c.ids| * Applications(c) - |c.ids| * Applications(cs[i])
    ensures DeliveredCount(cs[i := c]) ==
            DeliveredCount(cs) + (if c.fate.Acked? then |c.ids| else 0) - (if cs[i].fate.Acked? then |c.ids| else 0)
  {
    var n := |cs| - 1;
    if i == n {
      assert cs[i := c][..n] == cs[..n];
    } else {
      assert cs[i := c][..n] == cs[..n][i := c];
      SumsSet(cs[..n], i, c);
    }
  }

  lemma SumsSnoc(cs: seq<Cycle>, c: Cycle)
    ensures ServerPolls(cs + [c]) == ServerPolls(cs) + |c.ids| * Applications(c)
    ensures DeliveredCount(cs + [c]) == DeliveredCount(cs) + if c.fate.Acked? then |c.ids| else 0
  {
  }

  // ---- Invariants ----

  /** A poll is delivered when a cycle standing for it was acknowledged. */
  ghost predicate Delivered(cs: seq<Cycle>, id: nat) {
    exists c :: 0 <= c < |cs| && cs[c].fate.Acked? && id in cs[c].ids
  }

  /** The gauges hold everything a poll wrote. */
  ghost predicate Shows(gauges: map<string, Float64>, sample: map<string, Float64>) {
    forall k :: k in sample ==> k in gauges && gauges[k] == sample[k]
  }

  ghost predicate CycleGood(samples: seq<map<string, Float64>>, c: Cycle) {
    && c.delta == Wrap(|c.ids|)
    && |c.requests| <= MAX_SENDS
    && (c.fate.Acked? ==> Applications(c) > 0)
    && c.version <= |samples|
    && (forall id :: id in c.ids ==> 1 <= id <= c.version)
    && (c.version > 0 ==> Shows(c.snapshot, samples[c.version - 1]))
  }

  ghost predicate CyclesGood(s: State) {
    forall c :: 0 <= c < |s.cycles| ==> CycleGood(s.samples, s.cycles[c])
  }

  /** The shape of the current cycle. */
  ghost predicate Shape(s: State) {
    && (s.phase.Idle? ==> s.takenIds == {})
    && (!s.phase.Idle? ==> s.taken == Wrap(|s.takenIds|))
    && (s.phase.Posting? || s.phase.Failing? ==>
        s.cycles != [] && Last(s).ids == s.takenIds && Last(s).delta == s.taken)
    && (s.phase.Posting? ==> Last(s).fate.Open? && (s.phase.awaiting ==> Last(s).requests != []))
    && (s.phase.Failing? ==> Last(s).fate.Failed?)
  }

  ghost predicate Counted(s: State) {
    && s.pending == Wrap(|s.pendingIds|)
    && DeliveredCount(s.cycles) + |s.pendingIds| + |s.takenIds| == s.polls
  }

  ghost predicate ServerCounts(s: State, c0: int64) {
    s.server.Counter(POLL_COUNT) == Wrap(c0 + ServerPolls(s.cycles))
  }

  /** Every counted poll is pending, in flight or delivered, and only one of these. */
  ghost predicate Split(pending: set<nat>, taken: set<nat>, cs: seq<Cycle>, polls: nat) {
    && pending !! taken
    && (forall id: nat :: id in pending + taken ==> !Delivered(cs, id))
    && (forall id: nat :: (1 <= id <= polls) <==> (id in pending + taken || Delivered(cs, id)))
  }

  ghost predicate Partitioned(s: State) {
    Split(s.pendingIds, s.takenIds, s.cycles, s.polls)
  }

  ghost predicate Sampled(s: State) {
    && s.polls <= |s.samples| <= s.polls + 1
    && (s.samples != [] ==> Shows(s.gauges, s.samples[|s.samples| - 1]))
    && (forall i :: 0 <= i < |s.samples| ==> s.samples[i].Keys == s.keys)
  }

  ghost predicate AgentInv(s: State) {
    Shape(s) && Counted(s) && Partitioned(s) && Sampled(s) && CyclesGood(s)
  }

  ghost predicate Inv(s: State, c0: int64) {
    AgentInv(s) && ServerCounts(s, c0)
  }

  // ---- Each invariant is kept by every step ----

  lemma ShapeStep(s: State, a: Action)
    requires Shape(s) && s.pending == Wrap(|s.pendingIds|) && Enabled(s, a)
    ensures Shape(Moved(s, a))
  {
  }

  lemma ShowsAfter(gauges: map<string, Float64>, sample: map<string, Float64>, values: map<string, Float64>)
    ensures Shows(gauges + values, values)
    ensures Shows(gauges, sample) && sample.Keys !! values.Keys ==> Shows(gauges + values, sample)
  {
  }

  lemma SampledStep(s: State, a: Action)
    requires Sampled(s) && Enabled(s, a)
    ensures Sampled(Moved(s, a))
  {
    var s' := Moved(s, a);
    match a
    case PollWrite(sample) => ShowsAfter(s.gauges, map[], sample);
    case HostWrite(values) =>
      if s.samples != [] {
        assert s.samples[|s.samples| - 1].Keys == s.keys;
        ShowsAfter(s.gauges, s.samples[|s.samples| - 1], values);
      }
    case _ => assert s'.samples == s.samples && s'.gauges == s.gauges;
  }

  lemma WrapSum(x: int, y: int)
    ensures Wrap(Wrap(x) + Wrap(y)) == Wrap(x + y)
  {
    WrapStep(x, Wrap(y));
    WrapStep(y, x);
  }

  lemma {:induction false} CountSet(rs: seq<Request>, k: nat, r: Request)
    requires k < |rs| && !rs[k].Applied?
    ensures CountApplied(rs[k := r]) == CountApplied(rs) + if r.Applied? then 1 else 0
  {
    var n := |rs| - 1;
    if k == n {
      assert rs[k := r][..n] == rs[..n];
    } else {
      assert rs[k := r][..n] == rs[..n][k := r];
      CountSet(rs[..n], k, r);
    }
  }

  lemma CountedApply(s: State, a: Action)
    requires Counted(s) && a.Apply? && Enabled(s, a)
    ensures Counted(Moved(s, a))
    ensures ServerPolls(Moved(s, a).cycles) == ServerPolls(s.cycles) + |s.cycles[a.c].ids|
  {
    var before, after := s.cycles[a.c], Moved(s, a).cycles[a.c];
    CountSet(before.requests, a.k, Applied);
    SumsSet(s.cycles, a.c, after);
    OneMore(|after.ids|, Applications(before));
  }

  lemma OneMore(n: nat, k: nat)
    ensures n * (k + 1) == n * k + n
  {
  }

  lemma CountedDrop(s: State, a: Action)
    requires Counted(s) && Enabled(s, a) && a.Drop?
    ensures Counted(Moved(s, a))
    ensures ServerPolls(Moved(s, a).cycles) == ServerPolls(s.cycles)
  {
    var s' := Moved(s, a);
    CountSet(s.cycles[a.c].requests, a.k, Dropped);
    SumsSet(s.cycles, a.c, s'.cycles[a.c]);
  }

  lemma CountedSend(s: State, a: Action)
    requires Counted(s) && Enabled(s, a) && a.Send?
    ensures Counted(Moved(s, a))
    ensures ServerPolls(Moved(s, a).cycles) == ServerPolls(s.cycles)
  {
  }

  lemma CountedEnd(s: State, a: Action)
    requires Counted(s) && Shape(s) && Enabled(s, a)
    requires a.Succeed? || a.Fail? || a.LocalFail?
    ensures Counted(Moved(s, a))
    ensures ServerPolls(Moved(s, a).cycles) == ServerPolls(s.cycles)
  {
  }

  lemma CountedCopy(s: State, a: Action)
    requires Counted(s) && Enabled(s, a) && a.Copy?
    ensures Counted(Moved(s, a))
    ensures ServerPolls(Moved(s, a).cycles) == ServerPolls(s.cycles)
  {
    SumsSnoc(s.cycles, Last(Moved(s, a)));
  }

  lemma CountedPoll(s: State, a: Action)
    requires Counted(s) && Partitioned(s) && Enabled(s, a) && a.PollCount?
    ensures Counted(Moved(s, a))
    ensures ServerPolls(Moved(s, a).cycles) == ServerPolls(s.cycles)
  {
    assert s.polls + 1 !in s.pendingIds + s.takenIds;
    WrapStep(|s.pendingIds|, 1);
  }

  lemma CountedRestore(s: State, a: Action)
    requires Counted(s) && Shape(s) && s.pendingIds !! s.takenIds && Enabled(s, a) && a.Restore?
    ensures Counted(Moved(s, a))
    ensures ServerPolls(Moved(s, a).cycles) == ServerPolls(s.cycles)
  {
    WrapSum(|s.pendingIds|, |s.takenIds|);
    assert |s.pendingIds + s.takenIds| == |s.pendingIds| + |s.takenIds|;
  }

  lemma CountedTake(s: State, a: Action)
    requires Counted(s) && Shape(s) && Enabled(s, a)
    requires a.PollWrite? || a.HostWrite? || a.Swap?
    ensures Counted(Moved(s, a))
    ensures ServerPolls(Moved(s, a).cycles) == ServerPolls(s.cycles)
  {
  }

  /** Same polls and same acknowledgements: same deliveries. */
  ghost predicate SameDeliveries(cs: seq<Cycle>, cs': seq<Cycle>) {
    && |cs| == |cs'|
    && forall i :: 0 <= i < |cs| ==> cs[i].ids == cs'[i].ids && (cs[i].fate.Acked? <==> cs'[i].fate.Acked?)
  }

  lemma DeliveriesStay(cs: seq<Cycle>, cs': seq<Cycle>, id: nat)
    requires SameDeliveries(cs, cs')
    ensures Delivered(cs, id) <==> Delivered(cs', id)
  {
  }

  lemma DeliveriesSnoc(cs: seq<Cycle>, c: Cycle, id: nat)
    ensures Delivered(cs + [c], id) <==> Delivered(cs, id) || (c.fate.Acked? && id in c.ids)
  {
    var all := cs + [c];
    assert all[|cs|] == c;
    if i :| 0 <= i < |cs| && cs[i].fate.Acked? && id in cs[i].ids {
      assert all[i] == cs[i];
    }
  }

  lemma DeliveredStep(s: State, a: Action, id: nat)
    requires Shape(s) && Enabled(s, a)
    ensures Delivered(Moved(s, a).cycles, id) <==> Delivered(s.cycles, id) || (a.Succeed? && id in s.takenIds)
  {
    var s' := Moved(s, a);
    if a.Copy? {
      DeliveriesSnoc(s.cycles, Last(s'), id);
    } else if a.Succeed? {
      var front := s.cycles[..|s.cycles| - 1];
      assert s.cycles == front + [Last(s)] && s'.cycles == front + [Last(s')];
      DeliveriesSnoc(front, Last(s), id);
      DeliveriesSnoc(front, Last(s'), id);
    } else {
      DeliveriesStay(s.cycles, s'.cycles, id);
    }
  }

  lemma SplitSame(pending: set<nat>, taken: set<nat>, cs: seq<Cycle>, pending': set<nat>, taken': set<nat>,
      cs': seq<Cycle>, polls: nat)
    requires Split(pending, taken, cs, polls)
    requires pending' !! taken' && pending' + taken' == pending + taken
    requires forall id: nat :: Delivered(cs', id) <==> Delivered(cs, id)
    ensures Split(pending', taken', cs', polls)
  {
  }

  lemma SplitDeliver(pending: set<nat>, taken: set<nat>, cs: seq<Cycle>, cs': seq<Cycle>, polls: nat)
    requires Split(pending, taken, cs, polls)
    requires forall id: nat :: Delivered(cs', id) <==> Delivered(cs, id) || id in taken
    ensures Split(pending, {}, cs', polls)
  {
  }

  lemma SplitPoll(pending: set<nat>, taken: set<nat>, cs: seq<Cycle>, polls: nat)
    requires Split(pending, taken, cs, polls)
    ensures Split(pending + {polls + 1}, taken, cs, polls + 1)
  {
    var id := polls + 1;
    assert !(id in pending + taken || Delivered(cs, id));
    assert forall id: nat :: id in (pending + {polls + 1}) + taken <==> id in pending + taken || id == polls + 1;
  }

  lemma PartitionSucceed(s: State, a: Action)
    requires Shape(s) && Partitioned(s) && Enabled(s, a) && a.Succeed?
    ensures Partitioned(Moved(s, a))
  {
    forall id: nat ensures Delivered(Moved(s, a).cycles, id) <==> Delivered(s.cycles, id) || id in s.takenIds {
      DeliveredStep(s, a, id);
    }
    SplitDeliver(s.pendingIds, s.takenIds, s.cycles, Moved(s, a).cycles, s.polls);
  }

  lemma PartitionOther(s: State, a: Action)
    requires Shape(s) && Partitioned(s) && Enabled(s, a) && !a.Succeed? && !a.PollCount?
    ensures Partitioned(Moved(s, a))
  {
    var s' := Moved(s, a);
    forall id: nat ensures Delivered(s'.cycles, id) <==> Delivered(s.cycles, id) {
      DeliveredStep(s, a, id);
    }
    SplitSame(s.pendingIds, s.takenIds, s.cycles, s'.pendingIds, s'.takenIds, s'.cycles, s.polls);
  }

  lemma PartitionStep(s: State, a: Action)
    requires Shape(s) && Partitioned(s) && Enabled(s, a)
    ensures Partitioned(Moved(s, a))
  {
    match a
    case Succeed => PartitionSucceed(s, a);
    case PollCount => SplitPoll(s.pendingIds, s.takenIds, s.cycles, s.polls);
    case _ => PartitionOther(s, a);
  }

  lemma CyclesStep(s: State, a: Action)
    requires Shape(s) && Partitioned(s) && Sampled(s) && CyclesGood(s) && Enabled(s, a)
    ensures CyclesGood(Moved(s, a))
  {
    var s' := Moved(s, a);
    forall i | 0 <= i < |s'.cycles| ensures CycleGood(s'.samples, s'.cycles[i]) {
      if i < |s.cycles| {
        CycleStep(s, a, i);
      } else {
        assert forall id :: id in s.takenIds ==> id in s.pendingIds + s.takenIds;
      }
    }
  }

  lemma CycleStep(s: State, a: Action, i: nat)
    requires Shape(s) && Enabled(s, a) && i < |s.cycles| && CycleGood(s.samples, s.cycles[i])
    ensures i < |Moved(s, a).cycles| && CycleGood(Moved(s, a).samples, Moved(s, a).cycles[i])
  {
    var s' := Moved(s, a);
    var c, c' := s.cycles[i], s'.cycles[i];
    CountBound(c'.requests);
    if c'.requests != c.requests {
      if a.Send? {
        assert c'.requests[..|c'.requests| - 1] == c.requests;
      } else {
        CountSet(c.requests, a.k, if a.Apply? then Applied else Dropped);
      }
    }
    RecordGood(s.samples, s'.samples, c, c');
  }

  lemma RecordGood(samples: seq<map<string, Float64>>, samples': seq<map<string, Float64>>, c: Cycle, c': Cycle)
    requires CycleGood(samples, c) && samples <= samples'
    requires c' == c.(requests := c'.requests, fate := c'.fate)
    requires |c'.requests| <= MAX_SENDS && (c'.fate.Acked? ==> Applications(c') > 0)
    ensures CycleGood(samples', c')
  {
  }

  lemma CountedStep(s: State, a: Action)
    requires Counted(s) && Shape(s) && Partitioned(s) && Enabled(s, a)
    ensures Counted(Moved(s, a))
    ensures ServerPolls(Moved(s, a).cycles) == ServerPolls(s.cycles) + if a.Apply? then |s.cycles[a.c].ids| else 0
  {
    match a
    case Apply(_, _) => CountedApply(s, a);
    case Copy => CountedCopy(s, a);
    case Drop(_, _) => CountedDrop(s, a);
    case Send => CountedSend(s, a);
    case Succeed => CountedEnd(s, a);
    case Fail(_) => CountedEnd(s, a);
    case LocalFail => CountedEnd(s, a);
    case PollCount => CountedPoll(s, a);
    case Restore => CountedRestore(s, a);
    case _ => CountedTake(s, a);
  }

  /** Applying a batch adds its polls to the server's counter. */
  lemma ReceivedCounts(host: seq<string>, s: State, a: Action, n: nat)
    requires a.Apply? && Enabled(s, a) && s.cycles[a.c].delta == Wrap(n)
    ensures Received(host, s, a).Counter(POLL_COUNT) == Wrap(s.server.Counter(POLL_COUNT) + n)
  {
    var c := s.cycles[a.c];
    ReportAddsDelta(s.server, c.snapshot, host, c.delta, POLL_COUNT);
    WrapStep(n, s.server.Counter(POLL_COUNT));
  }

  lemma ServerStep(host: seq<string>, s: State, a: Action, c0: int64, added: nat)
    requires ServerCounts(s, c0) && Enabled(s, a)
    requires a.Apply? ==> added == |s.cycles[a.c].ids| && s.cycles[a.c].delta == Wrap(added)
    requires !a.Apply? ==> added == 0
    ensures Received(host, s, a).Counter(POLL_COUNT) == Wrap(c0 + (ServerPolls(s.cycles) + added))
  {
    if a.Apply? {
      ReceivedCounts(host, s, a, |s.cycles[a.c].ids|);
      WrapStep(c0 + ServerPolls(s.cycles), |s.cycles[a.c].ids|);
    }
  }

  lemma AgentStep(s: State, a: Action)
    requires AgentInv(s) && Enabled(s, a)
    ensures AgentInv(Moved(s, a))
  {
    ShapeStep(s, a);
    SampledStep(s, a);
    PartitionStep(s, a);
    CyclesStep(s, a);
    CountedStep(s, a);
  }

  /** Only the count on the server depends on the store. */
  lemma ServerApart(s: State, server: Store)
    requires AgentInv(s)
    ensures AgentInv(s.(server := server))
  {
  }

  lemma InvStep(host: seq<string>, s: State, a: Action, c0: int64)
    requires Inv(s, c0) && Enabled(s, a)
    ensures Inv(Next(host, s, a), c0)
  {
    AgentStep(s, a);
    CountedStep(s, a);
    if a.Apply? { assert CycleGood(s.samples, s.cycles[a.c]); }
    ServerStep(host, s, a, c0, if a.Apply? then |s.cycles[a.c].ids| else 0);
    ServerApart(Moved(s, a), Received(host, s, a));
  }

  lemma {:induction false} InvAlways(host: seq<string>, states: seq<State>, actions: seq<Action>, i: nat)
    requires Run(host, states, actions) && i < |states|
    ensures Inv(states[i], states[0].server.Counter(POLL_COUNT))
  {
    if i > 0 {
      InvAlways(host, states, actions, i - 1);
      InvStep(host, states[i - 1], actions[i - 1], states[0].server.Counter(POLL_COUNT));
      assert states[i - 1 + 1] == Next(host, states[i - 1], actions[i - 1]);
    }
  }

  // ---- Main results ----

  /** A cycle over-counts its polls at most threefold if acknowledged and fourfold if given up; never under-counts. */
  lemma ExcessBound(samples: seq<map<string, Float64>>, c: Cycle)
    requires CycleGood(samples, c)
    ensures 0 <= Excess(c) <= |c.ids| * (if c.fate.Acked? then 3 else 4)
    ensures Excess(c) == 0 <==> c.ids == {} || Applications(c) == if c.fate.Acked? then 1 else 0
  {
    CountBound(c.requests);
    var n, k := |c.ids|, Applications(c) - if c.fate.Acked? then 1 else 0;
    assert 0 <= k <= if c.fate.Acked? then 3 else 4;
    assert k == 0 || k == 1 || k == 2 || k == 3 || k == 4;
    assert n == 0 <==> c.ids == {};
  }

  lemma {:induction false} ExtraIs(samples: seq<map<string, Float64>>, cs: seq<Cycle>)
    requires forall c :: c in cs ==> CycleGood(samples, c)
    ensures Extra(cs) >= 0
    ensures Extra(cs) == 0 <==> forall c :: c in cs ==> c.ids == {} || Applications(c) == if c.fate.Acked? then 1 else 0
  {
    if cs != [] {
      var front, last := cs[..|cs| - 1], cs[|cs| - 1];
      assert cs == front + [last];
      ExtraIs(samples, front);
      ExcessBound(samples, last);
    }
  }

  /**
   Poll conservation, at every point of every run: what the server has counted plus what is pending
   plus what is in flight is the number of polls plus the over-count of repeated applications; the
   int64 variables are these numbers wrapped. Between cycles nothing is in flight.
   */
  lemma PollConservation(host: seq<string>, states: seq<State>, actions: seq<Action>, i: nat)
    requires Run(host, states, actions) && i < |states|
    ensures var s := states[i];
            && ServerPolls(s.cycles) + |s.pendingIds| + |s.takenIds| == s.polls + Extra(s.cycles)
            && (s.phase.Idle? ==> s.takenIds == {})
            && s.server.Counter(POLL_COUNT) == Wrap(states[0].server.Counter(POLL_COUNT) + ServerPolls(s.cycles))
            && s.pending == Wrap(|s.pendingIds|)
            && (forall c :: c in s.cycles ==> 0 <= Excess(c) <= |c.ids| * (if c.fate.Acked? then 3 else 4))
  {
    InvAlways(host, states, actions, i);
    var s := states[i];
    Balance(s.cycles);
    forall c | c in s.cycles
      ensures 0 <= Excess(c) <= |c.ids| * (if c.fate.Acked? then 3 else 4)
    {
      var j :| 0 <= j < |s.cycles| && s.cycles[j] == c;
      ExcessBound(s.samples, s.cycles[j]);
    }
  }

  /**
   The server's count is exact between cycles just when every non-empty batch was applied once if acknowledged
   and not at all if given up.
   */
  lemma ExactExactlyWhen(host: seq<string>, states: seq<State>, actions: seq<Action>, i: nat)
    requires Run(host, states, actions) && i < |states| && states[i].phase.Idle?
    ensures var s := states[i];
            ServerPolls(s.cycles) + |s.pendingIds| == s.polls <==>
            forall c :: c in s.cycles ==> c.ids == {} || Applications(c) == if c.fate.Acked? then 1 else 0
  {
    InvAlways(host, states, actions, i);
    PollConservation(host, states, actions, i);
    assert forall c :: c in states[i].cycles ==> CycleGood(states[i].samples, c);
    ExtraIs(states[i].samples, states[i].cycles);
    assert states[i].takenIds == {};
  }

  /** No poll is lost: each is waiting, in flight, or in an acknowledged batch the server has applied. */
  lemma NoPollLost(host: seq<string>, states: seq<State>, actions: seq<Action>, i: nat, id: nat)
    requires Run(host, states, actions) && i < |states| && 1 <= id <= states[i].polls
    ensures var s := states[i];
            || id in s.pendingIds || id in s.takenIds
            || exists c :: c in s.cycles && c.fate.Acked? && id in c.ids && Applications(c) > 0
  {
    InvAlways(host, states, actions, i);
    var s := states[i];
    if Delivered(s.cycles, id) {
      var c :| 0 <= c < |s.cycles| && s.cycles[c].fate.Acked? && id in s.cycles[c].ids;
      assert CycleGood(s.samples, s.cycles[c]) && s.cycles[c] in s.cycles;
    } else {
      assert id in s.pendingIds + s.takenIds;
    }
  }

  /** Each snapshot shows the gauges of a poll at least as recent as every poll counted in its delta. */
  lemma SnapshotFreshness(host: seq<string>, states: seq<State>, actions: seq<Action>, i: nat, c: Cycle)
    requires Run(host, states, actions) && i < |states| && c in states[i].cycles
    ensures forall id :: id in c.ids ==> 1 <= id <= c.version <= |states[i].samples|
    ensures c.version > 0 && c.version <= |states[i].samples| ==> Shows(c.snapshot, states[i].samples[c.version - 1])
  {
    InvAlways(host, states, actions, i);
    var j :| 0 <= j < |states[i].cycles| && states[i].cycles[j] == c;
    assert CycleGood(states[i].samples, states[i].cycles[j]);
  }

  /** A step that applies a report gives the server that cycle's gauges; no other step changes the store. */
  lemma GaugeStep(host: seq<string>, s: State, a: Action, id: string)
    requires Enabled(s, a)
    ensures Lookup(Next(host, s, a).server.gauges, id) ==
      if a.Apply? && id in ReportNames(host) then Some(Reading(s.cycles[a.c].snapshot, id))
      else Lookup(s.server.gauges, id)
  {
    if a.Apply? {
      ReportStoresSnapshot(s.server, s.cycles[a.c].snapshot, host, s.cycles[a.c].delta, id);
    }
  }

  /** From the request applied last on, the server's reported gauges are that cycle's snapshot. */
  lemma {:induction false} ServerShowsSnapshot(
      host: seq<string>, states: seq<State>, actions: seq<Action>, j: nat, i: nat, id: string)
    requires Run(host, states, actions) && j < i < |states| && actions[j].Apply? && id in ReportNames(host)
    requires forall m :: j < m < i ==> !actions[m].Apply?
    ensures actions[j].c < |states[j].cycles|
    ensures Lookup(states[i].server.gauges, id) == Some(Reading(states[j].cycles[actions[j].c].snapshot, id))
  {
    assert states[i - 1 + 1] == Next(host, states[i - 1], actions[i - 1]);
    GaugeStep(host, states[i - 1], actions[i - 1], id);
    if j < i - 1 {
      ServerShowsSnapshot(host, states, actions, j, i - 1, id);
    }
  }
}
