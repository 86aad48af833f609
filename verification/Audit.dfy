/** The audit publisher: a queue of four events, two workers, drop on overflow, drain on close. */
module Audit {
  const WORKERS: nat := 2
  const CAPACITY: nat := 4

  /** A worker between events, delivering `e`, the accepted event `k`, to the observers still waiting, or gone. */
  datatype Worker<Event> = Free | Busy(k: nat, e: Event, waiting: set<nat>) | Exited

  /**
   Accepted events are numbered in the order they were queued; those from `taken` on are still queued.
   `told[(k, o)]` counts how often observer o was told of event k, and `heard[(k, o)]` is what it heard.
   */
  datatype State<Event> = State(
    observers: nat, notified: nat, dropped: nat, accepted: seq<Event>, taken: nat,
    workers: seq<Worker<Event>>, completed: set<nat>, told: multiset<(nat, nat)>, heard: map<(nat, nat), Event>,
    closed: bool)
  {
    function Queue(): seq<Event>
      requires taken <= |accepted|
    {
      accepted[taken..]
    }
  }

  datatype Action<Event> =
    | Notify(e: Event)
    | Close
    | Take(w: nat)
    | Tell(w: nat, o: nat)
    | Finish(w: nat)
    | Exit(w: nat)

  function Everyone(n: nat): (everyone: set<nat>)
    ensures forall o: nat :: o in everyone <==> o < n
    ensures |everyone| == n
  {
    if n == 0 then {} else Everyone(n - 1) + {n - 1}
  }

  predicate WorkerAction<Event>(a: Action<Event>) {
    a.Take? || a.Tell? || a.Finish? || a.Exit?
  }

  /** No Notify follows Close: the server has stopped handling requests by then. */
  predicate Enabled<Event>(s: State<Event>, a: Action<Event>) {
    && s.taken <= |s.accepted| && |s.workers| == WORKERS
    && match a
       case Notify(_) => !s.closed
       case Close => true
       case Take(w) => w < WORKERS && s.workers[w].Free? && s.taken < |s.accepted|
       case Tell(w, o) => w < WORKERS && s.workers[w].Busy? && o in s.workers[w].waiting
       case Finish(w) => w < WORKERS && s.workers[w].Busy? && s.workers[w].waiting == {}
       case Exit(w) => w < WORKERS && s.workers[w].Free? && s.closed && s.taken == |s.accepted|
  }

  function Next<Event>(s: State<Event>, a: Action<Event>): State<Event>
    requires Enabled(s, a)
  {
    match a
    case Notify(e) =>
      if |s.Queue()| < CAPACITY then s.(notified := s.notified + 1, accepted := s.accepted + [e])
      else s.(notified := s.notified + 1, dropped := s.dropped + 1)
    case Close => s.(closed := true)
    case Take(w) => s.(taken := s.taken + 1,
           workers := s.workers[w := Busy(s.taken, s.Queue()[0], Everyone(s.observers))])
    case Tell(w, o) =>
      var b := s.workers[w];
      s.(told := s.told + multiset{(b.k, o)}, heard := s.heard[(b.k, o) := b.e],
         workers := s.workers[w := Busy(b.k, b.e, b.waiting - {o})])
    case Finish(w) => s.(completed := s.completed + {s.workers[w].k}, workers := s.workers[w := Free])
    case Exit(w) => s.(workers := s.workers[w := Exited])
  }

  function Start<Event>(observers: nat): State<Event> {
    State(observers, 0, 0, [], 0, [Free, Free], {}, multiset{}, map[], false)
  }

  ghost predicate Run<Event>(observers: nat, states: seq<State<Event>>, actions: seq<Action<Event>>) {
    && |states| == |actions| + 1
    && states[0] == Start(observers)
    && forall i :: 0 <= i < |actions| ==> Enabled(states[i], actions[i]) && states[i + 1] == Next(states[i], actions[i])
  }

  // ---- Invariants ----

  predicate InProgress<Event>(s: State<Event>, k: nat)
    requires |s.workers| == WORKERS
  {
    (s.workers[0].Busy? && s.workers[0].k == k) || (s.workers[1].Busy? && s.workers[1].k == k)
  }

  function BusyCount<Event>(s: State<Event>): nat
    requires |s.workers| == WORKERS
  {
    (if s.workers[0].Busy? then 1 else 0) + (if s.workers[1].Busy? then 1 else 0)
  }

  /** How often observer `o` should have been told of event `k`. */
  function Due<Event>(s: State<Event>, k: nat, o: nat): nat
    requires |s.workers| == WORKERS
  {
    if o >= s.observers then 0
    else if k in s.completed then 1
    else if s.workers[0].Busy? && s.workers[0].k == k then (if o in s.workers[0].waiting then 0 else 1)
    else if s.workers[1].Busy? && s.workers[1].k == k then (if o in s.workers[1].waiting then 0 else 1)
    else 0
  }

  ghost predicate Inv<Event>(s: State<Event>) {
    && |s.workers| == WORKERS && s.taken <= |s.accepted| <= s.taken + CAPACITY
    && s.notified == s.dropped + |s.accepted|
    && s.taken == |s.completed| + BusyCount(s)
    && (s.workers[0].Busy? && s.workers[1].Busy? ==> s.workers[0].k != s.workers[1].k)
    && (forall k: nat :: k < s.taken <==> k in s.completed || InProgress(s, k))
    && (forall k: nat :: k in s.completed ==> !InProgress(s, k))
    && (forall w :: 0 <= w < WORKERS && s.workers[w].Busy? ==> s.workers[w].waiting <= Everyone(s.observers))
    && (forall w :: 0 <= w < WORKERS && s.workers[w].Exited? ==> s.closed && s.taken == |s.accepted|)
    && (forall k: nat, o: nat :: s.told[(k, o)] == Due(s, k, o))
  }

  /** What a worker delivers, and what an observer was told, is the event itself. */
  ghost predicate Heard<Event>(s: State<Event>) {
    && (forall w :: 0 <= w < |s.workers| && s.workers[w].Busy? ==>
          s.workers[w].k < |s.accepted| && s.workers[w].e == s.accepted[s.workers[w].k])
    && (forall p :: p in s.heard ==> p.0 < |s.accepted| && s.heard[p] == s.accepted[p.0])
    && (forall p :: p in s.told ==> p in s.heard)
  }

  lemma HeardStep<Event>(s: State<Event>, a: Action<Event>)
    requires Heard(s) && Enabled(s, a)
    ensures Heard(Next(s, a))
  {
    if a.Tell? {
      assert s.workers[a.w].e == s.accepted[s.workers[a.w].k];
    }
  }

  lemma TakeKeeps<Event>(s: State<Event>, a: Action<Event>)
    requires Inv(s) && Enabled(s, a) && a.Take?
    ensures Inv(Next(s, a))
  {
    var s' := Next(s, a);
    assert s.taken !in s.completed && !InProgress(s, s.taken);
    assert forall k: nat :: InProgress(s', k) <==> InProgress(s, k) || k == s.taken;
    forall k: nat, o: nat ensures s'.told[(k, o)] == Due(s', k, o) {
      assert s.told[(k, o)] == Due(s, k, o);
    }
  }

  lemma TellKeeps<Event>(s: State<Event>, a: Action<Event>)
    requires Inv(s) && Enabled(s, a) && a.Tell?
    ensures Inv(Next(s, a))
  {
    var s' := Next(s, a);
    var b := s.workers[a.w];
    assert InProgress(s, b.k);
    assert forall k: nat :: InProgress(s', k) <==> InProgress(s, k);
    forall k: nat, o: nat ensures s'.told[(k, o)] == Due(s', k, o) {
      assert s.told[(k, o)] == Due(s, k, o);
      assert s'.told[(k, o)] == s.told[(k, o)] + if (k, o) == (b.k, a.o) then 1 else 0;
    }
  }

  lemma FinishKeeps<Event>(s: State<Event>, a: Action<Event>)
    requires Inv(s) && Enabled(s, a) && a.Finish?
    ensures Inv(Next(s, a))
  {
    var s' := Next(s, a);
    var k0 := s.workers[a.w].k;
    assert InProgress(s, k0) && k0 !in s.completed;
    assert forall k: nat :: InProgress(s', k) <==> InProgress(s, k) && k != k0;
    FinishTold(s, a);
  }

  lemma FinishTold<Event>(s: State<Event>, a: Action<Event>)
    requires Inv(s) && Enabled(s, a) && a.Finish?
    ensures |Next(s, a).workers| == WORKERS
    ensures forall k: nat, o: nat :: Next(s, a).told[(k, o)] == Due(Next(s, a), k, o)
  {
    forall v | 0 <= v < WORKERS && s.workers[v].Busy? ensures s.workers[v].k !in s.completed {
      assert InProgress(s, s.workers[v].k);
    }
    forall k: nat, o: nat ensures Next(s, a).told[(k, o)] == Due(Next(s, a), k, o) {
      assert s.told[(k, o)] == Due(s, k, o);
      FinishDue(s, a, k, o);
    }
  }

  /** A finished event was told to everyone, so what is due does not change. */
  lemma FinishDue<Event>(s: State<Event>, a: Action<Event>, k: nat, o: nat)
    requires Enabled(s, a) && a.Finish?
    requires s.workers[0].Busy? && s.workers[1].Busy? ==> s.workers[0].k != s.workers[1].k
    requires forall v :: 0 <= v < WORKERS && s.workers[v].Busy? ==> s.workers[v].k !in s.completed
    ensures |Next(s, a).workers| == WORKERS && Due(Next(s, a), k, o) == Due(s, k, o)
  {
  }

  lemma QuietKeeps<Event>(s: State<Event>, a: Action<Event>)
    requires Inv(s) && Enabled(s, a) && (a.Notify? || a.Close? || a.Exit?)
    ensures Inv(Next(s, a))
  {
    var s' := Next(s, a);
    assert forall k: nat :: InProgress(s', k) <==> InProgress(s, k);
    forall k: nat, o: nat ensures s'.told[(k, o)] == Due(s', k, o) {
      assert s.told[(k, o)] == Due(s, k, o);
    }
  }

  lemma InvStep<Event>(s: State<Event>, a: Action<Event>)
    requires Inv(s) && Enabled(s, a)
    ensures Inv(Next(s, a))
  {
    match a
    case Take(_) => TakeKeeps(s, a);
    case Tell(_, _) => TellKeeps(s, a);
    case Finish(_) => FinishKeeps(s, a);
    case _ => QuietKeeps(s, a);
  }

  lemma {:induction false} InvAlways<Event>(observers: nat, states: seq<State<Event>>, actions: seq<Action<Event>>,
      i: nat)
    requires Run(observers, states, actions) && i < |states|
    ensures Inv(states[i]) && Heard(states[i]) && states[i].observers == observers
  {
    if i > 0 {
      InvAlways(observers, states, actions, i - 1);
      InvStep(states[i - 1], actions[i - 1]);
      HeardStep(states[i - 1], actions[i - 1]);
      assert states[i - 1 + 1] == Next(states[i - 1], actions[i - 1]);
    }
  }

  /** Observer `o` was told of event `k`, and what it heard is that event. */
  ghost predicate HeardOf<Event>(s: State<Event>, k: nat, o: nat) {
    k < |s.accepted| && (k, o) in s.heard && s.heard[(k, o)] == s.accepted[k]
  }

  /**
   Conservation, at every point of every run: notified = dropped + queued + in progress + completed,
   within the bounds; completed events were told to every observer exactly once, and no event more often.
   */
  lemma AuditConservation<Event>(observers: nat, states: seq<State<Event>>, actions: seq<Action<Event>>, i: nat)
    requires Run(observers, states, actions) && i < |states|
    ensures var s := states[i];
            && s.taken <= |s.accepted| && |s.workers| == WORKERS
            && s.notified == s.dropped + |s.Queue()| + BusyCount(s) + |s.completed|
            && |s.Queue()| <= 4 && BusyCount(s) <= 2
            && (forall k: nat, o: nat :: k in s.completed && o < observers ==> s.told[(k, o)] == 1 && HeardOf(s, k, o))
            && (forall k: nat, o: nat :: s.told[(k, o)] <= 1 && (s.told[(k, o)] == 1 ==> k < s.taken && o < observers))
  {
    InvAlways(observers, states, actions, i);
    var s := states[i];
    forall k: nat, o: nat
      ensures s.told[(k, o)] <= 1 && (s.told[(k, o)] == 1 ==> k < s.taken && o < observers)
      ensures k in s.completed && o < observers ==> s.told[(k, o)] == 1 && HeardOf(s, k, o)
    {
      assert s.told[(k, o)] == Due(s, k, o);
      assert Due(s, k, o) == 1 ==> k in s.completed || InProgress(s, k);
    }
  }

  predicate HasRoom<Event>(s: State<Event>) {
    |s.accepted| < s.taken + 4
  }

  /** The events notified in the first i steps that found room, in order. */
  function Admitted<Event>(states: seq<State<Event>>, actions: seq<Action<Event>>, i: nat): seq<Event>
    requires i <= |actions| && |states| == |actions| + 1
  {
    if i == 0 then []
    else
      Admitted(states, actions, i - 1)
      + if actions[i - 1].Notify? && HasRoom(states[i - 1]) then [actions[i - 1].e] else []
  }

  /** How many events notified in the first i steps found none. */
  function Refused<Event>(states: seq<State<Event>>, actions: seq<Action<Event>>, i: nat): nat
    requires i <= |actions| && |states| == |actions| + 1
  {
    if i == 0 then 0
    else Refused(states, actions, i - 1) + if actions[i - 1].Notify? && !HasRoom(states[i - 1]) then 1 else 0
  }

  /** The accepted events are the notified ones that found room, in order, and the others are the dropped ones. */
  lemma {:induction false} AcceptedAre<Event>(
      observers: nat, states: seq<State<Event>>, actions: seq<Action<Event>>, i: nat)
    requires Run(observers, states, actions) && i < |states|
    ensures states[i].accepted == Admitted(states, actions, i) && states[i].dropped == Refused(states, actions, i)
  {
    if i > 0 {
      AcceptedAre(observers, states, actions, i - 1);
      InvAlways(observers, states, actions, i - 1);
      assert states[i - 1 + 1] == Next(states[i - 1], actions[i - 1]);
    }
  }

  /** An event is dropped only when the queue is full. */
  lemma DropsOnlyWhenFull<Event>(s: State<Event>, a: Action<Event>)
    requires Inv(s) && Enabled(s, a)
    ensures Next(s, a).dropped != s.dropped <==> a.Notify? && |s.Queue()| == 4
  {
  }

  /**
   Once both workers have exited, nothing accepted is left: every accepted event reached every observer exactly
   once.
   */
  lemma DrainedOnExit<Event>(observers: nat, states: seq<State<Event>>, actions: seq<Action<Event>>, i: nat)
    requires Run(observers, states, actions) && i < |states|
    requires forall w :: 0 <= w < |states[i].workers| ==> states[i].workers[w].Exited?
    ensures var s := states[i];
            && s.notified == s.dropped + |s.completed| && |s.completed| == |s.accepted|
            && (forall k: nat, o: nat :: k < |s.accepted| && o < observers ==> s.told[(k, o)] == 1 && HeardOf(s, k, o))
  {
    InvAlways(observers, states, actions, i);
    var s := states[i];
    assert s.workers[0].Exited? && s.workers[1].Exited?;
    forall k: nat, o: nat | k < |s.accepted| && o < observers ensures s.told[(k, o)] == 1 && HeardOf(s, k, o) {
      assert k in s.completed || InProgress(s, k);
      assert s.told[(k, o)] == Due(s, k, o);
    }
  }

  // ---- Draining always finishes ----

  function Work<Event>(w: Worker<Event>): nat {
    match w
    case Free => 1
    case Busy(_, _, waiting) => 2 + |waiting|
    case Exited => 0
  }

  /** The moves that `q` queued events will take: three for each, and one for each observer told. */
  function QueueWork(q: nat, observers: nat): nat {
    if q == 0 then 0 else QueueWork(q - 1, observers) + observers + 3
  }

  function WorkLeft<Event>(s: State<Event>): nat
    requires |s.workers| == WORKERS && s.taken <= |s.accepted|
  {
    QueueWork(|s.accepted| - s.taken, s.observers) + Work(s.workers[0]) + Work(s.workers[1])
  }

  /** After Close some worker can move until both have exited, and every move leaves less work. */
  lemma DrainProgress<Event>(s: State<Event>) returns (a: Action<Event>)
    requires Inv(s) && s.closed && !(s.workers[0].Exited? && s.workers[1].Exited?)
    ensures Enabled(s, a) && WorkerAction(a)
  {
    var w := if s.workers[0].Exited? then 1 else 0;
    if s.workers[w].Free? {
      a := if s.taken < |s.accepted| then Take(w) else Exit(w);
    } else if s.workers[w].waiting == {} {
      a := Finish(w);
    } else {
      var o: nat :| o in s.workers[w].waiting;
      a := Tell(w, o);
    }
  }

  lemma WorkShrinks<Event>(s: State<Event>, a: Action<Event>)
    requires Inv(s) && Enabled(s, a) && WorkerAction(a)
    ensures WorkLeft(Next(s, a)) < WorkLeft(s)
  {
    match a
    case Take(_) =>
    case Tell(w, o) => TellShrinks(s, w, o);
    case _ => ExitShrinks(s, a);
  }

  lemma TellShrinks<Event>(s: State<Event>, w: nat, o: nat)
    requires Enabled(s, Action.Tell(w, o))
    ensures WorkLeft(Next(s, Action.Tell(w, o))) < WorkLeft(s)
  {
    var b := s.workers[w];
    assert |b.waiting - {o}| == |b.waiting| - 1;
  }

  lemma ExitShrinks<Event>(s: State<Event>, a: Action<Event>)
    requires Enabled(s, a) && (a.Finish? || a.Exit?)
    ensures WorkLeft(Next(s, a)) < WorkLeft(s)
  {
  }

  /** A run of workers alone is no longer than the work left when it began. */
  lemma {:induction false} DrainBounded<Event>(s: State<Event>, actions: seq<Action<Event>>, states: seq<State<Event>>)
    requires Inv(s) && |states| == |actions| + 1 && states[0] == s
    requires forall i :: 0 <= i < |actions| ==>
      WorkerAction(actions[i]) && Enabled(states[i], actions[i]) && states[i + 1] == Next(states[i], actions[i])
    ensures |actions| <= WorkLeft(s)
    decreases |actions|
  {
    if actions != [] {
      InvStep(s, actions[0]);
      WorkShrinks(s, actions[0]);
      assert states[0 + 1] == Next(states[0], actions[0]);
      DrainBounded(states[1], actions[1..], states[1..]);
    }
  }

  // ---- The publisher object ----

  /** The observers from `o` on. */
  ghost function Rest(n: nat, o: nat): set<nat> {
    Everyone(n) - Everyone(o)
  }

  lemma RestStep(n: nat, o: nat)
    requires o < n
    ensures o in Rest(n, o) && Rest(n, o) - {o} == Rest(n, o + 1)
  {
  }

  lemma RestEnds(n: nat)
    ensures Rest(n, 0) == Everyone(n) && Rest(n, n) == {}
  {
  }

  /** Of worker w's event only these observers are still waiting; nothing else moved but the telling. */
  ghost predicate Retold<Event>(s: State<Event>, s': State<Event>, w: nat, waiting: set<nat>)
    requires w < |s.workers| && s.workers[w].Busy?
  {
    && s'.workers == s.workers[w := Busy(s.workers[w].k, s.workers[w].e, waiting)]
    && s'.taken == s.taken && s'.accepted == s.accepted && s'.completed == s.completed
  }

  lemma RetoldAgain<Event>(s: State<Event>, mid: State<Event>, s': State<Event>, w: nat, before: set<nat>,
      after: set<nat>)
    requires w < |s.workers| && s.workers[w].Busy? && Retold(s, mid, w, before) && Retold(mid, s', w, after)
    ensures Retold(s, s', w, after)
  {
  }

  /**
   The publisher with its channel; `st` is the protocol state it stands for. Observers are registered before the
   first event.
   */
  class Publisher<Event> {
    const observers: nat
    var jobs: seq<Event>
    var closed: bool
    ghost var st: State<Event>

    ghost predicate Valid()
      reads this
    {
      Inv(st) && Heard(st) && st.observers == observers && jobs == st.Queue() && closed == st.closed
    }

    constructor (observers: nat)
      ensures Valid() && st == Start(observers)
    {
      this.observers := observers;
      jobs, closed := [], false;
      st := Start(observers);
    }

    /** Never blocks: the event is queued if there is room and dropped otherwise. */
    method Notify(e: Event)
      requires Valid() && !closed
      modifies this
      ensures Valid() && st == Next(old(st), Action.Notify(e))
      ensures jobs == if |old(jobs)| < 4 then old(jobs) + [e] else old(jobs)
    {
      InvStep(st, Action.Notify(e));
      HeardStep(st, Action.Notify(e));
      st := Next(st, Action.Notify(e));
      if |jobs| < CAPACITY {
        jobs := jobs + [e];
      }
    }

    method Close()
      requires Valid()
      modifies this
      ensures Valid() && st == Next(old(st), Action.Close)
    {
      InvStep(st, Action.Close);
      HeardStep(st, Action.Close);
      st := Next(st, Action.Close);
      closed := true;
    }

    /** A worker moves; the queue changes only when it takes an event. */
    ghost method Move(a: Action<Event>)
      requires Valid() && Enabled(st, a) && (a.Tell? || a.Finish?)
      modifies `st
      ensures Valid() && st == Next(old(st), a)
    {
      InvStep(st, a);
      HeardStep(st, a);
      st := Next(st, a);
    }

    method Receive(w: nat)
      requires Valid() && w < WORKERS && st.workers[w].Free? && jobs != []
      modifies this
      ensures Valid() && closed == old(closed) && jobs == old(jobs)[1..]
      ensures st.workers == old(st.workers)[w := Busy(old(st.taken), old(jobs)[0], Rest(observers, 0))]
      ensures st.accepted == old(st.accepted) && st.completed == old(st.completed)
    {
      RestEnds(observers);
      InvStep(st, Take(w));
      HeardStep(st, Take(w));
      st := Next(st, Take(w));
      jobs := jobs[1..];
    }

    /** The next observer in line is told. */
    method TellNext(w: nat, o: nat)
      requires Valid() && w < WORKERS && o < observers && st.workers[w].Busy? &&
          st.workers[w].waiting == Rest(observers, o)
      modifies `st
      ensures Valid() && Retold(old(st), st, w, Rest(observers, o + 1))
    {
      RestStep(observers, o);
      Move(Tell(w, o));
    }

    /** notifyObservers: every observer is told of the event once. */
    method NotifyObservers(w: nat)
      requires Valid() && w < WORKERS && st.workers[w].Busy? && st.workers[w].waiting == Rest(observers, 0)
      modifies `st
      ensures Valid() && Retold(old(st), st, w, {})
    {
      RestEnds(observers);
      var o := 0;
      while o < observers
        invariant o <= observers && Valid()
        invariant Retold(old(st), st, w, Rest(observers, o))
      {
        ghost var mid := st;
        TellNext(w, o);
        RetoldAgain(old(st), mid, st, w, Rest(observers, o), Rest(observers, o + 1));
        o := o + 1;
      }
    }

    ghost method Done(w: nat)
      requires Valid() && w < WORKERS && st.workers[w].Busy? && st.workers[w].waiting == {}
      modifies `st
      ensures Valid() && st.workers == old(st.workers)[w := Free] && st.accepted == old(st.accepted)
      ensures st.completed == old(st.completed) + {old(st.workers[w].k)}
    {
      Move(Finish(w));
    }

    /** One turn of a worker's loop: the oldest event goes to every observer, once each. */
    method WorkOnce(w: nat)
      requires Valid() && w < WORKERS && st.workers[w].Free? && jobs != []
      modifies this
      ensures Valid() && st.workers == old(st.workers) && closed == old(closed)
      ensures jobs == old(jobs)[1..] && st.accepted == old(st.accepted)
      ensures st.completed == old(st.completed) + {old(st.taken)}
      ensures forall o: nat :: o < observers ==>
        st.told[(old(st.taken), o)] == 1
        && (old(st.taken), o) in st.heard && st.heard[(old(st.taken), o)] == old(jobs)[0]
    {
      ghost var k := st.taken;
      assert st.accepted[k] == jobs[0];
      Receive(w);
      NotifyObservers(w);
      Done(w);
      assert st.workers == old(st.workers);
      forall o: nat | o < observers
        ensures st.told[(k, o)] == 1 && (k, o) in st.heard && st.heard[(k, o)] == old(jobs)[0]
      {
        assert st.told[(k, o)] == Due(st, k, o);
        assert (k, o) in st.told;
      }
    }

    /** After Close, a worker left to itself empties the queue and every accepted event is completed. */
    method Drain(w: nat)
      requires Valid() && closed && w < WORKERS && st.workers == [Free, Free]
      modifies this
      ensures Valid() && jobs == [] && |st.completed| == |st.accepted| && st.accepted == old(st.accepted)
      ensures forall k: nat, o: nat :: k < |st.accepted| && o < observers ==> st.told[(k, o)] == 1 && HeardOf(st, k, o)
    {
      while jobs != []
        invariant Valid() && closed && st.workers == [Free, Free] && st.accepted == old(st.accepted)
        decreases |jobs|
      {
        WorkOnce(w);
      }
      forall k: nat, o: nat | k < |st.accepted| && o < observers ensures st.told[(k, o)] == 1 && HeardOf(st, k, o) {
        assert k in st.completed;
        assert st.told[(k, o)] == Due(st, k, o);
      }
    }
  }
}
