/** The sender's worker pool: a bounded job queue, posting workers, and a one-place reply channel per call. */
module WorkerPool {
  import opened Wrappers

  datatype Job<B> = Job(call: nat, batch: B)

  datatype Worker<B, R> =
    | Idle
    | Posting(job: Job<B>)
    | Answering(job: Job<B>, result: R)
    | Gone

  /** A call of sendSnapshot: blocked on the queue, awaiting its reply, or back with a result. */
  datatype Phase<R> = Sending | Waiting | Returned(result: R)

  datatype Call<B, R> = Call(batch: B, phase: Phase<R>, reply: Option<R>)

  /** `posted` records what each call's job was posted as, and the outcome. */
  datatype State<B, R> = State(
    capacity: nat, queue: seq<Job<B>>, calls: map<nat, Call<B, R>>, workers: seq<Worker<B, R>>,
    posted: map<nat, (B, R)>, closed: bool)

  datatype Action<B, R> =
    | Begin(c: nat, batch: B)
    | Enqueue(c: nat)
    | Receive(w: nat)
    | Post(w: nat, result: R)
    | Reply(w: nat)
    | Return(c: nat)
    | Close
    | Exit(w: nat)

  predicate WorkerAction<B, R>(a: Action<B, R>) {
    a.Receive? || a.Post? || a.Reply? || a.Exit?
  }

  /** Close is called once, and no send follows it. */
  predicate Enabled<B, R>(s: State<B, R>, a: Action<B, R>) {
    match a
    case Begin(c, _) => c !in s.calls && !s.closed
    case Enqueue(c) => c in s.calls && s.calls[c].phase.Sending? && |s.queue| < s.capacity
    case Receive(w) => w < |s.workers| && s.workers[w].Idle? && s.queue != []
    case Post(w, _) => w < |s.workers| && s.workers[w].Posting?
    case Reply(w) =>
      && w < |s.workers| && s.workers[w].Answering? && s.workers[w].job.call in s.calls
      && s.calls[s.workers[w].job.call].reply.None?
    case Return(c) => c in s.calls && s.calls[c].phase.Waiting? && s.calls[c].reply.Some?
    case Close => !s.closed && forall c :: c in s.calls ==> !s.calls[c].phase.Sending?
    case Exit(w) => w < |s.workers| && s.workers[w].Idle? && s.closed && s.queue == []
  }

  function Next<B, R>(s: State<B, R>, a: Action<B, R>): State<B, R>
    requires Enabled(s, a)
  {
    match a
    case Begin(c, batch) => s.(calls := s.calls[c := Call(batch, Sending, None)])
    case Enqueue(c) =>
      s.(queue := s.queue + [Job(c, s.calls[c].batch)], calls := s.calls[c := s.calls[c].(phase := Waiting)])
    case Receive(w) => s.(queue := s.queue[1..], workers := s.workers[w := Posting(s.queue[0])])
    case Post(w, result) =>
      var job := s.workers[w].job;
      s.(workers := s.workers[w := Answering(job, result)], posted := s.posted[job.call := (job.batch, result)])
    case Reply(w) =>
      var c := s.workers[w].job.call;
      s.(workers := s.workers[w := Idle], calls := s.calls[c := s.calls[c].(reply := Some(s.workers[w].result))])
    case Return(c) => s.(calls := s.calls[c := s.calls[c].(phase := Returned(s.calls[c].reply.value), reply := None)])
    case Close => s.(closed := true)
    case Exit(w) => s.(workers := s.workers[w := Gone])
  }

  /** A configured size below one still gives one worker. */
  function PoolSize(configured: int): nat {
    if configured < 1 then 1 else configured
  }

  function Start<B, R>(configured: int): State<B, R> {
    State(PoolSize(configured), [], map[], seq(PoolSize(configured), _ => Idle), map[], false)
  }

  ghost predicate Run<B, R>(configured: int, states: seq<State<B, R>>, actions: seq<Action<B, R>>) {
    && |states| == |actions| + 1
    && states[0] == Start(configured)
    && forall i :: 0 <= i < |actions| ==> Enabled(states[i], actions[i]) && states[i + 1] == Next(states[i], actions[i])
  }

  // ---- Invariants ----

  predicate Holds<B, R>(w: Worker<B, R>, c: nat) {
    (w.Posting? || w.Answering?) && w.job.call == c
  }

  predicate Queued<B, R>(s: State<B, R>, c: nat) {
    exists i :: 0 <= i < |s.queue| && s.queue[i].call == c
  }

  predicate Held<B, R>(s: State<B, R>, c: nat) {
    exists w :: 0 <= w < |s.workers| && Holds(s.workers[w], c)
  }

  /** The job is its call's, and the call is waiting for it with an empty reply channel. */
  ghost predicate Owed<B, R>(s: State<B, R>, job: Job<B>) {
    && job.call in s.calls && s.calls[job.call].batch == job.batch
    && s.calls[job.call].phase.Waiting? && s.calls[job.call].reply.None?
  }

  ghost predicate JobsGood<B, R>(s: State<B, R>) {
    && (forall i :: 0 <= i < |s.queue| ==> Owed(s, s.queue[i]))
    && (forall w :: 0 <= w < |s.workers| && (s.workers[w].Posting? || s.workers[w].Answering?) ==>
          Owed(s, s.workers[w].job))
    && (forall w :: 0 <= w < |s.workers| && s.workers[w].Answering? ==>
          && s.workers[w].job.call in s.posted
          && s.posted[s.workers[w].job.call] == (s.workers[w].job.batch, s.workers[w].result))
  }

  /** Every job is in one place only. */
  ghost predicate OnePlace<B, R>(s: State<B, R>) {
    && (forall i, j :: 0 <= i < j < |s.queue| ==> s.queue[i].call != s.queue[j].call)
    && (forall v, w, c ::
          0 <= v < |s.workers| && 0 <= w < |s.workers| && Holds(s.workers[v], c) && Holds(s.workers[w], c) ==> v == w)
    && (forall i, w :: 0 <= i < |s.queue| && 0 <= w < |s.workers| ==> !Holds(s.workers[w], s.queue[i].call))
  }

  ghost predicate CallGood<B, R>(s: State<B, R>, c: nat)
    requires c in s.calls
  {
    var k := s.calls[c];
    && (k.phase.Sending? ==> k.reply.None? && !s.closed)
    && (k.phase.Waiting? && k.reply.None? ==> Queued(s, c) || Held(s, c))
    && (k.reply.Some? ==> c in s.posted && s.posted[c] == (k.batch, k.reply.value))
    && (k.phase.Returned? ==> k.reply.None? && c in s.posted && s.posted[c] == (k.batch, k.phase.result))
  }

  ghost predicate Inv<B, R>(s: State<B, R>) {
    && JobsGood(s) && OnePlace(s)
    && (forall c :: c in s.calls ==> CallGood(s, c))
    && |s.queue| <= s.capacity && |s.workers| == s.capacity > 0
    && (forall w :: 0 <= w < |s.workers| && s.workers[w].Gone? ==> s.closed && s.queue == [])
  }

  lemma EnqueueKeepsJobs<B, R>(s: State<B, R>, a: Action<B, R>)
    requires Inv(s) && Enabled(s, a) && a.Enqueue?
    ensures JobsGood(Next(s, a))
  {
  }

  /** The job a worker holds is held by no other, and is not queued. */
  lemma HeldAlone<B, R>(s: State<B, R>, w: nat)
    requires Inv(s) && w < |s.workers| && (s.workers[w].Posting? || s.workers[w].Answering?)
    ensures forall v :: 0 <= v < |s.workers| && v != w ==> !Holds(s.workers[v], s.workers[w].job.call)
    ensures forall i :: 0 <= i < |s.queue| ==> s.queue[i].call != s.workers[w].job.call
  {
  }

  lemma WorkerKeepsJobs<B, R>(s: State<B, R>, a: Action<B, R>)
    requires Inv(s) && Enabled(s, a) && (a.Post? || a.Reply?)
    ensures JobsGood(Next(s, a))
  {
    HeldAlone(s, a.w);
  }

  lemma ReceiveKeepsJobs<B, R>(s: State<B, R>, a: Action<B, R>)
    requires Inv(s) && Enabled(s, a) && a.Receive?
    ensures JobsGood(Next(s, a))
  {
  }

  lemma JobsStep<B, R>(s: State<B, R>, a: Action<B, R>)
    requires Inv(s) && Enabled(s, a)
    ensures JobsGood(Next(s, a))
  {
    match a
    case Enqueue(_) => EnqueueKeepsJobs(s, a);
    case Receive(_) => ReceiveKeepsJobs(s, a);
    case Post(_, _) => WorkerKeepsJobs(s, a);
    case Reply(_) => WorkerKeepsJobs(s, a);
    case _ =>
  }

  lemma EnqueueKeepsPlaces<B, R>(s: State<B, R>, a: Action<B, R>)
    requires Inv(s) && Enabled(s, a) && a.Enqueue?
    ensures OnePlace(Next(s, a))
  {
  }

  lemma ReceiveKeepsPlaces<B, R>(s: State<B, R>, a: Action<B, R>)
    requires Inv(s) && Enabled(s, a) && a.Receive?
    ensures OnePlace(Next(s, a))
  {
  }

  lemma WorkerKeepsPlaces<B, R>(s: State<B, R>, a: Action<B, R>)
    requires Inv(s) && Enabled(s, a) && (a.Post? || a.Reply? || a.Exit?)
    ensures OnePlace(Next(s, a))
  {
    var s' := Next(s, a);
    assert forall v, c :: 0 <= v < |s.workers| && Holds(s'.workers[v], c) ==> Holds(s.workers[v], c);
  }

  lemma PlaceStep<B, R>(s: State<B, R>, a: Action<B, R>)
    requires Inv(s) && Enabled(s, a)
    ensures OnePlace(Next(s, a))
  {
    match a
    case Enqueue(_) => EnqueueKeepsPlaces(s, a);
    case Receive(_) => ReceiveKeepsPlaces(s, a);
    case Post(_, _) => WorkerKeepsPlaces(s, a);
    case Reply(_) => WorkerKeepsPlaces(s, a);
    case Exit(_) => WorkerKeepsPlaces(s, a);
    case _ =>
  }

  /** A call is queued or held after a step exactly as before, except for the one the step moves. */
  lemma CallStep<B, R>(s: State<B, R>, a: Action<B, R>, c: nat)
    requires Inv(s) && Enabled(s, a) && c in Next(s, a).calls
    ensures CallGood(Next(s, a), c)
  {
    var s' := Next(s, a);
    if c in s.calls && CallGood(s, c) && s'.calls[c].phase.Waiting? && s'.calls[c].reply.None? {
      WhereStep(s, a, c);
    }
    match a
    case Post(w, _) => PostedStep(s, a, c);
    case _ =>
  }

  lemma WhereStep<B, R>(s: State<B, R>, a: Action<B, R>, c: nat)
    requires Inv(s) && Enabled(s, a) && c in s.calls && c in Next(s, a).calls
    requires Next(s, a).calls[c].phase.Waiting? && Next(s, a).calls[c].reply.None?
    ensures Queued(Next(s, a), c) || Held(Next(s, a), c)
  {
    var s' := Next(s, a);
    if a.Enqueue? && a.c == c {
      assert s'.queue[|s.queue|].call == c;
    } else if Queued(s, c) {
      var i :| 0 <= i < |s.queue| && s.queue[i].call == c;
      if a.Receive? {
        if i == 0 { assert Holds(s'.workers[a.w], c); } else { assert s'.queue[i - 1].call == c; }
      } else {
        assert s'.queue[i].call == c;
      }
    } else {
      assert CallGood(s, c);
      var v :| 0 <= v < |s.workers| && Holds(s.workers[v], c);
      assert Holds(s'.workers[v], c);
    }
  }

  lemma PostedStep<B, R>(s: State<B, R>, a: Action<B, R>, c: nat)
    requires Inv(s) && Enabled(s, a) && a.Post? && c in s.calls
    ensures s.workers[a.w].job.call == c ==> s.calls[c].phase.Waiting? && s.calls[c].reply.None?
  {
  }

  lemma InvStep<B, R>(s: State<B, R>, a: Action<B, R>)
    requires Inv(s) && Enabled(s, a)
    ensures Inv(Next(s, a))
  {
    JobsStep(s, a);
    PlaceStep(s, a);
    forall c | c in Next(s, a).calls ensures CallGood(Next(s, a), c) {
      CallStep(s, a, c);
    }
    assert a.Enqueue? ==> !s.closed by {
      if a.Enqueue? { assert CallGood(s, a.c); }
    }
  }

  lemma {:induction false} InvAlways<B, R>(configured: int, states: seq<State<B, R>>, actions: seq<Action<B, R>>,
      i: nat)
    requires Run(configured, states, actions) && i < |states|
    ensures Inv(states[i]) && |states[i].workers| == PoolSize(configured)
  {
    if i > 0 {
      InvAlways(configured, states, actions, i - 1);
      InvStep(states[i - 1], actions[i - 1]);
      assert states[i - 1 + 1] == Next(states[i - 1], actions[i - 1]);
    }
  }

  // ---- Main results ----

  /** Every call that has returned got the outcome of posting its own batch. */
  lemma OwnResult<B, R>(configured: int, states: seq<State<B, R>>, actions: seq<Action<B, R>>, i: nat, c: nat)
    requires Run(configured, states, actions) && i < |states|
    requires c in states[i].calls && states[i].calls[c].phase.Returned?
    ensures c in states[i].posted
    ensures states[i].posted[c] == (states[i].calls[c].batch, states[i].calls[c].phase.result)
  {
    InvAlways(configured, states, actions, i);
    assert CallGood(states[i], c);
  }

  /** A worker with a result can always hand it over at once: its call's reply channel is empty. */
  lemma NoWorkerBlocks<B, R>(configured: int, states: seq<State<B, R>>, actions: seq<Action<B, R>>, i: nat, w: nat)
    requires Run(configured, states, actions) && i < |states|
    requires w < |states[i].workers| && states[i].workers[w].Answering?
    ensures Enabled(states[i], Action.Reply(w))
  {
    InvAlways(configured, states, actions, i);
    assert Owed(states[i], states[i].workers[w].job);
  }

  /** Nothing still to be posted has been posted. */
  ghost predicate Unposted<B, R>(s: State<B, R>) {
    && s.posted.Keys <= s.calls.Keys
    && (forall c :: c in s.calls && s.calls[c].phase.Sending? ==> c !in s.posted)
    && (forall i :: 0 <= i < |s.queue| ==> s.queue[i].call !in s.posted)
    && (forall w :: 0 <= w < |s.workers| && s.workers[w].Posting? ==> s.workers[w].job.call !in s.posted)
  }

  lemma UnpostedStep<B, R>(s: State<B, R>, a: Action<B, R>)
    requires Inv(s) && Unposted(s) && Enabled(s, a)
    ensures Unposted(Next(s, a))
  {
    var s' := Next(s, a);
    if a.Post? {
      var c := s.workers[a.w].job.call;
      assert Holds(s.workers[a.w], c) && Owed(s, s.workers[a.w].job);
      forall i | 0 <= i < |s.queue| ensures s'.queue[i].call !in s'.posted {}
      forall v | 0 <= v < |s.workers| && s'.workers[v].Posting? ensures s'.workers[v].job.call !in s'.posted {
        assert v != a.w && Holds(s.workers[v], s.workers[v].job.call);
      }
    }
  }

  lemma {:induction false} UnpostedAlways<B, R>(
      configured: int, states: seq<State<B, R>>, actions: seq<Action<B, R>>, i: nat)
    requires Run(configured, states, actions) && i < |states|
    ensures Unposted(states[i])
  {
    if i > 0 {
      UnpostedAlways(configured, states, actions, i - 1);
      InvAlways(configured, states, actions, i - 1);
      UnpostedStep(states[i - 1], actions[i - 1]);
      assert states[i - 1 + 1] == Next(states[i - 1], actions[i - 1]);
    }
  }

  /** A call's batch is posted at most once. */
  lemma PostedAtMostOnce<B, R>(configured: int, states: seq<State<B, R>>, actions: seq<Action<B, R>>, i: nat)
    requires Run(configured, states, actions) && i < |actions| && actions[i].Post?
    ensures actions[i].w < |states[i].workers| && states[i].workers[actions[i].w].Posting?
    ensures states[i].workers[actions[i].w].job.call !in states[i].posted
  {
    UnpostedAlways(configured, states, actions, i);
    assert Enabled(states[i], actions[i]);
  }

  function PostsUnderWay<B, R>(ws: seq<Worker<B, R>>): nat {
    if ws == [] then 0 else (if ws[0].Posting? then 1 else 0) + PostsUnderWay(ws[1..])
  }

  lemma {:induction false} PostsBound<B, R>(ws: seq<Worker<B, R>>)
    ensures PostsUnderWay(ws) <= |ws|
  {
    if ws != [] { PostsBound(ws[1..]); }
  }

  /** No more posts run at once than the configured number of workers, and at least one worker exists. */
  lemma PostsLimited<B, R>(configured: int, states: seq<State<B, R>>, actions: seq<Action<B, R>>, i: nat)
    requires Run(configured, states, actions) && i < |states|
    ensures |states[i].workers| == if configured >= 1 then configured else 1
    ensures PostsUnderWay(states[i].workers) <= |states[i].workers|
  {
    InvAlways(configured, states, actions, i);
    PostsBound(states[i].workers);
  }

  /** When all workers are gone, so that Close returns, every call handed to the queue has been answered. */
  lemma CloseAnswersAll<B, R>(configured: int, states: seq<State<B, R>>, actions: seq<Action<B, R>>, i: nat, c: nat)
    requires Run(configured, states, actions) && i < |states|
    requires forall w :: 0 <= w < |states[i].workers| ==> states[i].workers[w].Gone?
    requires c in states[i].calls
    ensures states[i].closed && states[i].queue == []
    ensures states[i].calls[c].phase.Returned? || states[i].calls[c].reply.Some?
  {
    InvAlways(configured, states, actions, i);
    var s := states[i];
    assert s.workers[0].Gone?;
    assert CallGood(s, c);
    assert !Queued(s, c) && !Held(s, c);
  }

  // ---- Close always returns ----

  function Work<B, R>(w: Worker<B, R>): nat {
    match w
    case Idle => 1
    case Posting(_) => 3
    case Answering(_, _) => 2
    case Gone => 0
  }

  function TotalWork<B, R>(ws: seq<Worker<B, R>>): nat {
    if ws == [] then 0 else Work(ws[0]) + TotalWork(ws[1..])
  }

  function WorkLeft<B, R>(s: State<B, R>): nat {
    3 * |s.queue| + TotalWork(s.workers)
  }

  lemma {:induction false} TotalWorkSet<B, R>(ws: seq<Worker<B, R>>, i: nat, w: Worker<B, R>)
    requires i < |ws|
    ensures TotalWork(ws[i := w]) == TotalWork(ws) - Work(ws[i]) + Work(w)
  {
    if i == 0 {
      assert ws[i := w][1..] == ws[1..];
    } else {
      assert ws[i := w][1..] == ws[1..][i - 1 := w];
      TotalWorkSet(ws[1..], i - 1, w);
    }
  }

  /** After Close, while some worker is left, that worker can move. */
  lemma DrainProgress<B, R>(s: State<B, R>, w: nat, result: R) returns (a: Action<B, R>)
    requires Inv(s) && s.closed && w < |s.workers| && !s.workers[w].Gone?
    ensures Enabled(s, a) && WorkerAction(a) && a.w == w
  {
    match s.workers[w] {
      case Idle => a := if s.queue != [] then Receive(w) else Exit(w);
      case Posting(_) => a := Post(w, result);
      case Answering(job, _) =>
        assert Owed(s, job);
        a := Action.Reply(w);
    }
  }

  /** Every move of a worker leaves less work. */
  lemma WorkShrinks<B, R>(s: State<B, R>, a: Action<B, R>)
    requires Enabled(s, a) && WorkerAction(a)
    ensures WorkLeft(Next(s, a)) < WorkLeft(s)
  {
    TotalWorkSet(s.workers, a.w, Next(s, a).workers[a.w]);
  }

  /** After Close calls can only return. */
  lemma OnlyReturns<B, R>(s: State<B, R>, a: Action<B, R>)
    requires Inv(s) && s.closed && Enabled(s, a) && !WorkerAction(a)
    ensures Next(s, a).closed && WorkLeft(Next(s, a)) == WorkLeft(s)
  {
    forall c | c in s.calls ensures !s.calls[c].phase.Sending? {
      assert CallGood(s, c);
    }
  }

  function WorkerMoves<B, R>(actions: seq<Action<B, R>>): nat {
    if actions == [] then 0 else (if WorkerAction(actions[0]) then 1 else 0) + WorkerMoves(actions[1..])
  }

  /**
   However a run goes on after Close, the workers make no more moves than the work left allows; since each
   worker that is left can move, all are gone after so many moves, and Close returns.
   */
  lemma {:induction false} DrainBounded<B, R>(states: seq<State<B, R>>, actions: seq<Action<B, R>>)
    requires |states| == |actions| + 1 && Inv(states[0]) && states[0].closed
    requires forall i :: 0 <= i < |actions| ==>
        Enabled(states[i], actions[i]) && states[i + 1] == Next(states[i], actions[i])
    ensures WorkerMoves(actions) + WorkLeft(states[|actions|]) <= WorkLeft(states[0])
    decreases |actions|
  {
    if actions != [] {
      InvStep(states[0], actions[0]);
      assert states[0 + 1] == Next(states[0], actions[0]);
      if WorkerAction(actions[0]) {
        WorkShrinks(states[0], actions[0]);
      } else {
        OnlyReturns(states[0], actions[0]);
      }
      DrainBounded(states[1..], actions[1..]);
    }
  }
}
