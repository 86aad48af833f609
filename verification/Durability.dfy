/**
 Updates, saves and crashes interleaved (handler.go: apply, then Save, then acknowledge; file_storage.go),
 over a file system of inodes and names, with store interval 0.
 */
module Durability {
  import opened Wrappers
  import opened Metrics
  import opened Snapshot
  import opened Http

  datatype File = File(bytes: seq<byte>, synced: bool)

  /**
   How far one Save has come: versions read, then the temporary file's inode, then its document and offset.
   The file is created, and so truncated, before the snapshot is known to be encodable.
   */
  datatype Phase =
    | Started
    | GotGauges(gv: nat)
    | Snapped(gv: nat, cv: nat)
    | Created(gv: nat, cv: nat, inode: nat)
    | Writing(gv: nat, cv: nat, inode: nat, doc: seq<byte>, off: nat)
    | Synced(gv: nat, cv: nat, inode: nat, doc: seq<byte>)

  /**
   `history` lists every content the repository has had; request r's update made version applied[r].
   `owed` is the newest version whose own Save has completed; `stable` is what the final name would
   be after a power failure, and `secured` what was owed when the directory was last flushed.
   */
  datatype State = State(
    history: seq<Store>,
    applied: map<nat, nat>,
    savers: map<nat, Phase>,
    saved: set<nat>,
    owed: nat,
    acked: nat,
    inodes: map<nat, File>,
    tmp: Option<nat>,
    final: Option<nat>,
    stable: Option<nat>,
    secured: nat)
  {
    function Version(): nat
      requires history != []
    {
      |history| - 1
    }
  }

  datatype Action =
    | Update(r: nat, ms: seq<Metric>)
    | StartSave(r: nat)
    | ReadGauges(r: nat)
    | ReadCounters(r: nat)
    | CreateTmp(r: nat, inode: nat)
    | Encode(r: nat, ms: seq<Metric>)
    | Write(r: nat, count: nat)
    | Sync(r: nat)
    | Rename(r: nat)
    | Fail(r: nat, removed: bool)
    | Ack(r: nat)
    | FlushDirectory

  /** Writing at an offset; a gap left by someone's truncation reads as zeros. */
  function WriteAt(content: seq<byte>, off: nat, data: seq<byte>): seq<byte> {
    if data == [] then content
    else
      var padded := if |content| < off then content + seq(off - |content|, _ => 0) else content;
      padded[..off] + data + (if off + |data| < |padded| then padded[off + |data|..] else [])
  }

  function Max(a: nat, b: nat): nat {
    if a < b then b else a
  }

  predicate Opens(s: State, inode: nat) {
    if s.tmp.Some? then inode == s.tmp.value else inode !in s.inodes
  }

  predicate UsesTmp(p: Phase) {
    p.Created? || p.Writing? || p.Synced?
  }

  ghost predicate Enabled(json: Json, s: State, a: Action) {
    match a
    case Update(r, _) => r !in s.applied
    case StartSave(r) => r in s.applied && r !in s.savers && r !in s.saved
    case ReadGauges(r) => r in s.savers && s.savers[r].Started?
    case ReadCounters(r) => r in s.savers && s.savers[r].GotGauges?
    case CreateTmp(r, inode) => r in s.savers && s.savers[r].Snapped? && Opens(s, inode)
    case Encode(r, ms) =>
      && r in s.savers && s.savers[r].Created?
      && s.savers[r].gv < |s.history| && s.savers[r].cv < |s.history|
      && Enumerates(ms, Store(s.history[s.savers[r].gv].gauges, s.history[s.savers[r].cv].counters))
      && json.encode(ms).Some?
    case Write(r, count) =>
      && r in s.savers && s.savers[r].Writing? && s.savers[r].inode in s.inodes
      && s.savers[r].off + count <= |s.savers[r].doc|
    case Sync(r) =>
      r in s.savers && s.savers[r].Writing? && s.savers[r].inode in s.inodes && s.savers[r].off == |s.savers[r].doc|
    case Rename(r) => r in s.savers && s.savers[r].Synced? && s.tmp.Some? && r in s.applied
    case Fail(r, _) => r in s.savers
    case Ack(r) => r in s.saved && r in s.applied
    case FlushDirectory => true
  }

  ghost function Next(json: Json, s: State, a: Action): State
    requires s.history != [] && Enabled(json, s, a)
  {
    match a
    case Update(r, ms) =>
      s.(history := s.history + [ApplyBatch(s.history[s.Version()], ms)], applied := s.applied[r := |s.history|])
    case StartSave(r) => s.(savers := s.savers[r := Started])
    case ReadGauges(r) => s.(savers := s.savers[r := GotGauges(s.Version())])
    case ReadCounters(r) => s.(savers := s.savers[r := Snapped(s.savers[r].gv, s.Version())])
    case CreateTmp(r, inode) =>
      s.(inodes := s.inodes[inode := File([], false)], tmp := Some(inode),
         savers := s.savers[r := Created(s.savers[r].gv, s.savers[r].cv, inode)])
    case Encode(r, ms) =>
      s.(savers := s.savers[r := Writing(s.savers[r].gv, s.savers[r].cv, s.savers[r].inode, json.encode(ms).value, 0)])
    case Write(r, count) =>
      var w := s.savers[r];
      var data := w.doc[w.off..w.off + count];
      s.(inodes := s.inodes[w.inode := File(WriteAt(s.inodes[w.inode].bytes, w.off, data), false)],
         savers := s.savers[r := w.(off := w.off + count)])
    case Sync(r) =>
      var w := s.savers[r];
      s.(inodes := s.inodes[w.inode := s.inodes[w.inode].(synced := true)],
         savers := s.savers[r := Synced(w.gv, w.cv, w.inode, w.doc)])
    case Rename(r) =>
      s.(final := s.tmp, tmp := None, savers := s.savers - {r}, saved := s.saved + {r}, owed := Max(s.owed,
          s.applied[r]))
    case Fail(r, removed) =>
      s.(savers := s.savers - {r}, tmp := if UsesTmp(s.savers[r]) && removed then None else s.tmp)
    case Ack(r) => s.(acked := Max(s.acked, s.applied[r]))
    case FlushDirectory => s.(stable := s.final, secured := s.owed)
  }

  /** The server has just started: from nothing, or restored from a whole snapshot. */
  ghost predicate Init(json: Json, s: State) {
    && |s.history| == 1 && s.applied == map[] && s.savers == map[] && s.saved == {}
    && s.owed == 0 && s.acked == 0 && s.secured == 0
    && s.stable == s.final
    && (s.tmp.Some? ==> s.tmp.value in s.inodes && s.tmp != s.final)
    && FileGood(json, s, s.final, 0)
  }

  /**
   A save does not disturb the others: it creates the temporary file only while no other save uses
   it, and renames it only if every other save that has begun to read already saw its update.
   */
  predicate Undisturbed(s: State, a: Action) {
    match a
    case CreateTmp(r, _) => forall q :: q in s.savers && q != r ==> !UsesTmp(s.savers[q])
    case Rename(r) =>
      forall q :: q in s.savers && q != r && !s.savers[q].Started? ==> r in s.applied && s.applied[r] <= s.savers[q].gv
    case _ => true
  }

  /** The coarser guard: saves do not overlap, one starts only when none is running. */
  predicate OneAtATime(s: State, a: Action) {
    a.StartSave? ==> s.savers == map[]
  }

  ghost predicate Run(json: Json, states: seq<State>, actions: seq<Action>) {
    && |states| == |actions| + 1
    && Init(json, states[0])
    && forall i {:trigger actions[i]} :: 0 <= i < |actions| ==> Follows(json, states[i], actions[i], states[i + 1])
  }

  ghost predicate Follows(json: Json, s: State, a: Action, s': State) {
    s.history != [] && Enabled(json, s, a) && s' == Next(json, s, a)
  }

  ghost predicate Calm(states: seq<State>, actions: seq<Action>)
    requires |states| == |actions| + 1
  {
    forall i {:trigger actions[i]} :: 0 <= i < |actions| ==> Undisturbed(states[i], actions[i])
  }

  ghost predicate NoOverlap(states: seq<State>, actions: seq<Action>)
    requires |states| == |actions| + 1
  {
    forall i {:trigger actions[i]} :: 0 <= i < |actions| ==> OneAtATime(states[i], actions[i])
  }

  /** What an update adds to the history stays there: the content before it with its batch's deltas and values. */
  lemma {:induction false} UpdateHeld(json: Json, states: seq<State>, actions: seq<Action>, i: nat, j: nat, id: string)
    requires Run(json, states, actions) && i < j < |states| && actions[i].Update?
    ensures
      var (s, r, ms) := (states[j], actions[i].r, actions[i].ms);
      && r in s.applied && 0 < s.applied[r] < |s.history|
      && var (before, after) := (s.history[s.applied[r] - 1], s.history[s.applied[r]]);
      && after.Counter(id) == Wrap(before.Counter(id) + SumDeltas(ms, id))
      && Lookup(after.gauges, id) == if LastValue(ms, id).Some? then LastValue(ms, id) else Lookup(before.gauges, id)
  {
    assert Follows(json, states[j - 1], actions[j - 1], states[j - 1 + 1]);
    if i == j - 1 {
      BatchClosedForm(states[i].history[states[i].Version()], actions[i].ms, id);
    } else {
      UpdateHeld(json, states, actions, i, j - 1, id);
    }
  }

  // ---- What a crash leaves, and what Restore makes of it ----

  function Restored(json: Json, s: State, name: Option<nat>): Option<Store> {
    if name.None? then Some(EMPTY_STORE)
    else if name.value !in s.inodes then None
    else
      var bytes := s.inodes[name.value].bytes;
      if bytes == [] then Some(EMPTY_STORE)
      else
        var ms := json.decode(bytes);
        if ms.None? then None else Some(RestoreAll(EMPTY_STORE, ms.value))
  }

  /** `t` is, map by map, something the repository held at version `from` or later. */
  ghost predicate HeldSince(s: State, from: nat, t: Store) {
    exists gv, cv :: from <= gv <= cv < |s.history| && t == Store(s.history[gv].gauges, s.history[cv].counters)
  }

  ghost predicate Documents(json: Json, bytes: seq<byte>, t: Store) {
    exists ms :: Enumerates(ms, t) && json.encode(ms) == Some(bytes)
  }

  /** The named file is a whole snapshot no older than `from`, or absent while nothing is owed. */
  ghost predicate FileGood(json: Json, s: State, name: Option<nat>, from: nat) {
    match name
    case None => from == 0 && s.history != [] && s.history[0] == EMPTY_STORE
    case Some(i) =>
      && i in s.inodes && s.inodes[i].synced
      && exists t :: HeldSince(s, from, t) && Documents(json, s.inodes[i].bytes, t)
  }

  lemma DocumentRestores(json: Json, bytes: seq<byte>, t: Store)
    requires json.Faithful() && Documents(json, bytes, t)
    ensures bytes != [] && json.decode(bytes).Some?
    ensures RestoreAll(EMPTY_STORE, json.decode(bytes).value) == t
  {
    var ms :| Enumerates(ms, t) && json.encode(ms) == Some(bytes);
    assert json.encode(ms).value == bytes;
    RestoreOverlays(EMPTY_STORE, ms, t);
    assert map[] + t.gauges == t.gauges && map[] + t.counters == t.counters;
  }

  /** A good file restores to something the repository held at or after `from`. */
  lemma GoodFileRestores(json: Json, s: State, name: Option<nat>, from: nat)
    requires json.Faithful() && FileGood(json, s, name, from)
    ensures Restored(json, s, name).Some? && HeldSince(s, from, Restored(json, s, name).value)
  {
    if name.None? {
      assert EMPTY_STORE == Store(s.history[0].gauges, s.history[0].counters);
    } else {
      var bytes := s.inodes[name.value].bytes;
      var t :| HeldSince(s, from, t) && Documents(json, bytes, t);
      DocumentRestores(json, bytes, t);
    }
  }

  // ---- The invariant ----

  ghost predicate SaverGood(json: Json, s: State, r: nat)
    requires r in s.savers && r in s.applied
  {
    var p := s.savers[r];
    && (!p.Started? ==> Max(s.applied[r], s.owed) <= p.gv < |s.history|)
    && (!p.Started? && !p.GotGauges? ==> p.gv <= p.cv < |s.history|)
    && (UsesTmp(p) ==> s.tmp == Some(p.inode) && p.inode in s.inodes)
    && (p.Created? ==> s.inodes[p.inode].bytes == [])
    && (p.Writing? || p.Synced? ==>
          Documents(json, p.doc, Store(s.history[p.gv].gauges, s.history[p.cv].counters)))
    && (p.Writing? ==> p.off <= |p.doc| && s.inodes[p.inode].bytes == p.doc[..p.off])
    && (p.Synced? ==> s.inodes[p.inode] == File(p.doc, true))
  }

  ghost predicate Counts(s: State) {
    && s.history != [] && s.owed < |s.history| && s.acked <= s.owed && s.secured <= s.owed
    && s.saved + s.savers.Keys <= s.applied.Keys
    && (forall r :: r in s.applied ==> s.applied[r] < |s.history|)
    && (forall r :: r in s.saved ==> s.applied[r] <= s.owed)
    && (forall r, q :: r in s.savers && q in s.savers && UsesTmp(s.savers[r]) && UsesTmp(s.savers[q]) ==> r == q)
  }

  predicate Names(s: State) {
    && (s.final.Some? ==> s.final.value in s.inodes)
    && (s.stable.Some? ==> s.stable.value in s.inodes)
    && (s.tmp.Some? ==> s.tmp.value in s.inodes && s.tmp != s.final && s.tmp != s.stable)
  }

  ghost predicate Savers(json: Json, s: State)
    requires Counts(s)
  {
    forall r :: r in s.savers ==> SaverGood(json, s, r)
  }

  ghost predicate Files(json: Json, s: State) {
    FileGood(json, s, s.final, s.owed) && FileGood(json, s, s.stable, s.secured)
  }

  ghost predicate Inv(json: Json, s: State) {
    Counts(s) && Names(s) && Savers(json, s) && Files(json, s)
  }

  lemma CountsStep(json: Json, s: State, a: Action)
    requires Counts(s) && Enabled(json, s, a) && Undisturbed(s, a)
    ensures Counts(Next(json, s, a))
  {
  }

  lemma NamesStep(json: Json, s: State, a: Action)
    requires Inv(json, s) && Enabled(json, s, a)
    ensures Names(Next(json, s, a))
  {
  }

  // ---- The running save ----

  /** The saver that moves, while it goes on. */
  lemma MoverGood(json: Json, s: State, a: Action)
    requires Inv(json, s) && Enabled(json, s, a) && Undisturbed(s, a) && Counts(Next(json, s, a))
    requires a.StartSave? || a.ReadGauges? || a.ReadCounters? || a.CreateTmp? || a.Encode? || a.Write? || a.Sync?
    ensures SaverGood(json, Next(json, s, a), a.r)
  {
  }

  /** The others. */
  lemma OtherGood(json: Json, s: State, a: Action, q: nat)
    requires Inv(json, s) && Enabled(json, s, a) && Undisturbed(s, a) && Counts(Next(json, s, a))
    requires q in s.savers && q in Next(json, s, a).savers
    requires a.Update? || a.FlushDirectory? || a.Ack? || a.r != q
    ensures SaverGood(json, Next(json, s, a), q)
  {
    assert SaverGood(json, s, q);
  }

  lemma SaversStep(json: Json, s: State, a: Action)
    requires Inv(json, s) && Enabled(json, s, a) && Undisturbed(s, a) && Counts(Next(json, s, a))
    ensures Savers(json, Next(json, s, a))
  {
    var s' := Next(json, s, a);
    forall q | q in s'.savers ensures SaverGood(json, s', q) {
      if a.Update? || a.FlushDirectory? || a.Ack? || a.r != q {
        OtherGood(json, s, a, q);
      } else {
        MoverGood(json, s, a);
      }
    }
  }

  lemma WriteAtEnd(doc: seq<byte>, off: nat, count: nat)
    requires off + count <= |doc|
    ensures WriteAt(doc[..off], off, doc[off..off + count]) == doc[..off + count]
  {
  }

  // ---- The two files ----

  /** A good file stays good while its inode is left alone and history grows. */
  lemma FileStays(json: Json, s: State, s': State, name: Option<nat>, from: nat)
    requires FileGood(json, s, name, from)
    requires s.history <= s'.history
    requires name.Some? ==> name.value in s'.inodes && s'.inodes[name.value] == s.inodes[name.value]
    ensures FileGood(json, s', name, from)
  {
  }

  /** Every write goes to the temporary file, which is neither of the two. */
  lemma InodesKept(json: Json, s: State, a: Action, i: nat)
    requires Inv(json, s) && Enabled(json, s, a)
    requires i in s.inodes && Some(i) != s.tmp
    ensures var s' := Next(json, s, a); i in s'.inodes && s'.inodes[i] == s.inodes[i]
  {
  }

  lemma StableKept(json: Json, s: State, a: Action)
    requires Inv(json, s) && Enabled(json, s, a)
    ensures FileGood(json, Next(json, s, a), s.stable, s.secured)
  {
    if s.stable.Some? {
      InodesKept(json, s, a, s.stable.value);
    }
    FileStays(json, s, Next(json, s, a), s.stable, s.secured);
  }

  lemma FinalKept(json: Json, s: State, a: Action)
    requires Inv(json, s) && Enabled(json, s, a)
    ensures FileGood(json, Next(json, s, a), s.final, s.owed)
  {
    if s.final.Some? {
      InodesKept(json, s, a, s.final.value);
    }
    FileStays(json, s, Next(json, s, a), s.final, s.owed);
  }

  /** The rename installs a whole snapshot that covers everything owed, this request included. */
  lemma FinalRenamed(json: Json, s: State, r: nat)
    requires Inv(json, s) && Enabled(json, s, Rename(r))
    ensures var s' := Next(json, s, Rename(r)); FileGood(json, s', s'.final, s'.owed)
  {
  }

  lemma FilesStep(json: Json, s: State, a: Action)
    requires Inv(json, s) && Enabled(json, s, a)
    ensures Files(json, Next(json, s, a))
  {
    StableKept(json, s, a);
    FinalKept(json, s, a);
    if a.Rename? {
      FinalRenamed(json, s, a.r);
    }
  }

  lemma InvStep(json: Json, s: State, a: Action)
    requires Inv(json, s) && Enabled(json, s, a) && Undisturbed(s, a)
    ensures Inv(json, Next(json, s, a))
  {
    CountsStep(json, s, a);
    NamesStep(json, s, a);
    SaversStep(json, s, a);
    FilesStep(json, s, a);
  }

  lemma {:induction false} InvAlways(json: Json, states: seq<State>, actions: seq<Action>, i: nat)
    requires Run(json, states, actions) && Calm(states, actions) && i < |states|
    ensures Inv(json, states[i])
  {
    if i > 0 {
      InvAlways(json, states, actions, i - 1);
      assert Undisturbed(states[i - 1], actions[i - 1]);
      InvStep(json, states[i - 1], actions[i - 1]);
      assert states[i - 1 + 1] == Next(json, states[i - 1], actions[i - 1]);
    }
  }

  lemma SecuredStep(json: Json, s: State, a: Action)
    requires Counts(s) && Enabled(json, s, a)
    ensures Next(json, s, a).secured >= if a.FlushDirectory? then s.owed else s.secured
  {
  }

  /** What was acknowledged before a directory flush is secured from then on. */
  lemma {:induction false} SecuredAfterFlush(json: Json, states: seq<State>, actions: seq<Action>, j: nat, i: nat)
    requires Run(json, states, actions) && Calm(states, actions) && j < i < |states| && actions[j].FlushDirectory?
    ensures states[j].acked <= states[i].secured
  {
    InvAlways(json, states, actions, i - 1);
    assert Follows(json, states[i - 1], actions[i - 1], states[i - 1 + 1]);
    SecuredStep(json, states[i - 1], actions[i - 1]);
    if j < i - 1 {
      SecuredAfterFlush(json, states, actions, j, i - 1);
    }
  }

  lemma HeldEarlier(s: State, from: nat, earlier: nat, t: Store)
    requires HeldSince(s, from, t) && earlier <= from
    ensures HeldSince(s, earlier, t)
  {
    var gv, cv :| from <= gv <= cv < |s.history| && t == Store(s.history[gv].gauges, s.history[cv].counters);
  }

  /**
   Acknowledged durability, for every run whose saves do not disturb each other and every point of it.
   After a process crash, restoring yields, map by map, a content held at or after the newest
   acknowledged update; after a power failure, one held at or after the newest update that was
   acknowledged before the directory was last flushed, and never a torn file.
   */
  lemma AcknowledgedUpdatesSurvive(json: Json, states: seq<State>, actions: seq<Action>, i: nat)
    requires json.Faithful() && Run(json, states, actions) && Calm(states, actions) && i < |states|
    ensures
      var s := states[i];
      && var t := Restored(json, s, s.final); t.Some? && HeldSince(s, s.acked, t.value)
    ensures
      var s := states[i];
      && var t := Restored(json, s, s.stable);
      && t.Some? && HeldSince(s, 0, t.value)
      && forall j :: 0 <= j < i && actions[j].FlushDirectory? ==> HeldSince(s, states[j].acked, t.value)
  {
    InvAlways(json, states, actions, i);
    var s := states[i];
    GoodFileRestores(json, s, s.final, s.owed);
    HeldEarlier(s, s.owed, s.acked, Restored(json, s, s.final).value);
    GoodFileRestores(json, s, s.stable, s.secured);
    var t := Restored(json, s, s.stable).value;
    HeldEarlier(s, s.secured, 0, t);
    forall j | 0 <= j < i && actions[j].FlushDirectory? ensures HeldSince(s, states[j].acked, t) {
      SecuredAfterFlush(json, states, actions, j, i);
      HeldEarlier(s, s.secured, states[j].acked, t);
    }
  }

  // ---- Saves that do not overlap do not disturb each other ----

  lemma OneSaverStep(json: Json, s: State, a: Action, s': State)
    requires |s.savers| <= 1 && Follows(json, s, a, s') && OneAtATime(s, a)
    ensures |s'.savers| <= 1 && Undisturbed(s, a)
  {
    forall r, q | r in s.savers && q in s.savers ensures r == q {
      assert s.savers.Keys - {r} == {} by {
        assert |s.savers.Keys - {r}| == |s.savers.Keys| - 1;
      }
    }
  }

  lemma {:induction false} OneSaver(json: Json, states: seq<State>, actions: seq<Action>, i: nat)
    requires Run(json, states, actions) && NoOverlap(states, actions) && i < |states|
    ensures |states[i].savers| <= 1
  {
    if i > 0 {
      OneSaver(json, states, actions, i - 1);
      var a := actions[i - 1];
      assert Follows(json, states[i - 1], a, states[i - 1 + 1]) && OneAtATime(states[i - 1], a);
      OneSaverStep(json, states[i - 1], a, states[i]);
    }
  }

  lemma NoOverlapIsCalm(json: Json, states: seq<State>, actions: seq<Action>)
    requires Run(json, states, actions) && NoOverlap(states, actions)
    ensures Calm(states, actions)
  {
    forall i | 0 <= i < |actions| ensures Undisturbed(states[i], actions[i]) {
      OneSaver(json, states, actions, i);
      assert Follows(json, states[i], actions[i], states[i + 1]) && OneAtATime(states[i], actions[i]);
      OneSaverStep(json, states[i], actions[i], states[i + 1]);
    }
  }
}
