/**
 The assumptions of the durability theorem are needed: runs in which an acknowledged update is lost
 because saves disturb each other, or because the directory was not flushed.
 */
module DurabilityLimits {
  import opened Wrappers
  import opened Metrics
  import opened Snapshot
  import opened Http
  import opened Durability

  datatype Trace = Trace(states: seq<State>, actions: seq<Action>)

  /** A run that ends in `s`; in a calm one saves do not disturb each other. */
  ghost predicate Ends(json: Json, t: Trace, calm: bool, s: State) {
    && Run(json, t.states, t.actions) && (calm ==> Calm(t.states, t.actions))
    && t.states[|t.actions|] == s
  }

  lemma Step(json: Json, t: Trace, calm: bool, s: State, a: Action) returns (t': Trace, s': State)
    requires Ends(json, t, calm, s) && s.history != [] && Enabled(json, s, a)
    requires calm ==> Undisturbed(s, a)
    ensures s' == Next(json, s, a) && Ends(json, t', calm, s')
  {
    s' := Next(json, s, a);
    t' := Trace(t.states + [s'], t.actions + [a]);
    forall i | 0 <= i < |t'.actions|
      ensures Follows(json, t'.states[i], t'.actions[i], t'.states[i + 1])
    {
      if i < |t.actions| {
        assert Follows(json, t.states[i], t.actions[i], t.states[i + 1]);
      }
    }
  }

  lemma CalmInv(json: Json, t: Trace, s: State)
    requires Ends(json, t, true, s)
    ensures Inv(json, s)
  {
    InvAlways(json, t.states, t.actions, |t.actions|);
  }

  lemma Relax(json: Json, t: Trace, s: State)
    requires Ends(json, t, true, s)
    ensures Ends(json, t, false, s)
  {
  }

  lemma {:induction false} UnusedInode(used: set<nat>) returns (n: nat)
    ensures n !in used && forall m :: m in used ==> m < n
  {
    if used == {} {
      n := 0;
    } else {
      var m :| m in used;
      var k := UnusedInode(used - {m});
      n := k + m + 1;
      assert forall x :: x in used ==> x == m || x in used - {m};
    }
  }

  lemma WriteAndSync(json: Json, t: Trace, calm: bool, s: State, q: nat) returns (t': Trace, s': State)
    requires Ends(json, t, calm, s) && s.history != [] && q in s.savers && s.savers[q].Writing? && s.savers[q].off == 0
    requires s.savers[q].inode in s.inodes && s.inodes[s.savers[q].inode].bytes == []
    ensures Ends(json, t', calm, s')
    ensures
      var w := s.savers[q];
      s' == s.(inodes := s.inodes[w.inode := File(w.doc, true)],
               savers := s.savers[q := Synced(w.gv, w.cv, w.inode, w.doc)])
  {
    var doc := s.savers[q].doc;
    WriteAtEnd(doc, 0, |doc|);
    assert doc[..0] == [] && doc[0..|doc|] == doc && doc[..|doc|] == doc;
    t', s' := Step(json, t, calm, s, Write(q, |doc|));
    t', s' := Step(json, t', calm, s', Sync(q));
  }

  /** A save that has read the repository creates, writes and syncs its file. */
  lemma WriteOut(json: Json, t: Trace, calm: bool, s: State, q: nat, inode: nat, ms: seq<Metric>, doc: seq<byte>)
    returns (t': Trace, s': State)
    requires Ends(json, t, calm, s) && s.history != [] && Enabled(json, s, CreateTmp(q, inode))
    requires calm ==> Undisturbed(s, CreateTmp(q, inode))
    requires s.savers[q].gv < |s.history| && s.savers[q].cv < |s.history| && json.encode(ms) == Some(doc)
    requires Enumerates(ms, Store(s.history[s.savers[q].gv].gauges, s.history[s.savers[q].cv].counters))
    ensures Ends(json, t', calm, s')
    ensures s' == s.(inodes := s.inodes[inode := File(doc, true)], tmp := Some(inode),
                     savers := s.savers[q := Synced(s.savers[q].gv, s.savers[q].cv, inode, doc)])
  {
    t', s' := Step(json, t, calm, s, CreateTmp(q, inode));
    t', s' := Step(json, t', calm, s', Encode(q, ms));
    t', s' := WriteAndSync(json, t', calm, s', q);
  }

  /** The rename, and the acknowledgement of the request that saved. */
  lemma RenameAndAck(json: Json, t: Trace, s: State, r: nat) returns (t': Trace, s': State)
    requires Ends(json, t, false, s) && s.history != [] && Enabled(json, s, Rename(r))
    ensures Ends(json, t', false, s')
    ensures s' == s.(final := s.tmp, tmp := None, savers := s.savers - {r}, saved := s.saved + {r},
                     owed := Max(s.owed, s.applied[r]), acked := Max(s.acked, s.applied[r]))
  {
    t', s' := Step(json, t, false, s, Rename(r));
    t', s' := Step(json, t', false, s', Ack(r));
  }

  // ---- Overtaking ----

  /** The counters that a save in its reading phase ends up with if nothing else is updated. */
  function CountersRead(s: State, q: nat): nat
    requires q in s.savers && s.history != []
  {
    if s.savers[q].Snapped? then s.savers[q].cv else s.Version()
  }

  lemma ReadOn(json: Json, t: Trace, s: State, q: nat) returns (t': Trace, s': State)
    requires Ends(json, t, false, s) && s.history != [] && q in s.savers
    requires s.savers[q].GotGauges? || s.savers[q].Snapped?
    ensures Ends(json, t', false, s')
    ensures s' == s.(savers := s.savers[q := Snapped(s.savers[q].gv, CountersRead(s, q))])
  {
    t', s' := t, s;
    if s.savers[q].GotGauges? {
      t', s' := Step(json, t, false, s, ReadCounters(q));
    } else {
      assert s.savers[q := s.savers[q]] == s.savers;
    }
  }

  /**
   The second half of the guard is needed. Let a calm run reach a state in which save r is about to
   rename while save q has read the gauges as they were before r's update. Then r can be acknowledged
   and q can finish, and what a crash leaves is what q has read: r's update is lost exactly if the
   repository has not held just that, map by map, since.
   */
  lemma OvertakingLosesAck(json: Json, t: Trace, s: State, r: nat, q: nat, ms: seq<Metric>, doc: seq<byte>)
    returns (t': Trace, s': State)
    requires json.Faithful() && Ends(json, t, true, s) && s.history != [] && Enabled(json, s, Rename(r))
    requires q in s.savers && q != r && !s.savers[q].Started? && s.savers[q].gv < s.applied[r] < |s.history|
    requires CountersRead(s, q) < |s.history|
    requires Enumerates(ms, Store(s.history[s.savers[q].gv].gauges, s.history[CountersRead(s, q)].counters))
    requires json.encode(ms) == Some(doc)
    ensures Ends(json, t', false, s') && s'.history == s.history && s'.acked == Max(s.acked, s.applied[r])
    ensures Restored(json, s', s'.final) ==
              Some(Store(s.history[s.savers[q].gv].gauges, s.history[CountersRead(s, q)].counters))
    ensures !HeldSince(s', s.applied[r], Restored(json, s', s'.final).value) <==>
      forall v, w :: s.applied[r] <= v <= w < |s.history| ==>
        || s.history[v].gauges != s.history[s.savers[q].gv].gauges
        || s.history[w].counters != s.history[CountersRead(s, q)].counters
  {
    StillReading(json, t, s, r, q);
    Relax(json, t, s);
    var content := Store(s.history[s.savers[q].gv].gauges, s.history[CountersRead(s, q)].counters);
    t', s' := RenameAndAck(json, t, s, r);
    t', s' := ReadOn(json, t', s', q);
    t', s' := Finish(json, t', s', q, ms, doc);
    DocumentRestores(json, doc, content);
    LostExactlyWhen(s', s.applied[r], content);
  }

  /** While one save is about to rename in a calm run, no other has the temporary file. */
  lemma StillReading(json: Json, t: Trace, s: State, r: nat, q: nat)
    requires Ends(json, t, true, s) && Enabled(json, s, Rename(r)) && q in s.savers && q != r && !s.savers[q].Started?
    ensures q in s.applied && (s.savers[q].GotGauges? || s.savers[q].Snapped?)
  {
    CalmInv(json, t, s);
  }

  lemma LostExactlyWhen(s: State, from: nat, t: Store)
    ensures !HeldSince(s, from, t) <==>
      forall v, w :: from <= v <= w < |s.history| ==>
        s.history[v].gauges != t.gauges || s.history[w].counters != t.counters
  {
  }

  /** A save that has read, with the temporary file out of the way, runs to its end. */
  lemma Finish(json: Json, t: Trace, s: State, q: nat, ms: seq<Metric>, doc: seq<byte>) returns (t': Trace, s': State)
    requires Ends(json, t, false, s) && s.history != [] && s.tmp.None? && q in s.savers &&
        s.savers[q].Snapped? && q in s.applied
    requires s.savers[q].gv < |s.history| && s.savers[q].cv < |s.history| && json.encode(ms) == Some(doc)
    requires Enumerates(ms, Store(s.history[s.savers[q].gv].gauges, s.history[s.savers[q].cv].counters))
    ensures Ends(json, t', false, s') && s'.history == s.history && s'.acked == s.acked
    ensures s'.final.Some? && s'.final.value in s'.inodes && s'.inodes[s'.final.value].bytes == doc
  {
    var inode := UnusedInode(s.inodes.Keys);
    t', s' := WriteOut(json, t, false, s, q, inode, ms, doc);
    t', s' := Step(json, t', false, s', Rename(q));
  }

  // ---- Sharing the temporary file ----

  /** No JSON text begins with a zero byte (section 2 of RFC 8259). */
  ghost predicate RejectsNul(json: Json) {
    forall bytes: seq<byte> :: bytes != [] && bytes[0] == 0 ==> json.decode(bytes).None?
  }

  lemma GapRestores(json: Json, off: nat, data: seq<byte>)
    requires RejectsNul(json) && off > 0
    ensures WriteAt([], off, data) == [] || json.decode(WriteAt([], off, data)).None?
  {
    if data != [] {
      assert WriteAt([], off, data)[0] == 0;
    }
  }

  /** Save q writes what it has left, after another save has truncated the file under it. */
  lemma FinishTorn(json: Json, t: Trace, s: State, q: nat) returns (t': Trace, s': State)
    requires Ends(json, t, false, s) && s.history != [] && q in s.savers && q in s.applied
    requires s.savers[q].Synced? || s.savers[q].Writing?
    requires s.savers[q].Writing? ==> 0 < s.savers[q].off <= |s.savers[q].doc| && RejectsNul(json)
    requires s.savers[q].inode in s.inodes && s.inodes[s.savers[q].inode].bytes == []
    requires s.tmp == Some(s.savers[q].inode)
    ensures Ends(json, t', false, s') && s'.history == s.history && s'.acked == Max(s.acked, s.applied[q])
    ensures Restored(json, s', s'.final) in {None, Some(EMPTY_STORE)}
    ensures s.savers[q].Synced? ==> Restored(json, s', s'.final) == Some(EMPTY_STORE)
  {
    t', s' := t, s;
    var w := s.savers[q];
    if w.Writing? {
      GapRestores(json, w.off, w.doc[w.off..]);
      t', s' := Step(json, t', false, s', Write(q, |w.doc| - w.off));
      t', s' := Step(json, t', false, s', Sync(q));
    }
    t', s' := RenameAndAck(json, t', s', q);
  }

  /**
   The first half of the guard is needed. Let a calm run reach a state in which save r is about to create
   the temporary file, for whatever it has read, while save q has already put data there. Then q can go on,
   rename and be acknowledged, and a crash leaves an empty or an undecodable file: q's update is lost, if the
   file is empty exactly if the repository has not been empty, map by map, since.
   */
  lemma SharingLosesAck(json: Json, t: Trace, s: State, r: nat, inode: nat, q: nat) returns (t': Trace, s': State)
    requires Ends(json, t, true, s) && s.history != [] && Enabled(json, s, CreateTmp(r, inode))
    requires q in s.savers && q != r && (s.savers[q].Synced? || s.savers[q].Writing?)
    requires s.savers[q].Writing? ==> s.savers[q].off > 0 && RejectsNul(json)
    ensures q in s.applied && Ends(json, t', false, s')
    ensures s'.history == s.history && s'.acked == Max(s.acked, s.applied[q])
    ensures Restored(json, s', s'.final) in {None, Some(EMPTY_STORE)}
    ensures s.savers[q].Synced? ==> Restored(json, s', s'.final) == Some(EMPTY_STORE)
    ensures !HeldSince(s', s.applied[q], EMPTY_STORE) <==>
      forall v, w :: s.applied[q] <= v <= w < |s.history| ==>
        s.history[v].gauges != map[] || s.history[w].counters != map[]
  {
    CalmInv(json, t, s);
    assert SaverGood(json, s, q);
    Relax(json, t, s);
    t', s' := Step(json, t, false, s, CreateTmp(r, inode));
    t', s' := FinishTorn(json, t', s', q);
    LostExactlyWhen(s', s.applied[q], EMPTY_STORE);
  }

  // ---- Concrete runs ----

  /** What one counter metric makes of the empty repository, and the document a save writes for it. */
  lemma FirstBatch(json: Json, m: Metric) returns (first: Store, ms: seq<Metric>, doc: seq<byte>)
    requires json.Faithful() && m.mtype == COUNTER && m.delta.Some?
    ensures first == ApplyBatch(EMPTY_STORE, [m]) && m.id in first.counters
    ensures ApplyBatch(first, []) == first
    ensures Enumerates(ms, first) && json.encode(ms) == Some(doc)
    ensures Store(first.gauges, first.counters) == first
  {
    first := ApplyBatch(EMPTY_STORE, [m]);
    var batch := [m];
    assert batch[..|batch| - 1] == [] && batch[|batch| - 1] == m;
    assert |GAUGE| != |COUNTER|;
    ms := [CounterMetric(m.id, m.delta.value)];
    assert ms[0] == CounterMetric(m.id, m.delta.value) && AllFinite(ms);
    doc := json.encode(ms).value;
  }

  lemma Fresh(json: Json) returns (t: Trace, s: State)
    ensures Ends(json, t, true, s)
    ensures s == State([EMPTY_STORE], map[], map[], {}, 0, 0, map[], None, None, None, 0)
  {
    s := State([EMPTY_STORE], map[], map[], {}, 0, 0, map[], None, None, None, 0);
    t := Trace([s], []);
  }

  /** Request r updates the repository and its save reads it. */
  lemma UpdateAndRead(json: Json, t: Trace, s: State, r: nat, batch: seq<Metric>) returns (t': Trace, s': State)
    requires Ends(json, t, true, s) && s.history != [] && r !in s.applied && r !in s.savers && r !in s.saved
    ensures Ends(json, t', true, s')
    ensures s' == s.(history := s.history + [ApplyBatch(s.history[s.Version()], batch)],
                     applied := s.applied[r := |s.history|],
                     savers := s.savers[r := Snapped(|s.history|, |s.history|)])
  {
    t', s' := Step(json, t, true, s, Update(r, batch));
    t', s' := Step(json, t', true, s', StartSave(r));
    t', s' := Step(json, t', true, s', ReadGauges(r));
    t', s' := Step(json, t', true, s', ReadCounters(r));
  }

  /** Save 0 has synced its file, and save 1, of any batch, is about to create the same one. */
  lemma AboutToShare(json: Json, m: Metric, batch: seq<Metric>) returns (t: Trace, s: State, first: Store)
    requires json.Faithful() && m.mtype == COUNTER && m.delta.Some?
    ensures Ends(json, t, true, s) && m.id in first.counters
    ensures s.history == [EMPTY_STORE, first, ApplyBatch(first, batch)]
    ensures s.applied == map[0 := 1, 1 := 2] && s.savers.Keys == {0, 1} && s.savers[0].Synced? && s.acked == 0
    ensures Enabled(json, s, CreateTmp(1, 7))
  {
    var ms, doc;
    first, ms, doc := FirstBatch(json, m);
    t, s := Fresh(json);
    t, s := UpdateAndRead(json, t, s, 0, [m]);
    assert s.history == [EMPTY_STORE, first];
    t, s := WriteOut(json, t, true, s, 0, 7, ms, doc);
    t, s := UpdateAndRead(json, t, s, 1, batch);
  }

  /**
   Saves sharing the temporary file: the first one's rename installs what the second one truncated. It does
   not matter what the second one has to save; its snapshot may even be one that cannot be encoded.
   */
  lemma OverlapLosesAck(json: Json, m: Metric, batch: seq<Metric>) returns (t: Trace, s: State)
    requires json.Faithful() && m.mtype == COUNTER && m.delta.Some?
    ensures Run(json, t.states, t.actions) && t.states[|t.actions|] == s && s.acked == 1
    ensures |s.history| == 3 && s.history[2] == ApplyBatch(s.history[1], batch)
    ensures Restored(json, s, s.final) == Some(EMPTY_STORE) && !HeldSince(s, s.acked, EMPTY_STORE)
  {
    var first;
    t, s, first := AboutToShare(json, m, batch);
    CounterDomain(first, batch, m.id);
    t, s := SharingLosesAck(json, t, s, 1, 7, 0);
  }

  /** An overtaken save: no file is ever torn, but the older snapshot is renamed last. */
  lemma StaleSaveLosesAck(json: Json, m: Metric) returns (t: Trace, s: State)
    requires json.Faithful() && m.mtype == COUNTER && m.delta.Some?
    ensures Run(json, t.states, t.actions) && t.states[|t.actions|] == s && s.acked == 2
    ensures Restored(json, s, s.final) == Some(EMPTY_STORE) && !HeldSince(s, s.acked, EMPTY_STORE)
  {
    var first, ms, doc := FirstBatch(json, m);
    t, s := Fresh(json);
    t, s := UpdateAndRead(json, t, s, 0, []);
    assert s.history == [EMPTY_STORE, EMPTY_STORE];
    t, s := UpdateAndRead(json, t, s, 1, [m]);
    assert s.history == [EMPTY_STORE, EMPTY_STORE, first];
    t, s := WriteOut(json, t, true, s, 1, 7, ms, doc);
    var none: seq<Metric> := [];
    assert AllFinite(none) && Enumerates(none, EMPTY_STORE);
    t, s := OvertakingLosesAck(json, t, s, 1, 0, none, json.encode(none).value);
    assert s.history[2].counters != map[];
  }

  /** The directory is never flushed: after a power failure the rename of an acknowledged save may be gone. */
  lemma PowerFailureForgetsAck(json: Json, m: Metric) returns (t: Trace, s: State)
    requires json.Faithful() && m.mtype == COUNTER && m.delta.Some?
    ensures Run(json, t.states, t.actions) && Calm(t.states, t.actions) && t.states[|t.actions|] == s && s.acked == 1
    ensures Restored(json, s, s.stable) == Some(EMPTY_STORE) && !HeldSince(s, s.acked, EMPTY_STORE)
  {
    var first, ms, doc := FirstBatch(json, m);
    t, s := Fresh(json);
    t, s := UpdateAndRead(json, t, s, 0, [m]);
    t, s := WriteOut(json, t, true, s, 0, 7, ms, doc);
    t, s := Step(json, t, true, s, Rename(0));
    t, s := Step(json, t, true, s, Ack(0));
    assert s.history == [EMPTY_STORE, first];
  }
}
