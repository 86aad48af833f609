/** The file storage: snapshots written through a temporary file and renamed into place. */
module FileStore {
  import opened Wrappers
  import opened Metrics
  import opened MemoryRepository
  import opened Snapshot
  import opened Http

  /** The two directory entries Save works on, and every content the final one has had. */
  class Directory {
    var final: Option<seq<byte>>
    var tmp: Option<seq<byte>>
    ghost var seen: seq<Option<seq<byte>>>

    constructor (final: Option<seq<byte>>)
      ensures this.final == final && tmp == None && seen == [final]
    {
      this.final, tmp, seen := final, None, [final];
    }

    method CreateTmp()
      modifies this`tmp
      ensures tmp == Some([])
    {
      tmp := Some([]);
    }

    method WriteTmp(data: seq<byte>)
      requires tmp.Some?
      modifies this`tmp
      ensures tmp == Some(old(tmp).value + data)
    {
      tmp := Some(tmp.value + data);
    }

    method RemoveTmp()
      modifies this`tmp
      ensures tmp == None
    {
      tmp := None;
    }

    method RenameTmp()
      requires tmp.Some?
      modifies this
      ensures final == old(tmp) && tmp == None && seen == old(seen) + [old(tmp)]
    {
      final, tmp := tmp, None;
      seen := seen + [final];
    }
  }

  datatype Step = Mkdir | Create | Encode | Sync | Close | Rename

  /** Which step of a Save fails, how much of the document reaches the file first, and whether cleanup succeeds. */
  datatype Faults = Faults(failing: Option<Step>, written: nat, removed: bool)

  lemma NoOtherStep(failing: Option<Step>)
    requires failing != Some(Mkdir) && failing != Some(Create) && failing != Some(Encode)
    requires failing != Some(Sync) && failing != Some(Close) && failing != Some(Rename)
    ensures failing.None?
  {
    if failing.Some? {
      match failing.value { case Mkdir => case Create => case Encode => case Sync => case Close => case Rename => }
    }
  }

  class FileStorage {
    const repo: MemoryRepo
    const dir: Directory
    const json: Json

    constructor (repo: MemoryRepo, dir: Directory, json: Json)
      ensures this.repo == repo && this.dir == dir && this.json == json
    {
      this.repo, this.dir, this.json := repo, dir, json;
    }

    /** One entry per gauge and counter, in the order the maps happen to be ranged over. */
    method TakeSnapshot() returns (out: seq<Metric>)
      ensures Enumerates(out, repo.Contents()) && |out| == |repo.gauges| + |repo.counters|
    {
      var gauges := repo.Gauges();
      var counters := repo.Counters();
      out := [];
      var todo := gauges.Keys;
      while todo != {}
        invariant todo <= gauges.Keys
        invariant forall m :: m in out ==> IsEntryOf(m, repo.Contents())
        invariant forall id :: id in gauges.Keys - todo ==> GaugeMetric(id, gauges[id]) in out
        invariant |out| + |todo| == |gauges.Keys|
        decreases |todo|
      {
        var id :| id in todo;
        out := out + [GaugeMetric(id, gauges[id])];
        todo := todo - {id};
      }
      todo := counters.Keys;
      while todo != {}
        invariant todo <= counters.Keys
        invariant forall m :: m in out ==> IsEntryOf(m, repo.Contents())
        invariant forall id :: id in gauges ==> GaugeMetric(id, gauges[id]) in out
        invariant forall id :: id in counters.Keys - todo ==> CounterMetric(id, counters[id]) in out
        invariant |out| + |todo| == |gauges.Keys| + |counters.Keys|
        decreases |todo|
      {
        var id :| id in todo;
        out := out + [CounterMetric(id, counters[id])];
        todo := todo - {id};
      }
    }

    /**
     Success leaves exactly the encoded snapshot in place and no temporary file; any failure
     leaves the final file alone. At no point did the final file hold anything else.
     */
    method Save(f: Faults) returns (ms: seq<Metric>, err: Option<string>)
      modifies dir
      ensures f.failing != Some(Mkdir) ==> Enumerates(ms, repo.Contents())
      ensures err.None? <==> f.failing.None? && json.encode(ms).Some?
      ensures err.None? ==>
        && dir.final == json.encode(ms) && dir.tmp == None
      ensures err.Some? ==> dir.final == old(dir.final) && dir.seen == old(dir.seen)
      ensures err.Some? && f.removed && f.failing != Some(Mkdir) && f.failing != Some(Create) ==> dir.tmp == None
      ensures |dir.seen| >= |old(dir.seen)| && dir.seen[..|old(dir.seen)|] == old(dir.seen)
      ensures forall i :: |old(dir.seen)| <= i < |dir.seen| ==> dir.seen[i] == dir.final
    {
      ms := [];
      if f.failing == Some(Mkdir) {
        return ms, Some("create storage dir");
      }
      ms := TakeSnapshot();
      if f.failing == Some(Create) {
        return ms, Some("create temp file");
      }
      dir.CreateTmp();
      var committed := false;
      err := None;
      var doc := json.encode(ms);
      if doc.None? {
        err := Some("encode metrics");
      } else if f.failing == Some(Encode) {
        dir.WriteTmp(doc.value[..if f.written < |doc.value| then f.written else |doc.value|]);
        err := Some("encode metrics");
      } else {
        dir.WriteTmp(doc.value);
        assert dir.tmp.value == doc.value;
        if f.failing == Some(Sync) {
          err := Some("sync temp file");
        } else if f.failing == Some(Close) {
          err := Some("close temp file");
        } else if f.failing == Some(Rename) {
          err := Some("rename temp file");
        } else {
          NoOtherStep(f.failing);
          dir.RenameTmp();
          committed := true;
        }
      }
      if !committed && f.removed {
        dir.RemoveTmp();
      }
    }

    /**
     A missing or empty file restores nothing; one that cannot be opened, read or decoded is an error and
     changes nothing.
     */
    method Restore(readable: bool) returns (err: Option<string>)
      modifies repo
      ensures dir.final.None? || (readable && dir.final == Some([])) ==>
          err.None? && repo.Contents() == old(repo.Contents())
      ensures dir.final.Some? && !readable ==> err.Some? && repo.Contents() == old(repo.Contents())
      ensures readable && dir.final.Some? && dir.final.value != [] ==>
        var ms := json.decode(dir.final.value);
        && (ms.None? ==> err.Some? && repo.Contents() == old(repo.Contents()))
        && (ms.Some? ==> err.None? && repo.Contents() == RestoreAll(old(repo.Contents()), ms.value))
    {
      if dir.final.None? {
        return None;
      }
      if !readable {
        return Some("open or read storage file");
      }
      if |dir.final.value| == 0 {
        return None;
      }
      var decoded := json.decode(dir.final.value);
      if decoded.None? {
        return Some("decode metrics");
      }
      var ms := decoded.value;
      var i := 0;
      while i < |ms|
        invariant i <= |ms|
        invariant repo.Contents() == RestoreAll(old(repo.Contents()), ms[..i])
      {
        var m := ms[i];
        assert ms[..i + 1][..i] == ms[..i];
        if m.mtype == GAUGE {
          if m.value.Some? {
            repo.SetGauge(m.id, m.value.value);
          }
        } else if m.mtype == COUNTER {
          if m.delta.Some? {
            repo.SetCounter(m.id, m.delta.value);
          }
        }
        i := i + 1;
      }
      assert ms[..i] == ms;
      return None;
    }
  }

  /** A server restarted after a successful Save comes back with the repository that was saved. */
  method SaveThenRestart(storage: FileStorage, f: Faults) returns (restarted: MemoryRepo, err: Option<string>)
    requires storage.json.Faithful()
    modifies storage.dir
    ensures fresh(restarted)
    ensures err.None? ==> restarted.Contents() == storage.repo.Contents()
  {
    var ms;
    ms, err := storage.Save(f);
    restarted := new MemoryRepo();
    if err.None? {
      ghost var s := storage.repo.Contents();
      UnencodableExactlyWhen(storage.json, ms, s);
      SaveRestoreInverse(storage.json, ms, s);
      var again := new FileStorage(restarted, storage.dir, storage.json);
      err := again.Restore(true);
    }
  }
}
