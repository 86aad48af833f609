/** The batch endpoint: verify, decode, validate, apply, persist, then acknowledge. */
module Handler {
  import opened Wrappers
  import opened Metrics
  import opened MemoryRepository
  import opened Snapshot
  import FileStore
  import opened Http

  const OK_STATUS: nat := 200
  const BAD_REQUEST: nat := 400
  const SERVER_ERROR: nat := 500

  function Normalized(ms: seq<Metric>): seq<Metric> {
    seq(|ms|, i requires 0 <= i < |ms| => ms[i].(mtype := Lower(ms[i].mtype)))
  }

  /** Lower-casing leaves a batch alone whose types are already spelled in lower case. */
  lemma NormalizedIs(ms: seq<Metric>)
    requires forall m :: m in ms ==> m.mtype == GAUGE || m.mtype == COUNTER
    ensures Normalized(ms) == ms
  {
    assert Lower(GAUGE) == GAUGE && Lower(COUNTER) == COUNTER;
    forall i | 0 <= i < |ms| ensures Normalized(ms)[i] == ms[i] {
      assert ms[i] in ms;
    }
  }

  /** An entry the endpoint accepts: its type may be spelled in any case. */
  predicate Acceptable(m: Metric) {
    && !Blank(m.id)
    && ((SpelledAs(m.mtype, "gauge") && m.value.Some? && m.delta.None?)
        || (SpelledAs(m.mtype, "counter") && m.delta.Some? && m.value.None?))
  }

  /** The entry with its type spelled as the stores know it. */
  function Canonical(m: Metric): Metric {
    if SpelledAs(m.mtype, "gauge") then m.(mtype := "gauge")
    else if SpelledAs(m.mtype, "counter") then m.(mtype := "counter")
    else m
  }

  function AllCanonical(ms: seq<Metric>): seq<Metric> {
    seq(|ms|, i requires 0 <= i < |ms| => Canonical(ms[i]))
  }

  lemma AcceptedOne(m: Metric)
    ensures var n := m.(mtype := Lower(m.mtype)); ServerAccepts(n) <==> Acceptable(m)
    ensures Acceptable(m) ==> m.(mtype := Lower(m.mtype)) == Canonical(m)
  {
    LowerIs(m.mtype, "gauge");
    LowerIs(m.mtype, "counter");
    assert |"gauge"| == 5 && |"counter"| == 7;
  }

  /** After lower-casing a batch is valid exactly if every entry is acceptable, and then its types are canonical. */
  lemma AcceptedExactlyWhen(ms: seq<Metric>)
    ensures Validated(Normalized(ms)) <==> forall m :: m in ms ==> Acceptable(m)
    ensures Validated(Normalized(ms)) ==> Normalized(ms) == AllCanonical(ms)
  {
    var ns := Normalized(ms);
    forall i | 0 <= i < |ms|
      ensures ServerAccepts(ns[i]) <==> Acceptable(ms[i])
      ensures Acceptable(ms[i]) ==> ns[i] == Canonical(ms[i])
    {
      AcceptedOne(ms[i]);
    }
    assert Validated(ns) <==> forall i :: 0 <= i < |ns| ==> ServerAccepts(ns[i]);
    assert (forall m :: m in ms ==> Acceptable(m)) <==> forall i :: 0 <= i < |ms| ==> Acceptable(ms[i]);
  }

  /** Each element's type is lower-cased in place, as unmarshalMetrics does after decoding. */
  method LowerTypes(a: array<Metric>)
    modifies a
    ensures a[..] == Normalized(old(a[..]))
  {
    for i := 0 to a.Length
      invariant forall j :: 0 <= j < i ==> a[j] == old(a[j]).(mtype := Lower(old(a[j]).mtype))
      invariant forall j :: i <= j < a.Length ==> a[j] == old(a[j])
    {
      a[i] := a[i].(mtype := Lower(a[i].mtype));
    }
  }

  predicate HoldsNonFinite(s: Store) {
    exists id :: id in s.gauges && !IsFinite(s.gauges[id])
  }

  /** What the service answers; a failing store may have applied the batch all the same. */
  datatype StoreOutcome = Stored | Failed(applied: bool)

  class BatchEndpoint {
    const repo: MemoryRepo
    /** Set when every update is to be saved before it is acknowledged. */
    const saver: FileStore.FileStorage?

    constructor (repo: MemoryRepo, saver: FileStore.FileStorage?)
      ensures this.repo == repo && this.saver == saver
    {
      this.repo, this.saver := repo, saver;
    }

    /**
     `decoded` is what the JSON body decodes to. A refused request changes nothing; an accepted one that the
     store takes is applied even when persisting then fails, and 200 means it is applied and, with a saver, on disk.
     */
    method Update(signatureOk: bool, decoded: Option<seq<Metric>>, store: StoreOutcome, f: FileStore.Faults)
      returns (status: nat, audited: Option<seq<string>>)
      requires saver != null ==> saver.repo == repo
      modifies repo
      modifies if saver == null then {} else {saver.dir}
      ensures status in {200, 400, 500}
      ensures status == 400 <==> !signatureOk || decoded.None? || exists m :: m in decoded.value && !Acceptable(m)
      ensures status == 400 || store == Failed(false) ==> repo.Contents() == old(repo.Contents())
      ensures status != 400 && store != Failed(false) ==>
        repo.Contents() == ApplyBatch(old(repo.Contents()), AllCanonical(decoded.value))
      ensures status != 200 && saver != null ==> saver.dir.final == old(saver.dir.final)
      ensures status == 200 ==> store.Stored?
      ensures status == 500 ==> store.Failed? || saver != null
      ensures status == 200 && saver != null ==>
        && f.failing.None?
        && (saver.json.Faithful() ==> !HoldsNonFinite(repo.Contents()))
        && exists ms :: Enumerates(ms, repo.Contents()) && saver.json.encode(ms).Some? &&
            saver.dir.final == saver.json.encode(ms)
      ensures status == 500 && store.Stored? && f.failing.None? ==>
        saver != null && (saver.json.Faithful() ==> HoldsNonFinite(repo.Contents()))
      ensures audited.Some? <==> status == 200
      ensures audited.Some? ==>
        |audited.value| == |decoded.value| && forall i :: 0 <= i < |decoded.value| ==>
            audited.value[i] == decoded.value[i].id
    {
      audited := None;
      if !signatureOk || decoded.None? {
        return BAD_REQUEST, None;
      }
      var body := decoded.value;
      var a := new Metric[|body|](i requires 0 <= i < |body| => body[i]);
      assert a[..] == body;
      LowerTypes(a);
      var metrics := a[..];
      AcceptedExactlyWhen(body);
      var invalid := ValidateMetricsBatch(metrics);
      if invalid.Some? {
        return BAD_REQUEST, None;
      }
      if store.Stored? || store.applied {
        repo.UpdateMetricsBatch(metrics);
      }
      if store.Failed? {
        return SERVER_ERROR, None;
      }
      if saver != null {
        var ms, err := saver.Save(f);
        if f.failing.None? && saver.json.Faithful() {
          UnencodableExactlyWhen(saver.json, ms, repo.Contents());
        }
        if err.Some? {
          return SERVER_ERROR, None;
        }
      }
      status := OK_STATUS;
      audited := Some(seq(|metrics|, i requires 0 <= i < |metrics| => metrics[i].id));
    }
  }
}
