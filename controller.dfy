/** The reconciler: one pass over one NfsPvc request, and the mapping from a
    changed PVC to the requests it triggers. */
module Controller {
  import opened Types
  import opened Cluster
  import opened Common
  import opened Storage
  import Sync
  import Resources
  import Finalizer
  import Status
  import Store

  const RequeueIntervalSeconds: nat := 4

  /** ctrl.Result: `requeueAfter` in seconds, 0 for none. */
  datatype ReconcileResult = ReconcileResult(requeueAfter: nat)

  const Done := ReconcileResult(0)

  /** The storage sync runs only while the NfsPvc is not being deleted; the
      status update always follows. */
  function UpdateOutcome(s: State, n: NfsPvc, cfg: Config): (r: (State, Option<Error>))
    requires !n.deleting ==> Sync.ClaimRefReadable(s, n)
    ensures Extends(s, r.0)
    ensures n.deleting ==> r == Status.UpdateOutcome(s, n, cfg.retrySteps)
  {
    if !n.deleting then
      var (s1, e) := Sync.HandleStorageObjectStateOutcome(s, n, cfg);
      if e.Some? then (s1, e)
      else
        var r := Status.UpdateOutcome(s1, n, cfg.retrySteps);
        ExtendsTrans(s, s1, r.0);
        r
    else Status.UpdateOutcome(s, n, cfg.retrySteps)
  }

  /** The common tail of a pass: make sure of the finalizer, then sync. */
  function EnsureAndUpdateOutcome(s: State, n: NfsPvc, cfg: Config): (r: (State, ReconcileResult, Option<Error>))
    requires !n.deleting ==> Sync.ClaimRefReadable(s, n)
    ensures Extends(s, r.0) && r.1 == Done
    ensures n.deleting ==> NoneCreated(s, r.0)
  {
    var (s1, e1) := Finalizer.EnsureOutcome(s, n);
    if e1.Some? then (s1, Done, Some(Wrapped("failed to ensure finalizer in NfsPvc", e1.value)))
    else
      var (s2, e2) := UpdateOutcome(s1, n, cfg);
      ExtendsTrans(s, s1, s2);
      if e2.Some? then (s2, Done, Some(Wrapped("failed to sync NfsPvc", e2.value))) else (s2, Done, None)
  }

  /** The stale check can run on the live NfsPvc the pass will read for `req`. */
  predicate Reconcilable(s: State, req: Key)
  {
    req in s.nfspvcs && !s.nfspvcs[req].deleting ==> Sync.ClaimRefReadable(s, s.nfspvcs[req])
  }

  /** The deletion path of a pass over an NfsPvc that is being deleted. */
  function DeletionOutcome(s: State, n: NfsPvc, cfg: Config): (r: (State, ReconcileResult, Option<Error>))
    requires n.deleting
    ensures Extends(s, r.0) && NoneCreated(s, r.0)
    ensures r.1 == Done || (r.1 == ReconcileResult(RequeueIntervalSeconds) && r.2.None?)
  {
    var (s1, deleted, e) := Resources.HandleDeleteOutcome(s, n);
    if e.Some? then
      if IsFailedCleanup(e.value) then (s1, ReconcileResult(RequeueIntervalSeconds), None)
      else (s1, Done, Some(Wrapped("failed to handle NfsPvc deletion", e.value)))
    else if deleted then
      var (s2, e2) := Finalizer.RemoveOutcome(s1, n);
      ExtendsTrans(s, s1, s2);
      (s2, Done, e2)
    else
      var r := EnsureAndUpdateOutcome(s1, n, cfg);
      ExtendsTrans(s, s1, r.0);
      r
  }

  function ReconcileOutcome(s: State, req: Key, cfg: Config): (r: (State, ReconcileResult, Option<Error>))
    requires Reconcilable(s, req)
    ensures Extends(s, r.0)
    ensures r.1 == Done || (r.1 == ReconcileResult(RequeueIntervalSeconds) && r.2.None?)
  {
    var (s1, got) := Cluster.GetNfsPvc(s, req);
    if got.Fail? then
      if got.err == NotFound then (s1, Done, None)
      else (s1, Done, Some(Wrapped("failed to get NfsPvc", Api(got.err))))
    else
      var n := got.value;
      assert n == s.nfspvcs[req];
      if n.deleting then
        var r := DeletionOutcome(s1, n, cfg);
        ExtendsTrans(s, s1, r.0);
        r
      else
        var r := EnsureAndUpdateOutcome(s1, n, cfg);
        ExtendsTrans(s, s1, r.0);
        r
  }

  /** An NfsPvc that is not there ends the pass with nothing else done; any
      other read error ends it with an error. */
  lemma ReconcileWithoutNfsPvc(s: State, req: Key, cfg: Config)
    requires Reconcilable(s, req)
    requires req !in s.nfspvcs || Injected(s).Some?
    ensures var r := ReconcileOutcome(s, req, cfg);
      && r.0 == Log(s, Call(Get, NfsPvcKind, req)) && r.1 == Done
      && (Injected(s).None? || Injected(s) == Some(NotFound) ==> r.2.None?)
      && (Injected(s).Some? && Injected(s).value != NotFound ==>
            r.2 == Some(Wrapped("failed to get NfsPvc", Api(Injected(s).value))))
  {
  }

  /** On the deletion path: a pending cleanup asks to be requeued after four
      seconds without an error; any other deletion error is returned; a
      released NfsPvc loses its finalizer, the pass ends there and
      the finalizer write's own error is returned as it is. */
  lemma ReconcileDeletionPath(s: State, req: Key, cfg: Config)
    requires req in s.nfspvcs && s.nfspvcs[req].deleting && Injected(s).None?
    ensures var n := s.nfspvcs[req];
      var s1 := Log(s, Call(Get, NfsPvcKind, req));
      var (s2, deleted, e) := Resources.HandleDeleteOutcome(s1, n);
      var r := ReconcileOutcome(s, req, cfg);
      && (e.Some? && IsFailedCleanup(e.value) ==> r == (s2, ReconcileResult(4), None))
      && (e.Some? && !IsFailedCleanup(e.value) ==> r == (s2, Done, Some(Wrapped("failed to handle NfsPvc deletion", e.value))))
      && (e.None? && deleted ==>
            && r.0 == Finalizer.RemoveOutcome(s2, n).0 && r.1 == Done && r.2 == Finalizer.RemoveOutcome(s2, n).1
            && Issued(s2, r.0) == [Call(Verb.Update, NfsPvcKind, NfsPvcKey(n))])
  {
  }

  /** A pass over an NfsPvc that is being deleted never creates a PV or a PVC. */
  lemma DeletingNeverCreates(s: State, req: Key, cfg: Config)
    requires req in s.nfspvcs && s.nfspvcs[req].deleting
    ensures NoneCreated(s, ReconcileOutcome(s, req, cfg).0)
  {
    var (s1, got) := Cluster.GetNfsPvc(s, req);
    if got.Ok? {
      assert got.value == s.nfspvcs[req];
    }
  }

  /** A live NfsPvc goes through the finalizer, then the storage sync, then the
      status update; the first error ends the pass. */
  lemma ReconcileLivePath(s: State, req: Key, cfg: Config)
    requires req in s.nfspvcs && !s.nfspvcs[req].deleting && Injected(s).None?
    requires Reconcilable(s, req)
    ensures var n := s.nfspvcs[req];
      var s1 := Log(s, Call(Get, NfsPvcKind, req));
      var (s2, e1) := Finalizer.EnsureOutcome(s1, n);
      var r := ReconcileOutcome(s, req, cfg);
      && (e1.Some? ==> r == (s2, Done, Some(Wrapped("failed to ensure finalizer in NfsPvc", e1.value))))
      && (e1.None? ==>
            var (s3, e2) := Sync.HandleStorageObjectStateOutcome(s2, n, cfg);
            && (e2.Some? ==> r == (s3, Done, Some(Wrapped("failed to sync NfsPvc", e2.value))))
            && (e2.None? ==> var (s4, e3) := Status.UpdateOutcome(s3, n, cfg.retrySteps);
                  r == (s4, Done, if e3.Some? then Some(Wrapped("failed to sync NfsPvc", e3.value)) else None)))
  {
  }

  // ---- the request mapping ----

  /** The request for one listed NfsPvc: its key if its name is the PVC's, the
      empty request otherwise. */
  function RequestFor(item: NfsPvc, pvcName: string): (req: Key)
    ensures item.name == pvcName ==> req == NfsPvcKey(item)
    ensures item.name != pvcName ==> req == Key("", "")
  {
    if item.name == pvcName then Key(item.name, item.namespace) else Key("", "")
  }

  /** `listed` is the outcome of listing the NfsPvcs in the PVC's namespace
      (None when the list call fails). */
  method EnqueueRequestsFromPersistentVolumeClaim(pvc: PVC, listed: Option<seq<NfsPvc>>) returns (requests: seq<Key>)
    ensures listed.None? ==> requests == []
    ensures listed.Some? ==> |requests| == |listed.value|
    ensures listed.Some? ==> forall i :: 0 <= i < |requests| ==> requests[i] == RequestFor(listed.value[i], pvc.name)
  {
    if listed.None? {
      return [];
    }
    var items := listed.value;
    var a := new Key[|items|](_ => Key("", ""));
    for i := 0 to |items|
      invariant forall j :: 0 <= j < i ==> a[j] == RequestFor(items[j], pvc.name)
      invariant forall j :: i <= j < a.Length ==> a[j] == Key("", "")
    {
      if items[i].name == pvc.name {
        a[i] := Key(items[i].name, items[i].namespace);
      }
    }
    requests := a[..];
  }

  /** When every listed NfsPvc is in the PVC's namespace, each non-empty request
      names the NfsPvc that owns the PVC, and it appears once per listed owner. */
  lemma RequestsNameTheOwner(pvc: PVC, items: seq<NfsPvc>, i: nat)
    requires forall j :: 0 <= j < |items| ==> items[j].namespace == pvc.namespace
    requires i < |items|
    ensures RequestFor(items[i], pvc.name) != Key("", "") ==> RequestFor(items[i], pvc.name) == PVCKey(pvc)
    ensures pvc.name != "" ==> (RequestFor(items[i], pvc.name) == PVCKey(pvc) <==> NfsPvcKey(items[i]) == PVCKey(pvc))
  {
  }

  // ---- the operations ----

  method Update(k: Store.Client, n: NfsPvc, cfg: Config) returns (err: Option<Error>)
    requires !n.deleting ==> Sync.ClaimRefReadable(k.State(), n)
    modifies k
    ensures (k.State(), err) == UpdateOutcome(old(k.State()), n, cfg)
  {
    if !n.deleting {
      err := Sync.HandleStorageObjectState(k, n, cfg);
      if err.Some? {
        return;
      }
    }
    err := Status.Update(k, n, cfg.retrySteps);
  }

  method Reconcile(k: Store.Client, req: Key, cfg: Config) returns (result: ReconcileResult, err: Option<Error>)
    requires Reconcilable(k.State(), req)
    modifies k
    ensures (k.State(), result, err) == ReconcileOutcome(old(k.State()), req, cfg)
  {
    var got := k.GetNfsPvc(req);
    if got.Fail? {
      if got.err == NotFound {
        return Done, None;
      }
      return Done, Some(Wrapped("failed to get NfsPvc", Api(got.err)));
    }
    var n := got.value;
    if n.deleting {
      var deleted, e := Resources.HandleDelete(k, n);
      if e.Some? {
        if IsFailedCleanup(e.value) {
          return ReconcileResult(RequeueIntervalSeconds), None;
        }
        return Done, Some(Wrapped("failed to handle NfsPvc deletion", e.value));
      }
      if deleted {
        var e2 := Finalizer.Remove(k, n);
        return Done, e2;
      }
    }
    var e1 := Finalizer.Ensure(k, n);
    if e1.Some? {
      return Done, Some(Wrapped("failed to ensure finalizer in NfsPvc", e1.value));
    }
    var e2 := Update(k, n, cfg);
    if e2.Some? {
      return Done, Some(Wrapped("failed to sync NfsPvc", e2.value));
    }
    return Done, None;
  }
}
