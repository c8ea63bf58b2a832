/** The older engine's deletion protocol. It answers (error, finalizer
    released) and, unlike the current one, does not delete a PV that outlives
    its PVC: it reports the pending PV and waits for the platform to reclaim it. */
module LegacyFinalizer {
  import opened Types
  import opened Cluster
  import opened Common
  import opened Strings
  import Finalizer
  import Resources
  import Store

  const FinalizerDeletionNfsPVc := "nfspvc.dana.io/nfspvc-protection"

  /** Reads the object and deletes it when it is there; both a failed read and
      a failed delete are returned as they are. */
  function DeleteResourceOutcome(s: State, res: Resources.Resource): (r: (State, Option<ApiError>))
    ensures Extends(s, r.0) && r.0.nfspvcs == s.nfspvcs && r.0.nextUid == s.nextUid
    ensures SameObjects(r.0, s) || SameObjects(r.0, Resources.Removed(s, res))
    ensures r.1.Some? ==> r.1.value != NotFound && SameObjects(r.0, s)
    ensures Reliable(s) ==> r.1.None? && SameObjects(r.0, Resources.Removed(s, res))
  {
    var (s1, isDeleted) := Resources.IsDeletedOutcome(s, res);
    if isDeleted.Fail? then (s1, Some(isDeleted.err))
    else if isDeleted.value then (s1, None)
    else
      var (s2, e) := Resources.DeleteResourceOutcome(s1, res);
      assert s2.calls == s.calls + [Resources.CallOn(Get, res), Resources.CallOn(Delete, res)];
      (s2, e)
  }

  /** Deletes the PVC, then the PV, naming the object in the error. */
  function NfsPvcCleanUpOutcome(s: State, n: NfsPvc): (r: (State, Option<Error>))
    ensures Resources.OnlyDeletes(s, r.0, NfsPvcKey(n), PVName(n.name, n.namespace))
    ensures Reliable(s) ==> Issued(s, r.0) == Resources.CleanupCalls(s, NfsPvcKey(n), PVName(n.name, n.namespace))
    ensures Reliable(s) ==> r.1.None? && SameObjects(r.0, s.(pvcs := s.pvcs - {NfsPvcKey(n)}, pvs := s.pvs - {PVName(n.name, n.namespace)}))
  {
    var pvName := PVName(n.name, n.namespace);
    var (s1, e) := DeleteResourceOutcome(s, Resources.PVCOf(NfsPvcKey(n)));
    if e.Some? then (s1, Some(Wrapped("failed to delete pvc - " + n.name, Api(e.value))))
    else
      var (s2, e2) := DeleteResourceOutcome(s1, Resources.PVOf(pvName));
      ExtendsTrans(s, s1, s2);
      assert Reliable(s) ==> Reliable(s1);
      (s2, if e2.Some? then Some(Wrapped("failed to delete pv - " + pvName, Api(e2.value))) else None)
  }

  /** The decision as (state, error, released). An NfsPvc not being deleted is
      left alone; one being deleted without the finalizer counts as released. */
  function HandleResourceDeletionOutcome(s: State, n: NfsPvc): (r: (State, Option<Error>, bool))
    ensures Extends(s, r.0) && r.0.pvs.Keys <= s.pvs.Keys && r.0.pvcs.Keys <= s.pvcs.Keys
    ensures !n.deleting ==> r == (s, None, false)
    ensures n.deleting && FinalizerDeletionNfsPVc !in n.finalizers ==> r == (s, None, true)
  {
    if !n.deleting then (s, None, false)
    else if FinalizerDeletionNfsPVc !in n.finalizers then (s, None, true)
    else
      var pvName := PVName(n.name, n.namespace);
      var (s1, deleted) := Resources.AreResourceDeletedOutcome(s, n);
      if deleted.Fail? then (s1, Some(Api(deleted.err)), false)
      else
        var (pvcDeleted, pvDeleted) := deleted.value;
        if pvDeleted && pvcDeleted then
          var (s2, e) := Finalizer.RemoveOutcome(s1, n);
          ExtendsTrans(s, s1, s2);
          (s2, e, true)
        else if !pvDeleted && pvcDeleted then (s1, Some(FailedCleanUpError(pvName)), false)
        else
          var (s2, e) := NfsPvcCleanUpOutcome(s1, n);
          ExtendsTrans(s, s1, s2);
          (s2, e, false)
  }

  /** With no failure scheduled, on an NfsPvc being deleted that carries the
      finalizer: released exactly when neither object exists (and then the
      finalizer write is the only write); a lone PV is reported and nothing is
      written; otherwise both objects are deleted. */
  lemma DeletionReliable(s: State, n: NfsPvc)
    requires Reliable(s)
    requires n.deleting && FinalizerDeletionNfsPVc in n.finalizers
    ensures var key, pvName := NfsPvcKey(n), PVName(n.name, n.namespace);
      var (t, e, released) := HandleResourceDeletionOutcome(s, n);
      && (released <==> key !in s.pvcs && pvName !in s.pvs)
      && (released ==> (t, e) == Finalizer.RemoveOutcome(Log(Log(s, Call(Get, PVCKind, key)), Call(Get, PVKind, PVKey(pvName))), n))
      && (key !in s.pvcs && pvName in s.pvs ==>
            e == Some(FailedCleanUpError(pvName)) && SameObjects(t, s) && ReadOnly(Issued(s, t)))
      && (key in s.pvcs ==> e.None? && SameObjects(t, s.(pvcs := s.pvcs - {key}, pvs := s.pvs - {pvName})))
  {
    var key, pvName := NfsPvcKey(n), PVName(n.name, n.namespace);
    var s1 := Log(s, Call(Get, PVCKind, key));
    ReliableExtends(s, s1);
    var s2 := Log(s1, Call(Get, PVKind, PVKey(pvName)));
    ReliableExtends(s1, s2);
    assert Resources.AreResourceDeletedOutcome(s, n) == (s2, Ok((key !in s.pvcs, pvName !in s.pvs)));
    if key !in s.pvcs && pvName in s.pvs {
      assert Issued(s, s2) == [Call(Get, PVCKind, key), Call(Get, PVKind, PVKey(pvName))];
    }
  }

  /** A failed read other than NotFound, of the PVC or then of the PV, is
      returned as it is, unreleased, before anything is deleted. */
  lemma DeletionReadError(s: State, n: NfsPvc)
    requires n.deleting && FinalizerDeletionNfsPVc in n.finalizers
    ensures var s1 := Log(s, Call(Get, PVCKind, NfsPvcKey(n)));
      && (Injected(s).Some? && Injected(s).value != NotFound ==>
            HandleResourceDeletionOutcome(s, n) == (s1, Some(Api(Injected(s).value)), false))
      && (Injected(s).None? && Injected(s1).Some? && Injected(s1).value != NotFound ==>
            HandleResourceDeletionOutcome(s, n)
              == (Log(s1, Call(Get, PVKind, PVKey(PVName(n.name, n.namespace)))), Some(Api(Injected(s1).value)), false))
  {
  }

  /** Where the two engines part: with the PVC gone and the PV still there, the
      current protocol deletes the PV before reporting the pending cleanup,
      while the older one only reports it. */
  lemma LonePVHandledDifferently(s: State, n: NfsPvc)
    requires Reliable(s)
    requires n.deleting && FinalizerDeletionNfsPVc in n.finalizers
    requires NfsPvcKey(n) !in s.pvcs && PVName(n.name, n.namespace) in s.pvs
    ensures var pvName := PVName(n.name, n.namespace);
      && pvName in HandleResourceDeletionOutcome(s, n).0.pvs
      && pvName !in Resources.HandleDeleteOutcome(s, n).0.pvs
  {
    DeletionReliable(s, n);
    Resources.HandleDeleteReliable(s, n);
  }

  /** Once both reads find nothing, the answer is RemoveFinalizer's own outcome
      with "released", so a failed finalizer write is still reported as
      released, together with that write's store error. */
  lemma ReleasedDespiteFailedRemoval(s: State, n: NfsPvc)
    requires n.deleting && FinalizerDeletionNfsPVc in n.finalizers
    requires NfsPvcKey(n) !in s.pvcs && PVName(n.name, n.namespace) !in s.pvs
    requires Injected(s).None? && Injected(Log(s, Call(Get, PVCKind, NfsPvcKey(n)))).None?
    ensures var s2 := Log(Log(s, Call(Get, PVCKind, NfsPvcKey(n))), Call(Get, PVKind, PVKey(PVName(n.name, n.namespace))));
      && HandleResourceDeletionOutcome(s, n) == (Finalizer.RemoveOutcome(s2, n).0, Finalizer.RemoveOutcome(s2, n).1, true)
      && (Injected(s2).Some? ==> Finalizer.RemoveOutcome(s2, n).1 == Some(Api(Injected(s2).value)))
  {
  }

  // ---- the operations ----

  method DeleteResource(k: Store.Client, res: Resources.Resource) returns (err: Option<ApiError>)
    modifies k
    ensures (k.State(), err) == DeleteResourceOutcome(old(k.State()), res)
  {
    var isDeleted := Resources.IsDeleted(k, res);
    if isDeleted.Fail? {
      return Some(isDeleted.err);
    }
    if !isDeleted.value {
      err := Resources.DeleteResource(k, res);
      return;
    }
    return None;
  }

  method NfsPvcCleanUp(k: Store.Client, n: NfsPvc) returns (err: Option<Error>)
    modifies k
    ensures (k.State(), err) == NfsPvcCleanUpOutcome(old(k.State()), n)
  {
    var pvName := PVName(n.name, n.namespace);
    var e := DeleteResource(k, Resources.PVCOf(NfsPvcKey(n)));
    if e.Some? {
      return Some(Wrapped("failed to delete pvc - " + n.name, Api(e.value)));
    }
    e := DeleteResource(k, Resources.PVOf(pvName));
    if e.Some? {
      return Some(Wrapped("failed to delete pv - " + pvName, Api(e.value)));
    }
    return None;
  }

  /** controllerutil.RemoveFinalizer, then an update of the NfsPvc. */
  method RemoveFinalizer(k: Store.Client, n: NfsPvc) returns (err: Option<Error>)
    modifies k
    ensures (k.State(), err) == Finalizer.RemoveOutcome(old(k.State()), n)
  {
    var e := k.UpdateNfsPvc(n.(finalizers := RemoveString(n.finalizers, FinalizerDeletionNfsPVc)));
    if e.Some? {
      return Some(Api(e.value));
    }
    return None;
  }

  /** Adds the finalizer and updates the NfsPvc only when it is missing. */
  method EnsureFinalizer(k: Store.Client, n: NfsPvc) returns (err: Option<Error>)
    modifies k
    ensures (k.State(), err) == Finalizer.EnsureOutcome(old(k.State()), n)
  {
    if !ContainsString(n.finalizers, FinalizerDeletionNfsPVc) {
      var e := k.UpdateNfsPvc(n.(finalizers := Finalizer.AddFinalizer(n.finalizers, FinalizerDeletionNfsPVc)));
      if e.Some? {
        return Some(Api(e.value));
      }
    }
    return None;
  }

  method HandleResourceDeletion(k: Store.Client, n: NfsPvc) returns (err: Option<Error>, released: bool)
    modifies k
    ensures (k.State(), err, released) == HandleResourceDeletionOutcome(old(k.State()), n)
  {
    if !n.deleting {
      return None, false;
    }
    if FinalizerDeletionNfsPVc !in n.finalizers {
      return None, true;
    }
    var deleted := Resources.AreResourceDeleted(k, n);
    if deleted.Fail? {
      return Some(Api(deleted.err)), false;
    }
    var (pvcDeleted, pvDeleted) := deleted.value;
    if pvDeleted && pvcDeleted {
      err := RemoveFinalizer(k, n);
      return err, true;
    } else if !pvDeleted && pvcDeleted {
      return Some(FailedCleanUpError(PVName(n.name, n.namespace))), false;
    }
    err := NfsPvcCleanUp(k, n);
    return err, false;
  }
}
