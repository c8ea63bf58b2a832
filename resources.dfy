/** The deletion protocol: while the NfsPvc carries the protection finalizer,
    its PVC and then its PV are deleted, and the NfsPvc may be released only
    once both are gone. */
module Resources {
  import opened Types
  import opened Cluster
  import opened Common
  import Store

  /** One of the two storage objects an NfsPvc owns. */
  datatype Resource = PVCOf(key: Key) | PVOf(name: string)

  function CallOn(verb: Verb, res: Resource): Call
  {
    match res
    case PVCOf(key) => Call(verb, PVCKind, key)
    case PVOf(name) => Call(verb, PVKind, PVKey(name))
  }

  predicate Exists(s: State, res: Resource)
  {
    match res
    case PVCOf(key) => key in s.pvcs
    case PVOf(name) => name in s.pvs
  }

  /** `s` without the object. */
  function Removed(s: State, res: Resource): State
  {
    match res
    case PVCOf(key) => s.(pvcs := s.pvcs - {key})
    case PVOf(name) => s.(pvs := s.pvs - {name})
  }

  /** Reads the object; NotFound means deleted, any other error is passed on. */
  function IsDeletedOutcome(s: State, res: Resource): (r: (State, Res<bool>))
    ensures r.0 == Log(s, CallOn(Get, res))
    ensures Injected(s).None? ==> r.1 == Ok(!Exists(s, res))
    ensures Injected(s) == Some(NotFound) ==> r.1 == Ok(true)
    ensures Injected(s).Some? && Injected(s).value != NotFound ==> r.1 == Fail(Injected(s).value)
  {
    match res
    case PVCOf(key) =>
      var (t, got) := Cluster.GetPVC(s, key);
      (t, if got.Ok? then Ok(false) else if got.err == NotFound then Ok(true) else Fail(got.err))
    case PVOf(name) =>
      var (t, got) := Cluster.GetPV(s, name);
      (t, if got.Ok? then Ok(false) else if got.err == NotFound then Ok(true) else Fail(got.err))
  }

  /** Deletes the object; NotFound counts as success. */
  function DeleteResourceOutcome(s: State, res: Resource): (r: (State, Option<ApiError>))
    ensures r.0.calls == s.calls + [CallOn(Delete, res)] && r.0.faults == s.faults
    ensures Injected(s).None? ==> r.1.None? && SameObjects(r.0, Removed(s, res))
    ensures Injected(s) == Some(NotFound) ==> r.1.None? && SameObjects(r.0, s)
    ensures Injected(s).Some? && Injected(s).value != NotFound ==> r == (Log(s, CallOn(Delete, res)), Injected(s))
  {
    var (t, e) := match res
      case PVCOf(key) => Cluster.DeletePVC(s, key)
      case PVOf(name) => Cluster.DeletePV(s, name);
    if e == Some(NotFound) then (t, None) else (t, e)
  }

  /** Nothing but deletions of the NfsPvc's own PVC and PV happened. */
  predicate OnlyDeletes(s: State, t: State, key: Key, pvName: string)
  {
    && Extends(s, t)
    && t.nfspvcs == s.nfspvcs && t.nextUid == s.nextUid
    && (t.pvcs == s.pvcs || t.pvcs == s.pvcs - {key})
    && (t.pvs == s.pvs || t.pvs == s.pvs - {pvName})
  }

  /** Reads the object and deletes it when it is there; a failed delete is
      reported under `message`, a failed read as it is. */
  function DeleteIfPresentOutcome(s: State, res: Resource, message: string): (r: (State, Option<Error>))
    ensures Extends(s, r.0) && r.0.nfspvcs == s.nfspvcs && r.0.nextUid == s.nextUid
    ensures SameObjects(r.0, s) || SameObjects(r.0, Removed(s, res))
    ensures Reliable(s) ==>
      && r.1.None? && SameObjects(r.0, Removed(s, res))
      && Issued(s, r.0) == [CallOn(Get, res)] + (if Exists(s, res) then [CallOn(Delete, res)] else [])
  {
    var (s1, isDeleted) := IsDeletedOutcome(s, res);
    if isDeleted.Fail? then (s1, Some(Api(isDeleted.err)))
    else if isDeleted.value then (s1, None)
    else
      var (s2, e) := DeleteResourceOutcome(s1, res);
      assert s2.calls == s.calls + [CallOn(Get, res), CallOn(Delete, res)];
      if e.Some? then (s2, Some(Wrapped(message, Api(e.value)))) else (s2, None)
  }

  /** Deletes the PVC if it exists, then the PV if it exists. */
  function CleanupOutcome(s: State, name: string, namespace: string): (r: (State, Option<Error>))
    ensures OnlyDeletes(s, r.0, Key(name, namespace), PVName(name, namespace))
  {
    var (s1, e) := DeleteIfPresentOutcome(s, PVCOf(Key(name, namespace)), "failed to delete pvc");
    if e.Some? then (s1, e)
    else
      var r := DeleteIfPresentOutcome(s1, PVOf(PVName(name, namespace)), "failed to delete pv");
      ExtendsTrans(s, s1, r.0);
      r
  }

  /** What Cleanup issues when no call fails: a read of the PVC, its delete if
      it exists, a read of the PV, its delete if it exists. */
  function CleanupCalls(s: State, key: Key, pvName: string): seq<Call>
  {
    [Call(Get, PVCKind, key)] + (if key in s.pvcs then [Call(Delete, PVCKind, key)] else [])
    + [Call(Get, PVKind, PVKey(pvName))] + (if pvName in s.pvs then [Call(Delete, PVKind, PVKey(pvName))] else [])
  }

  /** With no failure scheduled, cleanup deletes the PVC before the PV, each
      only when it exists, and ends with both gone. */
  lemma CleanupDeletesPVCThenPV(s: State, name: string, namespace: string)
    requires Reliable(s)
    ensures var key, pvName := Key(name, namespace), PVName(name, namespace);
      var (t, e) := CleanupOutcome(s, name, namespace);
      && e.None?
      && SameObjects(t, s.(pvcs := s.pvcs - {key}, pvs := s.pvs - {pvName}))
      && Issued(s, t) == CleanupCalls(s, key, pvName)
  {
    var key, pvName := Key(name, namespace), PVName(name, namespace);
    var (s1, e) := DeleteIfPresentOutcome(s, PVCOf(key), "failed to delete pvc");
    ReliableExtends(s, s1);
    var (t, _) := DeleteIfPresentOutcome(s1, PVOf(pvName), "failed to delete pv");
    ExtendsTrans(s, s1, t);
    assert s1.pvs == s.pvs;
  }

  /** Reads the PVC, then the PV; the first read error ends the check. */
  function AreResourceDeletedOutcome(s: State, n: NfsPvc): (r: (State, Res<(bool, bool)>))
    ensures Extends(s, r.0) && SameObjects(r.0, s) && ReadOnly(Issued(s, r.0))
    ensures r.1.Fail? ==> r.1.err != NotFound
  {
    var (s1, pvcDeleted) := IsDeletedOutcome(s, PVCOf(NfsPvcKey(n)));
    if pvcDeleted.Fail? then (s1, Fail(pvcDeleted.err))
    else
      var (s2, pvDeleted) := IsDeletedOutcome(s1, PVOf(PVName(n.name, n.namespace)));
      assert Issued(s, s2) == [CallOn(Get, PVCOf(NfsPvcKey(n))), CallOn(Get, PVOf(PVName(n.name, n.namespace)))];
      if pvDeleted.Fail? then (s2, Fail(pvDeleted.err)) else (s2, Ok((pvcDeleted.value, pvDeleted.value)))
  }

  /** The deletion decision: (deleted, error). Without the finalizer nothing is
      read and the NfsPvc is not reported deleted. */
  function HandleDeleteOutcome(s: State, n: NfsPvc): (r: (State, bool, Option<Error>))
    ensures OnlyDeletes(s, r.0, NfsPvcKey(n), PVName(n.name, n.namespace))
    ensures NfsPvcDeletionFinalizer !in n.finalizers ==> r == (s, false, None)
    ensures r.1 ==> r.2.None? && SameObjects(r.0, s)
  {
    if NfsPvcDeletionFinalizer !in n.finalizers then (s, false, None)
    else
      var (s1, deleted) := AreResourceDeletedOutcome(s, n);
      if deleted.Fail? then (s1, false, Some(Api(deleted.err)))
      else
        var (pvcDeleted, pvDeleted) := deleted.value;
        if pvDeleted && pvcDeleted then (s1, true, None)
        else
          var (s2, e) := CleanupOutcome(s1, n.name, n.namespace);
          if !pvDeleted && pvcDeleted then
            (s2, false, Some(if e.Some? then e.value else FailedCleanup(PVName(n.name, n.namespace))))
          else (s2, false, e)
  }

  /** A read error other than NotFound ends the decision before any delete. */
  lemma HandleDeleteReadError(s: State, n: NfsPvc)
    requires NfsPvcDeletionFinalizer in n.finalizers
    requires Injected(s).Some? && Injected(s).value != NotFound
    ensures HandleDeleteOutcome(s, n) == (Log(s, Call(Get, PVCKind, NfsPvcKey(n))), false, Some(Api(Injected(s).value)))
  {
  }

  /** The decision when both reads succeed: released when both objects are
      gone; a pending-cleanup error naming the PV when only the PV remains;
      otherwise the cleanup's own result. */
  lemma HandleDeleteDecision(s: State, n: NfsPvc)
    requires NfsPvcDeletionFinalizer in n.finalizers
    requires Injected(s).None? && Injected(Log(s, Call(Get, PVCKind, NfsPvcKey(n)))).None?
    ensures var key, pvName := NfsPvcKey(n), PVName(n.name, n.namespace);
      var s2 := Log(Log(s, Call(Get, PVCKind, key)), Call(Get, PVKind, PVKey(pvName)));
      var c := CleanupOutcome(s2, n.name, n.namespace);
      var r := HandleDeleteOutcome(s, n);
      && (key !in s.pvcs && pvName !in s.pvs ==> r == (s2, true, None))
      && (key !in s.pvcs && pvName in s.pvs ==>
            r == (c.0, false, Some(if c.1.Some? then c.1.value else FailedCleanup(pvName))))
      && (key in s.pvcs ==> r == (c.0, false, c.1))
  {
  }

  /** With no failure scheduled the protocol ends with both objects deleted;
      the NfsPvc counts as deleted only when neither existed, and a lone PV
      yields the pending-cleanup error after its delete. */
  lemma HandleDeleteReliable(s: State, n: NfsPvc)
    requires Reliable(s) && NfsPvcDeletionFinalizer in n.finalizers
    ensures var key, pvName := NfsPvcKey(n), PVName(n.name, n.namespace);
      var (t, deleted, e) := HandleDeleteOutcome(s, n);
      && (deleted <==> key !in s.pvcs && pvName !in s.pvs)
      && e == (if key !in s.pvcs && pvName in s.pvs then Some(FailedCleanup(pvName)) else None)
      && SameObjects(t, s.(pvcs := s.pvcs - {key}, pvs := s.pvs - {pvName}))
  {
    var key, pvName := NfsPvcKey(n), PVName(n.name, n.namespace);
    var s1 := Log(s, Call(Get, PVCKind, key));
    ReliableExtends(s, s1);
    var s2 := Log(s1, Call(Get, PVKind, PVKey(pvName)));
    ReliableExtends(s1, s2);
    HandleDeleteDecision(s, n);
    CleanupDeletesPVCThenPV(s2, n.name, n.namespace);
  }

  // ---- the operations ----

  method IsDeleted(k: Store.Client, res: Resource) returns (r: Res<bool>)
    modifies k
    ensures (k.State(), r) == IsDeletedOutcome(old(k.State()), res)
  {
    match res
    case PVCOf(key) =>
      var got := k.GetPVC(key);
      r := if got.Ok? then Ok(false) else if got.err == NotFound then Ok(true) else Fail(got.err);
    case PVOf(name) =>
      var got := k.GetPV(name);
      r := if got.Ok? then Ok(false) else if got.err == NotFound then Ok(true) else Fail(got.err);
  }

  method DeleteResource(k: Store.Client, res: Resource) returns (err: Option<ApiError>)
    modifies k
    ensures (k.State(), err) == DeleteResourceOutcome(old(k.State()), res)
  {
    match res {
      case PVCOf(key) => err := k.DeletePVC(key);
      case PVOf(name) => err := k.DeletePV(name);
    }
    if err == Some(NotFound) {
      err := None;
    }
  }

  method DeleteIfPresent(k: Store.Client, res: Resource, message: string) returns (err: Option<Error>)
    modifies k
    ensures (k.State(), err) == DeleteIfPresentOutcome(old(k.State()), res, message)
  {
    var isDeleted := IsDeleted(k, res);
    if isDeleted.Fail? {
      return Some(Api(isDeleted.err));
    }
    if !isDeleted.value {
      var e := DeleteResource(k, res);
      if e.Some? {
        return Some(Wrapped(message, Api(e.value)));
      }
    }
    return None;
  }

  method Cleanup(k: Store.Client, name: string, namespace: string) returns (err: Option<Error>)
    modifies k
    ensures (k.State(), err) == CleanupOutcome(old(k.State()), name, namespace)
  {
    err := DeleteIfPresent(k, PVCOf(Key(name, namespace)), "failed to delete pvc");
    if err.Some? {
      return;
    }
    err := DeleteIfPresent(k, PVOf(PVName(name, namespace)), "failed to delete pv");
  }

  method AreResourceDeleted(k: Store.Client, n: NfsPvc) returns (r: Res<(bool, bool)>)
    modifies k
    ensures (k.State(), r) == AreResourceDeletedOutcome(old(k.State()), n)
  {
    var pvcDeleted := IsDeleted(k, PVCOf(NfsPvcKey(n)));
    if pvcDeleted.Fail? {
      return Fail(pvcDeleted.err);
    }
    var pvDeleted := IsDeleted(k, PVOf(PVName(n.name, n.namespace)));
    if pvDeleted.Fail? {
      return Fail(pvDeleted.err);
    }
    return Ok((pvcDeleted.value, pvDeleted.value));
  }

  method HandleDelete(k: Store.Client, n: NfsPvc) returns (deleted: bool, err: Option<Error>)
    modifies k
    ensures (k.State(), deleted, err) == HandleDeleteOutcome(old(k.State()), n)
  {
    if NfsPvcDeletionFinalizer in n.finalizers {
      var both := AreResourceDeleted(k, n);
      if both.Fail? {
        return false, Some(Api(both.err));
      }
      var (pvcDeleted, pvDeleted) := both.value;
      if pvDeleted && pvcDeleted {
        return true, None;
      } else if !pvDeleted && pvcDeleted {
        var e := Cleanup(k, n.name, n.namespace);
        if e.Some? {
          return false, e;
        }
        return false, Some(FailedCleanup(PVName(n.name, n.namespace)));
      }
      var e := Cleanup(k, n.name, n.namespace);
      if e.Some? {
        return false, e;
      }
    }
    return false, None;
  }
}
