/** The older engine's storage sync: it creates the PV and the PVC with a fixed
    storage class, deletes a Failed PV so that it is recreated on the next
    pass, resizes the PVC to the NfsPvc's capacity, and then syncs the status. */
module LegacySync {
  import opened Types
  import opened Cluster
  import Storage
  import LegacyStatus
  import Store

  const StorageClassBrown := "brown"
  const PvFailedPhase := "Failed"
  const ReclaimDelete := "Delete"

  /** The older PVC builder: the NfsPvc's own key and always the class "brown". */
  function PreparePvc(n: NfsPvc): (pvc: PVC)
    ensures PVCKey(pvc) == NfsPvcKey(n) && pvc.storageClass == "brown"
    ensures pvc.volumeName == PVName(n.name, n.namespace) && pvc.requests == n.spec.capacity
  {
    Storage.PreparePVC(n, StorageClassBrown)
  }

  /** The older PV builder: no mount options and always reclaim policy Delete. */
  function PreparePv(n: NfsPvc): (pv: PV)
    ensures pv.name == PVName(n.name, n.namespace) && pv.storageClass == "brown"
    ensures pv.reclaimPolicy == "Delete" && pv.mountOptions == []
    ensures pv.claimRef.Some? && Key(pv.claimRef.value.name, pv.claimRef.value.namespace) == NfsPvcKey(n)
  {
    PV(
      name := PVName(n.name, n.namespace),
      labels := map[Storage.NfsPvcDanaLabel := n.name],
      storageClass := StorageClassBrown,
      capacity := n.spec.capacity,
      accessModes := n.spec.accessModes,
      reclaimPolicy := ReclaimDelete,
      claimRef := Some(Storage.ClaimRefFor(n)),
      server := n.spec.server,
      path := n.spec.path,
      mountOptions := [],
      phase := "",
      deleting := false)
  }

  /** The older builders are the current ones with the class "brown" and the
      policy Delete, except that the PV never carries a protocol mount option. */
  lemma LegacyBuildersAgainstCurrent(n: NfsPvc)
    ensures PreparePvc(n) == Storage.PreparePVC(n, "brown")
    ensures PreparePv(n) == Storage.PreparePV(n, "brown", "Delete").(mountOptions := [])
    ensures n.spec.nfsVersion != "" ==> PreparePv(n) != Storage.PreparePV(n, "brown", "Delete")
    ensures PreparePvc(n).volumeName == PreparePv(n).name
    ensures PreparePv(n).claimRef == Some(ClaimRef(PreparePvc(n).name, PreparePvc(n).namespace, ClaimKind, NoUid))
  {
    if n.spec.nfsVersion != "" {
      assert Storage.PreparePV(n, "brown", "Delete").mountOptions == Storage.MountOptionsFor(n.spec.nfsVersion);
    }
  }

  /** Creates a missing PV; deletes a Failed PV that is not already being
      deleted (NotFound on the delete counts as success). */
  function HandlePvStateOutcome(s: State, n: NfsPvc): (r: (State, Option<Error>))
    ensures Extends(s, r.0) && OnlyPVsChanged(s, r.0)
    ensures |Issued(s, r.0)| >= 1 && Issued(s, r.0)[0] == Call(Get, PVKind, PVKey(PVName(n.name, n.namespace)))
  {
    var pvName := PVName(n.name, n.namespace);
    var (s1, got) := Cluster.GetPV(s, pvName);
    if got.Fail? then
      if got.err != NotFound then (s1, Some(Api(got.err)))
      else
        var (s2, e) := Cluster.CreatePV(s1, PreparePv(n));
        assert s2.calls == s.calls + [Call(Get, PVKind, PVKey(pvName)), Call(Create, PVKind, PVKey(pvName))];
        (s2, if e.Some? then Some(Wrapped("failed to create pv", Api(e.value))) else None)
    else if got.value.phase == PvFailedPhase && !got.value.deleting then
      var (s2, e) := Cluster.DeletePV(s1, got.value.name);
      assert s2.calls == s.calls + [Call(Get, PVKind, PVKey(pvName)), Call(Delete, PVKind, PVKey(got.value.name))];
      (s2, if e.Some? && e.value != NotFound then Some(Api(e.value)) else None)
    else (s1, None)
  }

  /** The PV step with no failure scheduled: a missing PV is created from
      PreparePv, a Failed PV not being deleted is deleted, any other PV is left
      alone without a write. */
  lemma PvStepReliable(s: State, n: NfsPvc)
    requires Reliable(s) && KeysMatch(s)
    ensures var pvName := PVName(n.name, n.namespace);
      var (t, e) := HandlePvStateOutcome(s, n);
      && e.None?
      && (pvName !in s.pvs ==> t.pvs == s.pvs[pvName := PreparePv(n)])
      && (pvName in s.pvs && s.pvs[pvName].phase == PvFailedPhase && !s.pvs[pvName].deleting ==> t.pvs == s.pvs - {pvName})
      && (pvName in s.pvs && !(s.pvs[pvName].phase == PvFailedPhase && !s.pvs[pvName].deleting) ==>
            SameObjects(t, s) && ReadOnly(Issued(s, t)))
  {
    var pvName := PVName(n.name, n.namespace);
    ReliableExtends(s, Log(s, Call(Get, PVKind, PVKey(pvName))));
    var t := HandlePvStateOutcome(s, n).0;
    if pvName in s.pvs && !(s.pvs[pvName].phase == PvFailedPhase && !s.pvs[pvName].deleting) {
      assert Issued(s, t) == [Call(Get, PVKind, PVKey(pvName))];
    }
  }

  /** A failed delete of a Failed PV: NotFound counts as success, any other
      error is returned as it is; either way the stored objects stay. */
  lemma PvStepDeleteFault(s: State, n: NfsPvc)
    requires var pvName := PVName(n.name, n.namespace);
      Injected(s).None? && pvName in s.pvs && s.pvs[pvName].phase == PvFailedPhase && !s.pvs[pvName].deleting
    ensures var s1 := Log(s, Call(Get, PVKind, PVKey(PVName(n.name, n.namespace))));
      var (t, e) := HandlePvStateOutcome(s, n);
      && (Injected(s1) == Some(NotFound) ==> e.None? && SameObjects(t, s))
      && (Injected(s1).Some? && Injected(s1).value != NotFound ==> e == Some(Api(Injected(s1).value)) && SameObjects(t, s))
  {
  }

  /** A PV read error other than NotFound is returned as it is, with no write. */
  lemma PvStepReadError(s: State, n: NfsPvc)
    requires Injected(s).Some? && Injected(s).value != NotFound
    ensures HandlePvStateOutcome(s, n) == (Log(s, Call(Get, PVKind, PVKey(PVName(n.name, n.namespace)))), Some(Api(Injected(s).value)))
  {
  }

  /** Creates a missing PVC; an existing PVC whose requests differ from the
      NfsPvc's capacity is updated to that capacity (no retry on conflict). */
  function HandlePvcStateOutcome(s: State, n: NfsPvc): (r: (State, Option<Error>))
    ensures Extends(s, r.0) && OnlyPVCsChanged(s, r.0)
    ensures |Issued(s, r.0)| >= 1 && Issued(s, r.0)[0] == Call(Get, PVCKind, NfsPvcKey(n))
  {
    var key := NfsPvcKey(n);
    var (s1, got) := Cluster.GetPVC(s, key);
    if got.Fail? then
      if got.err == NotFound then
        var (s2, e) := Cluster.CreatePVC(s1, PreparePvc(n));
        assert s2.calls == s.calls + [Call(Get, PVCKind, key), Call(Create, PVCKind, key)];
        (s2, if e.Some? then Some(Wrapped("failed to create pvc", Api(e.value))) else None)
      else (s1, Some(Wrapped("failed to fetch pvc", Api(got.err))))
    else if n.spec.capacity != got.value.requests then
      var (s2, e) := Cluster.UpdatePVC(s1, got.value.(requests := n.spec.capacity));
      assert s2.calls == s.calls + [Call(Get, PVCKind, key), Call(Update, PVCKind, PVCKey(got.value))];
      (s2, if e.Some? then Some(Wrapped("unable to update Pvc of NfsPvc", Api(e.value))) else None)
    else (s1, None)
  }

  /** The PVC step with no failure scheduled: afterwards the PVC exists and
      requests exactly the NfsPvc's capacity, and an existing PVC keeps
      everything else; it is written only when its requests differed. */
  lemma PvcStepReliable(s: State, n: NfsPvc)
    requires Reliable(s) && KeysMatch(s)
    ensures var key := NfsPvcKey(n);
      var (t, e) := HandlePvcStateOutcome(s, n);
      && e.None? && key in t.pvcs && t.pvcs[key].requests == n.spec.capacity
      && (key !in s.pvcs ==> t.pvcs == s.pvcs[key := PreparePvc(n).(uid := Uid(s.nextUid))])
      && (key in s.pvcs ==> t.pvcs == s.pvcs[key := s.pvcs[key].(requests := n.spec.capacity)])
      && (key in s.pvcs && s.pvcs[key].requests == n.spec.capacity ==> SameObjects(t, s) && ReadOnly(Issued(s, t)))
  {
    var key := NfsPvcKey(n);
    ReliableExtends(s, Log(s, Call(Get, PVCKind, key)));
    var t := HandlePvcStateOutcome(s, n).0;
    if key in s.pvcs && s.pvcs[key].requests == n.spec.capacity {
      assert s.pvcs[key := s.pvcs[key].(requests := n.spec.capacity)] == s.pvcs;
      assert Issued(s, t) == [Call(Get, PVCKind, key)];
    }
  }

  /** The PV step, then the PVC step; the first error ends the pass. */
  function CreateOrUpdateStorageObjectsOutcome(s: State, n: NfsPvc): (r: (State, Option<Error>))
    ensures Extends(s, r.0) && r.0.nfspvcs == s.nfspvcs
  {
    var (s1, e) := HandlePvStateOutcome(s, n);
    if e.Some? then (s1, e)
    else
      var r := HandlePvcStateOutcome(s1, n);
      ExtendsTrans(s, s1, r.0);
      r
  }

  /** A PVC read error other than NotFound is returned, wrapped, with no write. */
  lemma PvcStepReadError(s: State, n: NfsPvc)
    requires Injected(s).Some? && Injected(s).value != NotFound
    ensures HandlePvcStateOutcome(s, n) == (Log(s, Call(Get, PVCKind, NfsPvcKey(n))), Some(Wrapped("failed to fetch pvc", Api(Injected(s).value))))
  {
  }

  /** The storage objects, then the status; a storage error skips the status. */
  function SyncNfsPvcOutcome(s: State, n: NfsPvc): (r: (State, Option<Error>))
    ensures Extends(s, r.0)
    ensures var (s1, e) := CreateOrUpdateStorageObjectsOutcome(s, n);
      && (e.Some? ==> r == (s1, e))
      && (e.None? ==> r == LegacyStatus.SyncNfsPvcStatusOutcome(s1, n))
  {
    var (s1, e) := CreateOrUpdateStorageObjectsOutcome(s, n);
    if e.Some? then (s1, e)
    else
      var r := LegacyStatus.SyncNfsPvcStatusOutcome(s1, n);
      ExtendsTrans(s, s1, r.0);
      r
  }

  /** One pass with no failure scheduled, on the stored NfsPvc with no PV of
      its own: the PV is created, the PVC exists with the NfsPvc's capacity,
      and the NfsPvc's spec and finalizers are untouched. */
  lemma SyncCreatesMissingPV(s: State, n: NfsPvc)
    requires Reliable(s) && KeysMatch(s)
    requires PVName(n.name, n.namespace) !in s.pvs
    ensures var (t, e) := SyncNfsPvcOutcome(s, n);
      var key, pvName := NfsPvcKey(n), PVName(n.name, n.namespace);
      && e.None?
      && t.pvs == s.pvs[pvName := PreparePv(n)]
      && key in t.pvcs && t.pvcs[key].requests == n.spec.capacity
      && t.nfspvcs.Keys == s.nfspvcs.Keys
      && (forall k :: k in s.nfspvcs ==> t.nfspvcs[k].spec == s.nfspvcs[k].spec && t.nfspvcs[k].finalizers == s.nfspvcs[k].finalizers)
  {
    StorageForMissingPV(s, n);
    var s2 := CreateOrUpdateStorageObjectsOutcome(s, n).0;
    LegacyStatus.SyncRecordsOnlyRealPhases(s2, n);
    LegacyStatus.SyncKeepsSpecs(s2, n);
  }

  /** With no failure scheduled and the PV missing, the storage step creates
      the PV and leaves a PVC of the requested capacity, and the store's keys
      still match its objects. */
  lemma StorageForMissingPV(s: State, n: NfsPvc)
    requires Reliable(s) && KeysMatch(s)
    requires PVName(n.name, n.namespace) !in s.pvs
    ensures var (t, e) := CreateOrUpdateStorageObjectsOutcome(s, n);
      var key := NfsPvcKey(n);
      && e.None? && Reliable(t) && KeysMatch(t)
      && t.pvs == s.pvs[PVName(n.name, n.namespace) := PreparePv(n)]
      && key in t.pvcs && t.pvcs[key].requests == n.spec.capacity
  {
    PvStepReliable(s, n);
    var s1 := HandlePvStateOutcome(s, n).0;
    ReliableExtends(s, s1);
    assert KeysMatch(s1) by {
      assert PreparePv(n).name == PVName(n.name, n.namespace);
    }
    PvcStepReliable(s1, n);
    var s2 := HandlePvcStateOutcome(s1, n).0;
    ReliableExtends(s1, s2);
    assert PVCKey(PreparePvc(n)) == NfsPvcKey(n);
    forall k | k in s2.pvcs
      ensures PVCKey(s2.pvcs[k]) == k
    {
      if k != NfsPvcKey(n) { assert s2.pvcs[k] == s1.pvcs[k]; }
    }
  }

  // ---- the operations ----

  method HandlePvState(k: Store.Client, n: NfsPvc) returns (err: Option<Error>)
    modifies k
    ensures (k.State(), err) == HandlePvStateOutcome(old(k.State()), n)
  {
    var got := k.GetPV(PVName(n.name, n.namespace));
    if got.Fail? {
      if got.err != NotFound {
        return Some(Api(got.err));
      }
      var e := k.CreatePV(PreparePv(n));
      return if e.Some? then Some(Wrapped("failed to create pv", Api(e.value))) else None;
    }
    if got.value.phase == PvFailedPhase && !got.value.deleting {
      var e := k.DeletePV(got.value.name);
      if e.Some? && e.value != NotFound {
        return Some(Api(e.value));
      }
    }
    return None;
  }

  method HandlePvcState(k: Store.Client, n: NfsPvc) returns (err: Option<Error>)
    modifies k
    ensures (k.State(), err) == HandlePvcStateOutcome(old(k.State()), n)
  {
    var got := k.GetPVC(NfsPvcKey(n));
    if got.Fail? {
      if got.err == NotFound {
        var e := k.CreatePVC(PreparePvc(n));
        return if e.Some? then Some(Wrapped("failed to create pvc", Api(e.value))) else None;
      }
      return Some(Wrapped("failed to fetch pvc", Api(got.err)));
    }
    if n.spec.capacity != got.value.requests {
      var e := k.UpdatePVC(got.value.(requests := n.spec.capacity));
      if e.Some? {
        return Some(Wrapped("unable to update Pvc of NfsPvc", Api(e.value)));
      }
    }
    return None;
  }

  method CreateOrUpdateStorageObjects(k: Store.Client, n: NfsPvc) returns (err: Option<Error>)
    modifies k
    ensures (k.State(), err) == CreateOrUpdateStorageObjectsOutcome(old(k.State()), n)
  {
    err := HandlePvState(k, n);
    if err.Some? {
      return;
    }
    err := HandlePvcState(k, n);
  }

  method SyncNfsPvc(k: Store.Client, n: NfsPvc) returns (err: Option<Error>)
    modifies k
    ensures (k.State(), err) == SyncNfsPvcOutcome(old(k.State()), n)
  {
    err := CreateOrUpdateStorageObjects(k, n);
    if err.Some? {
      return;
    }
    err := LegacyStatus.SyncNfsPvcStatus(k, n);
  }
}
