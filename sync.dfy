/** The storage synchroniser: makes sure the PV and the PVC an NfsPvc owns
    exist, rewrites a PV whose claim has gone stale, and strips a stuck bind
    annotation from a PVC that lost its volume. */
module Sync {
  import opened Types
  import opened Cluster
  import opened Common
  import opened Storage
  import Store

  const PVCBindStatusAnnotation := "pv.kubernetes.io/bind-completed"
  const DesiredBindStatus := "yes"

  predicate IsPVReleased(pv: PV): (released: bool)
    ensures released <==> pv.phase == "Released"
  {
    pv.phase == VolumeReleased
  }

  /** A Failed PV is never also Released. */
  predicate IsPVFailed(pv: PV): (failed: bool)
    ensures failed <==> pv.phase == "Failed"
    ensures failed ==> !IsPVReleased(pv)
  {
    pv.phase == VolumeFailed
  }

  /** The stale check reads the PV's claim reference unless the phase alone decides. */
  predicate StaleCheckable(pv: PV)
  {
    IsPVReleased(pv) || IsPVFailed(pv) || pv.claimRef.Some?
  }

  /** The stale check can run on whatever PV the NfsPvc's derived name finds. */
  predicate ClaimRefReadable(s: State, n: NfsPvc)
  {
    var pvName := PVName(n.name, n.namespace);
    pvName in s.pvs ==> StaleCheckable(s.pvs[pvName])
  }

  /** The recreation race: the status the NfsPvc last recorded says the PV was
      Bound and the PVC Pending, while the live PVC (if any) is not the one the
      PV's claim points at. */
  predicate InRecreation(s: State, n: NfsPvc, uid: Uid)
  {
    && n.status.pvPhase == VolumeBound
    && n.status.pvcPhase == ClaimPending
    && !(NfsPvcKey(n) in s.pvcs && s.pvcs[NfsPvcKey(n)].uid == uid)
  }

  /** When the PV's claim is stale, judged on the store's contents. */
  predicate ConnectedPVCDeleted(s: State, pv: PV, n: NfsPvc)
    requires StaleCheckable(pv)
  {
    IsPVReleased(pv) || IsPVFailed(pv) || InRecreation(s, n, pv.claimRef.value.uid)
  }

  predicate BindCompleted(pvc: PVC)
  {
    PVCBindStatusAnnotation in pvc.annotations && pvc.annotations[PVCBindStatusAnnotation] == DesiredBindStatus
  }

  // ---- the stale check ----

  /** Whether the live PVC of the NfsPvc carries `uid`; an absent PVC does not. */
  function PVCUIDEqualOutcome(s: State, uid: Uid, n: NfsPvc): (r: (State, Res<bool>))
    ensures r.0 == Log(s, Call(Get, PVCKind, NfsPvcKey(n)))
    ensures Injected(s).None? ==> r.1 == Ok(NfsPvcKey(n) in s.pvcs && s.pvcs[NfsPvcKey(n)].uid == uid)
    ensures Injected(s) == Some(NotFound) ==> r.1 == Ok(false)
    ensures Injected(s).Some? && Injected(s).value != NotFound ==> r.1 == Fail(Injected(s).value)
  {
    var (t, got) := Cluster.GetPVC(s, NfsPvcKey(n));
    if got.Ok? then (t, Ok(got.value.uid == uid))
    else if got.err == NotFound then (t, Ok(false))
    else (t, Fail(got.err))
  }

  /** The PVC is always read, whatever the recorded status says. */
  function PVCInRecreationStateOutcome(s: State, n: NfsPvc, pv: PV): (r: (State, Res<bool>))
    requires pv.claimRef.Some?
    ensures r.0 == Log(s, Call(Get, PVCKind, NfsPvcKey(n)))
    ensures Injected(s).None? ==> r.1 == Ok(InRecreation(s, n, pv.claimRef.value.uid))
    ensures Injected(s).Some? && Injected(s).value != NotFound ==> r.1 == Fail(Injected(s).value)
  {
    var (t, equal) := PVCUIDEqualOutcome(s, pv.claimRef.value.uid, n);
    if equal.Fail? then (t, Fail(equal.err))
    else (t, Ok(n.status.pvPhase == VolumeBound && n.status.pvcPhase == ClaimPending && !equal.value))
  }

  function ConnectedPVCDeletedOutcome(s: State, pv: PV, n: NfsPvc): (r: (State, Res<bool>))
    requires StaleCheckable(pv)
    ensures Extends(s, r.0) && SameObjects(r.0, s) && ReadOnly(Issued(s, r.0))
    ensures IsPVReleased(pv) || IsPVFailed(pv) ==> r == (s, Ok(true))
    ensures Injected(s).None? ==> r.1 == Ok(ConnectedPVCDeleted(s, pv, n))
    ensures r.1.Fail? ==> Injected(s) == Some(r.1.err) && r.1.err != NotFound
  {
    if IsPVReleased(pv) then (s, Ok(true))
    else if IsPVFailed(pv) then (s, Ok(true))
    else
      var (t, inRecreation) := PVCInRecreationStateOutcome(s, n, pv);
      assert Issued(s, t) == [Call(Get, PVCKind, NfsPvcKey(n))];
      if inRecreation.Fail? then (t, Fail(inRecreation.err)) else (t, Ok(inRecreation.value))
  }

  // ---- the PV step ----

  /** Creates the PV when it is missing; otherwise rewrites its claim when the
      claim is stale. */
  function HandlePVStateOutcome(s: State, n: NfsPvc, cfg: Config): (r: (State, Option<Error>))
    requires ClaimRefReadable(s, n)
    ensures Extends(s, r.0) && OnlyPVsChanged(s, r.0)
    ensures |Issued(s, r.0)| >= 1 && Issued(s, r.0)[0] == Call(Get, PVKind, PVKey(PVName(n.name, n.namespace)))
  {
    var pvName := PVName(n.name, n.namespace);
    var (s1, got) := Cluster.GetPV(s, pvName);
    if got.Fail? then
      if got.err != NotFound then (s1, Some(Api(got.err)))
      else
        var (s2, e) := Cluster.CreatePV(s1, PreparePV(n, cfg.storageClass, cfg.reclaimPolicy));
        assert Issued(s, s2) == [Call(Get, PVKind, PVKey(pvName)), Call(Create, PVKind, PVKey(pvName))];
        (s2, if e.Some? then Some(Wrapped("failed to create pv", Api(e.value))) else None)
    else
      var (s2, stale) := ConnectedPVCDeletedOutcome(s1, got.value, n);
      ExtendsTrans(s, s1, s2);
      if stale.Fail? then (s2, Some(Wrapped("failed to fetch claimRef PVC", Api(stale.err))))
      else if stale.value then
        var r := UpdatePVOutcome(s2, n, cfg.retrySteps);
        ExtendsTrans(s, s2, r.0);
        r
      else (s2, None)
  }

  /** A missing PV is created once from PreparePV and the step ends there,
      without the stale check. */
  lemma PVStepCreatesMissingPV(s: State, n: NfsPvc, cfg: Config)
    requires PVName(n.name, n.namespace) !in s.pvs && Injected(s).None?
    ensures var pvName := PVName(n.name, n.namespace);
      var (t, e) := HandlePVStateOutcome(s, n, cfg);
      && Issued(s, t) == [Call(Get, PVKind, PVKey(pvName)), Call(Create, PVKind, PVKey(pvName))]
      && (e.None? ==> t.pvs == s.pvs[pvName := PreparePV(n, cfg.storageClass, cfg.reclaimPolicy)])
      && (e.Some? ==> t.pvs == s.pvs && e.value.Wrapped?)
  {
    var pvName := PVName(n.name, n.namespace);
    var s1 := Cluster.GetPV(s, pvName).0;
    var s2 := Cluster.CreatePV(s1, PreparePV(n, cfg.storageClass, cfg.reclaimPolicy)).0;
    assert Issued(s, s2) == [Call(Get, PVKind, PVKey(pvName)), Call(Create, PVKind, PVKey(pvName))];
  }

  /** A PV read error other than NotFound is returned as it is and nothing is created. */
  lemma PVStepReadError(s: State, n: NfsPvc, cfg: Config)
    requires ClaimRefReadable(s, n)
    requires Injected(s).Some? && Injected(s).value != NotFound
    ensures HandlePVStateOutcome(s, n, cfg) == (Cluster.GetPV(s, PVName(n.name, n.namespace)).0, Some(Api(Injected(s).value)))
  {
  }

  /** For an existing PV: a stale claim leads to one claim rewrite (and only
      the claim changes); a live claim leads to no write at all. */
  lemma PVStepStaleClaim(s: State, n: NfsPvc, cfg: Config)
    requires KeysMatch(s) && ClaimRefReadable(s, n)
    requires PVName(n.name, n.namespace) in s.pvs
    requires Injected(s).None? && Injected(Cluster.GetPV(s, PVName(n.name, n.namespace)).0).None?
    ensures var pvName := PVName(n.name, n.namespace);
      var pv := s.pvs[pvName];
      var (t, e) := HandlePVStateOutcome(s, n, cfg);
      && (ConnectedPVCDeleted(s, pv, n) ==>
            && (e.None? ==> SameObjects(t, s.(pvs := s.pvs[pvName := pv.(claimRef := Some(ClaimRefFor(n)))])))
            && (e.Some? ==> SameObjects(t, s)))
      && (!ConnectedPVCDeleted(s, pv, n) ==> e.None? && SameObjects(t, s) && ReadOnly(Issued(s, t)))
  {
    var pvName := PVName(n.name, n.namespace);
    var pv := s.pvs[pvName];
    var (s1, got) := Cluster.GetPV(s, pvName);
    assert got == Ok(pv);
    var (s2, stale) := ConnectedPVCDeletedOutcome(s1, pv, n);
    assert stale == Ok(ConnectedPVCDeleted(s1, pv, n));
    assert ConnectedPVCDeleted(s1, pv, n) == ConnectedPVCDeleted(s, pv, n);
    ExtendsTrans(s, s1, s2);
    if stale.value {
      UpdatePVRewritesOnlyClaimRef(s2, n, cfg.retrySteps);
    } else {
      assert Issued(s, s2) == Issued(s, s1) + Issued(s1, s2);
    }
  }

  // ---- the PVC step ----

  /** Removes the bind annotation from the freshly re-read PVC when it says "yes". */
  function DeletePVCBindAnnotationOutcome(s: State, n: NfsPvc, pvc: PVC, steps: Steps): (r: (State, Option<Error>))
    ensures Extends(s, r.0) && OnlyPVCsChanged(s, r.0) && Within(s, r.0, PVCKind)
    ensures !BindCompleted(pvc) ==> r == (s, None)
  {
    if BindCompleted(pvc) then
      var (s1, got) := Cluster.GetPVC(s, NfsPvcKey(n));
      if got.Fail? then (s1, Some(Api(got.err)))
      else
        var (s2, e) := RetryOnConflictUpdateOutcome(s1, PVCObject(got.value), n.name, n.namespace, DropAnnotation(PVCBindStatusAnnotation), steps);
        (s2, if e.Some? then Some(Api(e.value)) else None)
    else (s, None)
  }

  /** Creates the PVC when it is missing; a Lost PVC loses its bind annotation. */
  function HandlePVCStateOutcome(s: State, n: NfsPvc, cfg: Config): (r: (State, Option<Error>))
    ensures Extends(s, r.0) && OnlyPVCsChanged(s, r.0)
    ensures |Issued(s, r.0)| >= 1 && Issued(s, r.0)[0] == Call(Get, PVCKind, NfsPvcKey(n))
  {
    var (s1, got) := Cluster.GetPVC(s, NfsPvcKey(n));
    if got.Fail? then
      if got.err == NotFound then
        var (s2, e) := Cluster.CreatePVC(s1, PreparePVC(n, cfg.storageClass));
        assert Issued(s, s2) == [Call(Get, PVCKind, NfsPvcKey(n)), Call(Create, PVCKind, NfsPvcKey(n))];
        (s2, if e.Some? then Some(Wrapped("failed to create pvc", Api(e.value))) else None)
      else (s1, Some(Wrapped("failed to fetch pvc", Api(got.err))))
    else if got.value.phase == ClaimLost then
      var r := DeletePVCBindAnnotationOutcome(s1, n, got.value, cfg.retrySteps);
      ExtendsTrans(s, s1, r.0);
      r
    else (s1, None)
  }

  /** A missing PVC is created once from PreparePVC; the store gives it a fresh UID. */
  lemma PVCStepCreatesMissingPVC(s: State, n: NfsPvc, cfg: Config)
    requires NfsPvcKey(n) !in s.pvcs && Injected(s).None?
    ensures var (t, e) := HandlePVCStateOutcome(s, n, cfg);
      && Issued(s, t) == [Call(Get, PVCKind, NfsPvcKey(n)), Call(Create, PVCKind, NfsPvcKey(n))]
      && (e.None? ==> t.pvcs == s.pvcs[NfsPvcKey(n) := PreparePVC(n, cfg.storageClass).(uid := Uid(s.nextUid))])
      && (e.Some? ==> t.pvcs == s.pvcs && e.value.Wrapped?)
  {
    var s1 := Cluster.GetPVC(s, NfsPvcKey(n)).0;
    var s2 := Cluster.CreatePVC(s1, PreparePVC(n, cfg.storageClass)).0;
    assert Issued(s, s2) == [Call(Get, PVCKind, NfsPvcKey(n)), Call(Create, PVCKind, NfsPvcKey(n))];
  }

  /** A PVC read error other than NotFound is returned and nothing is created. */
  lemma PVCStepReadError(s: State, n: NfsPvc, cfg: Config)
    requires Injected(s).Some? && Injected(s).value != NotFound
    ensures HandlePVCStateOutcome(s, n, cfg)
         == (Cluster.GetPVC(s, NfsPvcKey(n)).0, Some(Wrapped("failed to fetch pvc", Api(Injected(s).value))))
  {
  }

  /** An existing PVC is written only when it is Lost and its bind annotation
      is exactly "yes"; then only that annotation goes. */
  lemma PVCStepBindAnnotation(s: State, n: NfsPvc, cfg: Config)
    requires KeysMatch(s) && NfsPvcKey(n) in s.pvcs
    requires Injected(s).None?
    ensures var pvc := s.pvcs[NfsPvcKey(n)];
      var (t, e) := HandlePVCStateOutcome(s, n, cfg);
      && (!(pvc.phase == ClaimLost && BindCompleted(pvc)) ==>
            e.None? && t == Cluster.GetPVC(s, NfsPvcKey(n)).0)
      && (pvc.phase == ClaimLost && BindCompleted(pvc) && e.None? ==>
            SameObjects(t, s.(pvcs := s.pvcs[NfsPvcKey(n) := pvc.(annotations := pvc.annotations - {PVCBindStatusAnnotation})])))
      && (e.Some? ==> SameObjects(t, s))
  {
    var key := NfsPvcKey(n);
    var pvc := s.pvcs[key];
    var (s1, got) := Cluster.GetPVC(s, key);
    assert got == Ok(pvc);
    if pvc.phase == ClaimLost && BindCompleted(pvc) {
      var (s2, again) := Cluster.GetPVC(s1, key);
      if again.Ok? {
        assert again.value == pvc;
        assert StoredAs(s2, PVCObject(pvc), n.name, n.namespace);
        RetryAppliesOnce(s2, PVCObject(pvc), n.name, n.namespace, DropAnnotation(PVCBindStatusAnnotation), cfg.retrySteps);
      }
    }
  }

  // ---- both steps ----

  /** The PV step, then the PVC step; the first error ends the pass. */
  function HandleStorageObjectStateOutcome(s: State, n: NfsPvc, cfg: Config): (r: (State, Option<Error>))
    requires ClaimRefReadable(s, n)
    ensures Extends(s, r.0) && r.0.nfspvcs == s.nfspvcs
    ensures |Issued(s, r.0)| >= 1 && Issued(s, r.0)[0] == Call(Get, PVKind, PVKey(PVName(n.name, n.namespace)))
  {
    var (s1, e) := HandlePVStateOutcome(s, n, cfg);
    if e.Some? then (s1, e)
    else
      var r := HandlePVCStateOutcome(s1, n, cfg);
      ExtendsTrans(s, s1, r.0);
      r
  }

  /** The PV is handled first; a PV-step error is returned before the PVC is
      written, and otherwise the PVC step works on the state the PV step left. */
  lemma StorageSyncPVBeforePVC(s: State, n: NfsPvc, cfg: Config)
    requires ClaimRefReadable(s, n)
    ensures var (s1, e1) := HandlePVStateOutcome(s, n, cfg);
      var r := HandleStorageObjectStateOutcome(s, n, cfg);
      && (e1.Some? ==> r == (s1, e1) && r.0.pvcs == s.pvcs && r.0.nextUid == s.nextUid)
      && (e1.None? ==> r == HandlePVCStateOutcome(s1, n, cfg) && r.0.pvs == s1.pvs)
  {
  }

  /** A fault-free pass over an NfsPvc leaves both its PV and its PVC in the
      store; whichever was missing is the one the builders prepare. */
  lemma StorageSyncConverges(s: State, n: NfsPvc, cfg: Config)
    requires Reliable(s) && KeysMatch(s) && ClaimRefReadable(s, n)
    ensures var pvName := PVName(n.name, n.namespace);
      var (t, e) := HandleStorageObjectStateOutcome(s, n, cfg);
      && e.None? && pvName in t.pvs && NfsPvcKey(n) in t.pvcs
      && (pvName !in s.pvs ==> t.pvs[pvName] == PreparePV(n, cfg.storageClass, cfg.reclaimPolicy))
      && (NfsPvcKey(n) !in s.pvcs ==> t.pvcs[NfsPvcKey(n)] == PreparePVC(n, cfg.storageClass).(uid := Uid(s.nextUid)))
  {
    var (s1, e1) := HandlePVStateOutcome(s, n, cfg);
    PVStepReliable(s, n, cfg);
    ReliableExtends(s, s1);
    PVCStepReliable(s1, n, cfg);
  }

  /** With no failure the PV step succeeds and the NfsPvc's PV is then stored. */
  lemma PVStepReliable(s: State, n: NfsPvc, cfg: Config)
    requires Reliable(s) && KeysMatch(s) && ClaimRefReadable(s, n)
    ensures var pvName := PVName(n.name, n.namespace);
      var (t, e) := HandlePVStateOutcome(s, n, cfg);
      && e.None? && pvName in t.pvs
      && (pvName !in s.pvs ==> t.pvs[pvName] == PreparePV(n, cfg.storageClass, cfg.reclaimPolicy))
  {
    var pvName := PVName(n.name, n.namespace);
    var s1 := Log(s, Call(Get, PVKind, PVKey(pvName)));
    ReliableExtends(s, s1);
    if pvName !in s.pvs {
      PVStepCreatesMissingPV(s, n, cfg);
    } else {
      PVStepStaleClaim(s, n, cfg);
      var pv := s.pvs[pvName];
      var (s2, stale) := ConnectedPVCDeletedOutcome(s1, pv, n);
      if ConnectedPVCDeleted(s, pv, n) {
        assert ConnectedPVCDeleted(s1, pv, n);
        ReliableExtends(s, s2);
        var s3 := Log(s2, Call(Get, PVKind, PVKey(pvName)));
        ReliableExtends(s, s3);
        assert StoredAs(s3, PVObject(pv), pvName, n.namespace);
        RetryStopsOnNonConflict(s3, PVObject(pv), pvName, n.namespace, SetClaimRef(ClaimRefFor(n)), cfg.retrySteps);
      }
    }
  }

  /** With no failure the PVC step succeeds and the NfsPvc's PVC is then stored. */
  lemma PVCStepReliable(s: State, n: NfsPvc, cfg: Config)
    requires Reliable(s) && forall key :: key in s.pvcs ==> PVCKey(s.pvcs[key]) == key
    ensures var (t, e) := HandlePVCStateOutcome(s, n, cfg);
      && e.None? && NfsPvcKey(n) in t.pvcs
      && (NfsPvcKey(n) !in s.pvcs ==> t.pvcs[NfsPvcKey(n)] == PreparePVC(n, cfg.storageClass).(uid := Uid(s.nextUid)))
  {
    var key := NfsPvcKey(n);
    var s1 := Log(s, Call(Get, PVCKind, key));
    ReliableExtends(s, s1);
    if key !in s.pvcs {
      PVCStepCreatesMissingPVC(s, n, cfg);
    } else {
      var pvc := s.pvcs[key];
      if pvc.phase == ClaimLost && BindCompleted(pvc) {
        var s2 := Log(s1, Call(Get, PVCKind, key));
        ReliableExtends(s, s2);
        assert StoredAs(s2, PVCObject(pvc), n.name, n.namespace);
        RetryStopsOnNonConflict(s2, PVCObject(pvc), n.name, n.namespace, DropAnnotation(PVCBindStatusAnnotation), cfg.retrySteps);
      }
    }
  }

  // ---- the operations, issuing the store calls in order ----

  method PVCUIDEqual(k: Store.Client, uid: Uid, n: NfsPvc) returns (r: Res<bool>)
    modifies k
    ensures (k.State(), r) == PVCUIDEqualOutcome(old(k.State()), uid, n)
  {
    var got := k.GetPVC(NfsPvcKey(n));
    if got.Ok? {
      return Ok(got.value.uid == uid);
    }
    r := if got.err == NotFound then Ok(false) else Fail(got.err);
  }

  method PVCInRecreationState(k: Store.Client, n: NfsPvc, pv: PV) returns (r: Res<bool>)
    requires pv.claimRef.Some?
    modifies k
    ensures (k.State(), r) == PVCInRecreationStateOutcome(old(k.State()), n, pv)
  {
    var equal := PVCUIDEqual(k, pv.claimRef.value.uid, n);
    if equal.Fail? {
      return Fail(equal.err);
    }
    r := Ok(n.status.pvPhase == VolumeBound && n.status.pvcPhase == ClaimPending && !equal.value);
  }

  method IsConnectedPVCDeleted(k: Store.Client, pv: PV, n: NfsPvc) returns (r: Res<bool>)
    requires StaleCheckable(pv)
    modifies k
    ensures (k.State(), r) == ConnectedPVCDeletedOutcome(old(k.State()), pv, n)
  {
    if IsPVReleased(pv) {
      return Ok(true);
    }
    if IsPVFailed(pv) {
      return Ok(true);
    }
    r := PVCInRecreationState(k, n, pv);
  }

  method HandlePVState(k: Store.Client, n: NfsPvc, cfg: Config) returns (err: Option<Error>)
    requires ClaimRefReadable(k.State(), n)
    modifies k
    ensures (k.State(), err) == HandlePVStateOutcome(old(k.State()), n, cfg)
  {
    var pvName := PVName(n.name, n.namespace);
    var got := k.GetPV(pvName);
    if got.Fail? {
      if got.err != NotFound {
        return Some(Api(got.err));
      }
      var e := k.CreatePV(PreparePV(n, cfg.storageClass, cfg.reclaimPolicy));
      return if e.Some? then Some(Wrapped("failed to create pv", Api(e.value))) else None;
    }
    var stale := IsConnectedPVCDeleted(k, got.value, n);
    if stale.Fail? {
      return Some(Wrapped("failed to fetch claimRef PVC", Api(stale.err)));
    }
    if stale.value {
      err := Storage.UpdatePV(k, n, cfg.retrySteps);
      return;
    }
    return None;
  }

  method DeletePVCBindAnnotation(k: Store.Client, n: NfsPvc, pvc: PVC, steps: Steps) returns (err: Option<Error>)
    modifies k
    ensures (k.State(), err) == DeletePVCBindAnnotationOutcome(old(k.State()), n, pvc, steps)
  {
    if PVCBindStatusAnnotation in pvc.annotations && pvc.annotations[PVCBindStatusAnnotation] == DesiredBindStatus {
      var got := k.GetPVC(NfsPvcKey(n));
      if got.Fail? {
        return Some(Api(got.err));
      }
      var e := RetryOnConflictUpdate(k, PVCObject(got.value), n.name, n.namespace, DropAnnotation(PVCBindStatusAnnotation), steps);
      return if e.Some? then Some(Api(e.value)) else None;
    }
    return None;
  }

  method HandlePVCState(k: Store.Client, n: NfsPvc, cfg: Config) returns (err: Option<Error>)
    modifies k
    ensures (k.State(), err) == HandlePVCStateOutcome(old(k.State()), n, cfg)
  {
    var got := k.GetPVC(NfsPvcKey(n));
    if got.Fail? {
      if got.err == NotFound {
        var e := k.CreatePVC(PreparePVC(n, cfg.storageClass));
        return if e.Some? then Some(Wrapped("failed to create pvc", Api(e.value))) else None;
      }
      return Some(Wrapped("failed to fetch pvc", Api(got.err)));
    }
    if got.value.phase == ClaimLost {
      err := DeletePVCBindAnnotation(k, n, got.value, cfg.retrySteps);
      return;
    }
    return None;
  }

  method HandleStorageObjectState(k: Store.Client, n: NfsPvc, cfg: Config) returns (err: Option<Error>)
    requires ClaimRefReadable(k.State(), n)
    modifies k
    ensures (k.State(), err) == HandleStorageObjectStateOutcome(old(k.State()), n, cfg)
  {
    err := HandlePVState(k, n, cfg);
    if err.Some? {
      return;
    }
    err := HandlePVCState(k, n, cfg);
  }
}
