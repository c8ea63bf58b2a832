/** The two builders that derive a PV and a PVC from an NfsPvc, and the
    claim-reference rewrite of an existing PV. */
module Storage {
  import opened Types
  import opened Cluster
  import opened Common
  import Store

  const NfsPvcDanaLabel := "nfspvc.dana.io/nfspvc-owner"

  /** The claim reference the engine gives its PV: the NfsPvc's own
      (name, namespace), kind persistentvolumeclaims, no UID. */
  function ClaimRefFor(n: NfsPvc): ClaimRef
  {
    ClaimRef(n.name, n.namespace, ClaimKind, NoUid)
  }

  function MountOptionsFor(nfsVersion: string): (opts: seq<string>)
    ensures nfsVersion == "" <==> opts == []
  {
    if nfsVersion != "" then ["nfsvers=" + nfsVersion] else []
  }

  /** A new, unbound PVC under the NfsPvc's own key, asking for the PV the
      NfsPvc derives. */
  function PreparePVC(n: NfsPvc, storageClass: string): (pvc: PVC)
    ensures PVCKey(pvc) == NfsPvcKey(n) && pvc.volumeName == PVName(n.name, n.namespace)
    ensures pvc.uid == NoUid && pvc.phase == "" && pvc.annotations == map[]
  {
    PVC(
      name := n.name,
      namespace := n.namespace,
      labels := map[NfsPvcDanaLabel := n.name],
      annotations := map[],
      storageClass := storageClass,
      volumeName := PVName(n.name, n.namespace),
      accessModes := n.spec.accessModes,
      requests := n.spec.capacity,
      uid := NoUid,
      phase := "")
  }

  /** A new PV under the derived name, already reserved for the NfsPvc's PVC. */
  function PreparePV(n: NfsPvc, storageClass: string, reclaimPolicy: string): (pv: PV)
    ensures pv.name == PVName(n.name, n.namespace) && pv.phase == "" && !pv.deleting
    ensures pv.claimRef.Some? && Key(pv.claimRef.value.name, pv.claimRef.value.namespace) == NfsPvcKey(n)
  {
    PV(
      name := PVName(n.name, n.namespace),
      labels := map[NfsPvcDanaLabel := n.name],
      storageClass := storageClass,
      capacity := n.spec.capacity,
      accessModes := n.spec.accessModes,
      reclaimPolicy := reclaimPolicy,
      claimRef := Some(ClaimRefFor(n)),
      server := n.spec.server,
      path := n.spec.path,
      mountOptions := MountOptionsFor(n.spec.nfsVersion),
      phase := "",
      deleting := false)
  }

  /** What PreparePV is made of: the derived name, the owner label, the NfsPvc's
      capacity, access modes, server and path, the given class and policy
      verbatim, a claim reference without UID, and the mount option only when a
      protocol version is given. */
  lemma PreparePVFields(n: NfsPvc, storageClass: string, reclaimPolicy: string)
    ensures var pv := PreparePV(n, storageClass, reclaimPolicy);
      && pv.name == n.name + "-" + n.namespace + "-pv"
      && NfsPvcDanaLabel in pv.labels && pv.labels[NfsPvcDanaLabel] == n.name
      && pv.capacity == n.spec.capacity && pv.accessModes == n.spec.accessModes
      && pv.server == n.spec.server && pv.path == n.spec.path
      && pv.storageClass == storageClass && pv.reclaimPolicy == reclaimPolicy
      && pv.claimRef == Some(ClaimRef(n.name, n.namespace, "persistentvolumeclaims", NoUid))
      && (n.spec.nfsVersion == "" ==> pv.mountOptions == [])
      && (n.spec.nfsVersion != "" ==> pv.mountOptions == ["nfsvers=" + n.spec.nfsVersion])
  {
  }

  lemma PreparePVCFields(n: NfsPvc, storageClass: string)
    ensures var pvc := PreparePVC(n, storageClass);
      && PVCKey(pvc) == NfsPvcKey(n)
      && pvc.volumeName == n.name + "-" + n.namespace + "-pv"
      && pvc.requests == n.spec.capacity && pvc.accessModes == n.spec.accessModes
      && pvc.storageClass == storageClass
      && pvc.labels[NfsPvcDanaLabel] == n.name
  {
  }

  /** The builders point at each other: the PVC names the PV as its volume and
      the PV's claim reference names the PVC. */
  lemma BuildersAgree(n: NfsPvc, storageClass: string, reclaimPolicy: string)
    ensures var pv := PreparePV(n, storageClass, reclaimPolicy);
      var pvc := PreparePVC(n, storageClass);
      && pvc.volumeName == pv.name
      && pv.claimRef.Some?
      && Key(pv.claimRef.value.name, pv.claimRef.value.namespace) == PVCKey(pvc)
  {
  }

  /** Within one namespace the derived PV names of distinct NfsPvcs differ. */
  lemma PVNameInjectiveInNamespace(a: string, b: string, namespace: string)
    requires PVName(a, namespace) == PVName(b, namespace)
    ensures a == b
  {
    var suffix := "-" + namespace + "-pv";
    assert PVName(a, namespace) == a + suffix;
    assert PVName(b, namespace) == b + suffix;
    assert |a| == |b|;
    assert a == PVName(a, namespace)[..|a|];
    assert b == PVName(b, namespace)[..|b|];
  }

  /** Across namespaces the derived name can collide: NfsPvc "a-b" in namespace
      "c" and NfsPvc "a" in namespace "b-c" derive the same PV name. */
  lemma PVNameCollidesAcrossNamespaces()
    ensures PVName("a-b", "c") == PVName("a", "b-c")
    ensures Key("a-b", "c") != Key("a", "b-c")
  {
  }

  /** Re-reads the PV, then rewrites only its claim reference (retried on
      conflict). A failed read is returned as it is. */
  function UpdatePVOutcome(s: State, n: NfsPvc, steps: Steps): (r: (State, Option<Error>))
    ensures Extends(s, r.0) && Within(s, r.0, PVKind)
  {
    var pvName := PVName(n.name, n.namespace);
    var (s1, got) := Cluster.GetPV(s, pvName);
    if got.Fail? then (s1, Some(Api(got.err)))
    else
      var (s2, e) := RetryOnConflictUpdateOutcome(s1, PVObject(got.value), pvName, n.namespace, SetClaimRef(ClaimRefFor(n)), steps);
      (s2, if e.Some? then Some(Api(e.value)) else None)
  }

  /** On success exactly the claim reference of the PV changed, to the
      NfsPvc's reference with the UID cleared; on failure no object changed,
      and a failed read issues nothing after it. */
  lemma UpdatePVRewritesOnlyClaimRef(s: State, n: NfsPvc, steps: Steps)
    requires var pvName := PVName(n.name, n.namespace); pvName in s.pvs ==> s.pvs[pvName].name == pvName
    ensures var pvName := PVName(n.name, n.namespace);
      var (t, e) := UpdatePVOutcome(s, n, steps);
      && (e.None? ==>
            (pvName in s.pvs && SameObjects(t, s.(pvs := s.pvs[pvName := s.pvs[pvName].(claimRef := Some(ClaimRefFor(n)))]))))
      && (e.Some? ==> SameObjects(t, s))
      && (Cluster.GetPV(s, pvName).1.Fail? ==> t == Cluster.GetPV(s, pvName).0 && e == Some(Api(Cluster.GetPV(s, pvName).1.err)))
  {
    var pvName := PVName(n.name, n.namespace);
    var (s1, got) := Cluster.GetPV(s, pvName);
    if got.Ok? {
      assert StoredAs(s1, PVObject(got.value), pvName, n.namespace);
      RetryAppliesOnce(s1, PVObject(got.value), pvName, n.namespace, SetClaimRef(ClaimRefFor(n)), steps);
    }
  }

  method UpdatePV(k: Store.Client, n: NfsPvc, steps: Steps) returns (err: Option<Error>)
    modifies k
    ensures (k.State(), err) == UpdatePVOutcome(old(k.State()), n, steps)
  {
    var pvName := PVName(n.name, n.namespace);
    var got := k.GetPV(pvName);
    if got.Fail? {
      return Some(Api(got.err));
    }
    var e := RetryOnConflictUpdate(k, PVObject(got.value), pvName, n.namespace, SetClaimRef(ClaimRefFor(n)), steps);
    err := if e.Some? then Some(Api(e.value)) else None;
  }
}
