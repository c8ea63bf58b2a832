/** The older engine's status sync: it records only the PVC phase, and only a
    real phase (neither empty nor "Unknown") that differs from the recorded one. */
module LegacyStatus {
  import opened Types
  import opened Cluster
  import Store

  const PvcPhaseUnknown := "Unknown"

  /** The phase read for the PVC: its own phase, "Unknown" when it is missing,
      or the read error. */
  function ObservedPhase(got: Res<PVC>): (r: Res<string>)
    ensures got.Ok? ==> r == Ok(got.value.phase)
    ensures got == Fail(NotFound) ==> r == Ok(PvcPhaseUnknown)
    ensures got.Fail? && got.err != NotFound ==> r == Fail(got.err)
  {
    if got.Ok? then Ok(got.value.phase)
    else if got.err == NotFound then Ok(PvcPhaseUnknown)
    else Fail(got.err)
  }

  /** A phase worth recording over the given one. */
  predicate Records(phase: string, recorded: string)
  {
    phase != "" && phase != PvcPhaseUnknown && recorded != phase
  }

  /** Re-reads the NfsPvc (a missing one ends the sync quietly), reads the PVC,
      and writes the PVC phase through the status subresource when Records
      holds; nothing is retried. */
  function SyncNfsPvcStatusOutcome(s: State, n: NfsPvc): (r: (State, Option<Error>))
    ensures Extends(s, r.0) && OnlyNfsPvcsChanged(s, r.0) && r.0.nfspvcs.Keys == s.nfspvcs.Keys
    ensures |Issued(s, r.0)| >= 1 && Issued(s, r.0)[0] == Call(Get, NfsPvcKind, NfsPvcKey(n))
  {
    var key := NfsPvcKey(n);
    var (s1, obj) := Cluster.GetNfsPvc(s, key);
    if obj.Fail? then
      if obj.err == NotFound then (s1, None)
      else (s1, Some(Wrapped("failed to get NfsPvc", Api(obj.err))))
    else
      var (s2, got) := Cluster.GetPVC(s1, key);
      var phase := ObservedPhase(got);
      if phase.Fail? then (s2, Some(Wrapped("failed to fetch Pvc", Api(phase.err))))
      else if Records(phase.value, obj.value.status.pvcPhase) then
        var o := obj.value;
        var (s3, e) := Cluster.UpdateNfsPvcStatus(s2, o.(status := o.status.(pvcPhase := phase.value)));
        assert s3.calls == s.calls + [Call(Get, NfsPvcKind, key), Call(Get, PVCKind, key), Call(UpdateStatus, NfsPvcKind, NfsPvcKey(o))];
        (s3, if e.Some? then Some(Wrapped("failed to update NfsPvc status", Api(e.value))) else None)
      else (s2, None)
  }

  /** With no failure scheduled: the stored NfsPvc's recorded PVC phase becomes
      the PVC's phase when that phase is real and differs, and nothing else
      changes; its PV phase is never touched. A missing PVC or an empty phase
      leaves the recorded phase as it was. */
  lemma SyncRecordsOnlyRealPhases(s: State, n: NfsPvc)
    requires Reliable(s) && KeysMatch(s)
    ensures var key := NfsPvcKey(n);
      var (t, e) := SyncNfsPvcStatusOutcome(s, n);
      && e.None?
      && (key !in s.nfspvcs ==> SameObjects(t, s) && ReadOnly(Issued(s, t)))
      && (key in s.nfspvcs && key in s.pvcs && Records(s.pvcs[key].phase, s.nfspvcs[key].status.pvcPhase) ==>
            var stored := s.nfspvcs[key];
            SameObjects(t, s.(nfspvcs := s.nfspvcs[key := stored.(status := stored.status.(pvcPhase := s.pvcs[key].phase))])))
      && (key in s.nfspvcs && !(key in s.pvcs && Records(s.pvcs[key].phase, s.nfspvcs[key].status.pvcPhase)) ==>
            SameObjects(t, s) && ReadOnly(Issued(s, t)))
  {
    var key := NfsPvcKey(n);
    var s1 := Log(s, Call(Get, NfsPvcKind, key));
    var s2 := Log(s1, Call(Get, PVCKind, key));
    ReliableExtends(s, s1);
    ReliableExtends(s, s2);
    if key in s.nfspvcs && !(key in s.pvcs && Records(s.pvcs[key].phase, s.nfspvcs[key].status.pvcPhase)) {
      assert !Records(ObservedPhase(Cluster.GetPVC(s1, key).1).value, s.nfspvcs[key].status.pvcPhase);
      assert Issued(s, s2) == [Call(Get, NfsPvcKind, key), Call(Get, PVCKind, key)];
    }
  }

  /** Read errors: a missing NfsPvc ends the sync quietly, any other NfsPvc
      read error is returned wrapped; a PVC read error other than NotFound is
      returned wrapped; none of them leads to a write. */
  lemma SyncReadErrors(s: State, n: NfsPvc)
    ensures var key := NfsPvcKey(n);
      var s1 := Log(s, Call(Get, NfsPvcKind, key));
      var r := SyncNfsPvcStatusOutcome(s, n);
      && (Injected(s) == Some(NotFound) ==> r == (s1, None))
      && (Injected(s).Some? && Injected(s).value != NotFound ==> r == (s1, Some(Wrapped("failed to get NfsPvc", Api(Injected(s).value)))))
      && (Injected(s).None? && key in s.nfspvcs && Injected(s1).Some? && Injected(s1).value != NotFound ==>
            r == (Log(s1, Call(Get, PVCKind, key)), Some(Wrapped("failed to fetch Pvc", Api(Injected(s1).value)))))
  {
  }

  /** The status sync never changes an NfsPvc's spec or finalizers. */
  lemma SyncKeepsSpecs(s: State, n: NfsPvc)
    ensures var t := SyncNfsPvcStatusOutcome(s, n).0;
      forall k :: k in s.nfspvcs ==> t.nfspvcs[k].spec == s.nfspvcs[k].spec && t.nfspvcs[k].finalizers == s.nfspvcs[k].finalizers
  {
  }

  /** A sync followed by another one, with no failure and no outside change,
      writes at most once. */
  lemma SyncTwiceWritesOnce(s: State, n: NfsPvc)
    requires Reliable(s) && KeysMatch(s)
    ensures var (t, _) := SyncNfsPvcStatusOutcome(s, n);
      var (u, e) := SyncNfsPvcStatusOutcome(t, n);
      e.None? && SameObjects(u, t) && ReadOnly(Issued(t, u))
  {
    var key := NfsPvcKey(n);
    SyncRecordsOnlyRealPhases(s, n);
    var t := SyncNfsPvcStatusOutcome(s, n).0;
    ReliableExtends(s, t);
    assert KeysMatch(t);
    SyncRecordsOnlyRealPhases(t, n);
  }

  method SyncNfsPvcStatus(k: Store.Client, n: NfsPvc) returns (err: Option<Error>)
    modifies k
    ensures (k.State(), err) == SyncNfsPvcStatusOutcome(old(k.State()), n)
  {
    var key := NfsPvcKey(n);
    var obj := k.GetNfsPvc(key);
    if obj.Fail? {
      if obj.err == NotFound {
        return None;
      }
      return Some(Wrapped("failed to get NfsPvc", Api(obj.err)));
    }
    var got := k.GetPVC(key);
    var phase := ObservedPhase(got);
    if phase.Fail? {
      return Some(Wrapped("failed to fetch Pvc", Api(phase.err)));
    }
    if Records(phase.value, obj.value.status.pvcPhase) {
      var o := obj.value;
      var e := k.UpdateNfsPvcStatus(o.(status := o.status.(pvcPhase := phase.value)));
      if e.Some? {
        return Some(Wrapped("failed to update NfsPvc status", Api(e.value)));
      }
    }
    return None;
  }
}
