/** The status projector: records the observed phases of the PVC and the PV in
    the NfsPvc's status, writing only when an observed value differs. */
module Status {
  import opened Types
  import opened Cluster
  import opened Common
  import Store

  const PhaseUnknown := "Unknown"
  const PhaseNotFound := "NotFound"

  /** The phase text a lookup outcome maps to. */
  function PhaseOf<T>(got: Res<T>, phase: T -> string): (p: string)
    ensures got.Ok? ==> p == phase(got.value)
    ensures got == Fail(NotFound) ==> p == PhaseNotFound
    ensures got.Fail? && got.err != NotFound ==> p == PhaseUnknown
  {
    if got.Ok? then phase(got.value)
    else if got.err == NotFound then PhaseNotFound
    else PhaseUnknown
  }

  /** The phase of a stored PVC, or NotFound, judged on the store's contents. */
  function StoredPVCPhase(s: State, key: Key): string
  {
    if key in s.pvcs then s.pvcs[key].phase else PhaseNotFound
  }

  function StoredPVPhase(s: State, name: string): string
  {
    if name in s.pvs then s.pvs[name].phase else PhaseNotFound
  }

  function PVCStatusOutcome(s: State, n: NfsPvc): (r: (State, string))
    ensures r.0 == Log(s, Call(Get, PVCKind, NfsPvcKey(n)))
    ensures Injected(s).None? ==> r.1 == StoredPVCPhase(s, NfsPvcKey(n))
    ensures Injected(s) == Some(NotFound) ==> r.1 == PhaseNotFound
    ensures Injected(s).Some? && Injected(s).value != NotFound ==> r.1 == PhaseUnknown
  {
    var (t, got) := Cluster.GetPVC(s, NfsPvcKey(n));
    (t, PhaseOf(got, (pvc: PVC) => pvc.phase))
  }

  function PVStatusOutcome(s: State, n: NfsPvc): (r: (State, string))
    ensures r.0 == Log(s, Call(Get, PVKind, PVKey(PVName(n.name, n.namespace))))
    ensures Injected(s).None? ==> r.1 == StoredPVPhase(s, PVName(n.name, n.namespace))
    ensures Injected(s) == Some(NotFound) ==> r.1 == PhaseNotFound
    ensures Injected(s).Some? && Injected(s).value != NotFound ==> r.1 == PhaseUnknown
  {
    var (t, got) := Cluster.GetPV(s, PVName(n.name, n.namespace));
    (t, PhaseOf(got, (pv: PV) => pv.phase))
  }

  /** Re-reads the NfsPvc and writes both phases through the status
      subresource, retried on conflict; a failed re-read is returned as it is. */
  function EnsureOutcome(s: State, pvcPhase: string, pvPhase: string, n: NfsPvc, steps: Steps): (r: (State, Option<Error>))
    ensures Extends(s, r.0) && Within(s, r.0, NfsPvcKind)
    ensures |Issued(s, r.0)| >= 1 && Issued(s, r.0)[0] == Call(Get, NfsPvcKind, NfsPvcKey(n))
  {
    var (s1, got) := Cluster.GetNfsPvc(s, NfsPvcKey(n));
    if got.Fail? then (s1, Some(Api(got.err)))
    else
      var (s2, e) := RetryOnConflictUpdateOutcome(s1, NfsPvcObject(got.value), n.name, n.namespace, SetPhases(pvcPhase, pvPhase), steps);
      ExtendsTrans(s, s1, s2);
      (s2, if e.Some? then Some(Api(e.value)) else None)
  }

  /** Observes both phases; writes only when one differs from the NfsPvc's status. */
  function UpdateOutcome(s: State, n: NfsPvc, steps: Steps): (r: (State, Option<Error>))
    ensures Extends(s, r.0) && Within(s, r.0, NfsPvcKind)
  {
    var (s1, pvcPhase) := PVCStatusOutcome(s, n);
    var (s2, pvPhase) := PVStatusOutcome(s1, n);
    if pvcPhase != n.status.pvcPhase || pvPhase != n.status.pvPhase then
      var r := EnsureOutcome(s2, pvcPhase, pvPhase, n, steps);
      ExtendsTrans(s, s2, r.0);
      r
    else (s2, None)
  }

  /** The phases Update observes when no read fails. */
  function Observed(s: State, n: NfsPvc): NfsPvcStatus
  {
    NfsPvcStatus(StoredPVCPhase(s, NfsPvcKey(n)), StoredPVPhase(s, PVName(n.name, n.namespace)))
  }

  /** With both reads answered by the store: no write when the recorded status
      already matches; otherwise the NfsPvc is re-read first, and a successful
      write changes only its status, to the observed phases. */
  lemma UpdateWritesOnlyOnChange(s: State, n: NfsPvc, steps: Steps)
    requires KeysMatch(s)
    requires Injected(s).None? && Injected(Log(s, Call(Get, PVCKind, NfsPvcKey(n)))).None?
    ensures var key := NfsPvcKey(n);
      var (t, e) := UpdateOutcome(s, n, steps);
      && (n.status == Observed(s, n) ==> e.None? && |Issued(s, t)| == 2 && ReadOnly(Issued(s, t)) && SameObjects(t, s))
      && (n.status != Observed(s, n) ==>
            && |Issued(s, t)| >= 3 && Issued(s, t)[2] == Call(Get, NfsPvcKind, key)
            && (e.None? ==> key in s.nfspvcs && SameObjects(t, s.(nfspvcs := s.nfspvcs[key := s.nfspvcs[key].(status := Observed(s, n))])))
            && (e.Some? ==> SameObjects(t, s)))
  {
    var key := NfsPvcKey(n);
    var (s1, pvcPhase) := PVCStatusOutcome(s, n);
    var (s2, pvPhase) := PVStatusOutcome(s1, n);
    assert NfsPvcStatus(pvcPhase, pvPhase) == Observed(s, n);
    assert Issued(s, s2) == [Call(Get, PVCKind, key), Call(Get, PVKind, PVKey(PVName(n.name, n.namespace)))];
    if n.status != Observed(s, n) {
      var t := EnsureOutcome(s2, pvcPhase, pvPhase, n, steps).0;
      ExtendsTrans(s, s2, t);
      EnsureWritesStatus(s2, pvcPhase, pvPhase, n, steps);
    }
  }

  /** On a store whose keys match its objects: a successful Ensure changes only
      the stored NfsPvc's status, to the given phases; a failed one changes
      nothing. */
  lemma EnsureWritesStatus(s: State, pvcPhase: string, pvPhase: string, n: NfsPvc, steps: Steps)
    requires KeysMatch(s)
    ensures var key := NfsPvcKey(n);
      var (t, e) := EnsureOutcome(s, pvcPhase, pvPhase, n, steps);
      && (e.None? ==> key in s.nfspvcs && SameObjects(t, s.(nfspvcs := s.nfspvcs[key := s.nfspvcs[key].(status := NfsPvcStatus(pvcPhase, pvPhase))])))
      && (e.Some? ==> SameObjects(t, s))
  {
    var (s1, got) := Cluster.GetNfsPvc(s, NfsPvcKey(n));
    if got.Ok? {
      assert StoredAs(s1, NfsPvcObject(got.value), n.name, n.namespace);
      RetryAppliesOnce(s1, NfsPvcObject(got.value), n.name, n.namespace, SetPhases(pvcPhase, pvPhase), steps);
    }
  }

  /** A failed re-read before the write is returned as it is, with no write. */
  lemma EnsureReadError(s: State, pvcPhase: string, pvPhase: string, n: NfsPvc, steps: Steps)
    requires Injected(s).Some?
    ensures EnsureOutcome(s, pvcPhase, pvPhase, n, steps) == (Log(s, Call(Get, NfsPvcKind, NfsPvcKey(n))), Some(Api(Injected(s).value)))
  {
  }

  /** With no failure scheduled, Update on the stored NfsPvc leaves it holding
      the observed phases and touches nothing else. */
  lemma UpdateSettles(s: State, n: NfsPvc, steps: Steps)
    requires KeysMatch(s) && Reliable(s)
    requires NfsPvcKey(n) in s.nfspvcs && s.nfspvcs[NfsPvcKey(n)] == n
    ensures var (t, e) := UpdateOutcome(s, n, steps);
      && e.None? && KeysMatch(t) && Reliable(t)
      && t.nfspvcs == s.nfspvcs[NfsPvcKey(n) := n.(status := Observed(s, n))]
      && t.pvs == s.pvs && t.pvcs == s.pvcs
  {
    var key := NfsPvcKey(n);
    ReliableExtends(s, Log(s, Call(Get, PVCKind, key)));
    UpdateWritesOnlyOnChange(s, n, steps);
    var t := UpdateOutcome(s, n, steps).0;
    ReliableExtends(s, t);
    if n.status == Observed(s, n) {
      assert s.nfspvcs[key := n.(status := Observed(s, n))] == s.nfspvcs;
    } else {
      ReliableRetrySucceeds(s, n, steps);
      assert NfsPvcKey(n.(status := Observed(s, n))) == key;
    }
  }


  /** Idempotence: with no failure and no outside change, an Update on the
      stored NfsPvc followed by an Update on the object it left issues no
      write the second time. */
  lemma UpdateTwiceWritesOnce(s: State, n: NfsPvc, steps: Steps)
    requires KeysMatch(s) && Reliable(s)
    requires NfsPvcKey(n) in s.nfspvcs && s.nfspvcs[NfsPvcKey(n)] == n
    ensures var (t, e) := UpdateOutcome(s, n, steps);
      && e.None? && NfsPvcKey(n) in t.nfspvcs
      && var (u, e') := UpdateOutcome(t, t.nfspvcs[NfsPvcKey(n)], steps);
         e'.None? && SameObjects(u, t) && ReadOnly(Issued(t, u))
  {
    var key := NfsPvcKey(n);
    UpdateSettles(s, n, steps);
    var t := UpdateOutcome(s, n, steps).0;
    var m := t.nfspvcs[key];
    assert m == n.(status := Observed(s, n));
    assert Observed(t, m) == Observed(s, n);
    ReliableExtends(t, Log(t, Call(Get, PVCKind, key)));
    UpdateWritesOnlyOnChange(t, m, steps);
  }

  /** With no failure scheduled, the status write of Update succeeds. */
  lemma ReliableRetrySucceeds(s: State, n: NfsPvc, steps: Steps)
    requires KeysMatch(s) && Reliable(s)
    requires NfsPvcKey(n) in s.nfspvcs
    ensures UpdateOutcome(s, n, steps).1.None?
  {
    var key := NfsPvcKey(n);
    var s1 := Log(s, Call(Get, PVCKind, key));
    var s2 := Log(s1, Call(Get, PVKind, PVKey(PVName(n.name, n.namespace))));
    var s3 := Log(s2, Call(Get, NfsPvcKind, key));
    ReliableExtends(s, s3);
  }

  // ---- the operations ----

  method GetPVCStatus(k: Store.Client, n: NfsPvc) returns (phase: string)
    modifies k
    ensures (k.State(), phase) == PVCStatusOutcome(old(k.State()), n)
  {
    var got := k.GetPVC(NfsPvcKey(n));
    phase := PhaseOf(got, (pvc: PVC) => pvc.phase);
  }

  method GetPVStatus(k: Store.Client, n: NfsPvc) returns (phase: string)
    modifies k
    ensures (k.State(), phase) == PVStatusOutcome(old(k.State()), n)
  {
    var got := k.GetPV(PVName(n.name, n.namespace));
    phase := PhaseOf(got, (pv: PV) => pv.phase);
  }

  method Ensure(k: Store.Client, pvcPhase: string, pvPhase: string, n: NfsPvc, steps: Steps) returns (err: Option<Error>)
    modifies k
    ensures (k.State(), err) == EnsureOutcome(old(k.State()), pvcPhase, pvPhase, n, steps)
  {
    var got := k.GetNfsPvc(NfsPvcKey(n));
    if got.Fail? {
      return Some(Api(got.err));
    }
    var e := RetryOnConflictUpdate(k, NfsPvcObject(got.value), n.name, n.namespace, SetPhases(pvcPhase, pvPhase), steps);
    err := if e.Some? then Some(Api(e.value)) else None;
  }

  method Update(k: Store.Client, n: NfsPvc, steps: Steps) returns (err: Option<Error>)
    modifies k
    ensures (k.State(), err) == UpdateOutcome(old(k.State()), n, steps)
  {
    var pvcPhase := GetPVCStatus(k, n);
    var pvPhase := GetPVStatus(k, n);
    if pvcPhase != n.status.pvcPhase || pvPhase != n.status.pvPhase {
      err := Ensure(k, pvcPhase, pvPhase, n, steps);
      return;
    }
    return None;
  }
}
