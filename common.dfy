/** Configuration checks, the shared finalizer name, and the conflict-retry
    step every component uses to write a shared object. */
module Common {
  import opened Types
  import opened Cluster
  import Store

  const StorageClassEnv := "STORAGE_CLASS"
  const ReclaimPolicyEnv := "RECLAIM_POLICY"
  const UndefinedEnvironmentVariableMsg := "failed to get configuration environment variable"
  const InvalidReclaimPolicyMsg := "invalid default Persistent Volume Reclaim Policy"
  const NfsPvcDeletionFinalizer := "nfspvc.dana.io/nfspvc-protection"

  const AllowedReclaimPolicies: seq<string> := ["Recycle", "Delete", "Retain"]

  function IsReclaimPolicyValid(reclaimPolicy: string): (valid: bool)
    ensures valid <==> reclaimPolicy == "Recycle" || reclaimPolicy == "Delete" || reclaimPolicy == "Retain"
  {
    reclaimPolicy in AllowedReclaimPolicies
  }

  /** A retry budget: the number of attempts, at least one. */
  type Steps = n: nat | 1 <= n witness 1

  /** What the engine reads from its process-wide settings. */
  datatype Config = Config(storageClass: string, reclaimPolicy: string, retrySteps: Steps)

  /** The package-level settings, assigned by VerifyEnvironmentVariables. */
  class Globals {
    var StorageClass: string
    var ReclaimPolicy: string

    constructor ()
      ensures StorageClass == "" && ReclaimPolicy == ""
    {
      StorageClass, ReclaimPolicy := "", "";
    }

    /** The configuration the engine runs with once the settings are assigned. */
    function Current(retrySteps: Steps): Config
      reads this
    {
      Config(StorageClass, ReclaimPolicy, retrySteps)
    }

    /** Reads STORAGE_CLASS, then RECLAIM_POLICY, from `env`; presence is what
        counts, an empty value is accepted. */
    method VerifyEnvironmentVariables(env: map<string, string>) returns (ok: bool, msg: string)
      modifies this
      ensures ok <==> StorageClassEnv in env && ReclaimPolicyEnv in env && IsReclaimPolicyValid(env[ReclaimPolicyEnv])
      ensures ok ==> msg == "" && StorageClass == env[StorageClassEnv] && ReclaimPolicy == env[ReclaimPolicyEnv]
      ensures ok ==> forall st: Steps ::
        Current(st) == Config(env[StorageClassEnv], env[ReclaimPolicyEnv], st) && IsReclaimPolicyValid(Current(st).reclaimPolicy)
      ensures StorageClassEnv !in env ==>
        msg == UndefinedEnvironmentVariableMsg && StorageClass == old(StorageClass) && ReclaimPolicy == old(ReclaimPolicy)
      ensures StorageClassEnv in env && ReclaimPolicyEnv !in env ==>
        msg == UndefinedEnvironmentVariableMsg && StorageClass == env[StorageClassEnv] && ReclaimPolicy == old(ReclaimPolicy)
      ensures StorageClassEnv in env && ReclaimPolicyEnv in env && !IsReclaimPolicyValid(env[ReclaimPolicyEnv]) ==>
        msg == InvalidReclaimPolicyMsg && StorageClass == env[StorageClassEnv] && ReclaimPolicy == old(ReclaimPolicy)
    {
      if StorageClassEnv !in env {
        return false, UndefinedEnvironmentVariableMsg;
      }
      StorageClass := env[StorageClassEnv];
      if ReclaimPolicyEnv !in env {
        return false, UndefinedEnvironmentVariableMsg;
      }
      var reclaimPolicy := env[ReclaimPolicyEnv];
      if !IsReclaimPolicyValid(reclaimPolicy) {
        return false, InvalidReclaimPolicyMsg;
      }
      ReclaimPolicy := reclaimPolicy;
      return true, "";
    }
  }

  // ---- optimistic-concurrency retry ----

  /** The object a retried write works on. */
  datatype Object = PVObject(pv: PV) | PVCObject(pvc: PVC) | NfsPvcObject(nfspvc: NfsPvc)

  /** The change the retried closure makes to the object before writing it. */
  datatype Mutation =
    | SetClaimRef(ref: ClaimRef)
    | DropAnnotation(annotation: string)
    | SetPhases(pvcPhase: string, pvPhase: string)

  function KindOf(o: Object): Kind
  {
    match o
    case PVObject(_) => PVKind
    case PVCObject(_) => PVCKind
    case NfsPvcObject(_) => NfsPvcKind
  }

  function Target(m: Mutation): Kind
  {
    match m
    case SetClaimRef(_) => PVKind
    case DropAnnotation(_) => PVCKind
    case SetPhases(_, _) => NfsPvcKind
  }

  predicate Fits(m: Mutation, o: Object) { Target(m) == KindOf(o) }

  function Mutate(m: Mutation, o: Object): (r: Object)
    requires Fits(m, o)
    ensures KindOf(r) == KindOf(o)
  {
    match m
    case SetClaimRef(ref) => PVObject(o.pv.(claimRef := Some(ref)))
    case DropAnnotation(a) => PVCObject(o.pvc.(annotations := o.pvc.annotations - {a}))
    case SetPhases(c, v) => NfsPvcObject(o.nfspvc.(status := NfsPvcStatus(c, v)))
  }

  /** The write the closure issues: PVs and PVCs by Update, the NfsPvc through
      its status subresource. */
  function Write(s: State, o: Object): (r: (State, Option<ApiError>))
    ensures Extends(s, r.0) && |r.0.calls| == |s.calls| + 1
    ensures Within(s, r.0, KindOf(o))
    ensures r.1.Some? ==> SameObjects(r.0, s)
  {
    match o
    case PVObject(pv) => Cluster.UpdatePV(s, pv)
    case PVCObject(pvc) => Cluster.UpdatePVC(s, pvc)
    case NfsPvcObject(n) => Cluster.UpdateNfsPvcStatus(s, n)
  }

  /** The re-read of the object by (name, namespace) after a conflict. */
  function Refetch(s: State, o: Object, name: string, namespace: string): (r: (State, Res<Object>))
    ensures r.1.Ok? ==> KindOf(r.1.value) == KindOf(o)
    ensures Extends(s, r.0) && |r.0.calls| == |s.calls| + 1 && SameObjects(r.0, s)
  {
    match o
    case PVObject(_) =>
      var (t, g) := Cluster.GetPV(s, name);
      (t, if g.Ok? then Ok(PVObject(g.value)) else Fail(g.err))
    case PVCObject(_) =>
      var (t, g) := Cluster.GetPVC(s, Key(name, namespace));
      (t, if g.Ok? then Ok(PVCObject(g.value)) else Fail(g.err))
    case NfsPvcObject(_) =>
      var (t, g) := Cluster.GetNfsPvc(s, Key(name, namespace));
      (t, if g.Ok? then Ok(NfsPvcObject(g.value)) else Fail(g.err))
  }

  /** Only objects of the mutated kind change, and none appears or disappears. */
  predicate Within(s: State, t: State, k: Kind)
  {
    && t.nextUid == s.nextUid
    && (if k == PVKind then t.pvs.Keys == s.pvs.Keys else t.pvs == s.pvs)
    && (if k == PVCKind then t.pvcs.Keys == s.pvcs.Keys else t.pvcs == s.pvcs)
    && (if k == NfsPvcKind then t.nfspvcs.Keys == s.nfspvcs.Keys else t.nfspvcs == s.nfspvcs)
  }

  /** What one attempt leaves: the loop ends with an error (or none), or it
      goes on with the object it re-read. */
  datatype Attempt = Finished(state: State, err: Option<ApiError>) | Again(state: State, next: Object)

  /** One attempt: mutate the object and write it; on a conflict re-read it.
      A failed re-read other than a conflict ends the loop with that error, and
      the conflict of the `last` attempt ends it too. A re-read that itself
      conflicts keeps the object as it was. */
  function AttemptOutcome(s: State, o: Object, name: string, namespace: string, m: Mutation, last: bool): (r: Attempt)
    requires Fits(m, o)
    ensures Extends(s, r.state) && |r.state.calls| <= |s.calls| + 2
    ensures Within(s, r.state, Target(m))
    ensures r.Again? ==> Fits(m, r.next) && !last
    ensures Write(s, Mutate(m, o)).1 != Some(Conflict) ==> r == Finished(Write(s, Mutate(m, o)).0, Write(s, Mutate(m, o)).1)
  {
    var (s1, e) := Write(s, Mutate(m, o));
    if e != Some(Conflict) then Finished(s1, e)
    else
      var (s2, g) := Refetch(s1, o, name, namespace);
      if g.Fail? && g.err != Conflict then Finished(s2, Some(g.err))
      else if last then Finished(s2, Some(Conflict))
      else Again(s2, if g.Ok? then g.value else o)
  }

  /** Up to `steps` attempts. The result is the first outcome that is not a
      conflict, or the conflict of the last attempt. */
  function RetryOnConflictUpdateOutcome(s: State, o: Object, name: string, namespace: string, m: Mutation, steps: Steps)
    : (r: (State, Option<ApiError>))
    requires Fits(m, o)
    ensures Extends(s, r.0) && |r.0.calls| <= |s.calls| + 2 * steps
    ensures Within(s, r.0, Target(m))
    decreases steps
  {
    var (s1, e) := Write(s, Mutate(m, o));
    if e != Some(Conflict) then (s1, e)
    else
      var (s2, g) := Refetch(s1, o, name, namespace);
      if g.Fail? && g.err != Conflict then (s2, Some(g.err))
      else if steps == 1 then (s2, Some(Conflict))
      else RetryOnConflictUpdateOutcome(s2, if g.Ok? then g.value else o, name, namespace, m, steps - 1)
  }

  /** The store holds `o` under the key the retry re-reads. */
  predicate StoredAs(s: State, o: Object, name: string, namespace: string)
  {
    match o
    case PVObject(pv) => pv.name == name && name in s.pvs && s.pvs[name] == pv
    case PVCObject(pvc) =>
      PVCKey(pvc) == Key(name, namespace) && Key(name, namespace) in s.pvcs && s.pvcs[Key(name, namespace)] == pvc
    case NfsPvcObject(n) =>
      NfsPvcKey(n) == Key(name, namespace) && Key(name, namespace) in s.nfspvcs && s.nfspvcs[Key(name, namespace)] == n
  }

  /** `s` with the stored object replaced by its mutated version. */
  function Mutated(s: State, o: Object, m: Mutation): State
    requires Fits(m, o)
  {
    match Mutate(m, o)
    case PVObject(pv) => s.(pvs := s.pvs[pv.name := pv])
    case PVCObject(pvc) => s.(pvcs := s.pvcs[PVCKey(pvc) := pvc])
    case NfsPvcObject(n) => s.(nfspvcs := s.nfspvcs[NfsPvcKey(n) := n])
  }

  lemma WriteEffect(s: State, o: Object, m: Mutation, name: string, namespace: string)
    requires Fits(m, o) && StoredAs(s, o, name, namespace)
    ensures var (t, e) := Write(s, Mutate(m, o));
      if e.None? then SameObjects(t, Mutated(s, o, m)) else SameObjects(t, s)
  {
  }

  lemma RefetchEffect(s: State, o: Object, name: string, namespace: string)
    requires StoredAs(s, o, name, namespace)
    ensures var (t, g) := Refetch(s, o, name, namespace);
      SameObjects(t, s) && (g.Ok? ==> g.value == o)
  {
  }

  /** A retried write either leaves every object as it was (it failed) or
      applies the mutation exactly once to the stored object (it succeeded). */
  lemma {:induction false} RetryAppliesOnce(s: State, o: Object, name: string, namespace: string, m: Mutation, steps: Steps)
    requires Fits(m, o) && StoredAs(s, o, name, namespace)
    ensures var (t, e) := RetryOnConflictUpdateOutcome(s, o, name, namespace, m, steps);
      if e.None? then SameObjects(t, Mutated(s, o, m)) else SameObjects(t, s)
    decreases steps
  {
    var (s1, e) := Write(s, Mutate(m, o));
    WriteEffect(s, o, m, name, namespace);
    if e == Some(Conflict) {
      var (s2, g) := Refetch(s1, o, name, namespace);
      assert StoredAs(s1, o, name, namespace);
      RefetchEffect(s1, o, name, namespace);
      if !(g.Fail? && g.err != Conflict) && steps > 1 {
        var o' := if g.Ok? then g.value else o;
        assert o' == o;
        assert StoredAs(s2, o, name, namespace);
        RetryAppliesOnce(s2, o, name, namespace, m, steps - 1);
      }
    }
  }


  /** A write that does not conflict ends the loop at once with its result. */
  lemma RetryStopsOnNonConflict(s: State, o: Object, name: string, namespace: string, m: Mutation, steps: Steps)
    requires Fits(m, o)
    requires Write(s, Mutate(m, o)).1 != Some(Conflict)
    ensures RetryOnConflictUpdateOutcome(s, o, name, namespace, m, steps) == Write(s, Mutate(m, o))
  {
  }

  /** After a conflict the object is re-read before anything else; a failed
      re-read other than a conflict ends the loop with that error. */
  lemma RetryRefetchesAfterConflict(s: State, o: Object, name: string, namespace: string, m: Mutation, steps: Steps)
    requires Fits(m, o)
    requires Write(s, Mutate(m, o)).1 == Some(Conflict)
    ensures var s1 := Write(s, Mutate(m, o)).0;
      var (s2, g) := Refetch(s1, o, name, namespace);
      var r := RetryOnConflictUpdateOutcome(s, o, name, namespace, m, steps);
      && |r.0.calls| >= |s.calls| + 2
      && r.0.calls[|s.calls| + 1] == s2.calls[|s.calls| + 1]
      && (g.Fail? && g.err != Conflict ==> r == (s2, Some(g.err)))
  {
    var s1 := Write(s, Mutate(m, o)).0;
    var (s2, g) := Refetch(s1, o, name, namespace);
    var r := RetryOnConflictUpdateOutcome(s, o, name, namespace, m, steps);
    if !(g.Fail? && g.err != Conflict) && steps > 1 {
      var o' := if g.Ok? then g.value else o;
      assert r == RetryOnConflictUpdateOutcome(s2, o', name, namespace, m, steps - 1);
      assert r.0.calls[..|s2.calls|] == s2.calls;
    }
  }

  /** The loop after one attempt: it ends with that attempt's outcome, or it
      goes on from the re-read object with one attempt fewer. */
  lemma RetryContinues(s: State, o: Object, name: string, namespace: string, m: Mutation, steps: Steps)
    requires Fits(m, o)
    ensures var a := AttemptOutcome(s, o, name, namespace, m, steps == 1);
      && (a.Finished? ==> RetryOnConflictUpdateOutcome(s, o, name, namespace, m, steps) == (a.state, a.err))
      && (a.Again? ==> steps > 1 && RetryOnConflictUpdateOutcome(s, o, name, namespace, m, steps)
                                   == RetryOnConflictUpdateOutcome(a.state, a.next, name, namespace, m, steps - 1))
  {
  }

  method WriteObject(k: Store.Client, o: Object) returns (err: Option<ApiError>)
    modifies k
    ensures (k.State(), err) == Write(old(k.State()), o)
  {
    match o
    case PVObject(pv) => err := k.UpdatePV(pv);
    case PVCObject(pvc) => err := k.UpdatePVC(pvc);
    case NfsPvcObject(n) => err := k.UpdateNfsPvcStatus(n);
  }

  method RefetchObject(k: Store.Client, o: Object, name: string, namespace: string) returns (r: Res<Object>)
    modifies k
    ensures (k.State(), r) == Refetch(old(k.State()), o, name, namespace)
  {
    match o
    case PVObject(_) =>
      var g := k.GetPV(name);
      r := if g.Ok? then Ok(PVObject(g.value)) else Fail(g.err);
    case PVCObject(_) =>
      var g := k.GetPVC(Key(name, namespace));
      r := if g.Ok? then Ok(PVCObject(g.value)) else Fail(g.err);
    case NfsPvcObject(_) =>
      var g := k.GetNfsPvc(Key(name, namespace));
      r := if g.Ok? then Ok(NfsPvcObject(g.value)) else Fail(g.err);
  }

  method AttemptOnce(k: Store.Client, o: Object, name: string, namespace: string, m: Mutation, last: bool)
    returns (done: bool, err: Option<ApiError>, next: Object)
    requires Fits(m, o)
    modifies k
    ensures var a := AttemptOutcome(old(k.State()), o, name, namespace, m, last);
      if done then a == Finished(k.State(), err) else a == Again(k.State(), next)
  {
    next := o;
    err := WriteObject(k, Mutate(m, o));
    if err != Some(Conflict) {
      return true, err, next;
    }
    var g := RefetchObject(k, o, name, namespace);
    if g.Fail? && g.err != Conflict {
      return true, Some(g.err), next;
    }
    if last {
      return true, Some(Conflict), next;
    }
    if g.Ok? {
      next := g.value;
    }
    return false, None, next;
  }

  method RetryOnConflictUpdate(k: Store.Client, obj: Object, name: string, namespace: string, m: Mutation, steps: Steps)
    returns (err: Option<ApiError>)
    requires Fits(m, obj)
    modifies k
    ensures (k.State(), err) == RetryOnConflictUpdateOutcome(old(k.State()), obj, name, namespace, m, steps)
    decreases steps
  {
    RetryContinues(k.State(), obj, name, namespace, m, steps);
    var done, e, next := AttemptOnce(k, obj, name, namespace, m, steps == 1);
    if done {
      return e;
    }
    err := RetryOnConflictUpdate(k, next, name, namespace, m, steps - 1);
  }
}
