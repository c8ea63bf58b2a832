/** The platform's object store as a value: the stored NfsPvc, PV and PVC
    objects, an oracle that decides which calls fail, and the log of every
    call issued. Each store call is a function from a state to the next
    state and its outcome; `Store.Client` runs them in place. */
module Cluster {
  import opened Types

  datatype Verb = Get | Create | Update | UpdateStatus | Delete
  datatype Kind = NfsPvcKind | PVKind | PVCKind
  datatype Call = Call(verb: Verb, kind: Kind, key: Key)

  /** `faults[i]` is the error injected into the i-th call of the log, if any. */
  datatype State = State(
    nfspvcs: map<Key, NfsPvc>,
    pvs: map<string, PV>,
    pvcs: map<Key, PVC>,
    faults: map<nat, ApiError>,
    calls: seq<Call>,
    nextUid: nat)

  /** The error the oracle injects into the next call. */
  function Injected(s: State): Option<ApiError>
  {
    if |s.calls| in s.faults then Some(s.faults[|s.calls|]) else None
  }

  function Log(s: State, c: Call): State
  {
    s.(calls := s.calls + [c])
  }

  function Lookup<K, V>(m: map<K, V>, k: K, fault: Option<ApiError>): (r: Res<V>)
    ensures fault.None? && k in m ==> r == Ok(m[k])
    ensures fault.None? && k !in m ==> r == Fail(NotFound)
    ensures fault.Some? ==> r == Fail(fault.value)
  {
    if fault.Some? then Fail(fault.value)
    else if k in m then Ok(m[k])
    else Fail(NotFound)
  }

  function NfsPvcKey(n: NfsPvc): Key { Key(n.name, n.namespace) }
  function PVCKey(pvc: PVC): Key { Key(pvc.name, pvc.namespace) }

  // ---- reads ----

  function GetNfsPvc(s: State, key: Key): (State, Res<NfsPvc>)
  {
    (Log(s, Call(Get, NfsPvcKind, key)), Lookup(s.nfspvcs, key, Injected(s)))
  }

  /** PVs are cluster-scoped: a namespace passed with the name is ignored. */
  function GetPV(s: State, name: string): (State, Res<PV>)
  {
    (Log(s, Call(Get, PVKind, PVKey(name))), Lookup(s.pvs, name, Injected(s)))
  }

  function GetPVC(s: State, key: Key): (State, Res<PVC>)
  {
    (Log(s, Call(Get, PVCKind, key)), Lookup(s.pvcs, key, Injected(s)))
  }

  // ---- creates: the store drops the status and assigns the uid ----

  function CreatePV(s: State, pv: PV): (State, Option<ApiError>)
  {
    var t := Log(s, Call(Create, PVKind, PVKey(pv.name)));
    if Injected(s).Some? then (t, Injected(s))
    else if pv.name in s.pvs then (t, Some(AlreadyExists))
    else (t.(pvs := s.pvs[pv.name := pv.(phase := "", deleting := false)]), None)
  }

  function CreatePVC(s: State, pvc: PVC): (State, Option<ApiError>)
  {
    var key := PVCKey(pvc);
    var t := Log(s, Call(Create, PVCKind, key));
    if Injected(s).Some? then (t, Injected(s))
    else if key in s.pvcs then (t, Some(AlreadyExists))
    else (t.(pvcs := s.pvcs[key := pvc.(uid := Uid(s.nextUid), phase := "")], nextUid := s.nextUid + 1), None)
  }

  // ---- updates: status, uid and deletion mark are kept from the stored object ----

  /** No finalizer may be added to an NfsPvc that is being deleted. */
  predicate AddsFinalizer(stored: NfsPvc, n: NfsPvc)
  {
    exists i :: 0 <= i < |n.finalizers| && n.finalizers[i] !in stored.finalizers
  }

  /** An update of metadata and spec; once a deleting NfsPvc has no finalizer
      left, the store removes it. */
  function UpdateNfsPvc(s: State, n: NfsPvc): (State, Option<ApiError>)
  {
    var key := NfsPvcKey(n);
    var t := Log(s, Call(Update, NfsPvcKind, key));
    if Injected(s).Some? then (t, Injected(s))
    else if key !in s.nfspvcs then (t, Some(NotFound))
    else
      var stored := s.nfspvcs[key];
      if stored.deleting && AddsFinalizer(stored, n) then (t, Some(Invalid))
      else
        var updated := stored.(finalizers := n.finalizers, spec := n.spec);
        if updated.deleting && |updated.finalizers| == 0 then (t.(nfspvcs := s.nfspvcs - {key}), None)
        else (t.(nfspvcs := s.nfspvcs[key := updated]), None)
  }

  /** An update through the status subresource: only the status is taken. */
  function UpdateNfsPvcStatus(s: State, n: NfsPvc): (State, Option<ApiError>)
  {
    var key := NfsPvcKey(n);
    var t := Log(s, Call(UpdateStatus, NfsPvcKind, key));
    if Injected(s).Some? then (t, Injected(s))
    else if key !in s.nfspvcs then (t, Some(NotFound))
    else (t.(nfspvcs := s.nfspvcs[key := s.nfspvcs[key].(status := n.status)]), None)
  }

  function UpdatePV(s: State, pv: PV): (State, Option<ApiError>)
  {
    var t := Log(s, Call(Update, PVKind, PVKey(pv.name)));
    if Injected(s).Some? then (t, Injected(s))
    else if pv.name !in s.pvs then (t, Some(NotFound))
    else
      var stored := s.pvs[pv.name];
      (t.(pvs := s.pvs[pv.name := pv.(phase := stored.phase, deleting := stored.deleting)]), None)
  }

  function UpdatePVC(s: State, pvc: PVC): (State, Option<ApiError>)
  {
    var key := PVCKey(pvc);
    var t := Log(s, Call(Update, PVCKind, key));
    if Injected(s).Some? then (t, Injected(s))
    else if key !in s.pvcs then (t, Some(NotFound))
    else
      var stored := s.pvcs[key];
      (t.(pvcs := s.pvcs[key := pvc.(uid := stored.uid, phase := stored.phase)]), None)
  }

  // ---- deletes ----

  function DeletePV(s: State, name: string): (State, Option<ApiError>)
  {
    var t := Log(s, Call(Delete, PVKind, PVKey(name)));
    if Injected(s).Some? then (t, Injected(s))
    else if name !in s.pvs then (t, Some(NotFound))
    else (t.(pvs := s.pvs - {name}), None)
  }

  function DeletePVC(s: State, key: Key): (State, Option<ApiError>)
  {
    var t := Log(s, Call(Delete, PVCKind, key));
    if Injected(s).Some? then (t, Injected(s))
    else if key !in s.pvcs then (t, Some(NotFound))
    else (t.(pvcs := s.pvcs - {key}), None)
  }

  // ---- vocabulary for contracts ----

  /** `t` follows `s` by further calls: the log only grows and the oracle is fixed. */
  predicate Extends(s: State, t: State)
  {
    |s.calls| <= |t.calls| && t.calls[..|s.calls|] == s.calls && t.faults == s.faults
  }

  /** The calls issued between `s` and `t`. */
  function Issued(s: State, t: State): seq<Call>
    requires Extends(s, t)
  {
    t.calls[|s.calls|..]
  }

  predicate IsWrite(c: Call) { c.verb != Get }

  predicate ReadOnly(cs: seq<Call>)
  {
    forall i :: 0 <= i < |cs| ==> !IsWrite(cs[i])
  }

  /** No failure is scheduled from this point of the log on. */
  predicate Reliable(s: State)
  {
    forall i :: i in s.faults ==> i < |s.calls|
  }

  /** The stored objects of `s` and `t` are the same. */
  predicate SameObjects(s: State, t: State)
  {
    t.nfspvcs == s.nfspvcs && t.pvs == s.pvs && t.pvcs == s.pvcs && t.nextUid == s.nextUid
  }

  /** No PV or PVC came into existence between `s` and `t`. */
  predicate NoneCreated(s: State, t: State)
  {
    t.pvs.Keys <= s.pvs.Keys && t.pvcs.Keys <= s.pvcs.Keys
  }

  /** Between `s` and `t` only PVs may have been created, rewritten or deleted. */
  predicate OnlyPVsChanged(s: State, t: State)
  {
    t.nfspvcs == s.nfspvcs && t.pvcs == s.pvcs && t.nextUid == s.nextUid
  }

  /** Between `s` and `t` only PVCs may have been created, rewritten or deleted. */
  predicate OnlyPVCsChanged(s: State, t: State)
  {
    t.nfspvcs == s.nfspvcs && t.pvs == s.pvs
  }

  /** Between `s` and `t` only NfsPvcs may have been rewritten or removed. */
  predicate OnlyNfsPvcsChanged(s: State, t: State)
  {
    t.pvs == s.pvs && t.pvcs == s.pvcs && t.nextUid == s.nextUid
  }

  /** Every stored object sits under its own key. */
  predicate KeysMatch(s: State)
  {
    && (forall name :: name in s.pvs ==> s.pvs[name].name == name)
    && (forall key :: key in s.pvcs ==> PVCKey(s.pvcs[key]) == key)
    && (forall key :: key in s.nfspvcs ==> NfsPvcKey(s.nfspvcs[key]) == key)
  }

  lemma ExtendsTrans(s: State, t: State, u: State)
    requires Extends(s, t) && Extends(t, u)
    ensures Extends(s, u)
    ensures Issued(s, u) == Issued(s, t) + Issued(t, u)
  {
    assert u.calls[..|t.calls|][..|s.calls|] == u.calls[..|s.calls|];
  }

  lemma ReliableExtends(s: State, t: State)
    requires Reliable(s) && Extends(s, t)
    ensures Reliable(t)
  {
  }
}
