/** Adding and removing the NfsPvc's protection finalizer. */
module Finalizer {
  import opened Types
  import opened Cluster
  import opened Common
  import opened Strings
  import Store

  /** controllerutil.AddFinalizer: appends the finalizer unless it is already there. */
  function AddFinalizer(finalizers: seq<string>, f: string): (r: seq<string>)
    ensures f in r
    ensures f in finalizers ==> r == finalizers
    ensures f !in finalizers ==> r == finalizers + [f] && multiset(r)[f] == 1
  {
    if f in finalizers then finalizers
    else
      assert multiset(finalizers)[f] == 0;
      finalizers + [f]
  }

  /** Adds the finalizer and writes the NfsPvc only when the finalizer is missing;
      a store error is returned as it is. */
  function EnsureOutcome(s: State, n: NfsPvc): (r: (State, Option<Error>))
    ensures Extends(s, r.0) && OnlyNfsPvcsChanged(s, r.0)
    ensures NfsPvcDeletionFinalizer in n.finalizers ==> r == (s, None)
  {
    if NfsPvcDeletionFinalizer in n.finalizers then (s, None)
    else
      var (t, e) := Cluster.UpdateNfsPvc(s, n.(finalizers := AddFinalizer(n.finalizers, NfsPvcDeletionFinalizer)));
      (t, if e.Some? then Some(Api(e.value)) else None)
  }

  /** A missing finalizer leads to exactly one write; once it succeeds the stored
      NfsPvc lists the finalizer exactly once, after the entries it had. */
  lemma EnsureAddsOnce(s: State, n: NfsPvc)
    requires NfsPvcDeletionFinalizer !in n.finalizers
    ensures var (t, e) := EnsureOutcome(s, n);
      && Issued(s, t) == [Call(Update, NfsPvcKind, NfsPvcKey(n))]
      && (Injected(s).Some? ==> e == Some(Api(Injected(s).value)) && SameObjects(t, s))
      && (e.None? ==>
            && NfsPvcKey(n) in s.nfspvcs && NfsPvcKey(n) in t.nfspvcs
            && t.nfspvcs[NfsPvcKey(n)].finalizers == n.finalizers + [NfsPvcDeletionFinalizer]
            && multiset(t.nfspvcs[NfsPvcKey(n)].finalizers)[NfsPvcDeletionFinalizer] == 1)
  {
  }

  /** Removes every occurrence of the finalizer and writes the NfsPvc; a store
      error is returned as it is. */
  function RemoveOutcome(s: State, n: NfsPvc): (r: (State, Option<Error>))
    ensures Extends(s, r.0) && OnlyNfsPvcsChanged(s, r.0)
    ensures Issued(s, r.0) == [Call(Update, NfsPvcKind, NfsPvcKey(n))]
  {
    var (t, e) := Cluster.UpdateNfsPvc(s, n.(finalizers := RemoveString(n.finalizers, NfsPvcDeletionFinalizer)));
    (t, if e.Some? then Some(Api(e.value)) else None)
  }

  /** After a successful Remove the finalizer is gone and every other entry keeps
      its count; a deleting NfsPvc left with no finalizer is purged. */
  lemma RemoveKeepsOthers(s: State, n: NfsPvc)
    ensures var key := NfsPvcKey(n);
      var (t, e) := RemoveOutcome(s, n);
      var kept := RemoveString(n.finalizers, NfsPvcDeletionFinalizer);
      && (Injected(s).Some? ==> e == Some(Api(Injected(s).value)) && SameObjects(t, s))
      && (e.None? ==> key in s.nfspvcs)
      && (e.None? && key in t.nfspvcs ==>
            && t.nfspvcs[key].finalizers == kept
            && NfsPvcDeletionFinalizer !in t.nfspvcs[key].finalizers
            && multiset(t.nfspvcs[key].finalizers) == multiset(n.finalizers)[NfsPvcDeletionFinalizer := 0])
      && (e.None? ==> (key !in t.nfspvcs <==> s.nfspvcs[key].deleting && kept == []))
  {
    RemoveStringCounts(n.finalizers, NfsPvcDeletionFinalizer);
  }

  method Ensure(k: Store.Client, n: NfsPvc) returns (err: Option<Error>)
    modifies k
    ensures (k.State(), err) == EnsureOutcome(old(k.State()), n)
  {
    if NfsPvcDeletionFinalizer !in n.finalizers {
      var e := k.UpdateNfsPvc(n.(finalizers := AddFinalizer(n.finalizers, NfsPvcDeletionFinalizer)));
      if e.Some? {
        return Some(Api(e.value));
      }
    }
    return None;
  }

  method Remove(k: Store.Client, n: NfsPvc) returns (err: Option<Error>)
    modifies k
    ensures (k.State(), err) == RemoveOutcome(old(k.State()), n)
  {
    var e := k.UpdateNfsPvc(n.(finalizers := RemoveString(n.finalizers, NfsPvcDeletionFinalizer)));
    err := if e.Some? then Some(Api(e.value)) else None;
  }
}
