/** The client the engine talks to: the store's objects, oracle and call log
    as fields, updated in place by each call. Every method is proved to do
    exactly what the matching `Cluster` function says. */
module Store {
  import opened Types
  import opened Cluster

  class Client {
    var nfspvcs: map<Key, NfsPvc>
    var pvs: map<string, PV>
    var pvcs: map<Key, PVC>
    var faults: map<nat, ApiError>
    var calls: seq<Call>
    var nextUid: nat

    function State(): Cluster.State
      reads this
    {
      Cluster.State(nfspvcs, pvs, pvcs, faults, calls, nextUid)
    }

    constructor (s: Cluster.State)
      ensures State() == s
    {
      nfspvcs, pvs, pvcs := s.nfspvcs, s.pvs, s.pvcs;
      faults, calls, nextUid := s.faults, s.calls, s.nextUid;
    }

    /** Appends the call to the log and returns the error injected into it. */
    method Record(c: Call) returns (fault: Option<ApiError>)
      modifies this
      ensures State() == Log(old(State()), c)
      ensures fault == Injected(old(State()))
    {
      fault := if |calls| in faults then Some(faults[|calls|]) else None;
      calls := calls + [c];
    }

    method GetNfsPvc(key: Key) returns (r: Res<NfsPvc>)
      modifies this
      ensures (State(), r) == Cluster.GetNfsPvc(old(State()), key)
    {
      var fault := Record(Call(Get, NfsPvcKind, key));
      r := Lookup(nfspvcs, key, fault);
    }

    method GetPV(name: string) returns (r: Res<PV>)
      modifies this
      ensures (State(), r) == Cluster.GetPV(old(State()), name)
    {
      var fault := Record(Call(Get, PVKind, PVKey(name)));
      r := Lookup(pvs, name, fault);
    }

    method GetPVC(key: Key) returns (r: Res<PVC>)
      modifies this
      ensures (State(), r) == Cluster.GetPVC(old(State()), key)
    {
      var fault := Record(Call(Get, PVCKind, key));
      r := Lookup(pvcs, key, fault);
    }

    method CreatePV(pv: PV) returns (err: Option<ApiError>)
      modifies this
      ensures (State(), err) == Cluster.CreatePV(old(State()), pv)
    {
      err := Record(Call(Create, PVKind, PVKey(pv.name)));
      if err.None? {
        if pv.name in pvs {
          err := Some(AlreadyExists);
        } else {
          pvs := pvs[pv.name := pv.(phase := "", deleting := false)];
        }
      }
    }

    method CreatePVC(pvc: PVC) returns (err: Option<ApiError>)
      modifies this
      ensures (State(), err) == Cluster.CreatePVC(old(State()), pvc)
    {
      var key := PVCKey(pvc);
      err := Record(Call(Create, PVCKind, key));
      if err.None? {
        if key in pvcs {
          err := Some(AlreadyExists);
        } else {
          pvcs := pvcs[key := pvc.(uid := Uid(nextUid), phase := "")];
          nextUid := nextUid + 1;
        }
      }
    }

    method UpdateNfsPvc(n: NfsPvc) returns (err: Option<ApiError>)
      modifies this
      ensures (State(), err) == Cluster.UpdateNfsPvc(old(State()), n)
    {
      var key := NfsPvcKey(n);
      err := Record(Call(Update, NfsPvcKind, key));
      if err.None? {
        if key !in nfspvcs {
          err := Some(NotFound);
        } else {
          var stored := nfspvcs[key];
          if stored.deleting && AddsFinalizer(stored, n) {
            err := Some(Invalid);
          } else {
            var updated := stored.(finalizers := n.finalizers, spec := n.spec);
            if updated.deleting && |updated.finalizers| == 0 {
              nfspvcs := nfspvcs - {key};
            } else {
              nfspvcs := nfspvcs[key := updated];
            }
          }
        }
      }
    }

    method UpdateNfsPvcStatus(n: NfsPvc) returns (err: Option<ApiError>)
      modifies this
      ensures (State(), err) == Cluster.UpdateNfsPvcStatus(old(State()), n)
    {
      var key := NfsPvcKey(n);
      err := Record(Call(UpdateStatus, NfsPvcKind, key));
      if err.None? {
        if key !in nfspvcs {
          err := Some(NotFound);
        } else {
          nfspvcs := nfspvcs[key := nfspvcs[key].(status := n.status)];
        }
      }
    }

    method UpdatePV(pv: PV) returns (err: Option<ApiError>)
      modifies this
      ensures (State(), err) == Cluster.UpdatePV(old(State()), pv)
    {
      err := Record(Call(Update, PVKind, PVKey(pv.name)));
      if err.None? {
        if pv.name !in pvs {
          err := Some(NotFound);
        } else {
          var stored := pvs[pv.name];
          pvs := pvs[pv.name := pv.(phase := stored.phase, deleting := stored.deleting)];
        }
      }
    }

    method UpdatePVC(pvc: PVC) returns (err: Option<ApiError>)
      modifies this
      ensures (State(), err) == Cluster.UpdatePVC(old(State()), pvc)
    {
      var key := PVCKey(pvc);
      err := Record(Call(Update, PVCKind, key));
      if err.None? {
        if key !in pvcs {
          err := Some(NotFound);
        } else {
          var stored := pvcs[key];
          pvcs := pvcs[key := pvc.(uid := stored.uid, phase := stored.phase)];
        }
      }
    }

    method DeletePV(name: string) returns (err: Option<ApiError>)
      modifies this
      ensures (State(), err) == Cluster.DeletePV(old(State()), name)
    {
      err := Record(Call(Delete, PVKind, PVKey(name)));
      if err.None? {
        if name !in pvs {
          err := Some(NotFound);
        } else {
          pvs := pvs - {name};
        }
      }
    }

    method DeletePVC(key: Key) returns (err: Option<ApiError>)
      modifies this
      ensures (State(), err) == Cluster.DeletePVC(old(State()), key)
    {
      err := Record(Call(Delete, PVCKind, key));
      if err.None? {
        if key !in pvcs {
          err := Some(NotFound);
        } else {
          pvcs := pvcs - {key};
        }
      }
    }
  }
}
