/** The admission validator for NfsPvc objects: a create is refused when a PVC
    of the same name already exists in the namespace, or when an access mode
    is outside the four the platform supports; updates and deletes pass. */
module Webhook {
  import opened Types
  import opened Cluster

  const PVCAlreadyExists := "a PVC of this name already exists in the namespace. Please rename your NFSPVC"
  const InvalidAccessModeError := "forbidden: only the following AccessModes are permitted"

  const SupportedAccessModes: set<string> := {"ReadWriteOnce", "ReadOnlyMany", "ReadWriteMany", "ReadWriteOncePod"}

  /** The access-mode error: the fixed text followed by the supported set as
      fmt renders a set of strings (its keys in sorted order). */
  const AccessModeErrorMessage := InvalidAccessModeError + ": map[ReadOnlyMany:{} ReadWriteMany:{} ReadWriteOnce:{} ReadWriteOncePod:{}]"

  /** Admission warnings and the refusal, if any. */
  datatype Verdict = Verdict(warnings: seq<string>, err: Option<string>)

  const Accept := Verdict([], None)

  /** What the admission framework hands the validator. */
  datatype RuntimeObject = NfsPvcObject(nfspvc: NfsPvc) | OtherObject(typeName: string)

  /** A refusal without warnings whose message ends with the offending type's name. */
  function WrongType(typeName: string): (v: Verdict)
    ensures v.warnings == [] && v.err.Some? && v != Accept
    ensures |v.err.value| >= |typeName| && v.err.value[|v.err.value| - |typeName|..] == typeName
  {
    Verdict([], Some("expected a NfsPvc object but got " + typeName))
  }

  /** Given the outcome of reading the PVC (name, namespace): only NotFound
      counts as absent, so any other read error counts as a collision. */
  function DoesPVCExist(lookup: Res<PVC>): (found: bool)
    ensures found <==> lookup != Fail(NotFound)
  {
    !(lookup.Fail? && lookup.err == NotFound)
  }

  /** Early-exit search for an unsupported mode; the empty list passes. */
  function ValidateAccessMode(modes: seq<string>): (ok: bool)
    ensures ok <==> forall i :: 0 <= i < |modes| ==> modes[i] in SupportedAccessModes
  {
    if |modes| == 0 then true
    else if modes[0] !in SupportedAccessModes then false
    else
      assert forall i :: 0 < i < |modes| ==> modes[i] == modes[1..][i - 1];
      ValidateAccessMode(modes[1..])
  }

  /** `lookup` is the outcome of reading the PVC with the NfsPvc's name and namespace. */
  function ValidateCreate(obj: RuntimeObject, lookup: Res<PVC>): (v: Verdict)
    ensures obj.OtherObject? ==> v == WrongType(obj.typeName)
    ensures obj.NfsPvcObject? && DoesPVCExist(lookup) ==> v == Verdict([PVCAlreadyExists], Some(PVCAlreadyExists))
    ensures obj.NfsPvcObject? && !DoesPVCExist(lookup) && !ValidateAccessMode(obj.nfspvc.spec.accessModes) ==>
      v == Verdict([InvalidAccessModeError], Some(AccessModeErrorMessage))
  {
    match obj
    case OtherObject(typeName) => WrongType(typeName)
    case NfsPvcObject(n) =>
      if DoesPVCExist(lookup) then Verdict([PVCAlreadyExists], Some(PVCAlreadyExists))
      else if !ValidateAccessMode(n.spec.accessModes) then Verdict([InvalidAccessModeError], Some(AccessModeErrorMessage))
      else Accept
  }

  /** Only the type of the old object is checked; nothing about the change is. */
  function ValidateUpdate(oldObj: RuntimeObject, newObj: RuntimeObject): (v: Verdict)
    ensures oldObj.NfsPvcObject? <==> v == Accept
  {
    match oldObj
    case OtherObject(typeName) => WrongType(typeName)
    case NfsPvcObject(_) => Accept
  }

  function ValidateDelete(obj: RuntimeObject): (v: Verdict)
    ensures obj.NfsPvcObject? <==> v == Accept
  {
    match obj
    case OtherObject(typeName) => WrongType(typeName)
    case NfsPvcObject(_) => Accept
  }

  /** A create is accepted, with no warning, exactly when no PVC of that name
      is found in the namespace and every access mode is supported. */
  lemma CreateAcceptedIff(n: NfsPvc, lookup: Res<PVC>)
    ensures ValidateCreate(NfsPvcObject(n), lookup) == Accept
        <==> lookup == Fail(NotFound) && forall i :: 0 <= i < |n.spec.accessModes| ==> n.spec.accessModes[i] in SupportedAccessModes
    ensures ValidateCreate(NfsPvcObject(n), lookup).err.None? <==> ValidateCreate(NfsPvcObject(n), lookup) == Accept
  {
  }

  /** Against the store: with the read answered by the store, a create is
      refused for a collision exactly when the PVC (name, namespace) is stored,
      and the collision is reported even when an access mode is also bad. */
  lemma CreateAgainstStore(s: State, n: NfsPvc)
    requires Injected(s).None?
    ensures var v := ValidateCreate(NfsPvcObject(n), Cluster.GetPVC(s, NfsPvcKey(n)).1);
      && (v.err == Some(PVCAlreadyExists) <==> NfsPvcKey(n) in s.pvcs)
      && (NfsPvcKey(n) in s.pvcs ==> v.warnings == [PVCAlreadyExists])
  {
    assert PVCAlreadyExists != AccessModeErrorMessage by {
      assert |PVCAlreadyExists| != |AccessModeErrorMessage|;
    }
  }

  /** Updates are not checked for changes at all: a create can be refused while
      an update to the very same object is accepted. */
  lemma UpdateDoesNotEnforceImmutability(oldN: NfsPvc, newN: NfsPvc)
    ensures ValidateUpdate(NfsPvcObject(oldN), NfsPvcObject(newN)) == Accept
  {
  }
}
