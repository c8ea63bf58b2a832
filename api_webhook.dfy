/** The older copy of the validator, written as methods on the NfsPvc type:
    no type assertion, the PVC read through a package-level client, and the
    same constants, access-mode check and existence rule. */
module ApiWebhook {
  import opened Types
  import Webhook

  /** `lookup` is the outcome of reading the PVC (r.name, r.namespace) through
      the package client. */
  function ValidateCreate(r: NfsPvc, lookup: Res<PVC>): (v: Webhook.Verdict)
    ensures lookup != Fail(NotFound) ==> v == Webhook.Verdict([Webhook.PVCAlreadyExists], Some(Webhook.PVCAlreadyExists))
    ensures lookup == Fail(NotFound) && (exists i :: 0 <= i < |r.spec.accessModes| && r.spec.accessModes[i] !in Webhook.SupportedAccessModes) ==>
      v == Webhook.Verdict([Webhook.InvalidAccessModeError], Some(Webhook.AccessModeErrorMessage))
    ensures v == Webhook.Accept <==>
      lookup == Fail(NotFound) && forall i :: 0 <= i < |r.spec.accessModes| ==> r.spec.accessModes[i] in Webhook.SupportedAccessModes
  {
    if Webhook.DoesPVCExist(lookup) then Webhook.Verdict([Webhook.PVCAlreadyExists], Some(Webhook.PVCAlreadyExists))
    else if !Webhook.ValidateAccessMode(r.spec.accessModes) then
      Webhook.Verdict([Webhook.InvalidAccessModeError], Some(Webhook.AccessModeErrorMessage))
    else Webhook.Accept
  }

  function ValidateUpdate(r: NfsPvc, oldObj: Webhook.RuntimeObject): (v: Webhook.Verdict)
    ensures v == Webhook.Accept
  {
    Webhook.Accept
  }

  function ValidateDelete(r: NfsPvc): (v: Webhook.Verdict)
    ensures v == Webhook.Accept
  {
    Webhook.Accept
  }

  /** The two copies decide every create on an NfsPvc alike; they differ only
      on an update whose old object is not an NfsPvc, which this copy accepts. */
  lemma CopiesAgree(r: NfsPvc, lookup: Res<PVC>, typeName: string)
    ensures ValidateCreate(r, lookup) == Webhook.ValidateCreate(Webhook.NfsPvcObject(r), lookup)
    ensures ValidateDelete(r) == Webhook.ValidateDelete(Webhook.NfsPvcObject(r))
    ensures ValidateUpdate(r, Webhook.OtherObject(typeName)) != Webhook.ValidateUpdate(Webhook.OtherObject(typeName), Webhook.NfsPvcObject(r))
  {
  }
}
