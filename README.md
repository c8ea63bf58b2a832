# NfsPvc operator: a verified model of the reconciliation engine

The NfsPvc operator lets a user declare an NFS export as a namespaced
`NfsPvc` resource. For each NfsPvc `(name, namespace)` the operator keeps two
platform objects:

- a cluster-scoped PersistentVolume named `name-namespace-pv`;
- a PersistentVolumeClaim `(name, namespace)` bound to that volume.

The operator also projects the observed phases of the two objects into the
NfsPvc's status. It guards deletion with the finalizer
`nfspvc.dana.io/nfspvc-protection`: the NfsPvc is released only once both
objects are gone. An admission validator refuses an NfsPvc whose name
collides with an existing PVC, or whose access modes fall outside the four the
platform supports.

This project models that engine in Dafny and proves properties of the model:

- the storage synchroniser;
- the deletion protocol;
- the status projector;
- the finalizer helpers;
- the reconciliation driver and its PVC-to-request mapping;
- both copies of the admission validator;
- configuration checking and the conflict-retry step;
- the older engine under `internal/controller/utils`, modelled separately.

## How the model is built

- **The object store** (`Cluster`) is a value:
  - maps of the stored NfsPvcs, PVs and PVCs;
  - a fault oracle `faults: map<nat, ApiError>`, which injects an error into the i-th call issued;
  - the log of every call issued;
  - a UID counter.

  Each store call (Get / Create / Update / status Update / Delete) is a function from one state to the next state and its outcome. The store keeps what the platform keeps:
  - an update keeps the status, the UID and the deletion mark;
  - a create drops the status and assigns a fresh UID;
  - an NfsPvc that is being deleted and has no finalizer left disappears.
- **The client** (`Store.Client`) is a class with the same fields. Its methods update those fields in place and are proved equal to the store functions.
- **Each component operation** comes in two parts:
  - a method that drives the client step by step, as the Go code does;
  - a pure `…Outcome` function over the store state that specifies it: `ensures (k.State(), r) == XOutcome(old(k.State()), …)`.

  The properties are proved as lemmas about the `…Outcome` functions.
- **Errors**:
  - `Api(reason)` is a store error passed on unchanged;
  - `FailedCleanup(pv)` is the cleanup sentinel wrapped with `%w`. It stays recognisable, like `errors.Is`;
  - `Wrapped(message, cause)` is an error formatted with `%s`/`%v`, so its identity is lost;
  - `FailedCleanUpError(pv)` is the older engine's error type.
- **Process settings** become a `Config` value: the storage class, the reclaim policy, and the retry budget (at least one attempt). `Common.Globals` models the package variables that `VerifyEnvironmentVariables` assigns. The environment is passed in as a map.

Where parts of the repository disagree, the model follows the code that the engine runs:

- The controller names the cleanup sentinel `resources.FailedCleanupError`, while `resources.go` defines `ErrFailedCleanup`. Both are the one sentinel `FailedCleanup`.
- The callers use a six-argument, generic retry helper. The definition in `utils/common.go` has two closures. The model has one operation that re-reads, mutates, writes and retries on conflict, with the number of attempts as a parameter.
- `Spec.NfsVersion` is read by `PreparePV` but missing from the NfsPvc type declaration. The model adds it as a string, with `""` for absent.
- The PV name carries the `-pv` suffix, as in `storage.go`. The controller test uses an older name without it.

## Model

| member | source | states |
|---|---|---|
| Strings.ContainsString | internal/controller/utils/strings_helper_test.go:10-25 | true exactly when some entry equals the string |
| Strings.RemoveString | internal/controller/utils/strings_helper_test.go:29-47 | the result holds exactly the entries other than the string, is no longer, and equals the input when the string is absent |
| Strings.RemoveStringConcat | internal/controller/utils/strings_helper_test.go:31-35 | removal distributes over concatenation, so the kept entries keep their order |
| Strings.RemoveStringCounts | internal/controller/utils/strings_helper_test.go:31-35 | every occurrence of the string goes and every other entry keeps its count |
| Strings.StringsHelperCases | internal/controller/utils/strings_helper_test.go:12-47 | the six cases the tests check |
| Common.IsReclaimPolicyValid | internal/controller/utils/common.go:53-56 | true exactly for Recycle, Delete and Retain |
| Common.Globals.constructor | internal/controller/utils/common.go:30-31 | both globals start empty |
| Common.Globals.VerifyEnvironmentVariables | internal/controller/utils/common.go:34-50 | success exactly when both variables are present and the policy is valid, and then both globals hold the values. If STORAGE_CLASS is missing, nothing is assigned. If RECLAIM_POLICY is missing or invalid, the storage class is already assigned and the policy is not. The message is Undefined or Invalid accordingly. On success the configuration the engine then runs with carries exactly the two values, and its policy is a valid one |
| Common.RetryOnConflictUpdateOutcome | internal/controller/utils/common.go:58-68 | the retry loop only extends the log, issues at most two calls per attempt, and changes only objects of the mutated kind, creating and removing none |
| Common.RetryAppliesOnce | internal/controller/utils/common.go:58-68 | on the stored object, a retried write either changes nothing (failure) or applies the mutation exactly once (success) |
| Common.RetryStopsOnNonConflict | internal/controller/utils/common.go:60-66 | a write that does not conflict, success included, ends the loop with its own result |
| Common.RetryRefetchesAfterConflict | internal/controller/utils/common.go:61-64 | after a conflict the object is re-read next, and a failed re-read ends the loop with its error |
| Common.AttemptOutcome | internal/controller/utils/common.go:59-67 | one attempt only extends the log, by at most two calls, and changes only objects of the mutated kind. A write that does not conflict ends the loop with its own result; the last attempt never goes on |
| Common.RetryContinues | internal/controller/utils/common.go:58-68 | after one attempt the loop ends with that attempt's outcome, or goes on from the re-read object with one attempt fewer |
| Common.AttemptOnce | internal/controller/utils/common.go:59-67 | issues exactly the calls of AttemptOutcome and reports whether the loop ends, its error and the object to go on with |
| Common.RetryOnConflictUpdate | internal/controller/utils/common.go:58-68 | issues exactly the calls of RetryOnConflictUpdateOutcome and ends in its state and error |
| Common.WriteObject | internal/controller/utils/common.go:60 | the closure's write issues one call (the PV or PVC by Update, the NfsPvc through the status subresource) and changes nothing on failure |
| Common.RefetchObject | internal/controller/utils/common.go:61-64 | the re-read after a conflict, by name and namespace, issues one read and changes nothing |
| Storage.MountOptionsFor | internal/controller/resources/storage.go:46-50 | no mount option exactly when the protocol version is empty |
| Storage.PreparePVC | internal/controller/resources/storage.go:21-41 | a new, unbound PVC (no UID, no phase, no annotations) under the NfsPvc's own key, whose volume name is the NfsPvc's derived PV name |
| Storage.PreparePV | internal/controller/resources/storage.go:44-79 | a new PV (no phase, not being deleted) under the derived name, whose claim reference names the NfsPvc's PVC |
| Storage.PreparePVFields | internal/controller/resources/storage.go:44-79 | the PV has the derived name and the owner label. It copies capacity, access modes, server and path; takes class and policy verbatim; has a claim reference (name, namespace, persistentvolumeclaims) with no UID; and has `nfsvers=` only when a version is given |
| Storage.PreparePVCFields | internal/controller/resources/storage.go:21-41 | the PVC is (name, namespace), with the owner label and the given class. Its volume name is the PV's derived name and it copies requests and access modes |
| Storage.BuildersAgree | internal/controller/resources/storage.go:34-67 | the PVC's volume name is the PV's name and the PV's claim reference names the PVC |
| Storage.PVNameInjectiveInNamespace | internal/controller/resources/storage.go:45 | within one namespace, distinct NfsPvc names give distinct PV names |
| Storage.PVNameCollidesAcrossNamespaces | internal/controller/resources/storage.go:45 | NfsPvcs ("a-b", "c") and ("a", "b-c") derive the same PV name |
| Storage.UpdatePVOutcome | internal/controller/resources/storage.go:82-98 | only PVs change, none is created or removed |
| Storage.UpdatePVRewritesOnlyClaimRef | internal/controller/resources/storage.go:82-98 | the PV is read, then written with only its claim reference replaced by (name, namespace, kind) without a UID; a read error is returned and nothing is written |
| Storage.UpdatePV | internal/controller/resources/storage.go:82-98 | the claim rewrite issues the calls of UpdatePVOutcome and ends in its state |
| Sync.IsPVReleased | internal/controller/resources/sync.go:113-116 | true exactly when the PV's phase is Released |
| Sync.IsPVFailed | internal/controller/resources/sync.go:118-121 | true exactly when the PV's phase is Failed, and then it is not Released |
| Sync.PVCUIDEqualOutcome | internal/controller/resources/sync.go:138-148 | one PVC read. The answer is true exactly when the PVC exists and carries the UID; an absent PVC gives false; other read errors propagate |
| Sync.PVCInRecreationStateOutcome | internal/controller/resources/sync.go:127-135 | the recreation race: the recorded status is PV Bound and PVC Pending, and the live PVC's UID differs from the claim's |
| Sync.ConnectedPVCDeletedOutcome | internal/controller/resources/sync.go:99-121 | a Released or Failed PV is stale with no read; otherwise the answer is the recreation check |
| Sync.HandlePVStateOutcome | internal/controller/resources/sync.go:36-57 | the PV step only extends the log, leaves NfsPvcs and PVCs alone, and starts with the PV read |
| Sync.PVStepCreatesMissingPV | internal/controller/resources/sync.go:37-47 | a missing PV is created once from PreparePV, and the step ends without the stale check |
| Sync.PVStepReadError | internal/controller/resources/sync.go:38-41 | a PV read error other than NotFound is returned as it is, with nothing created |
| Sync.PVStepStaleClaim | internal/controller/resources/sync.go:49-56 | a stale PV gets exactly one claim rewrite; a live one gets no write |
| Sync.DeletePVCBindAnnotationOutcome | internal/controller/resources/sync.go:81-94 | only PVCs change; without the annotation set to "yes" nothing happens |
| Sync.HandlePVCStateOutcome | internal/controller/resources/sync.go:60-78 | the PVC step touches only PVCs and starts with the PVC read |
| Sync.PVCStepCreatesMissingPVC | internal/controller/resources/sync.go:62-69 | a missing PVC is created once from PreparePVC with a fresh UID; a failed create is wrapped |
| Sync.PVCStepReadError | internal/controller/resources/sync.go:70-72 | a PVC read error other than NotFound is returned wrapped, with no create |
| Sync.PVCStepBindAnnotation | internal/controller/resources/sync.go:74-94 | an existing PVC is written only when it is Lost and its bind annotation is exactly "yes", and then only that annotation goes |
| Sync.HandleStorageObjectStateOutcome | internal/controller/resources/sync.go:22-33 | the pass only extends the log, leaves NfsPvcs alone, and begins with the PV read |
| Sync.StorageSyncConverges | internal/controller/resources/sync.go:22-33 | a fault-free pass over an NfsPvc whose stored objects sit under their keys succeeds and leaves both its PV and its PVC stored; a missing PV is PreparePV's, a missing PVC is PreparePVC's with a fresh UID |
| Sync.PVStepReliable | internal/controller/resources/sync.go:36-57 | with no failure the PV step succeeds and the NfsPvc's PV is stored afterwards, PreparePV's when it was missing |
| Sync.PVCStepReliable | internal/controller/resources/sync.go:60-78 | with no failure the PVC step succeeds and the NfsPvc's PVC is stored afterwards, PreparePVC's when it was missing |
| Sync.StorageSyncPVBeforePVC | internal/controller/resources/sync.go:22-33 | a PV-step error is returned before the PVC is touched; otherwise the PVC step runs on the state the PV step left |
| Sync.PVCUIDEqual | internal/controller/resources/sync.go:138-148 | issues the calls of PVCUIDEqualOutcome and returns its answer |
| Sync.PVCInRecreationState | internal/controller/resources/sync.go:127-135 | issues the calls of PVCInRecreationStateOutcome and returns its answer |
| Sync.IsConnectedPVCDeleted | internal/controller/resources/sync.go:99-111 | issues the calls of ConnectedPVCDeletedOutcome and returns its answer |
| Sync.HandlePVState | internal/controller/resources/sync.go:36-57 | issues the calls of HandlePVStateOutcome and ends in its state |
| Sync.DeletePVCBindAnnotation | internal/controller/resources/sync.go:81-94 | issues the calls of DeletePVCBindAnnotationOutcome and ends in its state |
| Sync.HandlePVCState | internal/controller/resources/sync.go:60-78 | issues the calls of HandlePVCStateOutcome and ends in its state |
| Sync.HandleStorageObjectState | internal/controller/resources/sync.go:22-33 | issues the calls of HandleStorageObjectStateOutcome and ends in its state |
| Resources.IsDeletedOutcome | internal/controller/resources/resources.go:96-104 | one read: deleted on NotFound, not deleted when found, other errors propagate |
| Resources.DeleteResourceOutcome | internal/controller/resources/resources.go:44-49 | one delete; NotFound counts as success; on success the object is gone |
| Resources.DeleteIfPresentOutcome | internal/controller/resources/resources.go:52-75 | only the object may go. With no failure it is gone, and the delete is issued only when it existed |
| Resources.CleanupOutcome | internal/controller/resources/resources.go:52-75 | only the NfsPvc's own PVC and PV may be deleted |
| Resources.CleanupDeletesPVCThenPV | internal/controller/resources/resources.go:52-75 | with no failure, the PVC is read and deleted before the PV, each only if it exists, and both end gone |
| Resources.AreResourceDeletedOutcome | internal/controller/resources/resources.go:78-93 | two reads, PVC then PV, with no write; the first read error ends the check |
| Resources.HandleDeleteOutcome | internal/controller/resources/resources.go:21-41 | only the NfsPvc's own objects may be deleted. Without the finalizer nothing is issued and the answer is (false, nil). A "deleted" answer comes with no error and no change |
| Resources.HandleDeleteReadError | internal/controller/resources/resources.go:23-26 | a read error aborts with (false, err) before any delete |
| Resources.HandleDeleteDecision | internal/controller/resources/resources.go:27-40 | both absent gives (true, nil) with no delete. A lone PV is cleaned up and then gives the sentinel naming the PV. A present PVC gives the cleanup's result |
| Resources.HandleDeleteReliable | internal/controller/resources/resources.go:21-41 | with no failure, both objects end deleted; "deleted" holds exactly when neither existed; the error is the sentinel exactly for a lone PV |
| Resources.IsDeleted | internal/controller/resources/resources.go:96-104 | issues the read of IsDeletedOutcome and returns its answer |
| Resources.DeleteResource | internal/controller/resources/resources.go:44-49 | issues the delete of DeleteResourceOutcome and returns its error |
| Resources.DeleteIfPresent | internal/controller/resources/resources.go:52-75 | issues the calls of DeleteIfPresentOutcome and ends in its state |
| Resources.Cleanup | internal/controller/resources/resources.go:52-75 | issues the calls of CleanupOutcome and ends in its state |
| Resources.AreResourceDeleted | internal/controller/resources/resources.go:78-93 | issues the reads of AreResourceDeletedOutcome and returns its answer |
| Resources.HandleDelete | internal/controller/resources/resources.go:21-41 | issues the calls of HandleDeleteOutcome and returns its decision |
| Status.PhaseOf | internal/controller/status/status.go:44-53 | the live phase when found, "NotFound" on NotFound, "Unknown" on any other error |
| Status.PVCStatusOutcome | internal/controller/status/status.go:44-53 | one PVC read, mapped by PhaseOf |
| Status.PVStatusOutcome | internal/controller/status/status.go:56-65 | one read of the derived PV name, mapped by PhaseOf |
| Status.EnsureOutcome | internal/controller/status/status.go:31-41 | re-reads the NfsPvc first; only NfsPvcs change and none appears or disappears |
| Status.UpdateOutcome | internal/controller/status/status.go:21-28 | only NfsPvcs change and none appears or disappears |
| Status.UpdateWritesOnlyOnChange | internal/controller/status/status.go:21-41 | with both reads answered there is no write when the recorded phases match. Otherwise the NfsPvc is re-read, and a successful write changes only its status, to the two observed phases |
| Status.EnsureReadError | internal/controller/status/status.go:31-34 | a failed re-read is returned with no write |
| Status.EnsureWritesStatus | internal/controller/status/status.go:31-41 | on a store whose keys match its objects, a successful write changes only the stored NfsPvc's status, to the given phases; a failed one changes nothing |
| Status.UpdateSettles | internal/controller/status/status.go:21-41 | with no failure, the stored NfsPvc ends with the observed phases and nothing else changes |
| Status.UpdateTwiceWritesOnce | internal/controller/status/status.go:21-41 | a second Update with no outside change writes nothing |
| Status.ReliableRetrySucceeds | internal/controller/status/status.go:36-40 | with no failure the status write succeeds |
| Status.GetPVCStatus | internal/controller/status/status.go:44-53 | issues the read of PVCStatusOutcome and returns its phase |
| Status.GetPVStatus | internal/controller/status/status.go:56-65 | issues the read of PVStatusOutcome and returns its phase |
| Status.Ensure | internal/controller/status/status.go:31-41 | issues the calls of EnsureOutcome and ends in its state |
| Status.Update | internal/controller/status/status.go:21-28 | issues the calls of UpdateOutcome and ends in its state |
| Finalizer.AddFinalizer | internal/controller/finalizer/finalizer.go:24-25 | the finalizer is in the result. The list is unchanged if the finalizer was already there; otherwise it is appended once |
| Finalizer.EnsureOutcome | internal/controller/finalizer/finalizer.go:23-31 | only NfsPvcs change; a present finalizer means no call at all |
| Finalizer.EnsureAddsOnce | internal/controller/finalizer/finalizer.go:23-28 | a missing finalizer leads to one write, and a store error is returned unchanged. After success the stored list is the old one plus the finalizer, which appears exactly once |
| Finalizer.RemoveOutcome | internal/controller/finalizer/finalizer.go:14-20 | exactly one NfsPvc update; only NfsPvcs change |
| Finalizer.RemoveKeepsOthers | internal/controller/finalizer/finalizer.go:14-20 | after success the finalizer is gone and every other entry keeps its count. A deleting NfsPvc left with no finalizer is purged; a store error is returned unchanged |
| Finalizer.Ensure | internal/controller/finalizer/finalizer.go:23-31 | issues the calls of EnsureOutcome and ends in its state |
| Finalizer.Remove | internal/controller/finalizer/finalizer.go:14-20 | issues the call of RemoveOutcome and ends in its state |
| Controller.UpdateOutcome | internal/controller/nfspvc_controller.go:138-148 | a deleting NfsPvc gets the status update alone, with no storage sync before it |
| Controller.EnsureAndUpdateOutcome | internal/controller/nfspvc_controller.go:97-104 | only extends the log and always answers the empty result; for a deleting NfsPvc it creates no PV or PVC |
| Controller.DeletionOutcome | internal/controller/nfspvc_controller.go:80-101 | the deletion path only extends the log and creates no PV or PVC. It ends with the empty result, or with a 4-second requeue and no error |
| Controller.ReconcileOutcome | internal/controller/nfspvc_controller.go:69-106 | a pass only extends the log, and ends with the empty result or with a 4-second requeue and no error |
| Controller.ReconcileWithoutNfsPvc | internal/controller/nfspvc_controller.go:72-79 | a missing NfsPvc gives an empty result, no error and no other call; other read errors give an empty result and the wrapped error |
| Controller.ReconcileDeletionPath | internal/controller/nfspvc_controller.go:80-95 | the sentinel gives a requeue after 4 seconds and no error. Any other deletion error is returned wrapped. A released NfsPvc loses its finalizer, the pass ends, and the finalizer write's error is returned unwrapped |
| Controller.DeletingNeverCreates | internal/controller/nfspvc_controller.go:80-104 | a pass over a deleting NfsPvc never creates a PV or a PVC |
| Controller.ReconcileLivePath | internal/controller/nfspvc_controller.go:97-104 | a live NfsPvc goes through Ensure, then the storage sync, then the status update; the first error ends the pass, wrapped |
| Controller.RequestFor | internal/controller/nfspvc_controller.go:119-127 | a listed NfsPvc named like the PVC yields its own key; any other yields the empty request |
| Controller.EnqueueRequestsFromPersistentVolumeClaim | internal/controller/nfspvc_controller.go:109-135 | a failed list gives no requests. Otherwise there is one request per listed NfsPvc: its key when its name is the PVC's, the empty request otherwise |
| Controller.RequestsNameTheOwner | internal/controller/nfspvc_controller.go:109-135 | within the PVC's namespace, a non-empty request is the PVC's own key, and exactly the owner of the PVC yields it |
| Controller.Update | internal/controller/nfspvc_controller.go:138-148 | issues the calls of UpdateOutcome and ends in its state |
| Controller.Reconcile | internal/controller/nfspvc_controller.go:69-106 | issues the calls of ReconcileOutcome and returns its result and error |
| Webhook.WrongType | internal/webhook/v1alpha1/nfspvc_webhook.go:71-101 | the refusal all three validators give a wrongly typed object: no warning, and a message ending with the name of the type that was given |
| Webhook.DoesPVCExist | internal/webhook/v1alpha1/nfspvc_webhook.go:117-125 | "exists" unless the read answered NotFound: success and every other error count as existing |
| Webhook.ValidateAccessMode | internal/webhook/v1alpha1/nfspvc_webhook.go:108-115 | true exactly when every mode is one of the four supported; the empty list passes |
| Webhook.ValidateCreate | internal/webhook/v1alpha1/nfspvc_webhook.go:68-84 | a wrongly typed object is an error with no warning. A collision gives pvcAlreadyExists as warning and error, whatever the modes. Otherwise an unsupported mode gives the access-mode warning and error |
| Webhook.ValidateUpdate | internal/webhook/v1alpha1/nfspvc_webhook.go:87-95 | accepted exactly when the old object is an NfsPvc |
| Webhook.ValidateDelete | internal/webhook/v1alpha1/nfspvc_webhook.go:98-106 | accepted exactly when the object is an NfsPvc |
| Webhook.CreateAcceptedIff | internal/webhook/v1alpha1/nfspvc_webhook.go:75-83 | accepted with no warning exactly when the read answered NotFound and every mode is supported; any create with no error is that acceptance |
| Webhook.CreateAgainstStore | internal/webhook/v1alpha1/nfspvc_webhook.go:117-125 | with the read answered by the store, the collision error is given exactly when the PVC (name, namespace) is stored, and its warning too |
| Webhook.UpdateDoesNotEnforceImmutability | internal/webhook/v1alpha1/nfspvc_webhook.go:87-95 | every update between two NfsPvcs is accepted, whatever changed |
| ApiWebhook.ValidateCreate | api/v1alpha1/nfspvc_webhook.go:67-79 | a collision (any read other than NotFound) comes first. Then an unsupported mode. Accepted exactly when the read answered NotFound and every mode is supported |
| ApiWebhook.ValidateUpdate | api/v1alpha1/nfspvc_webhook.go:82-86 | always accepted |
| ApiWebhook.ValidateDelete | api/v1alpha1/nfspvc_webhook.go:89-93 | always accepted |
| ApiWebhook.CopiesAgree | api/v1alpha1/nfspvc_webhook.go:67-112 | the two copies decide every create and delete on an NfsPvc alike; they part on an update whose old object is not an NfsPvc |
| LegacyFinalizer.DeleteResourceOutcome | internal/controller/utils/finalizer/finalizer.go:84-98 | read then delete. A missing object and NotFound on the delete count as success, and errors are returned raw. With no failure the object ends gone |
| LegacyFinalizer.NfsPvcCleanUpOutcome | internal/controller/utils/finalizer/finalizer.go:68-81 | only the NfsPvc's own PVC and PV may go; with no failure the calls are the PVC read, its delete if it exists, then the PV read and its delete if it exists, and both end gone |
| LegacyFinalizer.HandleResourceDeletionOutcome | internal/controller/utils/finalizer/finalizer.go:27-65 | nothing is created. A live NfsPvc gives (nil, false) with no call. A deleting one without the finalizer gives (nil, true) |
| LegacyFinalizer.DeletionReadError | internal/controller/utils/finalizer/finalizer.go:33-46 | a failed PVC read, or a failed PV read after a good PVC read, other than NotFound, is returned as it is with "not released" and no delete |
| LegacyFinalizer.DeletionReliable | internal/controller/utils/finalizer/finalizer.go:27-59 | with no failure, released exactly when both objects are absent, with RemoveFinalizer's outcome. A lone PV gives FailedCleanUpError naming the PV, with no write. A present PVC means both objects are deleted with no error |
| LegacyFinalizer.LonePVHandledDifferently | internal/controller/utils/finalizer/finalizer.go:51-54 | with the PVC gone, the older protocol leaves the PV in place while the current one deletes it |
| LegacyFinalizer.ReleasedDespiteFailedRemoval | internal/controller/utils/finalizer/finalizer.go:49-50 | once both reads find nothing, the result is exactly RemoveFinalizer's state and error with "released"; a failed finalizer write is still reported as released, and the error is that write's own store error |
| LegacyFinalizer.DeleteResource | internal/controller/utils/finalizer/finalizer.go:84-98 | issues the calls of DeleteResourceOutcome and returns its error |
| LegacyFinalizer.NfsPvcCleanUp | internal/controller/utils/finalizer/finalizer.go:68-81 | issues the calls of NfsPvcCleanUpOutcome and returns its error |
| LegacyFinalizer.RemoveFinalizer | internal/controller/utils/finalizer/finalizer.go:101-108 | behaves exactly as the current Finalizer.RemoveOutcome |
| LegacyFinalizer.EnsureFinalizer | internal/controller/utils/finalizer/finalizer.go:111-120 | behaves exactly as the current Finalizer.EnsureOutcome, so it writes only when the finalizer is missing |
| LegacyFinalizer.HandleResourceDeletion | internal/controller/utils/finalizer/finalizer.go:27-65 | issues the calls of HandleResourceDeletionOutcome and returns its answer |
| LegacySync.PreparePvc | internal/controller/utils/sync/nfspvc.go:94-115 | the PVC under the NfsPvc's own key, with class "brown", the derived PV as its volume and the NfsPvc's capacity as its requests |
| LegacySync.PreparePv | internal/controller/utils/sync/nfspvc.go:117-145 | the PV under the derived name, with class "brown", policy Delete, no mount option, and a claim reference naming the NfsPvc's PVC |
| LegacySync.LegacyBuildersAgainstCurrent | internal/controller/utils/sync/nfspvc.go:94-145 | the older PVC is the current one with class "brown"; the older PV is the current one with "brown" and Delete but no mount option; the two point at each other |
| LegacySync.HandlePvStateOutcome | internal/controller/utils/sync/nfspvc.go:66-92 | only PVs change, and the step starts with the PV read |
| LegacySync.PvStepReliable | internal/controller/utils/sync/nfspvc.go:68-89 | with no failure: a missing PV is created from preparePv; a Failed PV not being deleted is deleted; any other PV is left with no write |
| LegacySync.PvStepDeleteFault | internal/controller/utils/sync/nfspvc.go:80-84 | on a Failed PV not being deleted, NotFound from the delete counts as success, and any other delete error is returned as it is; the stored objects stay either way |
| LegacySync.PvStepReadError | internal/controller/utils/sync/nfspvc.go:69-73 | a PV read error other than NotFound is returned as it is, with no write |
| LegacySync.HandlePvcStateOutcome | internal/controller/utils/sync/nfspvc.go:43-63 | only PVCs change, and the step starts with the PVC read |
| LegacySync.PvcStepReliable | internal/controller/utils/sync/nfspvc.go:43-63 | with no failure the PVC exists and requests exactly the capacity. A missing PVC is created from preparePvc; an existing one keeps everything else and is written only when its requests differed |
| LegacySync.PvcStepReadError | internal/controller/utils/sync/nfspvc.go:51-53 | a PVC read error other than NotFound is returned wrapped, with no write |
| LegacySync.CreateOrUpdateStorageObjectsOutcome | internal/controller/utils/sync/nfspvc.go:37-64 | the PV step, then the PVC step; NfsPvcs are untouched |
| LegacySync.SyncNfsPvcOutcome | internal/controller/utils/sync/nfspvc.go:24-35 | a storage error is returned before the status sync; otherwise the status sync runs on the state the storage step left |
| LegacySync.SyncCreatesMissingPV | internal/controller/utils/sync/nfspvc.go:24-92 | with no failure and no PV, one pass creates the PV from preparePv and leaves the PVC with the NfsPvc's capacity; NfsPvc specs and finalizers are untouched |
| LegacySync.StorageForMissingPV | internal/controller/utils/sync/nfspvc.go:37-64 | with no failure and no PV, the storage step creates the PV from preparePv, leaves the PVC with the NfsPvc's capacity, and keeps every object under its own key |
| LegacySync.HandlePvState | internal/controller/utils/sync/nfspvc.go:66-92 | issues the calls of HandlePvStateOutcome and ends in its state |
| LegacySync.HandlePvcState | internal/controller/utils/sync/nfspvc.go:43-63 | issues the calls of HandlePvcStateOutcome and ends in its state |
| LegacySync.CreateOrUpdateStorageObjects | internal/controller/utils/sync/nfspvc.go:37-64 | issues the calls of CreateOrUpdateStorageObjectsOutcome and ends in its state |
| LegacySync.SyncNfsPvc | internal/controller/utils/sync/nfspvc.go:24-35 | issues the calls of SyncNfsPvcOutcome and ends in its state |
| LegacyStatus.ObservedPhase | internal/controller/utils/status/nfspvc.go:31-42 | the PVC's phase when found, "Unknown" on NotFound, the error otherwise |
| LegacyStatus.SyncNfsPvcStatusOutcome | internal/controller/utils/status/nfspvc.go:20-52 | only NfsPvcs change, none appears or disappears, and the sync starts by re-reading the NfsPvc |
| LegacyStatus.SyncRecordsOnlyRealPhases | internal/controller/utils/status/nfspvc.go:20-52 | with no failure only the recorded PVC phase is written, and only when the PVC's phase is non-empty, not "Unknown" and different. A missing NfsPvc or PVC causes no write |
| LegacyStatus.SyncReadErrors | internal/controller/utils/status/nfspvc.go:22-39 | a missing NfsPvc ends the sync quietly; other NfsPvc or PVC read errors are returned wrapped, with no write |
| LegacyStatus.SyncKeepsSpecs | internal/controller/utils/status/nfspvc.go:44-50 | the status sync never changes any NfsPvc's spec or finalizers |
| LegacyStatus.SyncTwiceWritesOnce | internal/controller/utils/status/nfspvc.go:44 | a second sync with no outside change writes nothing |
| LegacyStatus.SyncNfsPvcStatus | internal/controller/utils/status/nfspvc.go:20-52 | issues the calls of SyncNfsPvcStatusOutcome and ends in its state |

## Left out

- Logging, metrics, and the manager and webhook registration (`SetupWithManager`, the webhook setup functions, kubebuilder markers) are wiring with no decision logic.
- The `List` call in the PVC-to-request mapping is a parameter: the listed NfsPvcs, or None for a failed list.
- The webhook's PVC read is a parameter: its outcome. `Webhook.CreateAgainstStore` ties that outcome to the store.
- Concurrency with the platform's binding controller and with the work queue is not modelled. Conflicts and failures come only from the fault oracle, and phases change only between passes.
- The platform's own protection finalizers on PVs and PVCs are not modelled: a successful delete removes the object at once.
- Retry timing and backoff are not modelled. The budget of `retry.DefaultRetry` is not visible, so it is the `retrySteps` parameter.
- The attempt loop of `retry.RetryOnConflict` lives in client-go, outside this repository. `Common.RetryOnConflictUpdate` runs it as a recursion with one attempt per call: same attempts, same order, same result.
- Error text beyond the fixed messages is not modelled: the `%s`/`%w` rendering of a cause is the `Wrapped` structure. The access-mode error message renders the supported set the way fmt prints a map.
- Capacity is a map that is only compared for equality. Quantity parsing and `reflect.DeepEqual` are not modelled.
- A nil `MountOptions` and an empty one are both `[]`.
- Sync.ClaimRefReadable: `isPVCInRecreationState` reads the PV's claim reference without a nil check. The model makes "claim reference present, unless the phase alone decides" a precondition of the stale check. `Controller.Reconcilable` carries it into the pass for a live NfsPvc, so the nil dereference itself is not modelled.
- Webhook.ValidateCreate: the admission framework's type assertion is the `RuntimeObject` datatype. The type name in the error is a parameter.
- The immutability of the spec that the end-to-end validation test expects is not enforced by either validator. `Webhook.UpdateDoesNotEnforceImmutability` states that it is missing.
- The controller test's older PV name, without `-pv`, is not followed.
- ApiWebhook.ValidateCreate: the older copy's constants, access-mode check and existence rule are the very same as the newer copy's. The model reuses Webhook's definitions for them rather than writing them twice. The package-level client `c` is the lookup parameter.
