/** Shapes of the three object kinds the engine works on (the NfsPvc custom
    resource and the platform's PersistentVolume / PersistentVolumeClaim),
    the store's error reasons and the engine's error values. */
module Types {

  datatype Option<T> = None | Some(value: T)

  /** A (name, namespace) pair; cluster-scoped objects use the empty namespace. */
  datatype Key = Key(name: string, namespace: string)

  function PVKey(name: string): Key { Key(name, "") }

  /** A ResourceList (resource name to quantity text), compared only for equality. */
  type Capacity = map<string, string>

  /** The reasons the object store gives when a call fails. */
  datatype ApiError = NotFound | Conflict | AlreadyExists | Invalid | Other

  /** The result of a store read. */
  datatype Res<T> = Ok(value: T) | Fail(err: ApiError)

  /** Error values the engine returns. `Api` is a store error passed on unchanged;
      `FailedCleanup` wraps the cleanup sentinel with %w so that it can still be
      recognised; `Wrapped` is a message formatted around a cause with %s or %v,
      which hides the cause's identity; `FailedCleanUpError` is the older
      engine's own error type. */
  datatype Error =
    | Api(reason: ApiError)
    | FailedCleanup(pvName: string)
    | Wrapped(message: string, cause: Error)
    | FailedCleanUpError(pvName: string)

  /** errors.Is(err, ErrFailedCleanup) */
  predicate IsFailedCleanup(e: Error) { e.FailedCleanup? }

  /** NfsPvcSpec, with the optional protocol version ("" when absent). */
  datatype NfsPvcSpec = NfsPvcSpec(
    accessModes: seq<string>,
    capacity: Capacity,
    path: string,
    server: string,
    nfsVersion: string)

  /** The observed phases; both default to "". */
  datatype NfsPvcStatus = NfsPvcStatus(pvcPhase: string, pvPhase: string)

  /** The NfsPvc resource; `deleting` stands for a set deletion timestamp. */
  datatype NfsPvc = NfsPvc(
    name: string,
    namespace: string,
    finalizers: seq<string>,
    deleting: bool,
    spec: NfsPvcSpec,
    status: NfsPvcStatus)

  /** Object identities assigned by the store; `NoUid` is the empty UID. */
  datatype Uid = NoUid | Uid(n: nat)

  datatype ClaimRef = ClaimRef(name: string, namespace: string, kind: string, uid: Uid)

  /** A PersistentVolume with an NFS source; `mountOptions == []` stands for nil. */
  datatype PV = PV(
    name: string,
    labels: map<string, string>,
    storageClass: string,
    capacity: Capacity,
    accessModes: seq<string>,
    reclaimPolicy: string,
    claimRef: Option<ClaimRef>,
    server: string,
    path: string,
    mountOptions: seq<string>,
    phase: string,
    deleting: bool)

  datatype PVC = PVC(
    name: string,
    namespace: string,
    labels: map<string, string>,
    annotations: map<string, string>,
    storageClass: string,
    volumeName: string,
    accessModes: seq<string>,
    requests: Capacity,
    uid: Uid,
    phase: string)

  // Phase names of the platform's volume and claim objects.
  const VolumeBound := "Bound"
  const VolumeReleased := "Released"
  const VolumeFailed := "Failed"
  const ClaimPending := "Pending"
  const ClaimLost := "Lost"

  /** corev1.ResourcePersistentVolumeClaims.String() */
  const ClaimKind := "persistentvolumeclaims"

  /** The derived name of the PV that the NfsPvc (name, namespace) owns. */
  function PVName(name: string, namespace: string): string
  {
    name + "-" + namespace + "-pv"
  }
}
