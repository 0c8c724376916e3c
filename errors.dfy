/**
 * The closed vocabulary of remote failures and the errors the backend reports.
 *
 * A remote call either succeeds or fails with an `ErrorKind`: a storage error with the
 * service code BlobNotFound or ContainerNotFound, a storage error with any other service
 * code, or a failure that is not a storage error at all (transport, timeout). The
 * backend's translations switch on this enumeration only.
 */
module Errors {
  import opened Wrappers

  datatype ErrorKind = BlobNotFound | ContainerNotFound | OtherStorage | NonStorage

  /** True for the failures that carry a service code (`errors.As(err, &azblob.StorageError)`). */
  predicate IsStorageError(k: ErrorKind) {
    k != NonStorage
  }

  /** What the backend returns to its callers. */
  datatype BackendError =
    | ValueTooLarge                                    // Put: value at or above MaxBlobSize
    | SettingMissing(setting: string)                  // "'<setting>' must be set"
    | MaxParallelInvalid(text: string)                 // max_parallel is not an integer
    | ContainerProbeFailed(container: string, cause: ErrorKind)
    | ContainerCreateFailed(container: string, cause: ErrorKind)
    | DownloadFailed(key: string, cause: ErrorKind)
    | DeleteFailed(key: string, cause: ErrorKind)
    | Remote(cause: ErrorKind)                         // a remote failure returned unchanged

  /** The remote failure an error carries, if it carries one. */
  function Cause(e: BackendError): Option<ErrorKind> {
    match e
    case ContainerProbeFailed(_, k) => Some(k)
    case ContainerCreateFailed(_, k) => Some(k)
    case DownloadFailed(_, k) => Some(k)
    case DeleteFailed(_, k) => Some(k)
    case Remote(k) => Some(k)
    case _ => None
  }

  /**
   * Get's translation of a failed download: a missing blob is an absent entry and no
   * error; another storage error is wrapped with the key; anything else passes through.
   */
  function DownloadError(key: string, k: ErrorKind): (r: Option<BackendError>)
    ensures r.None? <==> k == BlobNotFound
    ensures r.Some? ==> Cause(r.value) == Some(k)
    ensures r.Some? ==> (r.value == DownloadFailed(key, k) <==> IsStorageError(k))
    ensures r.Some? && !IsStorageError(k) ==> r.value == Remote(k)
  {
    if !IsStorageError(k) then Some(Remote(k))
    else if k == BlobNotFound then None
    else Some(DownloadFailed(key, k))
  }

  /**
   * Delete's translation of a failed delete: a missing blob counts as deleted; another
   * storage error is wrapped with the key; anything else passes through.
   */
  function DeleteError(key: string, k: ErrorKind): (r: Option<BackendError>)
    ensures r.None? <==> k == BlobNotFound
    ensures r.Some? ==> Cause(r.value) == Some(k)
    ensures r.Some? ==> (r.value == DeleteFailed(key, k) <==> IsStorageError(k))
    ensures r.Some? && !IsStorageError(k) ==> r.value == Remote(k)
  {
    if !IsStorageError(k) then Some(Remote(k))
    else if k == BlobNotFound then None
    else Some(DeleteFailed(key, k))
  }

  /** What construction does after the container probe. */
  datatype ProbeAction = Proceed | CreateContainer | Abort(error: BackendError)

  /**
   * The provisioning decision: a missing container is created, any other storage error
   * aborts construction, and a probe that did not fail or failed without a service code
   * lets construction go on.
   */
  function ProbeDecision(container: string, probe: Option<ErrorKind>): (r: ProbeAction)
    ensures r == CreateContainer <==> probe == Some(ContainerNotFound)
    ensures r == Proceed <==> probe == None || probe == Some(NonStorage)
    ensures r.Abort? ==> probe.Some? && IsStorageError(probe.value)
                         && r.error == ContainerProbeFailed(container, probe.value)
  {
    match probe
    case None => Proceed
    case Some(k) =>
      if !IsStorageError(k) then Proceed
      else if k == ContainerNotFound then CreateContainer
      else Abort(ContainerProbeFailed(container, k))
  }
}
