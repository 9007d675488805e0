/** The persistent records: manifests, their parts, object locks and bucket configuration
    (src/storage/manifest.rs). */
module Manifests {
  import opened Results
  import opened ByteStrings

  type u32 = n: int | 0 <= n < 0x1_0000_0000

  /** Nanoseconds since the epoch. */
  type Time = int

  const DAY: int := 86_400_000_000_000

  /** Content address of a part. */
  type Hash = Bytes

  datatype ManifestState = InProgress | Committed | Aborted

  datatype ManifestKind = Object | Tombstone

  datatype Retention = Retention(retainUntil: Time)

  datatype ObjectLock = ObjectLock(retention: Option<Retention>, legalHold: bool) {
    predicate ForbidsDelete(now: Time) {
      legalHold || (retention.Some? && retention.value.retainUntil > now)
    }
  }

  datatype PartRef = PartRef(partNumber: u32, hash: Hash, md5: Bytes, size: nat)

  datatype ManifestKey = ManifestKey(bucket: Bytes, key: Bytes, versionId: Bytes)

  /** `attributes` stands for the descriptive fields (content type, user metadata, tags,
      checksum, storage class) that no modelled operation looks into. */
  datatype Manifest = Manifest(
    key: ManifestKey,
    state: ManifestState,
    kind: ManifestKind,
    parts: seq<PartRef>,
    size: nat,
    attributes: Bytes,
    objectLock: Option<ObjectLock>,
    createdAt: Time,
    lastModified: Time)
  {
    predicate Locked(now: Time) {
      objectLock.Some? && objectLock.value.ForbidsDelete(now)
    }
  }

  datatype VersioningState = Off | Enabled | Suspended

  datatype LifecycleRule = LifecycleRule(
    enabled: bool,
    filterPrefix: Option<Bytes>,
    expirationDays: Option<u32>,
    noncurrentDays: Option<u32>,
    abortDays: Option<u32>)

  datatype DefaultRetention = DefaultRetention(days: Option<u32>, years: Option<u32>)

  datatype ObjectLockConfig = ObjectLockConfig(enabled: bool, defaultRetention: Option<DefaultRetention>)

  datatype BucketConfig = BucketConfig(
    versioning: VersioningState,
    objectLock: Option<ObjectLockConfig>,
    lifecycleRules: seq<LifecycleRule>)

  datatype PartState = Live | GcPending

  datatype PartEntry = PartEntry(refcount: u32, size: nat, state: PartState, createdAt: Time)

  datatype MetaError =
    | BucketExists
    | BucketNotFound
    | BucketNotEmpty
    | ManifestNotFound
    | PartIsGcPending(hash: Hash)
    | PartNotFound
    | UploadNotInProgress

  type Objects = map<Bytes, Manifest>

  type Parts = map<Hash, PartEntry>

  type Buckets = map<Bytes, BucketConfig>

  /** The version id of objects written while versioning is off or suspended: "null". */
  const NULL_VERSION: Bytes := [110, 117, 108, 108]

  /** Composite table key: the three fields separated by NUL. */
  function Encode(k: ManifestKey): Bytes {
    k.bucket + [0] + k.key + [0] + k.versionId
  }

  /** S3 forbids NUL in bucket and key names; version ids are unrestricted. */
  predicate ProperKey(k: ManifestKey) {
    NulFree(k.bucket) && NulFree(k.key)
  }

  /** Every row sits under the encoding of its own key. */
  predicate WellFormed(o: Objects) {
    forall k :: k in o ==> k == Encode(o[k].key) && ProperKey(o[k].key)
  }
}
