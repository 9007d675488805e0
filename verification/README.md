# s3lite, verified model

s3lite is an S3-compatible object server. This project models its core and proves properties of it:

- the **metadata actor**: three ordered tables (buckets; objects under `bucket NUL key NUL version`;
  content-addressed parts with reference counts), changed by transactions that either commit or leave
  the tables alone;
- the **part files**, named by the hash of their content;
- the **request handlers** that combine both: puts, deletes, copies, multipart uploads, locks, bucket
  settings, reads, listings, backups, and the maintenance sweep.

## How it is organised

| file | content |
|---|---|
| `Results`, `ByteStrings`, `Sequences`, `Manifests` | optional values, byte strings in lexicographic order, increasing sequences, the persistent records |
| `KeyOrder` | the composite key and the scan bounds |
| `Refcounts`, `Transactions` | the write transactions on the two tables, conservation of references, freed parts |
| `GcProtocol`, `GcSafety`, `GcWitnesses` | collectors racing with writers, copiers and completers, one atomic action at a time |
| `GcRefinement` | the protocol events of every handler, and that handlers one after the other are disciplined |
| `Scans` | ordered scans; the four computations of the current version |
| `Listing`, `Pagination`, `VersionListing`, `VersionPages`, `VersionRuns` | listings: roll-up, pages, cursors |
| `MetaStore` | class `Store`, the actor with its tables as fields; its methods have the loops of the program |
| `PartStore` | class `Disk`, the part files; class `Reader`, a byte source that hands out pieces of any length |
| `Reads`, `RangeText`, `PercentCodec` | byte ranges, the header texts that spell them, and percent coding |
| `Lifecycle`, `SweepRules`, `SweepSafety`, `Collection` | the two halves of a sweep |
| `Handlers` | every request as a function from one state of the server to the next |
| `Server` | class `Server`, the handlers as methods on `Store` and `Disk` |
| `Effects`, `UploadEffects`, `Expiry` | what each request and each sweep does, in terms of the tables before and after, the files and the reply alone |
| `Uploads`, `UploadRuns`, `Invariants`, `LockSafety`, `Content`, `Overwrites`, `Upkeep`, `Tidiness` | properties of handlers and of whole runs |
| `LockRaces` | lock requests and deletes that read in one message to the actor and write in another |
| `Witnesses` | states on the failing side of the exact conditions, reached from the empty server |

Each method is proved equal to a function, and the properties are lemmas about those functions, so they
hold of the methods too: `Store` methods equal functions of `Transactions`, `Scans` and `Listing`,
`Server` methods equal functions of `Handlers`, `Lifecycle` and `Collection`. `Effects`, `UploadEffects`, `Expiry`,
`Pagination` and `RangeText` say what those functions compute without referring to how they do it.

## Conventions

- Strings are sequences of UTF-8 bytes. BLAKE3 and MD5 are uninterpreted functions; where it matters,
  BLAKE3 is assumed to be injective (`CollisionFree`).
- Time, generated ids and the outcome of unlinking a file are inputs (`Env`). `attributes` stands for the
  descriptive fields of a manifest (content type, user metadata, tags, checksum, storage class).
- A handler is atomic in `Handlers`; `GcProtocol` and `LockRaces` take them apart again. `GcRefinement` connects
  `Handlers` and `GcProtocol`.

Hypotheses that the code does not establish by itself, and what is proved about them:

| hypothesis | where | without it |
|---|---|---|
| bucket and key names contain no NUL | `ProperKey`, `WellFormed` | `KeyOrder.NulInKeyCollides` |
| the 32-bit counter can hold old and new references together | `PutFits`, `CountersFit`, `RequestFits` | `Transactions.PutConserves` is an equivalence |
| at most one collector task per part | `OneTaskPerPart` | `GcWitnesses.OneTaskPerPartIsNeeded`; the events of handlers in sequence keep it (`GcRefinement.RunsAreDisciplined`) |
| no row is removed between a request's acquiring a part and its commit | `NoRemovalUnderHolder` | `GcWitnesses.NoRemovalUnderHolderIsNeeded`; the events of handlers in sequence keep it (`GcRefinement.RunsAreDisciplined`) |
| a completed object has another key than its upload | `Acquired` | `Transactions.CompleteSameKeyLosesObject`; handlers establish it (`RowOk`, `GcRefinement.HandlersAreDisciplined`) |
| a delimiter has a byte below 255, as any UTF-8 text has | `ProperRequest` | `KeyOrder.AfterPrefixStartExact` is an equivalence |
| a cursor comes from a page, or is not below the prefix | `Resumable` | `Pagination.StartAfterExact` is an equivalence |
| generated ids are new | `FreshIds` | |

## Findings

Places where the code does less than its interface suggests, each with the exact condition and an input
on the failing side:

| finding | exact condition | input |
|---|---|---|
| Appending a part does not ask whether the manifest is in progress, so a part upload that names a committed version can change its content, even while the version is retained. It keeps the content exactly if it is refused or brings the bytes that its number stands for already. | `Overwrites.UploadPartKeepsContentIff` | `Witnesses.RetainedContentCanChange` |
| A version-listing page that ends inside a key loses the rest of that key's versions; the next page continues exactly at key boundaries, and the pages together are everything exactly if all of them end there. | `VersionPages.NextVersionPageContinuesIff`, `VersionRuns.VersionPagesAreLosslessIff` | `Witnesses.VersionListingCanLoseVersions` |
| A client-supplied start below the prefix can end a listing too early. | `Pagination.StartAfterExact` | `Pagination.StartAfterWitness` |
| A put with an old clock is not what the next read finds. | `Content.PutIsCurrentIff` | `Witnesses.PutCanBeStale` |
| The part-wise range read underflows exactly if the first part is empty; objects like that come from uploads with an empty first part. | `Reads.ReadSourceRange` | `Witnesses.EmptyFirstPartIsReachable` |
| In a suspended bucket the marker of an expired version is deleted again in the same sweep exactly if another row of the "null" slot is due; the version is then current as before. | `SweepRules.MarkerStaysIff`, `SweepRules.ExpiryUndone` | `Witnesses.ExpiryCanBeUndone` |
| The listing's decoder and the others differ exactly on texts with a plus sign. | `PercentCodec.DecodersAgreeIff` | any such text |
| A part upload stores its file before it looks for its upload. If there is none, and no manifest refers to that content, the file stays and no sweep collects it; every other request leaves exactly the files that are referenced. | `Tidiness.HandlersKeepFilesTidyIff` | `Witnesses.FilesCanLeak` |
| A part whose file a sweep could not unlink stays in the collector's hands for ever: no sweep lists it again, and every put or part upload of that content is refused. If every sweep can unlink, nothing is ever pending. | `Tidiness.PendingForEver`, `Tidiness.PendingContentIsRefused`, `Tidiness.RunsKeepRowsTidy` | `Witnesses.ContentCanBecomeUnwritable` |
| A retention request decides on the lock that it read. A retention is shortened exactly if the check would have refused what is there when it writes. | `LockRaces.RetentionIsLostIff` | `LockRaces.RetentionCanBeLost` |
| A delete decides on the lock that it read. It removes a locked version exactly if what it read was not locked. | `LockRaces.LockedIsRemovedIff` | `LockRaces.RetainedCanBeRemoved` |

## Model

| member | source | states |
|---|---|---|
| KeyOrder.EncodeIsOrderEmbedding | src/storage/manifest.rs:99-109 | byte order of encoded keys is the lexicographic order of (bucket, key, version), for NUL-free buckets and keys |
| KeyOrder.EncodeIsInjective | src/storage/manifest.rs:99-109 | two keys have the same encoding exactly if they are equal |
| KeyOrder.NulInKeyCollides | src/storage/manifest.rs:99-100 | with NUL in a name, different keys can share a row |
| KeyOrder.BucketRange | src/storage/db/actor.rs:1010-1030 | the rows between the bucket bounds are exactly the bucket's, also for buckets whose names extend one another |
| KeyOrder.KeyRange | src/storage/db/actor.rs:762-774 | the rows between the key bounds are exactly the versions of that key |
| KeyOrder.PrefixStartSelects | src/storage/db/actor.rs:617-625 | an initial scan starts at the first key not below the prefix |
| KeyOrder.AfterKeyStartSelects | src/storage/db/actor.rs:627-635 | a scan after a key starts at the first greater key and never inside a key's versions |
| KeyOrder.AfterPrefixStartSelects | src/storage/db/actor.rs:637-655 | a scan after a common prefix starts at the first key beyond all keys under it |
| KeyOrder.AfterPrefixStartExact | src/storage/db/actor.rs:637-655 | it does so in every table exactly if the prefix has a byte below 255 |
| KeyOrder.ComputeAfterPrefix | src/storage/db/actor.rs:637-655 | the loop over the last bytes computes that bound |
| Refcounts.IncrementAllRefusal | src/storage/db/actor.rs:1098-1130 | taking references is refused exactly if one names a part in the collector's hands |
| Refcounts.IncrementAllAt | src/storage/db/actor.rs:1098-1130 | a part's count grows by its number of occurrences, capped at the 32-bit maximum; new rows are live |
| Refcounts.DecrementAllAt | src/storage/db/actor.rs:1132-1149 | a part's count drops by its number of occurrences, not below zero |
| Refcounts.DecrementAllReports | src/storage/db/actor.rs:1132-1149 | each part is reported at most once, exactly if its count reached zero, even if one manifest repeats it |
| Transactions.PutRefusedIff | src/storage/db/actor.rs:335-352 | a put is refused exactly if its manifest names a pending part |
| Transactions.PutConserves | src/storage/db/actor.rs:335-374 | after a put, new or replacing, counts equal references exactly if the counters could hold old and new references together |
| Transactions.PutFreesExactly | src/storage/db/actor.rs:353-367 | it frees, once each, exactly the parts that lost their last reference, shared and repeated parts included |
| Transactions.DeleteConserves | src/storage/db/actor.rs:387-411 | a delete conserves references and frees exactly what lost its last one |
| Transactions.AppendConserves | src/storage/db/actor.rs:437-485 | an append or re-upload conserves references exactly if the new count fits, and frees exactly what lost its last one |
| Transactions.CompleteConserves | src/storage/db/actor.rs:661-749 | a completion conserves references exactly if the new counts fit, and frees exactly what lost its last one |
| Transactions.CompleteSameKeyLosesObject | src/storage/db/actor.rs:741-745 | with equal keys the completed object is removed again |
| Transactions.MarkConserves | src/storage/db/actor.rs:495-517 | marking hands a part over exactly if nothing refers to it, and conserves references |
| Transactions.RemoveConservesIff | src/storage/db/actor.rs:519-527 | removing a row conserves references exactly if nothing refers to the part |
| Transactions.MetadataUpdateConserves | src/storage/db/actor.rs:961-982 | rewriting a row with the same parts conserves references |
| GcSafety.RaceSafety | src/s3/object.rs:446-461 | over every interleaving of writers, copiers, completers and collectors in which requests commit what they acquired, counters fit, each part has one collector task at most and no row is removed under a holder: every referenced part has its file and every count is right |
| GcRefinement.HandlersAreDisciplined | src/s3/object.rs:446-461 | on a healthy server the events of every handler (write or read, the one commit, then mark, unlink and remove per part it collects) commit what was acquired, meet both hypotheses, and lead to the state that the handler leaves |
| GcRefinement.RunsAreDisciplined | src/s3/maintenance.rs:237-258 | so do the events of every run of handlers, one after the other |
| GcSafety.CommitMeetingTaskIsRefused | src/storage/db/actor.rs:1108-1113 | a put that names a part in the collector's hands is refused |
| GcWitnesses.OneTaskPerPartIsNeeded | src/storage/db/actor.rs:506-513 | a run with two tasks on one part loses the file of a committed object |
| GcWitnesses.NoRemovalUnderHolderIsNeeded | src/storage/parts.rs:97-98 | a run in which a row is removed under a deduplicating writer loses the file of a committed object |
| Scans.RowsSpec | src/storage/db/actor.rs:545-552 | a table range yields exactly the rows between its bounds, in key order |
| Scans.NewestFirstSpec | src/storage/db/actor.rs:863 | the sort orders by descending time and keeps every row |
| Scans.SortThenFilter | src/storage/db/actor.rs:863 | the sort is stable: rows selected from it are in the order in which sorting the selection puts them |
| Scans.CurrentIff | src/storage/db/actor.rs:754-796 | a lookup finds exactly the newest committed version of the key, ties going to the smaller version id |
| Scans.NothingCurrentIff | src/storage/db/actor.rs:754-796 | it finds nothing exactly if the key has no committed version |
| Scans.CurrentVersionsAgree | src/s3/maintenance.rs:79-85 | lookup, per-key winner, head of the stable sort and first committed entry of the sweep are the same manifest |
| Listing.ListAt | src/storage/db/actor.rs:572-608 | one turn of the single-pass roll-up: a key that is not skipped adds the item that stands for it, and the rest is the listing behind it |
| Pagination.FindIsFirst | src/storage/db/actor.rs:589 | the delimiter search returns the first occurrence, or nothing if there is none |
| Pagination.RollUpSound | src/storage/db/actor.rs:572-608 | every listed item stands for some live key |
| Pagination.RollUpComplete | src/storage/db/actor.rs:572-608 | every live key is listed itself or covered by its common prefix |
| Pagination.RollUpAscending | src/storage/db/actor.rs:572-608 | items come in strictly increasing order, so none occurs twice |
| Pagination.ListingIsExact | src/storage/db/actor.rs:529-615 | an item is listed exactly if it is the item of a key under the prefix whose current version is an object |
| Pagination.ObjectListedIff | src/storage/db/actor.rs:572-608 | an object is listed itself exactly if it is the current version of a key under the prefix in which no delimiter follows the prefix |
| Pagination.CommonPrefixListedIff | src/storage/db/actor.rs:597-604 | a common prefix is listed exactly if it is the key of some current object under the prefix, cut behind the first delimiter that starts behind the prefix |
| Pagination.NextPageContinues | src/storage/db/actor.rs:592-601 | the page behind a truncated one lists exactly the remaining items |
| Pagination.TruncatedIff | src/storage/db/actor.rs:592-615 | a page says that it is truncated exactly if its cursor leads to further items |
| Pagination.PaginationIsLossless | src/storage/db/actor.rs:529-615 | the pages obtained by following the cursors, put together, are the unlimited listing |
| Pagination.PaginationHasNoDuplicates | src/storage/db/actor.rs:529-615 | nothing is listed twice over all pages together |
| Pagination.StartAfterExact | src/storage/db/actor.rs:560-562 | a client-supplied start lists everything behind it, on every table, exactly if no key fits between it and the prefix |
| VersionListing.VersionsAreExact | src/storage/db/actor.rs:843-876 | every committed version in scope is listed, nothing else, and the flag marks exactly the current version of its key |
| VersionPages.NextVersionPageContinuesIff | src/storage/db/actor.rs:861-881 | the next page lists exactly the remaining entries if and only if the last one ended with the last version of its key |
| VersionRuns.VersionsInOrder | src/storage/db/actor.rs:861-881 | versions are listed key by key in ascending order, newest first within a key |
| VersionRuns.VersionPageHolds | src/storage/db/actor.rs:864-887 | a page holds as many entries as fit and says that it is truncated exactly if some are left |
| VersionRuns.VersionPagesAreLosslessIff | src/storage/db/actor.rs:861-887 | the pages obtained by following the cursors, put together, are the whole listing if and only if every page but the last ends with the last version of its key |
| MetaStore.Store.CreateBucket | src/storage/db/actor.rs:275-287 | adds the bucket, or is refused because it exists and changes nothing |
| MetaStore.Store.DeleteBucket | src/storage/db/actor.rs:297-320 | removes the bucket exactly if it exists and its range is empty |
| MetaStore.Store.UpdateBucket | src/storage/db/actor.rs:798-816 | changes the configuration of an existing bucket only |
| MetaStore.Store.PutManifest | src/storage/db/actor.rs:335-374 | the tables become those of the transaction, or stay as they were if it is refused |
| MetaStore.Store.Release | src/storage/db/actor.rs:353-367 | drops every reference of a list and collects what became free, in order |
| MetaStore.Store.GetManifest | src/storage/db/actor.rs:376-385 | in a well-formed table it finds the one manifest with exactly this key, and nothing only if there is none |
| MetaStore.Store.DeleteManifest | src/storage/db/actor.rs:387-411 | the tables become those of the transaction, or stay as they were |
| MetaStore.Store.UpdateState | src/storage/db/actor.rs:413-435 | sets the state of an existing row, or changes nothing |
| MetaStore.Store.AppendPart | src/storage/db/actor.rs:437-485 | the tables become those of the transaction, or stay as they were |
| MetaStore.Store.CompleteMultipart | src/storage/db/actor.rs:661-749 | the tables become those of the transaction, or stay as they were |
| MetaStore.Store.CollectFree | src/storage/db/actor.rs:713-739 | collects each unreferenced candidate once |
| MetaStore.Store.MarkGcPending | src/storage/db/actor.rs:495-517 | hands over an unreferenced part and says whether it did |
| MetaStore.Store.RemovePart | src/storage/db/actor.rs:519-527 | removes the row unconditionally |
| MetaStore.Store.ListOrphanParts | src/storage/db/actor.rs:1035-1047 | lists the live rows without references in key order |
| MetaStore.Store.UpdateLock | src/storage/db/actor.rs:961-982 | replaces the lock of an existing row and nothing else |
| MetaStore.Store.GetLatestVersion | src/storage/db/actor.rs:754-796 | the strict-greater scan computes the current version, for any names |
| MetaStore.Store.ListAllManifestsInBucket | src/storage/db/actor.rs:1010-1030 | lists exactly the rows of the bucket that its range holds, for any names |
| MetaStore.Store.ListObjects | src/storage/db/actor.rs:529-615 | the scan computes the page of the listing |
| MetaStore.Store.RollUpPage | src/storage/db/actor.rs:572-608 | the one-variable pass over the winners computes the page of their roll-up |
| MetaStore.Store.ListObjectVersions | src/storage/db/actor.rs:823-888 | the scan computes the page of the version listing |
| MetaStore.Store.VersionsPage | src/storage/db/actor.rs:857-881 | the loop over the keys computes the first page of the grouped entries, with flags and cursor |
| MetaStore.Store.KeyVersions | src/storage/db/actor.rs:864-876 | the loop over the versions of a key adds its entries, or fills the page and says so |
| PartStore.Disk.WriteStream | src/storage/parts.rs:56-113 | however the reader splits its bytes, the result describes the whole input; existing files never change, names stay content hashes |
| PartStore.Disk.Delete | src/storage/parts.rs:133-140 | removes that file only; a missing file is fine |
| Reads.ReadSourceRange | src/s3/copy.rs:267-305 | reading part by part returns bytes start to end of the concatenation; it fails exactly if a part it opens is missing, and underflows exactly if the first part is empty |
| Reads.GetBody | src/s3/object.rs:203-215 | assembling and slicing returns the same bytes, as many as Content-Length says, and fails exactly if a part is missing |
| Reads.RangeHeaderExact | src/s3/object.rs:508-570 | an accepted header yields in-bounds positions that are exactly those it denotes (section 14.1.2 of RFC 9110), or no range if it denotes nothing |
| RangeText.DecimalReadsBack | src/s3/object.rs:508-570 | a number written in decimal digits is read as that number |
| RangeText.NumeralIff | src/s3/object.rs:508-570 | a bound is accepted exactly if it is a 64-bit number in decimal digits, possibly behind zeros and a plus sign |
| RangeText.ParsesIff | src/s3/object.rs:508-570 | a header is read as a pair of bounds, a start or a suffix length exactly if its text is "bytes=a-b", "bytes=a-" or "bytes=-n" |
| RangeText.RangeHeaderRefusedIff | src/s3/object.rs:508-570 | a header is refused exactly if it spells no range |
| RangeText.RangeHeaderMeans | src/s3/object.rs:508-570 | otherwise it yields exactly the positions that the spelled range denotes (section 14.1.2 of RFC 9110), or no range if it denotes none |
| RangeText.CopyRangeMeans | src/s3/copy.rs:307-330 | a copy range is accepted exactly if its text is "bytes=a-b" with bounds within the source |
| Reads.CopyRangeAcceptedIff | src/s3/copy.rs:307-330 | a copy range is accepted exactly if a Range header would read it as a pair of bounds within the source |
| Reads.CopyRangeAgreesWithRange | src/s3/copy.rs:307-330 | a copy range selects the bytes that the same Range header selects |
| PercentCodec.UrlPercentEncode | src/s3/listing.rs:377-388 | the loop computes the encoding |
| PercentCodec.UrlPercentDecode | src/s3/listing.rs:268-294 | the loop and the replacement of invalid text behind it compute the decoding that maps plus to space |
| PercentCodec.PercentDecode | src/s3/copy.rs:389-405 | the loop and the replacement of invalid text behind it compute the decoding that keeps plus |
| PercentCodec.DecodeInvertsEncode | src/s3/listing.rs:377-388 | both decodings invert the encoding on every byte string (sections 2.1 and 2.3 of RFC 3986) |
| PercentCodec.TextComesBack | src/s3/listing.rs:268-294 | so every valid text comes back through both decoders, whatever replaces invalid text |
| PercentCodec.EncodeIsInjective | src/s3/listing.rs:377-388 | different byte strings have different encodings |
| PercentCodec.DecodersAgreeIff | src/s3/dispatch.rs:260-278 | the decoders agree on exactly the texts without a plus sign |
| PercentCodec.EncodedByteIs | src/s3/listing.rs:377-388 | a byte stands for itself exactly if it is a letter, a digit or one of "-._~"; any other becomes a percent sign and two upper-case hexadecimal digits |
| PercentCodec.EncodedConcat | src/s3/listing.rs:377-388 | the encoding goes byte by byte |
| PercentCodec.EscapeIsDecoded | src/s3/copy.rs:389-405 | a percent sign and two hexadecimal digits of either case decode to that byte |
| PercentCodec.OtherIsDecoded | src/s3/listing.rs:268-294 | everything else decodes to itself, but for the plus sign in listing queries |
| Lifecycle.BucketJobsCover | src/s3/maintenance.rs:70-98 | the sweep visits every row of a bucket once and takes exactly the current versions for current |
| SweepRules.SweepRefinesRules | src/s3/maintenance.rs:55-230 | whatever the versioning, the sweep succeeds and leaves exactly the rows the rules ask for, with one delete marker per expired current version where versioning is on or suspended and the marker is not due itself; counters count the verdicts |
| SweepRules.MarkersDoNotCollide | src/s3/maintenance.rs:199-226 | unless versioning is suspended that is the table before without the rows that go, plus one marker per expired current version |
| SweepRules.MarkerStaysIff | src/s3/maintenance.rs:203-226 | after the sweep the marker of an expired version is in the table exactly unless another row of the "null" slot was to be deleted |
| SweepRules.ExpiryUndone | src/s3/maintenance.rs:203-226 | if it is not, the expired version is current after the sweep as before |
| Upkeep.SweepFollowsRules | src/s3/maintenance.rs:28-33 | on a healthy server every sweep with new ids leaves exactly these rows and counts these verdicts |
| Expiry.SweepOfUnversioned | src/s3/maintenance.rs:105-204 | with versioning off a sweep leaves exactly the rows that are not expired (current object, lock over, some enabled rule covers the key and its days of 86 400 s have passed since creation), nor superseded (the same for other versions), nor abandoned (uploads) |
| Expiry.SweepOfVersioned | src/s3/maintenance.rs:105-230 | with versioning on expired versions stay too, and each gets a delete marker under a new id, made now |
| Expiry.SweepOfSuspended | src/s3/maintenance.rs:105-230 | with versioning suspended the marker takes the place of the "null" version, and is gone again exactly if that was to be removed |
| Expiry.SweepCounts | src/s3/maintenance.rs:18-24 | the report counts the expired, the superseded and the abandoned rows |
| SweepRules.MarkerIsCurrentIff | src/s3/maintenance.rs:203-226 | a marker that stays is current afterwards exactly if every other committed version that stays is older than the sweep, or equally old with a greater id |
| SweepRules.OtherKeysKeepTheirCurrent | src/s3/maintenance.rs:145-178 | every other key keeps its current version |
| SweepSafety.SweepLifecycleKeeps | src/s3/maintenance.rs:55-102 | any sweep conserves references and adds nothing but delete markers in existing buckets |
| SweepSafety.SweepSparesLocked | src/s3/maintenance.rs:146-152 | no sweep removes or changes a locked committed version outside the "null" slot |
| SweepSafety.SweepSparesUpload | src/s3/maintenance.rs:124-143 | nor an upload that no enabled rule aborts |
| SweepSafety.SweepNeverFails | src/s3/maintenance.rs:55-102 | no lifecycle sweep fails, whatever the versioning: every row it deletes is still there |
| Collection.CollectFreedAt | src/s3/object.rs:446-461 | the inline pass removes exactly the offered parts that nothing refers to |
| Collection.SweepGcExactly | src/s3/maintenance.rs:237-258 | no live orphan is left, each part is treated as it should be, and the count says how many went |
| Uploads.AppendKeepsOrder | src/storage/db/actor.rs:456-478 | an append keeps part numbers strictly ascending and the size their sum, and replaces just the part with its number |
| Uploads.LastUploadWins | src/storage/db/actor.rs:456-478 | a sequence of appends to an empty part list leaves, per number, the part appended last, in ascending order |
| Uploads.AppendReplacesPart | src/storage/db/actor.rs:437-485 | in a well-formed table an append leaves every other manifest as it is; the named one keeps state and lock, and holds the new part in place of the one with its number, in ascending order |
| UploadRuns.FreshUploadHoldsLastParts | src/s3/multipart.rs:73-121 | after any run of requests that leaves it, a fresh upload holds exactly, per number, the part of the last successful part upload to it |
| UploadRuns.UploadReadsBack | src/s3/multipart.rs:155-207 | completing it then gives an object that reads as the bodies sent last under the requested numbers, in their order |
| Uploads.SelectExactly | src/s3/multipart.rs:157-179 | selection succeeds exactly if every requested part was uploaded with that digest, and picks exactly those in order |
| Uploads.CompletionSucceedsIff | src/s3/multipart.rs:135-206 | a completion succeeds exactly for a non-empty ascending request whose parts were all uploaded to an upload in progress |
| Uploads.CompletionIsExact | src/s3/multipart.rs:181-207 | the upload's row is replaced by an object of exactly the requested parts, ascending, with the right size; other rows stay |
| UploadEffects.CreateUploadIs | src/s3/multipart.rs:28-61 | starting an upload succeeds exactly if the bucket exists and writes one row in progress with every field stated |
| UploadEffects.UploadPartRepliesIff | src/s3/multipart.rs:82-115 | which of the three errors a part upload gives, each with its exact condition; refused ones leave the tables alone |
| UploadEffects.UploadPartStoresRow | src/s3/multipart.rs:104-115 | otherwise the named row, and no other, holds number, hash, digest and length of the body in place of the part with that number; size and time of the row follow |
| UploadEffects.WholeSourceIsCopied | src/s3/copy.rs:192-206 | a part copy without a range takes the whole content of its source |
| UploadEffects.SourceRangeIsCopied | src/s3/copy.rs:193-206 | with "bytes=a-b" within the source it takes the bytes from a to b |
| UploadEffects.SourceRangeIsRefused | src/s3/copy.rs:307-330 | with any other range it is refused |
| UploadEffects.CompletionRepliesIff | src/s3/multipart.rs:135-179 | when a completion succeeds, and which of its two errors it gives otherwise |
| UploadEffects.CompletionStoresRow | src/s3/multipart.rs:181-207 | the upload's row gives way to an object under the id "null" of exactly the requested parts, with attributes, lock and creation time of the upload; other rows stay |
| UploadEffects.CompletionThenGet | src/s3/object.rs:198-216 | a GET of that object returns the bodies of the requested parts, one after the other |
| UploadEffects.AbortIs | src/s3/multipart.rs:231-254 | an abort succeeds exactly for an upload in progress and removes just its row |
| Invariants.DeleteBucketSucceedsIff | src/storage/db/actor.rs:297-320 | a bucket can be deleted exactly if it exists and no manifest of any state lies in it |
| Invariants.CollectFreedKeepsHealth | src/s3/object.rs:446-461 | collection touches no referenced row or file |
| Invariants.HandlersKeepHealth | src/s3/object.rs:39-117 | every handler keeps: manifests in existing buckets, counts equal to references, ascending parts with the right size, every referenced part on disk |
| Invariants.RunsKeepHealth | src/s3/object.rs:39-117 | so does every run of handlers |
| Invariants.EmptyIsHealthy | src/storage/db/actor.rs:264-273 | an empty server is healthy |
| LockSafety.VersionsSurvive | src/s3/object.rs:381-404 | through any request a locked version outside "null" stays, its retention never shortens, only legal-hold requests lift a hold, only part uploads that name it change its parts |
| LockSafety.RetentionHoldsOverRuns | src/s3/lock.rs:138-167 | no run of requests before the end of retention removes a retained version or shortens its retention |
| LockSafety.LegalHoldHoldsOverRuns | src/s3/lock.rs:231-240 | no run of requests removes a held version as long as none lifts its hold, by its id or as the current version |
| LockRaces.RetentionIsLostIff | src/s3/lock.rs:138-167 | an accepted retention request shortens the retention exactly if its check would refuse what is there when it writes |
| LockRaces.HoldKeepsRetentionIff | src/s3/lock.rs:231-240 | a legal-hold request keeps the retention exactly if nobody changed it since the request read it |
| LockRaces.LockedIsRemovedIff | src/s3/object.rs:388-405 | a delete removes a version that is locked at its time exactly if what it read was not |
| LockRaces.RetentionHoldsOverRaces | src/s3/lock.rs:138-167 | over every interleaving of lock requests and deletes in which no lock changes between a client's read and its write, a retained version stays and its retention never gets shorter |
| LockRaces.RetentionCanBeLost | src/s3/lock.rs:138-167 | two extensions that write in the other order than they read: the shorter one wins |
| LockRaces.RetainedCanBeRemoved | src/s3/object.rs:388-405 | a delete that looked before a retention was written removes the retained version |
| Content.RowsAreReadable | src/s3/object.rs:203-211 | on a healthy server every manifest can be read in full and yields as many bytes as its size |
| Overwrites.RetainedContentStays | src/s3/object.rs:203-215 | a retained version keeps its content byte for byte over any run in which each part upload that names it is refused or brings the bytes that are there |
| Content.PutReadsBack | src/s3/object.rs:70-115 | a stored object reads back as the body that was put |
| Effects.PutRepliesIff | src/s3/object.rs:39-117 | a put succeeds exactly if its bucket exists and its content is not being collected; otherwise the tables stay |
| Effects.PutStoresRow | src/s3/object.rs:73-106 | a put writes one row with every field as given: under a new id if versioning is on and "null" if not, with the given lock or else the default retention of so many days, or years of 365 days |
| Effects.PutThenGet | src/s3/object.rs:148-216 | a GET of the new version returns what was put |
| Effects.PutIsCurrent | src/storage/db/actor.rs:777-795 | the new row is the current version exactly if every other committed version is older, or equally old with a greater id |
| Effects.ObjectFoundIff | src/s3/copy.rs:242-265 | copies and lock requests find a manifest exactly if it is a committed object with the named version id, or without one the current version |
| Effects.ReadableIff | src/s3/object.rs:148-186 | so does a GET, in an existing bucket |
| Effects.UnreadableIff | src/s3/object.rs:156-186 | which of the three errors a GET answers, each with its exact condition |
| Effects.GetReads | src/s3/object.rs:198-216 | without a range a GET of the manifest it names returns its whole content |
| Effects.GetReadsRange | src/s3/object.rs:198-216 | with a header that spells a range it returns the bytes that the range denotes, or everything if it denotes none |
| Effects.GetRefusesRange | src/s3/object.rs:508-570 | with any other header it is refused |
| Effects.DeleteVersionIff | src/s3/object.rs:381-423 | a delete of a version is refused exactly if it is held or retained beyond now; otherwise just that row goes, if there is one |
| Effects.DeleteUnversioned | src/s3/object.rs:291-334 | with versioning off a delete is that of the version "null" |
| Effects.DeleteMarks | src/s3/object.rs:335-378 | otherwise it succeeds and writes one delete marker with every field stated |
| Effects.DeleteThenGet | src/s3/object.rs:172-186 | a GET of the marker is invalid, and one without version id finds nothing if the marker is the newest version |
| Effects.CopyRepliesIff | src/s3/copy.rs:78-90 | a copy succeeds exactly if its bucket exists and its source is a committed object |
| Effects.CopyStoresRow | src/s3/copy.rs:112-132 | it writes one row made now, of the parts and the size of its source, with the source's attributes unless others are given, and without a lock |
| Effects.CopyThenGet | src/s3/copy.rs:119-120 | a GET of the copy answers, for every range, what a GET of the source answered before |
| Effects.CopyIsCurrent | src/storage/db/actor.rs:777-795 | the copy is the current version exactly if it is the newest |
| Effects.RetentionRepliesIff | src/s3/lock.rs:138-149 | a retention request is refused exactly if there is no such object or its retention would get shorter |
| Effects.RetentionStoresRow | src/s3/lock.rs:151-167 | otherwise the retention is the given one, the hold is the old one, and nothing else changes |
| Effects.RetentionThenDelete | src/s3/object.rs:392-404 | from then on a delete of the version is refused exactly if it is held or the retention has not ended |
| Effects.LegalHoldRepliesIff | src/s3/lock.rs:231 | a legal-hold request succeeds exactly if there is such an object |
| Effects.LegalHoldStoresRow | src/s3/lock.rs:232-240 | the hold is on or off as requested, the retention is the old one, and nothing else changes |
| Effects.LegalHoldThenDelete | src/s3/object.rs:392-404 | with the hold on a delete of the version is refused at any time, with the hold off exactly while it is retained |
| Effects.CreateBucketIs | src/s3/bucket.rs:47-95 | a bucket is created exactly if it does not exist, versioned and lockable if locks are asked for, and neither if not |
| Effects.DeleteBucketIs | src/s3/bucket.rs:97-108 | a bucket goes exactly if it exists and no row of any state lies in it; the two errors have their exact conditions |
| Content.PutIsCurrentIff | src/storage/db/actor.rs:777-795 | the new object is what a read without version id finds exactly if every other committed version is older, or equally old with a greater id |
| Content.CompletionReadsBack | src/s3/multipart.rs:155-207 | a completed object reads as the bodies its parts were uploaded from, in the order of their numbers |
| Overwrites.UploadPartKeepsContentIff | src/storage/db/actor.rs:449-478 | a part upload to a manifest of any state keeps its content exactly if it is refused or brings the bytes that its number stands for already |
| Overwrites.UploadSucceedsIff | src/s3/multipart.rs:82-114 | a part upload succeeds exactly if its number is valid, the manifest exists and the part is not being collected |
| Witnesses.RetainedContentCanChange | src/storage/db/actor.rs:449-454 | a retained version, reached by admissible requests from the empty server, whose content an admissible part upload changes |
| Witnesses.PutCanBeStale | src/storage/db/actor.rs:777-795 | a state reached the same way and a clock for which a successful put is not what the next read finds |
| Witnesses.EmptyFirstPartIsReachable | src/s3/copy.rs:274-278 | an object reached the same way that is not empty and that a part copy cannot read |
| Witnesses.VersionListingCanLoseVersions | src/storage/db/actor.rs:867-871 | two puts of one key, reached the same way, and pages of one entry: one version is on no page |
| Witnesses.ExpiryCanBeUndone | src/s3/maintenance.rs:203-226 | a suspended bucket reached the same way in which the sweep counts a version as expired that is current afterwards |
| Witnesses.FilesCanLeak | src/s3/multipart.rs:82-114 | a part upload to no upload leaves a file that nothing refers to |
| Witnesses.ContentCanBecomeUnwritable | src/s3/maintenance.rs:237-258 | a sweep whose unlink failed, reached the same way, after which every put and part upload of that content is refused over every run |
| Upkeep.SweepIsCompleteAndSafe | src/s3/maintenance.rs:28-33 | a sweep succeeds, leaves no live orphan, touches no referenced row or file, and counts what it collected |
| Upkeep.SweepLeavesReferencedParts | src/s3/maintenance.rs:28-33 | if nothing was pending and every file can be unlinked, exactly the referenced parts have rows afterwards |
| Tidiness.RunsKeepRowsTidy | src/s3/object.rs:446-461 | over every run whose sweeps can unlink, the part table has a row for exactly the referenced parts, and nothing is ever pending |
| Tidiness.TidyRefusesNothing | src/storage/db/actor.rs:1108-1113 | so the interlock refuses nothing: a put succeeds exactly if its bucket exists, a part upload exactly if its number is valid and its manifest exists |
| Tidiness.HandlersKeepFilesTidyIff | src/s3/multipart.rs:82-114 | from tidy rows and files, with successful unlinks, a request leaves a file for exactly the referenced parts if and only if it is no part upload to a missing manifest with content that nothing refers to |
| Tidiness.RunsKeepFilesTidy | src/s3/multipart.rs:82-114 | so a run without such a part upload leaves a file for exactly the referenced parts |
| Tidiness.EmptyIsTidy | src/storage/db/actor.rs:264-273 | the empty server is tidy |
| Tidiness.StuckOrphanIsPending | src/s3/maintenance.rs:237-258 | an orphan whose file cannot be unlinked is in the collector's hands after the sweep |
| Tidiness.PendingForEver | src/storage/db/actor.rs:1035-1047 | over every run a part in the collector's hands stays there |
| Tidiness.PendingContentIsRefused | src/storage/db/actor.rs:1108-1113 | and every later put or part upload of its content is refused |
| Upkeep.BackupIsExact | src/admin.rs:59-71 | a backup visits every manifest, copies exactly the parts with a positive count, and all of their files are there |
| Server.Server.GcFreedParts | src/s3/object.rs:446-461 | mark, unlink, remove the row, for every freed part, unlink failures being ignored |
| Server.Server.SweepGc | src/s3/maintenance.rs:237-258 | the same for every orphan, keeping the row if unlinking fails, and counting |
| Server.Server.WriteBody | src/s3/object.rs:70-74 | stores the body under its hash and describes it |
| Server.Server.PutObject | src/s3/object.rs:39-117 | state and reply are those of the put |
| Server.Server.DeleteSpecificVersion | src/s3/object.rs:381-423 | a locked version is refused; otherwise the row goes, and a missing one is fine |
| Server.Server.DeleteObject | src/s3/object.rs:273-379 | state and reply are those of the delete: permanent, or a delete marker |
| Server.Server.ResolveSource | src/s3/copy.rs:242-265 | finds the committed object that a request refers to |
| Server.Server.CopyObject | src/s3/copy.rs:71-140 | state and reply are those of the copy, which shares the parts of its source and drops its lock |
| Server.Server.FindManifest | src/s3/object.rs:157-171 | finds the committed manifest that a request refers to |
| Server.Server.GetObject | src/s3/object.rs:148-216 | on a healthy server a GET gives the specified answer and never fails to read |
| Server.Server.CreateUpload | src/s3/multipart.rs:28-61 | state and reply are those of starting an upload |
| Server.Server.UploadPart | src/s3/multipart.rs:73-115 | state and reply are those of storing a part |
| Server.Server.ReadCopySource | src/s3/copy.rs:190-206 | reads the chosen range of the source, or says why it cannot |
| Server.Server.UploadPartCopy | src/s3/copy.rs:173-227 | a part copy is a part upload whose body is the chosen range of the source, or fails with the error that reading it gives |
| Server.Server.CheckOrder | src/s3/multipart.rs:138-144 | the loop accepts exactly the strictly ascending positive part numbers |
| Server.Server.SelectParts | src/s3/multipart.rs:157-179 | the loop computes the selection |
| Server.Server.CompleteUpload | src/s3/multipart.rs:125-207 | state and reply are those of the completion |
| Server.Server.AbortUpload | src/s3/multipart.rs:231-254 | only uploads in progress are discarded |
| Server.Server.PutRetention | src/s3/lock.rs:115-169 | retention is set or extended, never shortened, and the hold is kept |
| Server.Server.PutLegalHold | src/s3/lock.rs:205-242 | the hold is set or cleared and the retention is kept |
| Server.Server.EvaluateManifest | src/s3/maintenance.rs:105-188 | the first matching rule decides, which is what the judgement over all rules says |
| Server.Server.SweepBucket | src/s3/maintenance.rs:62-99 | the nested loops do the jobs of the bucket in order and stop at the first error |
| Server.Server.SweepLifecycle | src/s3/maintenance.rs:55-102 | the loop over the buckets computes the lifecycle pass |
| Server.Server.Maintain | src/s3/maintenance.rs:28-33 | the lifecycle pass, then the collection of orphans, with the combined report |
| Server.Server.Backup | src/admin.rs:57-107 | counts the manifests and copies exactly the files of the parts they refer to, reporting those that are missing |

## Left out

- HTTP, headers other than those named above, XML and TOML, authentication, checksums, entity tags, conditional requests, webhooks, CORS, tagging, metrics and storage encodings: easy members, or outside the engine. Requests refused for such reasons change nothing, except that a put refused for its tags or lock headers leaves the part file it has written.
- Asynchrony: the actor handles one message at a time, so its operations are atomic; `GcProtocol` interleaves them with file operations, `LockRaces` the two messages of lock requests and deletes, and `Handlers` runs whole handlers one after the other.
- GcSafety.RaceSafety: holds for disciplined interleavings. That both hypotheses are needed is proved, and that handlers in sequence meet them; handlers running at the same time need not meet them.
- Invariants.RunsKeepHealth: asks of every request that names are NUL-free, ids are new and counters fit; wrap-around of sizes (64 bits) and of the sweep's counters (32 bits) is not modelled.
- SweepRules.SweepRefinesRules: takes the row in a "null" slot to be committed, as every healthy server has it.
- LockSafety.VersionsSurvive: for atomic handlers (see `LockRaces`), and not for the "null" version, which puts, suspended deletes and completions overwrite without looking at its lock.
- Pagination.PaginationIsLossless: follows the cursors of the store, as continuation tokens carry them; markers of the first listing version, which come back as keys, are not modelled.
- Upkeep.SweepIsCompleteAndSafe: says nothing about parts that a crash between two of its steps leaves pending; what becomes of a pending part afterwards is `Tidiness.PendingForEver`.
- Tidiness.RunsKeepFilesTidy: with failing unlinks files may stay; only what then becomes of the rows is stated.
- LockRaces.RetentionHoldsOverRaces: interleaves lock requests and deletes of named versions only; that other requests leave a locked version alone is proved for whole handlers in `LockSafety`.
- Reads.ReadSourceRange: an empty first part is reported as an underflow; what a build without overflow checks does then is not modelled.
- Server.Server.GetObject: conditional requests and response headers other than the length of the body are not modelled.
- Text: what replaces invalid UTF-8 when decoding is a parameter (`lossy`).
- Server.Server.CompleteUpload: requested entity tags are compared as the digests they spell, not as text.
- Server.Server.CopyObject: parsing of the copy-source header is not modelled.
- Disk layout: temporary files, renames and permissions are one step that stores the file.
