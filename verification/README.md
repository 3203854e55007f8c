# Bloodraven backup and failover core: a verified model

Bloodraven is a Kubernetes operator for MySQL failover groups. This project
models the parts of it whose correctness is not visible in one function, and
proves what they are for. The `.dfy` files are one Dafny project;
`dafny verify dfyconfig.toml` checks all of it.

**Backup stamps.** Many backups can map to one object-store location. A stamp
object tells whose dump lies there. `StampProtocol` is the transition system of
start, dump, finish and abandoned cleanup, with one event per store call, any
number of backups, free interleaving, lost responses and crashes anywhere.
`StampOwnership` proves its safety, `StampSteps` shows that the step-by-step
code of `writeBackupStamp`, `finishBackupStamp` and `runAbandonedCleanup` only
ever takes such events while all others interfere, `StampLives` what they achieve
when nothing fails, from an empty cluster on, and `StampSettle` treats the
settle loop on its own, with any other writer on the key. Environment, as the code's comments state it: at
most one live backup per namespace and name, one pod at a time per backup, a
Job has stopped before its cleanup runs, stamps are removed by the protocol
only, creation is atomic, and unstamped objects can only disappear.

**The BRV1 stream.** `Brv1`, `Brv1Security` and `Brv1Stream` model the chunked
encryption format, and `Brv1Archive` many files sealed under one passphrase. AES-GCM is an ideal table keyed by passphrase, salt and
nonce: sealing requires an unused nonce, opening succeeds only on the stored
ciphertext. The encoder and decoder are loops over reused buffers, proved
against a specification of the stream.

**PITR admission, retention and staging.** `CallerLimiter` and `CutoffCache` are
the two bounded maps of the cutoff endpoint, `Retention` the fail-closed pass
over the backups, and `Staging`, `StagingFetch` and `StagingRun` the byte
accounting of the staging volume over a whole download, with every answer of
the store and of the file system arbitrary, a removal that fails included.

**`promote --wait`.** `PromoteWait` is the wait loop over any sequence of
observed groups, `PromoteSafety` whose run it follows, `PromoteReports` when it
gives which answer, and `PromoteRequest` the annotation under concurrent edits and the whole command.

**Artifacts and metadata.** `ArtifactLocation`, `ArtifactDelete`, `Paths`,
`Restoring`, `ArtifactTransfer` and `TransferChecks` cover where an artifact lies, its cleanup by concurrent
workers, and the upload and download of an encrypted dump, attempts that
crashed before included. `Completion`, `CompletionLine` and `CompletionReads` are
the dump-completion line. `Wrappers`, `Text` and `Sorting` hold Option, Result and
the string functions.

Nothing here was executed against the original program; the model follows its
text. A write that lands while its response is lost, a failing read and a
scheduler's choice are nondeterministic choices (`*`) inside the methods, or
parameters of any value, so each contract holds for all of them. `faults` counts
the calls that failed: an operation that gives up says which failure it met.

## What turned out not to hold as stated

Each of these has its exact condition in the model, and a lemma at a failing
input:

- A retried upload runs over the objects of the crashed attempt, which nothing
  deletes, and the download restores every leftover the manifest does not list.
  Upload and download give back the leftovers and, over them, the dump; the dump
  alone exactly when it has every leftover's name
  (`ArtifactTransfer.RetriedTransfer`, `ArtifactTransfer.RestoresDumpIff`,
  `ArtifactTransfer.LeftoverComesBack`).
- That download fails when a leftover file lies where the dump has a directory,
  or the other way round, as `a` and `a/b` do; a name holds a control character;
  or a name leaves no room for the temporary names beside it. It succeeds in all
  other cases (`ArtifactTransfer.DownloadOfLeftover`,
  `ArtifactTransfer.FileAgainstDirectory`, `ArtifactTransfer.UnprintableRefused`,
  `ArtifactTransfer.LongNameRefused`).
- Decrypt-download gives back nothing, without an error, when the key prefix is
  one that `path.Join` rewrites, such as `a/` left from an output `a//`
  (`Paths.ListedIff`, `Paths.DoubleSlashLoses`).
- Listed in another order than the lexical one, a file is lost where a later one
  puts a temporary file, `x.part` before `x`. In any order all files arrive
  exactly when none is in the way of a later one or destroyed by it
  (`ArtifactTransfer.ReplayGivesAllIff`, `ArtifactTransfer.TemporaryTakesFile`).
- The caller limiter evicts its oldest caller unless the empty host is tracked
  as strictly the oldest of several callers: `""` also means "none yet" in the
  scan. Then any other caller can be the one evicted, and a caller can be
  admitted again early with one other admission in between
  (`CallerLimiter.EvictsOldestIff`, `CallerLimiter.AnyCallerEvictable`,
  `CallerLimiter.EmptyHostLetsCallerInEarly`).
- A stream whose header carries another chunk exponent is accepted when the
  file has one chunk that fits it; it still yields the plaintext
  (`Brv1Security.AcceptedIff`).
- `promote --wait` follows a run without a runID whatever site it targets, and
  from one such run to the next (`PromoteSafety.FollowsLegacyIff`,
  `PromoteSafety.LegacyRunOfAnotherSite`). While the request is still set a
  joined run is reported when it is deferred, and only then
  (`PromoteSafety.JoinedRunWhilePending`,
  `PromoteSafety.DeferredReportedWhilePending`).
- `cachedBytes` misses a dropped cache file whose removal failed, and the cache
  can then pass its room by what is stuck, no more
  (`StagingFetch.CountedIff`, `StagingFetch.OverfilledByStuckPart`,
  `StagingRun.PlanAndStage`). It is the total of the cached rows exactly while no
  non-empty row is cached twice (`StagingFetch.RecachedRowStaysCounted`,
  `StagingFetch.RowFetchedTwice`). `blocks` of a claimed size near 2^63 wraps
  below zero (`Staging.ClaimCoversIff`); the cache stays in bounds all the same.
- An output that is itself an `s3://` URL of the bucket is cleaned up when the
  dump is plain, and refused when it is encrypted
  (`ArtifactLocation.CleanedAlikeIff`, `ArtifactLocation.UrlOutputExample`).

## Model

| member | source | states |
|---|---|---|
| `StampOwnership.StepKeepsInv` | cmd/bloodraven/backup_stamp.go:487-644 | every event of every backup keeps the protocol invariant: what each phase of each backup knows of the shared stamp and objects stays true whoever acts next |
| `StampOwnership.OwnershipInEveryState` | cmd/bloodraven/backup_stamp.go:369-374 | in every reachable state, with a stamp all objects were written by the backup it names, without one none was written by any backup, and a live backup past its start owns the stamp |
| `StampOwnership.OnlyOwnObjectsDeleted` | cmd/bloodraven/artifact_cleanup.go:220-322 | a step removes an object only if abandoned cleanup of its own writer runs or a foreign object expires; only the stamp's owner adds objects; writers never change |
| `StampOwnership.VerdictMeansNothingRemains` | cmd/bloodraven/artifact_cleanup.go:244-336 | from a state that reports a cleanup verdict, no run of any length brings back an object of that backup, whichever way the verdict was reached |
| `StampOwnership.ProofOutlivesDump` | cmd/bloodraven/artifact_cleanup.go:284-291 | in every reachable state, also between the crashes of cleanup pods, an object of a backup implies the stamp that names it |
| `StampOwnership.OverForever` | cmd/bloodraven/artifact_cleanup.go:220-234 | once a Job has ended its backup writes neither objects nor a stamp again, over every run |
| `StampOwnership.StampLifecycle` | cmd/bloodraven/backup_stamp.go:520-644 | over every run a stored start, identity and creation time never change, a finished stamp keeps all its bytes, and a stamp once removed is not written again |
| `StampOwnership.FinishedStampOnlyCleanedUp` | cmd/bloodraven/backup_stamp.go:351-390 | no start step, abandoned-stamp replacement or end step removes or changes a finished stamp; only its own backup's cleanup removes it |
| `StampOwnership.StartSucceedsIff` | cmd/bloodraven/backup_stamp.go:520-593 | a start step without failures or rivals succeeds exactly when the location holds its own unfinished stamp, or no objects and no stamp but an abandoned one; otherwise nothing changes |
| `BackupStamp.ValidIff` | internal/backupmeta/stamp.go:119-153 | a stamp is valid exactly when every field is set and its end, if any, is no earlier than its start |
| `BackupStamp.AdoptsIff` | cmd/bloodraven/backup_stamp.go:351-367 | an existing stamp is adopted exactly when it is of the same dump and unfinished |
| `BackupStamp.AbandonedIff` | cmd/bloodraven/backup_stamp.go:375-390 | a stamp is abandoned exactly when it is unfinished and of another backup of the same namespace and name |
| `BackupStamp.RewriteAllowedIff` | internal/backupmeta/stamp.go:197-226 | a rewrite is allowed exactly when it sets an end no earlier than the start, new or the one already there, and changes nothing else |
| `BackupStamp.EndRefusedIff` | internal/backupmeta/stamp.go:197-226 | adding an end to a stored stamp fails exactly for an end before the start, or for another end already there |
| `StampLives.PodStartsIff` | cmd/bloodraven/backup_stamp.go:487-520 | the stamp a pod asks for is its template with the start and creation time, and a pod without a complete one does not start |
| `StampLives.JobBeginsIff` | cmd/bloodraven/backup_stamp.go:487-593 | from the first call on, without failures or rivals, a Job begins exactly on a location with its own unfinished stamp or one free for it, and then owns it; else all stays as it was |
| `StampLives.DumpBeginsIff` | cmd/bloodraven/backup_stamp.go:487-520 | a started backup goes on to its dump exactly when its own unfinished stamp is there |
| `StampLives.EndSucceedsIff` | cmd/bloodraven/backup_stamp.go:622-644 | from every running dump, without failures or rivals, the end step reaches success, with the end stored and nothing else changed, exactly when the end is no earlier than the start |
| `StampLives.CleanupCompletes` | cmd/bloodraven/artifact_cleanup.go:244-336 | without failures or rivals abandoned cleanup always reaches its verdict: stamp and objects of its own location are gone, another is left alone |
| `StampLives.CreatesIff` | cmd/bloodraven/backup_stamp.go:369-374 | a backup is created exactly under a new uid and a name no existing backup of the namespace has |
| `StampLives.BackupRunsThrough` | cmd/bloodraven/backup_stamp.go:487-644 | from an empty cluster every backup can be created, start, dump any objects and end, with exactly these objects and its finished stamp there |
| `StampLives.CrashedBackupCleanedUp` | cmd/bloodraven/artifact_cleanup.go:244-336 | a dump that crashes after any writes is cleaned up, and the location is as it was before the backup |
| `StampSteps.WriteBackupStamp` | cmd/bloodraven/backup_stamp.go:520-593 | under arbitrary interference between its calls, success means the location holds exactly the returned stamp, it is this backup's and unfinished, it is the one asked for unless reported as adopted, and nobody else's object is there; each refusal has its reason: a failed call, another's stamp, or objects without one |
| `StampSteps.RemoveAbandonedStamp` | cmd/bloodraven/backup_stamp.go:505-514 | taken as protocol steps under interference: success entitles the pod to create, which the protocol grants only after the location listed empty and the stamp was deleted; any error leaves the backup idle |
| `StampSteps.SettleCreated` | cmd/bloodraven/backup_stamp.go:547-551 | after a create that reported success, success means the stamp was read back and the backup owns it; any error leaves the backup idle |
| `StampSteps.ConfirmCreate` | cmd/bloodraven/backup_stamp.go:546-593 | success means the backup owns the stamp returned, and it is reported as adopted exactly when it is not the one asked for; any error leaves the backup idle |
| `StampSteps.FinishBackupStamp` | cmd/bloodraven/backup_stamp.go:597-644 | under arbitrary interference, success means the location holds this backup's stamp with the end added and nobody else's object, and needs an end no earlier than the start; a refusal needs a failed call, or an end before the start; every other end leaves the stamp as it was or with the end added; a conflict is never reported |
| `StampSteps.SettleFinished` | cmd/bloodraven/backup_stamp.go:672-720 | the settle loop of the end step, taken as protocol steps: success means the finished stamp is stored and the backup has succeeded; an error needs a failed call, and leaves the backup idle and the stamp as it was or finished |
| `StampSteps.RunAbandonedCleanup` | cmd/bloodraven/artifact_cleanup.go:244-291 | under arbitrary interference, a complete verdict leaves no object of this backup, every other end leaves the stamp that proves whose objects remain, and a cleanup to be run again had a failed call or objects left |
| `StampSteps.CleanupDump` | cmd/bloodraven/artifact_cleanup.go:444-483 | taken as protocol steps under interference: success reaches the state that may delete the stamp, which the protocol grants only after every delete succeeded and the second listing was empty; otherwise the cleanup is to be run again |
| `StampSettle.Settle` | cmd/bloodraven/backup_stamp.go:672-720 | success means the last read showed the wanted stamp; every re-write follows a read that proved the earlier value; a third stamp is never overwritten; on a key only this caller writes every end leaves the earlier or the wanted stamp; writes and reads are bounded |
| `StampSettle.LoadOwnStamp` | cmd/bloodraven/backup_stamp.go:597-617 | returns only a stamp whose identity is the template's, and writes nothing |
| `StampSettle.FinishBackupStamp` | cmd/bloodraven/backup_stamp.go:622-644 | on any key, success means the last read showed the returned stamp, template's own with the end set; on a key only this backup writes, whatever is returned it holds the earlier stamp or that stamp with the end added, and a finished stamp is not changed; a refused rewrite needs an end before the start or another end already there |
| `Brv1.NonceInjective` | internal/backupcrypto/crypto.go:391-400 | two nonces are equal only for equal prefix, counter and final flag |
| `Brv1.ChunkShape` | internal/backupcrypto/crypto.go:205-259 | read-one-ahead cutting loses nothing: all chunks but the last are full, and the last is empty only for empty input |
| `Brv1.ChunkCount` | internal/backupcrypto/crypto.go:205-259 | the number of chunks is max(1, ceil(n / chunk)) |
| `Brv1.HeaderBytes` | internal/backupcrypto/crypto.go:377-386 | the 32 header bytes one by one: magic, version 1, algorithm 1, the big-endian exponent, the salt and the nonce prefix |
| `Brv1Security.RoundTrip` | internal/backupcrypto/crypto.go:266-368 | Decrypt of the encoder's stream yields the plaintext, for every plaintext within the chunk budget and every exponent 1..24 |
| `Brv1Security.AcceptedIff` | internal/backupcrypto/crypto.go:266-368 | under the file's key Decrypt accepts a stream exactly when it is the encoder's, up to a chunk exponent that a single-chunk file also fits; and then yields the plaintext |
| `Brv1Security.OneRunAuthentic` | internal/backupcrypto/crypto.go:266-368 | with the table of one encryption, any accepted stream under any passphrase has the encoder's body and yields its plaintext: truncation, extension and reordering are refused |
| `Brv1Security.HeaderDetermined` | internal/backupcrypto/crypto.go:377-386 | a header that decodes is the one built from the exponent, salt and prefix it decodes to |
| `Brv1Security.HeaderRefusals` | internal/backupcrypto/crypto.go:266-296 | which of the header errors a stream earns, for every stream: empty passphrase, then a short read or another magic, then version, algorithm and an exponent outside 1..24 |
| `Brv1Security.HeaderAccepted` | internal/backupcrypto/crypto.go:266-300 | a header decodes exactly with that magic, version, algorithm and exponent, and to the bytes at their places |
| `Brv1Security.TruncatedAtBoundary` | internal/backupcrypto/crypto.go:312-322 | a stream cut off after any number of its chunks but the last is reported as truncated |
| `Brv1Security.ExtensionRefused` | internal/backupcrypto/crypto.go:330-360 | bytes after the last chunk are reported as trailing data when it is full, and make it inauthentic otherwise |
| `Brv1Security.TamperRefused` | internal/backupcrypto/crypto.go:330-342 | any chunk exchanged for other bytes of its length makes the stream inauthentic at that chunk |
| `Brv1Security.BudgetRefused` | internal/backupcrypto/crypto.go:305-311 | a body that goes on after 2^24 chunks, none of them final, exhausts the counter |
| `Brv1Security.StreamLength` | internal/backupcrypto/crypto.go:194-259 | the stream has 32 + n + 16 * max(1, ceil(n / chunk)) bytes |
| `Brv1Security.DefaultStreamLength` | internal/backupcrypto/crypto.go:194-259 | at the default exponent a chunk is 65536 bytes |
| `Brv1Stream.WriteCounter` | internal/backupcrypto/crypto.go:391-400 | writes the counter big-endian into bytes 8 to 10 and the flag into byte 11, and leaves the prefix |
| `Brv1Stream.Encrypt` | internal/backupcrypto/crypto.go:170-259 | every Seal call uses an unused nonce; the bytes written are the header and the sealed chunks; the counter is reported exhausted exactly when the data needs more than 2^24 chunks |
| `Brv1Stream.EncryptChunks` | internal/backupcrypto/crypto.go:205-259 | the read-one-ahead loop over the reused buffer seals exactly the chunks of the data, the last one as final |
| `Brv1Stream.DecryptStream` | internal/backupcrypto/crypto.go:266-368 | the loop returns what the specification says of the stream and on success has written exactly the plaintext |
| `Brv1Stream.DecryptBody` | internal/backupcrypto/crypto.go:305-368 | the try-both-nonces loop computes the decoder specification from any counter on |
| `Brv1Stream.DecryptChunk` | internal/backupcrypto/crypto.go:305-368 | one round of the decoder equals one step of the specification, or its error |
| `Brv1Stream.EncryptThenDecrypt` | internal/backupcrypto/crypto.go:170-368 | running the two loops one after the other gives back the data |
| `Brv1Archive.EncryptFiles` | cmd/bloodraven/encrypt_upload.go:334-352 | any number of files sealed one after another under fresh salts: in the key store they leave behind each stream decrypts to its file, and it fails exactly when a file is over the chunk budget or the passphrase is empty |
| `Brv1Archive.ArchiveAuthentic` | internal/backupcrypto/crypto.go:266-368 | with many files in the key store, any accepted stream under any passphrase is one of theirs up to the exponent bytes and yields that file |
| `Brv1Archive.EncryptedStays` | internal/backupcrypto/crypto.go:170-204 | sealing under another salt leaves a file encrypted as it was, alone under its key |
| `CallerLimiter.Limiter.Admit` | cmd/bloodraven/pitr_cutoff_admission.go:77-109 | refuses, records, or records over an evicted caller, exactly as the admission rule allows for some scan order |
| `CallerLimiter.EvictsOldestIff` | cmd/bloodraven/pitr_cutoff_admission.go:91-106 | whatever order the map is scanned in, an oldest caller is evicted, if and only if the empty host is not strictly the oldest of several |
| `CallerLimiter.EmptyHostMisleadsScan` | cmd/bloodraven/pitr_cutoff_admission.go:91-106 | a full map of 1024 live callers and an order of the scan that evicts the youngest and keeps the empty host, the oldest |
| `CallerLimiter.AnyCallerEvictable` | cmd/bloodraven/pitr_cutoff_admission.go:92-101 | where the empty host is strictly the oldest, every other caller is the scan's choice in some order |
| `CallerLimiter.EmptyHostLetsCallerInEarly` | cmd/bloodraven/pitr_cutoff_admission.go:77-109 | a whole run of 1026 requests on which a caller is admitted again 2 after its admission, with a ttl of 100 and one other host admitted in between |
| `CallerLimiter.TracksAtMost` | cmd/bloodraven/pitr_cutoff_admission.go:77-109 | over every run at most 1024 callers are tracked |
| `CallerLimiter.NewCallerAdmitted` | cmd/bloodraven/pitr_cutoff_admission.go:77-109 | over every run a caller never admitted before is admitted |
| `CallerLimiter.ExpiredCallerAdmitted` | cmd/bloodraven/pitr_cutoff_admission.go:88-108 | over every run a caller is admitted when each of its earlier admissions is at least its ttl ago |
| `CallerLimiter.TrackedRefusedIff` | cmd/bloodraven/pitr_cutoff_admission.go:88-90 | over every run a tracked caller is refused exactly until its ttl has passed since the recorded admission |
| `CallerLimiter.AdmitEffect` | cmd/bloodraven/pitr_cutoff_admission.go:91-108 | over every run: a refused request changes nothing; an admitted one records its host and below 1024 callers touches no other; at 1024 it drops the expired ones and at most one other, that only when 1024 are live |
| `CallerLimiter.TrackedWereAdmitted` | cmd/bloodraven/pitr_cutoff_admission.go:107-108 | over every run each tracked caller was admitted at its recorded time |
| `CallerLimiter.EarlyReadmissionNeedsCrowd` | cmd/bloodraven/pitr_cutoff_admission.go:77-109 | a host admitted at t1 and again before t1 + ttl implies 1024 other hosts admitted in between, unless at some eviction in between the empty host was strictly the oldest live caller; the empty host itself needs no such exception |
| `CutoffCache.Cache.Lookup` | cmd/bloodraven/pitr_cutoff_admission.go:31-39 | a nil value and an expired entry are misses |
| `CutoffCache.Cache.Store` | cmd/bloodraven/pitr_cutoff_admission.go:45-61 | a full cache drops expired entries first and then may skip the write; nothing else is lost |
| `CutoffCache.HoldsAtMost` | cmd/bloodraven/pitr_cutoff_admission.go:41-61 | over every run of writes at most 1024 entries are held |
| `CutoffCache.HitsAreIdeal` | cmd/bloodraven/pitr_cutoff_admission.go:31-61 | over every run a hit is what an unbounded map with the same ttl answers, so bounding only turns hits into misses |
| `CutoffCache.UnsaturatedIsIdeal` | cmd/bloodraven/pitr_cutoff_admission.go:45-61 | while no write is skipped the cache answers exactly as the unbounded map: purging never costs a hit |
| `CutoffCache.HitIsLastWrite` | cmd/bloodraven/pitr_cutoff_admission.go:31-61 | over every run a hit is the value of the last write to the key, at most ttl ago; and such a write is a hit while none was skipped |
| `CutoffCache.WriteKeptIff` | cmd/bloodraven/pitr_cutoff_admission.go:41-61 | a fresh answer can be read back exactly when the cache was not full of other fresh answers |
| `CutoffCache.KeyInjective` | cmd/bloodraven/pitr_cutoff_admission.go:27-29 | distinct triples of slash-free namespace and group never share an entry |
| `Retention.ResolveCutoff` | cmd/bloodraven/pitr_retention.go:24-99 | fails exactly when a reader check that it has to ask, of a succeeded backup under deletion without a hold, fails; otherwise gives the answer the rules call for: deferral by precedence, or the minimum start and the sorted GTID sets |
| `Retention.Examine` | cmd/bloodraven/pitr_retention.go:38-83 | which backups are skipped, in flight, unknown or retained, and what each adds |
| `Retention.CountNext` | cmd/bloodraven/pitr_retention.go:38-83 | one round of the pass keeps the tally equal to what the list so far calls for, or fails with the reader check |
| `Retention.OrderIndependent` | cmd/bloodraven/pitr_retention.go:38-98 | lists with the same backups in any order get the same answer |
| `Retention.CutoffIff` | cmd/bloodraven/pitr_retention.go:84-97 | a cutoff is answered exactly when nothing is in flight, nothing is unknown and something is retained |
| `Retention.CutoffKeepsDumps` | cmd/bloodraven/pitr_retention.go:38-98 | a cutoff is no later than the start of any succeeded dump of the group that exists, is held or is being read, and has its GTID set retained; one of them began at it, no other set is retained, and none is being made |
| `Retention.DeferralReasons` | cmd/bloodraven/pitr_retention.go:38-98 | each deferral happens exactly for its reason: a backup being made, else one without GTID set or start, else none at all |
| `Retention.MoreBackupsNeverLater` | cmd/bloodraven/pitr_retention.go:24-99 | more backups never move a cutoff later nor drop a GTID set from it |
| `Sorting.SortedUnique` | cmd/bloodraven/pitr_retention.go:94-94 | two sorted lists of the same strings are the same list |
| `Sorting.AtMostIff` | cmd/bloodraven/pitr_retention.go:94-94 | the order is that of the first differing byte, a beginning first |
| `PromoteWait.WaitForPlannedFailover` | cmd/kubectl-bloodraven/promote.go:360-526 | the loop returns the first answer the observed history calls for, and waits on until there is one; what each answer says is in `PromoteReports` |
| `PromoteWait.Adopt` | cmd/kubectl-bloodraven/promote.go:407-430 | the adoption switch moves from run to run as specified, or reports that the run was replaced |
| `PromoteWait.ReportRun` | cmd/kubectl-bloodraven/promote.go:450-519 | a followed run is reported by its marker or phase, and not while a joined run has ended with the request still set |
| `PromoteSafety.FollowsIff` | cmd/kubectl-bloodraven/promote.go:407-427 | a run is followed exactly when the observed groups single it out: none of the request before, then the joined run, then one that was the request's when it appeared |
| `PromoteSafety.FollowsLegacyIff` | cmd/kubectl-bloodraven/promote.go:233-237 | a run without a runID is followed exactly when the first run to appear was one and only such runs came after |
| `PromoteSafety.NobodyIff` | cmd/kubectl-bloodraven/promote.go:430-449 | no run is followed exactly when no observed group showed one of the request |
| `PromoteSafety.AtMostTwoRuns` | cmd/kubectl-bloodraven/promote.go:412-417 | over one wait the followed run changes at most once, from the joined run to another |
| `PromoteSafety.OnlyOwnRunReported` | cmd/kubectl-bloodraven/promote.go:192-237 | a reported result is the last observed one of the followed run; the earlier run's only if the request joined it, and then a deferral or read after the request was taken; a new run's only if it targeted the requested site |
| `PromoteSafety.JoinedRunWhilePending` | cmd/kubectl-bloodraven/promote.go:450-461 | while the request is set, a joined run is reported exactly when it is deferred and no marker ended it |
| `PromoteSafety.DeferredReportedWhilePending` | cmd/kubectl-bloodraven/promote.go:512-518 | a request that joins a deferred run is answered with the deferral while it is still set |
| `PromoteSafety.RefusedMeansNoRun` | cmd/kubectl-bloodraven/promote.go:430-449 | a refusal is reported only when no read of the whole wait showed a run of the request and the request is gone |
| `PromoteSafety.ReportedRunTargetsSite` | cmd/kubectl-bloodraven/promote.go:221-231 | where runs keep their site, a reported run targets the requested site or is the one joined |
| `PromoteSafety.LegacyRunOfAnotherSite` | cmd/kubectl-bloodraven/promote.go:233-237 | a request for one site answered with the success of a nameless run for another |
| `PromoteSafety.NamedRunsNeverLegacy` | cmd/kubectl-bloodraven/promote.go:233-237 | with an operator that names its runs that never happens |
| `PromoteReports.OursIff` | cmd/kubectl-bloodraven/promote.go:192-231 | whose run counts as the request's: another run than the earlier one, for the requested site; or the earlier one, unmarked and admitting for that site or deferred |
| `PromoteReports.LegacyRunIff` | cmd/kubectl-bloodraven/promote.go:233-237 | a nameless run counts when its start time is set and not that of the version written over |
| `PromoteReports.DeferredForIff` | cmd/kubectl-bloodraven/promote.go:192-212 | another target is announced exactly when the request joins a run deferred for another site |
| `PromoteReports.SucceededIff` | cmd/kubectl-bloodraven/promote.go:472-511 | over every wait: success is reported exactly for a followed run that is not held back, whose marker records success, or which has no marker and is in phase Succeeded |
| `PromoteReports.FailedIff` | cmd/kubectl-bloodraven/promote.go:472-511 | failure exactly when its marker records another outcome than success or AlreadyActive, or there is none and the phase is Failed for another reason |
| `PromoteReports.SkippedIff` | cmd/kubectl-bloodraven/promote.go:472-511 | skipped exactly when marker, or phase Failed and its result, say NotStarted with AlreadyActive |
| `PromoteReports.DeferredIff` | cmd/kubectl-bloodraven/promote.go:512-518 | deferred exactly when no marker ended the run and its phase is Deferred |
| `PromoteReports.EndedRunIsReported` | cmd/kubectl-bloodraven/promote.go:450-519 | a followed run that has ended or is deferred is answered at once unless it is held back by a request still set |
| `PromoteReports.RefusedIff` | cmd/kubectl-bloodraven/promote.go:430-449 | a refusal or a skip is reported exactly when its event is found, the request is gone and no read showed a run of it |
| `PromoteReports.NoRefusalFoundIff` | cmd/kubectl-bloodraven/promote.go:544-569 | the search ends without an event exactly ten seconds or more after the first read that found the request gone |
| `PromoteReports.ReplacedIff` | cmd/kubectl-bloodraven/promote.go:407-427 | the run is reported as replaced exactly when some read showed one and the reads do not tell of a run followed to the end |
| `PromoteReports.FailingReads` | cmd/kubectl-bloodraven/promote.go:387-406 | a missing group is reported at once, and six failed reads in a row end the wait before its deadline |
| `PromoteReports.TimedOutAtDeadline` | cmd/kubectl-bloodraven/promote.go:387-406 | the wait times out at its deadline only and never goes on past it |
| `PromoteRequest.AnnotatePlannedFailover` | cmd/kubectl-bloodraven/promote.go:118-160 | under any concurrent edits, on success exactly one patch landed and the baseline is that of the version it was applied to; at most five reads and patches; every failure has its reason (no group, no such site, a failed call, or an edit under each of five patches), and a reported conflict means nothing was written |
| `PromoteRequest.Promote` | cmd/kubectl-bloodraven/promote.go:104-116 | the whole command reports only its own run's result, judged from the version it wrote over, unless runs have no names; its answer is the first that the wait calls for |
| `Staging.ClaimCoversIff` | cmd/bloodraven/pitr_download.go:553-553 | block rounding covers a claimed int64 size exactly up to 2^63 - 4096; above, it wraps below zero |
| `Staging.CachedWithinPlan` | cmd/bloodraven/pitr_download.go:792-823 | cached rows of a plan use no more than the plan's block-rounded total |
| `StagingFetch.PartsAccounted` | cmd/bloodraven/pitr_download.go:757-766 | the cache files on the volume are the cached rows and the copies that were replaced |
| `StagingFetch.AddRow` | cmd/bloodraven/pitr_download.go:757-766 | caching a row leaks the part of the same row cached before, and nothing else |
| `StagingFetch.RecachedRowStaysCounted` | cmd/bloodraven/pitr_download.go:762-764 | cachedBytes stays the total of the cached rows exactly when the row was not cached before or was empty |
| `StagingFetch.RowFetcher.CacheAllowance` | cmd/bloodraven/pitr_download.go:774-785 | an allowance covers the claimed size's blocks, is within the limit less the cache and the reserve and within what the node has free, and is one of the two when the claim fits both |
| `StagingFetch.RowFetcher.TeeRead` | cmd/bloodraven/pitr_download.go:686-705 | a tee's copy is complete and within its allowance, or dropped: then it is gone, or stuck with the size it had |
| `StagingFetch.RowFetcher.Drop` | cmd/bloodraven/pitr_download.go:699-705 | the copy is gone, or its removal failed and it stays as it was |
| `StagingFetch.CountedIff` | cmd/bloodraven/pitr_download.go:755-766 | cachedBytes is what the cache uses exactly when no stuck copy holds anything |
| `StagingFetch.StuckPartOverfills` | cmd/bloodraven/pitr_download.go:699-705 | the sizes of that state: a stuck block uncounted, and a second block allowed beside it, past the room |
| `StagingFetch.OverfilledByStuckPart` | cmd/bloodraven/pitr_download.go:699-705 | two fetches on a volume with room for one block, the first refused with a failing removal, reach a cache of two blocks |
| `StagingFetch.RowCachedTwice` | cmd/bloodraven/pitr_download.go:762-764 | the sizes of that state: the first part is named by no row, and counted |
| `StagingFetch.RowFetchedTwice` | cmd/bloodraven/pitr_download.go:762-764 | two fetches of one row that go well leave its first part on the volume, named by no row and counted as if it were cached |
| `StagingFetch.RowFetcher.FetchOnce` | cmd/bloodraven/pitr_download.go:709-768 | for every answer of the store and the file system: it succeeds exactly for a complete, authentic download of the claimed size, and only that stays cached, replacing the row's earlier copy; a retry is called for exactly on a transient store error; a failed one leaves at most its own copy, if that cannot be removed |
| `StagingFetch.RowFetcher.FetchForPlan` | cmd/bloodraven/pitr_download.go:570-604 | attempts go on exactly while they fail with a transient error, up to six or the cancellation, and the last one decides; a failed fetch leaves only copies that could not be removed |
| `StagingFetch.RowFetcher.PrepareStaging` | cmd/bloodraven/pitr_download.go:792-823 | it succeeds exactly when the unplanned copies can be removed, the plan with coverage.json and the reserve fits the limit, and the node has room; the cached rows are then the planned ones |
| `StagingFetch.RowFetcher.StageOnce` | cmd/bloodraven/pitr_download.go:889-937 | exactly a complete download whose digest matches lands, whole, at its staged path, and it uses no more than its own blocks meanwhile |
| `StagingFetch.RowFetcher.Stage` | cmd/bloodraven/pitr_download.go:848-885 | a plan file moves out of the cache without using more, or is downloaded beside it; it fails exactly when the rename or the mode change does, or the node has no room or none of six attempts is complete |
| `StagingRun.ReadyBound` | cmd/bloodraven/pitr_download.go:792-885 | at every point of the staging the volume holds at most the plan and what leaked, with room for the next download |
| `StagingRun.PlanAndStage` | cmd/bloodraven/pitr_download.go:954-1066 | over a whole download, any row fetched any number of times, the cache stays within the limit less the reserve and what is stuck, and after prepareStaging cached and staged files, coverage.json and the reserve stay within the limit, what is stuck and what was replaced, if downloads are as planned; nothing is replaced while no row is fetched twice; success means every plan file is in place, and follows when nothing fails and the plan fits |
| `ArtifactLocation.PrefixNamesTheBackup` | cmd/bloodraven/artifact_cleanup.go:386-435 | an accepted prefix lies in the bucket asked for and is a directory, the backup's name and a slash |
| `ArtifactLocation.BareAcceptedIff` | cmd/bloodraven/artifact_cleanup.go:386-435 | a bare key is accepted exactly when, its trailing slashes apart, no segment is empty, a dot or two dots and the last is the name; the prefix is the key and a slash |
| `ArtifactLocation.UrlAcceptedIff` | cmd/bloodraven/artifact_cleanup.go:386-435 | a URL is accepted exactly when it is of the bucket asked for and its key is; another bucket is refused as such |
| `ArtifactLocation.NamesShareNoKey` | cmd/bloodraven/artifact_cleanup.go:382-386 | prefixes of two names under one parent share no key |
| `ArtifactLocation.DisplayLocationIs` | internal/backupmeta/location.go:9-27 | an encrypted dump in a bucket is displayed as the URL of its output with one slash at the end, any other as its output; exactly an empty output, an unknown storage and a missing bucket are errors |
| `ArtifactLocation.PlainAndEncryptedAlike` | internal/backupmeta/location.go:9-27 | cleanup reads the plain and the encrypted display location of an output that is no URL alike, rejections included |
| `ArtifactLocation.CleanedAlikeIff` | internal/backupmeta/cleanup.go:87-94 | where cleanup accepts the plain location, it reads the encrypted one alike exactly when the output is no URL |
| `ArtifactLocation.UrlOutputExample` | internal/backupmeta/cleanup.go:87-94 | the output s3://b/n of bucket b: cleaned up under n/ when plain, refused when encrypted |
| `ArtifactDelete.DeleteKeys` | cmd/bloodraven/artifact_cleanup.go:487-519 | under every schedule of up to 16 workers the count is that of the successful deletes, every key not counted had a failed delete, there is no error exactly when all succeeded, and no other key is touched |
| `ArtifactDelete.WorkerStep` | cmd/bloodraven/artifact_cleanup.go:495-512 | every step of every worker keeps the shared counters in line with the store |
| `ArtifactDelete.CleanupS3` | cmd/bloodraven/artifact_cleanup.go:444-483 | whatever pages the store lists, only keys under the prefix are deleted, success means none is left, and a cleanup to be run again had a failed call or keys left |
| `ArtifactDelete.CleanupArtifact` | cmd/bloodraven/artifact_cleanup.go:174-200 | success means no object and no stamp of the backup is left; the objects and stamps of every other name under the parent are left as they were, whatever the end |
| `Paths.ListedIff` | cmd/bloodraven/encrypt_upload.go:347-351 | a joined key is found under its prefix exactly when joining keeps the prefix |
| `Paths.DoubleSlashLoses` | cmd/bloodraven/encrypt_upload.go:261-266 | the output a//: the file f is written to a/f and looked for under a// |
| `Paths.CleanDropsOne` | cmd/bloodraven/encrypt_upload.go:347-351 | joining a key drops empty and "." segments anywhere |
| `Paths.CleanDropsPair` | cmd/bloodraven/encrypt_upload.go:347-351 | and a ".." together with the name before it |
| `Paths.CleanAtRoot` | cmd/bloodraven/encrypt_upload.go:347-351 | and a ".." at the root |
| `Paths.CleanTwice` | cmd/bloodraven/encrypt_upload.go:347-351 | and leaves a joined key as it is |
| `Paths.CleanupFindsKeys` | cmd/bloodraven/encrypt_upload.go:261-266 | every key an encrypted upload writes lies under the prefix cleanup makes of its display location |
| `ArtifactTransfer.KeysInjective` | cmd/bloodraven/encrypt_upload.go:326-343 | two files of a dump never meet on one key, whatever the prefix |
| `ArtifactTransfer.EncryptAndUpload` | cmd/bloodraven/encrypt_upload.go:290-368 | on success every file but the dump metadata is stored under its key and the digests are of exactly those; a failed upload had three failed calls for one file and has stored some of them; other objects are as they were, none lost |
| `ArtifactTransfer.UploadLeaves` | cmd/bloodraven/encrypt_upload.go:290-368 | an upload, whole or not, over what earlier attempts left: the files there are the earlier ones with the new ones over them |
| `ArtifactTransfer.DownloadInOrder` | cmd/bloodraven/encrypt_upload.go:524-577 | the key loop places the wanted files one after another for any order of the keys, through the temporary files beside each target, and fails where a directory, a temporary file or a rename is blocked by a file or directory there |
| `TransferChecks.DigestsChecked` | cmd/bloodraven/encrypt_upload.go:561-575 | over any objects in any order: a download that succeeds found every listed file sealed, and as exactly the content whose digest the manifest records; one file that contradicts its digest fails the whole download |
| `TransferChecks.LateObjectRefused` | cmd/bloodraven/encrypt_upload.go:561-575 | an object of an earlier attempt that lands beside a manifest with another digest makes the download fail |
| `TransferChecks.RestoredIff` | cmd/bloodraven/encrypt_upload.go:536-575 | a walked path is restored to itself exactly when it is sealed, its characters are printable, its temporary names fit 255 characters and no digest contradicts it |
| `TransferChecks.SafeJoinIff` | cmd/bloodraven/encrypt_upload.go:680-710 | whatever the key, the file it is restored to lies below the target, by the cleaned path, and is refused otherwise |
| `TransferChecks.WantedIff` | cmd/bloodraven/encrypt_upload.go:536-551 | all listed keys are restored but the prefix itself, keys with a slash at the end and the manifest |
| `TransferChecks.SentIff` | cmd/bloodraven/encrypt_upload.go:326-343 | the upload sends every file but those named BLOODRAVEN_DUMP_META.json |
| `TransferChecks.PlacedIff` | cmd/bloodraven/encrypt_upload.go:593-672 | a file cannot be placed exactly when there is a file on the way to it, or inside it or one of its temporary names |
| `TransferChecks.PlacedLeaves` | cmd/bloodraven/encrypt_upload.go:593-672 | a placed file leaves all others as they were but those of its temporary names, .part, .part.part and .decpart |
| `Restoring.AllArriveIff` | cmd/bloodraven/encrypt_upload.go:552-559 | files of different paths placed in any order are all there at the end exactly when none is in the way of a later one, or lies where a later one puts a temporary file |
| `Restoring.UnhitAllOrNone` | cmd/bloodraven/encrypt_upload.go:593-672 | where no file is destroyed by a later one, the loop gives all of them or fails |
| `ArtifactTransfer.ReplayGivesAllIff` | cmd/bloodraven/encrypt_upload.go:524-577 | any listing whose wanted keys all restore, to different paths, gives back all of them exactly when the order is tidy in that sense |
| `ArtifactTransfer.SortedFiles` | cmd/bloodraven/encrypt_upload.go:512-577 | in lexical order no file an upload wrote lies where a later one puts a temporary file |
| `ArtifactTransfer.TemporaryTakesFile` | cmd/bloodraven/encrypt_upload.go:593-610 | with x.part listed before x, x.part is lost |
| `ArtifactTransfer.DecryptDownload` | cmd/bloodraven/encrypt_upload.go:507-577 | the keys under the prefix, each once and in lexical order, are run through the loop |
| `ArtifactTransfer.DownloadOfLeftover` | cmd/bloodraven/encrypt_upload.go:507-577 | under a kept prefix the download succeeds exactly when every name is printable and short enough for its temporary names and none is a directory of another, and gives exactly the files there but the manifest |
| `ArtifactTransfer.UnprintableRefused` | cmd/bloodraven/encrypt_upload.go:680-688 | a file named by a newline is uploaded and makes the download fail |
| `ArtifactTransfer.LongNameRefused` | internal/sidecar/binlog_storage.go:330-350 | a file with a name of 250 characters is uploaded and makes the download fail |
| `ArtifactTransfer.ClashRefused` | cmd/bloodraven/encrypt_upload.go:552-555 | any two uploaded files, one where the other needs a directory, make the download fail |
| `ArtifactTransfer.FileAgainstDirectory` | cmd/bloodraven/encrypt_upload.go:552-555 | a left over and a/b sent, or a/b left over and a sent, make the download fail though each alone is a dump |
| `ArtifactTransfer.Transfer` | cmd/bloodraven/encrypt_upload.go:158-181 | over any leftovers of earlier attempts: upload and download give back the leftovers with the dump over them, reserved names apart, exactly if all names are placeable and none is a directory of another; and nothing at all under a prefix that joining changes |
| `ArtifactTransfer.RetriedTransfer` | cmd/bloodraven/encrypt_upload.go:290-368 | any number of attempts that crash anywhere and then one that goes through: what comes back is made of the attempts' files and the dump, exactly when their names are placeable and none is a directory of another, and is the dump exactly when it has every leftover's name |
| `ArtifactTransfer.RestoresDumpIff` | cmd/bloodraven/encrypt_upload.go:561-575 | leftovers and dump together are the dump exactly when the dump has all their names |
| `ArtifactTransfer.LeftoverComesBack` | cmd/bloodraven/encrypt_upload.go:561-575 | a file x left by a crashed attempt is restored beside the dump's only file y |
| `Completion.EscapeValue` | internal/backupmeta/completion.go:16-32 | the loop computes the escaped text |
| `Completion.UnescapeEscaped` | internal/backupmeta/completion.go:14-32 | percent-decoding undoes the escaping of every byte string |
| `Completion.EscapedIsToken` | internal/backupmeta/completion.go:14-32 | an escaped value holds no white space and no '=' |
| `CompletionReads.EscapedByte` | internal/backupmeta/completion.go:16-32 | letters, digits and the eight safe signs stay, every other byte becomes two upper-case digits |
| `CompletionReads.EscapeRead` | internal/backupmeta/completion.go:55-62 | an escape is read in either case and what follows it is read on |
| `CompletionReads.BadEscape` | internal/backupmeta/completion.go:55-62 | a percent sign without two hexadecimal digits fails the whole value |
| `Completion.ParseIntFormatted` | internal/backupmeta/completion.go:100-106 | every int64 survives printing and parsing |
| `CompletionReads.ParseIntRange` | internal/backupmeta/completion.go:100-106 | a number outside int64 is refused and a plus sign allowed |
| `CompletionReads.ParseIntDigits` | internal/backupmeta/completion.go:100-106 | a number is digits after an optional sign and nothing else |
| `CompletionLine.ParseTokens` | internal/backupmeta/completion.go:37-65 | the loops compute the tokens of a line split at ASCII and Unicode white space, duplicates and bad versions or escapes refused |
| `CompletionLine.FieldsOfJoin` | internal/backupmeta/completion.go:38-41 | the fields of words joined by blanks are those words |
| `CompletionReads.SpaceSkipped` | internal/backupmeta/completion.go:38-41 | white space of any amount before and between words separates them |
| `CompletionReads.LineRefused` | internal/backupmeta/completion.go:38-51 | a line of another prefix, and one that gives a key twice, is refused |
| `CompletionReads.LegacyTokens` | internal/backupmeta/completion.go:42-54 | without a version the tokens are exactly what the fields say, letter by letter |
| `CompletionReads.VersionedTokens` | internal/backupmeta/completion.go:52-64 | with a version the line is read exactly when it is 2 and every value decodes, and the tokens are the decoded values |
| `CompletionReads.LegacyRecord` | internal/backupmeta/completion.go:90-116 | the record of a line without a version: identities are literal, an underscore of the size is a blank, encrypted is true or 1 |
| `CompletionLine.RoundTrip` | internal/backupmeta/completion.go:82-117 | parsing the printed line of any record gives the record, with the encryption fields cleared when it is not encrypted |

## Left out

- The store without atomic create (`cmd/bloodraven/backup_stamp.go:573-584`): ownership is not promised there; rivals are caught by later checks only.
- Cleanup of succeeded backups deletes without reading the stamp (`cmd/bloodraven/artifact_cleanup.go:174-204`); the ownership theorems cover abandoned mode.
- The PVC variants of stamps, cleanup and storage configuration.
- In the stamp protocol a store call takes effect at one instant between its request and its answer; a write that lands only after its caller gave up, or a listing that is not one snapshot, is not modelled.
- Stamp kind, version, archive-ID format and JSON: stamps are values, equal when their canonical bytes are.
- AES, HKDF, SHA-256 and randomness are ideal; read and write errors of the codec's source and sink are not modelled.
- CallerLimiter.EarlyReadmissionNeedsCrowd: its condition is on the evictions in between; an unfair eviction makes the property fail for some order of the map, not for every one. Host normalisation before the map is not modelled.
- CutoffCache.KeyInjective: assumes slash-free namespace and group, as Kubernetes names are.
- Retention: the GTID parser and the RFC 3339 printing of the cutoff; a reader check is an answer carried by the backup.
- Staging: sums of block-rounded sizes are unbounded integers, sizes of real files are at most 2^63 - 4096; the node's free space is an arbitrary answer; the planner, the index and the memory budget are not part of the model.
- StagingRun.PlanAndStage: the bound through staging holds when no download exceeds its planned size.
- PromoteWait: texts, the listing of refusal Events and their choice by time; the reported message of a failure is reduced to its kind.
- ArtifactTransfer: an object is the plaintext it seals, as `Brv1Archive` proves of files under fresh salts, and a digest is its content; the plaintext fallback for objects without the magic and the retry of a failed listing without the trailing slash are left out. Temporary names are those of the S3 store. Limits of the file system other than the length of a name (of a whole path, of space, of permissions) are not modelled, nor is what JSON does to a name that is not UTF-8. Objects at the location that no attempt of the backup wrote are left out too: the start step refuses a location that holds any.
- The planned-failover engine, the topology manager, the keyring, `internal/pitrplan`, HTTP serving, Kubernetes clients, signals, MySQL connections, the chaos playground, generated code and the small one-function helpers would only add easy members or have no transition logic in the modelled files.
