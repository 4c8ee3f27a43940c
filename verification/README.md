# MailGate in Dafny

MailGate fetches mail from IMAP inboxes, quarantines every message, and lets an API read only what
its owner has approved. This project models its protocols and formats and proves what they promise.
Every file is one module:

- `MailboxModel` is the ingestion protocol as a state machine: database rows, IMAP servers, worker
  runs. An event is one transaction, one server answer or one owner action, and any sequence of
  events is a run, so interleavings, crashes, edits, purges and UIDVALIDITY changes are all included.
  `MailboxLaws` says what each transaction writes; `CursorSoundness`, `CleanRuns`, `InboxDrains`,
  `Fencing`, `MessageHistory` and `Reimport` prove properties of all runs; `SyncMailbox` is the worker
  itself, a class whose methods reassign the tables and extend a trace of that machine.
- `SecretFiles` (a disk that loses what was not synced), `AdminPassword` (the password rotation saga),
  `CredentialKeyring` and `KeyringLifecycle` (stored credentials and the keys that open them), and
  `KeyringTool`, which runs the keyring rotation on that disk as steps of that lifecycle.
- `ApiWindow`, `ResolverLimiter` and `Retention`: two sliding-window limiters and the batched purge.
- `PoCatalog` (with `FuzzyFlags` and `RawCatalogs`), `MoCatalog` (with `Utf8` and `Bytes`) and `TranslationFiles`, which joins them;
  `BackupFormat` and `BackupStreams`: the formats.
- `Dkim`, `MailText`, `AuthenticationSchema`: bounded DKIM lookups, inert mail text, a data migration.
- `Strings` and `Wrappers` hold the string operations and result types the others share.

Fernet, AES-GCM, JSON, the string-literal parser, the placeholder pattern, Unicode's tables, URL
normalisation and the HTML tokenizer are parameters with the inverse or totality facts a proof
needs. Whatever a socket, a clock, a subprocess or another transaction may do is a nondeterministic
choice. Database steps assume statement-level READ COMMITTED with row locks, on PostgreSQL.

## What does not hold as promised

Each of these has a lemma with the failing input and, beside it, the condition under which the
promise is kept.

- The batch cut (`app/gateway/ingestion.py:186`) relies on SEARCH answers in ascending order, which
  section 7.2.5 of RFC 3501 does not promise: `CleanRuns.UnorderedAnswerSkips`,
  `CleanRuns.SearchOrderCondition`.
- "It preserves mailbox UID cursors so locally expired messages are not imported again"
  (`docs/operations.md:106`) fails when two runs over one mailbox overlap, because the later commit
  may carry the earlier cursor, and when a message is purged before a run has committed a cursor
  past it: `Reimport.OverlapImportsAgain`, `Reimport.EarlyPurgeImportsAgain`. It holds of all runs
  exactly under both rules: `Reimport.ReimportCondition`.
- The sixty-reads-a-minute limit needs audit rows to outlive a minute plus the longest lock wait, so
  an audit retention of 0 days breaks it: `ApiWindow.WindowBoundIffRetained`, `ApiWindow.AuditDays`.
- The resolver's limiter reads its clock before its lock, so a window of length L is bounded only if
  L plus the disorder of the clock readings is at most a minute: `ResolverLimiter.WindowBoundIff`.
- A backup taken with a key file that is empty or blank never restores: `BackupFormat.EmptyKeyFile`,
  `BackupFormat.KeyFilesRoundTrip`.
- "Deletes it after `pg_restore`" (`docs/operations.md:88-89`) fails of the decrypted payload, which has the
  key files in it, where there is no Docker command: that is looked up after the decryption and
  before the block that cleans up (`scripts/restore.py:138-156`). `BackupFormat.MissingDockerLeavesPayload`,
  `BackupFormat.NothingLeftIff`, `BackupStreams.RestoreBackup`. The same sentence says that the file
  is written only after authentication; the code writes it first and checks the tag at the end, and
  so do `BackupStreams.Workspace.DecryptBody` and `DecryptToTemporary`.
- A mailbox shows the error of its last run (`app/gateway/ingestion.py:237-248`) only if the exception came
  from inside the try block and is of a caught kind. A credential that cannot be decrypted, as after
  a key rotation that the worker has not loaded, leaves no trace: `SyncMailbox.UnreadableCredential`,
  `SyncMailbox.Gateway.SyncMailbox`.
- "Restored and verified" restores what the file said after stripping; a file padded with blanks
  leaves the role with another password than it had: `AdminPassword.PaddedFile`, `AdminPassword.Stack.Rotate`.
- A translation with a lone surrogate, which a literal can spell, is read and cannot be compiled:
  `TranslationFiles.SurrogateFails`, `TranslationFiles.CompileFile`.
- Duplicate DKIM tags are found after lower-casing, while section 3.2 of RFC 6376 compares tag names
  with case: `Dkim.FoldedNamesClash`, `Dkim.DuplicateCondition`. The eight-second DNS budget can be
  overrun by up to a tenth of a second: `Dkim.OverrunExample`, `Dkim.Budget.OverrunCondition`.
- Text is cut before invisible characters are escaped, so the bound asserted in
  `tests/test_fuzz.py:34` fails for a payload within that test's 16384 bytes:
  `MailText.FuzzBoundFails`. What is within the limit, text by text and by length alone:
  `MailText.LimitCondition`, `MailText.LengthCondition`.
- `--activate-existing-id` is to reactivate a retained key (`scripts/rotate_credential_keyring.py:157-160`);
  with an ID that the keyring does not have it is not refused but generates a new key:
  `KeyringLifecycle.ActivationCondition`.
- A keyring whose write has not returned yet can be undone by a power loss, and with it goes a
  credential that an application has sealed meanwhile: `KeyringLifecycle.PowerLossCondition`.
- An empty payload is sealed and cannot be decrypted: `BackupFormat.UnsealOfSeal`.
- The reverse of the authentication migration drops the server ID and fills in absent methods:
  `AuthenticationSchema.RoundTripCondition`, `AuthenticationSchema.ServerIdIsLost`.

## Model

| member | source | states |
|---|---|---|
| CursorSoundness.NoMessageSkipped | app/gateway/ingestion.py:175-235 | In every state any interleaving of runs, owner actions, purges, deliveries, expunges and UIDVALIDITY changes can reach with ascending SEARCH answers, every UID at or below a persisted cursor that the server still has was stored at some point. |
| CursorSoundness.InvHolds | app/gateway/ingestion.py:161-250 | The inductive invariant: rows, in-memory cursors and the lists still to store are sound together in every reachable state. |
| CursorSoundness.SearchEvent | app/gateway/ingestion.py:182-186 | A prefix of an ascending answer leaves nothing present behind the last UID of the batch. |
| CursorSoundness.StoreEvent | app/gateway/ingestion.py:112-158 | Storing a message, finding it stored, or being refused keeps every cursor sound. |
| MailboxLaws.FailLaw | app/gateway/ingestion.py:237-248 | The error handler leaves its code and its time on the row it captured, if that is still its version and it is enabled, and changes nothing else anywhere; a changed configuration is never written. |
| MailboxLaws.FinishLaw | app/gateway/ingestion.py:221-235 | The final update leaves cursor and time and clears the error, under the same condition, and changes nothing else. |
| MailboxLaws.EditLaw | app/gateway/views.py:83-97 | The owner's form takes effect on its mailbox and no other: name and editable columns are the form's, the account's identity and the cursor stay, the version moves exactly when a watched column changes, and the last result is cleared exactly by a new password or by enabling. |
| MailboxLaws.DeleteLaw | app/gateway/views.py:121-141 | A deletion takes the mailbox with exactly its own messages and their attachments and spares every other mailbox's. |
| MailboxLaws.DecideLaw | app/gateway/views.py:221-231 | A decision is the state of that message and changes no other. |
| MailboxLaws.LastResultWins | app/gateway/ingestion.py:221-248 | In every run the error code and time on a mailbox are those of the last event that wrote them: a failure that could be recorded, a final update, a resetting edit, or the creation. |
| MailboxLaws.LastCursorWins | app/gateway/ingestion.py:223-233 | In every run a persisted cursor is that of the last final update that took effect, or of the creation; no failure, edit or rotation touches it. |
| MailboxLaws.MessageComesFrom | app/gateway/migrations/0002_auditevent_gateway_aud_actor_ffeb22_idx_and_more.py:11-23 | In every run each message has the key and content of the event that inserted it, and high risk if and only if the worker asked for high. |
| CleanRuns.CleanRunEffect | app/gateway/ingestion.py:175-236 | An undisturbed run stores exactly the listed keys, moves the cursor to their maximum, and returns the number of rows it added. |
| CleanRuns.SearchOrderCondition | app/gateway/ingestion.py:182-186 | After an undisturbed run over an answer in any order the cursor is sound if and only if everything the cut left lies above the batch or was stored before. |
| CleanRuns.UnorderedAnswerSkips | app/gateway/ingestion.py:182-220 | The answer 9, 3 with a batch of one leaves UID 3 behind the cursor, never stored. |
| CleanRuns.RunsDrainTheInbox | app/gateway/ingestion.py:182-236 | k fault-free runs of batch size b leave exactly max(0, m - k*b) of m new messages; what is gone from the pending set is stored, and the returned counts sum to the rows added. |
| InboxDrains.EveryInboxDrains | app/gateway/ingestion.py:161-236 | From every reachable state with an enabled mailbox, ceil(m/b) fault-free runs exist, and after them nothing is pending, everything that was is stored, and the returned counts sum to the rows added. |
| InboxDrains.DrainedIff | app/gateway/ingestion.py:182-236 | Any series of fault-free runs leaves nothing pending if and only if it has at least ceil(m/b) runs. |
| InboxDrains.EnabledCanSync | app/gateway/ingestion.py:161-165 | In every reachable state every enabled mailbox meets what a fault-free run needs. |
| CleanRuns.BatchDrainsPending | app/gateway/ingestion.py:182-220 | The batch is the smallest pending UIDs, and the new cursor removes exactly those from the pending set. |
| Fencing.RowLaw | app/gateway/migrations/0005_provider_presets_and_authentication_schema.py:61-86 | Whatever a statement asks for, a row's version moves by exactly one when a watched column changes and not otherwise; only edits and key rotation change one; no event but a run's final update moves UIDVALIDITY or the cursor. |
| Fencing.FencedForever | app/gateway/ingestion.py:112-123 | A run whose captured version has been passed, or whose mailbox is gone, stays so along every continuation: no ABA. |
| Fencing.ChangeFencesRuns | app/gateway/ingestion.py:223-248 | After an event has changed a watched column of a mailbox or deleted it, no step of any run already under way on it changes any table, whatever happens in between. |
| MessageHistory.OnlyApprovedIsShown | app/gateway/migrations/0004_api_boundary_and_mailbox_version.py:11-28 | In every reachable state a message in the API view was approved by the latest owner decision on it, does not carry low risk whatever the worker asked for, and has the content of its one ingestion. |
| MessageHistory.LatestApproval | app/gateway/views.py:221-231 | A message whose history leaves it approved has an approval with no later decision on it. |
| MessageHistory.InsertKeepsInv | app/gateway/migrations/0002_auditevent_gateway_aud_actor_ffeb22_idx_and_more.py:11-23 | A worker's insert, with the trigger's forced state and risk, keeps the invariant of all messages: unique keys, one log entry and one attachment list each. |
| MessageHistory.DecideKeepsInv | app/gateway/views.py:221-231 | An owner decision keeps it, changes the state of that one message and nothing else of any message or attachment. |
| MessageHistory.ExactlyOnce | app/gateway/ingestion.py:124-157 | With nothing deleted, over failed, repeated and successful runs, each (mailbox, UIDVALIDITY, UID) has at most one ingestion entry, one message and one set of attachments, and an ingested key still has its message. |
| MessageHistory.CreatedIsInserted | app/gateway/ingestion.py:187-220 | Along every trace a run's counter is the number of its own Store events that added a row, whatever others store in between. |
| Reimport.NeverImportedAgain | docs/operations.md:105-106 | With purges and mailbox deletions, as long as runs over one mailbox do not overlap and a purge takes only messages the committed cursor has passed, no key is ever imported twice. |
| Reimport.ReimportCondition | docs/operations.md:105-106 | No key is imported twice in any run that keeps a set of rules if and only if the set holds both: runs over one mailbox do not overlap, and a purge takes only messages the committed cursor has passed. |
| Reimport.OverlapImportsAgain | app/gateway/ingestion.py:223-233 | Two overlapping runs: the one that began first commits last, moves the cursor from 1 back to 0, and the purged message is imported a second time. |
| Reimport.EarlyPurgeImportsAgain | app/gateway/ingestion.py:188-221 | Runs in sequence: a message whose run crashed before its final update is purged and imported a second time. |
| Reimport.FinishEvent | app/gateway/ingestion.py:223-235 | Without overlap a final update never takes the committed cursor back, so everything covered stays covered. |
| SyncMailbox.Gateway.SyncMailbox | app/gateway/ingestion.py:161-256 | With arbitrary steps of others between any two of its transactions, a run extends a valid trace; it returns a count only if its last event is a final update under the version it captured and with that cursor, and the count is the number of Store events of this very run in the trace that added a row. It records its error, exactly once and last, if and only if it ends with an exception of a caught kind from inside the try block that is no change of the configuration, and then the row shows code and time if it is still as captured, and no other row changes; if only caught kinds are raised it never ends otherwise; a credential that cannot be decrypted ends it without any event, and a user name or password that is not ASCII never lets it succeed. Undisturbed it is the clean run over the answer it got. |
| SyncMailbox.UnreadableCredential | app/gateway/crypto.py:90-98 | A credential sealed under a primary key that the worker's keyring does not hold fails in the decryption before the try block, so the run ends unreported. |
| SyncMailbox.Gateway.Handle | app/gateway/ingestion.py:237-250 | A caught exception other than a changed configuration is recorded once and last, with its code and time on the captured row if that is still as captured, unless the recording itself fails; any other leaves no record. |
| SyncMailbox.ReadableCredential | app/gateway/crypto.py:139-143 | A credential whose key is held is read as its password; without a keyring none is. |
| SyncMailbox.Gateway.StoreMessage | app/gateway/ingestion.py:112-158 | One storing transaction is exactly the Store event and reports whether the row was created, was there, or the configuration had changed. |
| SyncMailbox.Gateway.StoreRow | app/gateway/ingestion.py:112-158 | The table part of that transaction is StoreTx: nothing, an existing row, or one more quarantined row with its attachments and history entry. |
| SyncMailbox.Gateway.SaveCursor | app/gateway/ingestion.py:221-235 | The conditional update succeeds if and only if the captured version is current and enabled, and then writes validity, UID, time and an empty error to that row alone; it is exactly the Finish event. |
| SyncMailbox.Gateway.RecordError | app/gateway/ingestion.py:237-250 | The error handler writes code and time to the captured row if its version is current and enabled, and changes nothing else; it is exactly the Fail event. |
| SyncMailbox.Gateway.StoreUids | app/gateway/ingestion.py:187-220 | The loop leaves the run with nothing to store, the maximum UID as cursor and the number of rows it created; undisturbed it has stored what parsing made of each UID, in order. |
| SyncMailbox.Gateway.ValidIsSafe | app/gateway/ingestion.py:161-256 | Every state the class can reach shows only approved messages, and is cursor-sound if the servers answered in ascending order. |
| SecretFiles.FileSystem.AtomicWriteSecret | scripts/rotation_common.py:117-164 | Wherever the write stops, the target reads, and after a crash can read, only what it could before or the complete new value, the new one only if the target reads it already; on return only the new value can survive a crash; unless the unlink fails no temporary file remains; other names are untouched. On a healthy disk it returns. |
| SecretFiles.FileSystem.SurvivorsRemain | scripts/rotation_common.py:149-153 | What is called a survivor is exactly what a power loss can leave, for some version of the directory since its last sync and some fate of the files that were not synced. |
| SecretFiles.FileSystem.Publish | scripts/rotation_common.py:151-153 | Rename and directory sync may fail after taking effect; a return means the new file is the only version a crash can leave. |
| SecretFiles.FileSystem.WriteTemporary | scripts/rotation_common.py:134-150 | A return means the temporary file holds the whole value and is synced; no other name shows a change. |
| AdminPassword.Stack.Rotate | scripts/rotate_postgres_admin_password.py:133-265 | For every schedule of failures with or without effect and every point at which the tool is stopped the report is true: normal return means both new, "nothing changed" neither moved, "restored and verified" both on the password that was read (the role's own if and only if stripping and `cat` agree on the file), "remain on the new value" both new. A value so reported is all a crash can leave in the file, and no crash, stop or failure leaves there anything the rotation did not find or write. A held lock refuses, and every exit that is not a kill or a failed unlink releases the lock. Undisturbed, the report is determined by file, role and new value: refused, nothing changed, or completed; and where nothing fails after the first failure, that one is rolled back. |
| AdminPassword.Stack.RollBack | scripts/rotate_postgres_admin_password.py:219-265 | The rollback ends in one of its four reports or is stopped; each report is true of role and file, and neither ever holds, nor can a crash leave, anything but a value on record. Undisturbed it restores; with disk and probe working it is unaligned only if the role is not on the new value. |
| AdminPassword.Stack.Forward | scripts/rotate_postgres_admin_password.py:191-210 | Completion means role and file hold the new value and only that can survive a crash. Undisturbed it completes. |
| AdminPassword.PaddedFile | scripts/rotation_common.py:99 | A file with a leading blank is read as one password and probed as another. |
| AdminPassword.CatOfLine | scripts/rotate_postgres_admin_password.py:108-114 | The probe reads a file written by the rotation as exactly the password. |
| CredentialKeyring.EnvelopeRoundTrip | app/gateway/crypto.py:84-122 | Parsing inverts printing for every valid key ID and non-empty token, and every envelope that parses was printed that way. |
| CredentialKeyring.HeldIsReadable | app/gateway/crypto.py:90-108 | A value whose key the keyring holds, by ID or among the keys tried in any order, decrypts to its plaintext. |
| CredentialKeyring.EncryptIsHeld | app/gateway/crypto.py:84-88 | What a keyring encrypts it holds, and it counts as on the primary key. |
| CredentialKeyring.PrimaryMeaning | app/gateway/crypto.py:124-128 | A value uses the primary key if and only if the ID in its envelope is the primary one, or it has no envelope where there are no IDs. |
| CredentialKeyring.ReencryptKeepsPlaintext | app/gateway/crypto.py:146-154 | Re-encryption succeeds exactly for readable values, ends on the primary key with the same plaintext, and rewrites exactly the values that were not on it. |
| CredentialKeyring.RotationMeaning | app/gateway/management/commands/rotate_mailbox_credentials.py:29-43 | The table rotation completes if and only if every row is readable; then every row is on the primary key with its plaintext, and exactly the rewritten rows have a version one higher. |
| CredentialKeyring.RotationIsIdempotent | app/gateway/management/commands/rotate_mailbox_credentials.py:29-43 | Repeating a completed rotation changes nothing. |
| CredentialKeyring.CredentialTable.RotateCredentials | app/gateway/management/commands/rotate_mailbox_credentials.py:16-56 | The loop leaves the rotated table and the two counters, or after the first unreadable row the table as it was. |
| KeyringLifecycle.NoKeyIsLost | scripts/rotate_credential_keyring.py:91-147 | From the return of a write on, along every run of concurrent rotators, deaths, cleared locks, power losses, applications and table rotations, no key ID of the file ever disappears or changes its key, in the file or in any document a power loss may bring back. |
| KeyringLifecycle.NoCredentialIsLost | app/gateway/crypto.py:42-128 | Along every run, power losses included, in which applications start only when no earlier keyring can come back, every stored credential decrypts to its original plaintext under the keyring an application would load at that moment. |
| KeyringLifecycle.PowerLossCondition | scripts/rotation_common.py:151-153 | From a new installation on, no credential is lost in any run if and only if applications start only when the last write has returned and so no earlier keyring can come back. |
| KeyringLifecycle.PlanKeepsKeys | scripts/rotate_credential_keyring.py:92-141 | Every document the rotation writes is valid and keeps every key of the one it read. |
| KeyringLifecycle.PlanMeaning | scripts/rotate_credential_keyring.py:92-140 | A request is refused exactly under the listed conditions; it changes nothing exactly if its key is primary already; otherwise its key becomes primary, no key is lost or changed, and none is added but the requested and the imported one. |
| KeyringLifecycle.ActivationCondition | scripts/rotate_credential_keyring.py:95-141 | A request to activate a key that is not refused generates a new key if and only if the keyring does not have the ID. |
| KeyringLifecycle.AppReadsRight | app/gateway/crypto.py:90-108 | An application with an older keyring may fail to read a value but never reads it as another plaintext. |
| KeyringLifecycle.TableEvent | app/gateway/management/commands/rotate_mailbox_credentials.py:29-56 | A table rotation by an application with any retained keyring keeps every credential readable. |
| KeyringTool.Host.RotateKeyring | scripts/rotate_credential_keyring.py:78-147 | On a disk with failing operations and with other processes in between, every run of the tool is a run of the lifecycle. True means that the requested key is primary, with exactly the old keys and the generated or imported one beside it, and that this is all a power loss can leave; False means it was primary already; a refusal means the request had to be refused, and then the file is as it was. Reading back never finds another document; a held lock keeps it from doing anything; with a free lock on a healthy disk the answer is determined by file and request. |
| KeyringTool.Host.RotateLocked | scripts/rotate_credential_keyring.py:92-147 | The same meaning of every report, and the same determined answer, of the body under the lock. |
| KeyringTool.Host.MakePlan | scripts/rotate_credential_keyring.py:92-140 | Changing the document step by step makes the planned one or refuses, branch by branch; what the plan means is `PlanMeaning`. |
| KeyringTool.Host.WriteDocument | scripts/rotation_common.py:117-164 | The atomic write, wherever it fails or stops, leaves the file as it was or with the new document, as a step of the lifecycle, and on return the earlier documents can no longer come back. |
| KeyringTool.Host.PowerLoss | scripts/rotation_common.py:143-153 | A power loss at any moment leaves one of the documents the lifecycle says it may, with the lock file or without. |
| KeyringTool.Host.DiskIsSafe | scripts/rotation_common.py:117-164 | If applications started only after the last write had returned, whatever a power loss can leave of the file now is a valid document, or no file, with which every stored credential decrypts to its plaintext. |
| ApiWindow.WindowBoundIffRetained | app/gateway/migrations/0004_api_boundary_and_mailbox_version.py:79-127 | In every run each token has at most 60 authorised reads in every closed minute, although timestamps precede the row lock, if and only if the longest lock wait plus a minute fits into the retention of audit rows. |
| ApiWindow.AuditDays | app/gateway/lifecycle.py:58-60 | With lock waits up to a day less a minute the bound holds if and only if `audit_days` is at least 1. |
| ApiWindow.InvHolds | app/gateway/migrations/0004_api_boundary_and_mailbox_version.py:99-127 | The invariant behind it: every read ever authorised is still in the table or older than anything retention keeps, and every window is bounded. |
| ApiWindow.ShortRetentionBreaks | app/gateway/lifecycle.py:58-60 | For every shorter retention there is a run with 61 reads in one minute. |
| ApiWindow.RevokedStaysOut | app/gateway/migrations/0004_api_boundary_and_mailbox_version.py:88-100 | After a committed revocation no authorisation whose lock comes later is granted, whatever happens in between. |
| ApiWindow.GrantedIff | app/gateway/migrations/0004_api_boundary_and_mailbox_version.py:79-127 | A read is admitted if and only if its token is there, not revoked, not expired at the clock it is judged by, of the one scope, and has fewer than sixty reads in the last minute; then exactly one row and the time of use are written. |
| ApiWindow.ExpiredStaysOut | app/gateway/migrations/0004_api_boundary_and_mailbox_version.py:88-95 | Whatever happens in between, no read is admitted for an issued token that has expired or has another scope. |
| ApiWindow.IssuedIsAuthorized | app/gateway/models.py:114-130 | An issued token of the scope that nobody has revoked or deleted is authorised until it expires, whenever fewer than sixty reads count. |
| ApiWindow.AdmittedWasLive | app/gateway/migrations/0004_api_boundary_and_mailbox_version.py:79-127 | In every run every read ever admitted belongs to a call whose token was then there, not revoked, not expired, of the scope and below its limit. |
| ApiWindow.Gate.SqlAuthorize | app/gateway/migrations/0004_api_boundary_and_mailbox_version.py:67-131 | The answer is unauthorised exactly for a malformed hash, an overlong path, or a token that is absent, revoked, expired or of another scope, and otherwise authorised or rate limited as fewer than sixty reads count or not; the function is exactly one authorisation step. |
| ApiWindow.Gate.OrmAuthorize | app/gateway/api_auth.py:13-37 | The second implementation answers in the same way for any hash and path, and makes the same step, with its clock read under the lock and once more for the expiry of the token (`app/gateway/models.py:127-130`) and for the audit row. |
| ResolverLimiter.WindowBoundIff | worker/mailgate_dkim_resolver/__main__.py:44-51 | Every half-open window of a length holds at most 120 admissions in every run whose clock readings are at most `skew` out of order, if and only if length plus skew is at most a minute. |
| ResolverLimiter.DequeIsTheLastMinute | worker/mailgate_dkim_resolver/__main__.py:44-51 | For calls in order the deque is exactly the admissions of the last minute of the whole history, and a call is admitted exactly when fewer than 120 lie there. |
| ResolverLimiter.LateCallExceeds | worker/mailgate_dkim_resolver/__main__.py:122 | Otherwise a run with 121 admissions in one such window exists. |
| ResolverLimiter.RateLimiter.RateAllowed | worker/mailgate_dkim_resolver/__main__.py:44-51 | The shared deque is always the one the history of calls determines. |
| Retention.OthersNeverAddMatches | app/gateway/lifecycle.py:28-61 | An event that stamps nothing before the cutoff adds no row that retention matches, in any category. |
| Retention.StaleCondition | app/gateway/lifecycle.py:28-61 | Ingestion, a decision, token issue or revocation, an audit write or a mailbox deletion never adds a match to any tables if and only if what it stamps, a clock reading or an expiry, is not before the cutoff. |
| Retention.DeletedOnce | app/gateway/lifecycle.py:72-88 | Over every interleaving in which each batch matched when it was deleted, no row is deleted twice or unless it matched from the start, and the count is the number of rows deleted. |
| Retention.AloneDeletes | app/gateway/lifecycle.py:72-88 | Undisturbed, a purge that ends with no match has deleted exactly the matching rows. |
| Retention.PolicyMeaning | app/gateway/lifecycle.py:28-61 | What an undisturbed purge leaves is exactly the messages, tokens and audit rows younger than the days their own kind has in the policy, as they were; the dry run counts the others. |
| Retention.Database.SelectIds | app/gateway/lifecycle.py:76 | The batch is the smallest matching ids, and empty only when nothing matches. |
| Retention.Database.DeleteInBatches | app/gateway/lifecycle.py:72-88 | The loop terminates for every batch size under any interference; it deletes only rows that matched when locked, and on return nothing matches. |
| Retention.Database.PurgeRetention | app/gateway/lifecycle.py:91-113 | A bad batch size is refused without effect; otherwise every category in turn is purged to the end, each batch holding only rows that matched when it was deleted, and the counts are the rows deleted; undisturbed, the counts equal the dry run for every batch size, and exactly the rows are left that have not outlived the days their kind has in the policy. |
| MoCatalog.CatalogRoundTrip | app/compile_translations.py:76-108 | Looking up any text in the compiled bytes, by binary search as section 10.3 of the GNU gettext manual describes, gives exactly what the map has for it, or nothing. |
| MoCatalog.ImageAnswers | app/compile_translations.py:76-108 | The reader finds every original string of a compiled file with its translation, and nothing for any other byte string. |
| MoCatalog.StringsReadBack | app/compile_translations.py:99-107 | The i-th descriptor of each table names exactly the i-th string, terminated. |
| MoCatalog.EntriesDoNotOverlap | app/compile_translations.py:80-107 | Every string ends before the next begins, originals before translations, translations before the end of the file. |
| MoCatalog.HeaderWords | app/compile_translations.py:87-98 | The file begins with seven little-endian words: the magic number, revision 0, the number of strings, 28, 28 plus eight times that number, and two zeros. |
| MoCatalog.SearchFinds | app/compile_translations.py:77-79 | Binary search finds every key of a file whose keys are in byte order. |
| MoCatalog.SmallCatalogsFit | app/compile_translations.py:87-106 | Every catalogue of at most 4 GiB has offsets that fit. |
| MoCatalog.CompileCatalog | app/compile_translations.py:76-108 | The compiler fails exactly when a string has no UTF-8 form or a length or offset has no 32-bit form, and otherwise writes that file for the sorted keys. |
| MoCatalog.OneOrder | app/compile_translations.py:77 | There is one order of the keys, so the file and whether it fits depend on nothing but the messages. |
| MoCatalog.WriteFile | app/compile_translations.py:80-108 | The offset arithmetic writes the laid-out image, or fails, exactly as the lengths and offsets fit. |
| MoCatalog.PackTable | app/compile_translations.py:99-106 | The running offset is the place of the next string, so the loop packs the descriptor table. |
| Utf8.EncodeOrder | app/compile_translations.py:77-78 | UTF-8 (section 3 of RFC 3629) is injective and turns code point order into byte order, so sorting texts sorts the encoded keys. |
| PoCatalog.MachineMeansEntries | app/compile_translations.py:25-73 | The line machine is: group lines into entries, drop the fuzzy ones, add the rest in order; it raises exactly when that has no meaning. |
| PoCatalog.LastNonEmptyWins | app/compile_translations.py:33-45 | Adding entries fails exactly on a placeholder mismatch; otherwise the last non-empty value of each key that is not fuzzy wins. |
| PoCatalog.KeptTranslationsMatch | app/compile_translations.py:35-41 | Every translation a catalogue keeps is non-empty and has its key's placeholders. |
| FuzzyFlags.FlagMarksTheNextEntry | app/compile_translations.py:49-56 | A fuzzy flag put anywhere into a file, even into the body of an entry, changes nothing but that the entry of the next msgid line is fuzzy, whatever other lines are between; a file that is refused with it is refused without it, and the other way round. |
| PoCatalog.SplittingChangesNothing | app/compile_translations.py:65-69 | Splitting any string over one more continuation line, anywhere in a file, never changes the result. |
| PoCatalog.PrintThenRead | app/compile_translations.py:25-73 | Printing a catalogue and reading it back is the identity. |
| PoCatalog.ReadCatalog | app/compile_translations.py:47-73 | The loop over the lines with its local variables computes that machine on the classified lines; what lines mean is `RawCatalogs`. |
| RawCatalogs.WriteThenRead | app/compile_translations.py:47-73 | Writing entries as raw lines, with any comments and flags and every string cut into any number of continuation lines, and reading them back gives the entries without the ones marked fuzzy. |
| RawCatalogs.PaddingChangesNothing | app/compile_translations.py:48 | Indentation and trailing blanks change no line. |
| RawCatalogs.RefusedAnywhere | app/compile_translations.py:51-52 | A raw context or plural line, however indented and wherever it stands, makes the file no catalogue. |
| RawCatalogs.StrayValue | app/compile_translations.py:60-62 | So does a msgstr line without a msgid line before it. |
| TranslationFiles.CompiledTranslates | app/compile_translations.py:111-120 | Compiling what was read: looking any text up in the bytes gives the last non-empty value of its entries in the PO lines that are not fuzzy, or nothing. |
| TranslationFiles.CompileFile | app/compile_translations.py:117-118 | One file end to end: it fails exactly when the lines are no catalogue, or a text that is kept has no UTF-8 form, or a length or offset has no 32-bit form, with that error, and otherwise the bytes translate as the lines say. |
| TranslationFiles.WrittenTranslates | app/compile_translations.py:111-120 | From raw lines to lookups: with any comments, flags and continuation lines, a text has in the compiled bytes the last non-empty value among its entries that are not marked fuzzy. |
| TranslationFiles.SurrogateFails | app/compile_translations.py:19-22 | A translation that is one lone surrogate is read and then cannot be encoded. |
| PoCatalog.CatalogReader.ReadLine | app/compile_translations.py:48-71 | One iteration is one step of the machine, for every kind of line. |
| BackupFormat.ParseOfLayout | scripts/backup_archive.py:80-110 | The offsets cut an archive exactly into the fields it was laid out from, or find that its metadata cannot be loaded or that it has no payload, in this order. |
| BackupFormat.LayoutOfParse | scripts/backup_archive.py:80-110 | An archive that can be cut is the layout of its fields: no byte is unaccounted for. |
| BackupFormat.UnsealOfSeal | scripts/backup_archive.py:58-128 | Decrypting what was sealed returns the same payload and metadata, except that an empty payload, which is sealed, is refused. |
| BackupFormat.ArchiveBytes | scripts/backup_archive.py:58-71 | Byte by byte: `MAILGATE-BACKUP` and a zero, version 1, the nonce, the metadata's length most significant byte first, the metadata, the ciphertext, and the tag over what is before the ciphertext. |
| BackupFormat.PayloadBytes | scripts/backup.py:49-52 | And the payload: `MAILGATE-PGDUMP` and a zero, the bundle's length in the same form, the bundle, the dump. |
| BackupFormat.OnlySealedArchivesDecrypt | scripts/backup_archive.py:116-130 | Where tags verify only for what was sealed, an archive that decrypts is byte for byte the sealed archive of one sealing and yields exactly its payload and metadata. |
| BackupFormat.BundleRoundTrip | scripts/restore.py:25-45 | The bundle is read back, leaving exactly the dump, if and only if no key value is empty. |
| BackupFormat.AnyBundle | scripts/restore.py:25-45 | Any bundle of at most 65536 bytes is read back, with exactly the dump left, if and only if it is not empty and has no names but the two and no empty value. |
| BackupFormat.KeyFilesRoundTrip | scripts/backup.py:38-52 | The backup of any key files is read back, leaving exactly the dump, if and only if none of them holds nothing but blanks. |
| BackupFormat.EmptyKeyFile | scripts/backup.py:38-52 | One key file of any number of blanks, or of nothing, is accepted when the backup is written and refused when it is restored. |
| BackupFormat.MissingDockerLeavesPayload | scripts/restore.py:138-156 | Without Docker the restore of any sealed archive leaves its payload, from which `BundleRoundTrip` reads bundle and dump. |
| BackupFormat.NothingLeftIff | scripts/restore.py:138-168 | No key and no archive make a restore leave anything, if and only if Docker is there. |
| BackupFormat.BackupRoundTrip | scripts/restore.py:125-168 | End to end: same metadata, same bundle, and exactly the dump left for `pg_restore`. |
| BackupStreams.PrefixedReader.Read | scripts/backup.py:26-35 | A read consumes the bundle and then the dump in order, and comes back empty only at the end of both. |
| BackupStreams.EncryptStream | scripts/backup_archive.py:58-71 | However the reads are chunked, the output is the sealed archive of everything the reader had; bad keys and metadata are refused. |
| BackupStreams.Workspace.DecryptToTemporary | scripts/backup_archive.py:74-135 | Only an I/O failure, of which a healthy disk has none, makes it differ from the format's meaning; success adds one temporary file with the payload, failure leaves none. |
| BackupStreams.Workspace.DecryptBody | scripts/backup_archive.py:118-126 | The copy loop decrypts exactly the first `size` bytes of the stream, whatever the chunks. |
| BackupStreams.ReadCredentialBundle | scripts/restore.py:25-45 | It returns the bundle, or the format's error, and leaves the stream at the dump. |
| BackupStreams.StreamToRestore | scripts/restore.py:78-99 | Unless the pipe breaks, the subprocess receives everything from the current offset on; otherwise a prefix of it. |
| BackupStreams.RestoreBackup | scripts/restore.py:125-168 | With Docker no temporary file is left, whatever the archive; without it the decrypted payload is left exactly when decryption succeeded, which on a healthy disk is whenever the archive decrypts; success means the database received the dump behind the bundle in the authenticated payload, all of it unless its process stopped reading early and still exited with zero, and the key files were recovered; failure leaves the recovery directory as it was. Where nothing fails the result is determined by archive, key and directory: the first error, or the whole dump delivered. |
| BackupStreams.CredentialBundle | scripts/backup.py:38-52 | The result is the bundle of exactly the key files that exist, stripped; it is an error if one of them is not ASCII, or cannot be read. |
| BackupStreams.RecoveryDirectory.Recover | scripts/restore.py:48-75 | Every key file is written into an empty directory, or after any failure the directory is as it was; where nothing fails it succeeds exactly if the directory was empty. |
| Dkim.Budget.WithinBudget | app/gateway/authentication.py:118-156 | For any sequence of lookups, at most 5 reach the resolver and no wait ends 8.1 seconds or more after the budget started (plus the delay of the call itself), and none takes more than five seconds, given a resolver that honours its timeout. |
| Dkim.Budget.OverrunCondition | app/gateway/authentication.py:54-60 | Whatever the resolver does within its timeout the wait ends within the eight seconds, if and only if the call starts at least its lifetime before their end; for a call made at once, if and only if at least the shortest lifetime is left. |
| Dkim.OverrunExample | app/gateway/authentication.py:54-60 | A lawful lookup read 7.95 seconds after the start that is done 8.04 seconds after it. |
| Dkim.Budget.TemporaryCondition | app/gateway/authentication.py:125-156 | A check ends with a temporary error if and only if the message has made at most five lookups so far and the last lookup of the check that failed ran out of time or was told so by the resolver. |
| Dkim.Budget.LookupMeaning | app/gateway/authentication.py:125-156 | A lookup has a value, is a temporary failure, or is none, exactly as listed by its number, time, name and answer. |
| Dkim.DnsBudget.Lookup | app/gateway/authentication.py:125-156 | One lookup adds one lawful query to the log, with the resolver's own answer if it was asked, returns its value and remembers its error. |
| Dkim.ReadTags | app/gateway/authentication.py:164-174 | The dictionary holds the last value of each tag, and the flag is set if and only if a name occurs twice. |
| Dkim.MetadataOfPrinted | app/gateway/authentication.py:159-183 | From the header as written: domain and selector are the first 253 and 63 characters of the last d and s tag, and the signature is malformed exactly if two names are the same once stripped and lowered or one of these is empty. |
| Dkim.MissingTag | app/gateway/authentication.py:176-181 | Without a d or an s tag it is malformed. |
| Dkim.JudgeTells | app/gateway/authentication.py:206-221 | A checked signature passes if and only if the library found it valid; one found invalid is temporary exactly if the last failing lookup of its own check was, fails exactly if none of them failed, and is permanent otherwise; the two caught exceptions are fail and permanent. |
| Dkim.DuplicateCondition | app/gateway/authentication.py:169-174 | The code refuses every duplicate that section 3.2 of RFC 6376 refuses, and no other exactly when no two names of the list differ in case alone. |
| Dkim.FoldedNamesClash | app/gateway/authentication.py:164-183 | The header value `d=a;s=b;D=c` has both required tags and no duplicate as section 3.2 of RFC 6376 compares names, and is a permanent error. |
| Dkim.CheckSignatures | app/gateway/authentication.py:204-221 | Every signature ends with a result, malformed ones as they were, the others as `JudgeTells` says of the library's outcome for that signature and the lookups of its own check, which follow one another and are all there are; unless a check ends with an exception that is not caught, before which the same holds. |
| Dkim.Overall | app/gateway/authentication.py:223-232 | The overall result is the maximum under pass, temperror, permerror, fail. |
| Dkim.VerifyDkim | app/gateway/authentication.py:186-233 | None without signatures, permerror and no lookup for more than five; otherwise all of the above, and the message passes if and only if the library found some well-formed signature valid; no report exactly when a check ends with an exception that is not caught; within the budget in every case. |
| MailText.ExtractsShownText | app/gateway/mail.py:69-89 | On a well-nested document, inside any path of ancestors, the skipper emits exactly the text nodes without a forbidden ancestor, in document order, and leaves its counter as it was. |
| MailText.HtmlToText | app/gateway/mail.py:137-140 | So a whole document yields exactly its shown text. |
| MailText.EmitsLayout | app/gateway/mail.py:75-89 | Everything a well-nested document emits: its shown text, with a break before and after exactly the listed blocks, shown or not. |
| MailText.CounterIsLargestBalance | app/gateway/mail.py:75-83 | On any stream, however malformed, the counter is the largest excess of forbidden start over end tags of a stretch ending there. |
| MailText.EmitsWhereZero | app/gateway/mail.py:87-89 | And a text is emitted if and only if no stretch before it has more forbidden start than end tags. |
| MailText.TextExtractor.Feed | app/gateway/mail.py:69-89 | The class computes that machine on any event stream. |
| MailText.NothingInvisibleLeft | app/gateway/mail.py:120-134 | The output holds no format or control character but newline and tab, and none with a directional name. |
| MailText.SecondPass | app/gateway/mail.py:120-134 | A second pass changes nothing and reports nothing. |
| MailText.VisibleControls | app/gateway/mail.py:120-134 | The output is one piece for every character in order: a visible character as it is, a control character as a blank, an invisible one as its name in brackets; the flag is set if and only if there was one of these. |
| MailText.EscapedIsRendered | app/gateway/mail.py:120-134 | The same of the escaped text as a function. |
| MailText.LengthBound | app/gateway/mail.py:120-134 | The output is at most the input's length times ten plus the longest name of an invisible character. |
| MailText.LimitCondition | app/gateway/mail.py:279-282 | For every text and limit, what was kept comes out within the limit if and only if the escapes fit into what the cut left free; for a text that fills its limit, if and only if what was kept has no invisible character. |
| MailText.LengthCondition | app/gateway/mail.py:279-282 | All texts of at most n characters come out within the limit if and only if n escapes of the longest name, or as many as the cut lets through, fit into it. |
| MailText.FuzzBoundFails | tests/test_fuzz.py:25-34 | 8192 characters with a name of 24 letters, two bytes each, come out as 278528 characters, more than the 200000 asserted. |
| MailText.WorstCase | app/gateway/mail.py:127-129 | A text of one invisible character reaches the bound for that character's name. |
| MailText.CollectLinks | app/gateway/mail.py:286-294 | The links are the first hundred different ones in order, and too many are reported exactly when there are a hundred or more. |
| MailText.DistinctMeaning | app/gateway/mail.py:287-290 | The collected links are without repetition and are exactly the non-empty normalisations of the matches. |
| MailText.DistinctOrder | app/gateway/mail.py:287-290 | They stand in the order in which they first occur. |
| AuthenticationSchema.MigrateOnce | app/gateway/migrations/0005_provider_presets_and_authentication_schema.py:8-24 | Migrating a record twice is migrating it once. |
| AuthenticationSchema.MigratedFields | app/gateway/migrations/0005_provider_presets_and_authentication_schema.py:12-23 | A migrated record has version 1, the four methods as claimed or "unknown", the server ID or nothing, and nothing verified; a record of version 1 is left alone. |
| AuthenticationSchema.RestoredFields | app/gateway/migrations/0005_provider_presets_and_authentication_schema.py:36-42 | A restored record has exactly the four methods of its claims, "unknown" where one is absent. |
| AuthenticationSchema.RoundTripCondition | app/gateway/migrations/0005_provider_presets_and_authentication_schema.py:32-43 | The reverse migration undoes the migration of a record if and only if it held the four methods and nothing else. |
| AuthenticationSchema.ServerIdIsLost | app/gateway/migrations/0005_provider_presets_and_authentication_schema.py:42 | A record with a server ID comes back without it. |
| AuthenticationSchema.MessageTable.MigrateAll | app/gateway/migrations/0005_provider_presets_and_authentication_schema.py:8-29 | Whatever the reading order, every row is migrated, and no row of a last partial batch is forgotten. |
| AuthenticationSchema.MessageTable.RestoreAll | app/gateway/migrations/0005_provider_presets_and_authentication_schema.py:32-48 | Every row is restored, or if one cannot be the table is as it was. |

## Left out

- TLS, IMAP sockets, HTTP handlers, Docker, `psql` and `pg_restore` themselves: each is a step with a nondeterministic result.
- Fernet, AES-GCM and SHA-256 internals: ideal functions; GCM is a keystream byte by byte with a tag over everything.
- JSON, MIME, `urlsplit`, IDNA, charset decoding and regular-expression engines, including the prompt-injection patterns and the shape of an allowed DKIM name: parameters.
- `str.strip` and line splitting on Unicode white space: only ASCII blanks are stripped, and a catalogue is given as its lines.
- Forms, templates, settings, health checks, owner export, secret creation and provider presets: easy members.
- `sync_all_mailboxes`: a loop over independent runs, each of which is modelled.
- The confirmation phrase and project name of a restore, and the backup key file: plain refusals before anything happens.
- `classify`, `assess`, `parse_authentication_results` and attachments as data: settled by reading one branch.
- The SQLite path for configuration versions: the trigger exists only on PostgreSQL.
- Audit rows of ingestion and retention are the history entries of the models, not a table of their own.
- File permissions, Windows access lists, links and ownership checks of secret paths: one nondeterministic inspection that may refuse.
- Retiring keys from the keyring and removing the single master key: manual steps outside the tools.
- MailboxModel.Above: a malformed or non-numeric item of a SEARCH answer is skipped by the code and does not appear in the model's answers.
- SecretFiles.FileSystem.AtomicWriteSecret: the temporary name is a parameter; that 96 random bits do not collide is not modelled.
- AdminPassword.Stack.Rotate: a failed unlink of the lock masks the report of the body, as in the code; what is then known is that role and file hold values on record.
- Retention.Database.PurgeRetention: the counts of a disturbed purge need not equal the dry run; an error that rolls the whole transaction back is not modelled.
- Retention.Database.DeleteInBatches: the others' stamps are taken to have reached the cutoff, which with a period of 0 days leaves out a transaction begun before the purge and committed during it.
- KeyringLifecycle.NoCredentialIsLost: a stale lock is cleared only after its holder is gone, as the tool's message demands.
- BackupStreams.RestoreBackup: the unlink of the temporary file in the clean-up is taken to succeed, and the tool is not killed half-way.
- BackupStreams.CredentialBundle: reading a key file in text mode turns its line ends into newlines, which is not modelled.
- SyncMailbox.Gateway.SyncMailbox: an exception of the final logout other than the two kinds that are ignored there is not modelled; it would hide the result, not the record.
- KeyringTool.Host.RotateKeyring: nobody writes the file beside the lock, so that the check after the write never fails in the model; a file that is no keyring document at all is loaded as an invalid one and refused, without the reason; that generated and imported keys are Fernet keys is part of loading.
- BackupStreams.RecoveryDirectory.Recover: the unlinks after a failure are taken to succeed.
- Dkim.VerifyDkim: parsing of the headers themselves is a parameter; the model starts from their values. A resolver that raises something else than its own errors ends the check with an exception, and that last lookup is not in the log.
- MailText.HtmlToText: the tokenizer with its treatment of unfinished input, and the final unescaping of entities, are not modelled; the stream of events is the input.
- MailText.LimitCondition: the later removal of trailing white space only shortens a text and is not modelled.
