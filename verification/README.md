# Keyhole: a verified model

Keyhole is a self-hosted password vault: a Go server over SQLite that only ever holds ciphertext, and a TypeScript
client that holds the keys. This project models its hardest parts in Dafny and proves what they promise, for every input
and every run. `dafny verify dfyconfig.toml` checks all of it.

## What is modelled

**Incremental sync.** `Tables`, `Writes` and `Store` are the server's tables and every transaction that touches them:
one shared revision sequence, items and folders with tombstones, collections, memberships that carry the revision they
were granted at, retention purges. `Store.VaultDatabase` updates the tables statement by statement and rolls back;
`Writes` says what each transaction amounts to. `Sync` is the snapshot query and the client's merge, `VaultStore` the
client's store. `Effects` says what each write achieves apart from the function that computes it, and `Histories` lifts
that to histories of any length: who is a member, what a row holds and who is sent it are stated of the writes there
have been, naming neither the visibility rule nor the query. `SyncRuns` is server and client together over every run of
many writers and one client with one request in flight, the store being cleared at any moment, as locking does. Every
run keeps an exact account: the client holds precisely the visible rows stamped past a *floor* and up to its cursor, so
it is complete if and only if no live row in sight is stamped at or below the floor. The floor is 0, and incremental
state complete, unless a resync was overtaken by a clear: its answer then lands on an empty store, moves the cursor, and
the older rows stay missing until they are written again or everything is loaded afresh. On steady runs, where no write
takes a row the client holds out of the user's sight, each sync is also exact under the same condition, and
`ResyncExactIff` says precisely when one resync is. `SyncLimits` shows three hypotheses to be needed: no overtaken
resync; keeping every held row in sight, for the tombstone of a held row can leave the user's sight before it is seen;
and one request in flight, for a late reply of a second one can leave a stale row. `Revisions` shows the sequence to be
used without gaps or repeats, and optimistic updates to be lost-update free.

**CSV scanner.** `Csv` is the character automaton of the import path. `CsvGrammar` is RFC 4180 (section 2), made lenient
and extended to damage: text behind a closing quote, and a quote never closed. Every text whatever is spelled by exactly
one such document, and the scanner returns that document's records and errors, so it reports no error exactly where the
document is undamaged. `CsvErrors` says what the errors are worth to the importer, which refuses the records they name:
a record is named if and only if it is damaged, once for its quotes, and a record that is not named is returned as it
was written. The reported line of a record is the true one exactly when no quoted field before it holds a carriage
return without a line feed (`CsvLines`): inside quotes the scanner counts only line feeds. `CsvParse` is the reader
around it, which drops one leading byte order mark and blank lines: printed records come back exactly when the first
value is not written unquoted with that mark in front and no record is an empty line.

**Self-update, rollback, restore.** `Machine` is a host on which every file and service operation may fail and every
filesystem state, every call of the service manager and every change of mode, owner or durability is recorded; `Backup`
and `Update` run on it. The outcome an update reports is proved for every combination of failures: what it means for the
disk and for the service, what was asked of the service, in which order and on which bytes, and that nothing short of a
failure prevents the installation. So is what a halt between any two steps leaves behind: the old binary at one of its
two names, and the database a rollback replaces under its own name or a name nothing had, through the restart and after.

**ZIP reader, its writer, CRC-32.** `Crc` proves the table form equal to polynomial division and that a burst of up to
four damaged bytes always changes it. `ZipFormat` is the records of the ZIP application note (sections 4.3.7, 4.3.12 and
4.3.16) field by field. `ZipReader` reads any bytes in bounds, and opens every archive of the format: any extra fields
and comments, anything before, between and behind the parts. `ZipWriter` is the archive builder, `ZipRoundTrip` puts
them together.

**What the server cannot learn.** `Secrecy` takes the terms apart and puts them together in every way the cryptography
allows, from everything that was ever sent and stored in any run. Whoever did not make the keys comes by them if and
only if they try a password or a code; and the stored row alone lets nobody log in or recover who does not try the
current one. This is the promise the repository's README makes: the server never holds a key that opens anything.

**Password generator.** `Sampling` counts the byte strings behind each index, `Shuffle` matches Fisher-Yates choices
with permutations one to one, and `Password` shows the passwords that can come out to be exactly the ones asked for.

**Credential lifecycle.** `Credentials` treats keys as symbolic terms; `CredentialRuns` and `CredentialClient` run
enrolment, password change, new recovery codes and recovery with replies answered, refused or lost. A completed recovery
never loses the user's way in. A code made by *enrolment* or *regeneration* can be lost: the client discards it on any
error, and when the answer was lost after the commit the account is sealed to a code nobody has. `EveryRunHoldsCodeIff`
says that this and mislaying it are the only ways, over every run. `ResetRuns` adds administrative resets
(`internal/store/admin.go`), which leave recovery tokens alone: a recovery begun before a reset and completed after the
user has enrolled anew seals the account to the old key beside a private key under the new one, and then nothing opens
it. That is the only way, over every run with resets. `Tokens`, `TokenRuns` and `TokenStore` are invites, recovery
tokens and sessions under every interleaving of look-ups and transactions; `TokenEffects` says what each request does to
one ticket or session, and so exactly how long each is good for.

**Bulk upload**, **the in-memory keyring**, **the failure limiter** and **base64** are `Upload`, `Keyring`, `Limiter`
with `LimiterRuns`, and `Base64` with `Base64Bits` (RFC 4648, section 4). The limiter's runs are every interleaving of
its calls: the handlers record a failure whatever the limiter answered (`internal/httpapi/auth.go`), so failures arrive
while a key is blocked.

Times, fresh identifiers, random bytes, the outcome of a commit and the failures of the outside world are parameters or
arbitrary choices.

## Model

| member | source | states |
|---|---|---|
| `SyncRuns.EveryRunComplete` | packages/vault/src/store.ts:95-157 | In every run, clears at any moment included, each visible row whose revision or grant is past the floor and at or below the cursor is held exactly as stored if live and absent if a tombstone, both now and once the reply in flight lands; and the client is complete if and only if no live row in sight is stamped at or below the floor |
| `SyncRuns.UnovertakenRunComplete` | internal/store/sync.go:24-112 | A client never cleared while a resync is on its way is complete at every moment |
| `SyncRuns.CompleteAfter` | packages/vault/src/store.ts:80-157 | That account is kept by every event: any user's write, the client's own, a fetch, its landing or loss, a clear with or without a request in flight |
| `SyncRuns.AnswerInSync` | packages/vault/src/store.ts:95-131 | Folding in the answer to a load or resync agrees with the server up to the new cursor, a load from 0 and a resync from the floor there was |
| `SyncRuns.OwnReplyInSync` | packages/vault/src/store.ts:147-152 | Landing the reply to an own save or delete keeps the agreement without moving floor or cursor |
| `SyncRuns.EverySteadyRunExact` | internal/store/retention.go:8-54 | On runs where no write takes a held row out of sight, with syncs no further apart than the retention and purges anywhere, a load leaves the client exactly where a full load would, and a resync does if and only if no live row is stamped at or below the floor, as always without an overtaken resync |
| `SyncRuns.ResyncExactIff` | internal/store/sync.go:34-112 | A resync equals a full load of the same snapshot if and only if every row held is still in sight and no live row is stamped at or below the floor |
| `SyncRuns.LoadIsFullLoad` | packages/vault/src/store.ts:140-143 | A load leaves exactly the live visible rows, whatever was held before |
| `SyncRuns.WriteKeepsSighted` | internal/store/retention.go:21-54 | A write that leaves held rows in sight, or a purge no shorter than the retention, keeps every held row in sight and its tombstone no older than the last sync, with second-truncated stamps |
| `SyncRuns.OwnSaveShows` | packages/vault/src/store.ts:147-149 | After an own save that succeeds the client shows the ciphertext and key it sent |
| `SyncRuns.OwnCreateShows` | packages/vault/src/store.ts:147-149 | So it does after an own create |
| `SyncRuns.OwnDeleteHides` | packages/vault/src/store.ts:150-152 | After an own delete the row is no longer shown |
| `SyncLimits.LostTombstoneStaysHeld` | internal/store/collections.go:340-386 | Family of runs in which no live row leaves sight and a resync still keeps a deleted item |
| `SyncLimits.LateSaveHidesNewerRow` | packages/vault/src/store.ts:80-93 | With two requests in flight, a late reply leaves a stale row; until the row is written or granted again, no client that holds it is in sync and no resync repairs it |
| `SyncLimits.ClearedResyncMissesRow` | packages/vault/src/store.ts:153-156 | With one request in flight, a resync answered after a clear misses every live row up to the cursor asked for; until the row is written or granted again, no client without it is in sync and no resync brings it |
| `Sync.SyncSendsNewer` | internal/store/sync.go:24-56 | The visibility and cursor clauses together select exactly the rows of the user's view stamped, by revision or grant, after the cursor |
| `Sync.WritesStepViews` | internal/store/collections.go:301-330 | After any write, a row of a user's view is unchanged or stamped past the sequence as it was before |
| `Sync.MergeExactIff` | packages/vault/src/store.ts:80-93 | Merging what is newer than the cursor gives exactly the live rows if and only if nothing held has left sight and none of them is stamped at or below the floor |
| `Writes.WriteSteps` | internal/store/items.go:172-377 | Every transaction leaves a row alone or stamps it past the sequence as it was; a tombstone is never rewritten, and a row is buried with the time of its own write |
| `Effects.CreateEffect` | internal/store/items.go:172-226 | Every row of a batch holds what its input said, the creator as owner, the collection named or none, and consecutive revisions; every other row is unchanged; a batch that cannot be stored changes nothing |
| `Effects.PutEffect` | internal/store/items.go:235-315 | A live row at the expected revision takes the ciphertext and key uploaded and the collection named, keeps owner and creation time, and every other row is unchanged; otherwise nothing changes and the refusal is the first that applies |
| `Effects.DropEffect` | internal/store/items.go:321-377 | A deleted row keeps its owner and collection and nothing of what was encrypted |
| `Effects.PutFolderEffect` | internal/store/folders.go:106-167 | A folder takes the name uploaded and keeps its user and creation time, or nothing changes |
| `Effects.FoundEffect` | internal/store/collections.go:62-111 | A new collection is named by the middle of the name given, and its creator is made its manager |
| `Effects.TrimmedIsMiddle` | internal/store/collections.go:62-75 | A trimmed name is what is left after taking off white space only, at the ends only |
| `Effects.AddEffect` | internal/store/collections.go:278-330 | The one membership named has that key and role under a fresh revision, and no other changes |
| `Effects.FulfilEffect` | internal/store/collections.go:470-509 | A pending grant becomes a membership in the role that was asked for, and is pending no longer |
| `Effects.RemoveEffect` | internal/store/collections.go:340-386 | A member goes and no other, unless no other manager would be left |
| `Effects.LastManagerIff` | internal/store/collections.go:340-386 | The guard refuses exactly the removal of a manager besides whom the collection has none |
| `Effects.DropCollectionEffect` | internal/store/collections.go:164-177 | Exactly what belonged to the collection is gone |
| `Effects.ResetEffect` | internal/store/admin.go:148-211 | A reset takes exactly the personal rows, folders, memberships and grants of its user |
| `Effects.PurgeEffect` | internal/store/retention.go:21-54 | Exactly the rows deleted before the cutoff are gone, and the others are as they were |
| `Histories.MembersFromHistory` | internal/store/collections.go:278-386 | After any writes, the members of a collection are exactly those granted a membership that no later write has ended |
| `Histories.MembershipIsLastGrant` | internal/store/collections.go:301-330 | And the membership is the one last granted: its sealed key, its role, its revision |
| `Histories.RowIsLastStored` | internal/store/items.go:172-377 | A row is what its last write made it, in every later snapshot until it is written or removed |
| `Histories.OwnerIsCreator` | internal/store/items.go:172-226 | Every row belongs to the user whose request created it, whoever has written it since |
| `Histories.SentIffMaySee` | internal/store/sync.go:24-32 | A sync from the start sends a user exactly the rows that are the user's own and in no collection, and the rows of collections the user was granted and not since removed from; the access check says the same |
| `Histories.NothingElseSent` | internal/store/sync.go:58-112 | From any cursor no other row is ever sent, and each as it is stored |
| `Histories.StoredIsSent` | internal/store/sync.go:34-56 | A row written at some moment is sent to whoever may see it, from every cursor before that moment |
| `Histories.GrantedIsSent` | internal/store/sync.go:34-56 | So is every row of a collection granted at some moment, however old the row |
| `Histories.CollectionsFromHistory` | internal/store/sync.go:65-112 | The memberships sent are the user's own, in collections there are, with the key last sealed for the user and the role last given |
| `Histories.LoadShowsUpload` | internal/store/items.go:235-315 | Until a row is written or removed again, a load by anyone who may see it shows the ciphertext and key its last writer uploaded |
| `Histories.FolderIsLastNamed` | internal/store/folders.go:60-167 | A folder is what its last write made it |
| `Histories.FolderSentToItsMaker` | internal/store/sync.go:65-112 | A folder is sent to the user who made it and to nobody else |
| `Histories.NameIsSent` | internal/store/folders.go:106-167 | With the name last given to it |
| `Revisions.WriteLedger` | internal/store/revision.go:17-28 | Each value a write moves the sequence over is carried by exactly one row or membership; a failed write moves nothing |
| `Revisions.EveryValueDrawnOnce` | internal/store/revision.go:17-28 | In every run each value up to the current one was drawn by exactly one write for exactly one row |
| `Revisions.RowsOnlyMoveUp` | internal/store/items.go:235-377 | Between any two snapshots a row is unchanged or carries a revision past the earlier snapshot |
| `Revisions.UpdateItemOnlyIfUntouched` | internal/store/items.go:235-315 | An item update from a revision read earlier succeeds only if every snapshot in between held that same row |
| `Revisions.UpdateFolderOnlyIfUntouched` | internal/store/folders.go:106-167 | The same for folders |
| `Store.VaultDatabase.NextRevision` | internal/store/revision.go:17-28 | The sequence advances by one and the new value is returned |
| `Store.VaultDatabase.CreateItemsBulk` | internal/store/items.go:172-226 | All rows with consecutive revisions or none, with the first refusal reported |
| `Store.VaultDatabase.UpdateItem` | internal/store/items.go:235-315 | The guarded update: missing, stale or invalid is refused and leaves every table and the sequence as they were |
| `Store.VaultDatabase.DeleteItem` | internal/store/items.go:321-377 | A live row becomes a tombstone without its key material |
| `Store.VaultDatabase.CreateFolder` | internal/store/folders.go:60-102 | Inserts a stamped row or leaves everything alone |
| `Store.VaultDatabase.UpdateFolder` | internal/store/folders.go:106-167 | As for items |
| `Store.VaultDatabase.DeleteFolder` | internal/store/folders.go:172-219 | As for items |
| `Store.VaultDatabase.CreateCollection` | internal/store/collections.go:62-111 | The collection under its trimmed name and its first manager together, the grant stamped; a name of white space only is refused |
| `Store.VaultDatabase.AddMember` | internal/store/collections.go:278-330 | A new or re-sealed membership carries a fresh grant revision |
| `Store.VaultDatabase.RequestGrant` | internal/store/collections.go:391-408 | Records the intention and draws no revision; a failed audit entry is an error with the grant already stored |
| `Store.VaultDatabase.FulfilGrant` | internal/store/collections.go:470-509 | Turns a pending grant into a membership with the role asked for |
| `Store.VaultDatabase.RemoveMember` | internal/store/collections.go:340-386 | Refuses to remove the last manager; removal leaves no tombstone |
| `Store.VaultDatabase.DeleteCollection` | internal/store/collections.go:164-177 | Items, memberships and grants of the collection vanish with it |
| `Store.VaultDatabase.PurgeTombstones` | internal/store/retention.go:21-54 | Exactly the tombstones older than the cutoff go, and the count is theirs |
| `Store.VaultDatabase.SyncSince` | internal/store/sync.go:58-144 | Cursor, rows in revision order each once, and memberships, all of one snapshot |
| `Store.VaultDatabase.CanAccessItem` | internal/store/sync.go:146-175 | The single-item check answers as the sync query's visibility clause does |
| `VaultStore.Merge` | packages/vault/src/store.ts:80-93 | The loop removes tombstones, replaces live rows and keeps the rest, whatever the order of the batch |
| `VaultStore.VaultStore.Apply` | packages/vault/src/store.ts:95-124 | A landed answer replaces cursor and collections and merges rows, onto nothing for a full load |
| `VaultStore.VaultStore.Fail` | packages/vault/src/store.ts:124-130 | A failed fetch changes nothing that is held |
| `VaultStore.VaultStore.Upsert` | packages/vault/src/store.ts:147-149 | Merges one record and leaves the cursor alone |
| `VaultStore.VaultStore.Remove` | packages/vault/src/store.ts:150-152 | Drops one record and leaves the cursor alone |
| `VaultStore.Resync` | packages/vault/src/store.ts:144-146 | One round trip between the two stores is one step of the abstract protocol |
| `CsvRoundTrip.ScanInvertsText` | packages/vault/src/import/csv.ts:123-278 | Of every document, damaged or not: the scanner returns its records with their lines, and its errors |
| `CsvRoundTrip.ScanAcceptsExactly` | packages/vault/src/import/csv.ts:123-278 | The scanner reports no error if and only if the text is the text of an undamaged document |
| `CsvRoundTrip.DocUnique` | packages/vault/src/import/csv.ts:123-278 | No text is spelled by two documents, damage included |
| `CsvRoundTrip.EveryTextSpelled` | packages/vault/src/import/csv.ts:123-278 | Every text whatever is the text of a document, so what is said of documents is said of every file |
| `CsvErrors.NamedIff` | packages/vault/src/import/csv.ts:174-206 | The line of a record is named by an error if and only if that record is damaged: a closing quote of it is not followed by the end of its field, or a quote of it is never closed |
| `CsvErrors.ErrorsNameRecords` | packages/vault/src/import/csv.ts:232-278 | Every error names the line of a record returned and says what is wrong with it; what a quote never closed has swallowed is the number of line feeds behind it |
| `CsvErrors.ReportedOnce` | packages/vault/src/import/csv.ts:198-204 | A record is reported once for its quotes, however many of them are damaged |
| `CsvErrors.UnnamedIsAsWritten` | packages/vault/src/import/parsers/shared.ts:222-236 | A record that no error names is undamaged, and each of its values is the text of its field |
| `CsvLines.ReportedLineTrueIff` | packages/vault/src/import/csv.ts:123-278 | Of every text and record, the unterminated last one included: the reported line is the line it starts on if and only if no quoted field of an earlier record holds a carriage return without a line feed; otherwise it is too small |
| `CsvLines.LoneCrMisnumbers` | packages/vault/src/import/csv.ts:169-231 | One such file, whose second record starts on line three and is reported earlier |
| `CsvLines.PrintThenScan` | packages/vault/src/import/csv.ts:123-278 | Any records, quoted where required and freely otherwise, with any terminator, scan back to the same fields |
| `CsvParse.PrintThenParseIff` | packages/vault/src/import/csv.ts:295-317 | Printed and parsed, the records come back without error if and only if the first value is not written unquoted with the byte order mark in front and no record of one empty value is an empty line |
| `CsvParse.MarkedParseIff` | packages/vault/src/import/csv.ts:295-317 | Behind a mark of its own, a printed file comes back whatever its first value is, unless a record is an empty line |
| `CsvParse.MarkLost` | packages/vault/src/import/csv.ts:308-317 | A first value written unquoted with the mark in front never comes back |
| `CsvParse.ParseCsvRecords` | packages/vault/src/import/csv.ts:308-317 | The scan of the text without its mark, blank lines left out, with all its errors |
| `CsvParse.KeptAt` | packages/vault/src/import/csv.ts:295-317 | The rows kept are the records that are not blank lines, each as scanned, in their order |
| `Csv.Scan` | packages/vault/src/import/csv.ts:123-278 | The loop over flags and buffers ends in the state of the step function run over the whole text |
| `Update.RunUpdate` | internal/release/install.go:196-245 | For every schedule of failures: what installed, rolled back, stop-failed and broken each mean for the binary, the database handed to the restart, health, and the steps named; the service has been started last whatever the outcome, after exactly the calls that outcome stands for, in order, installed meaning stop, migrate where there is one, start and a passed health check, each on the new bytes; nothing but a failed operation keeps the update from installing; at every recorded filesystem state the old binary is at one of its two names, and from the restore on the database it replaces is at its path or a name nothing had, where it stays once moved |
| `Update.InstallAndStart` | internal/release/install.go:267-292 | Success means that the new bytes are in place, made executable and durable, that the service was migrated on them and then started on them, each call reported successful, and that it runs; failure says how far it came and that an operation failed; where the old binary is at each state |
| `Update.WriteBinaryAtomically` | internal/release/install.go:304-338 | Success means the new bytes are at the path, executable and synced; at every state the old bytes are at one of their names; only a failed operation makes it fail |
| `Update.Rollback` | internal/release/install.go:385-449 | Clean means old bytes in place, the right database handed over and health passed; otherwise the flags say what is not, and some operation failed or every name was taken; the service was stopped, started on the disk put back and asked for health, each whatever came of the others; the replaced database's bytes are kept at every state, and once moved aside through the restart |
| `Update.RestoreBinary` | internal/release/install.go:482-490 | Success puts the old bytes back at the path; failure moves nothing |
| `Backup.Restore` | internal/backup/backup.go:131-193 | Success means the snapshot's bytes at the database path, synced and with the old owner and then mode, no stale journal and the old database moved; nothing is touched before the snapshot is known intact; it fails only where an operation did, without a snapshot, or with every name taken; at every state the database's bytes are at its path or at a name nothing had |
| `Backup.ReplacedPath` | internal/backup/backup.go:200-211 | The first name that no file has; none exactly when a name could not be checked before one was found free, or all are taken |
| `Backup.CopyFileFsync` | internal/backup/backup.go:257-282 | Success means the snapshot's bytes are at the path, synced there and in its directory, and the moved-aside database is untouched throughout |
| `Crc.TableIsPolynomial` | packages/vault/src/import/zip.ts:142-168 | The table-driven CRC equals the bit-at-a-time polynomial CRC on every byte string |
| `Crc.BurstChangesCrc` | packages/vault/src/import/zip.ts:157-168 | Contents of one length that differ within four consecutive bytes have different CRCs |
| `Crc.OneByteChangesCrc` | packages/vault/src/import/zip.ts:157-168 | Contents of one length that differ in exactly one byte have different CRCs |
| `Crc.PolynomialPowers` | packages/vault/src/import/zip.ts:142-154 | The constant divided by is the generator of section 8 of RFC 1952 |
| `Crc.ComplementFromOnes` | packages/vault/src/import/zip.ts:157-168 | The checksum is the complement of the remainder begun from all ones, as section 8 of RFC 1952 has it |
| `Crc.LeadingZeroCounts` | packages/vault/src/import/zip.ts:157-168 | A zero byte put in front of a content changes its checksum, which a register begun from zeros would not notice |
| `Crc.Checksummer.CrcTable` | packages/vault/src/import/zip.ts:142-154 | The 256 entries, built once on first use and kept |
| `Crc.Checksummer.Crc32Of` | packages/vault/src/import/zip.ts:157-168 | The loop over the table computes the CRC |
| `ZipReader.FindEndRecord` | packages/vault/src/import/zip.ts:235-246 | The last end record whose comment runs to the end of the file, or -1 when there is none anywhere |
| `ZipReader.ReadDirectory` | packages/vault/src/import/zip.ts:255-295 | The listed entries or a refusal, every read inside the directory, on arbitrary bytes |
| `ZipReader.OpenZip` | packages/vault/src/import/zip.ts:351-389 | Opening any bytes gives the one answer the format determines (see OpensUnique), reading only inside them |
| `ZipReader.OpensUnique` | packages/vault/src/import/zip.ts:351-377 | At most one end record, and so one answer, is possible for a file |
| `ZipReader.IndexNames` | packages/vault/src/import/zip.ts:383-389 | The name index holds the first entry of each name |
| `ZipReader.ReadMember` | packages/vault/src/import/zip.ts:391-439 | The first entry's bytes, checked, or the refusal, in the order the checks are made |
| `ZipWriter.ZipOf` | packages/vault/src/testing/zip-fixture.ts:65-123 | Headers and bodies, then the directory, then the end record, with the offsets of what was written |
| `ZipWriter.Concat` | packages/vault/src/testing/zip-fixture.ts:53-62 | The parts laid end to end |
| `ZipRoundTrip.WrittenOpens` | packages/vault/src/testing/zip-fixture.ts:65-123 | Within the field limits, a written archive opens with the members' entries in order |
| `ZipRoundTrip.NamesInOrder` | packages/vault/src/import/zip.ts:441-443 | The names listed are the members' names in order, repeats included |
| `ZipRoundTrip.WrittenReadsBack` | packages/vault/src/import/zip.ts:298-439 | The first member of a name reads back as the bytes put in, with any local extra field, a deflated one where inflating undoes deflating; only the encryption flag, a Zip64-sized body or an unknown method refuses it |
| `ZipRoundTrip.AbsentName` | packages/vault/src/import/zip.ts:391-397 | Any other name is refused |
| `ZipRoundTrip.AnyArchiveOpens` | packages/vault/src/import/zip.ts:235-389 | Any archive of the format opens with the entries of its directory in order: whatever extra fields and comments the records have, wherever the directory stands, and with any archive comment without the end record's signature |
| `ZipRoundTrip.ListedIff` | packages/vault/src/import/zip.ts:255-295 | A directory is listed, and as those entries, if and only if it is that many whole records end to end, each by its own lengths |
| `ZipRoundTrip.AnyMemberReads` | packages/vault/src/import/zip.ts:391-439 | A member behind any local header of the format reads as its contents if and only if they expand to the listed length and checksum |
| `ZipRoundTrip.DamageRefused` | packages/vault/src/import/zip.ts:391-439 | In any archive, a stored member that reads, with up to four consecutive body bytes changed, is refused |
| `ZipRoundTrip.DamagedOpens` | packages/vault/src/import/zip.ts:351-377 | A damaged body does not change what a written archive lists |
| `ZipRoundTrip.WrittenDamageRefused` | packages/vault/src/import/zip.ts:391-439 | Reading the damaged member of a written archive is refused as a checksum mismatch |
| `Sampling.ByteWidthFor` | packages/vault/src/generator.ts:35-43 | The least number of bytes, at least one, that reaches the limit |
| `Sampling.RandomIndex` | packages/vault/src/generator.ts:60-82 | The first accepted draw of the source, reduced; thrown exactly for a limit below one |
| `Sampling.EveryIndexEquallyOften` | packages/vault/src/generator.ts:45-82 | Each index below the limit is produced by exactly the floor of 256^width over limit byte strings, and at least one |
| `Sampling.MoreThanHalfAccepted` | packages/vault/src/generator.ts:45-82 | More than half of all byte strings of the width are accepted |
| `Sampling.FirstAccepted` | packages/vault/src/generator.ts:60-82 | The source splits into rejected draws, the one accepted, whose index is returned, and what is left: no byte serves twice |
| `Shuffle.ShuffleInjective` | packages/vault/src/generator.ts:119-128 | Different choices give different arrangements of distinct elements |
| `Shuffle.ShuffleOnto` | packages/vault/src/generator.ts:119-128 | Every arrangement is reached by some choices |
| `Shuffle.ShufflePermutes` | packages/vault/src/generator.ts:119-128 | A shuffle only rearranges |
| `Password.ShuffleInPlace` | packages/vault/src/generator.ts:122-128 | The swapping loop leaves the array shuffled by the indices it drew |
| `Password.PickCharacters` | packages/vault/src/generator.ts:111-117 | One character of each class and then any, by the indices drawn |
| `Password.GeneratePassword` | packages/vault/src/generator.ts:92-130 | Throws exactly without a class or with too short a length; a finished password has the length, enabled characters only and every enabled class |
| `Password.GeneratesExactly` | packages/vault/src/generator.ts:92-130 | Over all random sources the passwords that come out are exactly those that meet the settings |
| `Password.DrawnFromAllowed` | packages/vault/src/generator.ts:19-26 | The characters drawn from are exactly those the settings allow: letters of either case, digits, and the printable signs but quotes, slashes and the backquote |
| `Credentials.SealedOpens` | packages/crypto/src/keys.ts:67-193 | An account sealed by honest clients opens with exactly its password and exactly its code, and both give the same user and private key |
| `Credentials.StaysPinned` | internal/httpapi/account.go:76-145 | No request stores other than the pinned derivation parameters |
| `Secrecy.LearnsKeyIff` | README.md:5-10 | In every run, from everything ever sent and stored, whoever did not make it comes by a user key, or the private key under it, if and only if they try a password or code it was wrapped under |
| `Secrecy.LearnsStretchedIff` | docs/superpowers/specs/2026-07-25-keyhole-design.md:82-91 | Nor by the key stretched from a password or code, short of trying that one |
| `Secrecy.StolenRowYieldsIff` | docs/superpowers/specs/2026-07-25-keyhole-design.md:108-109 | In every run the stored row yields the keys if and only if the current password or code is tried, a login if and only if the password is, and a recovery if and only if the code is |
| `Secrecy.StaysSafe` | packages/crypto/src/keys.ts:67-193 | What can be derived from terms that are safe to see is safe to see |
| `CredentialRuns.EveryRunOpens` | packages/crypto/src/recovery.ts:115-158 | In every run the current password and the current code both unwrap to the keys made at enrolment, and no other does |
| `CredentialRuns.NextKeeps` | internal/store/account.go:57-216 | Every event keeps the account sealed around the enrolment key and every device holding that key |
| `CredentialRuns.GrantedIff` | internal/store/account.go:57-216 | In every run an enrolment is granted once, a change to who has the current password, a redemption to who has the current code, a completion to a live token, and to nobody else |
| `CredentialRuns.OpenedIff` | packages/vault/src/recover.ts:119-193 | In every run the current password and no other opens a session, and the current code and no other a recovery, on the key made at enrolment |
| `CredentialRuns.CompletionSpends` | internal/store/recovery.go:105-172 | A completion leaves no recovery token of the account alive |
| `CredentialRuns.EveryRunHoldsPassword` | packages/vault/src/account.ts:86-104 | In every run in which nothing is forgotten, an enrolled user holds a password that opens the account, whatever became of each request |
| `CredentialRuns.EveryRunHoldsCodeIff` | packages/vault/src/recover.ts:195-276 | In every run, codes being new each time, the user holds an opening code if and only if the last code written was not that of an enrolment or regeneration whose answer was lost, and has not been mislaid since |
| `CredentialRuns.EveryRunHoldsCode` | packages/vault/src/recover.ts:195-276 | The same condition suffices even if codes repeat |
| `CredentialRuns.PasswordNeverLost` | packages/vault/src/account.ts:86-104 | Whatever becomes of a request, a user who held the password still holds one that opens |
| `CredentialRuns.CodeHeldIff` | packages/vault/src/account.ts:112-150 | For every reachable state and event, enrolment included, exactly when the user holds an opening code afterwards |
| `CredentialRuns.LostEnrolmentLeavesNoCode` | packages/vault/src/enroll.ts:48-136 | An enrolment that commits and whose answer is lost leaves the password and no code |
| `CredentialRuns.CompletionKeepsCode` | packages/vault/src/recover.ts:195-276 | A completion keeps a code that opens, committed or not, answered or not; a committed one leaves the password too |
| `ResetRuns.EveryRunOpensIff` | internal/store/admin.go:148-211 | In every run with resets, the current password and code open the keys of the last enrolment if and only if no recovery begun before the last reset was completed after it; otherwise nothing opens the account |
| `ResetRuns.CompletionOpensIff` | internal/store/recovery.go:105-172 | A completion that takes effect leaves an account that opens if and only if its redemption was begun after the last reset |
| `ResetRuns.StraddlingDestroys` | internal/store/admin.go:148-211 | The run enrolled, redeemed, reset, enrolled anew, old recovery completed: every request is answered and no password or code opens the account |
| `ResetRuns.NextKeeps` | internal/store/recovery.go:105-172 | Every event keeps the account sealed to the last enrolment's key, or lost until a reset; a crossing completion ends every session and token that could mend it |
| `CredentialClient.Client.Enroll` | packages/vault/src/enroll.ts:48-136 | What is sent and kept for each fate of the request; the code is shown exactly when the server answered, whether or not the login after it succeeds, and opens the account |
| `CredentialClient.Client.RecoverAccount` | packages/vault/src/recover.ts:119-193 | A redemption that returns holds the enrolment key |
| `CredentialClient.Client.CompleteRecovery` | packages/vault/src/recover.ts:228-276 | Throws only when nothing changed; a confirmed outcome's password and code both open the account |
| `CredentialClient.Client.RegenerateRecoveryCode` | packages/vault/src/account.ts:112-150 | A code is shown only when confirmed, and discarded otherwise |
| `CredentialClient.Client.ChangeMasterPassword` | packages/vault/src/account.ts:86-104 | Re-wraps the same key under the new password |
| `TokenRuns.EachHappensOnce` | internal/store/enroll.go:116-193 | Under every interleaving an invite activates, a recovery token completes and a refresh token is exchanged at most once |
| `TokenRuns.NextKeeps` | internal/store/sessions.go:36-203 | Every look-up and transaction keeps what the log records true of the tables |
| `TokenRuns.CompletionRetires` | internal/store/recovery.go:105-172 | A completion is for the token's own user, retires all that user's tokens and revokes all the user's sessions |
| `TokenRuns.UsedForGood` | internal/store/recovery.go:63-172 | A used or retired token never completes later |
| `TokenRuns.RevokedForGood` | internal/store/sessions.go:106-203 | A revoked session stays revoked and is never accepted later |
| `TokenRuns.AcceptedWithinLifetime` | internal/store/sessions.go:106-123 | No session is accepted later than thirty days after its creation |
| `TokenEffects.AcceptedIff` | internal/store/sessions.go:106-203 | After its last renewal and whatever else has happened but its end, an access token is accepted for exactly half an hour and no later than thirty days after the session was opened |
| `TokenEffects.RefreshFoundIff` | internal/store/sessions.go:130-174 | And its refresh token for exactly those thirty days |
| `TokenEffects.FoundUntil` | internal/store/invites.go:80-107 | A ticket is found from when it is made until its expiry or its use |
| `TokenEffects.InviteStepped` | internal/store/enroll.go:116-193 | What each request does to one invite: made for seventy-two hours, used once, untouched by all else |
| `TokenEffects.TokenStepped` | internal/store/recovery.go:37-172 | What each request does to one recovery token: made for ten minutes, spent or retired, untouched by all else |
| `TokenEffects.SessionStepped` | internal/store/sessions.go:36-203 | What each request does to one session: opened or renewed to half an hour, ended, or left alone |
| `TokenEffects.UserStepped` | internal/store/admin.go:68-211 | What each request makes of a user's status |
| `TokenEffects.HappensIff` | internal/store/enroll.go:116-193 | What is recorded as having happened is what took effect, request by request |
| `TokenEffects.ChangeKeepsOne` | internal/store/account.go:57-116 | A password change ends every session of the user but the one it was made from |
| `TokenStore.AuthStore.ByToken` | internal/store/invites.go:80-107 | Finds the unused unexpired row of a token, or nothing when there is none |
| `TokenStore.AuthStore.FinishEnrollment` | internal/store/enroll.go:126-193 | The invite is consumed and the user activated, or neither |
| `TokenStore.AuthStore.FinishRecovery` | internal/store/recovery.go:123-172 | Token spent, others retired and sessions revoked, or nothing |
| `TokenStore.AuthStore.RevokeSessions` | internal/store/account.go:111-116 | Exactly the user's live sessions but the one kept |
| `TokenStore.AuthStore.CreateSession` | internal/store/sessions.go:36-69 | A new row unless an identifier or token repeats |
| `TokenStore.AuthStore.RotateSession` | internal/store/sessions.go:130-174 | Replaces both tokens of a live session that still holds the presented one |
| `TokenStore.AuthStore.TouchSession` | internal/store/sessions.go:177-186 | Slides the access expiry of a live session only |
| `TokenStore.AuthStore.RevokeSession` | internal/store/sessions.go:188-203 | Marks a live session, and says whether there was one |
| `Upload.Uploader.UploadItems` | packages/vault/src/import/upload.ts:133-223 | What was posted is a prefix of the items in sendable chunks, each closed only because the next entry would break a limit; the vault holds between uploaded and uploaded plus in-doubt of them, in order; what is in doubt is the whole chunk that failed, or nothing and nothing was written where the server refused it; no error means all of them |
| `Upload.Uploader.Send` | packages/vault/src/import/upload.ts:166-180 | A chunk is counted only when confirmed |
| `Upload.WithinBudget` | packages/vault/src/import/upload.ts:38-64 | A chunk of several entries closed at the client's two limits fits those of the server (`internal/httpapi/items.go`), envelope included |
| `Keyring.Session.SetCollectionKeys` | packages/vault/src/session.ts:102-110 | Buffers the new ring carries over are intact and every buffer dropped is zeros |
| `Keyring.Session.Open` | packages/vault/src/session.ts:111-124 | Installs the new keys and blanks everything held before |
| `Keyring.Session.Lock` | packages/vault/src/session.ts:128-136 | Nothing is held and everything once held is zeros |
| `Keyring.Session.AdoptCollections` | packages/vault/src/collections.ts:52-94 | The ring of the listed collections: held keys kept as they are, others newly opened, revoked ones blanked; with distinct ids no opened key is left outside the ring |
| `Keyring.Session.CreateCollection` | packages/vault/src/collections.ts:122-152 | Adds the new key to the ring, or blanks it when the request failed |
| `Keyring.Session.AnyRun` | packages/vault/src/session.ts:62-136 | Over any sequence of operations, direct replacement of the ring included, every buffer held keeps its installed contents and every buffer once held and dropped is zeros |
| `Limiter.Limiter.Allow` | internal/auth/ratelimit.go:40-53 | Admits unless blocked, and then names the time left |
| `Limiter.Limiter.RecordFailure` | internal/auth/ratelimit.go:56-83 | Counts the failure and sets the block by the capped doubling |
| `Limiter.Limiter.Reset` | internal/auth/ratelimit.go:87-91 | Forgets exactly that key |
| `Limiter.Limiter.Sweep` | internal/auth/ratelimit.go:95-105 | Drops exactly the entries last seen before the cutoff |
| `Limiter.WaitIsCappedDoubling` | internal/auth/ratelimit.go:70-81 | The wait is the doubled base or the cap, whatever a 64-bit conversion of too large a float gives |
| `Limiter.WaitMonotone` | internal/auth/ratelimit.go:70-81 | Waits never shrink as failures grow, and never exceed the cap |
| `LimiterRuns.FailuresSpanWaits` | internal/auth/ratelimit.go:40-83 | Where attempts on one key are let in one after the other, whatever happens on other keys and between, its failures since it was last cleared span at least the sum of the waits between them |
| `LimiterRuns.BlockNeverShrinks` | internal/auth/ratelimit.go:56-83 | In every interleaving, failures recorded while blocked included, a key that is not cleared never has its block end earlier than before |
| `LimiterRuns.SweepKeepsBlocked` | internal/auth/ratelimit.go:95-105 | In every interleaving, a sweep with an age of at least the longest wait never frees a blocked key |
| `LimiterRuns.SweepFreesIff` | internal/auth/ratelimit.go:95-105 | After every interleaving, a later sweep can free a key while it is blocked exactly when the key is blocked at the last event and the age falls short of its wait by more than one tick |
| `Base64.RoundTrip` | packages/crypto/src/encoding.ts:13-51 | Decoding an encoding returns the original bytes |
| `Base64.FeedHolds` | packages/crypto/src/encoding.ts:36-49 | The unmasked 32-bit accumulator never loses a bit it still needs: each byte taken from it is the exact one |
| `Base64.FilledExactly` | packages/crypto/src/encoding.ts:27-51 | Every accepted text fills the output buffer exactly |
| `Base64Bits.DecodedBits` | packages/crypto/src/encoding.ts:27-51 | An accepted text decodes to its bits, eight at a time, fewer than eight being left over |
| `Base64Bits.EncodedBits` | packages/crypto/src/encoding.ts:13-25 | The characters of an encoding spell the bits of its bytes, six at a time, filled up with zeros |
| `Base64Bits.EncodedShape` | packages/crypto/src/encoding.ts:13-25 | An encoding is whole groups of four characters, the last completed by padding |
| `Base64Bits.AlphabetOfRfc` | packages/crypto/src/encoding.ts:3-10 | The characters are those of table 1 of RFC 4648 |
| `Base64.ToBase64` | packages/crypto/src/encoding.ts:13-25 | The loop encodes in groups of three with padding |
| `Base64.FromBase64` | packages/crypto/src/encoding.ts:27-51 | Accepts exactly a clean length other than 1 modulo 4 of known characters, and decodes through the accumulator |

## Where code and documentation part

- `packages/vault/src/import/upload.ts` says the upload never throws; a failing encryption would. Encryption is total
  here.
- `packages/vault/src/items.ts` sends a null collection for a personal item and `internal/store/items.go` reads it as "no
  change"; the model follows the store.
- The upsert of a membership may demote the last manager and a reset may remove the last administrator; neither "every
  collection has a manager" nor "an administrator exists" is claimed.

## Left out

- Argon2id, HKDF, AES-GCM, X25519, SHA-256, minisign, inflate: foreign libraries; symbolic terms or function parameters with their inverse laws.
- HTTP handlers, routing, JSON, React screens, service worker, auto-lock: plumbing and browser events.
- Format detection, vendor parsers, duplicate detection, `parseCsv`'s header mapping: tables and platform parsers.
- Admin listing, audit log, configuration, directory, preferences, migrations, snapshot pruning: easy members or I/O.
- Deleting a user: rows vanish without a tombstone as in a reset; not a step of any run.
- Foreign keys to users: identifiers of users are taken to exist.
- Decryption in the client: a held record stands for the row it was decrypted from; the order of the record list is not kept.
- Overlapping requests of one client: excluded by hypothesis, shown necessary by `SyncLimits.LateSaveHidesNewerRow`.
- Write-ahead log content: a restore is about the main database file only.
- The update before the service stop: download, signature and the pre-update snapshot are given.
- The service's own writes during file operations: a stop that reports success has ended the process, and after one that fails within a rollback the database clauses of a broken outcome are about a service that does not write meanwhile.
- `ZipWriter.ZipOf`: headers are concatenations of their fields in order rather than buffers written at offsets.
- Text decoding of ZIP names and members: function parameters; `readText` is not modelled.
- What lies under the user key in `Secrecy`: items, folders and sealed collection keys are no terms there; what an observer could time, count or guess about is not either.
- Numbers beyond exact float range in the generator: limits and lengths are integers; a draw that never ends is an unfinished one on a finite source.
- `Keyring`: operations run one after the other; tokens, listeners and the moment between awaits are not modelled.
- Clearing of intermediate key buffers in `packages/vault/src/recover.ts` and `packages/crypto/src/keys.ts`: terms have no buffers.
- A login that verifies an old password before a recovery completes and creates its session after it: such a session is new, and not among those the completion ends.
- Requests other than recoveries in flight across a reset, and a redemption checked before a reset whose token is minted after it: each is one step of `ResetRuns`; the life of a token (ten minutes) is not, so a recovery may be of any age there.
- `SyncRuns.EverySteadyRunExact`: asks that no write takes a row the client holds out of sight; asking it of live rows only would be false, by `SyncLimits.LostTombstoneStaysHeld`.
- `CredentialRuns.EveryRunHoldsCodeIff`: takes generated codes to be new; `CredentialRuns.CodeHeldIff` says what a repeated one would change.
- `LimiterRuns.FailuresSpanWaits`: asks that attempts on the key are sequential; requests let in together before any is recorded are not slowed by the code either.
