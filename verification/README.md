# EdisonDB, modelled and proved

EdisonDB is an embedded, owner-controlled record store. Every write, read and
delete is recorded in a hash-chained audit log, and the log is anchored by a
checkpoint which is sealed under a store secret in authenticated mode. This
project models the engine and proves what it keeps: over single operations, over
whole runs of many handles on one file, and across crashes.

`dafny verify dfyconfig.toml` checks the whole project.

## How it is laid out

| Component | Files |
|---|---|
| Bytes, framing, ordering, libraries as parameters | `Base`, `Bytes`, `Ordering`, `Crypto` |
| Audit entries, chain, row keys, the two table readers | `Audit`, `AuditKeys`, `AuditTable` |
| Record commitment, checkpoints, envelope, records, record tables | `Commitment`, `Checkpoint`, `Envelope`, `Records`, `RecordTable` |
| The in-memory store and its Redb file | `StoreSpec`, `RedbSpec`, `Store` |
| Any number of handles over one file; what they lose, and when | `Protocol`, `Lineage`, `Updates` |
| Who may open what; what an audit entry says | `Admission`, `Accounting` |
| The Fjall backend and its refinement of the store | `FjallSpec`, `FjallRefinement`, `Fjall` |
| The command executor over Redb | `ExecutorSpec`, `Executor` |
| Hand-written SHA-256; the parity digest of the bounded verification domain | `Primes`, `Sha256`, `Sha256Example`, `Syndrome` |
| Response protocol; mobile database; policy engine | `Wire`, `Mobile`, `Policy` |
| Migration toolkit; command language, the client's commands and all eight statements; vector index | `Migration`, `Eql`, `Sdk`, `Commands`, `Vector` |

What the engine updates in place is a class here: `RedbFile`, `Store`,
`FjallDatabase`, `FjallBackend`, `RedbBackend`, `EqlExecutor`, `MobileDb`,
`PolicyEngine`, `VectorIndex`. Each method is proved equal to a step on values
(`StoreSpec`, `RedbSpec`, `FjallSpec`, `ExecutorSpec` and the step functions of
`Mobile` and `Policy`), and the lemmas about runs are about those steps.

Text is its UTF-8 bytes; a table has fewer than 2^64 rows and a log fewer than
2^64 entries, as a machine word counts them. Clock readings, nonces, salts and
the success of a device write are parameters. Digests, MACs and key derivation are function
parameters without laws: where the engine relies on a digest the lemma ends in
"equal, or here are two inputs with one digest". The cipher is trusted only to
unseal what it sealed, the JSON library only to parse what it printed on one
line. A Redb transaction and a Fjall batch are one atomic step.

What is accepted is stated on the fields of what is stored, for any content
whatever: which cell admits which secret (`Admission.AuthoriseAdmits`), which files
and databases open (`Admission.LoadExactly`, `Admission.OpenExactly`), and that an
authenticated open of an edited one finds the sealed history or a collision
(`Admission.CheckpointFixesHistory`, `Admission.OpenFixesHistory`). Likewise for who
is logged (`Accounting.OperationTold`), who is permitted (`Policy.PermitsExactly`),
and what a command is read as (`Commands.StatementRoundTrip`).

## What the proofs show beyond the happy path

- A record stamped by a clock at zero is accepted (`src/lib.rs:295-304`) and
  refused on reload (`src/lib.rs:225`). In authenticated mode one saved record of
  this kind freezes a Redb file for ever (`Lineage.FrozenFromStart`,
  `Lineage.FrozenForever`); in Fjall it blocks writes, deletes and opens for ever
  (`FjallRefinement.ZeroStampFromStart`, `FjallRefinement.ZeroStampStays`).
- The audit entry does not bind payload or tier, and the clock has seconds. Of two
  accepted saves in a row the second loses a record of the first, with no delete
  in the log, exactly when after one log the two handles wrote different records
  under one id, for one owner, at one reading (`Updates.LossExactly`,
  `Updates.UpdateLostFromStart`); the same holds between any two points of a run
  (`Updates.RunLossExactly`), and without such a clash no record is ever lost
  (`Updates.RecordsSurvive`).
- Mobile counters stay unique, through crashes and failed writes, exactly as long
  as no open finds a stored counter ahead of the persisted one
  (`Mobile.UniqueStep`, `Mobile.OpenExactly`); a crash between the two writes of an
  insert is enough for that (`Mobile.CrashDuplicates`). The counter's key is an
  ordinary record key: which steps under it do harm is exact (`Mobile.StepExact`),
  and one of them closes the database for good (`Mobile.CounterKeyAsRecord`).
- A command is text. A printed WRITE whose id holds a tier clause is read in that
  tier, and the tier asked for becomes payload (`Sdk.TierOverridden`); blanks before
  an id or a payload, and white space at the end of the command, are lost. What every
  printed WRITE, READ and DELETE is read as is given by `Sdk.PrintedWriteReads` and
  `Sdk.PrintedNamedReads`, and which are read as another statement by
  `Sdk.MisreadExactly` and `Sdk.NamedRoundTrip`.
- `write_stmt` ends in an optional AUTO EMBED, but the payload takes the rest of
  the line, so a parsed write never asks for an embedding (`Eql.ParsedWrite`).
- If no id of the exported records holds a zero byte, manifests match exactly when
  ids and total payload size agree, or the id blobs collide
  (`Migration.MatchingManifests`); tiers, owners and contents are not compared
  (`Migration.RetieringMatches`). A zero byte in an id can make manifests of
  different ids match (`Migration.NulIdsCollide`).
- The parity digest of the bounded domain detects every flip of one or two bits, and
  misses three exactly when one code is the exclusive or of the other two
  (`Syndrome.ThreeFlips`).
- A transform changes id or tier without sealing the payload again
  (`Migration.TransformKeepsCiphertext`), and a response seal does not cover the
  payload (`Wire.PayloadUnsealed`).

Where comments and code disagree the code is followed. A delegation "must" be
granted by the owner or an administrator (`src/policy.rs:126-127`), but nothing
checks who granted it (`Policy.GrantorUnchecked`). An administrator has "all actions
except Grant" (`src/policy.rs:56`), but not the Admin action either
(`Policy.RolesNest`).

## Model

| member | source | states |
|---|---|---|
| `Audit.NewEntry` | src/lib.rs:596-614 | the entry built carries the hash of its own canonical bytes, so it verifies |
| `Audit.HashInputInjective` | src/lib.rs:623-637 | the length-prefixed canonical bytes determine every field of an entry except its own hash |
| `Audit.HashInputParts` | src/lib.rs:616-637 | the offset of every field under the entry hash: domain, length-prefixed id and requester, the code of the action, time, previous hash |
| `Audit.VerifyAuditEntries` | src/lib.rs:974-986 | the loop over `expected_prev` accepts exactly the chains: every entry sealed and pointing at the one before |
| `Audit.ChainExtends` | src/lib.rs:1022-1039 | a chain grows exactly by a sealed entry that points at its head |
| `Audit.ChainPrefix` | src/lib.rs:974-986 | every prefix of a chain is a chain |
| `Audit.HeadFixesHistory` | src/lib.rs:907-917 | two valid chains of one length with one head are equal entry by entry, or the lemma returns two preimages with one digest |
| `Audit.HeadAcrossLengths` | src/lib.rs:907-917 | chains of different lengths with one head need a collision or an entry whose digest is the zero hash; why the checkpoint keeps the count as well |
| `Audit.AuditHistoryIsPrefix` | src/lib.rs:988-1001 | the field-by-field comparison decides whether one log is a prefix of the other |
| `AuditKeys.KeyParses` | src/lib.rs:1183-1193 | the twenty-digit key parses back to its index, for every machine word |
| `AuditKeys.KeyInjective` | src/lib.rs:1183-1193 | different indices have different keys |
| `AuditKeys.KeyOrdered` | src/backends/fjall.rs:302-316 | byte order on the padded keys is numeric order on the indices |
| `AuditTable.SortByIndex` | src/lib.rs:1199-1199 | the sort by parsed index returns a permutation in index order |
| `AuditTable.ReadByParsing` | src/lib.rs:1171-1213 | the Redb reader (parse, re-format, sort, check for gaps, verify) returns exactly what the table means, on every table |
| `AuditTable.ReadByScanning` | src/backends/fjall.rs:302-328 | the Fjall reader (walk in key order, compare keys, check as it goes) returns the same value on every table, so the two readers accept the same tables and return the same log |
| `AuditTable.ReadAuditIs` | src/lib.rs:1326-1350 | the rows written for a log mean that log, and are accepted exactly when it is a chain |
| `AuditTable.EncodeAuditInjective` | src/lib.rs:1326-1350 | two logs with one table are one log |
| `AuditTable.ScanOfLog` | src/backends/fjall.rs:302-328 | byte order visits the rows of a log in log order |
| `Bytes.FramedInjective` | src/lib.rs:624-627 | length-prefixed text is self-delimiting: whatever follows, the text is recovered |
| `Bytes.U64BeInjective` | src/lib.rs:634-634 | eight big-endian bytes determine the number |
| `Bytes.EndianAt` | src/lib.rs:634-634 | byte by byte: the one of weight 256 to the i comes i-th from the end, or from the front in the little-endian form |
| `Bytes.Utf8After` | src/executor.rs:223-223 | text is accepted as UTF-8 exactly when it is the encodings of code points other than surrogates, one after another: here whatever begins with the form of a code point |
| `Bytes.Utf8Starts` | src/executor.rs:223-223 | and here that accepted text, if not empty, begins with such a form |
| `Bytes.CopyInto` | src/arpi.rs:116-125 | copying a slice into a fixed buffer replaces those bytes and no others |
| `Commitment.RecordCreatedAtCommitment` | src/lib.rs:676-700 | the commitment computed from records in any iteration order is the commitment of the map |
| `Commitment.CommitmentForgetsOrder` | src/lib.rs:676-700 | the committed bytes do not depend on the order in which the records arrive |
| `Commitment.MapInputInjective` | src/lib.rs:676-700 | the committed bytes determine the finite map from id to stamp |
| `Commitment.CommitmentBinds` | src/lib.rs:676-700 | one commitment, one map, or an explicit BLAKE3 collision |
| `Commitment.CommitmentParts` | src/lib.rs:676-700 | what is committed: the domain, the number of records, and the sorted rows |
| `Commitment.StampParts` | src/lib.rs:676-700 | each row is the length of the id, the id and the stamp |
| `Checkpoint.VerifySealExact` | src/lib.rs:785-815 | an authenticated checkpoint verifies exactly when it is the one this key would seal for the same contents |
| `Checkpoint.MacInputInjective` | src/lib.rs:702-718 | the MAC input determines count, head and record commitment |
| `Checkpoint.MacBinds` | src/lib.rs:731-743 | under one key one MAC admits one checkpoint, or the keyed hash collides |
| `Checkpoint.MacInputParts` | src/lib.rs:702-718 | the offset of every field under the MAC |
| `Checkpoint.AuthoriseExact` | src/lib.rs:847-972 | an absent checkpoint is accepted exactly in front of an empty log and no records; any other exactly when it is the one this mode and secret would write for what was observed, and never an empty log next to records |
| `Envelope.PartsRoundTrip` | src/lib.rs:87-149 | nonce and ciphertext come back from the envelope; a ciphertext shorter than the tag is refused |
| `Envelope.AcceptsExactlyPacked` | src/lib.rs:80-135 | persisted bytes are accepted exactly when they were packed from some nonce and ciphertext |
| `Envelope.AadInjective` | src/lib.rs:1602-1602 | `id:tier` determines id and tier, ids with colons included |
| `Envelope.EncryptionRoundTrip` | src/lib.rs:1596-1647 | decryption returns the plaintext of any encryption under the same key, id and tier, given that the cipher unseals what it sealed |
| `Envelope.AadBytes` | src/lib.rs:1602-1602 | the associated data is the id, a colon and the name of the tier |
| `RecordTable.ReadRecordTable` | src/lib.rs:1419-1440 | the reader returns every record, or the error of the first bad row in key order |
| `RecordTable.ReadBack` | src/lib.rs:222-246 | stored records read back unchanged exactly when no stamp is zero; otherwise the error is the invalid stamp |
| `RecordTable.ReadExactly` | src/lib.rs:1419-1440 | field by field: a table reads exactly when every row is sound, under its own id, with a nonzero stamp (and, in Fjall, in its own tier and in no earlier one), and gives back the rows; otherwise the error is that of its first bad row |
| `Store.Store.Write` | src/lib.rs:1045-1055 | the method has the outcome and the new state of the specified step |
| `Store.Store.Read` | src/lib.rs:1057-1078 | a granted or denied read appends one entry; an unknown id appends none |
| `Store.Store.Delete` | src/lib.rs:1104-1120 | only the owner deletes; a refused delete changes and logs nothing |
| `Store.Store.AppendAudit` | src/lib.rs:1029-1039 | exactly one sealed entry, pointing at the head, is appended |
| `Store.Store.ListByOwner` | src/lib.rs:1089-1098 | exactly the records of the owner, each once |
| `Store.Store.CheckRecords` | src/lib.rs:1143-1148 | the validation pass accepts exactly the maps whose records are valid and sit under their own ids |
| `Store.PermitSave` | src/lib.rs:1156-1297 | what a save reads from the transaction and whether the checkpoint lets it go on |
| `Store.RewriteRecords` | src/lib.rs:1303-1324 | draining and reinserting leaves exactly the rows of the handle |
| `Store.RewriteAudit` | src/lib.rs:1326-1350 | draining and reinserting leaves exactly the rows of the log under their index keys |
| `Store.Store.SaveImpl` | src/lib.rs:1138-1396 | the whole write transaction: committed as specified, or dropped with nothing changed |
| `Store.Store.LoadImpl` | src/lib.rs:1413-1586 | the whole load transaction, with the first checkpoint of an empty database |
| `StoreSpec.ReadersOf` | src/lib.rs:354-361 | owners always read; anybody else reads Noise and nothing else |
| `StoreSpec.WriteGrows` | src/lib.rs:1045-1055 | an accepted write adds one record and exactly one lawful Write entry of its owner |
| `StoreSpec.ReadGrows` | src/lib.rs:1057-1078 | every read of a known id, granted or denied, adds exactly one entry that says which |
| `StoreSpec.DeleteGrows` | src/lib.rs:1104-1120 | an accepted delete removes one record and adds exactly one Delete entry of its owner |
| `StoreSpec.StepGrows` | src/lib.rs:1045-1120 | every operation leaves the store alone or adds one lawful, sealed entry and replays it |
| `StoreSpec.RunKeepsInv` | src/lib.rs:1029-1120 | in every reachable store the log is a chain and its replay is the live ids with their owners |
| `StoreSpec.Alternates` | src/lib.rs:1045-1120 | the writes and deletes of an id alternate, a write first; it is live after a write |
| `StoreSpec.LawfulAt` | src/lib.rs:1045-1120 | every entry of a lawful log was lawful when it was added |
| `StoreSpec.ReadsOfLiveIds` | src/lib.rs:1057-1078 | reads are logged only while their id is live, and never denied to its owner |
| `StoreSpec.LostMeansDeleted` | src/lib.rs:1104-1120 | an id or owner lost between a log and its extension was deleted by an entry in between |
| `Protocol.AuthoriseOn` | src/lib.rs:847-972 | on a well-held disk the classification accepts exactly the caller whose mode and secret wrote the checkpoint |
| `Protocol.PermitOn` | src/lib.rs:1156-1297 | what a save finds on a well-held disk, with the exact callers it lets go on |
| `Protocol.LoadOn` | src/lib.rs:1413-1586 | a load succeeds exactly for a caller that may open a store with no zero stamp, returns that store, and the disk goes on holding it |
| `Protocol.SaveOn` | src/lib.rs:1138-1396 | a save succeeds exactly when the caller may save and the handle's log extends the log on disk; then the disk is the handle |
| `Protocol.SaveKeeps` | src/lib.rs:1138-1396 | after any save, accepted or refused, the disk is well held, its log extended, its mode kept |
| `Protocol.LoadKeeps` | src/lib.rs:1413-1586 | a load leaves the disk holding the same store, in the same mode |
| `Protocol.StepKeeps` | src/lib.rs:1138-1586 | every create, load, operate, save or open keeps the disk and all handles well formed |
| `Protocol.RunKeeps` | src/lib.rs:1138-1586 | for every interleaving of any number of handles: the disk log grows only by extension, is a chain that matches its checkpoint, and mode and salt never change |
| `Protocol.StartIsWellFormed` | src/backends/redb.rs:19-58 | the world with no file and no handle is well formed, so the runs above may start there |
| `Protocol.NothingLost` | src/lib.rs:988-1001 | on every run, an id or owner gone from disk was deleted by an entry the run added; the lemma returns its index |
| `Lineage.SaveSyncs` | src/lib.rs:1138-1396 | a successful save leaves the file holding exactly the handle |
| `Lineage.SaveThenLoad` | src/lib.rs:1398-1411 | loading what was just saved, in the same mode, returns it and changes nothing, exactly when no stamp is zero |
| `Lineage.OperateThenSave` | src/lib.rs:1138-1396 | an up-to-date handle operates and saves: it succeeds exactly when the mode is legacy or no stamp on disk is zero |
| `Lineage.ForkedNeverSaves` | src/lib.rs:988-1001 | a handle whose log has parted from the disk can never save again, whatever anyone does, until it is reloaded |
| `Lineage.ZeroStampFreezes` | src/lib.rs:295-304 | an accepted authenticated save of a zero stamp makes the file one that no reader accepts |
| `Lineage.FrozenForever` | src/lib.rs:295-304 | such a file is frozen: on every later run it does not change, and every load and every save is refused |
| `Lineage.FrozenFromStart` | src/lib.rs:295-304 | and a run of three steps from nothing freezes a file, for every acceptable record with a zero stamp |
| `Updates.RecordsSurvive` | src/lib.rs:1299-1324 | on every run in which no accepted write gives a log some handle or file has already had without that very record, a record on disk stays, unchanged in every field, until the log holds a newer delete of it |
| `Updates.FreshClockNeverClashes` | src/lib.rs:596-614 | a write whose clock reading occurs in no log so far never clashes; reads and deletes never do |
| `Updates.RunHistoric` | src/lib.rs:1045-1120 | on every run each handle and the file is what some list of operations makes of the empty store |
| `Updates.TwoSaves` | src/lib.rs:1138-1396 | two accepted saves in a row leave first the one store and then the other on disk, and the second log extends the first |
| `Updates.ExtendingSaves` | src/lib.rs:1138-1396 | and two handles whose logs extend the disk and each other both save |
| `Updates.LossExactly` | src/lib.rs:596-614 | of two accepted saves in a row the second loses a record that no newer entry deletes if and only if the two histories clash: at one position with one prefix both have a write with one entry but different records |
| `Updates.RunLossExactly` | src/lib.rs:1138-1586 | and on any run from nothing, between any point of it and its end (so between any two points), the file loses such a record if and only if the histories of the two files clash |
| `Updates.UpdateLost` | src/lib.rs:596-614 | any two clashing handles whose logs extend the disk and each other both save, and the record of the first is lost |
| `Updates.UpdateLostFromStart` | src/lib.rs:596-614 | and a run of six steps from nothing in which it happens |
| `Admission.CheckpointFixesHistory` | src/lib.rs:847-905 | any two edited files accepted under one salt and one MAC hold the same log and the same stamps, or the lemma returns a collision |
| `Lineage.SavedIsLoaded` | src/lib.rs:1138-1586 | what one handle saved, a load or an open in the same mode puts into any other handle, and touches nothing else, when no stamp is zero |
| `Admission.AuthoriseAdmits` | src/lib.rs:720-972 | field by field: a sealed cell is accepted for a secret exactly when its version is 2, its MAC is the keyed hash of count, head and commitment under the key derived from the argon2 key of that secret and the salt in the cell, the three are the observed ones, and the log is not empty next to records; what every other cell and every refusal amounts to is given too |
| `Admission.LoadExactly` | src/lib.rs:1413-1586 | a load accepts a file, whatever it holds, exactly when rows and chain read and the caller is admitted in this sense; it returns what it read, or which error |
| `Admission.SaveExactly` | src/lib.rs:1138-1396 | a save is accepted exactly when the caller is admitted to what the file holds, whatever it holds, and the log on disk is a prefix; then every table holds the handle and the cell is sealed with the key of the secret |
| `Admission.SecretsShareMac` | src/lib.rs:720-760 | two secrets that both open one file have one MAC under their two derived keys |
| `Admission.WrongSecretRefused` | src/lib.rs:720-760 | a file that one secret opens refuses, unchanged and as a broken chain, every secret whose key makes another MAC |
| `Admission.LoadedChain` | src/lib.rs:847-905 | whatever file a load accepts against a sealed cell holds the chain and the stamps that were sealed |
| `Admission.OpenExactly` | src/backends/fjall.rs:51-165 | an open accepts a Fjall database, whatever it holds, exactly when keyspaces and chain read and the caller is admitted, and caches exactly what it read |
| `Admission.FjallSecretsShareMac` | src/backends/fjall.rs:108-120 | two secrets that both open one database have one MAC under their two derived keys |
| `Admission.OpenedChain` | src/backends/fjall.rs:75-131 | whatever database an open accepts against a sealed cell holds a chain with the sealed count and head, and keyspaces whose stamps have the sealed commitment |
| `Admission.OpenFixesHistory` | src/backends/fjall.rs:75-131 | any two databases, however edited, accepted under one salt and one MAC hold the same log and the same stamps, or the lemma returns a collision |
| `Admission.TiersReadExactly` | src/backends/fjall.rs:209-261 | the three keyspaces read exactly when every row is sound, in the keyspace of its tier, and no id is in two of them |
| `Admission.EditedRefused` | src/backends/fjall.rs:278-292 | with stamps in the keyspaces other than those committed to, an authenticated backend refuses every operation and changes nothing |
| `Accounting.OperationTold` | src/lib.rs:596-614 | an operation changes the store exactly when it takes effect; then one entry is added that names its record, its requester (the owner, for a write), its action and its clock reading, points at the last entry and carries its own hash |
| `Accounting.OperationAnswers` | src/lib.rs:1045-1120 | every result and every error, in the order they are checked |
| `Accounting.EntryTold` | src/lib.rs:1029-1120 | in every reachable store each entry tells, in this sense, of the operation that found the log that long |
| `Accounting.NothingMadeUp` | src/lib.rs:1029-1586 | on every run of any number of handles over one file, each entry on disk and in every handle tells of an operation of the run |
| `Accounting.FjallTold` | src/backends/fjall.rs:330-603 | on any database content an operation of the backend is refused and changes nothing, or commits one batch: an audit row that tells of it, its own row in its own keyspace, the commitment of the records it leaves, and the cell that seals them |
| `Accounting.ReadTold` | src/backends/fjall.rs:463-490 | a read is granted exactly to the owner and, of Noise, to anybody; the record found is returned, and the entry says which it was |
| `Accounting.DeleteTold` | src/backends/fjall.rs:521-603 | only the owner of the row found deletes |
| `Fjall.KeyspaceEntries` | src/backends/fjall.rs:209-251 | one keyspace: decoded, validated, key, tier and uniqueness checked, in key order; exactly the rows or the first error |
| `Fjall.ValidatedRecordEntries` | src/backends/fjall.rs:209-261 | the three keyspaces in order, with ids unique across them |
| `Fjall.RetainOthers` | src/backends/fjall.rs:562-564 | `retain` lists exactly the stamps of the other records |
| `Fjall.FjallBackend.Open` | src/backends/fjall.rs:51-165 | open as specified on any database content |
| `Fjall.FjallBackend.EnsureRecordCommitmentCurrent` | src/backends/fjall.rs:278-292 | the authenticated check of the cached commitment against the keyspaces |
| `Fjall.FjallBackend.AppendAudit` | src/backends/fjall.rs:330-371 | one batch of an audit row and the checkpoint, then the cached fields |
| `Fjall.FjallBackend.FindTier` | src/backends/fjall.rs:382-394 | the search stops at the first keyspace that has the id |
| `Fjall.FjallBackend.Write` | src/backends/fjall.rs:379-461 | write as specified: order of checks, one batch, cached fields |
| `Fjall.FjallBackend.Read` | src/backends/fjall.rs:463-490 | read as specified on any database content |
| `Fjall.FjallBackend.Delete` | src/backends/fjall.rs:521-603 | delete as specified: order of checks, one batch, cached fields |
| `Fjall.FjallBackend.ListByOwner` | src/backends/fjall.rs:493-519 | list as specified on any database content: the keyspaces in turn, each in key order, up to the first row that does not decode; on a database that stands for a store, exactly the records of the owner or the zero stamp |
| `FjallRefinement.TierOfRecord` | src/backends/fjall.rs:382-394 | the search order is irrelevant: an id is in the keyspace of its record and in no other |
| `FjallRefinement.TiersRead` | src/backends/fjall.rs:209-251 | the three keyspaces read back as the one record map, unless a stamp is zero |
| `FjallRefinement.WriteRefines` | src/backends/fjall.rs:379-461 | write against the in-memory store, every refusal spelled out |
| `FjallRefinement.ReadRefines` | src/backends/fjall.rs:463-490 | read against the in-memory store, every refusal spelled out |
| `FjallRefinement.DeleteRefines` | src/backends/fjall.rs:521-603 | delete against the in-memory store, every refusal spelled out |
| `FjallRefinement.OperationRefines` | src/backends/fjall.rs:378-603 | with no zero stamp and room in the log an operation answers and grows as the store does; in any case the backend stands for the old store or the new one |
| `FjallRefinement.RunRefines` | src/backends/fjall.rs:378-603 | on every run with nonzero stamps the backend stands for the store that ran the same operations |
| `FjallRefinement.RunAnswers` | src/backends/fjall.rs:378-603 | and every operation of the run gets the same result or error |
| `FjallRefinement.OpenOn` | src/backends/fjall.rs:51-165 | an open succeeds exactly for the mode and secret that wrote the checkpoint, when no stamp is zero |
| `FjallRefinement.EmptyDbHolds` | src/backends/fjall.rs:51-81 | an empty database stands for the empty store, so runs may start there |
| `FjallRefinement.ReopenRecovers` | src/backends/fjall.rs:51-165 | reopening in the same mode gives back length, tail, commitment and context; the other mode is refused |
| `FjallRefinement.FjallRunKeeps` | src/backends/fjall.rs:330-603 | on every run with crashes, every batch boundary holds the store that some of the operations of the run, in their order, make of the first one; its log only grows, mode and salt stay |
| `FjallRefinement.CrashRecovers` | src/backends/fjall.rs:51-165 | on every run in one mode with nonzero stamps, crashing between any two batches and opening again restores the very same backend |
| `FjallRefinement.CrashedUntilOpen` | src/backends/fjall.rs:51-165 | after a crash no later step changes the database until it is opened again |
| `FjallRefinement.ZeroStampStays` | src/lib.rs:295-304 | a live zero stamp is never got rid of: the records stay what they are and no open succeeds |
| `FjallRefinement.ZeroStampFromStart` | src/lib.rs:295-304 | and opening an empty database and one accepted write reach it |
| `FjallRefinement.StuckStep` | src/backends/fjall.rs:379-603 | with a zero stamp live no write or delete is accepted; reads are, in legacy mode only |
| `Executor.RedbBackend.Open` | src/backends/redb.rs:19-58 | load the file if it exists, else create it by saving a new store, in the mode asked for |
| `Executor.RedbBackend.Save` | src/backends/redb.rs:99-106 | a save in the mode the backend was opened in |
| `Executor.EqlExecutor.ExecWrite` | src/executor.rs:176-206 | derive, encrypt, build, write, save, each failure in its place |
| `Executor.EqlExecutor.ExecRead` | src/executor.rs:208-225 | the audit entry is saved before the read may fail |
| `Executor.EqlExecutor.ExecDelete` | src/executor.rs:263-267 | delete, then save |
| `Executor.EqlExecutor.ExecList` | src/executor.rs:227-261 | the owner's records of the tier, each once, or a failure exactly when one of them does not decrypt |
| `Executor.ReadableExactly` | src/executor.rs:243-262 | a listed record opens exactly when the password derives a key that unseals it for its id and tier; otherwise the error is that of the step that failed |
| `ExecutorSpec.StatementKeepsSync` | src/executor.rs:176-267 | after every statement the disk holds what memory holds; the exact exception is an authenticated store with a zero stamp |
| `ExecutorSpec.RunKeepsSync` | src/executor.rs:163-267 | with a set clock disk and memory agree after every statement of every run |
| `ExecutorSpec.ReopenFinds` | src/backends/redb.rs:19-58 | reopening in the same mode finds the memory, exactly when no stamp is zero |
| `ExecutorSpec.CreateSyncs` | src/backends/redb.rs:19-58 | a created file is in sync with the new store |
| `ExecutorSpec.RunKeepsRecord` | src/executor.rs:163-267 | no statement but a delete of that id touches a stored record |
| `ExecutorSpec.WrittenIsRead` | src/executor.rs:176-225 | a written payload is read back after any statements that did not delete it, reopened or not |
| `ExecutorSpec.RecordExactly` | src/executor.rs:176-196 | the record a write statement stores, field by field: sealed payload in its envelope, salt and stamp as given; or which failure |
| `ExecutorSpec.DecryptedExactly` | src/executor.rs:211-224 | what a stored record opens to: the tier and the unsealed text, if it is UTF-8; or which failure |
| `ExecutorSpec.WriteAnswers` | src/executor.rs:176-207 | a write statement: a record that cannot be made, then a known id, then the save |
| `ExecutorSpec.ReadAnswers` | src/executor.rs:209-225 | a read statement: a failed save, then an unknown id, then a refused reader, then a payload that does not open |
| `ExecutorSpec.DeleteAnswers` | src/executor.rs:263-267 | a delete statement: an unknown id, then another owner, then the save |
| `Primes.PrimesInOrder` | src/arpi.rs:252-267 | the table the constants are taken from is the first 64 primes: 2, and after each prime the next one |
| `Sha256.RoundConstants` | src/arpi.rs:252-263 | the 64 round constants are the first 32 bits of the fractional parts of the cube roots of the primes of that table (section 4.2.2 of FIPS 180-4) |
| `Sha256.InitialConstants` | src/arpi.rs:264-267 | the initial hash value is that of the square roots of its first eight primes (section 5.3.3) |
| `Sha256.ZerosFill` | src/arpi.rs:270-273 | the padding loop adds the least number of zeros that reaches 56 modulo 64 |
| `Sha256.Padded` | src/arpi.rs:268-274 | the padded message is a multiple of 64 bytes |
| `Sha256.PaddingInjective` | src/arpi.rs:268-274 | different messages have different padded messages, of whatever length |
| `Sha256.PadMessage` | src/arpi.rs:268-274 | the push-until loop ends and yields the padded message |
| `Sha256.MessageSchedule` | src/arpi.rs:276-292 | the array `w` is the recursive message schedule of section 6.2.2 |
| `Sha256.ScheduleStep` | src/arpi.rs:285-292 | the rotations and sums of the code are the small sigmas of the standard |
| `Sha256.RoundStep` | src/arpi.rs:295-314 | the rotations and sums of the code are the big sigmas, choice and majority of the standard |
| `Sha256.CompressBlock` | src/arpi.rs:293-322 | the eight running variables follow the recursive rounds, and are added into the state |
| `Sha256.HashInPlace` | src/arpi.rs:275-323 | the loop over blocks is the recursion over the padded message |
| `Sha256.ComputeSha256` | src/arpi.rs:251-329 | the digest computed in place is the one FIPS 180-4 defines, for every message |
| `Sha256Example.DigestOfAbc` | src/arpi.rs:251-329 | and for the message of the published one-block example ("abc") it is the published digest, computed word by word and round by round |
| `Syndrome.MaskedParity` | src/lib.rs:429-431 | the parity of a masked word is one bit of the exclusive or of the codes of its set bits |
| `Syndrome.FoldParity` | src/lib.rs:475-546 | a whole line: five masked words folded together |
| `Syndrome.SyndromeIsCodes` | src/lib.rs:445-558 | the nine masked parities are the exclusive or of p + 1 over all set bits p of the 320 |
| `Syndrome.SyndromeLinear` | src/lib.rs:445-558 | the syndrome of an exclusive or is the exclusive or of the syndromes |
| `Syndrome.FlipsDetected` | src/lib.rs:445-558 | in every block every flip of one bit, or of two different bits, changes the syndrome |
| `Syndrome.UnseenExactly` | src/lib.rs:445-558 | two blocks share a syndrome if and only if the codes of the bits they differ in cancel |
| `Syndrome.ThreeFlips` | src/lib.rs:445-558 | any three flips go unseen, in any block, if and only if the code of one is the exclusive or of the other two |
| `Syndrome.ThreeFlipsUnseen` | src/lib.rs:445-558 | so two is the limit: the first three bits, for one, can be flipped unseen |
| `Syndrome.DigestExactly` | src/lib.rs:433-563 | on the 32 output bytes: two 84-byte inputs share a digest if and only if record identity and action are the same and the codes of the changed bits of bytes 44 to 83 cancel |
| `Syndrome.TamperDetected` | src/lib.rs:428-563 | so one or two flipped bits of bytes 44 to 83 always change the digest |
| `Wire.Encode` | src/arpi.rs:116-125 | the buffer filled field by field is the wire form |
| `Wire.HeaderParts` | src/arpi.rs:9-16 | the offset of every field on the wire |
| `Wire.HeaderRoundTrip` | src/arpi.rs:116-148 | a header decodes to itself exactly when it has the protocol's version |
| `Wire.HeaderAccepts` | src/arpi.rs:128-148 | the decoder accepts exactly version 1 and the three tiers, and re-encodes unchanged |
| `Wire.ResponseRoundTrip` | src/arpi.rs:177-193 | a response decodes to itself |
| `Wire.ResponseAccepts` | src/arpi.rs:185-193 | exactly which bytes decode, and that they re-encode unchanged |
| `Wire.NewIsValid` | src/arpi.rs:79-90 | a header as built is sealed and still valid when it comes off the wire |
| `Wire.SealInputInjective` | src/arpi.rs:100-108 | the sealed bytes determine every field but the seal |
| `Wire.SealBinds` | src/arpi.rs:100-113 | two verified headers with one seal are one header, or SHA-256 collides |
| `Wire.PayloadUnsealed` | src/arpi.rs:230-238 | validation says nothing about the payload: any other payload is as valid |
| `Wire.ValidExactly` | src/arpi.rs:230-238 | a response is valid exactly when its version is 1 and its last 32 header bytes are the SHA-256 of the 46 before them |
| `Wire.TierBytes` | src/arpi.rs:35-60 | the three tiers are 0, 1 and 2 on the wire |
| `Mobile.Encode` | src/mobile/mod.rs:112-122 | the buffer filled field by field is the 78-byte form |
| `Mobile.HeaderParts` | src/mobile/mod.rs:49-57 | the offset of every field in the 78 bytes |
| `Mobile.HeaderRoundTrip` | src/mobile/mod.rs:71-122 | a header decodes to itself exactly when magic, tier and reserved bytes are legal |
| `Mobile.HeaderAccepts` | src/mobile/mod.rs:71-110 | the decoder accepts exactly the stated byte patterns and re-encodes them unchanged |
| `Mobile.PackedCounter` | src/mobile/mod.rs:125-135 | a packed record gives back its counter and its value |
| `Mobile.MobileDb.Open` | src/mobile/mod.rs:145-170 | the counter read on open: absent is zero, eight bytes, or an error |
| `Mobile.MobileDb.NextCounter` | src/mobile/mod.rs:172-177 | the counter advances by one or is exhausted; it never wraps |
| `Mobile.MobileDb.PersistCounter` | src/mobile/mod.rs:179-183 | the counter of memory is written under its key |
| `Mobile.MobileDb.Insert` | src/mobile/mod.rs:185-209 | checks, counter in memory, record, counter on disk, in this order, with either write failing |
| `Mobile.MobileDb.Query` | src/mobile/mod.rs:211-220 | the value behind the header, or nothing |
| `Mobile.MobileDb.Delete` | src/mobile/mod.rs:222-230 | the key is removed, and whether it was there |
| `Mobile.RejectedChangesNothing` | src/mobile/mod.rs:185-199 | a rejected insert changes nothing on disk or in memory |
| `Mobile.AdmitExact` | src/mobile/mod.rs:185-199 | which inserts are let through, and with which counter |
| `Mobile.StepExact` | src/mobile/mod.rs:145-230 | one step keeps the bound on stored counters and never lowers the persisted one, exactly when it neither deletes the counter's key with the counter above zero nor leaves a record under that key |
| `Mobile.RunKeeps` | src/mobile/mod.rs:145-230 | on every run without such a step, with any crashes and failed writes, the persisted counter never decreases, and no stored counter exceeds it by more than one and the failed writes |
| `Mobile.EmptyPartition` | src/mobile/mod.rs:158-167 | an empty partition reads as counter zero, so the runs may start there |
| `Mobile.ClosedUntilOpen` | src/mobile/mod.rs:145-170 | after a close no later step changes the database until it is opened again |
| `Mobile.CleanRunCounts` | src/mobile/mod.rs:145-209 | without failed writes the counter counts the finished inserts one by one, across crashes and reopening |
| `Mobile.UniqueStep` | src/mobile/mod.rs:145-230 | every step, whatever crashes or fails, keeps counters unique, except an open that finds a stored counter ahead of the persisted one; that one does not |
| `Mobile.UniqueRun` | src/mobile/mod.rs:145-230 | so no two records share a counter on any run in which no open finds that |
| `Mobile.OvertakenDuplicates` | src/mobile/mod.rs:145-209 | after such an open legal inserts under a fresh key reach a counter that is stored already |
| `Mobile.OpenExactly` | src/mobile/mod.rs:145-170 | opening keeps counters unique on every run that follows if and only if no stored counter exceeds the persisted one |
| `Mobile.LegalHeader` | src/mobile/mod.rs:71-122 | a header the checks accept exists for every value, so those inserts can be made |
| `Mobile.InsertedIsFound` | src/mobile/mod.rs:185-220 | what was inserted is what a query returns |
| `Mobile.InsertStores` | src/mobile/mod.rs:185-209 | what an insert leaves, byte by byte: the header given with the next counter in its bytes 4 to 11, then the value; and the counter under its key |
| `Mobile.CrashDuplicates` | src/mobile/mod.rs:203-207 | the crash between the two steps is one way there: the next record gets the same counter as the one that survived |
| `Mobile.FailuresRunAhead` | src/mobile/mod.rs:179-209 | n failed counter writes and a crash put a record ahead by n and one, for every n: the bound is tight |
| `Mobile.DeletingTheCounterResets` | src/mobile/mod.rs:15-15 | the counter's key is a record key: deleting it sets the counter to zero |
| `Mobile.CounterKeyAsRecord` | src/mobile/mod.rs:15-15 | a record under that key, with a crash after it, closes the database for good |
| `Policy.PolicyEngine.Evaluate` | src/policy.rs:282-357 | the early-return loops permit exactly what the deny-overrides formula permits; the reason given is the first rule or delegation of the strongest kind that applies |
| `Policy.PolicyEngine.FindDelegation` | src/policy.rs:314-335 | the walk over the map of delegations, in any order, finds the first delegation in the owner's list that gives what is asked |
| `Policy.PolicyEngine.FirstRule` | src/policy.rs:302-347 | the first matching rule of an effect, if there is one |
| `Policy.PolicyEngine.Delegate` | src/policy.rs:269-274 | the delegation is added to its owner's list |
| `Policy.PolicyEngine.AddRule` | src/policy.rs:277-279 | the rule is added at the end |
| `Policy.TierCeiling` | src/policy.rs:225-244 | the owner always may; nobody else ever may on Critical data |
| `Policy.OrderIrrelevant` | src/policy.rs:282-357 | the order of rules and delegations does not matter |
| `Policy.DenyRevokes` | src/policy.rs:302-312 | a new deny rule revokes exactly what it matches, the owner excepted |
| `Policy.AllowGrants` | src/policy.rs:337-347 | a new allow rule never revokes and grants exactly what it matches below Critical and undenied |
| `Policy.DelegationGrants` | src/policy.rs:314-335 | a new delegation never revokes and grants exactly what its role gives its subject |
| `Policy.TimeRevokes` | src/policy.rs:141-143 | advancing time never grants |
| `Policy.GrantorUnchecked` | src/policy.rs:126-127 | what is permitted does not depend on who granted the delegations |
| `Policy.RolesNest` | src/policy.rs:61-92 | the roles are nested; only the owner role grants or administers |
| `Policy.PermitsExactly` | src/policy.rs:282-357 | field by field, the wildcard as the byte 42: the owner may; below Critical so may whoever no deny rule covers by subject, resource prefix and action, and a live delegation or an allow rule lets |
| `Policy.MatchesExactly` | src/policy.rs:190-197 | a rule reaches a request by its own subject or the wildcard, a prefix of the resource or the wildcard, and its action |
| `Policy.RolesExactly` | src/policy.rs:61-92 | what each role allows on each tier |
| `Policy.GivesExactly` | src/policy.rs:141-143 | a delegation serves its subject through its last second, and for ever when that is zero |
| `Policy.RuleElsewhere` | src/policy.rs:190-197 | a new rule changes nothing for a request it does not cover |
| `Migration.HexRoundTrip` | src/migration.rs:318-327 | decoding hexadecimal text gives back the bytes |
| `Migration.UnhexCanonical` | src/migration.rs:322-327 | text that decodes encodes back to itself exactly when it is lower-case digits |
| `Migration.HexDigitIs` | src/migration.rs:318-320 | the digits are 0 to 9 and a to f, in this order |
| `Migration.UnhexAccepts` | src/migration.rs:322-327 | text decodes exactly when it is pairs of digits in either case; a plus sign is let through for a first zero |
| `Migration.UnhexForgets` | src/migration.rs:322-327 | texts that differ in case, or in such a plus sign, decode alike |
| `Migration.RecordRoundTrip` | src/migration.rs:36-82 | a record survives the wire exactly when id and owner are nonempty and the stamp is not zero |
| `Migration.ExportedFields` | src/migration.rs:37-46 | an exported record carries every field, the bytes in hexadecimal |
| `Migration.ToRecordExactly` | src/migration.rs:49-82 | a line becomes a record exactly when it carries the fields of that record and the record is legal |
| `Migration.LinesOfJoin` | src/migration.rs:126-132 | joined lines split back into the same lines |
| `Migration.LinesStep` | src/migration.rs:147-150 | text is cut at its newlines, and one return before a newline goes too |
| `Migration.BlankAfter` | src/migration.rs:161-161 | a line is blank exactly when each of its characters is Unicode white space: here whatever begins with the form of a code point |
| `Migration.BlankStarts` | src/migration.rs:161-161 | and here that a blank line, if not empty, begins with such a form |
| `Migration.ExportedExactly` | src/migration.rs:96-114 | exactly the records of the owner and tier asked for are exported, each as often as it occurs, and the header says which |
| `Migration.ParseEdmExactly` | src/migration.rs:146-168 | an empty text, a bad header, another version and the first bad line, by its number, are refused in this order; else every line that is not blank is read |
| `Migration.ExportParses` | src/migration.rs:96-168 | parsing an export gives its header and the selected records in order |
| `Migration.Import` | src/migration.rs:172-207 | imported, skipped and refused add up to the input; kept and refused come out in order |
| `Migration.KeptInOrder` | src/migration.rs:172-207 | legal records with no conflict all come through, in order |
| `Migration.FateExactly` | src/migration.rs:172-207 | a record whose id exists is skipped or refused as told; any other, and every one to be overwritten, is kept or refused for what is wrong with it |
| `Migration.KeptExactly` | src/migration.rs:172-207 | so skipping and refusing keep what they keep of the unknown ids, and overwriting keeps all it can |
| `Migration.RefusedExactly` | src/migration.rs:172-207 | a conflict is reported exactly for the ids that exist, and only where told to |
| `Migration.MigrationRoundTrip` | src/migration.rs:96-207 | export, parse and conflict-free import return the selected records |
| `Migration.Transform` | src/migration.rs:221-238 | every record is transformed in place, in the order of the options |
| `Migration.TransformedExactly` | src/migration.rs:221-238 | owner and tier are replaced where told, the id is prefixed and then stripped, and the rest stays |
| `Migration.PrefixThenStrip` | src/migration.rs:229-236 | prefixing and stripping the same prefix is the identity, in two passes or one |
| `Migration.StripThenPrefix` | src/migration.rs:229-236 | the other way round exactly on ids that carry the prefix |
| `Migration.TransformKeepsCiphertext` | src/migration.rs:221-238 | the ciphertext is carried over, so a changed id or tier leaves it bound to other associated data |
| `Migration.HashIds` | src/migration.rs:264-269 | the blob of sorted ids, hashed with the SHA-256 above |
| `Migration.BuildManifest` | src/migration.rs:253-276 | count, payload bytes, tier counts and id hash |
| `Migration.TotalPayloadExactly` | src/migration.rs:253-276 | the payload total is the length of all payloads one after another |
| `Migration.CountTierExactly` | src/migration.rs:253-276 | the count of a tier is how many records have it |
| `Migration.ManifestForgetsOrder` | src/migration.rs:253-276 | reordering the records changes nothing in the manifest |
| `Migration.MatchingManifests` | src/migration.rs:279-283 | if no id of the one set holds a zero byte, the two manifests match, whatever the other set, if and only if the ids are the same with their multiplicities and the payloads have the same total size, or the two id blobs collide |
| `Migration.NulIdsCollide` | src/migration.rs:253-283 | without that condition it fails: where the bytes around a zero byte may belong to either of two ids, manifests of records with different ids match |
| `Migration.NulIdsExample` | src/migration.rs:253-283 | and such records exist, of any size |
| `Migration.RetieringMatches` | src/migration.rs:279-283 | the same ids and the same total size always match: tiers, owners, contents and the split of the bytes among the records are not compared |
| `Eql.OnlyOneMatches` | src/eql/grammar.pest:8-21 | no input matches two of the eight alternatives |
| `Eql.OrderOfAlternatives` | src/eql/grammar.pest:21-21 | so the order of the alternatives is irrelevant |
| `Eql.NothingAfterPayload` | src/eql/grammar.pest:6-8 | after a payload there is nothing or a newline, never an AUTO EMBED |
| `Eql.ParsedWrite` | src/eql/parser.rs:52-59 | every parsed write has a grammatical id, a clean payload and no automatic embedding |
| `Sdk.WriteRoundTrip` | src/sdk.rs:121-126 | a printed WRITE parses to itself exactly when the id is grammatical and the payload clean |
| `Sdk.PrintedWriteReads` | src/sdk.rs:121-126 | what a printed WRITE parses to, for every id and every payload whatever: the first word of the id, a tier clause inside the id in place of the one printed, and the payload without the blanks before and the white space after it |
| `Sdk.MisreadExactly` | src/sdk.rs:121-126 | exactly which ids and payloads make it parse to another statement |
| `Sdk.TierOverridden` | src/sdk.rs:121-126 | an id followed by a tier clause is written in that tier, and the tier asked for becomes payload, with nothing after it if the payload is blank |
| `Eql.ParsedNamed` | src/eql/parser.rs:61-76 | every parsed read or delete names a grammatical id |
| `Sdk.PrintedNamedReads` | src/sdk.rs:132-177 | what a printed READ or DELETE parses to, for every id: the id without the blanks before and the white space after it is named, if that is a grammatical id, and nothing otherwise |
| `Sdk.NamedRoundTrip` | src/sdk.rs:132-177 | printed READ and DELETE parse to themselves exactly for grammatical ids, and name another record exactly for ids that become grammatical without the blanks before and the white space after them |
| `Sdk.ListRoundTrip` | src/sdk.rs:151-156 | a printed LIST gives back its filter |
| `Eql.FloatLongest` | src/eql/grammar.pest:19-19 | what is matched is an optional sign, digits and an optional fraction, and is the longest such prefix; without one nothing matches |
| `Commands.StatementRoundTrip` | src/eql/grammar.pest:4-22 | of all eight statements: the text of one parses to it exactly when it is well formed (grammatical id, clean payload, nonempty vector of literals, digits for a limit) and its limit fits |
| `Commands.ParsedWellFormed` | src/eql/parser.rs:14-37 | and every statement the parser yields is of this kind |
| `Commands.OtherReads` | src/eql/parser.rs:78-137 | a printed AUDIT, EMBED, SEARCH or AUTO EMBED that is well formed can be refused for nothing but its limit |
| `Commands.LimitExactly` | src/eql/parser.rs:117-127 | the limits that fit: all of up to nineteen digits, and any other up to 18446744073709551615 |
| `Commands.DecimalPlaces` | src/eql/parser.rs:123-124 | digits are read as a decimal number |
| `Commands.AnyCase` | src/eql/grammar.pest:8-17 | a command is read alike whatever the case of its first keyword |
| `Vector.VectorIndex.Insert` | src/vector.rs:50-61 | the first entry of the id, or a new last one, gets the normalised point; every other id keeps its own, unique ids stay unique, and the graph is rebuilt; repeated ids in a loaded file are covered |
| `Vector.VectorIndex.Remove` | src/vector.rs:84-90 | the first entry of the id is dropped and no other; the id is gone exactly when it had at most one entry; every other id keeps its point, in order |
| `Vector.VectorIndex.Position` | src/vector.rs:53-53 | the first position of an id, if it has one |
| `Vector.VectorIndex.Save` | src/vector.rs:99-117 | the file written length by length and word by word |
| `Vector.VectorIndex.LoadFile` | src/vector.rs:120-148 | the file read back by the loops is what the format says |
| `Vector.FileRoundTrip` | src/vector.rs:99-148 | a saved index loads as it was exactly when its lengths fit 32 bits and its ids are UTF-8 |
| `Vector.FileParts` | src/vector.rs:99-148 | the file begins with the number of entries, and what follows the last entry is not read |
| `Vector.EntryParts` | src/vector.rs:99-117 | the offset of every length, id and word of an entry |

## Left out

- HTTP, gRPC and CLI plumbing, the Python and TypeScript clients, and the Kotlin, FFI and JNI shims: they forward to the operations modelled here.
- HNSW search, embeddings and vector normalisation: floating point and a network service; the vector index keeps floats as opaque words and takes normalisation as a parameter.
- The statements that call the embedding service, and the formatting of audit lines for display.
- I/O errors of Redb and Fjall inside a transaction or batch, JSON serialisation failures, and power loss below one batch: a transaction or batch happens or does not. The mobile model does have failing writes.
- The executor over Fjall: its save does nothing, so its behaviour is that of the Fjall backend.
- Compliance reports: they count records and log entries, and list records past their retention age.
- The accumulated byte comparison of two MACs is equality here; constant-time execution and key zeroisation are not claimed by the code either.
- JSON text: a row or checkpoint cell is malformed or holds a value; number and string syntax are the library's.
- The model digest of inputs that are not 84 bytes long, where the code claims nothing.
- Reason strings of access decisions and error texts: the rule, role or cause is kept instead of its formatting.
- `unhex` on text that is not ASCII: splitting inside a multi-byte character stops the program, here it is undecodable text.
- Float values of EMBED and SEARCH: the literals matched are kept as text.
- The tier of a printed command is one of the three words the client documents; the client upper-cases and prints whatever text it is given.
- `from_utf8_lossy` in a mobile query: the stored bytes are returned as they are.
- The bit count of SHA-256 wraps at 2^61 bytes as in a release build; a debug build stops there.
- The older router in `src/backend.rs`, which is not part of the crate.
