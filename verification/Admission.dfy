/**
 Who may open a database, and what an accepted database must hold.

 The conditions are on the fields of the checkpoint, the key derived from the
 secret, and what the tables hold; the database may be any content whatever.
 */
module Admission {
  import opened Base
  import opened Bytes
  import opened Crypto
  import opened Audit
  import opened AuditTable
  import opened Commitment
  import opened Checkpoint
  import opened Envelope
  import opened Records
  import opened RecordTable
  import opened StoreSpec
  import opened RedbSpec
  import opened FjallSpec

  // ---- The checkpoint ----------------------------------------------------

  /** The MAC a key makes for what a checkpoint says. */
  function MacUnder(c: Crypto, key: Hash, sealed: AuthenticatedCheckpoint): Hash {
    c.keyedHash(c.contextKey(key), MacInput(sealed.expectedCount, sealed.expectedHead, sealed.recordCommitment))
  }

  /** The key derived from the secret and the stored salt made the stored MAC. */
  predicate Unlocks(c: Crypto, sealed: AuthenticatedCheckpoint, secret: Text) {
    var key := c.argon2(secret, sealed.storeSalt);
    key.Some? && sealed.version == 2 && sealed.mac == MacUnder(c, key.value, sealed)
  }

  /** An empty log next to records is never accepted. */
  predicate Accounted(seen: Observed) {
    seen.auditEmpty ==> seen.recordsEmpty
  }

  /** The condition under which a caller is let in, field by field. */
  predicate Admitted(c: Crypto, cell: CheckpointCell, seen: Observed, secret: Option<Text>, freshSalt: Hash) {
    match cell
    case Absent =>
      seen.auditEmpty && seen.recordsEmpty && (secret.Some? ==> c.argon2(secret.value, freshSalt).Some?)
    case Legacy(plain) =>
      secret.None? && plain.expectedCount == seen.count && plain.expectedHead == seen.head && Accounted(seen)
    case Authenticated(sealed) =>
      secret.Some? && Unlocks(c, sealed, secret.value) && sealed.expectedCount == seen.count
      && sealed.expectedHead == seen.head && sealed.recordCommitment == seen.commitment && Accounted(seen)
    case Malformed => false
  }

  /** The key cannot be derived, and nothing is found wrong before it is needed. */
  predicate Underived(c: Crypto, cell: CheckpointCell, seen: Observed, secret: Option<Text>, freshSalt: Hash) {
    secret.Some?
    && match cell
       case Absent => seen.auditEmpty && seen.recordsEmpty && c.argon2(secret.value, freshSalt).None?
       case Authenticated(sealed) => c.argon2(secret.value, sealed.storeSalt).None?
       case _ => false
  }

  /** The salt and the key a later seal is made with. */
  predicate Keyed(c: Crypto, cell: CheckpointCell, secret: Option<Text>, freshSalt: Hash,
          context: Option<AuthContext>)
  {
    match secret
    case None => context.None?
    case Some(text) =>
      var salt := if cell.Authenticated? then cell.sealed.storeSalt else freshSalt;
      var key := c.argon2(text, salt);
      context.Some? && key.Some? && context.value.storeSalt == salt && context.value.macKey == c.contextKey(key.value)
  }

  lemma AdmittedDerived(c: Crypto, cell: CheckpointCell, seen: Observed, secret: Option<Text>, freshSalt: Hash)
    requires Admitted(c, cell, seen, secret, freshSalt)
    ensures !Underived(c, cell, seen, secret, freshSalt)
  {
  }

  /** Exactly the admitted callers are let in; all others learn what is wrong. */
  lemma AuthoriseAdmits(c: Crypto, cell: CheckpointCell, seen: Observed, secret: Option<Text>, freshSalt: Hash)
    ensures Authorise(c, cell, seen, secret, freshSalt).Success? <==> Admitted(c, cell, seen, secret, freshSalt)
    ensures Authorise(c, cell, seen, secret, freshSalt).Failure? ==>
      Authorise(c, cell, seen, secret, freshSalt).error
        == if Underived(c, cell, seen, secret, freshSalt) then KeyDerivationFailed else AuditChainBroken
    ensures Authorise(c, cell, seen, secret, freshSalt).Success? ==>
      (Authorise(c, cell, seen, secret, freshSalt).value.0.Genesis? <==> cell == Absent)
      && Keyed(c, cell, secret, freshSalt, Authorise(c, cell, seen, secret, freshSalt).value.1)
  {
    hide MacInput;
  }

  /** The checkpoint a store writes, field by field. */
  predicate Anchored(c: Crypto, cell: CheckpointCell, count: u64, head: Hash, commitment: Hash,
          context: Option<AuthContext>)
  {
    match context
    case None => cell.Legacy? && cell.checkpoint.expectedCount == count && cell.checkpoint.expectedHead == head
    case Some(auth) =>
      cell.Authenticated? && cell.sealed.version == 2 && cell.sealed.expectedCount == count
      && cell.sealed.expectedHead == head && cell.sealed.recordCommitment == commitment
      && cell.sealed.storeSalt == auth.storeSalt
      && cell.sealed.mac == c.keyedHash(auth.macKey, MacInput(count, head, commitment))
  }

  lemma CellIsAnchored(c: Crypto, count: u64, head: Hash, commitment: Hash, context: Option<AuthContext>)
    ensures Anchored(c, CellFor(c, count, head, commitment, context), count, head, commitment, context)
  {
    hide MacInput;
  }

  // ---- Redb files --------------------------------------------------------

  /** What a reader observes of a log and records. */
  ghost function Facts(c: Crypto, log: Log, recordsEmpty: bool, commitment: Hash): Observed
    requires |log| < U64_LIMIT
  {
    Observed(log == [], recordsEmpty, |log|, Head(log), commitment)
  }

  /** A load accepts a file exactly when both tables read and the caller is admitted for what they hold. */
  ghost predicate LoadAdmits(c: Crypto, disk: RedbDisk, secret: Option<Text>, salt: Hash) {
    var records, audit := ReadRecords(AnyTier, disk.records), ReadAudit(c, disk.audit);
    records.Success? && audit.Success? && |audit.value| < U64_LIMIT
    && Admitted(c, disk.checkpoint,
                Facts(c, audit.value, records.value == map[], MapCommitment(c, StampsOf(records.value))), secret, salt)
  }

  /** The first thing found wrong with a file: a row, the log, the key, or the checkpoint. */
  ghost function LoadError(c: Crypto, disk: RedbDisk, secret: Option<Text>, salt: Hash): EdisonError {
    var records, audit := ReadRecords(AnyTier, disk.records), ReadAudit(c, disk.audit);
    if records.Failure? then records.error
    else if audit.Failure? || |audit.value| >= U64_LIMIT then AuditChainBroken
    else
      var seen := Facts(c, audit.value, records.value == map[], MapCommitment(c, StampsOf(records.value)));
      if Underived(c, disk.checkpoint, seen, secret, salt) then KeyDerivationFailed else AuditChainBroken
  }

  lemma LoadExactly(c: Crypto, disk: RedbDisk, secret: Option<Text>, salt: Hash)
    ensures LoadSpec(c, Some(disk), secret, salt).0.Success? <==> LoadAdmits(c, disk, secret, salt)
    ensures LoadSpec(c, Some(disk), secret, salt).0.Success? ==>
      LoadSpec(c, Some(disk), secret, salt).0.value
        == StoreState(ReadRecords(AnyTier, disk.records).value, ReadAudit(c, disk.audit).value)
    ensures LoadSpec(c, Some(disk), secret, salt).0.Failure? || disk.checkpoint != Absent ==>
      LoadSpec(c, Some(disk), secret, salt).1 == Some(disk)
    ensures LoadSpec(c, Some(disk), secret, salt).0.Failure? ==>
      LoadSpec(c, Some(disk), secret, salt).0.error == LoadError(c, disk, secret, salt)
  {
    hide ReadRecords, MapCommitment, Authorise, Admitted, Underived, CellFor, Head, IsAuditTable;
    var records, audit := ReadRecords(AnyTier, disk.records), ReadAudit(c, disk.audit);
    if records.Success? && audit.Success? && |audit.value| < U64_LIMIT {
      AuthoriseAdmits(c, disk.checkpoint, Seen(c, records.value, audit.value), secret, salt);
      assert disk.(checkpoint := disk.checkpoint) == disk;
    }
  }

  /** A save is let through exactly when the log on disk reads and the caller is admitted for what is there. */
  ghost predicate SaveAdmits(c: Crypto, disk: RedbDisk, secret: Option<Text>, salt: Hash) {
    var records, audit := ReadRecords(AnyTier, disk.records), ReadAudit(c, disk.audit);
    audit.Success? && |audit.value| < U64_LIMIT && (secret.Some? ==> records.Success?)
    && Admitted(c, disk.checkpoint,
                Facts(c, audit.value, disk.records == map[],
                      if secret.Some? then MapCommitment(c, StampsOf(records.value)) else ZeroHash()), secret, salt)
  }

  /** What a refused save answers: the key, the number of entries, or what is found wrong. */
  ghost function SaveError(c: Crypto, s: StoreState, disk: RedbDisk, secret: Option<Text>, salt: Hash): EdisonError {
    var records, audit := ReadRecords(AnyTier, disk.records), ReadAudit(c, disk.audit);
    if !Chain(c, s.log) || audit.Failure? || |audit.value| >= U64_LIMIT || (secret.Some? && records.Failure?) then
      AuditChainBroken
    else
      var commitment := if secret.Some? then MapCommitment(c, StampsOf(records.value)) else ZeroHash();
      var seen := Facts(c, audit.value, disk.records == map[], commitment);
      if Underived(c, disk.checkpoint, seen, secret, salt) then KeyDerivationFailed
      else if SaveAdmits(c, disk, secret, salt) && audit.value <= s.log then SaveFailed
      else AuditChainBroken
  }

  /**
   Over any file: a save succeeds exactly for an admitted caller whose log is a chain
   that extends the log on disk. Then the tables are those of the handle, anchored
   field by field; otherwise what was there is there still.
   */
  lemma SaveExactly(c: Crypto, s: StoreState, file: Option<RedbDisk>, secret: Option<Text>, salt: Hash)
    ensures var disk := if file.Some? then file.value else RedbDisk(map[], map[], Absent);
      var (r, after) := SaveSpec(c, s, file, secret, salt);
      (r.Success? <==> Chain(c, s.log) && |s.log| < U64_LIMIT && SaveAdmits(c, disk, secret, salt)
                       && ReadAudit(c, disk.audit).value <= s.log)
      && (r.Failure? ==> after == (if Chain(c, s.log) then Some(disk) else file)
                         && r.error == SaveError(c, s, disk, secret, salt))
      && (r.Success? ==> after.Some? && Written(c, s, disk.checkpoint, after.value, secret, salt))
  {
    hide ReadRecords, MapCommitment, Authorise, Admitted, CellFor, Head, Chain, EncodeAudit, Anchored, Keyed, Underived;
    hide IsAuditTable;
    var disk := if file.Some? then file.value else EMPTY_DISK;
    var records, audit := ReadRecords(AnyTier, disk.records), ReadAudit(c, disk.audit);
    if audit.Success? && |audit.value| < U64_LIMIT && (secret.Some? ==> records.Success?) {
      var commitment := if secret.Some? then MapCommitment(c, StampsOf(records.value)) else ZeroHash();
      var seen := Facts(c, audit.value, disk.records == map[], commitment);
      AuthoriseAdmits(c, disk.checkpoint, seen, secret, salt);
      var permit := Permit(c, disk, secret, salt);
      if permit.Success? {
        AdmittedDerived(c, disk.checkpoint, seen, secret, salt);
      }
      if permit.Success? && |s.log| < U64_LIMIT {
        CellIsAnchored(c, |s.log|, Head(s.log), MapCommitment(c, StampsOf(s.records)), permit.value.1);
      }
    }
  }

  /** The disk after a save, field by field. */
  ghost predicate Written(c: Crypto, s: StoreState, before: CheckpointCell, disk: RedbDisk, secret: Option<Text>,
          salt: Hash)
    requires |s.log| < U64_LIMIT
  {
    disk.records == EncodeRecords(s.records) && disk.audit == EncodeAudit(s.log)
    && exists context ::
      Keyed(c, before, secret, salt, context)
      && Anchored(c, disk.checkpoint, |s.log|, Head(s.log), MapCommitment(c, StampsOf(s.records)), context)
  }

  /** Two secrets that open one file have one MAC under their two keys. */
  lemma SecretsShareMac(c: Crypto, disk: RedbDisk, a: Text, b: Text, salt: Hash)
    requires disk.checkpoint.Authenticated?
    requires LoadSpec(c, Some(disk), Some(a), salt).0.Success? && LoadSpec(c, Some(disk), Some(b), salt).0.Success?
    ensures var sealed := disk.checkpoint.sealed;
      var k, l := c.argon2(a, sealed.storeSalt), c.argon2(b, sealed.storeSalt);
      k.Some? && l.Some? && MacUnder(c, k.value, sealed) == MacUnder(c, l.value, sealed)
  {
    hide LoadSpec, ReadRecords, ReadAudit, MapCommitment, MacInput, Head;
    LoadExactly(c, disk, Some(a), salt);
    LoadExactly(c, disk, Some(b), salt);
  }

  /** A file one secret opens is closed, unchanged, to every secret whose key makes another MAC. */
  lemma WrongSecretRefused(c: Crypto, disk: RedbDisk, right: Text, wrong: Text, salt: Hash)
    requires disk.checkpoint.Authenticated? && LoadSpec(c, Some(disk), Some(right), salt).0.Success?
    requires var sealed := disk.checkpoint.sealed;
      var k, l := c.argon2(right, sealed.storeSalt), c.argon2(wrong, sealed.storeSalt);
      l.Some? && (k.Some? ==> MacUnder(c, k.value, sealed) != MacUnder(c, l.value, sealed))
    ensures LoadSpec(c, Some(disk), Some(wrong), salt) == (Failure(AuditChainBroken), Some(disk))
  {
    hide ReadRecords, ReadAudit, MapCommitment, MacInput, Authorise, Head;
    LoadExactly(c, disk, Some(right), salt);
    LoadExactly(c, disk, Some(wrong), salt);
    var records, audit := ReadRecords(AnyTier, disk.records).value, ReadAudit(c, disk.audit).value;
    AuthoriseAdmits(c, disk.checkpoint, Seen(c, records, audit), Some(wrong), salt);
  }

  // ---- Fjall databases ---------------------------------------------------

  ghost predicate OpenAdmits(c: Crypto, db: FjallDb, secret: Option<Text>, salt: Hash) {
    var records, audit := ReadTiers(db), ReadAudit(c, db.audit);
    records.Success? && audit.Success? && |audit.value| < U64_LIMIT
    && Admitted(c, db.checkpoint,
                Facts(c, audit.value, records.value == map[], MapCommitment(c, StampsOf(records.value))), secret, salt)
  }

  /** The first thing found wrong with a database: the log, a row, the key, or the checkpoint. */
  ghost function OpenError(c: Crypto, db: FjallDb, secret: Option<Text>, salt: Hash): EdisonError {
    var records, audit := ReadTiers(db), ReadAudit(c, db.audit);
    if audit.Failure? then AuditChainBroken
    else if records.Failure? then records.error
    else if |audit.value| >= U64_LIMIT then AuditChainBroken
    else
      var seen := Facts(c, audit.value, records.value == map[], MapCommitment(c, StampsOf(records.value)));
      if Underived(c, db.checkpoint, seen, secret, salt) then KeyDerivationFailed else AuditChainBroken
  }

  /** An open accepts a database exactly when it reads and the caller is admitted; it caches what it read. */
  lemma OpenExactly(c: Crypto, db: FjallDb, secret: Option<Text>, salt: Hash)
    ensures FjallOpen(c, db, secret, salt).Success? <==> OpenAdmits(c, db, secret, salt)
    ensures FjallOpen(c, db, secret, salt).Failure? ==>
      FjallOpen(c, db, secret, salt).error == OpenError(c, db, secret, salt)
    ensures FjallOpen(c, db, secret, salt).Success? ==>
      Cached(c, FjallOpen(c, db, secret, salt).value, db, secret, salt)
  {
    hide ReadTiers, MapCommitment, Authorise, Admitted, CellFor, Head, Keyed, Anchored, Underived, IsAuditTable;
    var records, audit := ReadTiers(db), ReadAudit(c, db.audit);
    if records.Success? && audit.Success? && |audit.value| < U64_LIMIT {
      var commitment := MapCommitment(c, StampsOf(records.value));
      var seen := Facts(c, audit.value, records.value == map[], commitment);
      AuthoriseAdmits(c, db.checkpoint, seen, secret, salt);
      var verdict := Authorise(c, db.checkpoint, seen, secret, salt);
      if verdict.Success? {
        CellIsAnchored(c, 0, ZeroHash(), commitment, verdict.value.1);
        assert db.(checkpoint := db.checkpoint) == db;
      }
    }
  }

  /** What an opened backend holds of what it read. */
  ghost predicate Cached(c: Crypto, f: FjallState, db: FjallDb, secret: Option<Text>, salt: Hash)
    requires ReadTiers(db).Success? && ReadAudit(c, db.audit).Success?
  {
    var log, commitment := ReadAudit(c, db.audit).value, MapCommitment(c, StampsOf(ReadTiers(db).value));
    f.auditLen == |log| && f.auditTail == Head(log) && f.commitment == commitment
    && Keyed(c, db.checkpoint, secret, salt, f.auth)
    && f.db.critical == db.critical && f.db.personal == db.personal && f.db.noise == db.noise && f.db.audit == db.audit
    && if db.checkpoint == Absent then Anchored(c, f.db.checkpoint, 0, ZeroHash(), commitment, f.auth)
       else f.db.checkpoint == db.checkpoint
  }

  lemma FjallSecretsShareMac(c: Crypto, db: FjallDb, a: Text, b: Text, salt: Hash)
    requires db.checkpoint.Authenticated?
    requires FjallOpen(c, db, Some(a), salt).Success? && FjallOpen(c, db, Some(b), salt).Success?
    ensures var sealed := db.checkpoint.sealed;
      var k, l := c.argon2(a, sealed.storeSalt), c.argon2(b, sealed.storeSalt);
      k.Some? && l.Some? && MacUnder(c, k.value, sealed) == MacUnder(c, l.value, sealed)
  {
    hide FjallOpen, ReadTiers, ReadAudit, MapCommitment, MacInput, Head, Cached;
    OpenExactly(c, db, Some(a), salt);
    OpenExactly(c, db, Some(b), salt);
  }

  /** Whatever database an open accepts against a sealed cell holds the chain and the stamps that were sealed. */
  lemma OpenedChain(c: Crypto, db: FjallDb, secret: Text, salt: Hash)
    requires db.checkpoint.Authenticated? && FjallOpen(c, db, Some(secret), salt).Success?
    ensures ReadAudit(c, db.audit).Success? && ReadTiers(db).Success?
    ensures var log, records, sealed := ReadAudit(c, db.audit).value, ReadTiers(db).value, db.checkpoint.sealed;
      |log| < U64_LIMIT && db.audit == EncodeAudit(log) && Chain(c, log)
      && |log| == sealed.expectedCount && Head(log) == sealed.expectedHead
      && MapCommitment(c, StampsOf(records)) == sealed.recordCommitment
  {
    hide FjallOpen, ReadTiers, EncodeAudit, Chain, MapCommitment, MacInput, Head, Cached;
    OpenExactly(c, db, Some(secret), salt);
    ReadAuditSuccess(c, db.audit);
  }

  /** The same ids with the same stamps. */
  predicate SameStamps(a: RecordMap, b: RecordMap) {
    a.Keys == b.Keys && forall id | id in a :: a[id].createdAt == b[id].createdAt
  }

  lemma SameStampsOf(a: RecordMap, b: RecordMap)
    ensures StampsOf(a) == StampsOf(b) <==> SameStamps(a, b)
  {
    if StampsOf(a) == StampsOf(b) {
      assert a.Keys == StampsOf(a).Keys && b.Keys == StampsOf(b).Keys;
      assert forall id | id in a :: a[id].createdAt == StampsOf(a)[id] == StampsOf(b)[id] == b[id].createdAt;
    }
    if SameStamps(a, b) {
      assert StampsOf(a).Keys == StampsOf(b).Keys;
    }
  }

  /**
   Any two databases, however edited, that an authenticated open accepts under
   checkpoints with one salt and one MAC hold the same log and the same stamps, or
   the inputs found below collide under one of the three digests.
   */
  lemma OpenFixesHistory(c: Crypto, a: FjallDb, b: FjallDb, secret: Text, salt: Hash)
    returns (x: seq<byte>, y: seq<byte>)
    requires FjallOpen(c, a, Some(secret), salt).Success? && FjallOpen(c, b, Some(secret), salt).Success?
    requires a.checkpoint.Authenticated? && b.checkpoint.Authenticated?
    requires a.checkpoint.sealed.storeSalt == b.checkpoint.sealed.storeSalt
    requires a.checkpoint.sealed.mac == b.checkpoint.sealed.mac
    ensures ReadAudit(c, a.audit).Success? && ReadAudit(c, b.audit).Success?
    ensures ReadTiers(a).Success? && ReadTiers(b).Success?
    ensures var key := c.argon2(secret, a.checkpoint.sealed.storeSalt);
      key.Some?
      && ((ReadAudit(c, a.audit).value == ReadAudit(c, b.audit).value
           && SameStamps(ReadTiers(a).value, ReadTiers(b).value))
          || Collides(i => c.keyedHash(c.contextKey(key.value), i), x, y)
          || Collides(c.sha256, x, y) || Collides(c.blake3, x, y))
  {
    hide FjallOpen, ReadTiers, ReadAudit, EncodeAudit, Chain, MapCommitment, MacInput, Head, Cached, SameStamps;
    var sa, sb := a.checkpoint.sealed, b.checkpoint.sealed;
    OpenExactly(c, a, Some(secret), salt);
    OpenExactly(c, b, Some(secret), salt);
    OpenedChain(c, a, secret, salt);
    OpenedChain(c, b, secret, salt);
    x, y := OneMacOneHistory(c, c.contextKey(c.argon2(secret, sa.storeSalt).value), sa, sb,
                             ReadAudit(c, a.audit).value, ReadAudit(c, b.audit).value,
                             ReadTiers(a).value, ReadTiers(b).value);
  }

  /** Two checkpoints with one MAC under one key that tell of two histories. */
  lemma OneMacOneHistory(c: Crypto, key: Hash, a: AuthenticatedCheckpoint, b: AuthenticatedCheckpoint, s: Log, t: Log,
                         records: RecordMap, other: RecordMap)
    returns (x: seq<byte>, y: seq<byte>)
    requires a.mac == c.keyedHash(key, MacInput(a.expectedCount, a.expectedHead, a.recordCommitment))
    requires b.mac == c.keyedHash(key, MacInput(b.expectedCount, b.expectedHead, b.recordCommitment)) && a.mac == b.mac
    requires Chain(c, s) && |s| == a.expectedCount && Head(s) == a.expectedHead
    requires Chain(c, t) && |t| == b.expectedCount && Head(t) == b.expectedHead
    requires MapCommitment(c, StampsOf(records)) == a.recordCommitment
    requires MapCommitment(c, StampsOf(other)) == b.recordCommitment
    ensures (s == t && SameStamps(records, other)) || Collides(i => c.keyedHash(key, i), x, y)
         || Collides(c.sha256, x, y) || Collides(c.blake3, x, y)
  {
    hide Chain, MapInput, MacInput, HashInput, ZeroHash, SameStamps, Head;
    x := MacInput(a.expectedCount, a.expectedHead, a.recordCommitment);
    y := MacInput(b.expectedCount, b.expectedHead, b.recordCommitment);
    if x == y {
      MacInputInjective(a.expectedCount, a.expectedHead, a.recordCommitment,
                        b.expectedCount, b.expectedHead, b.recordCommitment);
      CommitmentBinds(c, StampsOf(records), StampsOf(other));
      SameStampsOf(records, other);
      if StampsOf(records) == StampsOf(other) {
        x, y := HeadFixesHistory(c, s, t);
      } else {
        x, y := MapInput(StampsOf(records)), MapInput(StampsOf(other));
      }
    }
  }

  /** The same for Redb files. */
  lemma CheckpointFixesHistory(c: Crypto, a: RedbDisk, b: RedbDisk, secret: Text, salt: Hash)
    returns (x: seq<byte>, y: seq<byte>)
    requires LoadSpec(c, Some(a), Some(secret), salt).0.Success? && LoadSpec(c, Some(b), Some(secret), salt).0.Success?
    requires a.checkpoint.Authenticated? && b.checkpoint.Authenticated?
    requires a.checkpoint.sealed.storeSalt == b.checkpoint.sealed.storeSalt
    requires a.checkpoint.sealed.mac == b.checkpoint.sealed.mac
    ensures var s, t := LoadSpec(c, Some(a), Some(secret), salt).0.value,
                        LoadSpec(c, Some(b), Some(secret), salt).0.value;
      var key := c.argon2(secret, a.checkpoint.sealed.storeSalt);
      key.Some?
      && ((s.log == t.log && SameStamps(s.records, t.records))
          || Collides(i => c.keyedHash(c.contextKey(key.value), i), x, y)
          || Collides(c.sha256, x, y) || Collides(c.blake3, x, y))
  {
    hide LoadSpec, ReadRecords, ReadAudit, EncodeAudit, Chain, MapCommitment, MacInput, Head, SameStamps;
    var s, t := LoadSpec(c, Some(a), Some(secret), salt).0.value, LoadSpec(c, Some(b), Some(secret), salt).0.value;
    LoadExactly(c, a, Some(secret), salt);
    LoadExactly(c, b, Some(secret), salt);
    LoadedChain(c, a, secret, salt);
    LoadedChain(c, b, secret, salt);
    var sa, sb := a.checkpoint.sealed, b.checkpoint.sealed;
    x, y := OneMacOneHistory(c, c.contextKey(c.argon2(secret, sa.storeSalt).value), sa, sb,
                             s.log, t.log, s.records, t.records);
  }

  /** Whatever file a load accepts against a sealed cell holds the chain and the stamps that were sealed. */
  lemma LoadedChain(c: Crypto, disk: RedbDisk, secret: Text, salt: Hash)
    requires disk.checkpoint.Authenticated? && LoadSpec(c, Some(disk), Some(secret), salt).0.Success?
    ensures var s, sealed := LoadSpec(c, Some(disk), Some(secret), salt).0.value, disk.checkpoint.sealed;
      |s.log| < U64_LIMIT && disk.audit == EncodeAudit(s.log) && Chain(c, s.log)
      && |s.log| == sealed.expectedCount && Head(s.log) == sealed.expectedHead
      && MapCommitment(c, StampsOf(s.records)) == sealed.recordCommitment
  {
    hide LoadSpec, ReadRecords, ReadAudit, EncodeAudit, Chain, MapCommitment, MacInput, Head;
    LoadExactly(c, disk, Some(secret), salt);
    ReadAuditSuccess(c, disk.audit);
  }

  // ---- The rows of three keyspaces ---------------------------------------

  /** The three keyspaces read exactly when every row is sound in its own and no id is in two of them. */
  lemma TiersReadExactly(db: FjallDb)
    ensures ReadTiers(db).Success? <==>
      (forall k | k in db.critical :: SoundRow(k, db.critical[k]) && db.critical[k].persisted.tier == Critical)
      && (forall k | k in db.personal ::
        SoundRow(k, db.personal[k]) && db.personal[k].persisted.tier == Personal && k !in db.critical)
      && (forall k | k in db.noise ::
        SoundRow(k, db.noise[k]) && db.noise[k].persisted.tier == Noise && k !in db.critical && k !in db.personal)
    ensures ReadTiers(db).Success? ==>
      ReadTiers(db).value.Keys == db.critical.Keys + db.personal.Keys + db.noise.Keys
      && (forall k | k in db.critical :: ReadTiers(db).value[k] == db.critical[k].persisted)
      && (forall k | k in db.personal :: ReadTiers(db).value[k] == db.personal[k].persisted)
      && (forall k | k in db.noise :: ReadTiers(db).value[k] == db.noise[k].persisted)
  {
    hide ReadRecords, SoundRow;
    var taken := db.critical.Keys;
    ReadExactly(OneTier(Critical, {}), db.critical);
    ReadExactly(OneTier(Personal, taken), db.personal);
    ReadExactly(OneTier(Noise, taken + db.personal.Keys), db.noise);
  }

  /** With other stamps in the keyspaces than were sealed, an authenticated backend does nothing at all. */
  lemma EditedRefused(c: Crypto, f: FjallState, op: StoreOp, owner: Text)
    requires f.auth.Some?
    requires ReadTiers(f.db).Failure? || MapCommitment(c, StampsOf(ReadTiers(f.db).value)) != f.commitment
    ensures FjallApply(c, f, op).0 == f && !FjallApply(c, f, op).1.Accepted() && FjallList(c, f, owner).Failure?
  {
    hide ReadTiers, MapCommitment, Committed, NewEntry;
  }
}
