/** The Fjall backend as the object the engine updates, one batch at a time. */
module Fjall {
  import opened Base
  import opened Bytes
  import opened Ordering
  import opened Crypto
  import opened Audit
  import opened AuditKeys
  import opened AuditTable
  import opened Commitment
  import opened Checkpoint
  import opened Envelope
  import opened Records
  import opened RecordTable
  import opened StoreSpec
  import opened FjallSpec
  import opened FjallRefinement

  // ---- Reading the record keyspaces --------------------------------------

  /** The rows read so far, all good, with their ids and stamps. */
  ghost predicate Collected(home: Home, cells: CellMap, rows: seq<Keyed<RecordCell>>, i: nat, entries: seq<Keyed<u64>>)
    requires i <= |rows| && forall j | 0 <= j < |rows| :: rows[j].key in cells
  {
    && |entries| == i
    && (forall j | 0 <= j < i :: CheckCell(home, rows[j].key, rows[j].value).Success?)
    && (forall j | 0 <= j < i ::
       rows[j].value.RecordRow? && entries[j] == Keyed(rows[j].key, rows[j].value.persisted.createdAt))
  }

  lemma CollectedAll(home: Home, cells: CellMap, rows: seq<Keyed<RecordCell>>, entries: seq<Keyed<u64>>)
    requires InKeyOrder(rows, cells) && forall j | 0 <= j < |rows| :: rows[j].key in cells
    requires Collected(home, cells, rows, |rows|, entries)
    ensures ReadRecords(home, cells).Success?
    ensures ReadRecords(home, cells).value.Keys == cells.Keys
    ensures Lists(entries, Rows(StampsOf(ReadRecords(home, cells).value)))
  {
    hide CheckCell, LexLeq, Ascending, StampsOf, Lists, Rows;
    ScanSize(cells, rows);
    forall k | k in cells
      ensures CheckCell(home, k, cells[k]).Success?
    {
      var j := RowAt(cells, rows, k);
    }
    var stamps := StampsOf(ReadRecords(home, cells).value);
    StampsOfCells(home, cells);
    StampsListed(cells, rows, entries, stamps);
  }

  lemma StampsOfCells(home: Home, cells: CellMap)
    requires ReadRecords(home, cells).Success?
    ensures var stamps := StampsOf(ReadRecords(home, cells).value);
      stamps.Keys == cells.Keys && forall k | k in cells ::
        cells[k].RecordRow? && stamps[k] == cells[k].persisted.createdAt
  {
    hide CheckCell;
    forall k | k in cells
      ensures cells[k].RecordRow? && StampsOf(ReadRecords(home, cells).value)[k] == cells[k].persisted.createdAt
    {
      GoodCell(home, k, cells[k]);
    }
  }

  lemma RowAt(cells: CellMap, rows: seq<Keyed<RecordCell>>, k: Text) returns (j: nat)
    requires InKeyOrder(rows, cells) && k in cells
    ensures j < |rows| && rows[j] == Keyed(k, cells[k])
  {
    assert Keyed(k, cells[k]) in Rows(cells);
    ListsMember(rows, Rows(cells), Keyed(k, cells[k]));
    j :| 0 <= j < |rows| && rows[j] == Keyed(k, cells[k]);
  }

  lemma GoodCell(home: Home, key: Text, cell: RecordCell)
    requires CheckCell(home, key, cell).Success?
    ensures cell == RecordRow(CheckCell(home, key, cell).value)
    ensures CheckCell(home, key, cell).value.id == key && FitsHome(home, CheckCell(home, key, cell).value)
  {
  }

  lemma StampsListed(cells: CellMap, rows: seq<Keyed<RecordCell>>, entries: seq<Keyed<u64>>, stamps: Stamps)
    requires InKeyOrder(rows, cells) && |entries| == |rows| && stamps.Keys == cells.Keys
    requires forall k | k in cells :: cells[k].RecordRow? && stamps[k] == cells[k].persisted.createdAt
    requires forall j | 0 <= j < |rows| ::
      rows[j].value.RecordRow? && entries[j] == Keyed(rows[j].key, rows[j].value.persisted.createdAt)
    ensures Lists(entries, Rows(stamps))
  {
    hide Ascending;
    ScanSize(cells, rows);
    forall i, j | 0 <= i < j < |entries|
      ensures entries[i] != entries[j]
    {
      DistinctKeys(cells, rows, i, j);
    }
    forall x
      ensures x in entries <==> x in Rows(stamps)
    {
      if x in Rows(stamps) {
        var j := RowAt(cells, rows, x.key);
        assert entries[j] == x;
      }
    }
    ListsDistinct(entries, Rows(stamps));
  }

  /** One keyspace: every row decoded, validated and checked against its place. */
  method KeyspaceEntries(cells: CellMap, tier: DataTier, taken: set<Text>)
    returns (r: Outcome<seq<Keyed<u64>>>, recordIds: set<Text>)
    ensures r.Failure? ==> ReadRecords(OneTier(tier, taken), cells) == Failure(r.error)
    ensures r.Success? ==> ReadRecords(OneTier(tier, taken), cells).Success? && recordIds == taken + cells.Keys
    ensures r.Success? ==> Lists(r.value, Rows(StampsOf(ReadRecords(OneTier(tier, taken), cells).value)))
  {
    hide ReadRecords, Validate, InKeyOrder, StampsOf;
    ghost var home := OneTier(tier, taken);
    var rows := ScanKeyspace(cells);
    ScanSize(cells, rows);
    recordIds := taken;
    var entries: seq<Keyed<u64>> := [];
    for i := 0 to |rows|
      invariant Collected(home, cells, rows, i, entries)
      invariant recordIds == taken + set j | 0 <= j < i :: rows[j].key
    {
      var key, cell := rows[i].key, rows[i].value;
      forall j | 0 <= j < i
        ensures rows[j].key != key
      {
        DistinctKeys(cells, rows, j, i);
      }
      if cell.BadRecord? {
        FirstBadScanned(home, cells, rows, i);
        return Failure(LoadFailed), recordIds;
      }
      var record := IntoValidated(cell.persisted);
      if record.Failure? {
        FirstBadScanned(home, cells, rows, i);
        return Failure(record.error), recordIds;
      }
      var isUnique := record.value.id !in recordIds;
      recordIds := recordIds + {record.value.id};
      if key != record.value.id || record.value.tier != tier || !isUnique {
        FirstBadScanned(home, cells, rows, i);
        return Failure(LoadFailed), recordIds;
      }
      entries := entries + [Keyed(record.value.id, record.value.createdAt)];
    }
    CollectedAll(home, cells, rows, entries);
    forall k | k in cells
      ensures k in recordIds
    {
      var j := RowAt(cells, rows, k);
    }
    return Success(entries), recordIds;
  }

  lemma StampsUnion(a: RecordMap, b: RecordMap)
    requires a.Keys !! b.Keys
    ensures Rows(StampsOf(a + b)) == Rows(StampsOf(a)) + Rows(StampsOf(b))
    ensures Rows(StampsOf(a)) !! Rows(StampsOf(b))
  {
    forall x
      ensures x in Rows(StampsOf(a + b)) <==> x in Rows(StampsOf(a)) + Rows(StampsOf(b))
    {
      RowsMember(StampsOf(a), x);
      RowsMember(StampsOf(b), x);
      RowsMember(StampsOf(a + b), x);
    }
  }

  lemma ReadKeys(home: Home, cells: CellMap)
    requires ReadRecords(home, cells).Success?
    ensures ReadRecords(home, cells).value.Keys == cells.Keys
    ensures home.OneTier? ==> cells.Keys !! home.taken
  {
    hide CheckCell;
    forall k | k in cells
      ensures home.OneTier? ==> k !in home.taken
    {
      GoodCell(home, k, cells[k]);
    }
  }

  /** `push` of a record that is in no keyspace. */
  lemma StampsPush(entries: seq<Keyed<u64>>, stamps: Stamps, id: Text, stamp: u64)
    requires Lists(entries, Rows(stamps)) && id !in stamps
    ensures Lists(entries + [Keyed(id, stamp)], Rows(stamps[id := stamp]))
  {
    RowsInsert(stamps, id, stamp);
  }

  /** `retain` the entries of the other records. */
  method RetainOthers(entries: seq<Keyed<u64>>, id: Text) returns (kept: seq<Keyed<u64>>)
    ensures forall stamps: Stamps | Lists(entries, Rows(stamps)) :: Lists(kept, Rows(stamps - {id}))
  {
    kept := [];
    for i := 0 to |entries|
      invariant forall x :: multiset(kept)[x] == if x.key == id then 0 else multiset(entries[..i])[x]
    {
      assert entries[..i + 1] == entries[..i] + [entries[i]];
      if entries[i].key != id {
        kept := kept + [entries[i]];
      }
    }
    assert entries[..|entries|] == entries;
    forall stamps: Stamps | Lists(entries, Rows(stamps))
      ensures Lists(kept, Rows(stamps - {id}))
    {
      forall x
        ensures multiset(kept)[x] == multiset(Rows(stamps - {id}))[x]
      {
        assert multiset(entries)[x] == multiset(Rows(stamps))[x];
        RowsMember(stamps, x);
        RowsMember(stamps - {id}, x);
      }
    }
  }

  // ---- The backend -------------------------------------------------------

  /** The five keyspaces of one database directory. */
  class FjallDatabase {
    var critical: CellMap
    var personal: CellMap
    var noise: CellMap
    var audit: Table
    var checkpoint: CheckpointCell

    constructor ()
      ensures Contents() == EMPTY_DB
    {
      critical, personal, noise, audit, checkpoint := map[], map[], map[], map[], Absent;
    }

    ghost function Contents(): FjallDb
      reads this
    {
      FjallDb(critical, personal, noise, audit, checkpoint)
    }
  }

  /** The records of the three keyspaces, in keyspace and key order. */
  method ValidatedRecordEntries(db: FjallDatabase) returns (r: Outcome<seq<Keyed<u64>>>)
    ensures r.Failure? ==> ReadTiers(db.Contents()) == Failure(r.error)
    ensures r.Success? ==> ReadTiers(db.Contents()).Success?
    ensures r.Success? ==> Lists(r.value, Rows(StampsOf(ReadTiers(db.Contents()).value)))
  {
    hide ReadRecords, StampsOf, Lists;
    var critical, taken := KeyspaceEntries(db.critical, Critical, {});
    if critical.Failure? {
      return critical;
    }
    var personal, taken2 := KeyspaceEntries(db.personal, Personal, taken);
    assert {} + db.critical.Keys == db.critical.Keys;
    if personal.Failure? {
      return personal;
    }
    var noise, taken3 := KeyspaceEntries(db.noise, Noise, taken2);
    if noise.Failure? {
      return noise;
    }
    JoinTiers(db.Contents(), critical.value, personal.value, noise.value);
    return Success(critical.value + personal.value + noise.value);
  }

  lemma JoinTiers(db: FjallDb, critical: seq<Keyed<u64>>, personal: seq<Keyed<u64>>, noise: seq<Keyed<u64>>)
    requires ReadTiers(db).Success?
    requires var taken := db.critical.Keys;
      && Lists(critical, Rows(StampsOf(ReadRecords(OneTier(Critical, {}), db.critical).value)))
      && Lists(personal, Rows(StampsOf(ReadRecords(OneTier(Personal, taken), db.personal).value)))
      && Lists(noise, Rows(StampsOf(ReadRecords(OneTier(Noise, taken + db.personal.Keys), db.noise).value)))
    ensures Lists(critical + personal + noise, Rows(StampsOf(ReadTiers(db).value)))
  {
    hide ReadRecords, StampsOf, Lists, Rows;
    var taken := db.critical.Keys;
    var a := ReadRecords(OneTier(Critical, {}), db.critical).value;
    var b := ReadRecords(OneTier(Personal, taken), db.personal).value;
    var n := ReadRecords(OneTier(Noise, taken + db.personal.Keys), db.noise).value;
    ReadKeys(OneTier(Critical, {}), db.critical);
    ReadKeys(OneTier(Personal, taken), db.personal);
    ReadKeys(OneTier(Noise, taken + db.personal.Keys), db.noise);
    StampsUnion(a, b);
    ListsUnion(critical, Rows(StampsOf(a)), personal, Rows(StampsOf(b)));
    assert (a + b).Keys == a.Keys + b.Keys;
    StampsUnion(a + b, n);
    ListsUnion(critical + personal, Rows(StampsOf(a + b)), noise, Rows(StampsOf(n)));
  }

  class FjallBackend {
    const c: Crypto
    const db: FjallDatabase
    const auth: Option<AuthContext>
    var auditLen: u64
    var auditTail: Hash
    var commitment: Hash

    constructor (c: Crypto, db: FjallDatabase, auth: Option<AuthContext>, auditLen: u64, auditTail: Hash,
            commitment: Hash)
      ensures this.c == c && this.db == db && this.auth == auth
      ensures this.auditLen == auditLen && this.auditTail == auditTail && this.commitment == commitment
    {
      this.c, this.db, this.auth := c, db, auth;
      this.auditLen, this.auditTail, this.commitment := auditLen, auditTail, commitment;
    }

    ghost function State(): FjallState
      reads this, db
    {
      FjallState(db.Contents(), auditLen, auditTail, auth, commitment)
    }

    static method Open(c: Crypto, db: FjallDatabase, secret: Option<Text>, salt: Hash)
      returns (r: Outcome<FjallBackend>)
      requires |db.audit| < U64_LIMIT
      modifies db`checkpoint
      ensures var spec := FjallOpen(c, old(db.Contents()), secret, salt);
        match r
        case Failure(e) => spec == Failure(e) && db.Contents() == old(db.Contents())
        case Success(b) => fresh(b) && b.db == db && b.c == c && spec == Success(b.State())
    {
      hide ReadAudit, ReadTiers, Authorise, MapCommitment, CellFor, Lists;
      var audit := ReadByScanning(c, db.audit);
      if audit.Failure? {
        return Failure(audit.error);
      }
      var log := audit.value;
      var entries := ValidatedRecordEntries(db);
      if entries.Failure? {
        return Failure(entries.error);
      }
      EntriesEmpty(entries.value, ReadTiers(db.Contents()).value);
      var commitment := RecordCreatedAtCommitment(c, entries.value);
      if |log| >= U64_LIMIT {
        return Failure(AuditChainBroken);
      }
      var seen := Observed(log == [], entries.value == [], |log|, Head(log), commitment);
      var verdict := Authorise(c, db.checkpoint, seen, secret, salt);
      if verdict.Failure? {
        return Failure(verdict.error);
      }
      if verdict.value.0.Genesis? {
        db.checkpoint := CellFor(c, 0, ZeroHash(), commitment, verdict.value.1);
      }
      var backend := new FjallBackend(c, db, verdict.value.1, |log|, Head(log), commitment);
      return Success(backend);
    }

    method EnsureRecordCommitmentCurrent() returns (r: Outcome<()>)
      ensures r == EnsureCurrent(c, State())
    {
      hide ReadTiers, MapCommitment, Lists;
      if auth.None? {
        return Success(());
      }
      var entries := ValidatedRecordEntries(db);
      if entries.Failure? {
        return Failure(entries.error);
      }
      var current := RecordCreatedAtCommitment(c, entries.value);
      if current != commitment {
        return Failure(AuditChainBroken);
      }
      return Success(());
    }

    method AppendAudit(id: Text, requester: Text, action: AuditAction, now: u64) returns (r: Outcome<()>)
      modifies this, db
      ensures (State(), r) == FjallSpec.AppendAudit(c, old(State()), id, requester, action, now)
    {
      hide EnsureCurrent, Key, NewEntry, CellFor;
      r := EnsureRecordCommitmentCurrent();
      if r.Failure? {
        return;
      }
      if auditLen + 1 >= U64_LIMIT {
        return Failure(SaveFailed);
      }
      var nextLen := auditLen + 1;
      var entry := NewEntry(c, id, requester, action, now, auditTail);
      var cell := CellFor(c, nextLen, entry.entryHash, commitment, auth);
      // one batch
      db.audit, db.checkpoint := db.audit[Key(auditLen) := Row(entry)], cell;
      auditLen, auditTail := nextLen, entry.entryHash;
      return Success(());
    }

    /** Insert into or remove from the keyspace of a tier. */
    method PutCells(tier: DataTier, cells: CellMap, key: Text, row: AuditCell, cell: CheckpointCell)
      modifies db
      ensures db.Contents()
        == old(db.Contents()).With(tier, cells).(audit := old(db.audit)[key := row], checkpoint := cell)
    {
      match tier
      case Critical => db.critical, db.audit, db.checkpoint := cells, db.audit[key := row], cell;
      case Personal => db.personal, db.audit, db.checkpoint := cells, db.audit[key := row], cell;
      case Noise => db.noise, db.audit, db.checkpoint := cells, db.audit[key := row], cell;
    }

    /** The keyspace of a tier. */
    method TierCells(tier: DataTier) returns (cells: CellMap)
      ensures cells == db.Contents().At(tier)
    {
      match tier
      case Critical => return db.critical;
      case Personal => return db.personal;
      case Noise => return db.noise;
    }

    /** Search the keyspaces in order and stop at the first that has the id. */
    method FindTier(id: Text) returns (found: Option<DataTier>)
      ensures found == db.Contents().TierOf(id)
    {
      var tiers := [Critical, Personal, Noise];
      for n := 0 to |tiers|
        invariant forall m | 0 <= m < n :: id !in db.Contents().At(tiers[m])
      {
        var cells := TierCells(tiers[n]);
        if id in cells {
          assert n > 0 ==> id !in db.Contents().At(tiers[0]);
          assert n > 1 ==> id !in db.Contents().At(tiers[1]);
          return Some(tiers[n]);
        }
      }
      assert id !in db.Contents().At(tiers[0]) && id !in db.Contents().At(tiers[1])
        && id !in db.Contents().At(tiers[2]);
      return None;
    }

    method Write(record: Record, now: u64) returns (r: Outcome<()>)
      modifies this, db
      ensures (State(), r) == FjallWrite(c, old(State()), record, now)
    {
      hide EnsureCurrent, Key, NewEntry, CellFor, ReadTiers, MapCommitment, Lists, Validate;
      r := Validate(record);
      if r.Failure? {
        return;
      }
      r := EnsureRecordCommitmentCurrent();
      if r.Failure? {
        return;
      }
      var found := FindTier(record.id);
      if found.Some? {
        return Failure(AlreadyExists);
      }
      if auditLen + 1 >= U64_LIMIT {
        return Failure(SaveFailed);
      }
      var nextLen := auditLen + 1;
      var entry := NewEntry(c, record.id, record.ownerId, AuditAction.Write, now, auditTail);
      var entries := ValidatedRecordEntries(db);
      if entries.Failure? {
        return Failure(entries.error);
      }
      TiersKeys(db.Contents(), record.id);
      StampsPush(entries.value, StampsOf(ReadTiers(db.Contents()).value), record.id, record.createdAt);
      var next := RecordCreatedAtCommitment(c, entries.value + [Keyed(record.id, record.createdAt)]);
      var cell := CellFor(c, nextLen, entry.entryHash, next, auth);
      var cells := TierCells(record.tier);
      PutCells(record.tier, cells[record.id := RecordRow(record)], Key(auditLen), Row(entry), cell);
      auditLen, auditTail, commitment := nextLen, entry.entryHash, next;
      return Success(());
    }

    method Read(id: Text, requester: Text, now: u64) returns (r: Outcome<Record>)
      modifies this, db
      ensures (State(), r) == FjallRead(c, old(State()), id, requester, now)
    {
      hide EnsureCurrent, Decode, FjallSpec.AppendAudit;
      var current := EnsureRecordCommitmentCurrent();
      if current.Failure? {
        return Failure(current.error);
      }
      var tier := FindTier(id);
      if tier.None? {
        return Failure(NotFound);
      }
      var cells := TierCells(tier.value);
      r := Decode(cells[id]);
      if r.Failure? {
        return;
      }
      if IsReadableBy(r.value, requester) {
        var logged := AppendAudit(id, requester, ReadGranted, now);
        if logged.Failure? {
          return Failure(logged.error);
        }
      } else {
        var logged := AppendAudit(id, requester, ReadDenied, now);
        return Failure(if logged.Failure? then logged.error else AccessDenied);
      }
    }

    method Delete(id: Text, requester: Text, now: u64) returns (r: Outcome<()>)
      modifies this, db
      ensures (State(), r) == FjallDelete(c, old(State()), id, requester, now)
    {
      hide EnsureCurrent, Key, NewEntry, CellFor, ReadTiers, MapCommitment, Lists, Rows, StampsOf, Decode;
      r := EnsureRecordCommitmentCurrent();
      if r.Failure? {
        return;
      }
      var tier := FindTier(id);
      if tier.None? {
        return Failure(NotFound);
      }
      var cells := TierCells(tier.value);
      var record := Decode(cells[id]);
      if record.Failure? {
        return Failure(record.error);
      }
      if record.value.ownerId != requester {
        return Failure(AccessDenied);
      }
      if auditLen + 1 >= U64_LIMIT {
        return Failure(SaveFailed);
      }
      var nextLen := auditLen + 1;
      var entry := NewEntry(c, id, requester, AuditAction.Delete, now, auditTail);
      var entries := ValidatedRecordEntries(db);
      if entries.Failure? {
        return Failure(entries.error);
      }
      var kept := RetainOthers(entries.value, id);
      var next := RecordCreatedAtCommitment(c, kept);
      var cell := CellFor(c, nextLen, entry.entryHash, next, auth);
      PutCells(tier.value, cells - {id}, Key(auditLen), Row(entry), cell);
      auditLen, auditTail, commitment := nextLen, entry.entryHash, next;
      return Success(());
    }

    /** The records of one owner: as the store lists them, unless a stamp is zero. */
    method ListByOwner(owner: Text) returns (r: Outcome<seq<Record>>)
      ensures r == FjallList(c, State(), owner)
      ensures forall s | Refines(c, State(), s) ::
        if NoZeroStamp(s.records) then r.Success? && Lists(r.value, OwnedBy(s.records, owner))
        else r == Failure(InvalidCreatedAt)
    {
      hide EnsureCurrent, Decode, Refines, Lists, NoZeroStamp, OwnedBy;
      hide TiersHold, WellKeyed, ListedTier, OwnedIn, KeyRows;
      var current := EnsureRecordCommitmentCurrent();
      if current.Failure? {
        forall s | Refines(c, State(), s)
          ensures !NoZeroStamp(s.records) && current == Failure(InvalidCreatedAt)
        {
          EnsureOn(c, State(), s);
        }
        return Failure(current.error);
      }
      var critical := OwnedRows(db.critical, owner);
      var personal := OwnedRows(db.personal, owner);
      var noise := OwnedRows(db.noise, owner);
      forall s | Refines(c, State(), s)
        ensures ListedAll(s.records, owner, critical, personal, noise)
      {
        RefinedTiers(c, State(), s);
        ListedTiers(db.Contents(), s.records, owner, critical, personal, noise);
      }
      OwnedInParts(KeyRows(db.critical), KeyRows(db.personal), owner);
      OwnedInParts(KeyRows(db.critical) + KeyRows(db.personal), KeyRows(db.noise), owner);
      if critical.Failure? {
        return critical;
      }
      if personal.Failure? {
        return personal;
      }
      if noise.Failure? {
        return noise;
      }
      return Success(critical.value + personal.value + noise.value);
    }
  }

  lemma EntriesEmpty(entries: seq<Keyed<u64>>, records: RecordMap)
    requires Lists(entries, Rows(StampsOf(records)))
    ensures entries == [] <==> records == map[]
  {
    if entries == [] {
      if id: Text :| id in records {
        RowsMember(StampsOf(records), Keyed(id, records[id].createdAt));
        ListsMember(entries, Rows(StampsOf(records)), Keyed(id, records[id].createdAt));
      }
    } else {
      ListsMember(entries, Rows(StampsOf(records)), entries[0]);
    }
  }

  lemma TiersKeys(db: FjallDb, id: Text)
    requires ReadTiers(db).Success? && db.TierOf(id).None?
    ensures id !in StampsOf(ReadTiers(db).value)
  {
    hide ReadRecords;
    ReadKeys(OneTier(Critical, {}), db.critical);
    ReadKeys(OneTier(Personal, db.critical.Keys), db.personal);
    ReadKeys(OneTier(Noise, db.critical.Keys + db.personal.Keys), db.noise);
  }

  // ---- Listing -----------------------------------------------------------

  /** A listing of one keyspace that holds encoded records. */
  ghost predicate ListedTier(cells: CellMap, owner: Text, r: Outcome<seq<Record>>) {
    forall records: RecordMap | WellKeyed(records) && cells == EncodeRecords(records) ::
      if NoZeroStamp(records) then r.Success? && Lists(r.value, OwnedBy(records, owner))
      else r == Failure(InvalidCreatedAt)
  }

  /** The records of one owner in one keyspace, or the first decoding error. */
  method OwnedRows(cells: CellMap, owner: Text) returns (r: Outcome<seq<Record>>)
    ensures ListedTier(cells, owner, r) && r == OwnedIn(KeyRows(cells), owner)
  {
    hide Decode, Validate, Ascending, KeyRows;
    var rows := ScanKeyspace(cells);
    ScanSize(cells, rows);
    KeyRowsAre(cells, rows);
    var found: seq<Record> := [];
    FollowedByNothing(OwnedIn(rows, owner));
    assert rows[0..] == rows;
    for i := 0 to |rows|
      invariant forall j | 0 <= j < i :: Decode(rows[j].value).Success?
      invariant found == OwnedPrefix(rows, i, owner)
      invariant OwnedIn(rows, owner) == Following(found, OwnedIn(rows[i..], owner))
    {
      var record := Decode(rows[i].value);
      OwnedStep(found, rows, i, owner);
      if record.Failure? {
        forall records: RecordMap | WellKeyed(records) && cells == EncodeRecords(records)
          ensures !NoZeroStamp(records) && record.error == InvalidCreatedAt
        {
          DecodedRow(records[rows[i].key]);
        }
        return Failure(record.error);
      }
      if record.value.ownerId == owner {
        found := found + [record.value];
      }
    }
    forall records: RecordMap | WellKeyed(records) && cells == EncodeRecords(records)
      ensures NoZeroStamp(records) && Lists(found, OwnedBy(records, owner))
    {
      AllDecoded(cells, rows, records);
      OwnedListed(cells, rows, records, owner);
    }
    assert rows[|rows|..] == [] && found + [] == found;
    return Success(found);
  }

  /** Records found so far, then what the rest of the rows gives. */
  function Following(found: seq<Record>, rest: Outcome<seq<Record>>): Outcome<seq<Record>> {
    if rest.Failure? then rest else Success(found + rest.value)
  }

  lemma FollowedByNothing(rest: Outcome<seq<Record>>)
    ensures Following([], rest) == rest
  {
    if rest.Success? {
      assert [] + rest.value == rest.value;
    }
  }

  lemma OwnedStep(found: seq<Record>, rows: seq<Keyed<RecordCell>>, i: nat, owner: Text)
    requires i < |rows|
    ensures var record := Decode(rows[i].value);
      Following(found, OwnedIn(rows[i..], owner))
        == if record.Failure? then Failure(record.error)
           else
             var owned := if record.value.ownerId == owner then [record.value] else [];
             Following(found + owned, OwnedIn(rows[i + 1..], owner))
  {
    hide Decode;
    assert rows[i..][0] == rows[i] && rows[i..][1..] == rows[i + 1..];
    var record, rest := Decode(rows[i].value), OwnedIn(rows[i + 1..], owner);
    if record.Success? && rest.Success? {
      assert found + ([record.value] + rest.value) == (found + [record.value]) + rest.value;
      assert found + [] == found;
    }
  }

  lemma {:induction false} OwnedInParts(a: seq<Keyed<RecordCell>>, b: seq<Keyed<RecordCell>>, owner: Text)
    ensures OwnedIn(a + b, owner)
         == if OwnedIn(a, owner).Failure? then OwnedIn(a, owner)
            else Following(OwnedIn(a, owner).value, OwnedIn(b, owner))
  {
    hide Decode;
    if a == [] {
      assert a + b == b;
      FollowedByNothing(OwnedIn(b, owner));
    } else {
      assert (a + b)[1..] == a[1..] + b;
      OwnedInParts(a[1..], b, owner);
      var record := Decode(a[0].value);
      var rest, after := OwnedIn(a[1..], owner), OwnedIn(b, owner);
      if record.Success? && rest.Success? && after.Success? {
        assert [record.value] + (rest.value + after.value) == ([record.value] + rest.value) + after.value;
      }
    }
  }

  lemma DecodedRow(r: Record)
    requires Validate(r).Success?
    ensures Decode(RecordRow(r)) == if r.createdAt == 0 then Failure(InvalidCreatedAt) else Success(r)
  {
  }

  lemma AllDecoded(cells: CellMap, rows: seq<Keyed<RecordCell>>, records: RecordMap)
    requires InKeyOrder(rows, cells) && WellKeyed(records) && cells == EncodeRecords(records)
    requires forall j | 0 <= j < |rows| :: Decode(rows[j].value).Success?
    ensures NoZeroStamp(records)
    ensures forall j | 0 <= j < |rows| :: rows[j].key in records && Decode(rows[j].value).value == records[rows[j].key]
  {
    hide Decode, Validate, Ascending;
    ScanSize(cells, rows);
    forall id | id in records
      ensures records[id].createdAt != 0
    {
      var j := RowAt(cells, rows, id);
      DecodedRow(records[id]);
    }
    forall j | 0 <= j < |rows|
      ensures rows[j].key in records && Decode(rows[j].value).value == records[rows[j].key]
    {
      DecodedRow(records[rows[j].key]);
    }
  }

  ghost function OwnedPrefix(rows: seq<Keyed<RecordCell>>, n: nat, owner: Text): seq<Record>
    requires n <= |rows|
    requires forall j | 0 <= j < n :: Decode(rows[j].value).Success?
  {
    if n == 0 then []
    else
      var r := Decode(rows[n - 1].value).value;
      OwnedPrefix(rows, n - 1, owner) + if r.ownerId == owner then [r] else []
  }

  lemma {:induction false} OwnedListedPrefix(cells: CellMap, rows: seq<Keyed<RecordCell>>, n: nat, records: RecordMap,
          owner: Text)
    requires InKeyOrder(rows, cells) && n <= |rows| && WellKeyed(records)
    requires forall j | 0 <= j < |rows| :: Decode(rows[j].value).Success?
    requires forall j | 0 <= j < |rows| :: rows[j].key in records && Decode(rows[j].value).value == records[rows[j].key]
    ensures multiset(OwnedPrefix(rows, n, owner)) == multiset(OwnedAmong(rows, n, records, owner))
  {
    hide Decode, Validate, Ascending;
    if n > 0 {
      OwnedListedPrefix(cells, rows, n - 1, records, owner);
      OwnedAmongMore(cells, rows, n, records, owner);
    }
  }

  ghost function OwnedAmong(rows: seq<Keyed<RecordCell>>, n: nat, records: RecordMap, owner: Text): set<Record>
    requires n <= |rows|
    requires forall j | 0 <= j < |rows| :: rows[j].key in records
  {
    set j | 0 <= j < n && records[rows[j].key].ownerId == owner :: records[rows[j].key]
  }

  lemma OwnedAmongMore(cells: CellMap, rows: seq<Keyed<RecordCell>>, n: nat, records: RecordMap, owner: Text)
    requires InKeyOrder(rows, cells) && 0 < n <= |rows| && WellKeyed(records)
    requires forall j | 0 <= j < |rows| :: rows[j].key in records
    ensures var r := records[rows[n - 1].key];
      multiset(OwnedAmong(rows, n, records, owner))
        == multiset(OwnedAmong(rows, n - 1, records, owner)) + if r.ownerId == owner then multiset{r} else multiset{}
  {
    hide Validate, Ascending;
    var r := records[rows[n - 1].key];
    forall j | 0 <= j < n - 1
      ensures records[rows[j].key] != r
    {
      DistinctKeys(cells, rows, j, n - 1);
    }
    if r.ownerId == owner {
      assert OwnedAmong(rows, n, records, owner) == OwnedAmong(rows, n - 1, records, owner) + {r};
    } else {
      assert OwnedAmong(rows, n, records, owner) == OwnedAmong(rows, n - 1, records, owner);
    }
  }

  lemma OwnedListed(cells: CellMap, rows: seq<Keyed<RecordCell>>, records: RecordMap, owner: Text)
    requires InKeyOrder(rows, cells) && WellKeyed(records) && cells == EncodeRecords(records)
    requires forall j | 0 <= j < |rows| :: Decode(rows[j].value).Success?
    requires forall j | 0 <= j < |rows| :: rows[j].key in records && Decode(rows[j].value).value == records[rows[j].key]
    ensures Lists(OwnedPrefix(rows, |rows|, owner), OwnedBy(records, owner))
  {
    hide Decode, Validate, Ascending, OwnedPrefix, OwnedAmong, OwnedBy;
    OwnedListedPrefix(cells, rows, |rows|, records, owner);
    OwnedAmongAll(cells, rows, records, owner);
  }

  lemma OwnedAmongAll(cells: CellMap, rows: seq<Keyed<RecordCell>>, records: RecordMap, owner: Text)
    requires InKeyOrder(rows, cells) && cells == EncodeRecords(records)
    requires forall j | 0 <= j < |rows| :: rows[j].key in records
    ensures OwnedAmong(rows, |rows|, records, owner) == OwnedBy(records, owner)
  {
    hide InKeyOrder;
    forall r | r in OwnedBy(records, owner)
      ensures r in OwnedAmong(rows, |rows|, records, owner)
    {
      var id :| id in records && records[id].ownerId == owner && records[id] == r;
      var j := RowAt(cells, rows, id);
    }
  }

  /** The three listings together list the owner's records, or report a zero stamp. */
  ghost predicate ListedAll(records: RecordMap, owner: Text, critical: Outcome<seq<Record>>,
          personal: Outcome<seq<Record>>, noise: Outcome<seq<Record>>)
  {
    && (forall r | r in {critical, personal, noise} && r.Failure? :: r.error == InvalidCreatedAt)
    && (NoZeroStamp(records) <==> critical.Success? && personal.Success? && noise.Success?)
    && (NoZeroStamp(records) ==> Lists(critical.value + personal.value + noise.value, OwnedBy(records, owner)))
  }

  lemma ListedTiers(db: FjallDb, records: RecordMap, owner: Text, critical: Outcome<seq<Record>>,
          personal: Outcome<seq<Record>>, noise: Outcome<seq<Record>>)
    requires TiersHold(db, records) && WellKeyed(records)
    requires ListedTier(db.critical, owner, critical) && ListedTier(db.personal, owner, personal)
      && ListedTier(db.noise, owner, noise)
    ensures ListedAll(records, owner, critical, personal, noise)
  {
    hide TiersHold, WellKeyed, EncodeRecords, InTier, OwnedBy, Lists, ListedTier, NoZeroStamp;
    assert db.critical == db.At(Critical) && db.personal == db.At(Personal) && db.noise == db.At(Noise);
    ListedTierOf(db, records, Critical, owner, critical);
    ListedTierOf(db, records, Personal, owner, personal);
    ListedTierOf(db, records, Noise, owner, noise);
    TiersUnion(records);
    OwnedUnion(records, owner);
    if NoZeroStamp(records) {
      var a, b := OwnedBy(InTier(records, Critical), owner), OwnedBy(InTier(records, Personal), owner);
      ListsUnion(critical.value, a, personal.value, b);
      ListsUnion(critical.value + personal.value, a + b, noise.value, OwnedBy(InTier(records, Noise), owner));
    }
  }

  lemma RefinedTiers(c: Crypto, f: FjallState, s: StoreState)
    requires Refines(c, f, s)
    ensures TiersHold(f.db, s.records) && WellKeyed(s.records)
  {
    hide Chain, Lawful, Live, TiersHold, WellKeyed, EncodeAudit, CellFor, MapCommitment;
  }

  lemma ListedTierOf(db: FjallDb, records: RecordMap, tier: DataTier, owner: Text, r: Outcome<seq<Record>>)
    requires TiersHold(db, records) && WellKeyed(records) && ListedTier(db.At(tier), owner, r)
    ensures if NoZeroStamp(InTier(records, tier))
            then r.Success? && Lists(r.value, OwnedBy(InTier(records, tier), owner))
            else r == Failure(InvalidCreatedAt)
  {
    hide EncodeRecords, OwnedBy, Validate;
    assert db.At(tier) == EncodeRecords(InTier(records, tier));
    assert WellKeyed(InTier(records, tier));
  }

  lemma OwnedUnion(records: RecordMap, owner: Text)
    ensures OwnedBy(records, owner) == OwnedBy(InTier(records, Critical), owner)
      + OwnedBy(InTier(records, Personal), owner)
      + OwnedBy(InTier(records, Noise), owner)
    ensures OwnedBy(InTier(records, Critical), owner) !! OwnedBy(InTier(records, Personal), owner)
    ensures (OwnedBy(InTier(records, Critical), owner)
      + OwnedBy(InTier(records, Personal), owner)) !! OwnedBy(InTier(records, Noise), owner)
  {
    forall r: Record
      ensures r in OwnedBy(InTier(records, r.tier), owner) <==> r in OwnedBy(records, owner)
    {
      OwnedInTier(records, r, owner);
    }
  }

  lemma OwnedInTier(records: RecordMap, r: Record, owner: Text)
    ensures r in OwnedBy(InTier(records, r.tier), owner) <==> r in OwnedBy(records, owner)
  {
    if r in OwnedBy(records, owner) {
      var id :| id in records && records[id].ownerId == owner && records[id] == r;
      assert id in InTier(records, r.tier);
    }
  }
}
