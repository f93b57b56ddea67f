/** The Redb backend and the command executor, as the objects the engine updates. */
module Executor {
  import opened Base
  import opened Bytes
  import opened Ordering
  import opened Crypto
  import opened Envelope
  import opened Records
  import opened StoreSpec
  import RecordTable
  import opened RedbSpec
  import opened Store
  import opened ExecutorSpec

  class RedbBackend {
    const c: Crypto
    const file: RedbFile
    const store: Store
    const secret: Option<Text>

    constructor (c: Crypto, file: RedbFile, store: Store, secret: Option<Text>)
      ensures this.c == c && this.file == file && this.store == store && this.secret == secret
    {
      this.c, this.file, this.store, this.secret := c, file, store, secret;
    }

    ghost predicate Valid()
      reads this, file, store
    {
      store.c == c && file.Valid() && WellKeyed(store.records)
    }

    ghost function State(): ExecState
      reads this, file, store
    {
      ExecState(store.State(), file.Contents())
    }

    /** Load the file if it exists, otherwise create it by saving a new store. */
    static method Open(c: Crypto, file: RedbFile, secret: Option<Text>, salt: Hash) returns (r: Outcome<RedbBackend>)
      requires file.Valid()
      modifies file
      ensures file.Valid() && file.Contents() == OpenFile(c, old(file.Contents()), secret, salt).1
      ensures r.Failure? ==> OpenFile(c, old(file.Contents()), secret, salt).0 == Failure(r.error)
      ensures r.Success? ==>
        fresh(r.value) && r.value.file == file && r.value.secret == secret && r.value.c == c && fresh(r.value.store)
      ensures r.Success? ==>
        r.value.Valid() && OpenFile(c, old(file.Contents()), secret, salt).0 == Success(r.value.store.State())
    {
      hide SaveSpec, LoadSpec;
      if file.present {
        var loaded := Store.LoadImpl(c, file, secret, salt);
        if loaded.Failure? {
          return Failure(loaded.error);
        }
        LoadedWellKeyed(c, old(file.Contents()), secret, salt);
        var backend := new RedbBackend(c, file, loaded.value, secret);
        return Success(backend);
      } else {
        var store := new Store(c);
        var saved := store.SaveImpl(file, secret, salt);
        if saved.Failure? {
          return Failure(saved.error);
        }
        var backend := new RedbBackend(c, file, store, secret);
        return Success(backend);
      }
    }

    method Save(salt: Hash) returns (r: Outcome<()>)
      requires Valid()
      modifies file
      ensures Valid()
      ensures (r, file.Contents()) == SaveSpec(c, store.State(), old(file.Contents()), secret, salt)
    {
      hide SaveSpec;
      r := store.SaveImpl(file, secret, salt);
    }
  }

  lemma LoadedWellKeyed(c: Crypto, file: Option<RedbDisk>, secret: Option<Text>, salt: Hash)
    requires LoadSpec(c, file, secret, salt).0.Success?
    ensures WellKeyed(LoadSpec(c, file, secret, salt).0.value.records)
  {
    RecordTableWellKeyed(file.value.records);
  }

  lemma RecordTableWellKeyed(cells: CellMap)
    requires RecordTable.ReadRecords(RecordTable.AnyTier, cells).Success?
    ensures WellKeyed(RecordTable.ReadRecords(RecordTable.AnyTier, cells).value)
  {
  }

  datatype RecordInfo = RecordInfo(id: Text, tier: DataTier, createdAt: u64)

  /** A record a listing shows, under an optional tier filter. */
  predicate Shown(filter: Option<DataTier>, r: Record) {
    filter.Some? ==> r.tier == filter.value
  }

  function Readable(c: Crypto, who: Session, r: Record): Outcome<()> {
    var key := DeriveKey(c, who.password, r.salt);
    if key.Failure? then Failure(key.error)
    else
      var data := DecryptPayload(c, r.payload, key.value, r.id, r.tier);
      if data.Failure? then Failure(data.error) else Success(())
  }

  /** The ids of the owner's records of a tier, or of all of them. */
  ghost function ListedIds(records: RecordMap, owner: Text, filter: Option<DataTier>): set<Text> {
    set id | id in records && records[id].ownerId == owner && (filter.None? || records[id].tier == filter.value)
  }

  /** What a listing says of a record. */
  predicate Describes(records: RecordMap, filter: Option<DataTier>, info: RecordInfo) {
    info.id in records && info.tier == records[info.id].tier && info.createdAt == records[info.id].createdAt
    && (filter.Some? ==> info.tier == filter.value)
  }

  ghost function IdsIn(infos: seq<RecordInfo>): (ids: seq<Text>)
    ensures |ids| == |infos|
  {
    seq(|infos|, i requires 0 <= i < |infos| => infos[i].id)
  }

  lemma ReadableExactly(c: Crypto, who: Session, r: Record)
    ensures Readable(c, who, r)
         == if Decrypts(c, who.password, r) then Success(()) else Failure(DecryptError(c, who.password, r))
  {
    hide Aad;
  }

  lemma ListedIsOwned(records: RecordMap, owner: Text, filter: Option<DataTier>, id: Text)
    requires id in ListedIds(records, owner, filter)
    ensures records[id] in OwnedBy(records, owner) && Shown(filter, records[id])
  {
  }

  lemma ListedRecord(records: RecordMap, owner: Text, filter: Option<DataTier>, x: Record)
    requires WellKeyed(records) && x in OwnedBy(records, owner) && Shown(filter, x)
    ensures x.id in ListedIds(records, owner, filter) && records[x.id] == x
  {
    hide Validate;
  }

  /** The records shown are listed under their ids, each once, as they are. */
  lemma InfosListed(records: RecordMap, owner: Text, filter: Option<DataTier>, shown: seq<Record>)
    requires WellKeyed(records)
    requires Lists(shown, set x | x in OwnedBy(records, owner) && Shown(filter, x))
    ensures Lists(IdsIn(Infos(shown)), ListedIds(records, owner, filter))
    ensures forall info | info in Infos(shown) :: Describes(records, filter, info)
  {
    hide OwnedBy, Lists, WellKeyed;
    var all := set x | x in OwnedBy(records, owner) && Shown(filter, x);
    var ids := IdsIn(Infos(shown));
    forall i | 0 <= i < |shown|
      ensures ids[i] == shown[i].id && shown[i].id in ListedIds(records, owner, filter)
      ensures records[shown[i].id] == shown[i] && Describes(records, filter, Infos(shown)[i])
    {
      ListsMember(shown, all, shown[i]);
      ListedRecord(records, owner, filter, shown[i]);
    }
    forall i, j | 0 <= i < j < |ids|
      ensures ids[i] != ids[j]
    {
      if shown[i] == shown[j] {
        ListedOnce(shown, all, i, j);
      }
    }
    forall id
      ensures id in ids <==> id in ListedIds(records, owner, filter)
    {
      if id in ListedIds(records, owner, filter) {
        ListedIsOwned(records, owner, filter, id);
        ListsMember(shown, all, records[id]);
        var i :| 0 <= i < |shown| && shown[i] == records[id];
        KeyOf(records, owner, filter, id);
        assert ids[i] == id;
      }
    }
    ListsDistinct(ids, ListedIds(records, owner, filter));
  }

  lemma KeyOf(records: RecordMap, owner: Text, filter: Option<DataTier>, id: Text)
    requires WellKeyed(records) && id in ListedIds(records, owner, filter)
    ensures records[id].id == id
  {
    hide Validate;
  }

  lemma ListedOnce<T>(s: seq<T>, all: set<T>, i: nat, j: nat)
    requires Lists(s, all) && i < j < |s|
    ensures s[i] != s[j]
  {
    if s[i] == s[j] {
      CountTwice(s, i, j);
    }
  }

  class EqlExecutor {
    const who: Session
    const backend: RedbBackend

    constructor (who: Session, backend: RedbBackend)
      requires backend.secret == who.secret
      ensures this.who == who && this.backend == backend
    {
      this.who, this.backend := who, backend;
    }

    ghost predicate Valid()
      reads this, backend, backend.file, backend.store
    {
      backend.Valid() && backend.secret == who.secret
    }

    ghost function State(): ExecState
      reads this, backend, backend.file, backend.store
    {
      backend.State()
    }

    method ExecWrite(id: Text, tier: DataTier, payload: seq<byte>, recordSalt: Hash, nonce: Nonce, createdAt: u64,
            now: u64, salt: Hash)
      returns (r: Outcome<()>)
      requires Valid()
      modifies backend.file, backend.store
      ensures Valid()
      ensures (State(), Done(r)) == Execute(backend.c, who, old(State()),
        Statement.Write(id, tier, payload, recordSalt, nonce, createdAt, now, salt))
    {
      hide SaveSpec, Appended, EncryptPayload, Validate, RedbFile.Valid;
      var c := backend.c;
      var key := DeriveKey(c, who.password, recordSalt);
      if key.Failure? {
        return Failure(key.error);
      }
      var record := NewRecord(c, id, tier, who.ownerId, payload, key.value, recordSalt, nonce, createdAt);
      if record.Failure? {
        return Failure(record.error);
      }
      r := backend.store.Write(record.value, now);
      WriteKeepsKeys(c, old(backend.store.State()), record.value, now);
      if r.Failure? {
        return;
      }
      r := backend.Save(salt);
    }

    method ExecRead(id: Text, now: u64, salt: Hash) returns (r: Outcome<Found>)
      requires Valid()
      modifies backend.file, backend.store
      ensures Valid()
      ensures (State(), Got(r)) == Execute(backend.c, who, old(State()), Statement.Read(id, now, salt))
    {
      hide SaveSpec, Appended, Decrypted, DecryptPayload, Validate, RedbFile.Valid;
      var readResult := backend.store.Read(id, who.ownerId, now);
      var saved := backend.Save(salt);
      if saved.Failure? {
        return Failure(saved.error);
      }
      if readResult.Failure? {
        return Failure(readResult.error);
      }
      return Decrypted(backend.c, who, id, readResult.value);
    }

    method ExecDelete(id: Text, now: u64, salt: Hash) returns (r: Outcome<()>)
      requires Valid()
      modifies backend.file, backend.store
      ensures Valid()
      ensures (State(), Done(r)) == Execute(backend.c, who, old(State()), Statement.Delete(id, now, salt))
    {
      hide SaveSpec, Appended, Validate, RedbFile.Valid;
      r := backend.store.Delete(id, who.ownerId, now);
      if r.Failure? {
        return;
      }
      r := backend.Save(salt);
    }

    /**
     The owner's records of the tier asked for, each checked to decrypt. One
     unreadable record makes the whole listing fail; nothing is logged or saved.
     */
    method ExecList(filter: Option<DataTier>) returns (r: Outcome<seq<RecordInfo>>)
      requires Valid()
      ensures r.Success? <==>
        forall id | id in ListedIds(backend.store.records, who.ownerId, filter) ::
          Decrypts(backend.c, who.password, backend.store.records[id])
      ensures r.Success? ==> Lists(IdsIn(r.value), ListedIds(backend.store.records, who.ownerId, filter))
      ensures r.Success? ==> forall info | info in r.value :: Describes(backend.store.records, filter, info)
      ensures r.Failure? ==>
        exists id | id in ListedIds(backend.store.records, who.ownerId, filter) ::
          !Decrypts(backend.c, who.password, backend.store.records[id])
          && r.error == DecryptError(backend.c, who.password, backend.store.records[id])
    {
      hide Readable, OwnedBy, Infos, Filtered, Lists, WellKeyed, RedbFile.Valid, Decrypts, DecryptError, Shown;
      hide Describes, IdsIn;
      var snapshots := backend.store.ListByOwner(who.ownerId);
      var infos: seq<RecordInfo> := [];
      EmptyListing(filter);
      for i := 0 to |snapshots|
        invariant infos == Infos(Filtered(snapshots[..i], filter))
        invariant forall j | 0 <= j < i && Shown(filter, snapshots[j]) ::
          Readable(backend.c, who, snapshots[j]).Success?
      {
        var x := snapshots[i];
        assert snapshots[..i + 1] == snapshots[..i] + [x];
        FilteredMore(snapshots[..i], x, filter);
        if Shown(filter, x) {
          var readable := Readable(backend.c, who, x);
          if readable.Failure? {
            ListsMember(snapshots, OwnedBy(backend.store.records, who.ownerId), x);
            ListedRecord(backend.store.records, who.ownerId, filter, x);
            ReadableExactly(backend.c, who, x);
            return Failure(readable.error);
          }
          InfosMore(Filtered(snapshots[..i], filter), x);
          infos := infos + [RecordInfo(x.id, x.tier, x.createdAt)];
        }
      }
      assert snapshots[..|snapshots|] == snapshots;
      FilteredLists(snapshots, OwnedBy(backend.store.records, who.ownerId), filter);
      forall id | id in ListedIds(backend.store.records, who.ownerId, filter)
        ensures Decrypts(backend.c, who.password, backend.store.records[id])
      {
        var x := backend.store.records[id];
        ListedIsOwned(backend.store.records, who.ownerId, filter, id);
        ListsMember(snapshots, OwnedBy(backend.store.records, who.ownerId), x);
        var j :| 0 <= j < |snapshots| && snapshots[j] == x;
        ReadableExactly(backend.c, who, x);
      }
      InfosListed(backend.store.records, who.ownerId, filter, Filtered(snapshots, filter));
      return Success(infos);
    }
  }

  lemma WriteKeepsKeys(c: Crypto, s: StoreState, r: Record, now: u64)
    requires WellKeyed(s.records)
    ensures WellKeyed(WriteStep(c, s, r, now).0.records)
  {
    hide Appended;
  }

  ghost function Infos(s: seq<Record>): (t: seq<RecordInfo>)
    ensures |t| == |s|
  {
    seq(|s|, i requires 0 <= i < |s| => RecordInfo(s[i].id, s[i].tier, s[i].createdAt))
  }

  lemma InfosMore(s: seq<Record>, x: Record)
    ensures Infos(s + [x]) == Infos(s) + [RecordInfo(x.id, x.tier, x.createdAt)]
  {
  }

  ghost function Filtered(s: seq<Record>, filter: Option<DataTier>): seq<Record> {
    if s == [] then []
    else Filtered(s[..|s| - 1], filter) + if Shown(filter, s[|s| - 1]) then [s[|s| - 1]] else []
  }

  lemma EmptyListing(filter: Option<DataTier>)
    ensures Infos(Filtered([], filter)) == []
  {
  }

  lemma FilteredMore(s: seq<Record>, x: Record, filter: Option<DataTier>)
    ensures Filtered(s + [x], filter) == if Shown(filter, x) then Filtered(s, filter) + [x] else Filtered(s, filter)
  {
    assert (s + [x])[..|s|] == s;
    assert Filtered(s, filter) + [] == Filtered(s, filter);
  }

  lemma {:induction false} FilteredCounts(s: seq<Record>, filter: Option<DataTier>, x: Record)
    ensures multiset(Filtered(s, filter))[x] == if Shown(filter, x) then multiset(s)[x] else 0
  {
    hide Shown;
    if s != [] {
      FilteredCounts(s[..|s| - 1], filter, x);
      assert s == s[..|s| - 1] + [s[|s| - 1]];
    }
  }

  lemma FilteredLists(all: seq<Record>, owned: set<Record>, filter: Option<DataTier>)
    requires Lists(all, owned)
    ensures Lists(Filtered(all, filter), set x | x in owned && Shown(filter, x))
  {
    forall x
      ensures multiset(Filtered(all, filter))[x] == multiset(set y | y in owned && Shown(filter, y))[x]
    {
      FilteredCounts(all, filter, x);
      assert multiset(all)[x] == multiset(owned)[x];
    }
  }
}
