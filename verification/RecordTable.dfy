/**
 Record tables: the rows a reader accepts, and the first error it reports.

 Redb keeps one table; Fjall keeps one keyspace a tier and also insists that a
 row lies in the keyspace of its tier and that no id occurs in two of them.
 */
module RecordTable {
  import opened Base
  import opened Bytes
  import opened Ordering
  import opened Envelope
  import opened Records

  /** Where a row was found; `taken` are the ids met in earlier keyspaces. */
  datatype Home = AnyTier | OneTier(tier: DataTier, taken: set<Text>)

  predicate FitsHome(home: Home, r: Record) {
    home.OneTier? ==> r.tier == home.tier && r.id !in home.taken
  }

  function CheckCell(home: Home, key: Text, cell: RecordCell): Outcome<Record> {
    match cell
    case BadRecord => Failure(LoadFailed)
    case RecordRow(persisted) =>
      var record := IntoValidated(persisted);
      if record.Failure? then record
      else if key != record.value.id || !FitsHome(home, record.value) then Failure(LoadFailed)
      else record
  }

  predicate AllCellsGood(home: Home, cells: CellMap) {
    forall k | k in cells :: CheckCell(home, k, cells[k]).Success?
  }

  /** The first row, in key order, that does not validate. */
  ghost predicate FirstBad(home: Home, cells: CellMap, k: Text) {
    k in cells && CheckCell(home, k, cells[k]).Failure?
    && forall j | j in cells && CheckCell(home, j, cells[j]).Failure? :: LexLeq(k, j)
  }

  /** The records of a table, or the error of the first bad row. */
  ghost function ReadRecords(home: Home, cells: CellMap): Outcome<RecordMap> {
    if AllCellsGood(home, cells) then Success(map k | k in cells :: CheckCell(home, k, cells[k]).value)
    else
      FirstBadExists(home, cells);
      var k :| FirstBad(home, cells, k);
      Failure(CheckCell(home, k, cells[k]).error)
  }

  lemma FirstBadExists(home: Home, cells: CellMap)
    requires !AllCellsGood(home, cells)
    ensures exists k :: FirstBad(home, cells, k)
  {
    hide CheckCell, LexLeq;
    var bad := set k | k in cells && CheckCell(home, k, cells[k]).Failure?;
    var one :| one in cells && CheckCell(home, one, cells[one]).Failure?;
    assert one in bad;
    var k := Least(bad);
    assert FirstBad(home, cells, k);
  }

  lemma FirstBadUnique(home: Home, cells: CellMap, k: Text, l: Text)
    requires FirstBad(home, cells, k) && FirstBad(home, cells, l)
    ensures k == l
  {
    LexAntisymmetric(k, l);
  }

  /**
   Stored records read back as they were exactly when no stamp is zero;
   otherwise the reader reports the stamp, whichever row comes first.
   */
  lemma ReadBack(home: Home, records: RecordMap)
    requires WellKeyed(records)
    requires forall id | id in records :: FitsHome(home, records[id])
    ensures ReadRecords(home, EncodeRecords(records))
         == if NoZeroStamp(records) then Success(records) else Failure(InvalidCreatedAt)
  {
    hide CheckCell, Validate, FitsHome, LexLeq;
    var cells := EncodeRecords(records);
    forall id | id in cells
      ensures CheckCell(home, id, cells[id])
           == if records[id].createdAt == 0 then Failure(InvalidCreatedAt) else Success(records[id])
    {
      CheckedRow(home, records[id]);
    }
    if NoZeroStamp(records) {
      assert ReadRecords(home, cells).value == records;
    } else {
      var id :| id in records && records[id].createdAt == 0;
      assert CheckCell(home, id, cells[id]).Failure?;
    }
  }

  lemma CheckedRow(home: Home, r: Record)
    requires Validate(r).Success? && FitsHome(home, r)
    ensures CheckCell(home, r.id, RecordRow(r)) == if r.createdAt == 0 then Failure(InvalidCreatedAt) else Success(r)
  {
  }

  /** Read and validate a record table in key order. */
  method ReadRecordTable(home: Home, cells: CellMap) returns (r: Outcome<RecordMap>)
    ensures r == ReadRecords(home, cells)
  {
    hide CheckCell, LexLeq;
    var rows := ScanKeyspace(cells);
    ScanSize(cells, rows);
    var records: RecordMap := map[];
    for i := 0 to |rows|
      invariant forall j | 0 <= j < i :: CheckCell(home, rows[j].key, rows[j].value).Success?
      invariant forall k | k in records :: k in cells && CheckCell(home, k, cells[k]) == Success(records[k])
      invariant forall j | 0 <= j < i :: rows[j].key in records
    {
      var checked := CheckCell(home, rows[i].key, rows[i].value);
      if checked.Failure? {
        FirstBadScanned(home, cells, rows, i);
        return Failure(checked.error);
      }
      records := records[rows[i].key := checked.value];
    }
    forall k | k in cells
      ensures k in records
    {
      assert Keyed(k, cells[k]) in Rows(cells);
      ListsMember(rows, Rows(cells), Keyed(k, cells[k]));
    }
    assert AllCellsGood(home, cells);
    assert records == map k | k in cells :: CheckCell(home, k, cells[k]).value;
    return Success(records);
  }

  lemma FirstBadScanned(home: Home, cells: CellMap, rows: seq<Keyed<RecordCell>>, i: nat)
    requires InKeyOrder(rows, cells) && i < |rows|
    requires forall j | 0 <= j < |rows| :: rows[j].key in cells && cells[rows[j].key] == rows[j].value
    requires forall j | 0 <= j < i :: CheckCell(home, rows[j].key, rows[j].value).Success?
    requires CheckCell(home, rows[i].key, rows[i].value).Failure?
    ensures ReadRecords(home, cells) == Failure(CheckCell(home, rows[i].key, rows[i].value).error)
  {
    hide CheckCell, LexLeq;
    var k := rows[i].key;
    forall j | j in cells && CheckCell(home, j, cells[j]).Failure?
      ensures LexLeq(k, j)
    {
      assert Keyed(j, cells[j]) in Rows(cells);
      ListsMember(rows, Rows(cells), Keyed(j, cells[j]));
      var m :| 0 <= m < |rows| && rows[m] == Keyed(j, cells[j]);
      AscendingAt(rows, i, m);
    }
    assert FirstBad(home, cells, k);
    forall l | FirstBad(home, cells, l)
      ensures l == k
    {
      FirstBadUnique(home, cells, k, l);
    }
  }

  // ---- Row by row --------------------------------------------------------

  /** A row that is a valid record under its own id. */
  predicate SoundRow(key: Text, cell: RecordCell) {
    cell.RecordRow? && cell.persisted.id == key && key != [] && cell.persisted.ownerId != []
    && cell.persisted.createdAt != 0
  }

  predicate SoundAt(home: Home, key: Text, cell: RecordCell) {
    SoundRow(key, cell) && (home.OneTier? ==> cell.persisted.tier == home.tier && key !in home.taken)
  }

  /** What a reader reports of a row that is not sound. */
  function RowError(cell: RecordCell): EdisonError {
    if cell.BadRecord? then LoadFailed
    else if cell.persisted.createdAt == 0 then InvalidCreatedAt
    else if cell.persisted.ownerId == [] then NoOwner
    else if cell.persisted.id == [] then EmptyRecordId
    else LoadFailed
  }

  lemma CellExactly(home: Home, key: Text, cell: RecordCell)
    ensures CheckCell(home, key, cell)
         == if SoundAt(home, key, cell) then Success(cell.persisted) else Failure(RowError(cell))
  {
  }

  /** A table reads exactly when every row is sound, as the rows it holds; else the first unsound row is reported. */
  lemma ReadExactly(home: Home, cells: CellMap)
    ensures ReadRecords(home, cells).Success? <==> forall k | k in cells :: SoundAt(home, k, cells[k])
    ensures ReadRecords(home, cells).Success? ==>
      ReadRecords(home, cells).value.Keys == cells.Keys
      && forall k | k in cells :: cells[k].RecordRow? && ReadRecords(home, cells).value[k] == cells[k].persisted
    ensures ReadRecords(home, cells).Failure? ==>
      exists k | k in cells && !SoundAt(home, k, cells[k]) ::
        ReadRecords(home, cells).error == RowError(cells[k])
        && forall j | j in cells && !SoundAt(home, j, cells[j]) :: LexLeq(k, j)
  {
    hide CheckCell, RowError, LexLeq;
    forall k | k in cells
      ensures CheckCell(home, k, cells[k])
           == if SoundAt(home, k, cells[k]) then Success(cells[k].persisted) else Failure(RowError(cells[k]))
    {
      CellExactly(home, k, cells[k]);
    }
    if AllCellsGood(home, cells) {
      assert forall k | k in cells :: SoundAt(home, k, cells[k]) && cells[k].RecordRow?;
    } else {
      FirstBadExists(home, cells);
      var k :| FirstBad(home, cells, k);
      forall l | FirstBad(home, cells, l)
        ensures l == k
      {
        FirstBadUnique(home, cells, k, l);
      }
    }
  }
}
