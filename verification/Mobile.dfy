/**
 The mobile database: its 78-byte provenance header, and the write counter that
 is persisted in a second step after the record.

 A crash may fall between the two steps, and either step may fail. Completed
 writes survive.
 */
module Mobile {
  import opened Base
  import opened Bytes
  import opened Crypto

  // ---- The provenance header ---------------------------------------------

  const SIZE: nat := 78

  /** "ARPi" */
  function ArpiMagic(): seq<byte> {
    [65, 82, 80, 105]
  }

  type Magic4 = b: seq<byte> | |b| == 4 witness [0, 0, 0, 0]
  type Reserved = b: seq<byte> | |b| == 3 witness [0, 0, 0]
  type NodeId = b: seq<byte> | |b| == 22 witness seq(22, _ => 0)

  datatype Header = Header(
    magic: Magic4,
    writeCounter: u64,
    timestampUs: u64,
    tier: byte,
    reserved: Reserved,
    blake3: Hash,
    nodeId: NodeId
  )

  function ToBytes(h: Header): (b: seq<byte>)
    ensures |b| == SIZE
  {
    h.magic + LittleEndian(h.writeCounter, 8) + LittleEndian(h.timestampUs, 8) + [h.tier] + h.reserved + h.blake3
      + h.nodeId
  }

  /** The encoder fills a zeroed buffer field by field. */
  method Encode(h: Header) returns (out: array<byte>)
    ensures fresh(out) && out[..] == ToBytes(h)
  {
    hide LittleEndian;
    out := new byte[SIZE](_ => 0);
    CopyInto(out, 0, h.magic);
    assert out[..4] == h.magic;
    CopyInto(out, 4, LittleEndian(h.writeCounter, 8));
    assert out[..12] == h.magic + LittleEndian(h.writeCounter, 8);
    CopyInto(out, 12, LittleEndian(h.timestampUs, 8));
    out[20] := h.tier;
    assert out[..21] == h.magic + LittleEndian(h.writeCounter, 8) + LittleEndian(h.timestampUs, 8) + [h.tier];
    CopyInto(out, 21, h.reserved);
    CopyInto(out, 24, h.blake3);
    assert out[..56] == h.magic + LittleEndian(h.writeCounter, 8) + LittleEndian(h.timestampUs, 8) + [h.tier]
      + h.reserved + h.blake3;
    CopyInto(out, 56, h.nodeId);
    assert out[..] == out[..78];
  }

  /** What the decoder checks before it reads the fields. */
  predicate WellFormed(b: seq<byte>) {
    |b| == SIZE && b[0..4] == ArpiMagic() && b[20] <= 2 && b[21..24] == [0, 0, 0]
  }

  function FromBytes(b: seq<byte>): Option<Header> {
    if |b| != SIZE then None
    else if b[0..4] != ArpiMagic() then None
    else if b[20] > 2 then None
    else if b[21..24] != [0, 0, 0] then None
    else Some(Header(ArpiMagic(), ReadU64(b[4..12]), ReadU64(b[12..20]), b[20], b[21..24], b[24..56], b[56..78]))
  }

  /** Where each field lies. */
  lemma HeaderParts(h: Header)
    ensures var b := ToBytes(h);
      b[0..4] == h.magic && b[4..12] == LittleEndian(h.writeCounter, 8) && b[12..20] == LittleEndian(h.timestampUs, 8)
      && b[20] == h.tier && b[21..24] == h.reserved && b[24..56] == h.blake3 && b[56..78] == h.nodeId
  {
    hide LittleEndian;
  }

  /** A header decodes to itself exactly when magic, tier and reserved bytes are legal. */
  lemma HeaderRoundTrip(h: Header)
    ensures FromBytes(ToBytes(h)) ==
      if h.magic == ArpiMagic() && h.tier <= 2 && h.reserved == [0, 0, 0] then Some(h) else None
  {
    hide LittleEndian, ReadU64, ToBytes;
    HeaderParts(h);
    U64ReadsBack(h.writeCounter);
    U64ReadsBack(h.timestampUs);
  }

  /** The decoder accepts exactly the well-formed patterns and re-encodes them unchanged. */
  lemma HeaderAccepts(b: seq<byte>)
    ensures FromBytes(b).Some? <==> WellFormed(b)
    ensures FromBytes(b).Some? ==> ToBytes(FromBytes(b).value) == b
  {
    hide LittleEndian, ReadU64;
    if FromBytes(b).Some? {
      U64Rewritten(b[4..12]);
      U64Rewritten(b[12..20]);
      assert b == b[0..4] + b[4..12] + b[12..20] + [b[20]] + b[21..24] + b[24..56] + b[56..78];
    }
  }

  function Pack(header: seq<byte>, value: seq<byte>): seq<byte> {
    header + value
  }

  function UnpackValue(record: seq<byte>): Option<seq<byte>> {
    if |record| < SIZE then None else Some(record[SIZE..])
  }

  // ---- The database ------------------------------------------------------

  datatype DbError = InvalidArpi | InvalidCounterState | CounterExhausted | Storage

  type Reply<+T> = Result<T, DbError>

  /** Keys and records are bytes; one key holds the counter. */
  type Partition = map<Text, seq<byte>>

  function CounterKey(): Text {
    Ascii("__write_counter__")
  }

  datatype MobileState = MobileState(partition: Partition, counter: u64)

  function NextWriteCounter(current: u64): Option<u64> {
    if current + 1 < U64_LIMIT then Some(current + 1) else None
  }

  /** The counter a reopen reads; absent means zero. */
  function StoredCounter(p: Partition): Reply<u64> {
    if CounterKey() !in p then Success(0)
    else if |p[CounterKey()]| != 8 then Failure(InvalidCounterState)
    else Success(ReadU64(p[CounterKey()]))
  }

  /** The checks of an insert: the header, the content hash, the counter. */
  function Admit(c: Crypto, counter: u64, value: seq<byte>, arpi: seq<byte>): Reply<Header> {
    if |arpi| < SIZE then Failure(InvalidArpi)
    else
      var header := FromBytes(arpi);
      if header.None? then Failure(InvalidArpi)
      else if c.blake3(value) != header.value.blake3 then Failure(InvalidArpi)
      else if NextWriteCounter(counter).None? then Failure(CounterExhausted)
      else Success(header.value.(writeCounter := NextWriteCounter(counter).value))
  }

  function RecordWritten(p: Partition, key: Text, header: Header, value: seq<byte>): Partition {
    p[key := Pack(ToBytes(header), value)]
  }

  function CounterWritten(p: Partition, counter: u64): Partition {
    p[CounterKey() := LittleEndian(counter, 8)]
  }

  /** One insert; `recordOk` and `counterOk` say which of its two writes succeed. */
  function InsertStep(c: Crypto, s: MobileState, key: Text, value: seq<byte>, arpi: seq<byte>, recordOk: bool,
          counterOk: bool): (MobileState, Reply<()>)
  {
    var admitted := Admit(c, s.counter, value, arpi);
    if admitted.Failure? then (s, Failure(admitted.error))
    else
      var header := admitted.value;
      if !recordOk then (s.(counter := header.writeCounter), Failure(Storage))
      else
        var written := RecordWritten(s.partition, key, header, value);
        if !counterOk then (MobileState(written, header.writeCounter), Failure(Storage))
        else (MobileState(CounterWritten(written, header.writeCounter), header.writeCounter), Success(()))
  }

  function Lookup(p: Partition, key: Text): Option<seq<byte>> {
    if key !in p then None
    else
      var value := UnpackValue(p[key]);
      Some(if value.None? then [] else value.value)
  }

  class MobileDb {
    var partition: Partition
    var writeCounter: u64

    constructor (partition: Partition, writeCounter: u64)
      ensures this.partition == partition && this.writeCounter == writeCounter
    {
      this.partition, this.writeCounter := partition, writeCounter;
    }

    ghost function State(): MobileState
      reads this
    {
      MobileState(partition, writeCounter)
    }

    static method Open(partition: Partition) returns (r: Reply<MobileDb>)
      ensures r.Success? <==> StoredCounter(partition).Success?
      ensures r.Success? ==> fresh(r.value) && r.value.State() == MobileState(partition, StoredCounter(partition).value)
      ensures r.Failure? ==> r.error == InvalidCounterState
    {
      var counter: u64 := 0;
      if CounterKey() in partition {
        var stored := partition[CounterKey()];
        if |stored| != 8 {
          return Failure(InvalidCounterState);
        }
        counter := ReadU64(stored);
      }
      var db := new MobileDb(partition, counter);
      return Success(db);
    }

    method NextCounter() returns (r: Reply<u64>)
      modifies this`writeCounter
      ensures r.Success? <==> NextWriteCounter(old(writeCounter)).Some?
      ensures r.Success? ==> r.value == writeCounter == NextWriteCounter(old(writeCounter)).value
      ensures r.Failure? ==> r.error == CounterExhausted && writeCounter == old(writeCounter)
    {
      var next := NextWriteCounter(writeCounter);
      if next.None? {
        return Failure(CounterExhausted);
      }
      writeCounter := next.value;
      return Success(next.value);
    }

    method PersistCounter(ok: bool) returns (r: Reply<()>)
      modifies this`partition
      ensures r == if ok then Success(()) else Failure(Storage)
      ensures partition == if ok then CounterWritten(old(partition), writeCounter) else old(partition)
    {
      if !ok {
        return Failure(Storage);
      }
      partition := CounterWritten(partition, writeCounter);
      return Success(());
    }

    method Insert(c: Crypto, key: Text, value: seq<byte>, arpi: seq<byte>, recordOk: bool, counterOk: bool)
      returns (r: Reply<()>)
      modifies this
      ensures (State(), r) == InsertStep(c, old(State()), key, value, arpi, recordOk, counterOk)
    {
      hide FromBytes, ToBytes, CounterWritten;
      if |arpi| < SIZE {
        return Failure(InvalidArpi);
      }
      var header := FromBytes(arpi);
      if header.None? {
        return Failure(InvalidArpi);
      }
      if c.blake3(value) != header.value.blake3 {
        return Failure(InvalidArpi);
      }
      var counter := NextCounter();
      if counter.Failure? {
        return Failure(counter.error);
      }
      var finalHeader := header.value.(writeCounter := counter.value);
      if !recordOk {
        return Failure(Storage);
      }
      var headerBytes := Encode(finalHeader);
      partition := partition[key := Pack(headerBytes[..], value)];
      r := PersistCounter(counterOk);
    }

    method Query(key: Text) returns (r: Option<seq<byte>>)
      ensures r == Lookup(partition, key)
    {
      if key !in partition {
        return None;
      }
      var value := UnpackValue(partition[key]);
      return Some(if value.Some? then value.value else []);
    }

    method Delete(key: Text) returns (existed: bool)
      modifies this`partition
      ensures existed <==> key in old(partition)
      ensures partition == old(partition) - {key}
    {
      existed := key in partition;
      partition := partition - {key};
    }
  }

  /** A rejected insert changes nothing, neither on disk nor in memory. */
  lemma RejectedChangesNothing(c: Crypto, s: MobileState, key: Text, value: seq<byte>, arpi: seq<byte>, recordOk: bool,
          counterOk: bool)
    ensures var (t, r) := InsertStep(c, s, key, value, arpi, recordOk, counterOk);
      r.Failure? && r.error != Storage ==> t == s
  {
  }

  /**
   What an admitted insert leaves: the header given, with the next counter in bytes 4 to
   11 and every other byte as it was, then the value; and the counter under its key, if
   that write succeeds.
   */
  lemma InsertStores(c: Crypto, s: MobileState, key: Text, value: seq<byte>, arpi: seq<byte>, counterOk: bool)
    requires |arpi| == 78 && arpi[..4] == [65, 82, 80, 105] && arpi[20] <= 2 && arpi[21..24] == [0, 0, 0]
    requires arpi[24..56] == c.blake3(value) && s.counter + 1 < U64_LIMIT
    ensures var t := InsertStep(c, s, key, value, arpi, true, counterOk).0;
      var record := arpi[..4] + LittleEndian(s.counter + 1, 8) + arpi[12..] + value;
      t.counter == s.counter + 1
      && t.partition == if counterOk
                        then s.partition[key := record][Ascii("__write_counter__") := LittleEndian(s.counter + 1, 8)]
                        else s.partition[key := record]
  {
    hide LittleEndian, ReadU64, ToBytes;
    HeaderAccepts(arpi);
    var h := FromBytes(arpi).value;
    HeaderParts(h);
    HeaderPrinted(h);
    HeaderPrinted(h.(writeCounter := s.counter + 1));
    assert arpi[12..] == arpi[12..20] + [arpi[20]] + arpi[21..24] + arpi[24..56] + arpi[56..78];
  }

  lemma HeaderPrinted(h: Header)
    ensures ToBytes(h) == h.magic + LittleEndian(h.writeCounter, 8)
                          + (LittleEndian(h.timestampUs, 8) + [h.tier] + h.reserved + h.blake3 + h.nodeId)
  {
    hide LittleEndian;
  }

  // ---- Runs with crashes and failures ------------------------------------

  /** The partition on disk, the counter of the open handle, the failures so far. */
  datatype World = World(disk: Partition, handle: Option<u64>, failures: nat)

  /** How far an admitted insert gets. */
  datatype Fate = Finished | CrashBeforeRecord | CrashAfterRecord | RecordFailed | CounterFailed

  datatype Step =
    | Open
    | Close
    | Insert(key: Text, value: seq<byte>, arpi: seq<byte>, fate: Fate)
    | Delete(key: Text)

  function AfterInsert(c: Crypto, w: World, step: Step): World
    requires step.Insert? && w.handle.Some?
  {
    var s := MobileState(w.disk, w.handle.value);
    var admitted := Admit(c, s.counter, step.value, step.arpi);
    if admitted.Failure? then w
    else
      match step.fate
      case CrashBeforeRecord => w.(handle := None)
      case CrashAfterRecord => w.(disk := RecordWritten(w.disk, step.key, admitted.value, step.value), handle := None)
      case _ =>
        var t := InsertStep(c, s, step.key, step.value, step.arpi,
                            step.fate != RecordFailed, step.fate != CounterFailed).0;
        World(t.partition, Some(t.counter), w.failures + if step.fate == Finished then 0 else 1)
  }

  function Next(c: Crypto, w: World, step: Step): World {
    match step
    case Open =>
      if w.handle.None? && StoredCounter(w.disk).Success? then w.(handle := Some(StoredCounter(w.disk).value)) else w
    case Close => w.(handle := None)
    case Insert(_, _, _, _) => if w.handle.Some? then AfterInsert(c, w, step) else w
    case Delete(key) => if w.handle.Some? then w.(disk := w.disk - {key}) else w
  }

  function RunSteps(c: Crypto, w: World, steps: seq<Step>): World
    decreases |steps|
  {
    if steps == [] then w else Next(c, RunSteps(c, w, steps[..|steps| - 1]), steps[|steps| - 1])
  }

  /** The counter in the header of a stored record. */
  function CounterOf(record: seq<byte>): u64
    requires |record| >= SIZE
  {
    ReadU64(record[4..12])
  }

  function Persisted(w: World): u64 {
    if StoredCounter(w.disk).Success? then StoredCounter(w.disk).value else 0
  }

  predicate Bounded(p: Partition, limit: nat) {
    forall k | k in p && k != CounterKey() :: |p[k]| >= SIZE && CounterOf(p[k]) <= limit
  }

  /** No stored counter is ahead of the persisted one by more than one and the failures. */
  predicate MobileInv(w: World) {
    && StoredCounter(w.disk).Success?
    && Bounded(w.disk, Persisted(w) + 1 + w.failures)
    && (w.handle.Some? ==> Persisted(w) <= w.handle.value <= Persisted(w) + w.failures)
  }

  lemma PackedCounter(header: Header, value: seq<byte>)
    ensures |Pack(ToBytes(header), value)| >= SIZE
    ensures CounterOf(Pack(ToBytes(header), value)) == header.writeCounter
    ensures UnpackValue(Pack(ToBytes(header), value)) == Some(value)
  {
    hide LittleEndian, ReadU64;
    var b := Pack(ToBytes(header), value);
    assert b[4..12] == LittleEndian(header.writeCounter, 8);
    assert b[SIZE..] == value;
    U64ReadsBack(header.writeCounter);
  }

  lemma WrittenCounter(p: Partition, counter: u64)
    ensures StoredCounter(CounterWritten(p, counter)) == Success(counter)
  {
    hide LittleEndian, ReadU64, CounterKey;
    U64ReadsBack(counter);
  }

  lemma BoundedAfter(p: Partition, limit: nat, key: Text, header: Header, value: seq<byte>, higher: nat)
    requires Bounded(p, limit) && limit <= higher && header.writeCounter <= higher
    ensures Bounded(RecordWritten(p, key, header, value), higher)
  {
    hide ToBytes, CounterOf, Pack;
    PackedCounter(header, value);
  }

  /** An insert the checks would let through, the counter aside. */
  predicate Legal(c: Crypto, value: seq<byte>, arpi: seq<byte>) {
    WellFormed(arpi) && arpi[24..56] == c.blake3(value)
  }

  /** A legal insert gets the next counter, until the counter is exhausted. */
  lemma AdmitExact(c: Crypto, counter: u64, value: seq<byte>, arpi: seq<byte>)
    ensures Admit(c, counter, value, arpi).Success? <==> Legal(c, value, arpi) && counter + 1 < U64_LIMIT
    ensures Admit(c, counter, value, arpi).Success? ==> Admit(c, counter, value, arpi).value.writeCounter == counter + 1
    ensures Legal(c, value, arpi) && counter + 1 == U64_LIMIT ==>
      Admit(c, counter, value, arpi) == Failure(CounterExhausted)
  {
    hide ReadU64;
  }

  /** The insert a step asks for is admitted. */
  predicate Admitted(c: Crypto, w: World, step: Step) {
    step.Insert? && w.handle.Some? && Admit(c, w.handle.value, step.value, step.arpi).Success?
  }

  /**
   The steps that harm the counter: deleting it once it is above zero, and an
   admitted insert under its key that leaves a record there.
   */
  predicate Harms(c: Crypto, w: World, step: Step) {
    || (step.Delete? && w.handle.Some? && step.key == CounterKey() && Persisted(w) > 0)
    || (Admitted(c, w, step) && step.key == CounterKey()
       && (step.fate == CrashAfterRecord || step.fate == CounterFailed))
  }

  lemma HarmlessKeeps(c: Crypto, w: World, step: Step)
    requires MobileInv(w) && !Harms(c, w, step)
    ensures MobileInv(Next(c, w, step)) && Persisted(w) <= Persisted(Next(c, w, step))
  {
    hide ToBytes, CounterOf, Pack, FromBytes, LittleEndian, CounterKey, ReadU64, Admit;
    if Admitted(c, w, step) {
      AdmitExact(c, w.handle.value, step.value, step.arpi);
      var header := Admit(c, w.handle.value, step.value, step.arpi).value;
      BoundedAfter(w.disk, Persisted(w) + 1 + w.failures, step.key, header, step.value, Persisted(w) + 1 + w.failures);
      BoundedAfter(w.disk, Persisted(w) + 1 + w.failures, step.key, header, step.value,
                   header.writeCounter + 1 + w.failures);
      WrittenCounter(RecordWritten(w.disk, step.key, header, step.value), header.writeCounter);
    }
  }

  lemma HarmfulBreaks(c: Crypto, w: World, step: Step)
    requires Harms(c, w, step)
    ensures !(MobileInv(Next(c, w, step)) && Persisted(w) <= Persisted(Next(c, w, step)))
  {
    hide ToBytes, FromBytes, LittleEndian, CounterKey, ReadU64, Admit, CounterOf;
    if step.Insert? {
      PackedCounter(Admit(c, w.handle.value, step.value, step.arpi).value, step.value);
    }
  }

  /** One step keeps the bound and never lowers the counter, exactly when it is none of the harmful ones. */
  lemma StepExact(c: Crypto, w: World, step: Step)
    requires MobileInv(w)
    ensures MobileInv(Next(c, w, step)) && Persisted(w) <= Persisted(Next(c, w, step)) <==> !Harms(c, w, step)
  {
    hide MobileInv, Next, Harms, StoredCounter;
    if Harms(c, w, step) {
      HarmfulBreaks(c, w, step);
    } else {
      HarmlessKeeps(c, w, step);
    }
  }

  predicate Harmless(c: Crypto, w: World, steps: seq<Step>)
    decreases |steps|
  {
    steps != [] ==>
      var n := |steps| - 1;
      Harmless(c, w, steps[..n]) && !Harms(c, RunSteps(c, w, steps[..n]), steps[n])
  }

  /**
   On every run without a harmful step, with any crashes and failures, the
   persisted counter never decreases and no stored counter exceeds it by more than
   one and the number of failed writes.
   */
  lemma {:induction false} RunKeeps(c: Crypto, w: World, steps: seq<Step>)
    requires MobileInv(w) && Harmless(c, w, steps)
    ensures MobileInv(RunSteps(c, w, steps)) && Persisted(w) <= Persisted(RunSteps(c, w, steps))
    decreases |steps|
  {
    hide MobileInv, Next, Harms, StoredCounter;
    if steps != [] {
      RunKeeps(c, w, steps[..|steps| - 1]);
      StepExact(c, RunSteps(c, w, steps[..|steps| - 1]), steps[|steps| - 1]);
    }
  }

  lemma EmptyPartition()
    ensures MobileInv(World(map[], None, 0)) && Persisted(World(map[], None, 0)) == 0
  {
  }

  // ---- Counting -----------------------------------------------------------

  /** Crashes are allowed, failed writes are not. */
  predicate CleanStep(c: Crypto, w: World, step: Step) {
    !Harms(c, w, step) && (step.Insert? ==> step.fate != RecordFailed && step.fate != CounterFailed)
  }

  predicate CleanSteps(c: Crypto, w: World, steps: seq<Step>)
    decreases |steps|
  {
    steps != [] ==>
      var n := |steps| - 1;
      CleanSteps(c, w, steps[..n]) && CleanStep(c, RunSteps(c, w, steps[..n]), steps[n])
  }

  predicate CleanInv(w: World) {
    StoredCounter(w.disk).Success? && (w.handle.Some? ==> w.handle.value == Persisted(w))
  }

  /** One for each admitted insert that finishes. */
  function FinishedBy(c: Crypto, w: World, step: Step): nat {
    if Admitted(c, w, step) && step.fate == Finished then 1 else 0
  }

  function FinishedIn(c: Crypto, w: World, steps: seq<Step>): nat
    decreases |steps|
  {
    if steps == [] then 0
    else
      var n := |steps| - 1;
      FinishedIn(c, w, steps[..n]) + FinishedBy(c, RunSteps(c, w, steps[..n]), steps[n])
  }

  lemma CleanStepKeeps(c: Crypto, w: World, step: Step)
    requires CleanInv(w) && CleanStep(c, w, step)
    ensures CleanInv(Next(c, w, step))
    ensures Persisted(Next(c, w, step)) == Persisted(w) + FinishedBy(c, w, step)
  {
    hide ToBytes, Pack, FromBytes, LittleEndian, CounterKey, ReadU64, Admit;
    if Admitted(c, w, step) {
      AdmitExact(c, w.handle.value, step.value, step.arpi);
      var header := Admit(c, w.handle.value, step.value, step.arpi).value;
      WrittenCounter(RecordWritten(w.disk, step.key, header, step.value), header.writeCounter);
    }
  }

  /** Without failed writes the counter counts the finished inserts, one by one, across crashes and reopening. */
  lemma {:induction false} CleanRunCounts(c: Crypto, w: World, steps: seq<Step>)
    requires CleanInv(w) && CleanSteps(c, w, steps)
    ensures CleanInv(RunSteps(c, w, steps))
    ensures Persisted(RunSteps(c, w, steps)) == Persisted(w) + FinishedIn(c, w, steps)
    decreases |steps|
  {
    hide CleanInv, Next, CleanStep, StoredCounter, FinishedBy;
    if steps != [] {
      CleanRunCounts(c, w, steps[..|steps| - 1]);
      CleanStepKeeps(c, RunSteps(c, w, steps[..|steps| - 1]), steps[|steps| - 1]);
    }
  }

  // ---- Uniqueness ---------------------------------------------------------

  /** Different records carry different counters. */
  predicate Apart(p: Partition) {
    && (forall k | k in p && k != CounterKey() :: |p[k]| >= SIZE)
    && (forall k, l | k in p && l in p && k != CounterKey() && l != CounterKey() && k != l ::
       CounterOf(p[k]) != CounterOf(p[l]))
  }

  /** And an open handle is at least at the highest of them. */
  predicate UniqueInv(w: World) {
    Apart(w.disk) && (w.handle.Some? ==> Bounded(w.disk, w.handle.value))
  }

  /** A closed database with a stored record ahead of the persisted counter. */
  predicate Overtaken(w: World) {
    w.handle.None? && StoredCounter(w.disk).Success? && !Bounded(w.disk, Persisted(w))
  }

  lemma ApartAfter(p: Partition, limit: nat, key: Text, header: Header, value: seq<byte>)
    requires Apart(p) && Bounded(p, limit) && limit < header.writeCounter
    ensures Apart(RecordWritten(p, key, header, value))
      && Bounded(RecordWritten(p, key, header, value), header.writeCounter)
  {
    hide ToBytes, CounterOf, Pack, CounterKey;
    PackedCounter(header, value);
  }

  lemma CounterApart(p: Partition, counter: u64, limit: nat)
    requires Apart(p) && Bounded(p, limit)
    ensures Apart(CounterWritten(p, counter)) && Bounded(CounterWritten(p, counter), limit)
  {
    hide CounterOf, LittleEndian;
  }

  /** Every step but one keeps counters unique, whatever crashes, fails, or is named. */
  lemma UniqueStep(c: Crypto, w: World, step: Step)
    requires UniqueInv(w)
    ensures UniqueInv(Next(c, w, step)) <==> !(step.Open? && Overtaken(w))
  {
    hide ToBytes, CounterOf, Pack, FromBytes, CounterKey, ReadU64, Admit, CounterWritten, RecordWritten;
    if Admitted(c, w, step) {
      AdmitExact(c, w.handle.value, step.value, step.arpi);
      var header := Admit(c, w.handle.value, step.value, step.arpi).value;
      ApartAfter(w.disk, w.handle.value, step.key, header, step.value);
      CounterApart(RecordWritten(w.disk, step.key, header, step.value), header.writeCounter, header.writeCounter);
      BoundedHigher(w.disk, w.handle.value, header.writeCounter);
    }
  }

  lemma BoundedHigher(p: Partition, limit: nat, higher: nat)
    requires Bounded(p, limit) && limit <= higher
    ensures Bounded(p, higher)
  {
    hide CounterOf;
  }

  /** No open of the run finds the database overtaken. */
  predicate NeverOvertaken(c: Crypto, w: World, steps: seq<Step>)
    decreases |steps|
  {
    steps != [] ==>
      var n := |steps| - 1;
      NeverOvertaken(c, w, steps[..n]) && !(steps[n].Open? && Overtaken(RunSteps(c, w, steps[..n])))
  }

  /** On every such run no two records share a counter. */
  lemma {:induction false} UniqueRun(c: Crypto, w: World, steps: seq<Step>)
    requires UniqueInv(w) && NeverOvertaken(c, w, steps)
    ensures UniqueInv(RunSteps(c, w, steps))
    decreases |steps|
  {
    hide UniqueInv, Next, Overtaken;
    if steps != [] {
      UniqueRun(c, w, steps[..|steps| - 1]);
      UniqueStep(c, RunSteps(c, w, steps[..|steps| - 1]), steps[|steps| - 1]);
    }
  }

  predicate NoOpen(steps: seq<Step>) {
    forall i | 0 <= i < |steps| :: !steps[i].Open?
  }

  /** After a close nothing changes the database until it is opened again. */
  lemma {:induction false} ClosedUntilOpen(c: Crypto, w: World, steps: seq<Step>)
    requires NoOpen(steps)
    ensures RunSteps(c, Next(c, w, Close), steps) == World(w.disk, None, w.failures)
    decreases |steps|
  {
    if steps != [] {
      var n := |steps| - 1;
      ClosedUntilOpen(c, w, steps[..n]);
      assert !steps[n].Open?;
    }
  }

  lemma {:induction false} NoOpenNeverOvertaken(c: Crypto, w: World, steps: seq<Step>)
    requires NoOpen(steps)
    ensures NeverOvertaken(c, w, steps)
    decreases |steps|
  {
    hide Next, Overtaken;
    if steps != [] {
      NoOpenNeverOvertaken(c, w, steps[..|steps| - 1]);
    }
  }

  /** The same insert, finished `n` times. */
  function Inserts(key: Text, value: seq<byte>, arpi: seq<byte>, fate: Fate, n: nat): (s: seq<Step>)
    ensures |s| == n && NoOpen(s)
  {
    if n == 0 then [] else Inserts(key, value, arpi, fate, n - 1) + [Insert(key, value, arpi, fate)]
  }

  lemma FinishedInsert(c: Crypto, w: World, key: Text, value: seq<byte>, arpi: seq<byte>)
    requires w.handle.Some? && w.handle.value + 1 < U64_LIMIT && key != CounterKey() && Legal(c, value, arpi)
    ensures var v := Next(c, w, Insert(key, value, arpi, Finished));
      v.handle == Some(w.handle.value + 1) && key in v.disk && |v.disk[key]| >= SIZE
      && CounterOf(v.disk[key]) == w.handle.value + 1
      && forall k | k in w.disk && k != key && k != CounterKey() :: k in v.disk && v.disk[k] == w.disk[k]
  {
    hide FromBytes, ToBytes, CounterKey, Pack, CounterOf, LittleEndian, WellFormed;
    AdmitExact(c, w.handle.value, value, arpi);
    PackedCounter(Admit(c, w.handle.value, value, arpi).value, value);
  }

  /** Finished inserts under a fresh key climb one by one past whatever is stored. */
  lemma {:induction false} InsertsClimb(c: Crypto, w: World, key: Text, value: seq<byte>, arpi: seq<byte>, n: nat,
          k: Text)
    requires w.handle.Some? && w.handle.value + n < U64_LIMIT && key != CounterKey() && Legal(c, value, arpi)
    requires k in w.disk && k != key && k != CounterKey()
    ensures var v := RunSteps(c, w, Inserts(key, value, arpi, Finished, n));
      && v.handle == Some(w.handle.value + n) && k in v.disk && v.disk[k] == w.disk[k]
      && (n > 0 ==> key in v.disk && |v.disk[key]| >= SIZE && CounterOf(v.disk[key]) == w.handle.value + n)
  {
    hide Next, CounterKey, CounterOf, Legal;
    if n > 0 {
      var steps := Inserts(key, value, arpi, Finished, n);
      assert steps[..n - 1] == Inserts(key, value, arpi, Finished, n - 1);
      InsertsClimb(c, w, key, value, arpi, n - 1, k);
      FinishedInsert(c, RunSteps(c, w, steps[..n - 1]), key, value, arpi);
    }
  }

  /** Opening an overtaken database lets legal inserts under a fresh key reach a counter already stored. */
  lemma OvertakenDuplicates(c: Crypto, w: World, key: Text, value: seq<byte>, arpi: seq<byte>)
    returns (steps: seq<Step>)
    requires Apart(w.disk) && Overtaken(w) && key !in w.disk && key != CounterKey() && Legal(c, value, arpi)
    ensures NoOpen(steps) && !Apart(RunSteps(c, Next(c, w, Open), steps).disk)
  {
    hide CounterKey, CounterOf, Legal, StoredCounter;
    var k :| k in w.disk && k != CounterKey() && CounterOf(w.disk[k]) > Persisted(w);
    steps := Inserts(key, value, arpi, Finished, CounterOf(w.disk[k]) - Persisted(w));
    InsertsClimb(c, Next(c, w, Open), key, value, arpi, |steps|, k);
  }

  /** Counters are unique on every run that goes on from here without a further open. */
  ghost predicate AlwaysApart(c: Crypto, w: World) {
    forall steps | NoOpen(steps) :: Apart(RunSteps(c, w, steps).disk)
  }

  /** The exact condition: an open is safe if and only if no stored counter exceeds the persisted one. */
  lemma OpenExactly(c: Crypto, w: World, key: Text, value: seq<byte>, arpi: seq<byte>)
    requires UniqueInv(w) && w.handle.None? && StoredCounter(w.disk).Success?
    requires key !in w.disk && key != CounterKey() && Legal(c, value, arpi)
    ensures AlwaysApart(c, Next(c, w, Open)) <==> Bounded(w.disk, Persisted(w))
  {
    hide Apart, CounterKey, Legal, StoredCounter, Next, Bounded, NoOpen;
    if Bounded(w.disk, Persisted(w)) {
      UniqueStep(c, w, Open);
      forall steps | NoOpen(steps)
        ensures Apart(RunSteps(c, Next(c, w, Open), steps).disk)
      {
        NoOpenNeverOvertaken(c, Next(c, w, Open), steps);
        UniqueRun(c, Next(c, w, Open), steps);
      }
    } else {
      var steps := OvertakenDuplicates(c, w, key, value, arpi);
    }
  }

  /** A legal header exists for every value. */
  lemma LegalHeader(c: Crypto, value: seq<byte>, timestampUs: u64, tier: byte, nodeId: NodeId)
    requires tier <= 2
    ensures Legal(c, value, ToBytes(Header(ArpiMagic(), 0, timestampUs, tier, [0, 0, 0], c.blake3(value), nodeId)))
  {
    hide LittleEndian, ReadU64;
    var h := Header(ArpiMagic(), 0, timestampUs, tier, [0, 0, 0], c.blake3(value), nodeId);
    HeaderParts(h);
  }

  /** What was inserted is what a query returns. */
  lemma InsertedIsFound(c: Crypto, s: MobileState, key: Text, value: seq<byte>, arpi: seq<byte>)
    requires key != CounterKey() && InsertStep(c, s, key, value, arpi, true, true).1.Success?
    ensures Lookup(InsertStep(c, s, key, value, arpi, true, true).0.partition, key) == Some(value)
  {
    hide FromBytes, ToBytes, CounterKey, Pack;
    PackedCounter(Admit(c, s.counter, value, arpi).value, value);
  }

  // ---- What the two steps do not give ------------------------------------

  /**
   Counters are not unique across a crash: the record that survived and the next
   record inserted carry the same counter.
   */
  lemma CrashDuplicates(c: Crypto, w: World, a: Text, b: Text, value: seq<byte>, arpi: seq<byte>)
    requires MobileInv(w) && w.handle == Some(Persisted(w)) && Persisted(w) + 1 < U64_LIMIT
    requires a != b && a != CounterKey() && b != CounterKey() && Legal(c, value, arpi)
    ensures var w1 := Next(c, w, Insert(a, value, arpi, CrashAfterRecord));
      var w2 := Next(c, Next(c, w1, Open), Insert(b, value, arpi, Finished));
      a in w2.disk && b in w2.disk && |w2.disk[a]| >= SIZE && |w2.disk[b]| >= SIZE
      && CounterOf(w2.disk[a]) == CounterOf(w2.disk[b]) == Persisted(w) + 1
  {
    hide FromBytes, ToBytes, CounterKey, Pack, CounterOf, ReadU64, LittleEndian, WellFormed;
    AdmitExact(c, w.handle.value, value, arpi);
    var header := Admit(c, w.handle.value, value, arpi).value;
    PackedCounter(header, value);
  }

  lemma FailedInsert(c: Crypto, w: World, key: Text, value: seq<byte>, arpi: seq<byte>)
    requires w.handle.Some? && w.handle.value + 1 < U64_LIMIT && key != CounterKey() && Legal(c, value, arpi)
    ensures var v := Next(c, w, Insert(key, value, arpi, CounterFailed));
      v.handle == Some(w.handle.value + 1) && Persisted(v) == Persisted(w) && v.failures == w.failures + 1
  {
    hide FromBytes, ToBytes, CounterKey, Pack, ReadU64, LittleEndian, WellFormed;
    AdmitExact(c, w.handle.value, value, arpi);
  }

  lemma {:induction false} FailedInserts(c: Crypto, w: World, key: Text, value: seq<byte>, arpi: seq<byte>, n: nat)
    requires w.handle.Some? && w.handle.value + n < U64_LIMIT && key != CounterKey() && Legal(c, value, arpi)
    ensures var v := RunSteps(c, w, Inserts(key, value, arpi, CounterFailed, n));
      v.handle == Some(w.handle.value + n) && Persisted(v) == Persisted(w) && v.failures == w.failures + n
  {
    hide Next, CounterKey, Legal, StoredCounter;
    if n > 0 {
      var steps := Inserts(key, value, arpi, CounterFailed, n);
      assert steps[..n - 1] == Inserts(key, value, arpi, CounterFailed, n - 1);
      FailedInserts(c, w, key, value, arpi, n - 1);
      FailedInsert(c, RunSteps(c, w, steps[..n - 1]), key, value, arpi);
    }
  }

  /** The bound is reached for every number of failures: `n` failed counter writes, and one crash after a record. */
  lemma FailuresRunAhead(c: Crypto, w: World, a: Text, b: Text, value: seq<byte>, arpi: seq<byte>, n: nat)
    requires w.handle == Some(Persisted(w)) && w.failures == 0 && Persisted(w) + n + 1 < U64_LIMIT
    requires a != CounterKey() && b != CounterKey() && Legal(c, value, arpi)
    ensures var v := RunSteps(c, w, Inserts(a, value, arpi, CounterFailed, n));
      var u := Next(c, v, Insert(b, value, arpi, CrashAfterRecord));
      u.failures == n && Persisted(u) == Persisted(w) && b in u.disk && |u.disk[b]| >= SIZE
      && CounterOf(u.disk[b]) == Persisted(u) + 1 + u.failures
  {
    hide FromBytes, ToBytes, CounterKey, Pack, CounterOf, ReadU64, LittleEndian, WellFormed, RunSteps;
    FailedInserts(c, w, a, value, arpi, n);
    var v := RunSteps(c, w, Inserts(a, value, arpi, CounterFailed, n));
    AdmitExact(c, v.handle.value, value, arpi);
    PackedCounter(Admit(c, v.handle.value, value, arpi).value, value);
  }

  /** The counter shares the record keyspace: deleting its key resets it. */
  lemma DeletingTheCounterResets(c: Crypto, w: World)
    requires w.handle.Some?
    ensures Persisted(Next(c, w, Delete(CounterKey()))) == 0
  {
  }

  /** A record written under the counter's key, with a crash after it, closes the database for good. */
  lemma {:induction false} CounterKeyAsRecord(c: Crypto, w: World, value: seq<byte>, arpi: seq<byte>, steps: seq<Step>)
    requires w.handle.Some? && w.handle.value + 1 < U64_LIMIT && Legal(c, value, arpi)
    ensures var w1 := Next(c, w, Insert(CounterKey(), value, arpi, CrashAfterRecord));
      StoredCounter(w1.disk) == Failure(InvalidCounterState) && RunSteps(c, w1, steps) == w1
    decreases |steps|
  {
    hide FromBytes, ToBytes, CounterKey, CounterOf, ReadU64, LittleEndian, WellFormed;
    AdmitExact(c, w.handle.value, value, arpi);
    PackedCounter(Admit(c, w.handle.value, value, arpi).value, value);
    if steps != [] {
      CounterKeyAsRecord(c, w, value, arpi, steps[..|steps| - 1]);
    }
  }
}
