/**
 The vector index: parallel lists of ids and points, and their file format.

 A float is an opaque 32-bit word; normalisation is a parameter.
 */
module Vector {
  import opened Base
  import opened Bytes

  type Point = seq<u32>

  datatype Index = Index(values: seq<Text>, points: seq<Point>)

  predicate Aligned(x: Index) {
    |x.values| == |x.points| && forall i, j | 0 <= i < j < |x.values| :: x.values[i] != x.values[j]
  }

  /** The point of each id. */
  function PointOf(x: Index, id: Text): Option<Point>
    requires |x.values| == |x.points|
    decreases |x.values|
  {
    if x.values == [] then None
    else if x.values[0] == id then Some(x.points[0])
    else PointOf(Index(x.values[1..], x.points[1..]), id)
  }

  lemma {:induction false} NoPoint(x: Index, id: Text)
    requires |x.values| == |x.points|
    ensures PointOf(x, id).None? <==> id !in x.values
    decreases |x.values|
  {
    if x.values != [] {
      NoPoint(Index(x.values[1..], x.points[1..]), id);
      assert x.values == [x.values[0]] + x.values[1..];
    }
  }

  /** The points agree with another index on every id but one. */
  ghost predicate AgreeExcept(x: Index, y: Index, id: Text)
    requires |x.values| == |x.points| && |y.values| == |y.points|
  {
    forall other: Text | other != id :: PointOf(x, other) == PointOf(y, other)
  }

  function Tail(x: Index): Index
    requires x.values != [] && x.points != []
  {
    Index(x.values[1..], x.points[1..])
  }

  /** The first entry of the id gets the point; with no such entry, one is added at the end. */
  function Upserted(x: Index, id: Text, p: Point): (y: Index)
    requires |x.values| == |x.points|
    ensures |y.values| == |y.points| > 0
    decreases |x.values|
  {
    if x.values == [] then Index([id], [p])
    else if x.values[0] == id then Index(x.values, [p] + x.points[1..])
    else
      var rest := Upserted(Tail(x), id, p);
      Index([x.values[0]] + rest.values, [x.points[0]] + rest.points)
  }

  /** The first entry of the id is dropped, and no other. */
  function Removed(x: Index, id: Text): (y: Index)
    requires |x.values| == |x.points|
    ensures |y.values| == |y.points|
    decreases |x.values|
  {
    if x.values == [] then x
    else if x.values[0] == id then Tail(x)
    else
      var rest := Removed(Tail(x), id);
      Index([x.values[0]] + rest.values, [x.points[0]] + rest.points)
  }

  lemma {:induction false} RemovedCounts(x: Index, id: Text)
    requires |x.values| == |x.points|
    ensures multiset(Removed(x, id).values) == multiset(x.values) - multiset{id}
    decreases |x.values|
  {
    if x.values != [] {
      assert x.values == [x.values[0]] + x.values[1..];
      if x.values[0] != id {
        RemovedCounts(Tail(x), id);
      }
    }
  }

  lemma {:induction false} UpsertedPoint(x: Index, id: Text, p: Point, other: Text)
    requires |x.values| == |x.points|
    ensures PointOf(Upserted(x, id, p), other) == if other == id then Some(p) else PointOf(x, other)
    decreases |x.values|
  {
    if x.values != [] && x.values[0] != id {
      UpsertedPoint(Tail(x), id, p, other);
      var y := Upserted(x, id, p);
      assert Tail(y) == Upserted(Tail(x), id, p);
    }
  }

  lemma {:induction false} RemovedPoint(x: Index, id: Text, other: Text)
    requires |x.values| == |x.points| && other != id
    ensures PointOf(Removed(x, id), other) == PointOf(x, other)
    decreases |x.values|
  {
    if x.values != [] && x.values[0] != id {
      RemovedPoint(Tail(x), id, other);
      var y := Removed(x, id);
      assert Tail(y) == Removed(Tail(x), id);
    }
  }

  lemma {:induction false} UpsertedIds(x: Index, id: Text, p: Point)
    requires |x.values| == |x.points|
    ensures Upserted(x, id, p).values == if id in x.values then x.values else x.values + [id]
    decreases |x.values|
  {
    if x.values != [] {
      assert x.values == [x.values[0]] + x.values[1..];
      if x.values[0] != id {
        UpsertedIds(Tail(x), id, p);
      }
    }
  }

  /** After an insert the id has the point, and every other id keeps its own. */
  lemma UpsertedMeans(x: Index, id: Text, p: Point)
    requires |x.values| == |x.points|
    ensures Upserted(x, id, p).values == if id in x.values then x.values else x.values + [id]
    ensures PointOf(Upserted(x, id, p), id) == Some(p) && AgreeExcept(x, Upserted(x, id, p), id)
    ensures Aligned(x) ==> Aligned(Upserted(x, id, p))
  {
    hide PointOf;
    UpsertedIds(x, id, p);
    UpsertedPoint(x, id, p, id);
    forall other: Text | other != id
      ensures PointOf(x, other) == PointOf(Upserted(x, id, p), other)
    {
      UpsertedPoint(x, id, p, other);
    }
  }

  /** After a removal the id has no point exactly when it had at most one entry. */
  lemma RemovedMeans(x: Index, id: Text)
    requires |x.values| == |x.points|
    ensures AgreeExcept(x, Removed(x, id), id)
    ensures multiset(Removed(x, id).values) == multiset(x.values) - multiset{id}
    ensures PointOf(Removed(x, id), id) == None <==> multiset(x.values)[id] <= 1
    ensures Aligned(x) ==> Aligned(Removed(x, id)) && PointOf(Removed(x, id), id) == None
  {
    hide PointOf, Removed;
    forall other: Text | other != id
      ensures PointOf(x, other) == PointOf(Removed(x, id), other)
    {
      RemovedPoint(x, id, other);
    }
    RemovedCounts(x, id);
    NoPoint(Removed(x, id), id);
    UniqueCounts(x.values);
    UniqueCounts(Removed(x, id).values);
  }

  /** No id twice means no id is counted twice. */
  lemma {:induction false} UniqueCounts(values: seq<Text>)
    ensures (forall i, j | 0 <= i < j < |values| :: values[i] != values[j])
      <==> forall id: Text :: multiset(values)[id] <= 1
  {
    if values != [] {
      var head, rest := values[0], values[1..];
      assert values == [head] + rest;
      UniqueCounts(rest);
      assert multiset(values)[head] == 1 + multiset(rest)[head];
      if forall i, j | 0 <= i < j < |values| :: values[i] != values[j] {
        assert head !in rest;
        assert forall i, j | 0 <= i < j < |rest| :: rest[i] == values[i + 1] && rest[j] == values[j + 1];
      }
      if forall id: Text :: multiset(values)[id] <= 1 {
        assert head !in rest;
        forall id: Text
          ensures multiset(rest)[id] <= 1
        {
          assert multiset(values)[id] <= 1;
        }
      }
    }
  }

  lemma NotFirst(values: seq<Text>, p: nat)
    requires 0 < p < |values| && values[p] !in values[..p]
    ensures values[0] != values[p] && values[1..][p - 1] !in values[1..][..p - 1]
    ensures values == [values[0]] + values[1..]
  {
    assert values[0] == values[..p][0] && values[1..][..p - 1] == values[..p][1..];
  }

  lemma WithoutStep<T>(s: seq<T>, p: nat)
    requires 0 < p < |s|
    ensures s[..p] + s[p + 1..] == [s[0]] + (s[1..][..p - 1] + s[1..][p..])
  {
  }

  lemma {:induction false} UpsertedAt(x: Index, p: nat, point: Point)
    requires p < |x.values| == |x.points| && x.values[p] !in x.values[..p]
    ensures Upserted(x, x.values[p], point) == Index(x.values, x.points[p := point])
    decreases p
  {
    hide Upserted;
    UpsertedStep(x, x.values[p], point);
    if p == 0 {
      assert x.points[0 := point] == [point] + x.points[1..];
    } else {
      NotFirst(x.values, p);
      UpsertedAt(Tail(x), p - 1, point);
      assert x.points[p := point] == [x.points[0]] + x.points[1..][p - 1 := point];
    }
  }

  /** One entry further. */
  lemma UpsertedStep(x: Index, id: Text, point: Point)
    requires |x.values| == |x.points| && x.values != []
    ensures var rest := Upserted(Tail(x), id, point);
      Upserted(x, id, point) ==
        if x.values[0] == id then Index(x.values, [point] + x.points[1..])
        else Index([x.values[0]] + rest.values, [x.points[0]] + rest.points)
  {
  }

  lemma {:induction false} UpsertedNew(x: Index, id: Text, point: Point)
    requires |x.values| == |x.points| && id !in x.values
    ensures Upserted(x, id, point) == Index(x.values + [id], x.points + [point])
    decreases |x.values|
  {
    if x.values != [] {
      UpsertedNew(Tail(x), id, point);
      assert [x.values[0]] + (x.values[1..] + [id]) == x.values + [id];
      assert [x.points[0]] + (x.points[1..] + [point]) == x.points + [point];
    }
  }

  lemma {:induction false} RemovedAt(x: Index, p: nat)
    requires p < |x.values| == |x.points| && x.values[p] !in x.values[..p]
    ensures Removed(x, x.values[p]) == Index(x.values[..p] + x.values[p + 1..], x.points[..p] + x.points[p + 1..])
    decreases p
  {
    if p > 0 {
      NotFirst(x.values, p);
      RemovedAt(Tail(x), p - 1);
      WithoutStep(x.values, p);
      WithoutStep(x.points, p);
    }
  }

  lemma {:induction false} RemovedAbsent(x: Index, id: Text)
    requires |x.values| == |x.points| && id !in x.values
    ensures Removed(x, id) == x
    decreases |x.values|
  {
    if x.values != [] {
      assert x.values == [x.values[0]] + x.values[1..];
      assert x.points == [x.points[0]] + x.points[1..];
      RemovedAbsent(Tail(x), id);
    }
  }

  class VectorIndex {
    const normalize: Point -> Point
    var values: seq<Text>
    var points: seq<Point>
    var graph: Option<Index>

    constructor (normalize: Point -> Point)
      ensures this.normalize == normalize && Shape() && Contents() == Index([], [])
    {
      this.normalize := normalize;
      values, points, graph := [], [], None;
    }

    ghost function Contents(): Index
      reads this
    {
      Index(values, points)
    }

    /** Every id has its point, and the graph is of this very index; ids may repeat, as a file may repeat them. */
    ghost predicate Shape()
      reads this
    {
      |values| == |points| && graph == if values == [] then None else Some(Contents())
    }

    method Rebuild()
      modifies this`graph
      ensures graph == if points == [] then None else Some(Contents())
    {
      graph := if points == [] then None else Some(Index(values, points));
    }

    /** The first position of the id. */
    method Position(id: Text) returns (pos: Option<nat>)
      ensures pos.None? <==> id !in values
      ensures pos.Some? ==> pos.value < |values| && values[pos.value] == id && id !in values[..pos.value]
    {
      for i := 0 to |values|
        invariant id !in values[..i]
      {
        if values[i] == id {
          return Some(i);
        }
      }
      assert values[..|values|] == values;
      return None;
    }

    /** The id gets the normalised point; every other id keeps its own, and its place. */
    method Insert(id: Text, embedding: Point)
      requires Shape()
      modifies this
      ensures Shape() && Contents() == Upserted(old(Contents()), id, normalize(embedding))
      ensures values == if id in old(values) then old(values) else old(values) + [id]
      ensures PointOf(Contents(), id) == Some(normalize(embedding)) && AgreeExcept(old(Contents()), Contents(), id)
      ensures Aligned(old(Contents())) ==> Aligned(Contents())
    {
      hide PointOf, AgreeExcept, Aligned, Upserted;
      var emb := normalize(embedding);
      UpsertedMeans(Contents(), id, emb);
      var pos := Position(id);
      if pos.Some? {
        UpsertedAt(Contents(), pos.value, emb);
        points := points[pos.value := emb];
      } else {
        UpsertedNew(Contents(), id, emb);
        values, points := values + [id], points + [emb];
      }
      Rebuild();
    }

    /** The first entry of the id is gone; every other id keeps its point, in the same order. */
    method Remove(id: Text)
      requires Shape()
      modifies this
      ensures Shape() && Contents() == Removed(old(Contents()), id)
      ensures multiset(values) == multiset(old(values)) - multiset{id} && AgreeExcept(old(Contents()), Contents(), id)
      ensures PointOf(Contents(), id) == None <==> multiset(old(values))[id] <= 1
      ensures Aligned(old(Contents())) ==> Aligned(Contents()) && PointOf(Contents(), id) == None
    {
      hide PointOf, AgreeExcept, Aligned, Removed;
      RemovedMeans(Contents(), id);
      var pos := Position(id);
      if pos.Some? {
        var p := pos.value;
        RemovedAt(Contents(), p);
        values, points := values[..p] + values[p + 1..], points[..p] + points[p + 1..];
        Rebuild();
      } else {
        RemovedAbsent(Contents(), id);
      }
    }

    /** The file is written length by length and word by word. */
    method Save() returns (file: seq<byte>)
      requires |values| == |points|
      ensures file == FileOf(Contents())
    {
      hide WriteU32, WriteEntry;
      file := WriteU32(|values|);
      for i := 0 to |values|
        invariant file + WriteEntries(Index(values[i..], points[i..])) == FileOf(Contents())
      {
        EntriesStep(Contents(), i);
        ghost var tail := WriteEntries(Index(values[i + 1..], points[i + 1..]));
        var before := file;
        file := file + WriteU32(|values[i]|) + values[i] + WriteU32(|points[i]|);
        var words := WriteFloats(points[i]);
        file := file + words;
        assert file == before + WriteEntry(values[i], points[i]) by { EntryIs(values[i], points[i]); }
        assert file + tail == before + (WriteEntry(values[i], points[i]) + tail);
      }
      assert file + [] == file;
    }

    /** The file is read back; whatever it holds is taken, duplicate ids included. */
    static method LoadFile(normalize: Point -> Point, file: seq<byte>) returns (r: Outcome<VectorIndex>)
      ensures r.Failure? ==> Load(file) == Failure(r.error)
      ensures r.Success? ==> fresh(r.value) && r.value.Shape() && Load(file) == Success(r.value.Contents())
    {
      hide TakeU32, TakeEntry, TakeEntries, Joined;
      var count := TakeU32(file);
      if count.None? {
        return Failure(LoadFailed);
      }
      var (len, rest) := count.value;
      var values: seq<Text>, points: seq<Point> := [], [];
      JoinedNothing(TakeEntries(rest, len));
      for i := 0 to len
        invariant |values| == |points| == i
        invariant TakeEntries(count.value.1, len) == Joined(Index(values, points), TakeEntries(rest, len - i))
      {
        var entry := ReadEntry(rest);
        JoinedStep(Index(values, points), rest, len - i);
        if entry.None? {
          return Failure(LoadFailed);
        }
        values, points, rest := values + [entry.value.0.0], points + [entry.value.0.1], entry.value.1;
      }
      JoinedAll(Index(values, points), rest);
      var index := new VectorIndex(normalize);
      index.values, index.points := values, points;
      index.Rebuild();
      return Success(index);
    }
  }

  /** The entries read so far, then the rest. */
  function Joined(done: Index, rest: Option<Index>): Option<Index> {
    if rest.None? then None else Some(Index(done.values + rest.value.values, done.points + rest.value.points))
  }

  lemma JoinedNothing(rest: Option<Index>)
    ensures Joined(Index([], []), rest) == rest
  {
    if rest.Some? {
      assert [] + rest.value.values == rest.value.values && [] + rest.value.points == rest.value.points;
    }
  }

  /** Reading one more entry moves it from the rest to the entries read. */
  lemma JoinedStep(done: Index, b: seq<byte>, n: nat)
    requires n > 0
    ensures TakeEntry(b).None? ==> Joined(done, TakeEntries(b, n)) == None
    ensures TakeEntry(b).Some? ==>
      var ((id, p), rest) := TakeEntry(b).value;
      Joined(done, TakeEntries(b, n)) == Joined(Index(done.values + [id], done.points + [p]), TakeEntries(rest, n - 1))
  {
    hide TakeEntry;
    if TakeEntry(b).Some? {
      var ((id, p), rest) := TakeEntry(b).value;
      var more := TakeEntries(rest, n - 1);
      if more.Some? {
        assert done.values + ([id] + more.value.values) == (done.values + [id]) + more.value.values;
        assert done.points + ([p] + more.value.points) == (done.points + [p]) + more.value.points;
      }
    }
  }

  lemma JoinedAll(done: Index, b: seq<byte>)
    ensures Joined(done, TakeEntries(b, 0)) == Some(done)
  {
    assert done.values + [] == done.values && done.points + [] == done.points;
  }

  lemma EntriesStep(x: Index, i: nat)
    requires |x.values| == |x.points| && i < |x.values|
    ensures WriteEntries(Index(x.values[i..], x.points[i..]))
         == WriteEntry(x.values[i], x.points[i]) + WriteEntries(Index(x.values[i + 1..], x.points[i + 1..]))
  {
    hide WriteEntry;
    assert x.values[i..][1..] == x.values[i + 1..] && x.points[i..][1..] == x.points[i + 1..];
  }

  lemma EntryIs(id: Text, p: Point)
    ensures WriteEntry(id, p) == WriteU32(|id|) + id + WriteU32(|p|) + WriteWords(p)
  {
  }

  method WriteFloats(p: Point) returns (b: seq<byte>)
    ensures b == WriteWords(p)
  {
    b := [];
    for i := 0 to |p|
      invariant b + WriteWords(p[i..]) == WriteWords(p)
    {
      assert p[i..][1..] == p[i + 1..];
      b := b + LittleEndian(p[i], 4);
    }
    assert b + [] == b;
  }

  method ReadEntry(b: seq<byte>) returns (r: Read<(Text, Point)>)
    ensures r == TakeEntry(b)
  {
    hide TakeU32, Utf8;
    var idLen := TakeU32(b);
    if idLen.None? {
      return None;
    }
    var id := TakeBytes(idLen.value.1, idLen.value.0);
    if id.None? || !Utf8(id.value.0) {
      return None;
    }
    var vecLen := TakeU32(id.value.1);
    if vecLen.None? {
      return None;
    }
    var (n, rest) := vecLen.value;
    var vec: Point := [];
    assert TakeWords(rest, n).Some? ==> [] + TakeWords(rest, n).value.0 == TakeWords(rest, n).value.0;
    for i := 0 to n
      invariant |vec| == i
      invariant TakeWords(vecLen.value.1, n)
        == match TakeWords(rest, n - i) case None => None case Some(m) => Some((vec + m.0, m.1))
    {
      var word := TakeU32(rest);
      if word.None? {
        return None;
      }
      ghost var more := TakeWords(word.value.1, n - i - 1);
      if more.Some? {
        assert vec + ([word.value.0] + more.value.0) == (vec + [word.value.0]) + more.value.0;
      }
      vec, rest := vec + [word.value.0], word.value.1;
    }
    assert vec + [] == vec;
    return Some(((id.value.0, vec), rest));
  }

  // ---- The file ----------------------------------------------------------

  function WriteU32(n: nat): (b: seq<byte>)
    ensures |b| == 4
  {
    LittleEndian(n % 0x1_0000_0000, 4)
  }

  function WriteWords(p: Point): seq<byte> {
    if p == [] then [] else LittleEndian(p[0], 4) + WriteWords(p[1..])
  }

  /** Lengths are cut to 32 bits. */
  function WriteEntry(id: Text, p: Point): seq<byte> {
    WriteU32(|id|) + id + WriteU32(|p|) + WriteWords(p)
  }

  function WriteEntries(x: Index): seq<byte>
    requires |x.values| == |x.points|
    decreases |x.values|
  {
    if x.values == [] then []
    else WriteEntry(x.values[0], x.points[0]) + WriteEntries(Index(x.values[1..], x.points[1..]))
  }

  function FileOf(x: Index): seq<byte>
    requires |x.values| == |x.points|
  {
    WriteU32(|x.values|) + WriteEntries(x)
  }

  type Read<+T> = Option<(T, seq<byte>)>

  function TakeU32(b: seq<byte>): Read<u32> {
    if |b| < 4 then None else Some((ReadU32(b[..4]), b[4..]))
  }

  function TakeBytes(b: seq<byte>, n: nat): Read<seq<byte>> {
    if |b| < n then None else Some((b[..n], b[n..]))
  }

  function TakeWords(b: seq<byte>, n: nat): (r: Read<Point>)
    ensures r.Some? ==> |r.value.0| == n
    decreases n
  {
    if n == 0 then Some(([], b))
    else
      var first := TakeU32(b);
      if first.None? then None
      else
        var rest := TakeWords(first.value.1, n - 1);
        if rest.None? then None else Some(([first.value.0] + rest.value.0, rest.value.1))
  }

  function TakeEntry(b: seq<byte>): Read<(Text, Point)> {
    var idLen := TakeU32(b);
    if idLen.None? then None
    else
      var id := TakeBytes(idLen.value.1, idLen.value.0);
      if id.None? || !Utf8(id.value.0) then None
      else
        var vecLen := TakeU32(id.value.1);
        if vecLen.None? then None
        else
          var words := TakeWords(vecLen.value.1, vecLen.value.0);
          if words.None? then None else Some(((id.value.0, words.value.0), words.value.1))
  }

  function TakeEntries(b: seq<byte>, n: nat): (r: Option<Index>)
    ensures r.Some? ==> |r.value.values| == |r.value.points| == n
    decreases n
  {
    if n == 0 then Some(Index([], []))
    else
      var first := TakeEntry(b);
      if first.None? then None
      else
        var rest := TakeEntries(first.value.1, n - 1);
        if rest.None? then None
        else Some(Index([first.value.0.0] + rest.value.values, [first.value.0.1] + rest.value.points))
  }

  /** What follows the last entry is ignored; ids are not checked for uniqueness. */
  function Load(file: seq<byte>): Outcome<Index> {
    var count := TakeU32(file);
    if count.None? then Failure(LoadFailed)
    else
      var x := TakeEntries(count.value.1, count.value.0);
      if x.None? then Failure(LoadFailed) else Success(x.value)
  }

  /** What the format can carry: 32-bit lengths, and ids that are text. */
  predicate Fits(x: Index) {
    |x.values| == |x.points| && |x.values| < 0x1_0000_0000
    && (forall i | 0 <= i < |x.values| :: |x.values[i]| < 0x1_0000_0000 && Utf8(x.values[i]))
    && (forall i | 0 <= i < |x.points| :: |x.points[i]| < 0x1_0000_0000)
  }

  lemma U32ReadBack(n: nat, rest: seq<byte>)
    requires n < 0x1_0000_0000
    ensures TakeU32(WriteU32(n) + rest) == Some((n, rest))
  {
    hide LittleEndian, ReadU32;
    U32ReadsBack(n);
    assert (WriteU32(n) + rest)[..4] == WriteU32(n) && (WriteU32(n) + rest)[4..] == rest;
  }

  lemma {:induction false} WordsReadBack(p: Point, rest: seq<byte>)
    ensures TakeWords(WriteWords(p) + rest, |p|) == Some((p, rest))
  {
    hide LittleEndian, TakeU32;
    if p == [] {
      assert WriteWords(p) + rest == rest;
    } else {
      var tail := WriteWords(p[1..]) + rest;
      assert WriteWords(p) + rest == LittleEndian(p[0], 4) + tail;
      assert LittleEndian(p[0], 4) == WriteU32(p[0]);
      U32ReadBack(p[0], tail);
      WordsReadBack(p[1..], rest);
      assert p == [p[0]] + p[1..];
    }
  }

  lemma EntryReadBack(id: Text, p: Point, rest: seq<byte>)
    requires |id| < 0x1_0000_0000 && |p| < 0x1_0000_0000 && Utf8(id)
    ensures TakeEntry(WriteEntry(id, p) + rest) == Some(((id, p), rest))
  {
    hide WriteU32, TakeU32, WriteWords, TakeWords, Utf8;
    var afterLen := WriteWords(p) + rest;
    var afterId := WriteU32(|p|) + afterLen;
    var afterHead := id + afterId;
    assert WriteEntry(id, p) + rest == WriteU32(|id|) + afterHead;
    U32ReadBack(|id|, afterHead);
    assert afterHead[..|id|] == id && afterHead[|id|..] == afterId;
    U32ReadBack(|p|, afterLen);
    WordsReadBack(p, rest);
  }

  lemma {:induction false} EntriesReadBack(x: Index, rest: seq<byte>)
    requires Fits(x)
    ensures TakeEntries(WriteEntries(x) + rest, |x.values|) == Some(x)
    decreases |x.values|
  {
    hide WriteEntry, TakeEntry, Utf8;
    if x.values != [] {
      var tail := Index(x.values[1..], x.points[1..]);
      var first := WriteEntry(x.values[0], x.points[0]);
      assert WriteEntries(x) + rest == first + (WriteEntries(tail) + rest);
      EntryReadBack(x.values[0], x.points[0], WriteEntries(tail) + rest);
      EntriesReadBack(tail, rest);
      assert x.values == [x.values[0]] + x.values[1..] && x.points == [x.points[0]] + x.points[1..];
    }
  }

  lemma {:induction false} LoadedFits(b: seq<byte>, n: nat)
    requires TakeEntries(b, n).Some? && n < 0x1_0000_0000
    ensures Fits(TakeEntries(b, n).value)
    decreases n
  {
    hide TakeU32, TakeWords, Utf8;
    if n > 0 {
      LoadedFits(TakeEntry(b).value.1, n - 1);
    }
  }

  /** A saved index loads as it was exactly when the format can carry it. */
  lemma FileRoundTrip(x: Index)
    requires |x.values| == |x.points|
    ensures Load(FileOf(x)) == Success(x) <==> Fits(x)
  {
    hide TakeU32, TakeEntries, WriteEntries, WriteU32;
    if Fits(x) {
      U32ReadBack(|x.values|, WriteEntries(x));
      EntriesReadBack(x, []);
      assert WriteEntries(x) + [] == WriteEntries(x);
    } else if Load(FileOf(x)).Success? {
      var count := TakeU32(FileOf(x)).value;
      LoadedFits(count.1, count.0);
    }
  }

  // ---- The file, byte by byte --------------------------------------------

  /** The length of the id, the id, the length of the point, and its words, least significant byte first. */
  lemma EntryParts(id: Text, p: Point, i: nat)
    requires |id| < 0x1_0000_0000 && |p| < 0x1_0000_0000 && i < |p|
    ensures var b, at := WriteEntry(id, p), 8 + |id|;
      |b| == at + 4 * |p| && b[..4] == LittleEndian(|id|, 4) && b[4..4 + |id|] == id
      && b[4 + |id|..at] == LittleEndian(|p|, 4) && b[at + 4 * i..at + 4 * i + 4] == LittleEndian(p[i], 4)
  {
    hide LittleEndian, WriteWords;
    WordsParts(p, i);
    var b, at := WriteEntry(id, p), 8 + |id|;
    assert b[at..] == WriteWords(p);
    assert b[at + 4 * i..at + 4 * i + 4] == b[at..][4 * i..4 * i + 4];
  }

  lemma {:induction false} WordsParts(p: Point, i: nat)
    requires i < |p|
    ensures |WriteWords(p)| == 4 * |p| && WriteWords(p)[4 * i..4 * i + 4] == LittleEndian(p[i], 4)
  {
    hide LittleEndian;
    var rest := WriteWords(p[1..]);
    assert WriteWords(p)[4..] == rest;
    if |p| > 1 {
      WordsParts(p[1..], if i > 0 then i - 1 else 0);
    }
    if i > 0 {
      assert WriteWords(p)[4 * i..4 * i + 4] == rest[4 * (i - 1)..4 * (i - 1) + 4];
    }
  }

  /** The file is the number of entries and the entries in order, and what follows the last one is not read. */
  lemma FileParts(x: Index, rest: seq<byte>)
    requires Fits(x)
    ensures FileOf(x)[..4] == LittleEndian(|x.values|, 4)
    ensures Load(FileOf(x) + rest) == Success(x)
  {
    hide TakeU32, TakeEntries, WriteEntries, WriteU32;
    assert FileOf(x) + rest == WriteU32(|x.values|) + (WriteEntries(x) + rest);
    U32ReadBack(|x.values|, WriteEntries(x) + rest);
    EntriesReadBack(x, rest);
    assert WriteU32(|x.values|) == LittleEndian(|x.values|, 4) by { ShortCount(|x.values|); }
  }

  lemma ShortCount(n: nat)
    requires n < 0x1_0000_0000
    ensures WriteU32(n) == LittleEndian(n, 4)
  {
    hide LittleEndian;
  }
}
