/**
 The migration toolkit: hexadecimal text, the line-oriented export format,
 import, transform, and manifests.

 The JSON printer and parser are a parameter; what is trusted of them is
 `JsonLaw`.
 */
module Migration {
  import opened Base
  import opened Bytes
  import opened Ordering
  import opened Envelope
  import opened Records
  import Sha256

  // ---- Hexadecimal -------------------------------------------------------

  function HexDigit(n: nat): byte
    requires n < 16
  {
    if n < 10 then 48 + n else 87 + n
  }

  function Hex(b: seq<byte>): (s: seq<byte>)
    ensures |s| == 2 * |b|
  {
    if b == [] then [] else [HexDigit(b[0] / 16), HexDigit(b[0] % 16)] + Hex(b[1..])
  }

  /** Upper and lower case digits are accepted. */
  function DigitValue(x: byte): Option<nat> {
    if 48 <= x < 58 then Some(x - 48)
    else if 65 <= x < 71 then Some(x - 55)
    else if 97 <= x < 103 then Some(x - 87)
    else None
  }

  /** `u8::from_str_radix` of two characters: a leading plus sign is accepted. */
  function PairValue(x: byte, y: byte): Option<byte> {
    if x == 43 then DigitValue(y)
    else
      var high, low := DigitValue(x), DigitValue(y);
      if high.None? || low.None? then None else Some(16 * high.value + low.value)
  }

  function Unhex(s: seq<byte>): (r: Option<seq<byte>>)
    ensures r.Some? ==> 2 * |r.value| == |s|
  {
    if |s| % 2 != 0 then None
    else if s == [] then Some([])
    else
      var first, rest := PairValue(s[0], s[1]), Unhex(s[2..]);
      if first.None? || rest.None? then None else Some([first.value] + rest.value)
  }

  lemma {:induction false} HexRoundTrip(b: seq<byte>)
    ensures Unhex(Hex(b)) == Some(b)
  {
    if b != [] {
      HexRoundTrip(b[1..]);
      assert Hex(b)[2..] == Hex(b[1..]);
      assert b == [b[0]] + b[1..];
    }
  }

  predicate Canonical(s: seq<byte>) {
    forall i | 0 <= i < |s| :: 48 <= s[i] < 58 || 97 <= s[i] < 103
  }

  /** Decoded text encodes back to itself exactly when it is lower-case digits. */
  lemma {:induction false} UnhexCanonical(s: seq<byte>)
    requires Unhex(s).Some?
    ensures Hex(Unhex(s).value) == s <==> Canonical(s)
  {
    if s != [] {
      UnhexCanonical(s[2..]);
      var b := Unhex(s).value;
      assert b[1..] == Unhex(s[2..]).value;
      assert s == [s[0], s[1]] + s[2..];
      assert Hex(b)[2..] == Hex(b[1..]) && Hex(b)[0] == HexDigit(b[0] / 16) && Hex(b)[1] == HexDigit(b[0] % 16);
      assert Canonical(s) <==> Canonical([s[0], s[1]]) && Canonical(s[2..]) by { CanonicalSplit(s); }
      PairCanonical(s[0], s[1]);
      HexEqual(Hex(b), s);
    }
  }

  lemma CanonicalSplit(s: seq<byte>)
    requires |s| >= 2
    ensures Canonical(s) <==> Canonical([s[0], s[1]]) && Canonical(s[2..])
  {
    assert s == [s[0], s[1]] + s[2..];
    if Canonical([s[0], s[1]]) && Canonical(s[2..]) {
      forall i | 0 <= i < |s|
        ensures 48 <= s[i] < 58 || 97 <= s[i] < 103
      {
        assert i < 2 ==> s[i] == [s[0], s[1]][i];
        assert i >= 2 ==> s[i] == s[2..][i - 2];
      }
    }
    if Canonical(s) {
      assert [s[0], s[1]][0] == s[0] && [s[0], s[1]][1] == s[1];
    }
  }

  lemma PairCanonical(x: byte, y: byte)
    requires PairValue(x, y).Some?
    ensures (HexDigit(PairValue(x, y).value / 16) == x && HexDigit(PairValue(x, y).value % 16) == y)
      <==> Canonical([x, y])
  {
    assert [x, y][0] == x && [x, y][1] == y;
  }

  lemma HexEqual(a: seq<byte>, s: seq<byte>)
    requires |a| == |s| >= 2
    ensures a == s <==> a[0] == s[0] && a[1] == s[1] && a[2..] == s[2..]
  {
    if a[0] == s[0] && a[1] == s[1] && a[2..] == s[2..] {
      assert a == [a[0], a[1]] + a[2..] && s == [s[0], s[1]] + s[2..];
    }
  }

  /** The lower-case form of an ASCII letter. */
  function Lower(x: byte): byte {
    if 65 <= x <= 90 then x + 32 else x
  }

  predicate IsHexDigit(x: byte) {
    Lower(x) in Ascii("0123456789abcdef")
  }

  /** The digits are those of the alphabet, in its order. */
  lemma HexDigitIs(n: nat)
    requires n < 16
    ensures HexDigit(n) == Ascii("0123456789abcdef")[n]
    ensures DigitValue(Ascii("0123456789abcdef")[n]) == Some(n)
  {
  }

  /** A byte has a value exactly when it is a digit of the alphabet in either case; the two cases have one value. */
  lemma DigitExactly(x: byte)
    ensures DigitValue(x).Some? <==> IsHexDigit(x)
    ensures DigitValue(x) == DigitValue(Lower(x))
  {
    hide HexDigit;
    var digits := Ascii("0123456789abcdef");
    if IsHexDigit(x) {
      var n :| 0 <= n < |digits| && digits[n] == Lower(x);
      HexDigitIs(n);
    }
    if DigitValue(x).Some? {
      HexDigitIs(DigitValue(x).value);
    }
  }

  const PLUS: byte := 43
  const ZERO: byte := 48

  predicate HexPair(x: byte, y: byte) {
    (IsHexDigit(x) || x == PLUS) && IsHexDigit(y)
  }

  lemma PairExactly(x: byte, y: byte)
    ensures PairValue(x, y).Some? <==> HexPair(x, y)
    ensures PairValue(x, y) == PairValue(Lower(x), Lower(y))
    ensures PairValue(PLUS, y) == PairValue(ZERO, y)
  {
    hide IsHexDigit;
    DigitExactly(x);
    DigitExactly(y);
  }

  /** Text decodes exactly when it is pairs of digits, in either case; a plus sign may stand for a first zero. */
  lemma {:induction false} UnhexAccepts(s: seq<byte>)
    ensures Unhex(s).Some? <==> |s| % 2 == 0 && forall i | 0 <= i < |s| / 2 :: HexPair(s[2 * i], s[2 * i + 1])
  {
    hide HexPair, PairValue;
    if |s| % 2 == 0 && s != [] {
      var rest := s[2..];
      PairExactly(s[0], s[1]);
      UnhexAccepts(rest);
      if Unhex(s).Some? {
        forall i | 0 <= i < |s| / 2
          ensures HexPair(s[2 * i], s[2 * i + 1])
        {
          assert i > 0 ==> HexPair(rest[2 * (i - 1)], rest[2 * (i - 1) + 1]);
        }
      }
      if forall i | 0 <= i < |s| / 2 :: HexPair(s[2 * i], s[2 * i + 1]) {
        forall i | 0 <= i < |rest| / 2
          ensures HexPair(rest[2 * i], rest[2 * i + 1])
        {
          assert HexPair(s[2 * (i + 1)], s[2 * (i + 1) + 1]);
        }
        assert HexPair(s[2 * 0], s[2 * 0 + 1]);
      }
    }
  }

  /** Texts that decode alike: they differ in case, and in a plus sign for a first zero. */
  predicate SameDigits(s: seq<byte>, t: seq<byte>) {
    |s| == |t| && forall i | 0 <= i < |s| :: Lower(s[i]) == Lower(t[i]) || (i % 2 == 0 && s[i] == PLUS && t[i] == ZERO)
  }

  lemma {:induction false} UnhexForgets(s: seq<byte>, t: seq<byte>)
    requires SameDigits(s, t)
    ensures Unhex(s) == Unhex(t)
  {
    hide PairValue, Lower;
    if |s| % 2 == 0 && s != [] {
      assert SameDigits(s[2..], t[2..]);
      UnhexForgets(s[2..], t[2..]);
      PairExactly(s[0], s[1]);
      PairExactly(t[0], t[1]);
      assert Lower(s[1]) == Lower(t[1]);
      PairsAlike(s[0], t[0], s[1], t[1]);
    }
  }

  lemma PairsAlike(x: byte, y: byte, a: byte, b: byte)
    requires Lower(a) == Lower(b) && (Lower(x) == Lower(y) || (x == PLUS && y == ZERO))
    ensures PairValue(x, a) == PairValue(y, b)
  {
    hide PairValue, Lower;
    PairExactly(x, a);
    PairExactly(y, b);
    PairExactly(ZERO, a);
    assert Lower(ZERO) == ZERO by { LowerZero(); }
  }

  lemma LowerZero()
    ensures Lower(ZERO) == ZERO
  {
  }

  // ---- Records on the wire -----------------------------------------------

  datatype EdmRecord = EdmRecord(id: Text, tier: seq<byte>, ownerId: Text, payloadHex: seq<byte>, saltHex: seq<byte>,
          createdAt: u64)

  datatype MigrationError =
    | EmptyInput
    | InvalidHeader
    | VersionMismatch(version: u32)
    | InvalidRecord(line: nat)
    | InvalidRecordData(cause: EdisonError)
    | InvalidTier(tier: seq<byte>)
    | InvalidPayloadHex
    | InvalidSaltHex
    | Conflict(id: Text)

  function TierFromStr(s: seq<byte>): Option<DataTier> {
    if s == Ascii("critical") then Some(Critical)
    else if s == Ascii("personal") then Some(Personal)
    else if s == Ascii("noise") then Some(Noise)
    else None
  }

  function FromRecord(r: Record): EdmRecord {
    EdmRecord(r.id, r.tier.AsStr(), r.ownerId, Hex(r.payload), Hex(r.salt), r.createdAt)
  }

  function ToRecord(e: EdmRecord): Result<Record, MigrationError> {
    var tier := TierFromStr(e.tier);
    if tier.None? then Failure(InvalidTier(e.tier))
    else
      var payload := Unhex(e.payloadHex);
      if payload.None? then Failure(InvalidPayloadHex)
      else
        var envelope := FromPersisted(payload.value);
        if envelope.Failure? then Failure(InvalidRecordData(envelope.error))
        else
          var salt := Unhex(e.saltHex);
          if salt.None? || |salt.value| != 32 then Failure(InvalidSaltHex)
          else
            var record := IntoValidated(Record(e.id, tier.value, e.ownerId, envelope.value, salt.value, e.createdAt));
            if record.Failure? then Failure(InvalidRecordData(record.error)) else Success(record.value)
  }

  lemma TierRoundTrip(tier: DataTier)
    ensures TierFromStr(tier.AsStr()) == Some(tier)
  {
    assert Ascii("critical")[0] == 99 && Ascii("personal")[0] == 112 && Ascii("noise")[0] == 110;
  }

  /** A record survives the wire exactly when its identity and its stamp are legal. */
  lemma RecordRoundTrip(r: Record)
    ensures ToRecord(FromRecord(r)) ==
      if IntoValidated(r).Success? then Success(r) else Failure(InvalidRecordData(IntoValidated(r).error))
    ensures IntoValidated(r).Success? <==> r.id != [] && r.ownerId != [] && r.createdAt != 0
  {
    hide Hex, Unhex, ValidateBytes;
    TierRoundTrip(r.tier);
    HexRoundTrip(r.payload);
    HexRoundTrip(r.salt);
    assert FromPersisted(r.payload) == Success(r.payload);
  }

  // ---- Export and parse --------------------------------------------------

  const EDM_VERSION: u32 := 1

  datatype EdmHeader = EdmHeader(edm: u32, exportedAt: u64, recordCount: nat, ownerFilter: Option<Text>,
          tierFilter: Option<seq<byte>>)

  datatype Json = Json(
    printHeader: EdmHeader -> seq<byte>,
    parseHeader: seq<byte> -> Option<EdmHeader>,
    printRecord: EdmRecord -> seq<byte>,
    parseRecord: seq<byte> -> Option<EdmRecord>
  )

  const NEWLINE: byte := 10
  const RETURN: byte := 13

  /** JSON text of one value is one line, and a brace is not blank. */
  predicate OneLine(s: seq<byte>) {
    NEWLINE !in s && RETURN !in s && !Blank(s)
  }

  ghost predicate JsonLaw(j: Json) {
    && (forall h :: j.parseHeader(j.printHeader(h)) == Some(h) && OneLine(j.printHeader(h)))
    && (forall r :: j.parseRecord(j.printRecord(r)) == Some(r) && OneLine(j.printRecord(r)))
  }

  /** `trim().is_empty()`: only Unicode white space, in UTF-8. */
  predicate Blank(s: seq<byte>) {
    || s == []
    || ((9 <= s[0] <= 13 || s[0] == 32) && Blank(s[1..]))
    || (|s| >= 2 && s[0] == 0xC2 && s[1] in {0x85, 0xA0} && Blank(s[2..]))
    || (|s| >= 3 && s[0] == 0xE1 && s[1] == 0x9A && s[2] == 0x80 && Blank(s[3..]))
    || (|s| >= 3 && s[0] == 0xE2 && s[1] == 0x80
       && (0x80 <= s[2] <= 0x8A || s[2] in {0xA8, 0xA9, 0xAF}) && Blank(s[3..]))
    || (|s| >= 3 && s[0] == 0xE2 && s[1] == 0x81 && s[2] == 0x9F && Blank(s[3..]))
    || (|s| >= 3 && s[0] == 0xE3 && s[1] == 0x80 && s[2] == 0x80 && Blank(s[3..]))
  }

  /** Unicode white space. */
  predicate WhiteSpace(n: nat) {
    9 <= n <= 13 || n in {0x20, 0x85, 0xA0, 0x1680, 0x2028, 0x2029, 0x202F, 0x205F, 0x3000} || 0x2000 <= n <= 0x200A
  }

  /** Text is blank exactly when every character of it is white space. */
  lemma BlankAfter(n: nat, s: seq<byte>)
    requires n < 0x11_0000
    ensures Blank(Utf8Of(n) + s) <==> WhiteSpace(n) && Blank(s)
  {
    hide Blank;
    if n < 0x1_0000 {
      ShortBlankAfter(n, s);
    } else {
      NeverBlank(Utf8Of(n) + s);
    }
  }

  lemma ShortBlankAfter(n: nat, s: seq<byte>)
    requires n < 0x1_0000
    ensures Blank(Utf8Of(n) + s) <==> WhiteSpace(n) && Blank(s)
  {
    var t := Utf8Of(n) + s;
    assert t[|Utf8Of(n)|..] == s;
  }

  lemma NeverBlank(s: seq<byte>)
    requires s != [] && s[0] >= 0xF0
    ensures !Blank(s)
  {
  }

  lemma BlankStarts(s: seq<byte>) returns (n: nat)
    requires Blank(s) && s != []
    ensures WhiteSpace(n) && Utf8Of(n) <= s && Blank(s[|Utf8Of(n)|..])
  {
    if s[0] < 0x80 {
      n := s[0];
    } else if s[0] < 0xE0 {
      n := s[1];
    } else {
      var x: int, y: int, z: int := s[0], s[1], s[2];
      n := (x - 0xE0) * 4096 + (y - 0x80) * 64 + (z - 0x80);
    }
  }

  /** `join("\\n")`. */
  function Join(lines: seq<seq<byte>>): seq<byte> {
    if lines == [] then []
    else if |lines| == 1 then lines[0]
    else lines[0] + [NEWLINE] + Join(lines[1..])
  }

  function IndexOf(s: seq<byte>, x: byte): (n: nat)
    ensures n <= |s| && x !in s[..n] && (n < |s| ==> s[n] == x)
  {
    if s == [] || s[0] == x then 0
    else
      var n := IndexOf(s[1..], x);
      assert s[..n + 1] == [s[0]] + s[1..][..n];
      n + 1
  }

  /** `lines()`: a return before a newline is dropped, a last empty line too. */
  function Lines(s: seq<byte>): seq<seq<byte>> {
    if s == [] then []
    else
      var n := IndexOf(s, NEWLINE);
      if n == |s| then [s]
      else
        var line := if n > 0 && s[n - 1] == RETURN then s[..n - 1] else s[..n];
        [line] + Lines(s[n + 1..])
  }

  lemma {:induction false} LinesOfJoin(lines: seq<seq<byte>>)
    requires forall i | 0 <= i < |lines| :: OneLine(lines[i])
    ensures Lines(Join(lines)) == lines
  {
    hide OneLine, Blank;
    if lines != [] {
      var first := lines[0];
      LineParts(first);
      if |lines| == 1 {
        NoNewline(first);
        assert lines == [first];
      } else {
        LinesOfJoin(lines[1..]);
        LinesStep(first, Join(lines[1..]));
        assert lines == [first] + lines[1..];
      }
    }
  }

  lemma LineParts(s: seq<byte>)
    requires OneLine(s)
    ensures s != [] && NEWLINE !in s && RETURN !in s
  {
  }

  lemma NoNewline(s: seq<byte>)
    requires NEWLINE !in s && s != []
    ensures Lines(s) == [s]
  {
  }

  lemma NotInPrefix(s: seq<byte>, x: byte, n: nat, i: nat)
    requires i < n <= |s| && x !in s[..n]
    ensures s[i] != x
  {
    assert s[..n][i] == s[i];
  }

  /** A line of `lines()`: one return before its newline is dropped. */
  function Cut(line: seq<byte>): seq<byte> {
    if line != [] && line[|line| - 1] == RETURN then line[..|line| - 1] else line
  }

  /** Text is cut at its newlines. */
  lemma LinesStep(first: seq<byte>, rest: seq<byte>)
    requires NEWLINE !in first
    ensures Lines(first + [NEWLINE] + rest) == [Cut(first)] + Lines(rest)
  {
    hide Lines;
    var s := first + [NEWLINE] + rest;
    var n := IndexOf(s, NEWLINE);
    assert forall i | 0 <= i < |first| :: s[i] == first[i] != NEWLINE;
    if n > |first| {
      NotInPrefix(s, NEWLINE, n, |first|);
    }
    assert s[..n] == first && s[n + 1..] == rest;
    assert n > 0 ==> s[n - 1] == first[n - 1] && s[..n - 1] == first[..n - 1];
    LinesUnfold(s, n);
  }

  lemma LinesUnfold(s: seq<byte>, n: nat)
    requires n == IndexOf(s, NEWLINE) < |s|
    ensures Lines(s) == [if n > 0 && s[n - 1] == RETURN then s[..n - 1] else s[..n]] + Lines(s[n + 1..])
  {
  }

  datatype ExportOptions = ExportOptions(ownerFilter: Option<Text>, tierFilter: Option<DataTier>)

  predicate Selected(r: Record, opts: ExportOptions) {
    (opts.ownerFilter.Some? ==> r.ownerId == opts.ownerFilter.value)
      && (opts.tierFilter.Some? ==> r.tier == opts.tierFilter.value)
  }

  function Filtered(records: seq<Record>, opts: ExportOptions): seq<Record> {
    if records == [] then []
    else (if Selected(records[0], opts) then [records[0]] else []) + Filtered(records[1..], opts)
  }

  function FromRecords(records: seq<Record>): (s: seq<EdmRecord>)
    ensures |s| == |records|
  {
    seq(|records|, i requires 0 <= i < |records| => FromRecord(records[i]))
  }

  function HeaderOf(count: nat, opts: ExportOptions, now: u64): EdmHeader {
    var tierFilter := if opts.tierFilter.Some? then Some(opts.tierFilter.value.AsStr()) else None;
    EdmHeader(EDM_VERSION, now, count, opts.ownerFilter, tierFilter)
  }

  function PrintRecords(j: Json, records: seq<EdmRecord>): (s: seq<seq<byte>>)
    ensures |s| == |records|
  {
    seq(|records|, i requires 0 <= i < |records| => j.printRecord(records[i]))
  }

  function Export(j: Json, records: seq<Record>, opts: ExportOptions, now: u64): seq<byte> {
    var filtered := Filtered(records, opts);
    Join([j.printHeader(HeaderOf(|filtered|, opts, now))] + PrintRecords(j, FromRecords(filtered)))
  }

  function ParseRecords(j: Json, lines: seq<seq<byte>>, at: nat): Result<seq<EdmRecord>, MigrationError> {
    if lines == [] then Success([])
    else if Blank(lines[0]) then ParseRecords(j, lines[1..], at + 1)
    else
      var first := j.parseRecord(lines[0]);
      if first.None? then Failure(InvalidRecord(at))
      else
        var rest := ParseRecords(j, lines[1..], at + 1);
        if rest.Failure? then rest else Success([first.value] + rest.value)
  }

  function ParseEdm(j: Json, data: seq<byte>): Result<(EdmHeader, seq<EdmRecord>), MigrationError> {
    var lines := Lines(data);
    if lines == [] then Failure(EmptyInput)
    else
      var header := j.parseHeader(lines[0]);
      if header.None? then Failure(InvalidHeader)
      else if header.value.edm != EDM_VERSION then Failure(VersionMismatch(header.value.edm))
      else
        var records := ParseRecords(j, lines[1..], 0);
        if records.Failure? then Failure(records.error) else Success((header.value, records.value))
  }

  lemma {:induction false} ParsePrinted(j: Json, records: seq<EdmRecord>, at: nat)
    requires JsonLaw(j)
    ensures ParseRecords(j, PrintRecords(j, records), at) == Success(records)
  {
    hide Blank;
    if records != [] {
      ParsePrinted(j, records[1..], at + 1);
      assert PrintRecords(j, records)[1..] == PrintRecords(j, records[1..]);
      assert records == [records[0]] + records[1..];
      assert OneLine(j.printRecord(records[0]));
    }
  }

  /** Parsing an export gives its header and its records, in order. */
  lemma ExportParses(j: Json, records: seq<Record>, opts: ExportOptions, now: u64)
    requires JsonLaw(j)
    ensures var filtered := Filtered(records, opts);
      ParseEdm(j, Export(j, records, opts, now)) == Success((HeaderOf(|filtered|, opts, now), FromRecords(filtered)))
  {
    hide Blank, OneLine, Filtered, FromRecord, Lines, Join, ParseRecords;
    var filtered := Filtered(records, opts);
    var header := HeaderOf(|filtered|, opts, now);
    var printed := PrintRecords(j, FromRecords(filtered));
    var lines := [j.printHeader(header)] + printed;
    LinesOfJoin(lines);
    assert lines[1..] == printed;
    ParsePrinted(j, FromRecords(filtered), 0);
  }

  // ---- Import ------------------------------------------------------------

  datatype ConflictStrategy = Skip | Overwrite | Error

  datatype ImportResult = ImportResult(imported: nat, skipped: nat, errors: seq<(Text, MigrationError)>)

  /** What becomes of one record. */
  datatype Fate = Kept(record: Record) | Skipped | Refused(error: MigrationError)

  function FateOf(e: EdmRecord, existing: set<Text>, strategy: ConflictStrategy): Fate {
    if e.id in existing && strategy == Skip then Skipped
    else if e.id in existing && strategy == Error then Refused(Conflict(e.id))
    else
      var record := ToRecord(e);
      if record.Failure? then Refused(record.error) else Kept(record.value)
  }

  /** The records kept, in order. */
  function KeptOf(edm: seq<EdmRecord>, existing: set<Text>, strategy: ConflictStrategy): seq<Record> {
    if edm == [] then []
    else
      var n := |edm| - 1;
      var fate := FateOf(edm[n], existing, strategy);
      KeptOf(edm[..n], existing, strategy) + if fate.Kept? then [fate.record] else []
  }

  /** The records refused, in order, with the reason. */
  function RefusedOf(edm: seq<EdmRecord>, existing: set<Text>,
          strategy: ConflictStrategy): seq<(Text, MigrationError)>
  {
    if edm == [] then []
    else
      var n := |edm| - 1;
      var fate := FateOf(edm[n], existing, strategy);
      RefusedOf(edm[..n], existing, strategy) + if fate.Refused? then [(edm[n].id, fate.error)] else []
  }

  /** Every record is counted once; kept and refused ones come out in order. */
  method Import(edm: seq<EdmRecord>, existing: set<Text>, strategy: ConflictStrategy)
    returns (out: seq<Record>, result: ImportResult)
    ensures result.imported + result.skipped + |result.errors| == |edm|
    ensures out == KeptOf(edm, existing, strategy) && result.imported == |out|
    ensures result.errors == RefusedOf(edm, existing, strategy)
    ensures result.skipped == |set i | 0 <= i < |edm| && FateOf(edm[i], existing, strategy) == Skipped|
  {
    hide ToRecord;
    out := [];
    result := ImportResult(0, 0, []);
    for n := 0 to |edm|
      invariant result.imported + result.skipped + |result.errors| == n
      invariant out == KeptOf(edm[..n], existing, strategy) && result.imported == |out|
      invariant result.errors == RefusedOf(edm[..n], existing, strategy)
      invariant result.skipped == |set i | 0 <= i < n && FateOf(edm[i], existing, strategy) == Skipped|
    {
      var e := edm[n];
      assert edm[..n + 1][..n] == edm[..n];
      SkippedMore(edm, existing, strategy, n);
      if e.id in existing {
        match strategy
        case Skip =>
          result := result.(skipped := result.skipped + 1);
          continue;
        case Error =>
          result := result.(errors := result.errors + [(e.id, Conflict(e.id))]);
          continue;
        case Overwrite =>
      }
      var record := ToRecord(e);
      if record.Success? {
        out := out + [record.value];
        result := result.(imported := result.imported + 1);
      } else {
        result := result.(errors := result.errors + [(e.id, record.error)]);
      }
    }
    assert edm[..|edm|] == edm;
  }

  lemma SkippedMore(edm: seq<EdmRecord>, existing: set<Text>, strategy: ConflictStrategy, n: nat)
    requires n < |edm|
    ensures |set i | 0 <= i < n + 1 && FateOf(edm[i], existing, strategy) == Skipped|
         == |set i | 0 <= i < n && FateOf(edm[i], existing, strategy) == Skipped|
            + if FateOf(edm[n], existing, strategy) == Skipped then 1 else 0
  {
    hide FateOf;
    var before := set i | 0 <= i < n && FateOf(edm[i], existing, strategy) == Skipped;
    var after := set i | 0 <= i < n + 1 && FateOf(edm[i], existing, strategy) == Skipped;
    if FateOf(edm[n], existing, strategy) == Skipped {
      assert after == before + {n};
    } else {
      assert after == before;
    }
  }

  predicate Importable(records: seq<Record>) {
    forall i | 0 <= i < |records| :: IntoValidated(records[i]).Success?
  }

  lemma {:induction false} KeptInOrder(records: seq<Record>, existing: set<Text>, strategy: ConflictStrategy)
    requires Importable(records)
    requires forall i | 0 <= i < |records| :: records[i].id !in existing
    ensures KeptOf(FromRecords(records), existing, strategy) == records
  {
    hide ToRecord, IntoValidated, Hex, Importable;
    if records != [] {
      var n := |records| - 1;
      assert Importable(records[..n]) && IntoValidated(records[n]).Success? by { ImportablePrefix(records, n); }
      KeptInOrder(records[..n], existing, strategy);
      assert FromRecords(records)[..n] == FromRecords(records[..n]);
      RecordRoundTrip(records[n]);
      assert records == records[..n] + [records[n]];
    }
  }

  lemma ImportablePrefix(records: seq<Record>, n: nat)
    requires Importable(records) && n < |records|
    ensures Importable(records[..n]) && IntoValidated(records[n]).Success?
  {
  }

  /** Export, parse and a conflict-free import return the selected records, in order. */
  lemma MigrationRoundTrip(j: Json, records: seq<Record>, opts: ExportOptions, now: u64, existing: set<Text>,
          strategy: ConflictStrategy)
    requires JsonLaw(j) && Importable(Filtered(records, opts))
    requires forall i | 0 <= i < |Filtered(records, opts)| :: Filtered(records, opts)[i].id !in existing
    ensures var parsed := ParseEdm(j, Export(j, records, opts, now));
      parsed.Success? && parsed.value.0.recordCount == |Filtered(records, opts)|
      && KeptOf(parsed.value.1, existing, strategy) == Filtered(records, opts)
  {
    hide JsonLaw, Filtered, ParseEdm, Export, KeptOf, Importable;
    ExportParses(j, records, opts, now);
    KeptInOrder(Filtered(records, opts), existing, strategy);
  }

  // ---- Transform ---------------------------------------------------------

  datatype TransformOptions = TransformOptions(newOwner: Option<Text>, newTier: Option<DataTier>,
          idPrefix: Option<Text>, stripIdPrefix: Option<Text>)

  /** What a transform makes of one record; an id longer than memory cannot be built. */
  function Transformed(r: EdmRecord, opts: TransformOptions): EdmRecord
    requires opts.idPrefix.Some? ==> |opts.idPrefix.value| + |r.id| < 0x8000_0000_0000_0000
  {
    var owned := if opts.newOwner.Some? then r.(ownerId := opts.newOwner.value) else r;
    var tiered := if opts.newTier.Some? then owned.(tier := opts.newTier.value.AsStr()) else owned;
    var prefixed := if opts.idPrefix.Some? then tiered.(id := opts.idPrefix.value + tiered.id) else tiered;
    if opts.stripIdPrefix.Some? && opts.stripIdPrefix.value <= prefixed.id then
      prefixed.(id := prefixed.id[|opts.stripIdPrefix.value|..])
    else prefixed
  }

  method Transform(records: array<EdmRecord>, opts: TransformOptions)
    requires opts.idPrefix.Some? ==>
      forall i | 0 <= i < records.Length :: |opts.idPrefix.value| + |records[i].id| < 0x8000_0000_0000_0000
    modifies records
    ensures forall i | 0 <= i < records.Length :: records[i] == Transformed(old(records[i]), opts)
  {
    for i := 0 to records.Length
      invariant forall j | i <= j < records.Length :: records[j] == old(records[j])
      invariant forall j | 0 <= j < i :: records[j] == Transformed(old(records[j]), opts)
    {
      var r := records[i];
      if opts.newOwner.Some? {
        r := r.(ownerId := opts.newOwner.value);
      }
      if opts.newTier.Some? {
        r := r.(tier := opts.newTier.value.AsStr());
      }
      if opts.idPrefix.Some? {
        r := r.(id := opts.idPrefix.value + r.id);
      }
      if opts.stripIdPrefix.Some? && opts.stripIdPrefix.value <= r.id {
        r := r.(id := r.id[|opts.stripIdPrefix.value|..]);
      }
      records[i] := r;
    }
  }

  function PrefixBy(p: Text): TransformOptions {
    TransformOptions(None, None, Some(p), None)
  }

  function StripBy(p: Text): TransformOptions {
    TransformOptions(None, None, None, Some(p))
  }

  /** Prefixing and then stripping the same prefix is the identity, in two passes or in one. */
  lemma PrefixThenStrip(r: EdmRecord, p: Text)
    requires |p| + |r.id| < 0x8000_0000_0000_0000
    ensures Transformed(Transformed(r, PrefixBy(p)), StripBy(p)) == r
    ensures Transformed(r, TransformOptions(None, None, Some(p), Some(p))) == r
  {
    assert (p + r.id)[|p|..] == r.id;
  }

  /** The other way round it is the identity exactly on ids that carry the prefix. */
  lemma StripThenPrefix(r: EdmRecord, p: Text)
    requires |p| + |r.id| < 0x8000_0000_0000_0000
    ensures Transformed(Transformed(r, StripBy(p)), PrefixBy(p)) == r <==> p <= r.id
  {
    if p <= r.id {
      assert p + r.id[|p|..] == r.id;
    } else {
      assert p <= p + r.id;
    }
  }

  /**
   A transform carries the ciphertext over unchanged, but the associated data of
   the new record is that of the old one only if id and tier are: a record whose
   id or tier was transformed is bound to data it was not sealed with.
   */
  lemma TransformKeepsCiphertext(r: Record, opts: TransformOptions)
    requires opts.idPrefix.Some? ==> |opts.idPrefix.value| + |r.id| < 0x8000_0000_0000_0000
    requires ToRecord(Transformed(FromRecord(r), opts)).Success?
    ensures var t := ToRecord(Transformed(FromRecord(r), opts)).value;
      t.payload == r.payload && t.salt == r.salt && t.createdAt == r.createdAt
      && (Aad(t.id, t.tier) == Aad(r.id, r.tier) <==> t.id == r.id && t.tier == r.tier)
  {
    hide Hex, Unhex, Aad, ValidateBytes, TierFromStr;
    var t := ToRecord(Transformed(FromRecord(r), opts)).value;
    HexRoundTrip(r.payload);
    HexRoundTrip(r.salt);
    if Aad(t.id, t.tier) == Aad(r.id, r.tier) {
      AadInjective(t.id, t.tier, r.id, r.tier);
    }
  }

  // ---- Manifests ---------------------------------------------------------

  datatype Manifest = Manifest(recordCount: nat, totalPayloadBytes: nat, tierCounts: map<DataTier, nat>, idHash: Hash)

  function IdsOf(records: seq<Record>): (s: seq<Keyed<()>>)
    ensures |s| == |records|
  {
    seq(|records|, i requires 0 <= i < |records| => Keyed(records[i].id, ()))
  }

  /** Each id followed by a zero byte. */
  function IdBlob(ids: seq<Keyed<()>>): seq<byte> {
    if ids == [] then [] else ids[0].key + [0] + IdBlob(ids[1..])
  }

  function TotalPayload(records: seq<Record>): nat {
    if records == [] then 0 else TotalPayload(records[..|records| - 1]) + |records[|records| - 1].payload|
  }

  function CountTier(records: seq<Record>, tier: DataTier): nat {
    if records == [] then 0
    else CountTier(records[..|records| - 1], tier) + if records[|records| - 1].tier == tier then 1 else 0
  }

  predicate TierCountsOf(counts: map<DataTier, nat>, records: seq<Record>) {
    forall tier: DataTier ::
      CountTier(records, tier) == (if tier in counts then counts[tier] else 0) && (tier in counts ==> counts[tier] > 0)
  }

  lemma EmptyBlob(ids: seq<Keyed<()>>)
    ensures IdBlob([]) == [] && ids[0..] == ids
  {
  }

  lemma BlobStep(ids: seq<Keyed<()>>, n: nat)
    requires n < |ids|
    ensures IdBlob(ids[n..]) == (ids[n].key + [0]) + IdBlob(ids[n + 1..])
  {
    assert ids[n..][1..] == ids[n + 1..];
  }

  method HashIds(ids: seq<Keyed<()>>) returns (h: Hash)
    ensures h == Sha256.Sha256(IdBlob(ids))
  {
    hide Sha256.Sha256, IdBlob;
    var idBlob: seq<byte> := [];
    EmptyBlob(ids);
    for n := 0 to |ids|
      invariant idBlob + IdBlob(ids[n..]) == IdBlob(ids)
    {
      BlobStep(ids, n);
      ConcatAssociates(idBlob, ids[n].key + [0], IdBlob(ids[n + 1..]));
      idBlob := idBlob + (ids[n].key + [0]);
    }
    assert ids[|ids|..] == [] && idBlob + [] == idBlob;
    h := Sha256.ComputeSha256(idBlob);
  }

  method BuildManifest(records: seq<Record>) returns (m: Manifest)
    ensures m.recordCount == |records| && m.totalPayloadBytes == TotalPayload(records)
    ensures TierCountsOf(m.tierCounts, records)
    ensures m.idHash == Sha256.Sha256(IdBlob(SortBy(IdsOf(records))))
  {
    hide Sha256.Sha256, ValidateBytes, IdBlob;
    var tierCounts: map<DataTier, nat>, totalPayload := map[], 0;
    for n := 0 to |records|
      invariant totalPayload == TotalPayload(records[..n])
      invariant TierCountsOf(tierCounts, records[..n])
    {
      assert records[..n + 1][..n] == records[..n];
      var key := records[n].tier;
      var count := if key in tierCounts then tierCounts[key] else 0;
      tierCounts := tierCounts[key := count + 1];
      totalPayload := totalPayload + |records[n].payload|;
    }
    assert records[..|records|] == records;
    var idHash := HashIds(SortBy(IdsOf(records)));
    return Manifest(|records|, totalPayload, tierCounts, idHash);
  }

  predicate VerifyManifests(pre: Manifest, post: Manifest) {
    pre.recordCount == post.recordCount && pre.idHash == post.idHash && pre.totalPayloadBytes == post.totalPayloadBytes
  }

  /** A manifest describes these records. */
  ghost predicate Describes(m: Manifest, records: seq<Record>) {
    m.recordCount == |records| && m.totalPayloadBytes == TotalPayload(records) && TierCountsOf(m.tierCounts, records)
    && m.idHash == Sha256.Sha256(IdBlob(SortBy(IdsOf(records))))
  }

  function Without(records: seq<Record>, i: nat): seq<Record>
    requires i < |records|
  {
    records[..i] + records[i + 1..]
  }

  /** Dropping an element before the last one. */
  lemma DropBeforeLast<T>(s: seq<T>, i: nat)
    requires i < |s| - 1
    ensures var w := s[..i] + s[i + 1..];
      |w| == |s| - 1 && w[|w| - 1] == s[|s| - 1] && w[..|w| - 1] == s[..|s| - 1][..i] + s[..|s| - 1][i + 1..]
  {
  }

  lemma WithoutPrefix(records: seq<Record>, i: nat)
    requires i < |records| - 1
    ensures var w := Without(records, i);
      |w| == |records| - 1 && w[|w| - 1] == records[|records| - 1]
      && w[..|w| - 1] == Without(records[..|records| - 1], i)
  {
    hide ValidateBytes;
    DropBeforeLast(records, i);
  }

  lemma {:induction false} TotalsWithout(records: seq<Record>, i: nat, tier: DataTier)
    requires i < |records|
    ensures TotalPayload(records) == TotalPayload(Without(records, i)) + |records[i].payload|
    ensures CountTier(records, tier) == CountTier(Without(records, i), tier) + if records[i].tier == tier then 1 else 0
    decreases |records|
  {
    hide ValidateBytes, Without;
    var n := |records| - 1;
    WithoutLast(records);
    if i == n {
    } else {
      TotalsWithout(records[..n], i, tier);
      WithoutPrefix(records, i);
    }
  }

  lemma {:induction false} TotalsForgetOrder(a: seq<Record>, b: seq<Record>, tier: DataTier)
    requires multiset(a) == multiset(b)
    ensures |a| == |b| && TotalPayload(a) == TotalPayload(b) && CountTier(a, tier) == CountTier(b, tier)
    decreases |a|
  {
    hide ValidateBytes, Without;
    if a == [] {
      assert |multiset(b)| == 0;
    } else {
      var n := |a| - 1;
      assert a[n] in multiset(b);
      var i :| 0 <= i < |b| && b[i] == a[n];
      WithoutMultiset(a, n);
      WithoutMultiset(b, i);
      WithoutLast(a);
      TotalsForgetOrder(a[..n], Without(b, i), tier);
      TotalsWithout(b, i, tier);
    }
  }

  lemma WithoutLast(records: seq<Record>)
    requires records != []
    ensures Without(records, |records| - 1) == records[..|records| - 1]
  {
  }

  lemma WithoutMultiset(records: seq<Record>, i: nat)
    requires i < |records|
    ensures multiset(Without(records, i)) == multiset(records) - multiset{records[i]}
  {
    assert records == records[..i] + [records[i]] + records[i + 1..];
  }

  lemma {:induction false} IdsForgetOrder(a: seq<Record>, b: seq<Record>)
    requires multiset(a) == multiset(b)
    ensures multiset(IdsOf(a)) == multiset(IdsOf(b))
    decreases |a|
  {
    assert |a| == |multiset(a)| == |multiset(b)| == |b|;
    if a != [] {
      var n := |a| - 1;
      assert a[n] in multiset(b);
      var i :| 0 <= i < |b| && b[i] == a[n];
      WithoutMultiset(a, n);
      WithoutMultiset(b, i);
      assert Without(a, n) == a[..n];
      IdsForgetOrder(a[..n], Without(b, i));
      IdsWithout(a, n);
      IdsWithout(b, i);
    }
  }

  lemma IdsWithout(records: seq<Record>, i: nat)
    requires i < |records|
    ensures multiset(IdsOf(records)) == multiset(IdsOf(Without(records, i))) + multiset{Keyed(records[i].id, ())}
  {
    var s := IdsOf(records);
    assert s == s[..i] + [s[i]] + s[i + 1..];
    assert IdsOf(Without(records, i)) == s[..i] + s[i + 1..];
  }

  lemma UnitKeyedApart(s: multiset<Keyed<()>>)
    ensures KeyedApart(s)
  {
    forall x, y | x in s && y in s && x.key == y.key
      ensures x == y
    {
      assert x.value == () == y.value;
    }
  }

  /** Reordering the records changes nothing in the manifest. */
  lemma ManifestForgetsOrder(a: seq<Record>, b: seq<Record>, m: Manifest)
    requires multiset(a) == multiset(b) && Describes(m, a)
    ensures Describes(m, b)
  {
    hide Sha256.Sha256, TotalPayload, CountTier, IdBlob;
    forall tier: DataTier
      ensures CountTier(a, tier) == CountTier(b, tier)
    {
      TotalsForgetOrder(a, b, tier);
    }
    TotalsForgetOrder(a, b, Critical);
    IdsForgetOrder(a, b);
    UnitKeyedApart(multiset(IdsOf(a)));
    SortForgetsOrder(IdsOf(a), IdsOf(b));
  }

  // ---- What matching manifests say ---------------------------------------

  predicate NulFree(ids: seq<Keyed<()>>) {
    forall i | 0 <= i < |ids| :: 0 !in ids[i].key
  }

  lemma {:induction false} BlobInjective(a: seq<Keyed<()>>, b: seq<Keyed<()>>)
    requires NulFree(a) && NulFree(b) && IdBlob(a) == IdBlob(b)
    ensures a == b
  {
    if a == [] || b == [] {
      assert |IdBlob(a)| == |IdBlob(b)|;
    } else {
      var x, y := a[0].key, b[0].key;
      assert IdBlob(a) == x + ([0] + IdBlob(a[1..])) && IdBlob(b) == y + ([0] + IdBlob(b[1..]));
      FirstNul(x, IdBlob(a[1..]), y, IdBlob(b[1..]));
      BlobInjective(a[1..], b[1..]);
      assert a[0].value == () == b[0].value;
      assert a == [a[0]] + a[1..] && b == [b[0]] + b[1..];
    }
  }

  lemma FirstNul(x: seq<byte>, u: seq<byte>, y: seq<byte>, v: seq<byte>)
    requires 0 !in x && 0 !in y && x + ([0] + u) == y + ([0] + v)
    ensures x == y && u == v
  {
    var s := x + ([0] + u);
    assert s[|x|] == 0 && s[|y|] == 0;
    assert forall i | 0 <= i < |x| :: s[i] == x[i] != 0;
    assert forall i | 0 <= i < |y| :: s[i] == y[i] != 0;
    ConcatCancel(x, [0] + u, y, [0] + v);
    ConcatCancel([0], u, [0], v);
  }

  /** A blob has a zero byte for each id, and no others exactly when no id holds one. */
  lemma {:induction false} ZerosOfBlob(ids: seq<Keyed<()>>)
    ensures multiset(IdBlob(ids))[0] >= |ids|
    ensures multiset(IdBlob(ids))[0] == |ids| <==> NulFree(ids)
  {
    if ids != [] {
      var x, rest := ids[0].key, ids[1..];
      ZerosOfBlob(rest);
      assert IdBlob(ids) == x + [0] + IdBlob(rest);
      assert 0 in x <==> multiset(x)[0] > 0;
      assert NulFree(ids) <==> 0 !in x && NulFree(rest) by {
        assert ids == [ids[0]] + rest;
      }
    }
  }

  lemma SortedNulFree(s: seq<Keyed<()>>)
    requires NulFree(s)
    ensures NulFree(SortBy(s))
  {
    SortByKeeps(s);
    forall i | 0 <= i < |s|
      ensures 0 !in SortBy(s)[i].key
    {
      assert SortBy(s)[i] in multiset(s);
    }
  }

  /** Two different id blobs with one digest. */
  ghost predicate BlobCollision(a: seq<Record>, b: seq<Record>) {
    var x, y := IdBlob(SortBy(IdsOf(a))), IdBlob(SortBy(IdsOf(b)));
    x != y && Sha256.Sha256(x) == Sha256.Sha256(y)
  }

  /** The same ids, each as often, and as many bytes of payload in all. */
  ghost predicate SameIdsAndSize(a: seq<Record>, b: seq<Record>) {
    multiset(IdsOf(a)) == multiset(IdsOf(b)) && TotalPayload(a) == TotalPayload(b)
  }

  /** Nothing else is compared: with the same ids and size, other tiers, owners and contents match. */
  lemma RetieringMatches(a: seq<Record>, b: seq<Record>, m: Manifest, n: Manifest)
    requires Describes(m, a) && Describes(n, b) && SameIdsAndSize(a, b)
    ensures VerifyManifests(m, n)
  {
    hide Sha256.Sha256, IdBlob, IdsOf, TierCountsOf, TotalPayload;
    assert |a| == |multiset(IdsOf(a))| == |b|;
    UnitKeyedApart(multiset(IdsOf(a)));
    SortForgetsOrder(IdsOf(a), IdsOf(b));
  }

  lemma SortedLength(s: seq<Keyed<()>>)
    ensures |SortBy(s)| == |s|
  {
    SortByKeeps(s);
    assert |SortBy(s)| == |multiset(SortBy(s))| == |s|;
  }

  /** As many ids with the same blob hold no zero bytes either, and are the same ids. */
  lemma SameBlob(s: seq<Keyed<()>>, t: seq<Keyed<()>>)
    requires NulFree(s) && |s| == |t| && IdBlob(SortBy(s)) == IdBlob(SortBy(t))
    ensures multiset(s) == multiset(t)
  {
    hide IdBlob, NulFree;
    SortedNulFree(s);
    SortedLength(s);
    SortedLength(t);
    ZerosOfBlob(SortBy(s));
    ZerosOfBlob(SortBy(t));
    BlobInjective(SortBy(s), SortBy(t));
    SortByKeeps(s);
    SortByKeeps(t);
  }

  /**
   If no id of the one set holds a zero byte, manifests match exactly for the same
   ids and size, whatever the ids of the other set, or SHA-256 collides.
   */
  lemma MatchingManifests(a: seq<Record>, b: seq<Record>, m: Manifest, n: Manifest)
    requires Describes(m, a) && Describes(n, b) && NulFree(IdsOf(a))
    ensures BlobCollision(a, b) || (VerifyManifests(m, n) <==> SameIdsAndSize(a, b))
  {
    hide Sha256.Sha256, IdBlob, IdsOf, NulFree, TierCountsOf, TotalPayload;
    var s, t := IdsOf(a), IdsOf(b);
    if SameIdsAndSize(a, b) {
      RetieringMatches(a, b, m, n);
    }
    if |s| == |t| && IdBlob(SortBy(s)) == IdBlob(SortBy(t)) {
      SameBlob(s, t);
    }
  }

  lemma BlobOfPair(x: Keyed<()>, y: Keyed<()>)
    requires LexLess(x.key, y.key)
    ensures SortBy([x, y]) == [x, y] && IdBlob([x, y]) == x.key + [0] + y.key + [0]
  {
    assert [x, y][1..] == [y] && [y][1..] == [];
    if LexLess(y.key, x.key) {
      LexTransitive(x.key, y.key, x.key);
      LexIrreflexive(x.key);
    }
    assert SortBy([y]) == [y] && IdBlob([y]) == y.key + [0];
  }

  /**
   With a zero byte in an id the blob can be ambiguous: the bytes around it may
   belong to either of two ids, and then records of different ids match.
   */
  lemma NulIdsCollide(x: Text, y: Text, z: Text, a: seq<Record>, b: seq<Record>, m: Manifest, n: Manifest)
    requires LexLess(x + [0] + y, z) && LexLess(x, y + [0] + z)
    requires IdsOf(a) == [Keyed(x + [0] + y, ()), Keyed(z, ())] && IdsOf(b) == [Keyed(x, ()), Keyed(y + [0] + z, ())]
    requires Describes(m, a) && Describes(n, b) && TotalPayload(a) == TotalPayload(b)
    ensures VerifyManifests(m, n) && multiset(IdsOf(a)) != multiset(IdsOf(b))
  {
    hide SortBy, IdBlob, Sha256.Sha256, TierCountsOf, TotalPayload, LexLess;
    var s, t := IdsOf(a), IdsOf(b);
    BlobOfPair(s[0], s[1]);
    BlobOfPair(t[0], t[1]);
    assert IdBlob(s) == IdBlob(t) by { SamePieces(x, y, z); }
    assert |a| == |s| == |t| == |b|;
    NotBeforePrefix(x, [0] + y);
    assert x + [0] + y == x + ([0] + y);
    assert t[0] in multiset(t) && t[0] != s[0] && t[0] != s[1];
    assert t[0] !in s;
  }

  lemma {:induction false} NotBeforePrefix(x: seq<byte>, rest: seq<byte>)
    ensures !LexLess(x + rest, x)
  {
    if x != [] {
      assert (x + rest)[1..] == x[1..] + rest;
      NotBeforePrefix(x[1..], rest);
    }
  }

  lemma SamePieces(x: Text, y: Text, z: Text)
    ensures (x + [0] + y) + [0] + z + [0] == x + [0] + (y + [0] + z) + [0]
  {
  }

  /** Two exports of the shortest such ids, of any records of one size. */
  lemma NulIdsExample(r: Record, m: Manifest, n: Manifest)
    requires Describes(m, [r.(id := [97, 0, 98]), r.(id := [99])])
    requires Describes(n, [r.(id := [97]), r.(id := [98, 0, 99])])
    ensures var a, b := [r.(id := [97, 0, 98]), r.(id := [99])], [r.(id := [97]), r.(id := [98, 0, 99])];
      VerifyManifests(m, n) && multiset(IdsOf(a)) != multiset(IdsOf(b))
  {
    hide Describes, IdBlob, SortBy, TotalPayload, VerifyManifests;
    var a, b := [r.(id := [97, 0, 98]), r.(id := [99])], [r.(id := [97]), r.(id := [98, 0, 99])];
    var x: Text, y: Text, z: Text := [97], [98], [99];
    assert x + [0] + y == [97, 0, 98] && y + [0] + z == [98, 0, 99];
    assert IdsOf(a) == [Keyed(x + [0] + y, ()), Keyed(z, ())] && IdsOf(b) == [Keyed(x, ()), Keyed(y + [0] + z, ())];
    PayloadOfPair(a);
    PayloadOfPair(b);
    NulIdsCollide(x, y, z, a, b, m, n);
  }

  lemma PayloadOfPair(a: seq<Record>)
    requires |a| == 2
    ensures TotalPayload(a) == |a[0].payload| + |a[1].payload|
  {
    var one := [a[0]];
    assert a[..1] == one && one[..0] == [];
    assert TotalPayload(one) == |a[0].payload|;
  }

  // ---- Field by field ----------------------------------------------------

  /** An exported record carries every field of the record, the bytes in hexadecimal. */
  lemma ExportedFields(r: Record)
    ensures var e := FromRecord(r);
      e.id == r.id && e.ownerId == r.ownerId && e.createdAt == r.createdAt
      && Unhex(e.payloadHex) == Some(r.payload) && Unhex(e.saltHex) == Some(r.salt)
      && e.tier == TierName(r.tier)
  {
    hide Hex, Unhex;
    HexRoundTrip(r.payload);
    HexRoundTrip(r.salt);
  }

  /** What a line's record becomes: a record is made exactly of a legal one's fields. */
  lemma ToRecordExactly(e: EdmRecord, r: Record)
    ensures ToRecord(e) == Success(r) <==>
      e.id == r.id && e.ownerId == r.ownerId && e.createdAt == r.createdAt
      && Unhex(e.payloadHex) == Some(r.payload) && Unhex(e.saltHex) == Some(r.salt)
      && e.tier == TierName(r.tier) && r.id != [] && r.ownerId != [] && r.createdAt != 0
  {
    hide Unhex, ValidateBytes, Ascii;
    TierRoundTrip(r.tier);
    TierNamed(e.tier);
  }

  function TierName(tier: DataTier): seq<byte> {
    match tier
    case Critical => Ascii("critical")
    case Personal => Ascii("personal")
    case Noise => Ascii("noise")
  }

  lemma TierNamed(s: seq<byte>)
    ensures TierFromStr(s).Some? ==> s == TierName(TierFromStr(s).value)
  {
    hide Ascii;
  }

  /** A record of the owner and of the tier asked for, where one is asked for. */
  predicate Wanted(r: Record, opts: ExportOptions) {
    (opts.ownerFilter.None? || r.ownerId == opts.ownerFilter.value)
    && (opts.tierFilter.None? || r.tier == opts.tierFilter.value)
  }

  /** Exactly the wanted records are exported, each as often as it occurs, and the header says which. */
  lemma {:induction false} ExportedExactly(records: seq<Record>, opts: ExportOptions, now: u64, r: Record)
    ensures multiset(Filtered(records, opts))[r] == if Wanted(r, opts) then multiset(records)[r] else 0
    ensures var header := HeaderOf(|Filtered(records, opts)|, opts, now);
      header.edm == 1 && header.exportedAt == now && header.recordCount == |Filtered(records, opts)|
      && header.ownerFilter == opts.ownerFilter
      && (header.tierFilter.Some? <==> opts.tierFilter.Some?)
      && (opts.tierFilter.Some? ==> header.tierFilter.value == opts.tierFilter.value.AsStr())
  {
    hide DataTier.AsStr;
    if records != [] {
      ExportedExactly(records[1..], opts, now, r);
      assert records == [records[0]] + records[1..];
    }
  }

  /** A record whose id exists is skipped or refused as told; any other record, and every one overwritten, is not. */
  lemma FateExactly(e: EdmRecord, existing: set<Text>, strategy: ConflictStrategy)
    ensures e.id in existing && strategy == Skip ==> FateOf(e, existing, strategy) == Skipped
    ensures e.id in existing && strategy == Error ==> FateOf(e, existing, strategy) == Refused(Conflict(e.id))
    ensures e.id !in existing || strategy == Overwrite ==>
      match ToRecord(e)
      case Success(record) => FateOf(e, existing, strategy) == Kept(record)
      case Failure(error) => FateOf(e, existing, strategy) == Refused(error) && !error.Conflict?
  {
    hide ToRecord;
    NoConflictFromRecord(e);
  }

  /** Only overwriting keeps a record whose id exists, and it takes no notice of ids. */
  lemma {:induction false} KeptExactly(edm: seq<EdmRecord>, existing: set<Text>, strategy: ConflictStrategy)
    ensures KeptOf(edm, existing, strategy) ==
      KeptOf(if strategy == Overwrite then edm else Unknown(edm, existing), {}, strategy)
  {
    hide ToRecord, FateOf;
    if edm != [] {
      var n := |edm| - 1;
      KeptExactly(edm[..n], existing, strategy);
      FateExactly(edm[n], existing, strategy);
      FateExactly(edm[n], {}, strategy);
      KeptMore(Unknown(edm[..n], existing), edm[n], strategy);
    }
  }

  lemma KeptMore(edm: seq<EdmRecord>, e: EdmRecord, strategy: ConflictStrategy)
    ensures var fate := FateOf(e, {}, strategy);
      KeptOf(edm + [e], {}, strategy) == KeptOf(edm, {}, strategy) + if fate.Kept? then [fate.record] else []
    ensures edm + [] == edm
  {
    hide FateOf;
    assert (edm + [e])[..|edm|] == edm;
  }

  /** Only the third strategy refuses ids that exist, and it refuses every one of them. */
  lemma {:induction false} RefusedExactly(edm: seq<EdmRecord>, existing: set<Text>, strategy: ConflictStrategy,
          e: EdmRecord)
    ensures (e.id, Conflict(e.id)) in RefusedOf(edm, existing, strategy)
       <==> strategy == Error && e.id in existing && exists d | d in edm :: d.id == e.id
  {
    hide ToRecord, FateOf;
    if edm != [] {
      var n := |edm| - 1;
      RefusedExactly(edm[..n], existing, strategy, e);
      FateExactly(edm[n], existing, strategy);
      assert edm == edm[..n] + [edm[n]];
      assert edm[n].id == e.id ==> edm[n] in edm;
    }
  }

  /** The records whose ids do not exist yet. */
  function Unknown(edm: seq<EdmRecord>, existing: set<Text>): seq<EdmRecord> {
    if edm == [] then []
    else
      var n := |edm| - 1;
      Unknown(edm[..n], existing) + if edm[n].id in existing then [] else [edm[n]]
  }

  lemma NoConflictFromRecord(e: EdmRecord)
    ensures ToRecord(e).Failure? ==> !ToRecord(e).error.Conflict?
  {
    hide Unhex, TierFromStr, IntoValidated;
  }

  /** A transform replaces owner and tier where told, prefixes the id and then strips it; the rest stays. */
  lemma TransformedExactly(r: EdmRecord, opts: TransformOptions)
    requires opts.idPrefix.Some? ==> |opts.idPrefix.value| + |r.id| < 0x8000_0000_0000_0000
    ensures var t := Transformed(r, opts);
      t.ownerId == (if opts.newOwner.Some? then opts.newOwner.value else r.ownerId)
      && t.tier == (if opts.newTier.Some? then opts.newTier.value.AsStr() else r.tier)
      && t.payloadHex == r.payloadHex && t.saltHex == r.saltHex && t.createdAt == r.createdAt
      && var id := (if opts.idPrefix.Some? then opts.idPrefix.value else []) + r.id;
      var stripped := opts.stripIdPrefix.Some? && opts.stripIdPrefix.value <= id;
      t.id == if stripped then id[|opts.stripIdPrefix.value|..] else id
  {
    hide DataTier.AsStr;
    assert [] + r.id == r.id;
  }

  /** A line that is neither blank nor a record. */
  predicate BadLine(j: Json, line: seq<byte>) {
    !Blank(line) && j.parseRecord(line).None?
  }

  /** Blank lines are passed over and all others are read in order, when no line is bad. */
  lemma {:induction false} ParseExactly(j: Json, lines: seq<seq<byte>>, at: nat)
    ensures ParseRecords(j, lines, at).Success? <==> forall line | line in lines :: !BadLine(j, line)
    ensures ParseRecords(j, lines, at).Success? ==> ParseRecords(j, lines, at).value == Read(j, lines)
  {
    hide Blank;
    if lines != [] {
      ParseExactly(j, lines[1..], at + 1);
      NoneBad(j, lines);
    }
  }

  lemma NoneBad(j: Json, lines: seq<seq<byte>>)
    requires lines != []
    ensures (forall line | line in lines :: !BadLine(j, line))
       <==> !BadLine(j, lines[0]) && forall line | line in lines[1..] :: !BadLine(j, line)
  {
    hide BadLine;
    assert lines[0] in lines;
    assert lines == [lines[0]] + lines[1..];
  }

  /** The first bad line is reported, by its number. */
  lemma {:induction false} FirstBadLine(j: Json, lines: seq<seq<byte>>, at: nat) returns (k: nat)
    requires ParseRecords(j, lines, at).Failure?
    ensures k < |lines| && BadLine(j, lines[k]) && forall i | 0 <= i < k :: !BadLine(j, lines[i])
    ensures ParseRecords(j, lines, at).error == InvalidRecord(at + k)
  {
    hide Blank;
    if BadLine(j, lines[0]) {
      k := 0;
    } else {
      var m := FirstBadLine(j, lines[1..], at + 1);
      k := m + 1;
      forall i | 0 <= i < k
        ensures !BadLine(j, lines[i])
      {
        assert i > 0 ==> lines[i] == lines[1..][i - 1];
      }
    }
  }

  /** The records of the lines that hold one. */
  function Read(j: Json, lines: seq<seq<byte>>): seq<EdmRecord> {
    if lines == [] then []
    else
      var first := j.parseRecord(lines[0]);
      (if Blank(lines[0]) || first.None? then [] else [first.value]) + Read(j, lines[1..])
  }

  /** An empty text, a bad header, another version and a bad line are refused, in this order. */
  lemma ParseEdmExactly(j: Json, data: seq<byte>) returns (k: nat)
    ensures var lines, parsed := Lines(data), ParseEdm(j, data);
      if lines == [] then parsed == Failure(EmptyInput)
      else
        match j.parseHeader(lines[0])
        case None => parsed == Failure(InvalidHeader)
        case Some(header) =>
          if header.edm != 1 then parsed == Failure(VersionMismatch(header.edm))
          else if forall line | line in lines[1..] :: !BadLine(j, line) then
            parsed == Success((header, Read(j, lines[1..])))
          else
            k < |lines[1..]| && BadLine(j, lines[1..][k]) && (forall i | 0 <= i < k :: !BadLine(j, lines[1..][i]))
            && parsed == Failure(InvalidRecord(k))
  {
    hide BadLine, ParseRecords, Lines, Read;
    var lines := Lines(data);
    k := 0;
    if lines != [] {
      var rest := lines[1..];
      ParseExactly(j, rest, 0);
      if ParseRecords(j, rest, 0).Failure? {
        k := FirstBadLine(j, rest, 0);
      }
    }
  }

  // ---- What a manifest adds up -------------------------------------------

  function Payloads(records: seq<Record>): seq<byte> {
    if records == [] then [] else records[0].payload + Payloads(records[1..])
  }

  /** The payload total is the length of all payloads together. */
  lemma {:induction false} TotalPayloadExactly(records: seq<Record>)
    ensures TotalPayload(records) == |Payloads(records)|
  {
    if records != [] {
      TotalPayloadExactly(records[..|records| - 1]);
      LastPayload(records);
    }
  }

  /** The count of a tier is how many records have it. */
  lemma CountTierExactly(records: seq<Record>, tier: DataTier)
    ensures CountTier(records, tier) == |set i | 0 <= i < |records| && records[i].tier == tier|
  {
    CountTierUpTo(records, tier, |records|);
    assert records[..|records|] == records;
  }

  lemma {:induction false} CountTierUpTo(records: seq<Record>, tier: DataTier, n: nat)
    requires n <= |records|
    ensures CountTier(records[..n], tier) == |set i | 0 <= i < n && records[i].tier == tier|
  {
    if n > 0 {
      CountTierUpTo(records, tier, n - 1);
      assert records[..n][..n - 1] == records[..n - 1];
      HavingMore(records, tier, n - 1);
    }
  }

  lemma HavingMore(records: seq<Record>, tier: DataTier, n: nat)
    requires n < |records|
    ensures |set i | 0 <= i < n + 1 && records[i].tier == tier|
         == |set i | 0 <= i < n && records[i].tier == tier| + if records[n].tier == tier then 1 else 0
  {
    var before := set i | 0 <= i < n && records[i].tier == tier;
    var after := set i | 0 <= i < n + 1 && records[i].tier == tier;
    if records[n].tier == tier {
      assert after == before + {n};
    } else {
      assert after == before;
    }
  }

  lemma {:induction false} LastPayload(records: seq<Record>)
    requires records != []
    ensures Payloads(records) == Payloads(records[..|records| - 1]) + records[|records| - 1].payload
  {
    var n := |records| - 1;
    if n == 0 {
      assert records[1..] == [] && records[..0] == [];
      assert Payloads([]) == [];
    } else {
      LastPayload(records[1..]);
      assert records[1..][..n - 1] == records[..n][1..];
    }
  }
}
