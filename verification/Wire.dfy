/** The response protocol: its sealed 78-byte header and the response envelope. */
module Wire {
  import opened Base
  import opened Bytes
  import opened Envelope
  import Sha256

  const ARPI_VERSION: byte := 1
  const HEADER_SIZE: nat := 78

  function TierCode(tier: DataTier): byte {
    match tier
    case Critical => 0
    case Personal => 1
    case Noise => 2
  }

  function TierFromCode(v: byte): Option<DataTier> {
    if v == 0 then Some(Critical) else if v == 1 then Some(Personal) else if v == 2 then Some(Noise) else None
  }

  datatype Header = Header(version: byte, tier: DataTier, timestamp: u64, count: u32, auditHash: Hash, seal: Hash)

  /** The sealed fields, in wire order. */
  function SealInput(h: Header): (b: seq<byte>)
    ensures |b| == HEADER_SIZE - 32
  {
    [h.version] + [TierCode(h.tier)] + LittleEndian(h.timestamp, 8) + LittleEndian(h.count, 4) + h.auditHash
  }

  function ComputeSeal(h: Header): Hash {
    Sha256.Sha256(SealInput(h))
  }

  function NewHeader(tier: DataTier, timestamp: u64, count: u32, auditHash: Hash): Header {
    var h := Header(ARPI_VERSION, tier, timestamp, count, auditHash, ZeroHash());
    h.(seal := ComputeSeal(h))
  }

  predicate Verify(h: Header) {
    h.seal == ComputeSeal(h)
  }

  function ToBytes(h: Header): (b: seq<byte>)
    ensures |b| == HEADER_SIZE
  {
    SealInput(h) + h.seal
  }

  /** The encoder fills a zeroed buffer field by field. */
  method Encode(h: Header) returns (out: array<byte>)
    ensures fresh(out) && out[..] == ToBytes(h)
  {
    hide LittleEndian;
    out := new byte[HEADER_SIZE](_ => 0);
    out[0] := h.version;
    out[1] := TierCode(h.tier);
    assert out[..2] == [h.version] + [TierCode(h.tier)];
    CopyInto(out, 2, LittleEndian(h.timestamp, 8));
    assert out[..10] == [h.version] + [TierCode(h.tier)] + LittleEndian(h.timestamp, 8);
    CopyInto(out, 10, LittleEndian(h.count, 4));
    assert out[..14] == [h.version] + [TierCode(h.tier)] + LittleEndian(h.timestamp, 8) + LittleEndian(h.count, 4);
    CopyInto(out, 14, h.auditHash);
    assert out[..46] == SealInput(h);
    CopyInto(out, 46, h.seal);
    assert out[..] == out[..78];
  }

  function FromBytes(b: seq<byte>): Option<Header>
    requires |b| == HEADER_SIZE
  {
    if b[0] != ARPI_VERSION then None
    else
      var tier := TierFromCode(b[1]);
      if tier.None? then None
      else Some(Header(b[0], tier.value, ReadU64(b[2..10]), ReadU32(b[10..14]), b[14..46], b[46..78]))
  }

  /** Where each field lies. */
  lemma HeaderParts(h: Header)
    ensures var b := ToBytes(h);
      b[0] == h.version && b[1] == TierCode(h.tier) && b[2..10] == LittleEndian(h.timestamp, 8)
      && b[10..14] == LittleEndian(h.count, 4) && b[14..46] == h.auditHash && b[46..78] == h.seal
  {
    hide LittleEndian;
  }

  /** An encoded header decodes to itself exactly when it has the protocol's version. */
  lemma HeaderRoundTrip(h: Header)
    ensures FromBytes(ToBytes(h)) == if h.version == ARPI_VERSION then Some(h) else None
  {
    hide LittleEndian, ReadU64, ReadU32, ToBytes;
    HeaderParts(h);
    U64ReadsBack(h.timestamp);
    U32ReadsBack(h.count);
  }

  /** The decoder accepts exactly this version and the three tiers, and re-encodes unchanged. */
  lemma HeaderAccepts(b: seq<byte>)
    requires |b| == HEADER_SIZE
    ensures FromBytes(b).Some? <==> b[0] == ARPI_VERSION && b[1] <= 2
    ensures FromBytes(b).Some? ==> ToBytes(FromBytes(b).value) == b
  {
    hide LittleEndian, ReadU64, ReadU32;
    if FromBytes(b).Some? {
      assert LittleEndian(ReadU64(b[2..10]), 8) == b[2..10] by { U64Rewritten(b[2..10]); }
      assert LittleEndian(ReadU32(b[10..14]), 4) == b[10..14] by { U32Rewritten(b[10..14]); }
      assert b == [b[0]] + [b[1]] + b[2..10] + b[10..14] + b[14..46] + b[46..78];
    }
  }

  // ---- The response envelope ---------------------------------------------

  datatype Response = Response(header: Header, payload: seq<byte>)

  function ResponseBytes(r: Response): seq<byte> {
    ToBytes(r.header) + r.payload
  }

  function ResponseFromBytes(data: seq<byte>): Option<Response> {
    if |data| < HEADER_SIZE then None
    else
      var header := FromBytes(data[..HEADER_SIZE]);
      if header.None? then None else Some(Response(header.value, data[HEADER_SIZE..]))
  }

  /** A response decodes to itself, and whatever decodes re-encodes unchanged. */
  lemma ResponseRoundTrip(r: Response)
    requires r.header.version == ARPI_VERSION
    ensures ResponseFromBytes(ResponseBytes(r)) == Some(r)
  {
    hide ToBytes, FromBytes;
    HeaderRoundTrip(r.header);
    var b := ResponseBytes(r);
    assert b[..HEADER_SIZE] == ToBytes(r.header) && b[HEADER_SIZE..] == r.payload;
  }

  lemma ResponseAccepts(data: seq<byte>)
    ensures ResponseFromBytes(data).Some? <==> |data| >= HEADER_SIZE && data[0] == ARPI_VERSION && data[1] <= 2
    ensures ResponseFromBytes(data).Some? ==> ResponseBytes(ResponseFromBytes(data).value) == data
  {
    hide ToBytes, FromBytes;
    if |data| >= HEADER_SIZE {
      HeaderAccepts(data[..HEADER_SIZE]);
      assert data == data[..HEADER_SIZE] + data[HEADER_SIZE..];
    }
  }

  // ---- The seal ----------------------------------------------------------

  datatype ArpiError = InvalidVersion(version: byte) | InvalidSeal

  function Validate(r: Response): Result<(), ArpiError> {
    if r.header.version != ARPI_VERSION then Failure(InvalidVersion(r.header.version))
    else if !Verify(r.header) then Failure(InvalidSeal)
    else Success(())
  }

  /** What is built is sealed, and is still valid when it comes off the wire. */
  lemma NewIsValid(tier: DataTier, timestamp: u64, count: u32, auditHash: Hash, payload: seq<byte>)
    ensures var r := Response(NewHeader(tier, timestamp, count, auditHash), payload);
      ResponseFromBytes(ResponseBytes(r)) == Some(r) && Validate(r).Success?
  {
    hide ToBytes, FromBytes, Sha256.Sha256;
    var h := NewHeader(tier, timestamp, count, auditHash);
    assert SealInput(h) == SealInput(h.(seal := ZeroHash()));
    ResponseRoundTrip(Response(h, payload));
  }

  lemma SealInputInjective(a: Header, b: Header)
    requires SealInput(a) == SealInput(b)
    ensures a.(seal := b.seal) == b
  {
    hide LittleEndian, ReadU64, ReadU32;
    assert ToBytes(a.(seal := b.seal)) == ToBytes(b);
    HeaderParts(a.(seal := b.seal));
    HeaderParts(b);
    U64ReadsBack(a.timestamp);
    U32ReadsBack(a.count);
    U64ReadsBack(b.timestamp);
    U32ReadsBack(b.count);
  }

  /** Two sealed headers with one seal are the same header, or SHA-256 collides. */
  lemma SealBinds(a: Header, b: Header)
    requires Verify(a) && Verify(b) && a.seal == b.seal
    ensures a == b || (SealInput(a) != SealInput(b) && Sha256.Sha256(SealInput(a)) == Sha256.Sha256(SealInput(b)))
  {
    hide SealInput, Sha256.Sha256;
    if SealInput(a) == SealInput(b) {
      SealInputInjective(a, b);
    }
  }

  /** The seal does not cover the payload: any payload is as valid as the one sent. */
  lemma PayloadUnsealed(r: Response, payload: seq<byte>)
    ensures Validate(r.(payload := payload)) == Validate(r)
  {
  }

  /** Exactly the responses of this version whose seal is the digest of the sealed bytes are valid. */
  lemma ValidExactly(r: Response)
    ensures Validate(r) ==
      if r.header.version != 1 then Failure(InvalidVersion(r.header.version))
      else if r.header.seal != Sha256.Sha256(ToBytes(r.header)[..46]) then Failure(InvalidSeal)
      else Success(())
  {
    hide SealInput, Sha256.Sha256;
    assert ToBytes(r.header)[..46] == SealInput(r.header);
  }

  /** The first two bytes of a header are the version and the tier. */
  lemma TierBytes(h: Header)
    ensures ToBytes(h)[0] == h.version
    ensures ToBytes(h)[1] == match h.tier case Critical => 0 case Personal => 1 case Noise => 2
    ensures NewHeader(h.tier, h.timestamp, h.count, h.auditHash)
         == Header(1, h.tier, h.timestamp, h.count, h.auditHash,
                   NewHeader(h.tier, h.timestamp, h.count, h.auditHash).seal)
  {
    hide LittleEndian, Sha256.Sha256;
  }
}
