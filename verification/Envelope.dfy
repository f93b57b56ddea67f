/** The versioned encrypted-payload envelope and the data it is bound to. */
module Envelope {
  import opened Base
  import opened Bytes
  import opened Crypto

  datatype DataTier = Critical | Personal | Noise {
    function AsStr(): seq<byte> {
      match this
      case Critical => Ascii("critical")
      case Personal => Ascii("personal")
      case Noise => Ascii("noise")
    }
  }

  const PAYLOAD_VERSION: byte := 1
  const NONCE_LEN: nat := 12
  const TAG_LEN: nat := 16
  const PREFIX_LEN: nat := 5

  /** "EDB1" */
  function Magic(): seq<byte> {
    [69, 68, 66, 49]
  }

  type Nonce = n: seq<byte> | |n| == NONCE_LEN witness seq(NONCE_LEN, _ => 0)

  function ValidateBytes(bytes: seq<byte>): Outcome<()> {
    if |bytes| < |Magic()| || !(Magic() <= bytes) then Failure(LegacyPayloadFormat)
    else if |bytes| < PREFIX_LEN then Failure(InvalidEncryptedPayload)
    else if bytes[4] != PAYLOAD_VERSION then Failure(UnsupportedPayloadVersion(bytes[4]))
    else if |bytes| < PREFIX_LEN + NONCE_LEN + TAG_LEN then Failure(InvalidEncryptedPayload)
    else Success(())
  }

  type EncryptedPayload = b: seq<byte> | ValidateBytes(b).Success?
    witness Magic() + [1] + seq(28, _ => 0)

  function FromPersisted(bytes: seq<byte>): Outcome<EncryptedPayload> {
    var verdict := ValidateBytes(bytes);
    if verdict.Failure? then Failure(verdict.error) else Success(bytes)
  }

  function FromCiphertextParts(nonce: Nonce, ciphertext: seq<byte>): Outcome<EncryptedPayload> {
    if |ciphertext| < TAG_LEN then Failure(InvalidEncryptedPayload)
    else FromPersisted(Magic() + [PAYLOAD_VERSION] + nonce + ciphertext)
  }

  function NonceAndCiphertext(p: EncryptedPayload): (Nonce, seq<byte>) {
    (p[PREFIX_LEN..PREFIX_LEN + NONCE_LEN], p[PREFIX_LEN + NONCE_LEN..])
  }

  /** What is packed is what is unpacked, and short ciphertexts are refused. */
  lemma PartsRoundTrip(nonce: Nonce, ciphertext: seq<byte>)
    ensures FromCiphertextParts(nonce, ciphertext).Success? <==> |ciphertext| >= TAG_LEN
    ensures |ciphertext| >= TAG_LEN ==>
      NonceAndCiphertext(FromCiphertextParts(nonce, ciphertext).value) == (nonce, ciphertext)
  {
    var b := Magic() + [PAYLOAD_VERSION] + nonce + ciphertext;
    assert Magic() <= b && b[4] == PAYLOAD_VERSION;
    assert b[PREFIX_LEN..PREFIX_LEN + NONCE_LEN] == nonce && b[PREFIX_LEN + NONCE_LEN..] == ciphertext;
  }

  /** The decoder accepts the packed pairs and nothing else. */
  lemma AcceptsExactlyPacked(bytes: seq<byte>)
    ensures FromPersisted(bytes).Success? <==>
      exists nonce: Nonce, ciphertext: seq<byte> :: FromCiphertextParts(nonce, ciphertext) == Success(bytes)
  {
    if FromPersisted(bytes).Success? {
      var (nonce, ciphertext) := NonceAndCiphertext(bytes);
      assert bytes == Magic() + [PAYLOAD_VERSION] + nonce + ciphertext;
      assert FromCiphertextParts(nonce, ciphertext) == Success(bytes);
    }
  }

  // ---- Associated data ---------------------------------------------------

  /** `format!("{}:{}", id, tier)`; 58 is the colon. */
  function Aad(id: seq<byte>, tier: DataTier): seq<byte> {
    id + [58] + tier.AsStr()
  }

  /** Its bytes, tier by tier. */
  lemma AadBytes(id: seq<byte>)
    ensures Aad(id, Critical) == id + Ascii(":critical") && Aad(id, Personal) == id + Ascii(":personal")
    ensures Aad(id, Noise) == id + Ascii(":noise")
  {
    assert [58] + Ascii("critical") == Ascii(":critical");
    assert [58] + Ascii("personal") == Ascii(":personal");
    assert [58] + Ascii("noise") == Ascii(":noise");
    assert Aad(id, Critical) == id + ([58] + Ascii("critical"));
    assert Aad(id, Personal) == id + ([58] + Ascii("personal"));
    assert Aad(id, Noise) == id + ([58] + Ascii("noise"));
  }

  /** The associated data determines id and tier, colons in the id included. */
  lemma AadInjective(id: seq<byte>, tier: DataTier, other: seq<byte>, otherTier: DataTier)
    requires Aad(id, tier) == Aad(other, otherTier)
    ensures id == other && tier == otherTier
  {
    var a, b := tier.AsStr(), otherTier.AsStr();
    var x := Aad(id, tier);
    assert x[|x| - 1] == a[|a| - 1] == b[|b| - 1];
    assert |a| == |b|;
    ConcatCancel(id + [58], a, other + [58], b);
    ConcatCancel(id, [58], other, [58]);
    assert a[0] == b[0];
  }

  // ---- Encryption --------------------------------------------------------

  function EncryptPayload(c: Crypto, data: seq<byte>, key: Hash, id: seq<byte>, tier: DataTier,
          nonce: Nonce): Outcome<EncryptedPayload>
  {
    match c.seal(key, nonce, Aad(id, tier), data)
    case None => Failure(EncryptionFailed)
    case Some(ciphertext) => FromCiphertextParts(nonce, ciphertext)
  }

  function DecryptPayload(c: Crypto, payload: EncryptedPayload, key: Hash, id: seq<byte>,
          tier: DataTier): Outcome<seq<byte>>
  {
    var (nonce, ciphertext) := NonceAndCiphertext(payload);
    match c.unseal(key, nonce, Aad(id, tier), ciphertext)
    case None => Failure(DecryptionFailed)
    case Some(data) => Success(data)
  }

  /** The law the AEAD library is trusted for: unsealing undoes sealing. */
  ghost predicate AeadLaw(c: Crypto) {
    forall key: Hash, nonce: seq<byte>, aad: seq<byte>, data: seq<byte> ::
      match c.seal(key, nonce, aad, data)
      case None => true
      case Some(sealed) => c.unseal(key, nonce, aad, sealed) == Some(data)
  }

  lemma EncryptionRoundTrip(c: Crypto, data: seq<byte>, key: Hash, id: seq<byte>, tier: DataTier, nonce: Nonce)
    requires AeadLaw(c) && EncryptPayload(c, data, key, id, tier, nonce).Success?
    ensures DecryptPayload(c, EncryptPayload(c, data, key, id, tier, nonce).value, key, id, tier) == Success(data)
  {
    hide Aad, Magic, ValidateBytes;
    var sealed := c.seal(key, nonce, Aad(id, tier), data);
    PartsRoundTrip(nonce, sealed.value);
  }
}
