/**
 The cryptographic libraries, as values a store is parameterised by.

 No law is assumed of the digests: whatever depends on collision resistance is
 stated as "equal, or here are two inputs with one digest".
 */
module Crypto {
  import opened Base
  import opened Bytes

  datatype Crypto = Crypto(
    sha256: seq<byte> -> Hash,
    blake3: seq<byte> -> Hash,
    keyedHash: (Hash, seq<byte>) -> Hash,
    argon2: (Text, Hash) -> Option<Hash>,
    contextKey: Hash -> Hash,
    seal: (Hash, seq<byte>, seq<byte>, seq<byte>) -> Option<seq<byte>>,
    unseal: (Hash, seq<byte>, seq<byte>, seq<byte>) -> Option<seq<byte>>
  )

  /** Two different inputs with one digest. */
  ghost predicate Collides(digest: seq<byte> -> Hash, x: seq<byte>, y: seq<byte>) {
    x != y && digest(x) == digest(y)
  }
}
