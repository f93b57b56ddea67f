/** Failure-compatible result types shared by every module. */
module Base {

  datatype Option<+T> = None | Some(value: T)

  datatype Result<+T, +E> = Success(value: T) | Failure(error: E)

  /** The errors of the storage engine. */
  datatype EdisonError =
    | NoOwner
    | EmptyRecordId
    | AccessDenied
    | NotFound
    | SaveFailed
    | LoadFailed
    | EncryptionFailed
    | DecryptionFailed
    | LegacyPayloadFormat
    | UnsupportedPayloadVersion(version: nat)
    | InvalidEncryptedPayload
    | KeyDerivationFailed
    | AlreadyExists
    | InvalidCreatedAt
    | AuditChainBroken

  type Outcome<+T> = Result<T, EdisonError>
}
