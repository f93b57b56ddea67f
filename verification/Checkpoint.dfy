/** Audit checkpoints, plain and authenticated, and how an open classifies them. */
module Checkpoint {
  import opened Base
  import opened Bytes
  import opened Crypto

  const CHECKPOINT_VERSION: byte := 2

  datatype AuditCheckpoint = AuditCheckpoint(expectedCount: u64, expectedHead: Hash)

  datatype AuthenticatedCheckpoint = AuthenticatedCheckpoint(
    version: byte,
    expectedCount: u64,
    expectedHead: Hash,
    recordCommitment: Hash,
    storeSalt: Hash,
    mac: Hash
  )

  /**
   The checkpoint cell of a database. Both parsers refuse unknown or missing
   fields, so a cell of one shape is malformed to the parser of the other.
   */
  datatype CheckpointCell =
    | Absent
    | Legacy(checkpoint: AuditCheckpoint)
    | Authenticated(sealed: AuthenticatedCheckpoint)
    | Malformed

  datatype AuthContext = AuthContext(storeSalt: Hash, macKey: Hash)

  datatype OpenState = Genesis | Existing

  datatype FailureReason = Missing | BadJson | CountMismatch | HeadMismatch | UnanchoredRecords

  /** What a reader found in the tables next to the checkpoint. */
  datatype Observed = Observed(auditEmpty: bool, recordsEmpty: bool, count: u64, head: Hash, commitment: Hash)

  // ---- The MAC -----------------------------------------------------------

  function MacDomain(): seq<byte> {
    Ascii("EDISONDB-AUDIT-CHECKPOINT-V2")
  }

  function MacInput(count: u64, head: Hash, commitment: Hash): seq<byte> {
    MacDomain() + U64Be(count) + head + commitment
  }

  function MakeContext(c: Crypto, secret: Text, salt: Hash): Outcome<AuthContext> {
    match c.argon2(secret, salt)
    case None => Failure(KeyDerivationFailed)
    case Some(key) => Success(AuthContext(salt, c.contextKey(key)))
  }

  function SealCheckpoint(c: Crypto, count: u64, head: Hash, commitment: Hash,
          context: AuthContext): AuthenticatedCheckpoint
  {
    AuthenticatedCheckpoint(CHECKPOINT_VERSION, count, head, commitment, context.storeSalt,
                            c.keyedHash(context.macKey, MacInput(count, head, commitment)))
  }

  function VerifySeal(c: Crypto, sealed: AuthenticatedCheckpoint, context: AuthContext): Outcome<()> {
    if sealed.version != CHECKPOINT_VERSION || sealed.storeSalt != context.storeSalt then Failure(AuditChainBroken)
    else
      var expected := c.keyedHash(context.macKey,
        MacInput(sealed.expectedCount, sealed.expectedHead, sealed.recordCommitment));
      if sealed.mac != expected then Failure(AuditChainBroken) else Success(())
  }

  /** A seal verifies exactly when it is the one the context would make. */
  lemma VerifySealExact(c: Crypto, sealed: AuthenticatedCheckpoint, context: AuthContext)
    ensures VerifySeal(c, sealed, context).Success?
       <==> sealed == SealCheckpoint(c, sealed.expectedCount, sealed.expectedHead, sealed.recordCommitment, context)
  {
    hide MacInput;
  }

  lemma MacInputInjective(n: u64, h: Hash, r: Hash, m: u64, g: Hash, q: Hash)
    requires MacInput(n, h, r) == MacInput(m, g, q)
    ensures n == m && h == g && r == q
  {
    hide MacDomain, U64Be;
    ConcatCancel(MacDomain() + U64Be(n) + h, r, MacDomain() + U64Be(m) + g, q);
    ConcatCancel(MacDomain() + U64Be(n), h, MacDomain() + U64Be(m), g);
    ConcatCancel(MacDomain(), U64Be(n), MacDomain(), U64Be(m));
    U64BeInjective(n, m);
  }

  /** The offset of every field under the MAC. */
  lemma MacInputParts(count: u64, head: Hash, commitment: Hash)
    ensures var m := MacInput(count, head, commitment);
      |m| == 100 && m[..28] == Ascii("EDISONDB-AUDIT-CHECKPOINT-V2") && m[28..36] == BigEndian(count, 8)
      && m[36..68] == head && m[68..] == commitment
  {
    hide BigEndian;
  }

  /** One key and one MAC admit one checkpoint, or the keyed hash collides. */
  lemma MacBinds(c: Crypto, a: AuthenticatedCheckpoint, b: AuthenticatedCheckpoint, context: AuthContext)
    requires VerifySeal(c, a, context).Success? && VerifySeal(c, b, context).Success?
    requires a.mac == b.mac
    ensures a == b
         || Collides(x => c.keyedHash(context.macKey, x),
                     MacInput(a.expectedCount, a.expectedHead, a.recordCommitment),
                     MacInput(b.expectedCount, b.expectedHead, b.recordCommitment))
  {
    hide MacInput;
    VerifySealExact(c, a, context);
    VerifySealExact(c, b, context);
    if MacInput(a.expectedCount, a.expectedHead, a.recordCommitment)
       == MacInput(b.expectedCount, b.expectedHead, b.recordCommitment) {
      MacInputInjective(a.expectedCount, a.expectedHead, a.recordCommitment,
                        b.expectedCount, b.expectedHead, b.recordCommitment);
    }
  }

  // ---- Classification ----------------------------------------------------

  function ValidateCheckpoint(checkpoint: AuditCheckpoint, count: u64, head: Hash): Outcome<()> {
    if checkpoint.expectedCount != count || checkpoint.expectedHead != head then Failure(AuditChainBroken)
    else Success(())
  }

  function ClassifyLegacy(cell: CheckpointCell, seen: Observed): Result<OpenState, FailureReason> {
    match cell
    case Absent =>
      if seen.auditEmpty && seen.recordsEmpty then Success(Genesis) else Failure(Missing)
    case Legacy(checkpoint) =>
      if ValidateCheckpoint(checkpoint, seen.count, seen.head).Failure? then
        if checkpoint.expectedCount != seen.count then Failure(CountMismatch) else Failure(HeadMismatch)
      else if seen.auditEmpty && !seen.recordsEmpty then Failure(UnanchoredRecords)
      else Success(Existing)
    case _ => Failure(BadJson)
  }

  function CheckpointError(reason: FailureReason): EdisonError {
    AuditChainBroken
  }

  /** `freshSalt` is what the random generator yields for a new database. */
  function ClassifyAuthenticated(c: Crypto, cell: CheckpointCell, seen: Observed, secret: Text,
          freshSalt: Hash): Outcome<(OpenState, AuthContext)>
  {
    match cell
    case Absent =>
      if !seen.auditEmpty || !seen.recordsEmpty then Failure(AuditChainBroken)
      else
        var context := MakeContext(c, secret, freshSalt);
        if context.Failure? then Failure(context.error) else Success((Genesis, context.value))
    case Authenticated(sealed) =>
      var context := MakeContext(c, secret, sealed.storeSalt);
      if context.Failure? then Failure(context.error)
      else
        var verdict := VerifySeal(c, sealed, context.value);
        if verdict.Failure? then Failure(verdict.error)
        else
          var anchor := AuditCheckpoint(sealed.expectedCount, sealed.expectedHead);
          if ValidateCheckpoint(anchor, seen.count, seen.head).Failure? then Failure(AuditChainBroken)
          else if sealed.recordCommitment != seen.commitment then Failure(AuditChainBroken)
          else if seen.auditEmpty && !seen.recordsEmpty then Failure(AuditChainBroken)
          else Success((Existing, context.value))
    case _ => Failure(AuditChainBroken)
  }

  /** The cell a store writes: plain without a context, sealed with one. */
  function CellFor(c: Crypto, count: u64, head: Hash, commitment: Hash, context: Option<AuthContext>): CheckpointCell {
    match context
    case None => Legacy(AuditCheckpoint(count, head))
    case Some(auth) => Authenticated(SealCheckpoint(c, count, head, commitment, auth))
  }

  /** The check every open and save makes, in the mode the caller asked for. */
  function Authorise(c: Crypto, cell: CheckpointCell, seen: Observed, secret: Option<Text>,
          freshSalt: Hash): Outcome<(OpenState, Option<AuthContext>)>
  {
    match secret
    case None =>
      var state := ClassifyLegacy(cell, seen);
      if state.Failure? then Failure(CheckpointError(state.error)) else Success((state.value, None))
    case Some(text) =>
      var state := ClassifyAuthenticated(c, cell, seen, text, freshSalt);
      if state.Failure? then Failure(state.error) else Success((state.value.0, Some(state.value.1)))
  }

  /** The salt of an authenticated cell, or none. */
  function Mode(cell: CheckpointCell): Option<Hash> {
    if cell.Authenticated? then Some(cell.sealed.storeSalt) else None
  }

  /** A cell that anchors what was observed, under the context given. */
  predicate Anchors(c: Crypto, cell: CheckpointCell, seen: Observed, context: Option<AuthContext>) {
    cell == CellFor(c, seen.count, seen.head, seen.commitment, context)
  }

  /**
   An empty cell is accepted exactly in front of nothing, and any other cell
   exactly when it is the one this very mode and secret would write for what
   was observed, which is no empty log next to records.
   */
  lemma AuthoriseExact(c: Crypto, cell: CheckpointCell, seen: Observed, secret: Option<Text>, freshSalt: Hash)
    ensures cell == Absent ==>
      (Authorise(c, cell, seen, secret, freshSalt).Success? <==>
      seen.auditEmpty && seen.recordsEmpty && (secret.None? || MakeContext(c, secret.value, freshSalt).Success?))
    ensures cell != Absent ==>
      (Authorise(c, cell, seen, secret, freshSalt).Success? <==>
      !(seen.auditEmpty && !seen.recordsEmpty) && Opens(c, cell, seen, secret))
    ensures Authorise(c, cell, seen, secret, freshSalt).Success? && cell != Absent ==>
      Authorise(c, cell, seen, secret, freshSalt).value.0 == Existing
      && Anchors(c, cell, seen, Authorise(c, cell, seen, secret, freshSalt).value.1)
  {
    hide MacInput;
    if secret.Some? && cell.Authenticated? {
      var made := MakeContext(c, secret.value, cell.sealed.storeSalt);
      if made.Success? {
        VerifySealExact(c, cell.sealed, made.value);
      }
    }
  }

  /** The caller's mode and secret could have written the cell for what was observed. */
  ghost predicate Opens(c: Crypto, cell: CheckpointCell, seen: Observed, secret: Option<Text>) {
    match secret
    case None => Anchors(c, cell, seen, None)
    case Some(text) =>
      exists salt ::
        MakeContext(c, text, salt).Success? && Anchors(c, cell, seen, Some(MakeContext(c, text, salt).value))
  }
}
