/** The tables, their constraints and the statements the repository executes
  (crates/core-storage-sqlite/src/lib.rs). */
module Database {
  import opened Wrappers
  import opened Domain

  datatype ProfileRow = ProfileRow(name: string, isActive: int, createdAt: int)

  /** The columns of an assignment row that name a control of a profile. */
  datatype Identity = Identity(profile: string, page: int, kind: string, index: int, operation: string)

  /** The primary key of an assignment row. */
  datatype RowKey = RowKey(identity: Identity, position: int)

  datatype RowValue = RowValue(kind: string, url: Option<string>)

  /** Keying the maps by primary key makes the primary keys unique. */
  datatype Database = Database(profiles: map<string, ProfileRow>, assignments: map<RowKey, RowValue>)

  /** CHECK (is_active IN (0, 1)), the partial unique index on the active profile,
    and the foreign key of assignments. */
  ghost predicate Constraints(db: Database) {
    && (forall t | t in db.profiles :: db.profiles[t].isActive in {0, 1})
    && (forall t, u | t in db.profiles && u in db.profiles && db.profiles[t].isActive == 1 == db.profiles[u].isActive ::
         t == u)
    && (forall k | k in db.assignments :: k.identity.profile in db.profiles)
  }

  datatype SqlError = InvalidQuery | Conversion(error: DomainError) | ConstraintViolation | Interrupted

  predicate HasActive(db: Database) {
    exists t | t in db.profiles :: db.profiles[t].isActive == 1
  }

  /** INSERT INTO profiles */
  function InsertProfile(db: Database, id: string, row: ProfileRow): Result<Database, SqlError> {
    if id in db.profiles || row.isActive !in {0, 1} || (row.isActive == 1 && HasActive(db)) then
      Failure(ConstraintViolation)
    else Success(db.(profiles := db.profiles[id := row]))
  }

  /** UPDATE profiles SET name = ?1 WHERE id = ?2 */
  function UpdateName(db: Database, id: string, name: string): (Database, nat) {
    if id in db.profiles then (db.(profiles := db.profiles[id := db.profiles[id].(name := name)]), 1) else (db, 0)
  }

  /** UPDATE profiles SET is_active = 0 WHERE is_active = 1 */
  function Deactivate(db: Database): (Database, nat) {
    var active := set t | t in db.profiles && db.profiles[t].isActive == 1;
    var profiles := map t | t in db.profiles ::
      if t in active then db.profiles[t].(isActive := 0) else db.profiles[t];
    (db.(profiles := profiles), |active|)
  }

  /** UPDATE profiles SET is_active = 1 WHERE id = ?1 */
  function ActivateRow(db: Database, id: string): Result<(Database, nat), SqlError> {
    if id !in db.profiles then Success((db, 0))
    else if exists t | t in db.profiles :: t != id && db.profiles[t].isActive == 1 then Failure(ConstraintViolation)
    else Success((db.(profiles := db.profiles[id := db.profiles[id].(isActive := 1)]), 1))
  }

  /** DELETE FROM assignments WHERE the identity columns match */
  function DeleteIdentity(db: Database, identity: Identity): Database {
    db.(assignments := map k | k in db.assignments && k.identity != identity :: db.assignments[k])
  }

  /** INSERT INTO assignments */
  function InsertAssignment(db: Database, key: RowKey, value: RowValue): Result<Database, SqlError> {
    if key in db.assignments || key.identity.profile !in db.profiles then Failure(ConstraintViolation)
    else Success(db.(assignments := db.assignments[key := value]))
  }

  /** Each statement keeps the constraints of the schema. */
  lemma {:induction false} StatementsKeepConstraints(db: Database, id: string, row: ProfileRow, name: string,
                                                     identity: Identity, key: RowKey, value: RowValue)
    requires Constraints(db)
    ensures InsertProfile(db, id, row).Success? ==> Constraints(InsertProfile(db, id, row).value)
    ensures Constraints(UpdateName(db, id, name).0)
    ensures Constraints(Deactivate(db).0) && !HasActive(Deactivate(db).0)
    ensures ActivateRow(db, id).Success? ==> Constraints(ActivateRow(db, id).value.0)
    ensures Constraints(DeleteIdentity(db, identity))
    ensures InsertAssignment(db, key, value).Success? ==> Constraints(InsertAssignment(db, key, value).value)
  {
  }

  // ------------------------------------------------------------------------
  // Codecs
  // ------------------------------------------------------------------------

  function EncodeOperation(operation: EncoderOperation): string {
    match operation
    case Left => "left"
    case Right => "right"
    case Press => "press"
  }

  function DecodeOperation(text: string): Result<EncoderOperation, SqlError> {
    if text == "left" then Success(Left)
    else if text == "right" then Success(Right)
    else if text == "press" then Success(Press)
    else Failure(InvalidQuery)
  }

  function EncodeIdentity(lib: Library, profile: ProfileId, control: ControlId): Identity {
    match control
    case Key(page, key) => Identity(lib.printUuid(profile), page, "key", key, "press")
    case Encoder(page, encoder, operation) =>
      Identity(lib.printUuid(profile), page, "encoder", encoder, EncodeOperation(operation))
  }

  function FromDomain<T>(r: Result<T, DomainError>): Result<T, SqlError> {
    match r
    case Success(value) => Success(value)
    case Failure(error) => Failure(Conversion(error))
  }

  function DecodeControl(page: int, kind: string, index: int, operation: string): Result<ControlId, SqlError> {
    if !(0 <= page < 0x100) || !(0 <= index < 0x100) then Failure(InvalidQuery)
    else if kind == "key" then
      if operation == "press" then FromDomain(MakeKey(page, index)) else Failure(InvalidQuery)
    else if kind == "encoder" then
      var decoded :- DecodeOperation(operation);
      FromDomain(MakeEncoder(page, index, decoded))
    else Failure(InvalidQuery)
  }

  function EncodeAction(action: Action): RowValue {
    RowValue("open_url", Some(action.url.text))
  }

  function DecodeAction(lib: Library, value: RowValue): Result<Action, SqlError> {
    if value.kind != "open_url" || value.url.None? then Failure(InvalidQuery)
    else
      var url :- FromDomain(lib.ParseUrl(value.url.value));
      Success(OpenUrl(url))
  }

  /** Whatever decodes to a control is exactly what that control encodes to. */
  lemma {:induction false} ControlCodecIff(lib: Library, profile: ProfileId, identity: Identity, control: ControlId)
    requires identity.profile == lib.printUuid(profile)
    ensures DecodeControl(identity.page, identity.kind, identity.index, identity.operation) == Success(control)
      <==> identity == EncodeIdentity(lib, profile, control)
  {
  }

  /** Different controls of different profiles have different rows. */
  lemma {:induction false} IdentityInjective(lib: Library, p: ProfileId, c: ControlId, q: ProfileId, d: ControlId)
    requires lib.Lawful()
    requires EncodeIdentity(lib, p, c) == EncodeIdentity(lib, q, d)
    ensures p == q && c == d
  {
    assert lib.parseUuid(lib.printUuid(p)) == Some(p);
    ControlCodecIff(lib, p, EncodeIdentity(lib, p, c), c);
    ControlCodecIff(lib, p, EncodeIdentity(lib, p, c), d);
  }

  /** An action comes back from its row if and only if its URL passes the check. */
  lemma {:induction false} ActionCodecIff(lib: Library, action: Action)
    ensures DecodeAction(lib, EncodeAction(action)) == Success(action) <==> lib.IsSafe(action)
  {
  }
}
