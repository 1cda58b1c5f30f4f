/** What is in the tables, column by column (crates/core-storage-sqlite/src/lib.rs). */
module Columns {
  import opened Wrappers
  import opened Domain
  import opened Database
  import opened Store
  import opened Refinement

  /** The row of each profile, and no other row. */
  lemma {:induction false} ProfileColumns(lib: Library, db: Database, s: Store, p: ProfileId)
    requires Represents(lib, db, s)
    ensures lib.printUuid(p) in db.profiles <==> p in s.names
    ensures p in s.names ==>
      && p in s.created
      && db.profiles[lib.printUuid(p)] == ProfileRow(s.names[p], if s.active == Some(p) then 1 else 0, s.created[p])
    ensures forall t | t in db.profiles :: exists q :: q in s.names && lib.printUuid(q) == t
  {
    RowIff(lib, db.profiles, s);
  }

  /** The rows of a key. */
  lemma {:induction false} KeyColumns(lib: Library, db: Database, s: Store, p: ProfileId, page: u8, key: u8,
                                      position: int)
    requires Represents(lib, db, s) && page < 4 && key < 12
    ensures var b, row := Binding(p, Key(page, key)),
        RowKey(Identity(lib.printUuid(p), page, "key", key, "press"), position);
      && (row in db.assignments <==> b in s.bindings && 0 <= position < |s.bindings[b]|)
      && (row in db.assignments ==>
            db.assignments[row] == RowValue("open_url", Some(s.bindings[b][position].url.text)))
  {
    var b := Binding(p, Key(page, key));
    assert KeyOf(lib, b, position) == RowKey(Identity(lib.printUuid(p), page, "key", key, "press"), position);
  }

  /** The rows of an encoder operation. */
  lemma {:induction false} EncoderColumns(lib: Library, db: Database, s: Store, p: ProfileId, page: u8, encoder: u8,
                                          operation: EncoderOperation, position: int)
    requires Represents(lib, db, s) && page < 4 && encoder < 2
    ensures var b, row := Binding(p, Encoder(page, encoder, operation)),
        RowKey(Identity(lib.printUuid(p), page, "encoder", encoder,
                        if operation.Left? then "left" else if operation.Right? then "right" else "press"), position);
      && (row in db.assignments <==> b in s.bindings && 0 <= position < |s.bindings[b]|)
      && (row in db.assignments ==>
            db.assignments[row] == RowValue("open_url", Some(s.bindings[b][position].url.text)))
  {
    var b := Binding(p, Encoder(page, encoder, operation));
    var text := if operation.Left? then "left" else if operation.Right? then "right" else "press";
    assert KeyOf(lib, b, position) == RowKey(Identity(lib.printUuid(p), page, "encoder", encoder, text), position);
  }

  /** And no other rows. */
  lemma {:induction false} OnlyControls(lib: Library, db: Database, s: Store, row: RowKey)
    requires Represents(lib, db, s) && row in db.assignments
    ensures exists p :: p in s.names && row.identity.profile == lib.printUuid(p)
    ensures 0 <= row.identity.page < 4
    ensures || (row.identity.kind == "key" && 0 <= row.identity.index < 12 && row.identity.operation == "press")
            || (row.identity.kind == "encoder" && 0 <= row.identity.index < 2
                && row.identity.operation in {"left", "right", "press"})
  {
    var b :| b in s.bindings && row == KeyOf(lib, b, row.position);
    assert b.profile in s.names;
  }
}
