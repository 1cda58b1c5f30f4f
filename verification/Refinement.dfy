/** The tables represent the store (crates/core-storage-sqlite/src/lib.rs). */
module Refinement {
  import opened Wrappers
  import opened Domain
  import opened Database
  import opened Store

  function KeyOf(lib: Library, b: Binding, position: int): RowKey {
    RowKey(EncodeIdentity(lib, b.profile, b.control), position)
  }

  /** The row of a profile. */
  function RowOf(s: Store, id: ProfileId): ProfileRow
    requires id in s.names && id in s.created
  {
    ProfileRow(s.names[id], if s.active == Some(id) then 1 else 0, s.created[id])
  }

  /** Each profile of the store has its row, and no other row exists. */
  ghost predicate RepresentsProfiles(lib: Library, profiles: map<string, ProfileRow>, s: Store) {
    && (forall id | id in s.names ::
          && id in s.created && lib.printUuid(id) in profiles
          && profiles[lib.printUuid(id)] == RowOf(s, id))
    && (forall t | t in profiles :: exists id :: id in s.names && lib.printUuid(id) == t)
  }

  /** The rows of a control are its actions, at positions 0 to n-1; a control that
    is not bound has no row, and every row belongs to some control. */
  ghost predicate RepresentsBindings(lib: Library, rows: map<RowKey, RowValue>, bindings: map<Binding, seq<Action>>) {
    && (forall b: Binding, p: int ::
          KeyOf(lib, b, p) in rows <==> b in bindings && 0 <= p < |bindings[b]|)
    && (forall b, p | b in bindings && 0 <= p < |bindings[b]| ::
          KeyOf(lib, b, p) in rows && rows[KeyOf(lib, b, p)] == EncodeAction(bindings[b][p]))
    && (forall k | k in rows :: exists b :: b in bindings && k == KeyOf(lib, b, k.position))
  }

  ghost predicate Represents(lib: Library, db: Database, s: Store) {
    && lib.Lawful() && Invariant(lib, s)
    && RepresentsProfiles(lib, db.profiles, s)
    && RepresentsBindings(lib, db.assignments, s.bindings)
  }

  lemma {:induction false} EmptyRepresents(lib: Library)
    requires lib.Lawful()
    ensures Represents(lib, Database(map[], map[]), Store(map[], map[], None, map[]))
  {
  }

  lemma {:induction false} PrintInjective(lib: Library, a: ProfileId, b: ProfileId)
    requires lib.Lawful() && lib.printUuid(a) == lib.printUuid(b)
    ensures a == b
  {
    assert lib.parseUuid(lib.printUuid(a)) == Some(a);
    assert lib.parseUuid(lib.printUuid(b)) == Some(b);
  }

  /** A profile has a row if and only if it is there. */
  lemma {:induction false} RowIff(lib: Library, profiles: map<string, ProfileRow>, s: Store)
    requires lib.Lawful() && RepresentsProfiles(lib, profiles, s)
    ensures forall id: ProfileId :: lib.printUuid(id) in profiles <==> id in s.names
  {
    forall id: ProfileId | lib.printUuid(id) in profiles
      ensures id in s.names
    {
      var other :| other in s.names && lib.printUuid(other) == lib.printUuid(id);
      PrintInjective(lib, id, other);
    }
  }

  /** The active row is that of the active profile. */
  lemma {:induction false} ActiveRowIff(lib: Library, profiles: map<string, ProfileRow>, s: Store, t: string)
    requires RepresentsProfiles(lib, profiles, s) && t in profiles
    ensures profiles[t].isActive in {0, 1}
    ensures profiles[t].isActive == 1 <==>
      s.active.Some? && s.active.value in s.names && t == lib.printUuid(s.active.value)
  {
    var id :| id in s.names && lib.printUuid(id) == t;
    assert profiles[t] == RowOf(s, id);
    if s.active.Some? && s.active.value in s.names && t == lib.printUuid(s.active.value) {
      assert profiles[t] == RowOf(s, s.active.value);
    }
  }

  lemma {:induction false} ProfilesMeetConstraints(lib: Library, profiles: map<string, ProfileRow>, s: Store)
    requires RepresentsProfiles(lib, profiles, s) && (s.active.Some? ==> s.active.value in s.names)
    ensures Constraints(Database(profiles, map[]))
    ensures HasActive(Database(profiles, map[])) <==> s.active.Some?
  {
    forall t | t in profiles
      ensures profiles[t].isActive in {0, 1}
      ensures profiles[t].isActive == 1 <==> s.active.Some? && t == lib.printUuid(s.active.value)
    {
      ActiveRowIff(lib, profiles, s, t);
    }
    if s.active.Some? {
      assert lib.printUuid(s.active.value) in profiles;
    }
  }

  /** Tables that represent a store meet every constraint of the schema. */
  lemma {:induction false} RepresentsMeetsConstraints(lib: Library, db: Database, s: Store)
    requires Represents(lib, db, s)
    ensures Constraints(db)
    ensures HasActive(db) <==> s.active.Some?
    ensures forall id: ProfileId :: lib.printUuid(id) in db.profiles <==> id in s.names
  {
    RowIff(lib, db.profiles, s);
    ProfilesMeetConstraints(lib, db.profiles, s);
    forall k | k in db.assignments
      ensures k.identity.profile in db.profiles
    {
      RowsHaveProfiles(lib, db, s, k);
    }
  }

  lemma {:induction false} RowsHaveProfiles(lib: Library, db: Database, s: Store, k: RowKey)
    requires Represents(lib, db, s) && k in db.assignments
    ensures k.identity.profile in db.profiles
  {
    var b :| b in s.bindings && k == KeyOf(lib, b, k.position);
    assert b.profile in s.names;
  }

  ghost predicate OnlyActiveRow(profiles: map<string, ProfileRow>, t: string) {
    && t in profiles && profiles[t].isActive == 1
    && forall u | u in profiles && u != t :: profiles[u].isActive == 0
  }

  lemma {:induction false} OneActiveRow(db: Database, t: string)
    requires Constraints(db) && t in db.profiles && db.profiles[t].isActive == 1
    ensures OnlyActiveRow(db.profiles, t)
  {
    forall u | u in db.profiles && u != t
      ensures db.profiles[u].isActive == 0
    {
      assert db.profiles[u].isActive in {0, 1};
    }
  }

  lemma {:induction false} ProfileRowsStay(lib: Library, profiles: map<string, ProfileRow>, s: Store, later: Store,
                                           profiles': map<string, ProfileRow>)
    requires RepresentsProfiles(lib, profiles, s) && RepresentsProfiles(lib, profiles', later)
    requires s.names.Keys <= later.names.Keys
    ensures profiles.Keys <= profiles'.Keys
  {
    forall t | t in profiles
      ensures t in profiles'
    {
      var id :| id in s.names && lib.printUuid(id) == t;
      assert id in later.names;
    }
  }

  /** Once a profile is active: whatever lock sections of whatever connections follow,
    the tables meet the schema, exactly one row is active, and no profile is gone. */
  lemma {:induction false} TablesStaySound(lib: Library, db: Database, s: Store, later: Store, db': Database)
    requires Represents(lib, db, s) && s.active.Some?
    requires Evolves(lib, s, later) && Represents(lib, db', later)
    ensures later.active.Some?
    ensures Constraints(db') && OnlyActiveRow(db'.profiles, lib.printUuid(later.active.value))
    ensures db.profiles.Keys <= db'.profiles.Keys
  {
    EvolutionKeeps(lib, s, later);
    RepresentsMeetsConstraints(lib, db', later);
    OneActiveRow(db', lib.printUuid(later.active.value));
    ProfileRowsStay(lib, db.profiles, s, later, db'.profiles);
  }

  /** The tables represent at most one store. */
  lemma {:induction false} RepresentsOne(lib: Library, db: Database, s: Store, t: Store)
    requires Represents(lib, db, s) && Represents(lib, db, t)
    ensures s == t
  {
    SameProfiles(lib, db.profiles, s, t);
    SameBindings(lib, db.assignments, s.bindings, t.bindings);
  }

  lemma {:induction false} SameBindings(lib: Library, rows: map<RowKey, RowValue>, s: map<Binding, seq<Action>>,
                                        t: map<Binding, seq<Action>>)
    requires RepresentsBindings(lib, rows, s) && RepresentsBindings(lib, rows, t)
    requires forall b | b in s :: s[b] != []
    requires forall b | b in t :: t[b] != []
    ensures s == t
  {
    forall b: Binding
      ensures b in s <==> b in t
      ensures b in s ==> s[b] == t[b]
    {
      assert KeyOf(lib, b, 0) in rows <==> b in s;
      assert KeyOf(lib, b, 0) in rows <==> b in t;
      if b in s {
        SameActions(lib, rows, b, s, t);
      }
    }
  }

  /** And a store is represented by one set of tables only. */
  lemma {:induction false} TablesOne(lib: Library, db: Database, other: Database, s: Store)
    requires Represents(lib, db, s) && Represents(lib, other, s)
    ensures db == other
  {
    ProfilesOne(lib, db.profiles, other.profiles, s);
    RowsAreOne(lib, db.assignments, other.assignments, s.bindings);
  }

  lemma {:induction false} ProfilesOne(lib: Library, profiles: map<string, ProfileRow>, others: map<string, ProfileRow>,
                                       s: Store)
    requires RepresentsProfiles(lib, profiles, s) && RepresentsProfiles(lib, others, s)
    ensures profiles == others
  {
    ProfileRowsOne(lib, profiles, others, s);
    ProfileRowsOne(lib, others, profiles, s);
  }

  lemma {:induction false} RowsAreOne(lib: Library, rows: map<RowKey, RowValue>, others: map<RowKey, RowValue>,
                                      bindings: map<Binding, seq<Action>>)
    requires RepresentsBindings(lib, rows, bindings) && RepresentsBindings(lib, others, bindings)
    ensures rows == others
  {
    RowsOne(lib, rows, others, bindings);
    RowsOne(lib, others, rows, bindings);
  }

  lemma {:induction false} ProfileRowsOne(lib: Library, profiles: map<string, ProfileRow>,
                                          others: map<string, ProfileRow>, s: Store)
    requires RepresentsProfiles(lib, profiles, s) && RepresentsProfiles(lib, others, s)
    ensures forall t | t in profiles :: t in others && others[t] == profiles[t]
  {
    forall t | t in profiles
      ensures t in others && others[t] == profiles[t]
    {
      var id :| id in s.names && lib.printUuid(id) == t;
    }
  }

  lemma {:induction false} RowsOne(lib: Library, rows: map<RowKey, RowValue>, others: map<RowKey, RowValue>,
                                   bindings: map<Binding, seq<Action>>)
    requires RepresentsBindings(lib, rows, bindings) && RepresentsBindings(lib, others, bindings)
    ensures forall k | k in rows :: k in others && others[k] == rows[k]
  {
    forall k | k in rows
      ensures k in others && others[k] == rows[k]
    {
      var b :| b in bindings && k == KeyOf(lib, b, k.position);
    }
  }

  lemma {:induction false} SameProfiles(lib: Library, profiles: map<string, ProfileRow>, s: Store, t: Store)
    requires lib.Lawful() && RepresentsProfiles(lib, profiles, s) && RepresentsProfiles(lib, profiles, t)
    requires s.created.Keys == s.names.Keys && t.created.Keys == t.names.Keys
    requires s.active.Some? ==> s.active.value in s.names
    requires t.active.Some? ==> t.active.value in t.names
    ensures s.names == t.names && s.created == t.created && s.active == t.active
  {
    forall id: ProfileId
      ensures id in s.names <==> id in t.names
      ensures id in s.names ==> id in s.created && id in t.created && RowOf(s, id) == RowOf(t, id)
    {
      SameRow(lib, profiles, s, t, id);
    }
    SameRows(s, t);
  }

  lemma {:induction false} SameRow(lib: Library, profiles: map<string, ProfileRow>, s: Store, t: Store, id: ProfileId)
    requires lib.Lawful() && RepresentsProfiles(lib, profiles, s) && RepresentsProfiles(lib, profiles, t)
    ensures id in s.names <==> id in t.names
    ensures id in s.names ==> id in s.created && id in t.created && RowOf(s, id) == RowOf(t, id)
  {
    RowIff(lib, profiles, s);
    RowIff(lib, profiles, t);
    assert id in s.names <==> lib.printUuid(id) in profiles;
  }

  lemma {:induction false} SameRows(s: Store, t: Store)
    requires s.created.Keys == s.names.Keys && t.created.Keys == t.names.Keys
    requires s.active.Some? ==> s.active.value in s.names
    requires t.active.Some? ==> t.active.value in t.names
    requires forall id: ProfileId :: id in s.names <==> id in t.names
    requires forall id | id in s.names :: RowOf(s, id) == RowOf(t, id)
    ensures s.names == t.names && s.created == t.created && s.active == t.active
  {
    assert s.names.Keys == t.names.Keys;
    assert forall id | id in s.names :: RowOf(s, id).name == RowOf(t, id).name;
    assert forall id | id in s.names :: RowOf(s, id).createdAt == RowOf(t, id).createdAt;
    assert s.active.Some? ==> RowOf(s, s.active.value).isActive == RowOf(t, s.active.value).isActive;
    assert t.active.Some? ==> RowOf(s, t.active.value).isActive == RowOf(t, t.active.value).isActive;
  }

  lemma {:induction false} SameActions(lib: Library, rows: map<RowKey, RowValue>, b: Binding,
                                       s: map<Binding, seq<Action>>, t: map<Binding, seq<Action>>)
    requires RepresentsBindings(lib, rows, s) && RepresentsBindings(lib, rows, t) && b in s && b in t
    ensures s[b] == t[b]
  {
    assert forall p :: KeyOf(lib, b, p) in rows <==> 0 <= p < |s[b]|;
    assert KeyOf(lib, b, |t[b]|) !in rows && KeyOf(lib, b, |s[b]|) !in rows;
    forall p | 0 <= p < |s[b]|
      ensures s[b][p] == t[b][p]
    {
      assert rows[KeyOf(lib, b, p)] == EncodeAction(s[b][p]) == EncodeAction(t[b][p]);
    }
  }

  // ------------------------------------------------------------------------
  // Each write of the repository is an operation of the store
  // ------------------------------------------------------------------------

  /** No other profile shares the row. */
  lemma {:induction false} RowIsItsOwn(lib: Library, id: ProfileId)
    requires lib.Lawful()
    ensures forall other: ProfileId :: lib.printUuid(other) == lib.printUuid(id) ==> other == id
  {
    forall other: ProfileId | lib.printUuid(other) == lib.printUuid(id)
      ensures other == id
    {
      PrintInjective(lib, other, id);
    }
  }

  lemma {:induction false} InsertRepresents(lib: Library, db: Database, s: Store, id: ProfileId, name: string,
                                            time: int, isActive: bool)
    requires Represents(lib, db, s) && id !in s.names && !lib.IsBlank(name)
    requires isActive ==> s.active.None?
    ensures var inserted := InsertProfile(db, lib.printUuid(id), ProfileRow(name, if isActive then 1 else 0, time));
      && inserted.Success?
      && Represents(lib, inserted.value,
                    Apply(lib, s, if isActive then AddDefault(id, name, time) else AddProfile(id, name, time)))
  {
    InsertSucceeds(lib, db, s, id, name, time, isActive);
    OperationKeeps(lib, s, if isActive then AddDefault(id, name, time) else AddProfile(id, name, time));
    ProfileAdded(lib, db.profiles, s, id, name, time, isActive);
  }

  lemma {:induction false} ProfileAdded(lib: Library, profiles: map<string, ProfileRow>, s: Store, id: ProfileId,
                                        name: string, time: int, isActive: bool)
    requires lib.Lawful() && RepresentsProfiles(lib, profiles, s) && id !in s.names && (isActive ==> s.active.None?)
    requires s.active != Some(id)
    ensures RepresentsProfiles(lib, profiles[lib.printUuid(id) := ProfileRow(name, if isActive then 1 else 0, time)],
              s.(names := s.names[id := name], created := s.created[id := time],
                 active := if isActive then Some(id) else s.active))
  {
    var active := if isActive then Some(id) else s.active;
    var s' := s.(names := s.names[id := name], created := s.created[id := time], active := active);
    ProfileWritten(lib, profiles, s, s', id);
  }

  lemma {:induction false} InsertSucceeds(lib: Library, db: Database, s: Store, id: ProfileId, name: string, time: int,
                                          isActive: bool)
    requires Represents(lib, db, s) && id !in s.names
    requires isActive ==> s.active.None?
    ensures var row := ProfileRow(name, if isActive then 1 else 0, time);
      InsertProfile(db, lib.printUuid(id), row) == Success(db.(profiles := db.profiles[lib.printUuid(id) := row]))
  {
    RepresentsMeetsConstraints(lib, db, s);
  }

  /** Writing the row of one profile represents a store that differs in it only. */
  lemma {:induction false} ProfileWritten(lib: Library, profiles: map<string, ProfileRow>, s: Store, s': Store,
                                          id: ProfileId)
    requires lib.Lawful() && RepresentsProfiles(lib, profiles, s)
    requires id in s'.names && id in s'.created && forall other | other != id :: other in s'.names <==> other in s.names
    requires forall other | other in s.names && other != id ::
               s'.names[other] == s.names[other] && other in s.created && other in s'.created
                 && s'.created[other] == s.created[other]
               && (s'.active == Some(other) <==> s.active == Some(other))
    ensures RepresentsProfiles(lib,
              profiles[lib.printUuid(id) := RowOf(s', id)], s')
  {
    RowIsItsOwn(lib, id);
    var text := lib.printUuid(id);
    var written := profiles[text := RowOf(s', id)];
    forall t | t in written
      ensures exists other :: other in s'.names && lib.printUuid(other) == t
    {
      if t != text {
        var other :| other in s.names && lib.printUuid(other) == t;
        assert other in s'.names;
      }
    }
  }

  lemma {:induction false} RenameRepresents(lib: Library, db: Database, s: Store, id: ProfileId, name: string)
    requires Represents(lib, db, s) && id in s.names && !lib.IsBlank(name)
    ensures UpdateName(db, lib.printUuid(id), name).1 == 1
    ensures Represents(lib, UpdateName(db, lib.printUuid(id), name).0, Apply(lib, s, WriteName(id, name)))
  {
    OperationKeeps(lib, s, WriteName(id, name));
    NameWritten(lib, db.profiles, s, id, name);
  }

  lemma {:induction false} NameWritten(lib: Library, profiles: map<string, ProfileRow>, s: Store, id: ProfileId,
                                       name: string)
    requires lib.Lawful() && RepresentsProfiles(lib, profiles, s) && id in s.names
    ensures lib.printUuid(id) in profiles
    ensures RepresentsProfiles(lib, profiles[lib.printUuid(id) := profiles[lib.printUuid(id)].(name := name)],
                               s.(names := s.names[id := name]))
  {
    ProfileWritten(lib, profiles, s, s.(names := s.names[id := name]), id);
  }

  /** Clearing the active flag represents the store without an active profile. */
  lemma {:induction false} DeactivateRepresents(lib: Library, db: Database, s: Store)
    requires Represents(lib, db, s)
    ensures Deactivate(db).1 == 0 <==> s.active.None?
    ensures Represents(lib, Deactivate(db).0, s.(active := None))
  {
    ActiveCleared(lib, db, s);
    ClearedCount(lib, db, s);
  }

  lemma {:induction false} ClearedCount(lib: Library, db: Database, s: Store)
    requires RepresentsProfiles(lib, db.profiles, s) && (s.active.Some? ==> s.active.value in s.names)
    ensures Deactivate(db).1 == 0 <==> s.active.None?
  {
    var active := set t | t in db.profiles && db.profiles[t].isActive == 1;
    forall t | t in db.profiles
      ensures t in active <==> s.active.Some? && t == lib.printUuid(s.active.value)
    {
      ActiveRowIff(lib, db.profiles, s, t);
    }
    if s.active.Some? {
      assert lib.printUuid(s.active.value) in active;
    } else {
      assert active == {};
    }
  }

  lemma {:induction false} ActiveCleared(lib: Library, db: Database, s: Store)
    requires RepresentsProfiles(lib, db.profiles, s)
    ensures RepresentsProfiles(lib, Deactivate(db).0.profiles, s.(active := None))
  {
    var cleared := Deactivate(db).0.profiles;
    forall id | id in s.names
      ensures lib.printUuid(id) in cleared && cleared[lib.printUuid(id)] == RowOf(s.(active := None), id)
    {
      assert db.profiles[lib.printUuid(id)] == RowOf(s, id);
    }
  }

  /** Setting it again, after it was cleared, completes an activation. */
  lemma {:induction false} ActivateRepresents(lib: Library, db: Database, s: Store, id: ProfileId)
    requires Represents(lib, db, s.(active := None)) && Enabled(lib, s, Activate(id))
    ensures var activated := ActivateRow(db, lib.printUuid(id));
      && activated.Success? && activated.value.1 == 1
      && Represents(lib, activated.value.0, Apply(lib, s, Activate(id)))
  {
    ActivateSucceeds(lib, db, s, id);
    ActiveSet(lib, db.profiles, s, id);
  }

  lemma {:induction false} ActivateSucceeds(lib: Library, db: Database, s: Store, id: ProfileId)
    requires Represents(lib, db, s.(active := None)) && id in s.names
    ensures var text := lib.printUuid(id);
      && text in db.profiles
      && ActivateRow(db, text) == Success((db.(profiles := db.profiles[text := db.profiles[text].(isActive := 1)]), 1))
  {
    RepresentsMeetsConstraints(lib, db, s.(active := None));
  }

  lemma {:induction false} ActiveSet(lib: Library, profiles: map<string, ProfileRow>, s: Store, id: ProfileId)
    requires lib.Lawful() && RepresentsProfiles(lib, profiles, s.(active := None)) && id in s.names
    ensures lib.printUuid(id) in profiles
    ensures RepresentsProfiles(lib, profiles[lib.printUuid(id) := profiles[lib.printUuid(id)].(isActive := 1)],
                               s.(active := Some(id)))
  {
    ProfileWritten(lib, profiles, s.(active := None), s.(active := Some(id)), id);
  }

  /** Both statements of an activation. */
  lemma {:induction false} SwitchRepresents(lib: Library, db: Database, s: Store, id: ProfileId)
    requires Represents(lib, db, s) && id in s.names
    ensures Deactivate(db).1 == 0 <==> s.active.None?
    ensures s.active.Some? ==>
      var activated := ActivateRow(Deactivate(db).0, lib.printUuid(id));
      && activated.Success? && activated.value.1 == 1
      && Represents(lib, activated.value.0, Apply(lib, s, Activate(id)))
  {
    DeactivateRepresents(lib, db, s);
    if s.active.Some? {
      ActivateRepresents(lib, Deactivate(db).0, s, id);
    }
  }

  /** The rows after the insert loop of a save has inserted `k` actions. */
  function SavedRows(lib: Library, rows: map<RowKey, RowValue>, b: Binding, actions: seq<Action>,
                     k: nat): map<RowKey, RowValue>
    requires k <= |actions|
  {
    if k == 0 then map key | key in rows && key.identity != EncodeIdentity(lib, b.profile, b.control) :: rows[key]
    else SavedRows(lib, rows, b, actions, k - 1)[KeyOf(lib, b, k - 1) := EncodeAction(actions[k - 1])]
  }

  lemma {:induction false} SavedRowsAre(lib: Library, rows: map<RowKey, RowValue>, b: Binding, actions: seq<Action>,
                                        k: nat)
    requires k <= |actions|
    ensures var saved, identity := SavedRows(lib, rows, b, actions, k), EncodeIdentity(lib, b.profile, b.control);
      && (forall key :: key in saved <==>
            if key.identity == identity then 0 <= key.position < k else key in rows)
      && (forall key | key in saved && key.identity != identity :: saved[key] == rows[key])
      && (forall p | 0 <= p < k :: KeyOf(lib, b, p) in saved && saved[KeyOf(lib, b, p)] == EncodeAction(actions[p]))
  {
    if k > 0 {
      SavedRowsAre(lib, rows, b, actions, k - 1);
    }
  }

  /** Deleting the rows of a control and inserting its actions is binding it. */
  lemma {:induction false} SaveRepresents(lib: Library, rows: map<RowKey, RowValue>,
                                          bindings: map<Binding, seq<Action>>, b: Binding, actions: seq<Action>)
    requires lib.Lawful() && RepresentsBindings(lib, rows, bindings)
    ensures RepresentsBindings(lib, SavedRows(lib, rows, b, actions, |actions|), Bind(bindings, b, actions))
  {
    SavedRowsAre(lib, rows, b, actions, |actions|);
    var saved, bound := SavedRows(lib, rows, b, actions, |actions|), Bind(bindings, b, actions);
    forall c: Binding, p: int
      ensures KeyOf(lib, c, p) in saved <==> c in bound && 0 <= p < |bound[c]|
      ensures c in bound && 0 <= p < |bound[c]| ==> saved[KeyOf(lib, c, p)] == EncodeAction(bound[c][p])
    {
      SavedRow(lib, rows, bindings, b, actions, c, p);
    }
    forall k | k in saved
      ensures exists c :: c in bound && k == KeyOf(lib, c, k.position)
    {
      if k.identity == KeyOf(lib, b, 0).identity {
        assert b in bound && k == KeyOf(lib, b, k.position);
      } else {
        var c :| c in bindings && k == KeyOf(lib, c, k.position);
        assert c in bound;
      }
    }
  }

  /** Saving no actions leaves the rows that clearing leaves: all but those of the control. */
  lemma {:induction false} EmptySaveIsClear(lib: Library, db: Database, b: Binding)
    ensures var cleared := DeleteIdentity(db, EncodeIdentity(lib, b.profile, b.control));
      && db.(assignments := SavedRows(lib, db.assignments, b, [], 0)) == cleared
      && (forall p :: KeyOf(lib, b, p) !in cleared.assignments)
      && (forall key | key in db.assignments && key.identity != EncodeIdentity(lib, b.profile, b.control) ::
            key in cleared.assignments && cleared.assignments[key] == db.assignments[key])
  {
  }

  lemma {:induction false} SavedRepresents(lib: Library, db: Database, s: Store, b: Binding, actions: seq<Action>)
    requires Represents(lib, db, s) && Enabled(lib, s, Save(b, actions))
    ensures Represents(lib, db.(assignments := SavedRows(lib, db.assignments, b, actions, |actions|)),
                       Apply(lib, s, Save(b, actions)))
  {
    SaveRepresents(lib, db.assignments, s.bindings, b, actions);
    OperationKeeps(lib, s, Save(b, actions));
    ProfilesUntouched(lib, db.profiles, s, Bind(s.bindings, b, actions));
  }

  lemma {:induction false} ProfilesUntouched(lib: Library, profiles: map<string, ProfileRow>, s: Store,
                                             bindings: map<Binding, seq<Action>>)
    requires RepresentsProfiles(lib, profiles, s)
    ensures RepresentsProfiles(lib, profiles, s.(bindings := bindings))
  {
  }

  lemma {:induction false} SavedRow(lib: Library, rows: map<RowKey, RowValue>, bindings: map<Binding, seq<Action>>,
                                    b: Binding, actions: seq<Action>, c: Binding, p: int)
    requires lib.Lawful() && RepresentsBindings(lib, rows, bindings)
    ensures var saved, bound := SavedRows(lib, rows, b, actions, |actions|), Bind(bindings, b, actions);
      && (KeyOf(lib, c, p) in saved <==> c in bound && 0 <= p < |bound[c]|)
      && (c in bound && 0 <= p < |bound[c]| ==> saved[KeyOf(lib, c, p)] == EncodeAction(bound[c][p]))
  {
    SavedRowsAre(lib, rows, b, actions, |actions|);
    var key := KeyOf(lib, c, p);
    if c == b {
      assert key.identity == EncodeIdentity(lib, b.profile, b.control);
    } else {
      if key.identity == EncodeIdentity(lib, b.profile, b.control) {
        IdentityInjective(lib, c.profile, c.control, b.profile, b.control);
      }
      assert key in rows <==> c in bindings && 0 <= p < |bindings[c]|;
    }
  }
}
