/** The profile repository over its tables (crates/core-storage-sqlite/src/lib.rs). */
module Repository {
  import opened Wrappers
  import opened Domain
  import opened App
  import opened Database
  import opened Store
  import opened Refinement
  import opened Grouping
  import opened Queries

  /** Which statements of a call, counted from 0, the engine fails to execute. */
  type Faults = nat -> bool

  ghost predicate NoFault(fails: Faults) {
    forall n :: !fails(n)
  }

  /** The faults of the statements after the first `k`. */
  function Beyond(fails: Faults, k: nat): Faults {
    (n: nat) => fails(n + k)
  }

  /** The outcome of a statement; every failure becomes a storage error. */
  function Attempt<T>(fails: bool, outcome: Result<T, SqlError>): Result<T, AppError> {
    if fails || outcome.Failure? then Failure(Storage) else Success(outcome.value)
  }

  /** A write that succeeded is one operation that took effect; one that failed changed
    nothing, and says why. */
  ghost predicate Committed(lib: Library, op: Operation, before: Store, after: Store, r: Result<(), AppError>) {
    if r.Success? then Enabled(lib, before, op) && after == Apply(lib, before, op)
    else
      && after == before
      && (r.error == Storage
          || (r.error == ProfileNotFound && ProfileOf(op) !in before.names)
          || (r.error == ActiveProfileMissing && op.Activate? && before.active.None?))
  }

  /** Replaces the rows of a control by rows for `actions`, at positions from 0. */
  method ReplaceRows(lib: Library, db: Database, b: Binding, actions: seq<Action>, fails: Faults)
    returns (r: Result<Database, AppError>)
    requires lib.printUuid(b.profile) in db.profiles
    ensures r.Success? ==> r.value == db.(assignments := SavedRows(lib, db.assignments, b, actions, |actions|))
    ensures r.Failure? ==> r.error == Storage
    ensures NoFault(fails) ==> r.Success?
  {
    var transaction :- Attempt(fails(1), Success(DeleteIdentity(db, EncodeIdentity(lib, b.profile, b.control))));
    for position := 0 to |actions|
      invariant transaction == db.(assignments := SavedRows(lib, db.assignments, b, actions, position))
    {
      SavedRowsAre(lib, db.assignments, b, actions, position);
      transaction :- Attempt(fails(2 + position),
                             InsertAssignment(transaction, KeyOf(lib, b, position), EncodeAction(actions[position])));
    }
    return Success(transaction);
  }

  /** The transaction of a save, up to its commit. */
  method ReplaceActions(lib: Library, db: Database, ghost s: Store, b: Binding, actions: seq<Action>, fails: Faults)
    returns (r: Result<Database, AppError>)
    requires Represents(lib, db, s) && Enabled(lib, s, Save(b, actions))
    ensures r.Success? ==> Represents(lib, r.value, Apply(lib, s, Save(b, actions)))
    ensures r.Failure? ==> r.error == Storage
    ensures NoFault(fails) ==> r.Success?
  {
    RepresentsMeetsConstraints(lib, db, s);
    SavedRepresents(lib, db, s, b, actions);
    var transaction :- ReplaceRows(lib, db, b, actions, fails);
    r := Attempt(fails(2 + |actions|), Success(transaction));
  }

  /** The transaction of an activation, up to its commit. */
  method SwitchActive(lib: Library, db: Database, ghost s: Store, id: ProfileId, fails: Faults)
    returns (r: Result<Database, AppError>)
    requires Represents(lib, db, s) && id in s.names
    ensures r.Success? ==> s.active.Some? && Represents(lib, r.value, Apply(lib, s, Activate(id)))
    ensures r.Failure? ==> r.error == Storage || (r.error == ActiveProfileMissing && s.active.None?)
    ensures NoFault(fails) ==> (r.Success? <==> s.active.Some?) && (r.Failure? ==> r.error == ActiveProfileMissing)
  {
    SwitchRepresents(lib, db, s, id);
    var deactivated :- Attempt(fails(1), Success(Deactivate(db)));
    if deactivated.1 == 0 {
      return Failure(ActiveProfileMissing);
    }
    var activated :- Attempt(fails(2), ActivateRow(deactivated.0, lib.printUuid(id)));
    r := if activated.1 != 1 then Failure(ProfileNotFound) else Attempt(fails(3), Success(activated.0));
  }

  method FindProfile(profiles: seq<Profile>, ghost s: Store, id: ProfileId) returns (found: Option<Profile>)
    requires ListsProfiles(profiles, s)
    ensures found == if id in s.names then Some(Profile(id, s.names[id], s.active == Some(id))) else None
  {
    found := None;
    for i := 0 to |profiles|
      invariant found.None? ==> forall j | 0 <= j < i :: profiles[j].id != id
      invariant found.Some? ==> found.value in profiles && found.value.id == id
    {
      if profiles[i].id == id && found.None? {
        found := Some(profiles[i]);
      }
    }
  }

  class SqliteProfileRepository {
    const lib: Library
    var db: Database
    ghost var store: Store

    ghost predicate Valid()
      reads this
    {
      Represents(lib, db, store)
    }

    /** Opening a database: a new one (see `EmptyRepresents`) or what earlier sections left. */
    constructor (lib: Library, db: Database, ghost store: Store)
      requires Represents(lib, db, store)
      ensures this.lib == lib && this.db == db && this.store == store && Valid()
    {
      this.lib, this.db, this.store := lib, db, store;
    }

    // ----------------------------------------------------------------------
    // Queries
    // ----------------------------------------------------------------------

    /** SELECT the profiles, oldest first and then by name. */
    method ListProfilesLocked(fails: bool) returns (r: Result<seq<Profile>, AppError>)
      requires Valid()
      ensures if fails then r == Failure(Storage) else r.Success? && ListsProfiles(r.value, store)
    {
      var scan := ScanProfiles(db.profiles);
      ScanListsProfiles(lib, db.profiles, store, scan);
      r := Attempt(fails, DecodeProfiles(lib, db.profiles, scan, |scan|));
    }

    method ListAssignmentsLocked(fails: bool) returns (r: Result<seq<Assignment>, AppError>)
      requires Valid()
      ensures if fails then r == Failure(Storage)
        else r.Success? && ListsBindings(r.value, store.bindings) && InKeyOrder(lib, r.value)
    {
      var scan := Scan(db.assignments.Keys);
      ScanReads(lib, db, store, scan);
      var rows :- Attempt(fails, DecodeRows(lib, db.assignments, scan, |scan|));
      var assignments := GroupRows(rows);
      GroupedScanLists(lib, db, store, scan, assignments);
      return Success(assignments);
    }

    method ListProfiles(fails: Faults) returns (r: Result<seq<Profile>, AppError>)
      requires Valid()
      ensures if fails(0) then r == Failure(Storage) else r.Success? && ListsProfiles(r.value, store)
    {
      r := ListProfilesLocked(fails(0));
    }

    /** Both lists are read under one lock, so they belong to one state. */
    method LoadSnapshotState(fails: Faults) returns (r: Result<Snapshot, AppError>)
      requires Valid()
      ensures NoFault(fails) ==> r.Success?
      ensures r.Success? ==>
        ListsProfiles(r.value.profiles, store) && ListsBindings(r.value.assignments, store.bindings)
      ensures r.Success? ==> InKeyOrder(lib, r.value.assignments)
      ensures r.Failure? ==> r.error == Storage
    {
      var profiles :- ListProfilesLocked(fails(0));
      var assignments :- ListAssignmentsLocked(fails(1));
      return Success(Snapshot(profiles, assignments));
    }

    method FindAssignment(profileId: ProfileId, control: ControlId, fails: Faults)
      returns (r: Result<Option<Assignment>, AppError>)
      requires Valid()
      ensures var b := Binding(profileId, control);
        r == if fails(0) then Failure(Storage)
             else if b in store.bindings then Success(Some(Assignment(profileId, control, store.bindings[b])))
             else Success(None)
    {
      var scan := Scan(KeysOf(db, EncodeIdentity(lib, profileId, control)));
      SelectedActions(lib, db, store, Binding(profileId, control), scan);
      var actions :- Attempt(fails(0), DecodeActions(lib, db.assignments, scan, |scan|));
      if actions == [] {
        return Success(None);
      }
      return Success(Some(Assignment(profileId, control, actions)));
    }

    method ProfileExists(profileId: ProfileId, fails: bool) returns (r: Result<bool, AppError>)
      requires Valid()
      ensures r == if fails then Failure(Storage) else Success(profileId in store.names)
    {
      RepresentsMeetsConstraints(lib, db, store);
      r := Attempt(fails, Success(lib.printUuid(profileId) in db.profiles));
    }

    method LoadActiveProfile(fails: bool) returns (r: Result<Option<Profile>, AppError>)
      requires Valid()
      ensures r == if fails then Failure(Storage)
                   else if store.active.Some? then
                     Success(Some(Profile(store.active.value, store.names[store.active.value], true)))
                   else Success(None)
    {
      RepresentsMeetsConstraints(lib, db, store);
      if fails || !HasActive(db) {
        return Attempt(fails, Success(None));
      }
      var t :| t in db.profiles && db.profiles[t].isActive == 1;
      ProfileDecodes(lib, db.profiles, store, t);
      return Attempt(fails, DecodeFound(lib, t, db.profiles[t]));
    }

    // ----------------------------------------------------------------------
    // Writes, one lock section each: what succeeds is one operation of the store,
    // and what fails changes nothing
    // ----------------------------------------------------------------------

    method EnsureDefaultProfile(newId: ProfileId, now: int, fails: Faults) returns (r: Result<Profile, AppError>)
      requires Valid()
      modifies this
      ensures Valid()
      ensures r.Success? ==>
        store == Apply(lib, old(store), AddDefault(newId, "Default", now)) && store.active == Some(r.value.id)
                             && r.value == Profile(r.value.id, store.names[r.value.id], true)
      ensures r.Failure? ==> r.error == Storage && db == old(db) && store == old(store)
      ensures NoFault(fails) ==> (r.Success? <==> old(store).active.Some? || newId !in old(store).names)
    {
      var existing :- LoadActiveProfile(fails(0));
      if existing.Some? {
        return Success(existing.value);
      }
      assert !lib.isWhitespace("Default"[0]);
      var profile := lib.MakeProfile(newId, "Default", true).value;
      RepresentsMeetsConstraints(lib, db, store);
      if newId !in store.names {
        InsertRepresents(lib, db, store, newId, profile.name, now, true);
      }
      var inserted :- Attempt(fails(1), InsertProfile(db, lib.printUuid(profile.id), ProfileRow(profile.name, 1, now)));
      db := inserted;
      store := Apply(lib, store, AddDefault(newId, profile.name, now));
      return Success(profile);
    }

    method CreateProfile(name: string, newId: ProfileId, now: int, fails: Faults) returns (r: Result<Profile, AppError>)
      requires Valid()
      modifies this
      ensures Valid()
      ensures r.Success? ==>
        Enabled(lib, old(store), AddProfile(newId, name, now)) && r.value == Profile(newId, name, false)
                             && store == Apply(lib, old(store), AddProfile(newId, name, now))
      ensures r.Failure? ==> r.error in {Storage, Domain(EmptyProfileName)} && db == old(db) && store == old(store)
      ensures r == Failure(Domain(EmptyProfileName)) <==> lib.IsBlank(name)
      ensures NoFault(fails) && newId !in old(store).names && !lib.IsBlank(name) ==> r.Success?
    {
      var profile :- FromDomainError(lib.MakeProfile(newId, name, false));
      RepresentsMeetsConstraints(lib, db, store);
      if newId !in store.names {
        InsertRepresents(lib, db, store, newId, profile.name, now, false);
      }
      var inserted :- Attempt(fails(0), InsertProfile(db, lib.printUuid(profile.id), ProfileRow(profile.name, 0, now)));
      db := inserted;
      store := Apply(lib, store, AddProfile(newId, profile.name, now));
      return Success(profile);
    }

    /** The second lock section of a rename. */
    method WriteName(profileId: ProfileId, name: string, fails: bool) returns (r: Result<(), AppError>)
      requires Valid() && !lib.IsBlank(name)
      modifies this
      ensures Valid()
      ensures r == if fails then Failure(Storage)
                   else if profileId in old(store).names then Success(()) else Failure(ProfileNotFound)
      ensures r.Success? ==> store == Apply(lib, old(store), Operation.WriteName(profileId, name))
      ensures r.Failure? ==> db == old(db) && store == old(store)
    {
      if profileId in store.names {
        RenameRepresents(lib, db, store, profileId, name);
      }
      RowIff(lib, db.profiles, store);
      var written :- Attempt(fails, Success(UpdateName(db, lib.printUuid(profileId), name)));
      db := written.0;
      if written.1 != 1 {
        return Failure(ProfileNotFound);
      }
      store := Apply(lib, store, Operation.WriteName(profileId, name));
      return Success(());
    }

    method SetActiveProfile(profileId: ProfileId, fails: Faults) returns (r: Result<(), AppError>)
      requires Valid()
      modifies this
      ensures Valid()
      ensures Committed(lib, Activate(profileId), old(store), store, r)
      ensures r.Failure? ==> db == old(db)
      ensures NoFault(fails) ==>
        r == if profileId !in old(store).names then Failure(ProfileNotFound)
             else if old(store).active.None? then Failure(ActiveProfileMissing) else Success(())
    {
      var found :- ProfileExists(profileId, fails(0));
      if !found {
        return Failure(ProfileNotFound);
      }
      db :- SwitchActive(lib, db, store, profileId, fails);
      store := Apply(lib, store, Activate(profileId));
      return Success(());
    }

    method SaveAssignment(assignment: Assignment, fails: Faults) returns (r: Result<(), AppError>)
      requires Valid() && lib.AllSafe(assignment.actions)
      modifies this
      ensures Valid()
      ensures Committed(lib, Save(Binding(assignment.profileId, assignment.control), assignment.actions), old(store),
                        store, r)
      ensures r.Failure? ==> db == old(db)
      ensures NoFault(fails) ==>
        r == if assignment.profileId in old(store).names then Success(()) else Failure(ProfileNotFound)
    {
      var found :- ProfileExists(assignment.profileId, fails(0));
      if !found {
        return Failure(ProfileNotFound);
      }
      var b := Binding(assignment.profileId, assignment.control);
      db :- ReplaceActions(lib, db, store, b, assignment.actions, fails);
      store := Apply(lib, store, Save(b, assignment.actions));
      return Success(());
    }

    method ClearAssignment(profileId: ProfileId, control: ControlId, fails: Faults) returns (r: Result<(), AppError>)
      requires Valid()
      modifies this
      ensures Valid()
      ensures Committed(lib, Clear(Binding(profileId, control)), old(store), store, r)
      ensures r.Failure? ==> db == old(db)
      ensures NoFault(fails) ==> r == if profileId in old(store).names then Success(()) else Failure(ProfileNotFound)
    {
      var found :- ProfileExists(profileId, fails(0));
      if !found {
        return Failure(ProfileNotFound);
      }
      ghost var b := Binding(profileId, control);
      SavedRepresents(lib, db, store, b, []);
      SaveNothingIsClear(lib, store, b);
      db :- Attempt(fails(1), Success(DeleteIdentity(db, EncodeIdentity(lib, profileId, control))));
      store := Apply(lib, store, Clear(b));
      return Success(());
    }

    // ----------------------------------------------------------------------
    // Several lock sections
    // ----------------------------------------------------------------------

    /** One lock section of some connection, with any arguments and any faults. */
    method OtherSection()
      requires Valid()
      modifies this
      ensures Valid() && Evolves(lib, old(store), store)
    {
      var section: nat, id: ProfileId, name: string, fails: Faults := *, *, *, *;
      var now: int, control: ControlId, actions: seq<Action> := *, *, *;
      ghost var op;
      match section {
        case 0 =>
          op := AddDefault(id, "Default", now);
          var _ := EnsureDefaultProfile(id, now, fails);
        case 1 =>
          op := AddProfile(id, name, now);
          var _ := CreateProfile(name, id, now, fails);
        case 2 =>
          op := Operation.WriteName(id, name);
          if !lib.IsBlank(name) {
            var _ := WriteName(id, name, fails(1));
          }
        case 3 =>
          op := Activate(id);
          var _ := SetActiveProfile(id, fails);
        case 4 =>
          op := Save(Binding(id, control), actions);
          if lib.AllSafe(actions) {
            var _ := SaveAssignment(Assignment(id, control, actions), fails);
          }
        case _ =>
          op := Clear(Binding(id, control));
          var _ := ClearAssignment(id, control, fails);
      }
      assert store == old(store) || store == Apply(lib, old(store), op);
      EvolvesReflexive(lib, old(store));
      EvolvesStep(lib, old(store), op);
    }

    /** What other connections do while this one does not hold the lock: any number
      of lock sections. */
    method OtherConnections()
      requires Valid()
      modifies this
      ensures Valid() && Evolves(lib, old(store), store)
    {
      var sections: nat :| true;
      EvolvesReflexive(lib, store);
      for i := 0 to sections
        invariant Valid() && Evolves(lib, old(store), store)
      {
        ghost var before := store;
        OtherSection();
        EvolvesTransitive(lib, old(store), before, store);
      }
    }

    /** After any number of lock sections of any connections: the tables represent a
      store that evolved from this one and meet the schema, no profile row is gone,
      and exactly one row is active once one was. */
    method AnyRun()
      requires Valid()
      modifies this
      ensures Valid() && Evolves(lib, old(store), store)
      ensures Constraints(db) && old(db).profiles.Keys <= db.profiles.Keys
      ensures old(store).active.Some? ==>
        store.active.Some? && OnlyActiveRow(db.profiles, lib.printUuid(store.active.value))
    {
      OtherConnections();
      EvolutionKeeps(lib, old(store), store);
      RepresentsMeetsConstraints(lib, db, store);
      ProfileRowsStay(lib, old(db).profiles, old(store), store, db.profiles);
      if old(store).active.Some? {
        TablesStaySound(lib, old(db), old(store), store, db);
      }
    }

    /** Reads the profile in one lock section and writes its name in another, with the
      store as it is `before` the second. The profile is still there then, and only
      the name is written, so what other connections did in between is kept. */
    method RenameProfile(profileId: ProfileId, name: string, fails: Faults)
      returns (r: Result<Profile, AppError>, ghost before: Store)
      requires Valid()
      modifies this
      ensures Valid() && Evolves(lib, old(store), before)
      ensures r.Success? ==>
        && Enabled(lib, before, Operation.WriteName(profileId, name))
        && store == before.(names := before.names[profileId := name])
        && r.value == Profile(profileId, name, old(store).active == Some(profileId))
      ensures r.Failure? ==> store == before
      ensures NoFault(fails) ==>
        if profileId !in old(store).names then r == Failure(ProfileNotFound)
        else if lib.IsBlank(name) then r == Failure(Domain(EmptyProfileName))
        else r.Success?
      ensures r == Failure(ProfileNotFound) ==> profileId !in old(store).names
      ensures r == Failure(Domain(EmptyProfileName)) ==> lib.IsBlank(name)
      ensures r.Failure? ==> r.error in {Storage, ProfileNotFound, Domain(EmptyProfileName)}
    {
      before := store;
      EvolvesReflexive(lib, store);
      var profiles :- ListProfiles(fails);
      var found := FindProfile(profiles, store, profileId);
      if found.None? {
        return Failure(ProfileNotFound), before;
      }
      var profile :- FromDomainError(lib.Rename(found.value, name));
      OtherConnections();
      before := store;
      EvolutionKeeps(lib, old(store), before);
      var _ :- WriteName(profileId, profile.name, fails(1));
      return Success(profile), before;
    }
  }
}
