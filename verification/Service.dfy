/** Command handling: ordered effects on the repository, the event sink and the URL
  opener (crates/core-app/src/lib.rs). */
module Service {
  import opened Wrappers
  import opened Domain
  import opened App
  import opened Store
  import opened Refinement
  import opened Queries
  import opened Repository
  import opened Protocol

  /** What a connection does to the world, and whether it worked. */
  datatype Effect =
    | Sent(message: ServerMessage, delivered: bool)
    | Opened(url: SafeUrl, worked: bool)

  /** The client's stream, behind the event sink and the replies, and the URL opener. */
  class Host {
    var trace: seq<Effect>

    constructor ()
      ensures trace == []
    {
      trace := [];
    }

    method Write(message: ServerMessage) returns (delivered: bool)
      modifies this
      ensures trace == old(trace) + [Sent(message, delivered)]
    {
      delivered := *;
      trace := trace + [Sent(message, delivered)];
    }

    method OpenUrl(url: SafeUrl) returns (worked: bool)
      modifies this
      ensures trace == old(trace) + [Opened(url, worked)]
    {
      worked := *;
      trace := trace + [Opened(url, worked)];
    }
  }

  // ------------------------------------------------------------------------
  // What a command does
  // ------------------------------------------------------------------------

  predicate IsChange(command: Command) {
    command.SetActiveProfile? || command.SaveAssignment? || command.ClearAssignment?
  }

  /** The operation a client asks for with a command that writes. */
  function OperationOf(command: Command): Operation
    requires IsChange(command)
  {
    match command
    case SetActiveProfile(id) => Activate(id)
    case SaveAssignment(a) => Save(Binding(a.profileId, a.control), a.actions)
    case ClearAssignment(id, control) => Clear(Binding(id, control))
  }

  function Outcome(r: Result<Response, AppError>): Result<(), AppError> {
    match r
    case Success(_) => Success(())
    case Failure(error) => Failure(error)
  }

  /** An acknowledged write is one operation that took effect in one lock section; a
    failed write changed nothing. */
  ghost predicate Changed(lib: Library, op: Operation, at: Store, after: Store, r: Result<Response, AppError>) {
    Committed(lib, op, at, after, Outcome(r)) && (r.Success? ==> r.value == Acknowledged)
  }

  /** A check of the active profile fails only before initialization. */
  ghost predicate ReadFailed(at: Store, error: AppError) {
    error == Storage || (at.active.None? && error == Domain(ActiveProfileInvariant(0)))
  }

  /** The answer to a command whose last lock section found the store as it is `at`
    and left it as it is `after`. */
  ghost predicate Answered(lib: Library, command: Command, at: Store, after: Store, r: Result<Response, AppError>) {
    match command
    case GetSnapshot =>
      && after == at
      && if r.Failure? then ReadFailed(at, r.error)
         else r.value.SnapshotTaken? && at.active.Some?
              && ListsProfiles(r.value.snapshot.profiles, at)
              && ListsBindings(r.value.snapshot.assignments, at.bindings)
              && InKeyOrder(lib, r.value.snapshot.assignments)
    case ListProfiles =>
      && after == at
      && if r.Failure? then ReadFailed(at, r.error)
         else r.value.Profiles? && at.active.Some? && ListsProfiles(r.value.profiles, at)
    case CreateProfile(name) =>
      if r.Failure? then
        after == at && (r.error == Storage || (r.error == Domain(EmptyProfileName) && lib.IsBlank(name)))
      else
        && r.value.OneProfile?
        && var profile := r.value.profile;
           && profile == Profile(profile.id, name, false) && profile.id in after.created
           && var op := AddProfile(profile.id, name, after.created[profile.id]);
              Enabled(lib, at, op) && after == Apply(lib, at, op)
    case RenameProfile(id, name) =>
      if r.Failure? then
        after == at && (r.error in {Storage, ProfileNotFound}
          || (r.error == Domain(EmptyProfileName) && lib.IsBlank(name)))
      else
        && r.value.OneProfile? && r.value.profile.id == id && r.value.profile.name == name
        && Enabled(lib, at, WriteName(id, name)) && after == Apply(lib, at, WriteName(id, name))
    case SetActiveProfile(id) => Changed(lib, Activate(id), at, after, r)
    case SaveAssignment(a) => Changed(lib, Save(Binding(a.profileId, a.control), a.actions), at, after, r)
    case ClearAssignment(id, control) => Changed(lib, Clear(Binding(id, control)), at, after, r)
    case VirtualControlInput(_) => after == at && (r.Success? ==> r.value == Acknowledged)
  }

  /** What routing a control does, with the store as it is `seen` when the active
    profile is read and as it is `at` when its assignment is. Nothing is worked
    unless Running was delivered, and what is worked is reported under its run id. */
  ghost predicate Routed(lib: Library, control: ControlId, seen: Store, at: Store, r: Result<(), AppError>,
                         effects: seq<Effect>) {
    if effects == [] then
      && r.Failure?
      && (ReadFailed(seen, r.error)
          || r.error == Storage
          || (r.error == AssignmentNotFound && seen.active.Some?
               && Binding(seen.active.value, control) !in at.bindings))
    else
      && seen.active.Some?
      && var b := Binding(seen.active.value, control);
         b in at.bindings && at.bindings[b] != [] && RunOf(lib, control, b.profile, at.bindings[b][0], r, effects)
  }

  ghost predicate RunOf(lib: Library, control: ControlId, profile: ProfileId, action: Action, r: Result<(), AppError>,
                        effects: seq<Effect>) {
    && |effects| > 0 && effects[0].Sent? && effects[0].message.ActionEvent?
    && var run := effects[0].message.event.run;
       && effects[0].message == EventFromCore(lib, ActionRunning(run, profile, control))
       && if !effects[0].delivered then |effects| == 1 && r == Failure(EventSink)
          else
            && |effects| == 3
            && effects[1].Opened? && effects[1].url == action.url
            && effects[2].Sent?
            && effects[2].message
               == EventFromCore(lib, if effects[1].worked then ActionSucceeded(run) else ActionFailed(run))
            && r == (if !effects[2].delivered then Failure(EventSink)
                     else if effects[1].worked then Success(()) else Failure(OpenUrlFailure))
  }

  /** What an answer owes to the store as it was `seen` in an earlier lock section: the
    active flag of a renamed profile, and the profile whose assignment is routed. */
  ghost predicate AsSeen(lib: Library, command: Command, seen: Store, at: Store, r: Result<Response, AppError>,
                         effects: seq<Effect>) {
    match command
    case VirtualControlInput(control) => Routed(lib, control, seen, at, Outcome(r), effects)
    case RenameProfile(id, _) =>
      && effects == []
      && (r.Success? ==> r.value.OneProfile? && r.value.profile.isActive == (seen.active == Some(id)))
      && (r == Failure(ProfileNotFound) ==> id !in seen.names)
    case _ => effects == []
  }

  /** Without a fault of the engine there is no storage error, but for the one chance
    that a new UUID is taken. */
  ghost predicate Faultless(command: Command, newId: ProfileId, fails: Faults, at: Store,
                            r: Result<Response, AppError>) {
    NoFault(fails) && r == Failure(Storage) ==> command.CreateProfile? && newId in at.names
  }

  method FindActive(profiles: seq<Profile>, ghost s: Store) returns (found: Option<Profile>)
    requires ListsProfiles(profiles, s) && (s.active.Some? ==> s.active.value in s.names)
    ensures found == if s.active.Some? then Some(Profile(s.active.value, s.names[s.active.value], true)) else None
  {
    found := None;
    for i := 0 to |profiles|
      invariant if found.Some? then found.value in profiles && found.value.isActive
                else forall j | 0 <= j < i :: !profiles[j].isActive
    {
      if profiles[i].isActive && found.None? {
        found := Some(profiles[i]);
      }
    }
  }

  function Acknowledge(done: Result<(), AppError>): Result<Response, AppError> {
    match done
    case Success(_) => Success(Acknowledged)
    case Failure(error) => Failure(error)
  }

  class CoreService {
    const repository: SqliteProfileRepository
    const host: Host

    ghost predicate Valid()
      reads repository
    {
      repository.Valid()
    }

    constructor (repository: SqliteProfileRepository, host: Host)
      requires repository.Valid()
      ensures this.repository == repository && this.host == host && Valid()
    {
      this.repository, this.host := repository, host;
    }

    /** After a successful start there is an active profile, and there always will be. It
      returns the profile that was active, or a new one called Default; `at` is the store
      when it was, and other connections may have gone on from there. */
    method Initialize(newId: ProfileId, time: int, fails: Faults)
      returns (r: Result<Profile, AppError>, ghost at: Store)
      requires Valid()
      modifies repository
      ensures Valid() && Evolves(repository.lib, old(repository.store), repository.store)
      ensures r.Success? ==> repository.store.active.Some? && r.value.id in repository.store.names
      ensures r.Success? ==>
        && at.active == Some(r.value.id) && r.value.id in at.names
        && r.value == Profile(r.value.id, at.names[r.value.id], true)
        && Evolves(repository.lib, at, repository.store)
      ensures r.Success? ==>
        var before := old(repository.store);
        at == if before.active.Some? then before
              else before.(names := before.names[newId := "Default"], created := before.created[newId := time],
                           active := Some(newId))
      ensures r.Failure? ==> r.error == Storage
      ensures NoFault(fails) && r.Failure? ==>
        old(repository.store).active.None? && newId in old(repository.store).names
    {
      EvolvesReflexive(repository.lib, repository.store);
      EvolvesStep(repository.lib, repository.store, AddDefault(newId, "Default", time));
      at := repository.store;
      var profile :- repository.EnsureDefaultProfile(newId, time, fails);
      at := repository.store;
      repository.OtherConnections();
      EvolvesTransitive(repository.lib, old(repository.store), at, repository.store);
      EvolutionKeeps(repository.lib, at, repository.store);
      var profiles :- repository.ListProfiles(Beyond(fails, 2));
      OneActiveIff(profiles, repository.store);
      match EnsureExactlyOneActive(profiles) {
        case Success(_) => r := Success(profile);
        case Failure(error) => r := Failure(Domain(error));
      }
    }

    method CheckedProfiles(fails: Faults) returns (r: Result<seq<Profile>, AppError>)
      requires Valid()
      ensures if r.Success? then repository.store.active.Some? && ListsProfiles(r.value, repository.store)
              else ReadFailed(repository.store, r.error)
      ensures NoFault(fails) ==> r != Failure(Storage)
    {
      var profiles :- repository.ListProfiles(fails);
      OneActiveIff(profiles, repository.store);
      var _ :- FromDomainError(EnsureExactlyOneActive(profiles));
      return Success(profiles);
    }

    method ActiveProfile(fails: Faults) returns (r: Result<Profile, AppError>)
      requires Valid()
      ensures NoFault(fails) ==> r != Failure(Storage)
      ensures if r.Failure? then ReadFailed(repository.store, r.error)
              else
                && repository.store.active == Some(r.value.id) && r.value.id in repository.store.names
                && r.value == Profile(r.value.id, repository.store.names[r.value.id], true)
    {
      var profiles :- CheckedProfiles(fails);
      var found := FindActive(profiles, repository.store);
      match found {
        case Some(profile) => r := Success(profile);
        case None => r := Failure(ActiveProfileMissing);
      }
    }

    method RouteVirtualControl(control: ControlId, fails: Faults)
      returns (r: Result<(), AppError>, ghost seen: Store, ghost effects: seq<Effect>)
      requires Valid()
      modifies repository, host
      ensures Valid()
      ensures Evolves(repository.lib, old(repository.store), seen) && Evolves(repository.lib, seen, repository.store)
      ensures host.trace == old(host.trace) + effects
      ensures Routed(repository.lib, control, seen, repository.store, r, effects)
      ensures NoFault(fails) ==> r != Failure(Storage)
    {
      effects := [];
      repository.OtherConnections();
      seen := repository.store;
      EvolvesReflexive(repository.lib, seen);
      var profile :- ActiveProfile(fails);
      repository.OtherConnections();
      var found :- repository.FindAssignment(profile.id, control, Beyond(fails, 1));
      if found.None? {
        return Failure(AssignmentNotFound), seen, effects;
      }
      var assignment := found.value;
      if assignment.actions == [] {
        r := Failure(AssignmentHasNoAction);
      } else {
        r, effects := Perform(profile.id, control, assignment.actions[0]);
      }
    }

    /** Reports a run, opens its URL and reports how that went. */
    method Perform(profile: ProfileId, control: ControlId, action: Action)
      returns (r: Result<(), AppError>, ghost effects: seq<Effect>)
      modifies host
      ensures effects != [] && host.trace == old(host.trace) + effects
      ensures RunOf(repository.lib, control, profile, action, r, effects)
    {
      var run: RunId := *;
      var delivered := host.Write(EventFromCore(repository.lib, ActionRunning(run, profile, control)));
      effects := [Sent(EventFromCore(repository.lib, ActionRunning(run, profile, control)), delivered)];
      if !delivered {
        return Failure(EventSink), effects;
      }
      var worked := host.OpenUrl(action.url);
      var event := if worked then ActionSucceeded(run) else ActionFailed(run);
      var reported := host.Write(EventFromCore(repository.lib, event));
      effects := effects + [Opened(action.url, worked), Sent(EventFromCore(repository.lib, event), reported)];
      r := if !reported then Failure(EventSink) else if worked then Success(()) else Failure(OpenUrlFailure);
    }

    method TakeSnapshot(fails: Faults) returns (r: Result<Response, AppError>)
      requires Valid()
      ensures Answered(repository.lib, GetSnapshot, repository.store, repository.store, r)
      ensures NoFault(fails) ==> r != Failure(Storage)
    {
      var snapshot :- repository.LoadSnapshotState(fails);
      OneActiveIff(snapshot.profiles, repository.store);
      var _ :- FromDomainError(EnsureExactlyOneActive(snapshot.profiles));
      return Success(SnapshotTaken(snapshot));
    }

    /** The commands that take the lock once. */
    method HandleInOneSection(command: Command, newId: ProfileId, time: int, fails: Faults)
      returns (r: Result<Response, AppError>)
      requires Valid() && !command.RenameProfile? && !command.VirtualControlInput?
      requires command.SaveAssignment? ==> repository.lib.AllSafe(command.assignment.actions)
      modifies repository
      ensures Valid()
      ensures Answered(repository.lib, command, old(repository.store), repository.store, r)
      ensures Faultless(command, newId, fails, old(repository.store), r)
    {
      if IsChange(command) {
        r := HandleChange(command, fails);
        return;
      }
      match command {
        case GetSnapshot =>
          r := TakeSnapshot(fails);
        case ListProfiles =>
          var profiles :- CheckedProfiles(fails);
          r := Success(Profiles(profiles));
        case CreateProfile(name) =>
          var profile :- repository.CreateProfile(name, newId, time, fails);
          r := Success(OneProfile(profile));
      }
    }

    method HandleChange(command: Command, fails: Faults) returns (r: Result<Response, AppError>)
      requires Valid() && IsChange(command)
      requires command.SaveAssignment? ==> repository.lib.AllSafe(command.assignment.actions)
      modifies repository
      ensures Valid()
      ensures Changed(repository.lib, OperationOf(command), old(repository.store), repository.store, r)
      ensures NoFault(fails) ==> r != Failure(Storage)
    {
      var done;
      match command {
        case SetActiveProfile(id) => done := repository.SetActiveProfile(id, fails);
        case SaveAssignment(assignment) => done := repository.SaveAssignment(assignment, fails);
        case ClearAssignment(id, control) => done := repository.ClearAssignment(id, control, fails);
      }
      r := Acknowledge(done);
    }

    /** Handles a command among other connections: `at` is the store when its last
      lock section begins, `seen` the store when routing reads the active profile,
      and `effects` what happens before the reply. */
    method HandleCommand(command: Command, newId: ProfileId, time: int, fails: Faults)
      returns (r: Result<Response, AppError>, ghost seen: Store, ghost at: Store, ghost effects: seq<Effect>)
      requires Valid()
      requires command.SaveAssignment? ==> repository.lib.AllSafe(command.assignment.actions)
      modifies repository, host
      ensures Valid()
      ensures Evolves(repository.lib, old(repository.store), seen) && Evolves(repository.lib, seen, at)
      ensures Answered(repository.lib, command, at, repository.store, r)
      ensures host.trace == old(host.trace) + effects
      ensures AsSeen(repository.lib, command, seen, at, r, effects)
      ensures Faultless(command, newId, fails, at, r)
    {
      effects := [];
      match command {
        case VirtualControlInput(control) =>
          var done;
          done, seen, effects := RouteVirtualControl(control, fails);
          at := repository.store;
          r := Acknowledge(done);
        case RenameProfile(id, name) =>
          r, seen, at := Rename(id, name, fails);
        case _ =>
          seen := repository.store;
          EvolvesReflexive(repository.lib, seen);
          repository.OtherConnections();
          at := repository.store;
          r := HandleInOneSection(command, newId, time, fails);
      }
    }

    method Rename(id: ProfileId, name: string, fails: Faults)
      returns (r: Result<Response, AppError>, ghost seen: Store, ghost at: Store)
      requires Valid()
      modifies repository
      ensures Valid()
      ensures Evolves(repository.lib, old(repository.store), seen) && Evolves(repository.lib, seen, at)
      ensures Answered(repository.lib, RenameProfile(id, name), at, repository.store, r)
      ensures AsSeen(repository.lib, RenameProfile(id, name), seen, at, r, [])
      ensures NoFault(fails) ==> r != Failure(Storage)
    {
      repository.OtherConnections();
      seen := repository.store;
      var profile;
      profile, at := repository.RenameProfile(id, name, fails);
      r := if profile.Success? then Success(OneProfile(profile.value)) else Failure(profile.error);
    }
  }
}
