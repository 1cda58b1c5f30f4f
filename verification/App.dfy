/** Commands, responses, events and errors of the core
  (crates/core-app/src/lib.rs). Error texts are left out. */
module App {
  import opened Wrappers
  import opened Domain

  datatype AppError =
    | Domain(error: DomainError)
    | OpenUrlFailure
    | Storage
    | EventSink
    | ActiveProfileMissing
    | ProfileNotFound
    | AssignmentNotFound
    | AssignmentHasNoAction

  datatype Snapshot = Snapshot(profiles: seq<Profile>, assignments: seq<Assignment>)

  datatype Command =
    | GetSnapshot
    | ListProfiles
    | CreateProfile(name: string)
    | RenameProfile(profileId: ProfileId, name: string)
    | SetActiveProfile(profileId: ProfileId)
    | SaveAssignment(assignment: Assignment)
    | ClearAssignment(profileId: ProfileId, control: ControlId)
    | VirtualControlInput(control: ControlId)

  datatype Response =
    | SnapshotTaken(snapshot: Snapshot)
    | Profiles(profiles: seq<Profile>)
    | OneProfile(profile: Profile)
    | Acknowledged

  type RunId = nat

  datatype Event =
    | ActionRunning(run: RunId, profileId: ProfileId, control: ControlId)
    | ActionSucceeded(run: RunId)
    | ActionFailed(run: RunId)

  function FromDomainError<T>(r: Result<T, DomainError>): Result<T, AppError> {
    match r
    case Success(value) => Success(value)
    case Failure(error) => Failure(Domain(error))
  }
}
