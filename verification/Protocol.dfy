/** Messages on the wire and their translation to and from the domain
  (crates/core-protocol/src/lib.rs and crates/core-ipc/src/lib.rs). Of an error
  message the code is kept and the text left out. */
module Protocol {
  import opened Wrappers
  import opened Domain
  import opened App

  datatype ProtocolVersion = ProtocolVersion(major: u16, minor: u16)

  const CURRENT := ProtocolVersion(0, 3)

  datatype OperationDto = LeftDto | RightDto | PressDto

  datatype ControlDto =
    | KeyDto(page: u16, key: u16)
    | EncoderDto(page: u16, encoder: u16, operation: OperationDto)

  datatype ActionDto = OpenUrlDto(url: string)

  datatype AssignmentDto = AssignmentDto(profileId: string, control: ControlDto, action: ActionDto)

  datatype ClientMessage =
    | Handshake(protocol: ProtocolVersion)
    | GetSnapshotMessage
    | ListProfilesMessage
    | CreateProfileMessage(name: string)
    | RenameProfileMessage(profileId: string, name: string)
    | SetActiveProfileMessage(profileId: string)
    | SaveAssignmentMessage(assignment: AssignmentDto)
    | ClearAssignmentMessage(profileId: string, control: ControlDto)
    | VirtualControlInputMessage(control: ControlDto)

  datatype Envelope = Envelope(requestId: string, message: ClientMessage)

  datatype ProfileDto = ProfileDto(id: string, name: string, isActive: bool)

  datatype SnapshotAssignmentDto = SnapshotAssignmentDto(profileId: string, control: ControlDto,
                                                         actions: seq<ActionDto>)

  datatype LayoutDto = LayoutDto(pages: u16, keyRows: u16, keyColumns: u16, encoders: u16)

  datatype EventDto =
    | Running(run: RunId, profileId: string, control: ControlDto)
    | Succeeded(run: RunId)
    | Failed(run: RunId)

  datatype ErrorCode = IncompatibleProtocol | UnknownMessage | ValidationFailed | NotFound | Internal

  datatype ServerMessage =
    | HandshakeAccepted(requestId: string, protocol: ProtocolVersion)
    | ProfilesMessage(requestId: string, profiles: seq<ProfileDto>)
    | ProfileMessage(requestId: string, profile: ProfileDto)
    | SnapshotMessage(requestId: string, layout: LayoutDto, profiles: seq<ProfileDto>,
                      assignments: seq<SnapshotAssignmentDto>)
    | AcknowledgedMessage(requestId: string)
    | ActionEvent(event: EventDto)
    | Error(request: Option<string>, code: ErrorCode)

  /** JSON decoding of a line, and the request id of a line that is at least JSON. */
  datatype Json = Json(decode: string -> Option<Envelope>, requestId: string -> Option<string>)

  datatype ProtocolError = Decode | EmptyRequestId

  datatype IpcError = DomainFailure(error: DomainError) | IndexOutOfRange | HandshakeRequiresSession

  function DecodeClientEnvelope(lib: Library, json: Json, line: string): Result<Envelope, ProtocolError> {
    match json.decode(line)
    case None => Failure(Decode)
    case Some(envelope) => if lib.IsBlank(envelope.requestId) then Failure(EmptyRequestId) else Success(envelope)
  }

  function ExtractRequestId(lib: Library, json: Json, line: string): Option<string> {
    var id := json.requestId(line);
    if id.Some? && lib.IsBlank(id.value) then None else id
  }

  // ------------------------------------------------------------------------
  // Translation
  // ------------------------------------------------------------------------

  function Ipc<T>(r: Result<T, DomainError>): Result<T, IpcError> {
    match r
    case Success(value) => Success(value)
    case Failure(error) => Failure(DomainFailure(error))
  }

  function U8Index(value: u16): Result<u8, IpcError> {
    if value < 0x100 then Success(value) else Failure(IndexOutOfRange)
  }

  function OperationFromDto(operation: OperationDto): EncoderOperation {
    match operation
    case LeftDto => Left
    case RightDto => Right
    case PressDto => Press
  }

  function OperationToDto(operation: EncoderOperation): OperationDto {
    match operation
    case Left => LeftDto
    case Right => RightDto
    case Press => PressDto
  }

  function ControlFromDto(control: ControlDto): Result<ControlId, IpcError> {
    match control
    case KeyDto(page, key) =>
      var p :- U8Index(page);
      var k :- U8Index(key);
      Ipc(MakeKey(p, k))
    case EncoderDto(page, encoder, operation) =>
      var p :- U8Index(page);
      var e :- U8Index(encoder);
      Ipc(MakeEncoder(p, e, OperationFromDto(operation)))
  }

  function ControlToDto(control: ControlId): ControlDto {
    match control
    case Key(page, key) => KeyDto(page, key)
    case Encoder(page, encoder, operation) => EncoderDto(page, encoder, OperationToDto(operation))
  }

  /** A control comes from exactly the message it is sent as. */
  lemma {:induction false} ControlDtoIff(dto: ControlDto, control: ControlId)
    ensures ControlFromDto(dto) == Success(control) <==> dto == ControlToDto(control)
  {
  }

  function ActionFromDto(lib: Library, action: ActionDto): Result<Action, IpcError> {
    var url :- Ipc(lib.ParseUrl(action.url));
    Success(OpenUrl(url))
  }

  function ActionToDto(action: Action): ActionDto {
    OpenUrlDto(action.url.text)
  }

  function AssignmentFromDto(lib: Library, assignment: AssignmentDto): Result<Assignment, IpcError> {
    var profile :- Ipc(lib.ParseProfileId(assignment.profileId));
    var control :- ControlFromDto(assignment.control);
    var action :- ActionFromDto(lib, assignment.action);
    Success(Assignment(profile, control, [action]))
  }

  function CommandFromMessage(lib: Library, message: ClientMessage): Result<Command, IpcError> {
    match message
    case Handshake(_) => Failure(HandshakeRequiresSession)
    case GetSnapshotMessage => Success(GetSnapshot)
    case ListProfilesMessage => Success(ListProfiles)
    case CreateProfileMessage(name) => Success(CreateProfile(name))
    case RenameProfileMessage(profileId, name) =>
      var id :- Ipc(lib.ParseProfileId(profileId));
      Success(RenameProfile(id, name))
    case SetActiveProfileMessage(profileId) =>
      var id :- Ipc(lib.ParseProfileId(profileId));
      Success(SetActiveProfile(id))
    case SaveAssignmentMessage(assignment) =>
      var a :- AssignmentFromDto(lib, assignment);
      Success(SaveAssignment(a))
    case ClearAssignmentMessage(profileId, control) =>
      var id :- Ipc(lib.ParseProfileId(profileId));
      var c :- ControlFromDto(control);
      Success(ClearAssignment(id, c))
    case VirtualControlInputMessage(control) =>
      var c :- ControlFromDto(control);
      Success(VirtualControlInput(c))
  }

  function ProfileToDto(lib: Library, profile: Profile): ProfileDto {
    ProfileDto(lib.printUuid(profile.id), profile.name, profile.isActive)
  }

  function SnapshotAssignmentToDto(lib: Library, assignment: Assignment): SnapshotAssignmentDto {
    SnapshotAssignmentDto(lib.printUuid(assignment.profileId), ControlToDto(assignment.control),
                          seq(|assignment.actions|,
                              i requires 0 <= i < |assignment.actions| => ActionToDto(assignment.actions[i])))
  }

  function ResponseFromCore(lib: Library, requestId: string, response: Response): ServerMessage {
    match response
    case SnapshotTaken(snapshot) =>
      SnapshotMessage(requestId, LayoutDto(PAGE_COUNT, KEY_ROWS, KEY_COLUMNS, ENCODERS_PER_PAGE),
        seq(|snapshot.profiles|, i requires 0 <= i < |snapshot.profiles| => ProfileToDto(lib, snapshot.profiles[i])),
        seq(|snapshot.assignments|, i requires 0 <= i < |snapshot.assignments| =>
          SnapshotAssignmentToDto(lib, snapshot.assignments[i])))
    case Profiles(profiles) =>
      ProfilesMessage(requestId, seq(|profiles|, i requires 0 <= i < |profiles| => ProfileToDto(lib, profiles[i])))
    case OneProfile(profile) => ProfileMessage(requestId, ProfileToDto(lib, profile))
    case Acknowledged => AcknowledgedMessage(requestId)
  }

  function EventFromCore(lib: Library, event: Event): ServerMessage {
    match event
    case ActionRunning(run, profileId, control) =>
      ActionEvent(Running(run, lib.printUuid(profileId), ControlToDto(control)))
    case ActionSucceeded(run) => ActionEvent(Succeeded(run))
    case ActionFailed(run) => ActionEvent(Failed(run))
  }

  function ProtocolErrorMessage(request: Option<string>, error: ProtocolError): ServerMessage {
    match error
    case Decode => Error(request, UnknownMessage)
    case EmptyRequestId => Error(request, ValidationFailed)
  }

  function IpcErrorMessage(request: Option<string>, error: IpcError): ServerMessage {
    Error(request, ValidationFailed)
  }

  function ErrorMessage(request: Option<string>, error: AppError): ServerMessage {
    match error
    case Domain(_) => Error(request, ValidationFailed)
    case ActiveProfileMissing => Error(request, ValidationFailed)
    case AssignmentNotFound => Error(request, ValidationFailed)
    case AssignmentHasNoAction => Error(request, ValidationFailed)
    case ProfileNotFound => Error(request, NotFound)
    case OpenUrlFailure => Error(request, Internal)
    case Storage => Error(request, Internal)
    case EventSink => Error(request, Internal)
  }

  function HandshakeResponse(requestId: string, protocol: ProtocolVersion): ServerMessage {
    if protocol == CURRENT then HandshakeAccepted(requestId, protocol)
    else Error(Some(requestId), IncompatibleProtocol)
  }

  /** The request a reply answers. */
  function RequestOf(message: ServerMessage): Option<string> {
    match message
    case ActionEvent(_) => None
    case Error(request, _) => request
    case _ => Some(message.requestId)
  }
}
