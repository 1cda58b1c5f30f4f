/** What each line of a client does, said on the messages, the fields of the store and
  the effects alone (crates/core-ipc/src/lib.rs, crates/core-protocol/src/lib.rs). */
module Lines {
  import opened Wrappers
  import opened Domain
  import opened App
  import opened Store
  import opened KeyOrder
  import opened Queries
  import opened Repository
  import opened Protocol
  import opened Session
  import opened Service
  import opened Connection
  import opened ConnectionGuarantees

  // ------------------------------------------------------------------------
  // Lines
  // ------------------------------------------------------------------------

  /** Not all of the text is white space. */
  predicate HasText(lib: Library, text: string) {
    exists i | 0 <= i < |text| :: !lib.isWhitespace(text[i])
  }

  /** The line is the message `m`, sent under the request id `id`. */
  predicate Says(lib: Library, json: Json, line: string, id: string, m: ClientMessage) {
    json.decode(line) == Some(Envelope(id, m)) && HasText(lib, id)
  }

  /** A handshake for version 0.3 came before line `k`. */
  predicate Greeted(lib: Library, json: Json, lines: seq<string>, k: nat)
    requires k <= |lines|
  {
    exists j | 0 <= j < k ::
      && json.decode(lines[j]).Some? && HasText(lib, json.decode(lines[j]).value.requestId)
      && json.decode(lines[j]).value.message == Handshake(ProtocolVersion(0, 3))
  }

  lemma {:induction false} GreetedIff(lib: Library, json: Json, lines: seq<string>, k: nat)
    requires k <= |lines|
    ensures StateAt(lib, json, lines, k) == Established <==> Greeted(lib, json, lines, k)
  {
    EstablishedIff(lib, json, lines, k);
    forall j | 0 <= j < k
      ensures GoodHandshake(lib, json, lines[j]) <==>
        && json.decode(lines[j]).Some? && HasText(lib, json.decode(lines[j]).value.requestId)
        && json.decode(lines[j]).value.message == Handshake(ProtocolVersion(0, 3))
    {
    }
  }

  /** The exchanges of a connection, up to one for line `k` at least. */
  ghost predicate Held(lib: Library, json: Json, lines: seq<string>, xs: seq<Exchange>, k: nat) {
    k < |xs| <= |lines| && Transcript(lib, json, lines, xs, |xs|)
  }

  /** Line `k` is the message `m`, and a handshake came before it. */
  ghost predicate Asked(lib: Library, json: Json, lines: seq<string>, xs: seq<Exchange>, k: nat, id: string,
                        m: ClientMessage) {
    Held(lib, json, lines, xs, k) && Says(lib, json, lines[k], id, m) && Greeted(lib, json, lines, k)
  }

  lemma {:induction false} LineHandled(lib: Library, json: Json, lines: seq<string>, xs: seq<Exchange>, k: nat)
    requires Held(lib, json, lines, xs, k)
    ensures Handled(lib, DispatchAt(lib, json, lines, k), xs[k])
  {
    HandledAt(lib, json, lines, xs, k);
  }

  lemma {:induction false} AskedHandled(lib: Library, json: Json, lines: seq<string>, xs: seq<Exchange>, k: nat,
                                        id: string, m: ClientMessage, command: Command)
    requires Asked(lib, json, lines, xs, k, id, m) && CommandFromMessage(lib, m) == Success(command)
    ensures Handled(lib, Route(id, command), xs[k])
  {
    GreetedIff(lib, json, lines, k);
    LineHandled(lib, json, lines, xs, k);
  }

  // ------------------------------------------------------------------------
  // Arguments
  // ------------------------------------------------------------------------

  predicate InRange(dto: ControlDto) {
    match dto
    case KeyDto(page, key) => page < 4 && key < 12
    case EncoderDto(page, encoder, _) => page < 4 && encoder < 2
  }

  /** The control is the one the message names. */
  predicate Names(dto: ControlDto, c: ControlId) {
    match c
    case Key(page, key) => dto == KeyDto(page, key)
    case Encoder(page, encoder, operation) =>
      match operation
      case Left => dto == EncoderDto(page, encoder, LeftDto)
      case Right => dto == EncoderDto(page, encoder, RightDto)
      case Press => dto == EncoderDto(page, encoder, PressDto)
  }

  lemma {:induction false} NamesIff(dto: ControlDto)
    ensures ControlFromDto(dto).Success? <==> InRange(dto)
    ensures forall c: ControlId :: ControlFromDto(dto) == Success(c) <==> Names(dto, c)
    ensures forall c: ControlId :: dto == ControlToDto(c) <==> Names(dto, c)
  {
  }

  /** A web address without credentials. */
  predicate IsWebUrl(lib: Library, text: string) {
    && lib.parseUrl(text).Some?
    && lib.parseUrl(text).value.username == "" && lib.parseUrl(text).value.password == None
    && lib.parseUrl(text).value.scheme in {"http", "https"}
  }

  /** An argument that the core would not take. */
  predicate BadArgument(lib: Library, m: ClientMessage) {
    match m
    case RenameProfileMessage(profileId, _) => lib.parseUuid(profileId) == None
    case SetActiveProfileMessage(profileId) => lib.parseUuid(profileId) == None
    case SaveAssignmentMessage(a) =>
      || lib.parseUuid(a.profileId) == None || !InRange(a.control)
      || !IsWebUrl(lib, a.action.url)
    case ClearAssignmentMessage(profileId, control) => lib.parseUuid(profileId) == None || !InRange(control)
    case VirtualControlInputMessage(control) => !InRange(control)
    case _ => false
  }

  lemma {:induction false} BadArgumentIff(lib: Library, m: ClientMessage)
    requires !m.Handshake?
    ensures CommandFromMessage(lib, m).Failure? <==> BadArgument(lib, m)
  {
    match m
    case SaveAssignmentMessage(a) => NamesIff(a.control);
    case ClearAssignmentMessage(_, control) => NamesIff(control);
    case VirtualControlInputMessage(control) => NamesIff(control);
    case _ =>
  }

  // ------------------------------------------------------------------------
  // Lines that reach no command
  // ------------------------------------------------------------------------

  /** The request id of a line that is no message, if it has one that is not blank. */
  function IdIn(lib: Library, json: Json, line: string): Option<string> {
    if json.requestId(line).Some? && HasText(lib, json.requestId(line).value) then json.requestId(line) else None
  }

  /** Only these lines reach no command, and each is answered so; they change nothing
    and have no other effect. */
  lemma {:induction false} LineAnswered(lib: Library, json: Json, lines: seq<string>, xs: seq<Exchange>, k: nat)
    requires Held(lib, json, lines, xs, k)
    ensures var x, line, greeted := xs[k], lines[k], Greeted(lib, json, lines, k);
      match json.decode(line)
      case None => OnlyReplies(x, Error(IdIn(lib, json, line), UnknownMessage))
      case Some(Envelope(id, m)) =>
        if !HasText(lib, id) then OnlyReplies(x, Error(IdIn(lib, json, line), ValidationFailed))
        else if m.Handshake? && !greeted then
          OnlyReplies(x, if m.protocol == ProtocolVersion(0, 3) then HandshakeAccepted(id, ProtocolVersion(0, 3))
                     else Error(Some(id), IncompatibleProtocol))
        else if m.Handshake? || !greeted || BadArgument(lib, m) then OnlyReplies(x, Error(Some(id), ValidationFailed))
        else RequestOf(x.reply) == Some(id)
  {
    GreetedIff(lib, json, lines, k);
    LineHandled(lib, json, lines, xs, k);
    match json.decode(lines[k])
    case None =>
    case Some(Envelope(id, m)) =>
      if HasText(lib, id) && !m.Handshake? {
        BadArgumentIff(lib, m);
        if Greeted(lib, json, lines, k) && !BadArgument(lib, m) {
          CarriedGrammar(lib, id, CommandFromMessage(lib, m).value, xs[k]);
        }
      }
  }

  ghost predicate OnlyReplies(x: Exchange, reply: ServerMessage) {
    x.reply == reply && x.effects == [] && x.after == x.start
  }
}
