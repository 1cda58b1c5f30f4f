/** The handshake automaton of a connection (crates/core-ipc/src/lib.rs). */
module Session {
  import opened Wrappers
  import opened Domain
  import opened App
  import opened Protocol

  datatype SessionState = AwaitingHandshake | Established

  datatype Dispatch =
    | Immediate(message: ServerMessage)
    | Route(requestId: string, command: Command)
  {
    predicate Accepts() {
      Immediate? && message.HandshakeAccepted?
    }
  }

  datatype Step = Step(state: SessionState, dispatch: Dispatch)

  function Receive(lib: Library, json: Json, state: SessionState, line: string): Step {
    match DecodeClientEnvelope(lib, json, line)
    case Failure(error) => Step(state, Immediate(ProtocolErrorMessage(ExtractRequestId(lib, json, line), error)))
    case Success(Envelope(id, Handshake(version))) =>
      if state == Established then Step(state, Immediate(Error(Some(id), ValidationFailed)))
      else Step(if version == CURRENT then Established else state, Immediate(HandshakeResponse(id, version)))
    case Success(Envelope(id, message)) =>
      if state != Established then Step(state, Immediate(Error(Some(id), ValidationFailed)))
      else
        match CommandFromMessage(lib, message)
        case Success(command) => Step(state, Route(id, command))
        case Failure(error) => Step(state, Immediate(IpcErrorMessage(Some(id), error)))
  }

  class ProtocolSession {
    const lib: Library
    const json: Json
    var state: SessionState

    constructor (lib: Library, json: Json)
      ensures this.lib == lib && this.json == json && state == AwaitingHandshake
    {
      this.lib, this.json, state := lib, json, AwaitingHandshake;
    }

    method ReceiveLine(line: string) returns (dispatch: Dispatch)
      modifies this
      ensures Step(state, dispatch) == Receive(lib, json, old(state), line)
    {
      match DecodeClientEnvelope(lib, json, line) {
        case Success(envelope) => dispatch := DispatchEnvelope(envelope);
        case Failure(error) =>
          var requestId := ExtractRequestId(lib, json, line);
          dispatch := Immediate(ProtocolErrorMessage(requestId, error));
      }
    }

    method DispatchEnvelope(envelope: Envelope) returns (dispatch: Dispatch)
      modifies this
      ensures forall line | DecodeClientEnvelope(lib, json, line) == Success(envelope) ::
                Step(state, dispatch) == Receive(lib, json, old(state), line)
    {
      if envelope.message.Handshake? && state == Established {
        return Immediate(Error(Some(envelope.requestId), ValidationFailed));
      }
      if envelope.message.Handshake? {
        var response := HandshakeResponse(envelope.requestId, envelope.message.protocol);
        if response.HandshakeAccepted? {
          state := Established;
        }
        return Immediate(response);
      }
      if state == Established {
        match CommandFromMessage(lib, envelope.message) {
          case Success(command) => return Route(envelope.requestId, command);
          case Failure(error) => return Immediate(IpcErrorMessage(Some(envelope.requestId), error));
        }
      }
      return Immediate(Error(Some(envelope.requestId), ValidationFailed));
    }
  }

  // ------------------------------------------------------------------------
  // Whole connections
  // ------------------------------------------------------------------------

  /** The session before line `k`. */
  function StateAt(lib: Library, json: Json, lines: seq<string>, k: nat): SessionState
    requires k <= |lines|
  {
    if k == 0 then AwaitingHandshake else Receive(lib, json, StateAt(lib, json, lines, k - 1), lines[k - 1]).state
  }

  function DispatchAt(lib: Library, json: Json, lines: seq<string>, k: nat): Dispatch
    requires k < |lines|
  {
    Receive(lib, json, StateAt(lib, json, lines, k), lines[k]).dispatch
  }

  /** A well-formed handshake for protocol version 0.3. */
  predicate GoodHandshake(lib: Library, json: Json, line: string) {
    var decoded := DecodeClientEnvelope(lib, json, line);
    decoded.Success? && decoded.value.message == Handshake(ProtocolVersion(0, 3))
  }

  predicate GoodHandshakeBefore(lib: Library, json: Json, lines: seq<string>, k: nat)
    requires k <= |lines|
  {
    exists i | 0 <= i < k :: GoodHandshake(lib, json, lines[i])
  }

  /** A session is established exactly from the first good handshake on, whatever
    else the client sends. */
  lemma {:induction false} EstablishedIff(lib: Library, json: Json, lines: seq<string>, k: nat)
    requires k <= |lines|
    ensures StateAt(lib, json, lines, k) == Established <==> GoodHandshakeBefore(lib, json, lines, k)
  {
    if k > 0 {
      EstablishedIff(lib, json, lines, k - 1);
    }
  }

  /** Only the first good handshake is accepted: over any lines, at most one. */
  lemma {:induction false} AcceptedIff(lib: Library, json: Json, lines: seq<string>, k: nat)
    requires k < |lines|
    ensures DispatchAt(lib, json, lines, k).Accepts()
       <==> GoodHandshake(lib, json, lines[k]) && !GoodHandshakeBefore(lib, json, lines, k)
  {
    EstablishedIff(lib, json, lines, k);
  }

  /** A command is routed exactly when a good handshake came before it and the line
    holds a valid command, which is then the one routed, under the line's request id. */
  lemma {:induction false} RoutedIff(lib: Library, json: Json, lines: seq<string>, k: nat, id: string, command: Command)
    requires k < |lines|
    ensures DispatchAt(lib, json, lines, k) == Route(id, command)
       <==> && GoodHandshakeBefore(lib, json, lines, k)
            && var decoded := DecodeClientEnvelope(lib, json, lines[k]);
               decoded.Success? && decoded.value.requestId == id
                 && CommandFromMessage(lib, decoded.value.message) == Success(command)
  {
    EstablishedIff(lib, json, lines, k);
  }

  /** Any line but an accepted handshake leaves the session as it is. */
  lemma {:induction false} OnlyAcceptanceChanges(lib: Library, json: Json, lines: seq<string>, k: nat)
    requires k < |lines|
    ensures StateAt(lib, json, lines, k + 1) != StateAt(lib, json, lines, k) <==>
      DispatchAt(lib, json, lines, k).Accepts()
  {
  }

  /** The request id a line is answered under, if any. */
  function IdOf(lib: Library, json: Json, line: string): Option<string> {
    match DecodeClientEnvelope(lib, json, line)
    case Success(envelope) => Some(envelope.requestId)
    case Failure(_) => ExtractRequestId(lib, json, line)
  }

  /** Replies echo the request id of their line, and never a blank one. */
  lemma {:induction false} EchoedIdIsNotBlank(lib: Library, json: Json, state: SessionState, line: string)
    ensures var dispatch := Receive(lib, json, state, line).dispatch;
      IdOf(lib, json, line) == if dispatch.Route? then Some(dispatch.requestId) else RequestOf(dispatch.message)
    ensures IdOf(lib, json, line).Some? ==> !lib.IsBlank(IdOf(lib, json, line).value)
  {
  }

  /** An assignment that reaches the core holds checked URLs only, and one action. */
  lemma {:induction false} RoutedAssignmentIsSafe(lib: Library, json: Json, state: SessionState, line: string)
    ensures var dispatch := Receive(lib, json, state, line).dispatch;
      dispatch.Route? && dispatch.command.SaveAssignment? ==>
        |dispatch.command.assignment.actions| == 1 && lib.AllSafe(dispatch.command.assignment.actions)
  {
  }
}
