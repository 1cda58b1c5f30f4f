/** One connection: a reply for each line, in order, with the events of a routed
  action before it (crates/keyro-core/src/main.rs). */
module Connection {
  import opened Wrappers
  import opened Domain
  import opened App
  import opened Store
  import opened Protocol
  import opened Session
  import opened Repository
  import opened Service

  function Reply(lib: Library, requestId: string, r: Result<Response, AppError>): ServerMessage {
    match r
    case Success(response) => ResponseFromCore(lib, requestId, response)
    case Failure(error) => ErrorMessage(Some(requestId), error)
  }

  /** One line and all that happens for it. The store is as it is at the `start` of
    the line, when its control is looked up (`seen`), when its last lock section
    begins (`at`) and `after` it. `newId` is the UUID a new profile gets, `fails` says
    which statements fail. */
  datatype Exchange = Exchange(
    start: Store,
    seen: Store,
    at: Store,
    after: Store,
    newId: ProfileId,
    fails: Faults,
    result: Result<Response, AppError>,
    effects: seq<Effect>,
    reply: ServerMessage,
    delivered: bool)
  {
    function Block(): seq<Effect> {
      effects + [Sent(reply, delivered)]
    }
  }

  ghost predicate Handled(lib: Library, dispatch: Dispatch, x: Exchange) {
    match dispatch
    case Immediate(message) => x.effects == [] && x.reply == message && x.after == x.start
    case Route(requestId, command) =>
      && Evolves(lib, x.start, x.seen) && Evolves(lib, x.seen, x.at)
      && Answered(lib, command, x.at, x.after, x.result)
      && AsSeen(lib, command, x.seen, x.at, x.result, x.effects)
      && Faultless(command, x.newId, x.fails, x.at, x.result)
      && x.reply == Reply(lib, requestId, x.result)
  }

  /** The first `k` exchanges with a client: the lines are handled in order, each from
    the store the last one left, and a line is read only when the reply before it
    was delivered. */
  ghost predicate Transcript(lib: Library, json: Json, lines: seq<string>, xs: seq<Exchange>, k: nat)
    requires k <= |xs| <= |lines|
  {
    k > 0 ==>
      && Transcript(lib, json, lines, xs, k - 1)
      && Handled(lib, DispatchAt(lib, json, lines, k - 1), xs[k - 1])
      && (k > 1 ==> xs[k - 1].start == xs[k - 2].after && xs[k - 2].delivered)
  }

  /** The effects of the first `k` exchanges. */
  function Effects(xs: seq<Exchange>, k: nat): seq<Effect>
    requires k <= |xs|
  {
    if k == 0 then [] else Effects(xs, k - 1) + xs[k - 1].Block()
  }

  class DevConnection {
    const service: CoreService
    const session: ProtocolSession

    ghost predicate Valid()
      reads service.repository
    {
      service.Valid() && session.lib == service.repository.lib
    }

    constructor (service: CoreService, json: Json)
      requires service.Valid()
      ensures Valid() && this.service == service && fresh(session)
      ensures session.json == json && session.state == AwaitingHandshake
    {
      this.service := service;
      this.session := new ProtocolSession(service.repository.lib, json);
    }

    /** Where the connection stands after the exchanges `xs`, having found the store as
      `store` and written nothing but `trace` before. */
    ghost predicate Served(lines: seq<string>, xs: seq<Exchange>, store: Store, trace: seq<Effect>)
      reads session, service.repository, service.host
    {
      && Valid()
      && |xs| <= |lines| && (forall k | 0 <= k <= |xs| :: Transcript(session.lib, session.json, lines, xs, k))
      && session.state == StateAt(session.lib, session.json, lines, |xs|)
      && service.host.trace == trace + Effects(xs, |xs|)
      && (if xs == [] then service.repository.store == store
          else xs[0].start == store && service.repository.store == xs[|xs| - 1].after)
    }

    /** Serves the lines of a client until they end or a reply cannot be written. */
    method Serve(lines: seq<string>) returns (ghost xs: seq<Exchange>)
      requires Valid() && session.state == AwaitingHandshake
      modifies session, service.repository, service.host
      ensures Served(lines, xs, old(service.repository.store), old(service.host.trace))
      ensures |xs| < |lines| ==> xs != [] && !xs[|xs| - 1].delivered
    {
      ghost var store, trace := service.repository.store, service.host.trace;
      xs := [];
      var k, writable := 0, true;
      while k < |lines| && writable
        invariant k == |xs| && Served(lines, xs, store, trace)
        invariant writable <==> xs == [] || xs[|xs| - 1].delivered
      {
        writable, xs := ServeNext(lines, k, xs, store, trace);
        k := k + 1;
      }
    }

    method ServeNext(lines: seq<string>, k: nat, ghost xs: seq<Exchange>, ghost store: Store, ghost trace: seq<Effect>)
      returns (delivered: bool, ghost more: seq<Exchange>)
      requires k == |xs| < |lines| && Served(lines, xs, store, trace)
      requires xs == [] || xs[|xs| - 1].delivered
      modifies session, service.repository, service.host
      ensures |more| == |xs| + 1 && Served(lines, more, store, trace)
      ensures delivered == more[|xs|].delivered
    {
      ghost var x;
      delivered, x := ServeLine(lines[k]);
      more := xs + [x];
      TranscriptMore(session.lib, session.json, lines, xs, x, more);
      EffectsMore(xs, x, more, trace);
    }

    method ServeLine(line: string) returns (delivered: bool, ghost x: Exchange)
      requires Valid()
      modifies session, service.repository, service.host
      ensures Valid() && service.host.trace == old(service.host.trace) + x.Block() && delivered == x.delivered
      ensures x.start == old(service.repository.store) && x.after == service.repository.store
      ensures var step := Receive(session.lib, session.json, old(session.state), line);
        && session.state == step.state && Handled(session.lib, step.dispatch, x)
    {
      RoutedAssignmentIsSafe(session.lib, session.json, session.state, line);
      var dispatch := session.ReceiveLine(line);
      ghost var start, seen, at, effects :=
        service.repository.store, service.repository.store, service.repository.store, [];
      var newId: ProfileId, time: int, fails: Faults := *, *, *;
      var r: Result<Response, AppError> := Success(Acknowledged);
      var reply;
      match dispatch {
        case Immediate(message) => reply := message;
        case Route(requestId, command) =>
          r, seen, at, effects := service.HandleCommand(command, newId, time, fails);
          reply := Reply(session.lib, requestId, r);
      }
      delivered := service.host.Write(reply);
      x := Exchange(start, seen, at, service.repository.store, newId, fails, r, effects, reply, delivered);
      assert Handled(session.lib, dispatch, x);
    }
  }

  lemma {:induction false} TranscriptMore(lib: Library, json: Json, lines: seq<string>, xs: seq<Exchange>, x: Exchange,
                                          more: seq<Exchange>)
    requires |xs| < |lines| && Transcript(lib, json, lines, xs, |xs|)
    requires Handled(lib, DispatchAt(lib, json, lines, |xs|), x)
    requires xs != [] ==> x.start == xs[|xs| - 1].after && xs[|xs| - 1].delivered
    requires more == xs + [x]
    ensures forall k | 0 <= k <= |more| :: Transcript(lib, json, lines, more, k)
    ensures StateAt(lib, json, lines, |more|) == Receive(lib, json, StateAt(lib, json, lines, |xs|), lines[|xs|]).state
  {
    forall k | 0 <= k <= |xs|
      ensures Transcript(lib, json, lines, more, k)
    {
      TranscriptShorter(lib, json, lines, xs, |xs|, k);
      TranscriptPrefix(lib, json, lines, xs, x, k);
    }
    assert more[|xs|] == x && (xs != [] ==> more[|xs| - 1] == xs[|xs| - 1]);
    TranscriptNext(lib, json, lines, more, |xs|);
  }

  lemma {:induction false} TranscriptNext(lib: Library, json: Json, lines: seq<string>, xs: seq<Exchange>, k: nat)
    requires k < |xs| <= |lines| && Transcript(lib, json, lines, xs, k)
    requires Handled(lib, DispatchAt(lib, json, lines, k), xs[k])
    requires k > 0 ==> xs[k].start == xs[k - 1].after && xs[k - 1].delivered
    ensures Transcript(lib, json, lines, xs, k + 1)
  {
  }

  lemma {:induction false} TranscriptPrefix(lib: Library, json: Json, lines: seq<string>, xs: seq<Exchange>,
                                            x: Exchange, k: nat)
    requires k <= |xs| < |lines| && Transcript(lib, json, lines, xs, k)
    ensures Transcript(lib, json, lines, xs + [x], k)
  {
    if k > 0 {
      TranscriptPrefix(lib, json, lines, xs, x, k - 1);
    }
  }

  lemma {:induction false} TranscriptShorter(lib: Library, json: Json, lines: seq<string>, xs: seq<Exchange>, n: nat,
                                             k: nat)
    requires k <= n <= |xs| <= |lines| && Transcript(lib, json, lines, xs, n)
    ensures Transcript(lib, json, lines, xs, k)
    decreases n
  {
    if k < n {
      TranscriptShorter(lib, json, lines, xs, n - 1, k);
    }
  }

  /** Each of the exchanges is one for its line, and goes on where the one before it ended. */
  lemma {:induction false} HandledAt(lib: Library, json: Json, lines: seq<string>, xs: seq<Exchange>, k: nat)
    requires k < |xs| <= |lines| && Transcript(lib, json, lines, xs, |xs|)
    ensures Handled(lib, DispatchAt(lib, json, lines, k), xs[k])
    ensures k > 0 ==> xs[k].start == xs[k - 1].after && xs[k - 1].delivered
  {
    TranscriptShorter(lib, json, lines, xs, |xs|, k + 1);
    LastHandled(lib, json, lines, xs, k);
  }

  lemma {:induction false} LastHandled(lib: Library, json: Json, lines: seq<string>, xs: seq<Exchange>, k: nat)
    requires k < |xs| <= |lines| && Transcript(lib, json, lines, xs, k + 1)
    ensures Handled(lib, DispatchAt(lib, json, lines, k), xs[k])
    ensures k > 0 ==> xs[k].start == xs[k - 1].after && xs[k - 1].delivered
  {
  }

  lemma {:induction false} EffectsMore(xs: seq<Exchange>, x: Exchange, more: seq<Exchange>, trace: seq<Effect>)
    requires more == xs + [x]
    ensures trace + Effects(more, |more|) == trace + Effects(xs, |xs|) + x.Block()
  {
    EffectsPrefix(xs, x, |xs|);
  }

  lemma {:induction false} EffectsPrefix(xs: seq<Exchange>, x: Exchange, k: nat)
    requires k <= |xs|
    ensures Effects(xs + [x], k) == Effects(xs, k)
  {
    if k > 0 {
      EffectsPrefix(xs, x, k - 1);
    }
  }
}
