/** What a client sees and what a connection does to the store, over any lines, any
  other connections and any failures (crates/keyro-core/src/main.rs,
  crates/core-ipc/src/lib.rs, crates/core-app/src/lib.rs). */
module ConnectionGuarantees {
  import opened Wrappers
  import opened Domain
  import opened App
  import opened Store
  import opened Queries
  import opened Repository
  import opened Protocol
  import opened Session
  import opened Service
  import opened Connection

  // ------------------------------------------------------------------------
  // The output: one block for each line
  // ------------------------------------------------------------------------

  predicate IsReply(e: Effect) {
    e.Sent? && !e.message.ActionEvent?
  }

  predicate Starts(e: Effect) {
    e.Sent? && e.message.ActionEvent? && e.message.event.Running?
  }

  /** The event reports how the run that `start` announced went. */
  predicate Ends(e: Effect, start: Effect, worked: bool)
    requires Starts(start)
  {
    var run := start.message.event.run;
    e.Sent? && e.message == ActionEvent(if worked then Succeeded(run) else Failed(run))
  }

  /** The block of a line: its one reply comes last, under the request id of the line.
    Before it comes nothing, or Running undelivered, or Running delivered, then
    one URL opened, then one report of the same run. A run is acknowledged
    exactly if the URL was opened and the report delivered. */
  predicate Grammar(id: Option<string>, x: Exchange) {
    && !x.reply.ActionEvent? && RequestOf(x.reply) == id
    && (x.effects == []
        || (|x.effects| == 1 && Starts(x.effects[0]) && !x.effects[0].delivered && x.reply == Error(id, Internal))
        || (&& |x.effects| == 3
            && Starts(x.effects[0]) && x.effects[0].delivered
            && x.effects[1].Opened?
            && Ends(x.effects[2], x.effects[0], x.effects[1].worked)
            && id.Some?
            && x.reply == (if x.effects[1].worked && x.effects[2].delivered then AcknowledgedMessage(id.value)
                           else Error(id, Internal))))
  }

  lemma {:induction false} HandledGrammar(lib: Library, json: Json, state: SessionState, line: string, x: Exchange)
    requires Handled(lib, Receive(lib, json, state, line).dispatch, x)
    ensures Grammar(IdOf(lib, json, line), x)
  {
    EchoedIdIsNotBlank(lib, json, state, line);
    var dispatch := Receive(lib, json, state, line).dispatch;
    match dispatch
    case Immediate(message) =>
    case Route(requestId, command) => CarriedGrammar(lib, requestId, command, x);
  }

  lemma {:induction false} CarriedGrammar(lib: Library, requestId: string, command: Command, x: Exchange)
    requires Handled(lib, Route(requestId, command), x)
    ensures Grammar(Some(requestId), x)
  {
    match x.result
    case Success(_) =>
    case Failure(_) =>
  }

  /** Around position `p` of an output: a URL is opened only right after Running was
    delivered and is reported right after under the same run id, and nothing but
    the reply follows; Running delivered is always followed by an opening; a report
    always follows an opening. */
  predicate Ordered(trace: seq<Effect>, p: nat)
    requires p < |trace|
  {
    && (trace[p].Opened? ==>
          && 0 < p && p + 2 < |trace|
          && Starts(trace[p - 1]) && trace[p - 1].delivered
          && Ends(trace[p + 1], trace[p - 1], trace[p].worked)
          && IsReply(trace[p + 2])
          && (trace[p + 2].message.AcknowledgedMessage? <==> trace[p].worked && trace[p + 1].delivered))
    && (Starts(trace[p]) ==>
         p + 1 < |trace| && if trace[p].delivered then trace[p + 1].Opened? else IsReply(trace[p + 1]))
    && (trace[p].Sent? && !IsReply(trace[p]) && !Starts(trace[p]) ==> 0 < p && trace[p - 1].Opened?)
  }

  lemma {:induction false} BlockOrdered(id: Option<string>, x: Exchange, p: nat)
    requires Grammar(id, x) && p < |x.Block()|
    ensures Ordered(x.Block(), p)
  {
  }

  lemma {:induction false} OrderedInside(before: seq<Effect>, block: seq<Effect>, p: nat)
    requires p < |before| + |block|
    requires if p < |before| then Ordered(before, p) else Ordered(block, p - |before|)
    ensures Ordered(before + block, p)
  {
    if p >= |before| {
      var q := p - |before|;
      assert (before + block)[p] == block[q];
      assert q > 0 ==> (before + block)[p - 1] == block[q - 1];
      assert q + 1 < |block| ==> (before + block)[p + 1] == block[q + 1];
      assert q + 2 < |block| ==> (before + block)[p + 2] == block[q + 2];
    }
  }

  ghost predicate AllGrammatical(lib: Library, json: Json, lines: seq<string>, xs: seq<Exchange>) {
    |xs| <= |lines| && forall k | 0 <= k < |xs| :: Grammar(IdOf(lib, json, lines[k]), xs[k])
  }

  lemma {:induction false} TranscriptGrammar(lib: Library, json: Json, lines: seq<string>, xs: seq<Exchange>)
    requires |xs| <= |lines| && Transcript(lib, json, lines, xs, |xs|)
    ensures AllGrammatical(lib, json, lines, xs)
  {
    forall k | 0 <= k < |xs|
      ensures Grammar(IdOf(lib, json, lines[k]), xs[k])
    {
      LineGrammar(lib, json, lines, xs, k);
    }
  }

  lemma {:induction false} LineGrammar(lib: Library, json: Json, lines: seq<string>, xs: seq<Exchange>, k: nat)
    requires k < |xs| <= |lines| && Transcript(lib, json, lines, xs, |xs|)
    ensures Grammar(IdOf(lib, json, lines[k]), xs[k])
  {
    HandledAt(lib, json, lines, xs, k);
    HandledGrammar(lib, json, StateAt(lib, json, lines, k), lines[k], xs[k]);
  }

  /** The whole output of a connection is ordered. */
  lemma {:induction false} OutputOrdered(lib: Library, json: Json, lines: seq<string>, xs: seq<Exchange>, k: nat,
                                         p: nat)
    requires AllGrammatical(lib, json, lines, xs) && k <= |xs| && p < |Effects(xs, k)|
    ensures Ordered(Effects(xs, k), p)
    decreases k
  {
    var before := Effects(xs, k - 1);
    if p < |before| {
      OutputOrdered(lib, json, lines, xs, k - 1, p);
    } else {
      BlockOrdered(IdOf(lib, json, lines[k - 1]), xs[k - 1], p - |before|);
    }
    OrderedInside(before, xs[k - 1].Block(), p);
  }

  /** The replies among the effects. */
  function Replies(trace: seq<Effect>): seq<ServerMessage> {
    if trace == [] then [] else
      var last := trace[|trace| - 1];
      Replies(trace[..|trace| - 1]) + (if IsReply(last) then [last.message] else [])
  }

  lemma {:induction false} RepliesOfConcat(before: seq<Effect>, block: seq<Effect>)
    ensures Replies(before + block) == Replies(before) + Replies(block)
  {
    if block == [] {
      assert before + block == before;
    } else {
      RepliesOfConcat(before, block[..|block| - 1]);
      assert (before + block)[..|before + block| - 1] == before + block[..|block| - 1];
    }
  }

  lemma {:induction false} NoReplies(effects: seq<Effect>)
    requires forall i | 0 <= i < |effects| :: !IsReply(effects[i])
    ensures Replies(effects) == []
  {
    if effects != [] {
      NoReplies(effects[..|effects| - 1]);
    }
  }

  lemma {:induction false} BlockReplies(id: Option<string>, x: Exchange)
    requires Grammar(id, x)
    ensures Replies(x.Block()) == [x.reply]
  {
    NoReplyAmongEffects(id, x);
    NoReplies(x.effects);
    OneReplyLast(x.effects, Sent(x.reply, x.delivered));
  }

  lemma {:induction false} NoReplyAmongEffects(id: Option<string>, x: Exchange)
    requires Grammar(id, x)
    ensures forall i | 0 <= i < |x.effects| :: !IsReply(x.effects[i])
  {
  }

  lemma {:induction false} OneReplyLast(effects: seq<Effect>, reply: Effect)
    requires Replies(effects) == [] && IsReply(reply)
    ensures Replies(effects + [reply]) == [reply.message]
  {
    assert (effects + [reply])[..|effects|] == effects;
  }

  lemma {:induction false} RepliesAre(xs: seq<Exchange>, k: nat)
    requires k <= |xs| && forall i | 0 <= i < |xs| :: Replies(xs[i].Block()) == [xs[i].reply]
    ensures |Replies(Effects(xs, k))| == k
    ensures forall i | 0 <= i < k :: Replies(Effects(xs, k))[i] == xs[i].reply
  {
    if k > 0 {
      RepliesAre(xs, k - 1);
      RepliesOfConcat(Effects(xs, k - 1), xs[k - 1].Block());
    }
  }

  /** A connection sends as many replies as it handles lines, one for each, in the
    order of the lines and under their request ids. */
  lemma {:induction false} OneReplyPerLine(lib: Library, json: Json, lines: seq<string>, xs: seq<Exchange>, i: nat)
    requires AllGrammatical(lib, json, lines, xs) && i < |xs|
    ensures |Replies(Effects(xs, |xs|))| == |xs|
    ensures Replies(Effects(xs, |xs|))[i] == xs[i].reply
    ensures RequestOf(xs[i].reply) == IdOf(lib, json, lines[i])
  {
    forall j | 0 <= j < |xs|
      ensures Replies(xs[j].Block()) == [xs[j].reply]
    {
      BlockReplies(IdOf(lib, json, lines[j]), xs[j]);
    }
    RepliesAre(xs, |xs|);
  }

  // ------------------------------------------------------------------------
  // The store
  // ------------------------------------------------------------------------

  lemma {:induction false} AnsweredEvolves(lib: Library, command: Command, at: Store, after: Store,
                                           r: Result<Response, AppError>)
    requires Answered(lib, command, at, after, r)
    ensures Evolves(lib, at, after)
  {
    EvolvesReflexive(lib, at);
    match command
    case CreateProfile(name) =>
      if r.Success? {
        EvolvesStep(lib, at, AddProfile(r.value.profile.id, name, after.created[r.value.profile.id]));
      }
    case RenameProfile(id, name) => EvolvesStep(lib, at, WriteName(id, name));
    case SetActiveProfile(id) => EvolvesStep(lib, at, Activate(id));
    case SaveAssignment(a) => EvolvesStep(lib, at, Save(Binding(a.profileId, a.control), a.actions));
    case ClearAssignment(id, control) => EvolvesStep(lib, at, Clear(Binding(id, control)));
    case _ =>
  }

  /** Until a good handshake was received, nothing but replies comes out of the
    connection, and it changes nothing that is stored. */
  lemma {:induction false} NothingBeforeHandshake(lib: Library, json: Json, lines: seq<string>, xs: seq<Exchange>,
                                                  k: nat)
    requires k < |xs| <= |lines| && Transcript(lib, json, lines, xs, |xs|)
    requires !GoodHandshakeBefore(lib, json, lines, k)
    ensures xs[k].effects == [] && xs[k].after == xs[k].start
  {
    HandledAt(lib, json, lines, xs, k);
    var dispatch := DispatchAt(lib, json, lines, k);
    if dispatch.Route? {
      RoutedIff(lib, json, lines, k, dispatch.requestId, dispatch.command);
    }
  }

  /** All that one line can do, with the others, is a run of operations. */
  lemma {:induction false} ExchangeEvolves(lib: Library, dispatch: Dispatch, x: Exchange)
    requires Handled(lib, dispatch, x)
    ensures Evolves(lib, x.start, x.after)
    ensures dispatch.Route? ==> Evolves(lib, x.start, x.at)
  {
    match dispatch
    case Immediate(_) => EvolvesReflexive(lib, x.start);
    case Route(_, command) =>
      AnsweredEvolves(lib, command, x.at, x.after, x.result);
      EvolvesTransitive(lib, x.start, x.seen, x.at);
      EvolvesTransitive(lib, x.start, x.at, x.after);
  }

  /** The whole connection is. */
  lemma {:induction false} ConnectionEvolves(lib: Library, json: Json, lines: seq<string>, xs: seq<Exchange>, k: nat)
    requires k < |xs| <= |lines| && Transcript(lib, json, lines, xs, k + 1)
    ensures Evolves(lib, xs[0].start, xs[k].start)
    ensures Evolves(lib, xs[0].start, xs[k].after)
  {
    ExchangeEvolves(lib, DispatchAt(lib, json, lines, k), xs[k]);
    if k == 0 {
      EvolvesReflexive(lib, xs[0].start);
    } else {
      ConnectionEvolves(lib, json, lines, xs, k - 1);
    }
    EvolvesTransitive(lib, xs[0].start, xs[k].start, xs[k].after);
  }

  ghost predicate Initialized(lib: Library, s: Store) {
    Invariant(lib, s) && s.active.Some?
  }

  /** Once there is an active profile, in every store a connection meets there is
    exactly one, whatever all connections do. */
  lemma {:induction false} StaysInitialized(lib: Library, json: Json, lines: seq<string>, xs: seq<Exchange>, k: nat)
    requires k < |xs| <= |lines| && Transcript(lib, json, lines, xs, |xs|) && Initialized(lib, xs[0].start)
    ensures Initialized(lib, xs[k].start) && Initialized(lib, xs[k].after)
    ensures DispatchAt(lib, json, lines, k).Route? ==> Initialized(lib, xs[k].seen) && Initialized(lib, xs[k].at)
  {
    TranscriptShorter(lib, json, lines, xs, |xs|, k + 1);
    ConnectionEvolves(lib, json, lines, xs, k);
    EvolutionKeeps(lib, xs[0].start, xs[k].start);
    EvolutionKeeps(lib, xs[0].start, xs[k].after);
    RouteStaysInitialized(lib, DispatchAt(lib, json, lines, k), xs[k]);
  }

  lemma {:induction false} RouteStaysInitialized(lib: Library, dispatch: Dispatch, x: Exchange)
    requires Handled(lib, dispatch, x) && Initialized(lib, x.start)
    ensures dispatch.Route? ==> Initialized(lib, x.seen) && Initialized(lib, x.at)
  {
    if dispatch.Route? {
      EvolutionKeeps(lib, x.start, x.seen);
      EvolutionKeeps(lib, x.seen, x.at);
    }
  }

  /** A snapshot is closed: exactly one profile is active, and every assignment is of a
    profile in it, holds at least one action and only checked URLs. */
  ghost predicate Closed(lib: Library, snapshot: Snapshot) {
    && ActiveCount(snapshot.profiles) == 1
    && forall a | a in snapshot.assignments ::
         a.actions != [] && lib.AllSafe(a.actions) && exists p :: p in snapshot.profiles && p.id == a.profileId
  }

  lemma {:induction false} ListsAreClosed(lib: Library, at: Store, snapshot: Snapshot)
    requires Initialized(lib, at)
    requires ListsProfiles(snapshot.profiles, at) && ListsBindings(snapshot.assignments, at.bindings)
    ensures Closed(lib, snapshot)
  {
    OneActiveIff(snapshot.profiles, at);
    forall a | a in snapshot.assignments
      ensures a.actions != [] && lib.AllSafe(a.actions) && exists p :: p in snapshot.profiles && p.id == a.profileId
    {
      var i :| 0 <= i < |snapshot.assignments| && snapshot.assignments[i] == a;
      var b := Binding(a.profileId, a.control);
      assert b in at.bindings;
      assert Profile(a.profileId, at.names[a.profileId], at.active == Some(a.profileId)) in snapshot.profiles;
    }
  }

  /** After initialization a GetSnapshot never fails on the active-profile check, and
    what it answers is closed. */
  lemma {:induction false} SnapshotIsClosed(lib: Library, at: Store, after: Store, r: Result<Response, AppError>)
    requires Initialized(lib, at) && Answered(lib, GetSnapshot, at, after, r)
    ensures if r.Failure? then r.error == Storage else r.value.SnapshotTaken? && Closed(lib, r.value.snapshot)
  {
    if r.Success? {
      ListsAreClosed(lib, at, r.value.snapshot);
    }
  }

  /** After initialization routing fails only for these reasons; an assignment without
    an action and a missing active profile are not among them. What is opened is
    the first action bound to the control in the profile that was active, and a
    checked URL. */
  lemma {:induction false} RoutingOutcomes(lib: Library, control: ControlId, seen: Store, at: Store,
                                           r: Result<(), AppError>, effects: seq<Effect>)
    requires Initialized(lib, seen) && Initialized(lib, at) && Routed(lib, control, seen, at, r, effects)
    ensures r.Failure? ==> r.error in {Storage, AssignmentNotFound, EventSink, OpenUrlFailure}
    ensures r == Failure(AssignmentNotFound) ==> Binding(seen.active.value, control) !in at.bindings
    ensures forall i | 0 <= i < |effects| && effects[i].Opened? ::
      var b := Binding(seen.active.value, control);
      b in at.bindings && at.bindings[b] != [] && at.bindings[b][0] == OpenUrl(effects[i].url)
        && lib.ParseUrl(effects[i].url.text).Success?
  {
    if effects != [] {
      var b := Binding(seen.active.value, control);
      assert at.bindings[b][0] in at.bindings[b];
      assert |effects| == 1 || |effects| == 3;
    }
  }

  /** After initialization the reply to a write tells what became of it: acknowledged
    means done, an error means that nothing was changed, and not-found means that
    the profile did not exist. If no statement fails, it is acknowledged exactly if
    the profile exists. */
  lemma {:induction false} ReplyTellsOutcome(lib: Library, requestId: string, command: Command, x: Exchange)
    requires IsChange(command)
    requires Handled(lib, Route(requestId, command), x) && Initialized(lib, x.at)
    ensures x.reply in {AcknowledgedMessage(requestId), Error(Some(requestId), NotFound),
                        Error(Some(requestId), Internal)}
    ensures if x.reply == AcknowledgedMessage(requestId) then
              Enabled(lib, x.at, OperationOf(command)) && x.after == Apply(lib, x.at, OperationOf(command))
            else x.after == x.at
    ensures x.reply == Error(Some(requestId), NotFound) ==> ProfileOf(OperationOf(command)) !in x.at.names
    ensures NoFault(x.fails) ==>
      (x.reply == AcknowledgedMessage(requestId) <==> ProfileOf(OperationOf(command)) in x.at.names)
  {
  }
}
