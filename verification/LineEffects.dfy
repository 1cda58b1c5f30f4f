/** What the commands of a client do to the store, what they have done before the reply,
  and what the reply says, in the fields of the messages and of the store
  (crates/core-app/src/lib.rs, crates/core-ipc/src/lib.rs). */
module LineEffects {
  import opened Wrappers
  import opened Domain
  import opened App
  import opened Store
  import opened KeyOrder
  import opened Queries
  import opened Repository
  import opened Protocol
  import opened Session
  import opened Service
  import opened Connection
  import opened ConnectionGuarantees
  import opened Lines

  // ------------------------------------------------------------------------
  // Writes
  // ------------------------------------------------------------------------

  /** The line was answered with an error and changed nothing. The conditions are those
    that go with each code. */
  ghost predicate FailedWith(x: Exchange, id: string, notFound: bool, invalid: bool, internal: bool) {
    && x.after == x.at
    && (|| (x.reply == Error(Some(id), NotFound) && notFound)
        || (x.reply == Error(Some(id), ValidationFailed) && invalid)
        || (x.reply == Error(Some(id), Internal) && internal))
  }

  lemma {:induction false} Activated(lib: Library, id: string, p: ProfileId, x: Exchange)
    requires Handled(lib, Route(id, SetActiveProfile(p)), x)
    ensures x.effects == []
    ensures if x.reply == AcknowledgedMessage(id) then
              p in x.at.names && x.at.active.Some? && x.after == x.at.(active := Some(p))
            else FailedWith(x, id, p !in x.at.names, x.at.active == None, !NoFault(x.fails))
  {
  }

  /** An acknowledged activation moved the active flag to this profile and did nothing
    else; any other answer changed nothing and says why. */
  lemma {:induction false} SetActiveLine(lib: Library, json: Json, lines: seq<string>, xs: seq<Exchange>, k: nat,
                                         id: string, text: string, p: ProfileId)
    requires Asked(lib, json, lines, xs, k, id, SetActiveProfileMessage(text)) && lib.parseUuid(text) == Some(p)
    ensures var x := xs[k];
      && x.effects == []
      && if x.reply == AcknowledgedMessage(id) then
           p in x.at.names && x.at.active.Some? && x.after == x.at.(active := Some(p))
         else FailedWith(x, id, p !in x.at.names, x.at.active == None, !NoFault(x.fails))
  {
    AskedHandled(lib, json, lines, xs, k, id, SetActiveProfileMessage(text), SetActiveProfile(p));
    Activated(lib, id, p, xs[k]);
  }

  lemma {:induction false} Saved(lib: Library, id: string, p: ProfileId, c: ControlId, action: Action, x: Exchange)
    requires Handled(lib, Route(id, SaveAssignment(Assignment(p, c, [action]))), x)
    ensures x.effects == []
    ensures if x.reply == AcknowledgedMessage(id) then
              p in x.at.names && x.after == x.at.(bindings := x.at.bindings[Binding(p, c) := [action]])
            else FailedWith(x, id, p !in x.at.names, false, !NoFault(x.fails))
  {
  }

  lemma {:induction false} Cleared(lib: Library, id: string, p: ProfileId, c: ControlId, x: Exchange)
    requires Handled(lib, Route(id, ClearAssignment(p, c)), x)
    ensures x.effects == []
    ensures if x.reply == AcknowledgedMessage(id) then
              p in x.at.names && x.after == x.at.(bindings := x.at.bindings - {Binding(p, c)})
            else FailedWith(x, id, p !in x.at.names, false, !NoFault(x.fails))
  {
  }

  /** An acknowledged save bound the control the message names to its one action. */
  lemma {:induction false} SaveLine(lib: Library, json: Json, lines: seq<string>, xs: seq<Exchange>, k: nat,
                                    id: string, dto: AssignmentDto, p: ProfileId, c: ControlId)
    requires Asked(lib, json, lines, xs, k, id, SaveAssignmentMessage(dto))
    requires lib.parseUuid(dto.profileId) == Some(p) && Names(dto.control, c) && IsWebUrl(lib, dto.action.url)
    ensures var x := xs[k];
      && x.effects == []
      && if x.reply == AcknowledgedMessage(id) then
           && p in x.at.names
           && x.after == x.at.(bindings := x.at.bindings[Binding(p, c) := [OpenUrl(SafeUrl(dto.action.url))]])
         else FailedWith(x, id, p !in x.at.names, false, !NoFault(x.fails))
  {
    var action := OpenUrl(SafeUrl(dto.action.url));
    SaveMeans(lib, dto, p, c);
    AskedHandled(lib, json, lines, xs, k, id, SaveAssignmentMessage(dto), SaveAssignment(Assignment(p, c, [action])));
    Saved(lib, id, p, c, action, xs[k]);
  }

  lemma {:induction false} SaveMeans(lib: Library, dto: AssignmentDto, p: ProfileId, c: ControlId)
    requires lib.parseUuid(dto.profileId) == Some(p) && Names(dto.control, c) && IsWebUrl(lib, dto.action.url)
    ensures CommandFromMessage(lib, SaveAssignmentMessage(dto))
         == Success(SaveAssignment(Assignment(p, c, [OpenUrl(SafeUrl(dto.action.url))])))
  {
    NamesIff(dto.control);
  }

  /** An acknowledged clear left the control without a binding. */
  lemma {:induction false} ClearLine(lib: Library, json: Json, lines: seq<string>, xs: seq<Exchange>, k: nat,
                                     id: string, text: string, dto: ControlDto, p: ProfileId, c: ControlId)
    requires Asked(lib, json, lines, xs, k, id, ClearAssignmentMessage(text, dto))
    requires lib.parseUuid(text) == Some(p) && Names(dto, c)
    ensures var x := xs[k];
      && x.effects == []
      && if x.reply == AcknowledgedMessage(id) then
           p in x.at.names && x.after == x.at.(bindings := x.at.bindings - {Binding(p, c)})
         else FailedWith(x, id, p !in x.at.names, false, !NoFault(x.fails))
  {
    NamesIff(dto);
    AskedHandled(lib, json, lines, xs, k, id, ClearAssignmentMessage(text, dto), ClearAssignment(p, c));
    Cleared(lib, id, p, c, xs[k]);
  }

  /** A profile that was created is new, inactive, and has the name that was sent. */
  lemma {:induction false} CreateLine(lib: Library, json: Json, lines: seq<string>, xs: seq<Exchange>, k: nat,
                                      id: string, name: string)
    requires Asked(lib, json, lines, xs, k, id, CreateProfileMessage(name))
    ensures var x := xs[k];
      && x.effects == []
      && if x.reply.ProfileMessage? then
           && HasText(lib, name) && x.result.Success? && x.result.value.OneProfile?
           && var p := x.result.value.profile.id;
           && x.reply == ProfileMessage(id, ProfileDto(lib.printUuid(p), name, false))
           && p !in x.at.names && p in x.after.created
           && x.after == x.at.(names := x.at.names[p := name], created := x.at.created[p := x.after.created[p]])
         else FailedWith(x, id, false, !HasText(lib, name), !NoFault(x.fails) || x.newId in x.at.names)
  {
    AskedHandled(lib, json, lines, xs, k, id, CreateProfileMessage(name), CreateProfile(name));
  }

  lemma {:induction false} Renamed(lib: Library, id: string, p: ProfileId, name: string, x: Exchange)
    requires Handled(lib, Route(id, RenameProfile(p, name)), x)
    ensures x.effects == []
    ensures if x.reply.ProfileMessage? then
              && HasText(lib, name)
              && x.reply == ProfileMessage(id, ProfileDto(lib.printUuid(p), name, x.seen.active == Some(p)))
              && p in x.at.names && x.after == x.at.(names := x.at.names[p := name])
            else FailedWith(x, id, p !in x.seen.names, !HasText(lib, name), !NoFault(x.fails))
  {
  }

  /** A profile that was renamed has the name that was sent; the active flag in the answer
    is the one first read. */
  lemma {:induction false} RenameLine(lib: Library, json: Json, lines: seq<string>, xs: seq<Exchange>, k: nat,
                                      id: string, text: string, name: string, p: ProfileId)
    requires Asked(lib, json, lines, xs, k, id, RenameProfileMessage(text, name)) && lib.parseUuid(text) == Some(p)
    ensures var x := xs[k];
      && x.effects == []
      && if x.reply.ProfileMessage? then
           && HasText(lib, name)
           && x.reply == ProfileMessage(id, ProfileDto(lib.printUuid(p), name, x.seen.active == Some(p)))
           && p in x.at.names && x.after == x.at.(names := x.at.names[p := name])
         else FailedWith(x, id, p !in x.seen.names, !HasText(lib, name), !NoFault(x.fails))
  {
    AskedHandled(lib, json, lines, xs, k, id, RenameProfileMessage(text, name), RenameProfile(p, name));
    Renamed(lib, id, p, name, xs[k]);
  }

  // ------------------------------------------------------------------------
  // Reads
  // ------------------------------------------------------------------------

  /** The entry shows the profile. */
  ghost predicate Shows(lib: Library, s: Store, p: ProfileId, dto: ProfileDto) {
    && p in s.names && dto.id == lib.printUuid(p) && dto.name == s.names[p]
    && (dto.isActive <==> s.active == Some(p))
  }

  /** Older profiles come first, and then by name. */
  ghost predicate ComesFirst(s: Store, p: ProfileId, q: ProfileId) {
    && p in s.created && q in s.created && p in s.names && q in s.names
    && (s.created[p] < s.created[q] || (s.created[p] == s.created[q] && NotAfter(s.names[p], s.names[q])))
  }

  /** The entries are the profiles `ids`, which are those of the store, each once and in
    order. */
  ghost predicate ShowsProfiles(lib: Library, s: Store, ids: seq<ProfileId>, dtos: seq<ProfileDto>) {
    && |ids| == |dtos|
    && (forall p :: p in ids <==> p in s.names)
    && (forall i, j | 0 <= i < j < |ids| :: ids[i] != ids[j])
    && (forall i | 0 <= i < |ids| :: Shows(lib, s, ids[i], dtos[i]))
    && (forall i, j | 0 <= i < j < |ids| :: ComesFirst(s, ids[i], ids[j]))
  }

  /** Exactly one entry is active. */
  ghost predicate OneActive(dtos: seq<ProfileDto>) {
    exists i | 0 <= i < |dtos| :: dtos[i].isActive && forall j | 0 <= j < |dtos| && j != i :: !dtos[j].isActive
  }

  lemma {:induction false} ListShows(lib: Library, s: Store, profiles: seq<Profile>, dtos: seq<ProfileDto>)
    returns (ids: seq<ProfileId>)
    requires ListsProfiles(profiles, s) && |dtos| == |profiles|
    requires forall i | 0 <= i < |dtos| :: dtos[i] == ProfileToDto(lib, profiles[i])
    ensures ShowsProfiles(lib, s, ids, dtos)
  {
    ids := seq(|profiles|, i requires 0 <= i < |profiles| => profiles[i].id);
    ListsEach(s, profiles, ids);
    forall i | 0 <= i < |ids|
      ensures Shows(lib, s, ids[i], dtos[i])
    {
      assert profiles[i] in profiles;
    }
    forall i, j | 0 <= i < j < |ids|
      ensures ComesFirst(s, ids[i], ids[j])
    {
      assert ListedBefore(s, profiles[i].id, profiles[j].id);
      TextLeqIff(s.names[ids[i]], s.names[ids[j]]);
    }
  }

  lemma {:induction false} ListsEach(s: Store, profiles: seq<Profile>, ids: seq<ProfileId>)
    requires ListsProfiles(profiles, s) && |ids| == |profiles|
    requires forall i | 0 <= i < |ids| :: ids[i] == profiles[i].id
    ensures forall p :: p in ids <==> p in s.names
  {
    forall p
      ensures p in ids <==> p in s.names
    {
      if p in ids {
        var i :| 0 <= i < |ids| && ids[i] == p;
        assert profiles[i] in profiles;
      }
      if p in s.names {
        var i :| 0 <= i < |profiles| && profiles[i] == Profile(p, s.names[p], s.active == Some(p));
        assert ids[i] == p;
      }
    }
  }

  lemma {:induction false} ShowsOneActive(lib: Library, s: Store, ids: seq<ProfileId>, dtos: seq<ProfileDto>)
    requires ShowsProfiles(lib, s, ids, dtos) && s.active.Some? && s.active.value in s.names
    ensures OneActive(dtos)
  {
    assert s.active.value in ids;
    var i :| 0 <= i < |ids| && ids[i] == s.active.value;
    assert Shows(lib, s, ids[i], dtos[i]);
    forall j | 0 <= j < |dtos| && j != i
      ensures !dtos[j].isActive
    {
      assert Shows(lib, s, ids[j], dtos[j]) && ids[j] != ids[i];
    }
  }

  lemma {:induction false} Listed(lib: Library, id: string, x: Exchange) returns (ids: seq<ProfileId>)
    requires Handled(lib, Route(id, ListProfiles), x)
    ensures x.effects == [] && x.after == x.at
    ensures if x.reply.ProfilesMessage? then
              x.reply.requestId == id && x.at.active.Some? && ShowsProfiles(lib, x.at, ids, x.reply.profiles)
            else FailedWith(x, id, false, x.at.active == None, !NoFault(x.fails))
  {
    ids := [];
    if x.result.Success? {
      ids := ListShows(lib, x.at, x.result.value.profiles, x.reply.profiles);
    }
  }

  /** A list of the profiles shows the store as it is at one moment. After initialization
    it fails only if a statement does, and exactly one entry is active. */
  lemma {:induction false} ListLine(lib: Library, json: Json, lines: seq<string>, xs: seq<Exchange>, k: nat, id: string)
    returns (ids: seq<ProfileId>)
    requires Asked(lib, json, lines, xs, k, id, ListProfilesMessage)
    ensures var x := xs[k];
      && x.effects == [] && x.after == x.at
      && if x.reply.ProfilesMessage? then x.reply.requestId == id && ShowsProfiles(lib, x.at, ids, x.reply.profiles)
         else FailedWith(x, id, false, x.at.active == None, !NoFault(x.fails))
    ensures Initialized(lib, xs[0].start) ==>
      xs[k].at.active.Some? && (xs[k].reply.ProfilesMessage? ==> OneActive(xs[k].reply.profiles))
  {
    AskedHandled(lib, json, lines, xs, k, id, ListProfilesMessage, ListProfiles);
    ids := Listed(lib, id, xs[k]);
    if Initialized(lib, xs[0].start) {
      AskedInitialized(lib, json, lines, xs, k, id, ListProfilesMessage, ListProfiles);
      if xs[k].reply.ProfilesMessage? {
        ShowsOneActive(lib, xs[k].at, ids, xs[k].reply.profiles);
      }
    }
  }

  lemma {:induction false} AskedInitialized(lib: Library, json: Json, lines: seq<string>, xs: seq<Exchange>, k: nat,
                                            id: string, m: ClientMessage, command: Command)
    requires Asked(lib, json, lines, xs, k, id, m) && CommandFromMessage(lib, m) == Success(command)
    requires Initialized(lib, xs[0].start)
    ensures Initialized(lib, xs[k].seen) && Initialized(lib, xs[k].at)
  {
    StaysInitialized(lib, json, lines, xs, k);
    GreetedIff(lib, json, lines, k);
  }

  /** The entry shows the control, bound to these actions. */
  ghost predicate ShowsBinding(lib: Library, b: Binding, actions: seq<Action>, entry: SnapshotAssignmentDto) {
    && entry.profileId == lib.printUuid(b.profile) && Names(entry.control, b.control)
    && |entry.actions| == |actions|
    && forall i | 0 <= i < |actions| :: entry.actions[i] == OpenUrlDto(actions[i].url.text)
  }

  function Rank(operation: OperationDto): nat {
    match operation
    case LeftDto => 0
    case PressDto => 1
    case RightDto => 2
  }

  /** By profile, page, encoders before keys, index, and then operation. */
  ghost predicate EntryNotAfter(e: SnapshotAssignmentDto, f: SnapshotAssignmentDto) {
    if e.profileId != f.profileId then NotAfter(e.profileId, f.profileId)
    else if e.control.page != f.control.page then e.control.page < f.control.page
    else
      match (e.control, f.control)
      case (EncoderDto(_, _, _), KeyDto(_, _)) => true
      case (KeyDto(_, _), EncoderDto(_, _, _)) => false
      case (KeyDto(_, k), KeyDto(_, l)) => k <= l
      case (EncoderDto(_, k, o), EncoderDto(_, l, q)) => k < l || (k == l && Rank(o) <= Rank(q))
  }

  /** The entries are the controls `bs`, which are those that are bound, each once and in
    order. */
  ghost predicate ShowsBindings(lib: Library, s: Store, bs: seq<Binding>, entries: seq<SnapshotAssignmentDto>) {
    && |bs| == |entries|
    && (forall b :: b in bs <==> b in s.bindings)
    && (forall i, j | 0 <= i < j < |bs| :: bs[i] != bs[j])
    && (forall i | 0 <= i < |bs| :: bs[i] in s.bindings && ShowsBinding(lib, bs[i], s.bindings[bs[i]], entries[i]))
    && (forall i, j | 0 <= i < j < |entries| :: EntryNotAfter(entries[i], entries[j]))
  }

  lemma {:induction false} EntryShows(lib: Library, a: Assignment, entry: SnapshotAssignmentDto)
    requires entry == SnapshotAssignmentToDto(lib, a)
    ensures ShowsBinding(lib, Binding(a.profileId, a.control), a.actions, entry)
  {
    NamesIff(entry.control);
  }

  lemma {:induction false} EntryOrder(lib: Library, a: Assignment, b: Assignment)
    requires IdentityLeq(IdentityOf(lib, a), IdentityOf(lib, b))
    ensures EntryNotAfter(SnapshotAssignmentToDto(lib, a), SnapshotAssignmentToDto(lib, b))
  {
    TextLeqIff(lib.printUuid(a.profileId), lib.printUuid(b.profileId));
  }

  lemma {:induction false} SnapshotShows(lib: Library, s: Store, assignments: seq<Assignment>,
                                         entries: seq<SnapshotAssignmentDto>)
    returns (bs: seq<Binding>)
    requires ListsBindings(assignments, s.bindings) && InKeyOrder(lib, assignments) && |entries| == |assignments|
    requires forall i | 0 <= i < |entries| :: entries[i] == SnapshotAssignmentToDto(lib, assignments[i])
    ensures ShowsBindings(lib, s, bs, entries)
  {
    bs := seq(|assignments|, i requires 0 <= i < |assignments| =>
                Binding(assignments[i].profileId, assignments[i].control));
    forall b
      ensures b in bs <==> b in s.bindings
    {
      if b in s.bindings {
        var i :| 0 <= i < |assignments| && assignments[i] == Assignment(b.profile, b.control, s.bindings[b]);
        assert bs[i] == b;
      }
    }
    forall i | 0 <= i < |bs|
      ensures bs[i] in s.bindings && ShowsBinding(lib, bs[i], s.bindings[bs[i]], entries[i])
    {
      EntryShows(lib, assignments[i], entries[i]);
    }
    forall i, j | 0 <= i < j < |entries|
      ensures EntryNotAfter(entries[i], entries[j])
    {
      EntryOrder(lib, assignments[i], assignments[j]);
    }
  }

  lemma {:induction false} Snapshotted(lib: Library, id: string, x: Exchange)
    returns (ids: seq<ProfileId>, bs: seq<Binding>)
    requires Handled(lib, Route(id, GetSnapshot), x)
    ensures x.effects == [] && x.after == x.at
    ensures if x.reply.SnapshotMessage? then
              && x.reply.requestId == id && x.reply.layout == LayoutDto(4, 3, 4, 2) && x.at.active.Some?
              && ShowsProfiles(lib, x.at, ids, x.reply.profiles)
              && ShowsBindings(lib, x.at, bs, x.reply.assignments)
            else FailedWith(x, id, false, x.at.active == None, !NoFault(x.fails))
  {
    ids, bs := [], [];
    if x.result.Success? {
      var snapshot := x.result.value.snapshot;
      ids := ListShows(lib, x.at, snapshot.profiles, x.reply.profiles);
      bs := SnapshotShows(lib, x.at, snapshot.assignments, x.reply.assignments);
    }
  }

  /** A snapshot shows all profiles and all bound controls of the store at one moment. */
  lemma {:induction false} SnapshotLine(lib: Library, json: Json, lines: seq<string>, xs: seq<Exchange>, k: nat,
                                        id: string)
    returns (ids: seq<ProfileId>, bs: seq<Binding>)
    requires Asked(lib, json, lines, xs, k, id, GetSnapshotMessage)
    ensures var x := xs[k];
      && x.effects == [] && x.after == x.at
      && if x.reply.SnapshotMessage? then
           && x.reply.requestId == id && x.reply.layout == LayoutDto(4, 3, 4, 2)
           && ShowsProfiles(lib, x.at, ids, x.reply.profiles)
           && ShowsBindings(lib, x.at, bs, x.reply.assignments)
         else FailedWith(x, id, false, x.at.active == None, !NoFault(x.fails))
    ensures Initialized(lib, xs[0].start) ==>
      xs[k].at.active.Some? && (xs[k].reply.SnapshotMessage? ==> OneActive(xs[k].reply.profiles))
  {
    AskedHandled(lib, json, lines, xs, k, id, GetSnapshotMessage, GetSnapshot);
    ids, bs := Snapshotted(lib, id, xs[k]);
    if Initialized(lib, xs[0].start) {
      AskedInitialized(lib, json, lines, xs, k, id, GetSnapshotMessage, GetSnapshot);
      if xs[k].reply.SnapshotMessage? {
        ShowsOneActive(lib, xs[k].at, ids, xs[k].reply.profiles);
      }
    }
  }

  // ------------------------------------------------------------------------
  // Virtual key presses
  // ------------------------------------------------------------------------

  /** A key press announces its run to the client with the profile and the control, opens
    the first URL bound to the control, reports how that went under the same run id, and
    is acknowledged if all of that worked; it does no more if it cannot be announced. */
  ghost predicate Pressed(lib: Library, id: string, dto: ControlDto, p: ProfileId, url: SafeUrl, run: RunId,
                          x: Exchange) {
    && |x.effects| > 0
    && x.effects[0].Sent? && x.effects[0].message == ActionEvent(Running(run, lib.printUuid(p), dto))
    && if !x.effects[0].delivered then |x.effects| == 1 && x.reply == Error(Some(id), Internal)
       else
         && |x.effects| == 3
         && x.effects[1].Opened? && x.effects[1].url == url
         && x.effects[2].Sent?
         && x.effects[2].message == ActionEvent(if x.effects[1].worked then Succeeded(run) else Failed(run))
         && x.reply == if x.effects[1].worked && x.effects[2].delivered then AcknowledgedMessage(id)
                       else Error(Some(id), Internal)
  }

  /** The binding that a key press works: that of the control in the profile active when
    it was looked up. */
  ghost predicate Works(x: Exchange, c: ControlId, url: SafeUrl) {
    && x.seen.active.Some?
    && var b := Binding(x.seen.active.value, c);
       b in x.at.bindings && x.at.bindings[b] != [] && x.at.bindings[b][0].url == url
  }

  lemma {:induction false} PressedIs(lib: Library, id: string, c: ControlId, x: Exchange)
    returns (url: SafeUrl, run: RunId)
    requires Handled(lib, Route(id, VirtualControlInput(c)), x) && x.effects != []
    ensures Works(x, c, url) && Pressed(lib, id, ControlToDto(c), x.seen.active.value, url, run, x)
  {
    url := x.at.bindings[Binding(x.seen.active.value, c)][0].url;
    run := x.effects[0].message.event.run;
  }

  lemma {:induction false} NotPressed(lib: Library, id: string, c: ControlId, x: Exchange)
    requires Handled(lib, Route(id, VirtualControlInput(c)), x)
    ensures x.after == x.at
    ensures x.effects == [] ==>
      FailedWith(x, id, false, x.seen.active == None
        || Binding(x.seen.active.value, c) !in x.at.bindings, !NoFault(x.fails))
  {
  }

  lemma {:induction false} PressLine(lib: Library, json: Json, lines: seq<string>, xs: seq<Exchange>, k: nat,
                                     id: string, dto: ControlDto, c: ControlId)
    returns (url: SafeUrl, run: RunId)
    requires Asked(lib, json, lines, xs, k, id, VirtualControlInputMessage(dto)) && Names(dto, c)
    ensures var x := xs[k];
      && x.after == x.at
      && if x.effects != [] then Works(x, c, url) && Pressed(lib, id, dto, x.seen.active.value, url, run, x)
         else
           FailedWith(x, id, false, x.seen.active == None || Binding(x.seen.active.value, c) !in x.at.bindings,
                      !NoFault(x.fails))
    ensures Initialized(lib, xs[0].start) && xs[k].effects != [] ==> IsWebUrl(lib, url.text)
  {
    NamesIff(dto);
    AskedHandled(lib, json, lines, xs, k, id, VirtualControlInputMessage(dto), VirtualControlInput(c));
    NotPressed(lib, id, c, xs[k]);
    url, run := SafeUrl(""), 0;
    if xs[k].effects != [] {
      url, run := PressedIs(lib, id, c, xs[k]);
      if Initialized(lib, xs[0].start) {
        AskedInitialized(lib, json, lines, xs, k, id, VirtualControlInputMessage(dto), VirtualControlInput(c));
        WorkedIsSafe(lib, xs[k], c, url);
      }
    }
  }

  lemma {:induction false} WorkedIsSafe(lib: Library, x: Exchange, c: ControlId, url: SafeUrl)
    requires Initialized(lib, x.at) && Works(x, c, url)
    ensures IsWebUrl(lib, url.text)
  {
    var actions := x.at.bindings[Binding(x.seen.active.value, c)];
    assert actions[0] in actions;
  }
}
