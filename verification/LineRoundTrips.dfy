/** What a client reads after what it wrote, from line to line, whatever other connections
  do in between but undo it (crates/core-ipc/src/lib.rs,
  crates/core-storage-sqlite/src/lib.rs). */
module LineRoundTrips {
  import opened Wrappers
  import opened Domain
  import opened App
  import opened Store
  import opened Refinement
  import opened Protocol
  import opened Session
  import opened Service
  import opened Connection
  import opened ConnectionGuarantees
  import opened Lines
  import opened LineEffects

  // ------------------------------------------------------------------------
  // What operations leave alone
  // ------------------------------------------------------------------------

  ghost predicate Rebinds(op: Operation, b: Binding) {
    (op.Save? || op.Clear?) && op.binding == b
  }

  ghost predicate Renames(op: Operation, p: ProfileId) {
    op.WriteName? && op.id == p
  }

  ghost predicate Activates(op: Operation, p: ProfileId) {
    op.Activate? && op.id == p
  }

  lemma {:induction false} BindingKept(lib: Library, s: Store, later: seq<Operation>, b: Binding)
    requires forall op | op in later :: !Rebinds(op, b)
    ensures var t := ApplyAll(lib, s, later);
      (b in t.bindings <==> b in s.bindings) && (b in s.bindings ==> t.bindings[b] == s.bindings[b])
  {
    if later != [] {
      BindingKept(lib, s, later[..|later| - 1], b);
      assert later[|later| - 1] in later;
    }
  }

  lemma {:induction false} NameKept(lib: Library, s: Store, later: seq<Operation>, p: ProfileId)
    requires p in s.names && forall op | op in later :: !Renames(op, p)
    ensures var t := ApplyAll(lib, s, later); p in t.names && t.names[p] == s.names[p]
  {
    if later != [] {
      NameKept(lib, s, later[..|later| - 1], p);
      assert later[|later| - 1] in later;
    }
  }

  lemma {:induction false} ActiveKept(lib: Library, s: Store, later: seq<Operation>)
    requires s.active.Some? && forall op | op in later :: !op.Activate?
    ensures ApplyAll(lib, s, later).active == s.active
  {
    if later != [] {
      ActiveKept(lib, s, later[..|later| - 1]);
      assert later[|later| - 1] in later;
    }
  }

  lemma {:induction false} InactiveKept(lib: Library, s: Store, later: seq<Operation>, p: ProfileId)
    requires p in s.names && s.active != Some(p) && forall op | op in later :: !Activates(op, p)
    ensures var t := ApplyAll(lib, s, later); p in t.names && t.active != Some(p)
  {
    if later != [] {
      InactiveKept(lib, s, later[..|later| - 1], p);
      assert later[|later| - 1] in later;
    }
  }

  /** Between two lines there always is a sequence of operations. */
  lemma {:induction false} BetweenLines(lib: Library, json: Json, lines: seq<string>, xs: seq<Exchange>, i: nat, k: nat)
    requires i < k && Held(lib, json, lines, xs, k)
    ensures Evolves(lib, xs[i].after, xs[k].start)
    ensures DispatchAt(lib, json, lines, k).Route? ==> Evolves(lib, xs[i].after, xs[k].at)
  {
    forall j | 0 <= j <= k
      ensures Continues(lib, xs, j)
    {
      HandledAt(lib, json, lines, xs, j);
      ExchangeEvolves(lib, DispatchAt(lib, json, lines, j), xs[j]);
    }
    UpTo(lib, xs, i, k);
    HandledAt(lib, json, lines, xs, k);
    if DispatchAt(lib, json, lines, k).Route? {
      ExchangeEvolves(lib, DispatchAt(lib, json, lines, k), xs[k]);
      EvolvesTransitive(lib, xs[i].after, xs[k].start, xs[k].at);
    }
  }

  ghost predicate Continues(lib: Library, xs: seq<Exchange>, j: nat)
    requires j < |xs|
  {
    Evolves(lib, xs[j].start, xs[j].after) && (j > 0 ==> xs[j].start == xs[j - 1].after)
  }

  lemma {:induction false} UpTo(lib: Library, xs: seq<Exchange>, i: nat, k: nat)
    requires i < k < |xs| && forall j | 0 <= j <= k :: Continues(lib, xs, j)
    ensures Evolves(lib, xs[i].after, xs[k].start)
    decreases k
  {
    assert Continues(lib, xs, k) && Continues(lib, xs, k - 1);
    if i + 1 == k {
      EvolvesReflexive(lib, xs[k].start);
    } else {
      UpTo(lib, xs, i, k - 1);
      EvolvesTransitive(lib, xs[i].after, xs[k - 1].start, xs[k].start);
    }
  }

  // ------------------------------------------------------------------------
  // Assignments
  // ------------------------------------------------------------------------

  ghost predicate IsOf(lib: Library, entry: SnapshotAssignmentDto, p: ProfileId, dto: ControlDto) {
    entry.profileId == lib.printUuid(p) && entry.control == dto
  }

  lemma {:induction false} OneControl(lib: Library, dto: ControlDto, p: ProfileId, c: ControlId, b: Binding,
                                      actions: seq<Action>, entry: SnapshotAssignmentDto)
    requires lib.Lawful() && Names(dto, c) && ShowsBinding(lib, b, actions, entry)
    ensures IsOf(lib, entry, p, dto) <==> b == Binding(p, c)
  {
    NamesIff(dto);
    NamesIff(entry.control);
    if lib.printUuid(b.profile) == lib.printUuid(p) {
      PrintInjective(lib, b.profile, p);
    }
  }

  /** The entries of a control that is bound to this one action. */
  lemma {:induction false} OneEntry(lib: Library, s: Store, bs: seq<Binding>, entries: seq<SnapshotAssignmentDto>,
                                    dto: ControlDto, p: ProfileId, c: ControlId)
    returns (n: nat)
    requires lib.Lawful() && ShowsBindings(lib, s, bs, entries) && Names(dto, c) && Binding(p, c) in s.bindings
    ensures n < |entries| && ShowsBinding(lib, Binding(p, c), s.bindings[Binding(p, c)], entries[n])
    ensures forall j | 0 <= j < |entries| :: IsOf(lib, entries[j], p, dto) <==> j == n
  {
    n :| 0 <= n < |bs| && bs[n] == Binding(p, c);
    forall j | 0 <= j < |entries|
      ensures IsOf(lib, entries[j], p, dto) <==> j == n
    {
      OneControl(lib, dto, p, c, bs[j], s.bindings[bs[j]], entries[j]);
    }
  }

  lemma {:induction false} NoEntry(lib: Library, s: Store, bs: seq<Binding>, entries: seq<SnapshotAssignmentDto>,
                                   dto: ControlDto, p: ProfileId, c: ControlId)
    requires lib.Lawful() && ShowsBindings(lib, s, bs, entries) && Names(dto, c) && Binding(p, c) !in s.bindings
    ensures forall j | 0 <= j < |entries| :: !IsOf(lib, entries[j], p, dto)
  {
    forall j | 0 <= j < |entries|
      ensures !IsOf(lib, entries[j], p, dto)
    {
      OneControl(lib, dto, p, c, bs[j], s.bindings[bs[j]], entries[j]);
    }
  }

  /** An assignment that was acknowledged is in every snapshot read after it, as exactly
    one entry with the control and the action that were sent, until the control is
    written again. */
  lemma {:induction false} SavedLineIsShown(lib: Library, json: Json, lines: seq<string>, xs: seq<Exchange>, i: nat,
                                            saveId: string, dto: AssignmentDto, p: ProfileId, c: ControlId, k: nat,
                                            readId: string, later: seq<Operation>)
    returns (n: nat)
    requires lib.Lawful() && i < k
    requires Asked(lib, json, lines, xs, i, saveId, SaveAssignmentMessage(dto))
    requires xs[i].reply == AcknowledgedMessage(saveId)
    requires lib.parseUuid(dto.profileId) == Some(p) && Names(dto.control, c)
    requires Asked(lib, json, lines, xs, k, readId, GetSnapshotMessage) && xs[k].reply.SnapshotMessage?
    requires xs[k].at == ApplyAll(lib, xs[i].after, later)
    requires forall op | op in later :: !Rebinds(op, Binding(p, c))
    ensures var entries := xs[k].reply.assignments;
      && n < |entries| && entries[n] == SnapshotAssignmentDto(lib.printUuid(p), dto.control, [dto.action])
      && forall j | 0 <= j < |entries| && entries[j].profileId == lib.printUuid(p)
      && entries[j].control == dto.control ::
           j == n
  {
    LineAnswered(lib, json, lines, xs, i);
    SaveLine(lib, json, lines, xs, i, saveId, dto, p, c);
    BindingKept(lib, xs[i].after, later, Binding(p, c));
    var ids, bs := SnapshotLine(lib, json, lines, xs, k, readId);
    n := OneEntry(lib, xs[k].at, bs, xs[k].reply.assignments, dto.control, p, c);
    assert xs[k].reply.assignments[n].actions == [dto.action];
    assert IsOf(lib, xs[k].reply.assignments[n], p, dto.control);
  }

  /** A control that was cleared is in none, until it is written again. */
  lemma {:induction false} ClearedLineIsGone(lib: Library, json: Json, lines: seq<string>, xs: seq<Exchange>, i: nat,
                                             clearId: string, text: string, dto: ControlDto, p: ProfileId,
                                             c: ControlId, k: nat, readId: string, later: seq<Operation>)
    requires lib.Lawful() && i < k
    requires Asked(lib, json, lines, xs, i, clearId, ClearAssignmentMessage(text, dto))
    requires xs[i].reply == AcknowledgedMessage(clearId) && lib.parseUuid(text) == Some(p) && Names(dto, c)
    requires Asked(lib, json, lines, xs, k, readId, GetSnapshotMessage) && xs[k].reply.SnapshotMessage?
    requires xs[k].at == ApplyAll(lib, xs[i].after, later)
    requires forall op | op in later :: !Rebinds(op, Binding(p, c))
    ensures forall j | 0 <= j < |xs[k].reply.assignments| ::
      xs[k].reply.assignments[j].profileId != lib.printUuid(p) || xs[k].reply.assignments[j].control != dto
  {
    ClearLine(lib, json, lines, xs, i, clearId, text, dto, p, c);
    BindingKept(lib, xs[i].after, later, Binding(p, c));
    var ids, bs := SnapshotLine(lib, json, lines, xs, k, readId);
    NoEntry(lib, xs[k].at, bs, xs[k].reply.assignments, dto, p, c);
    forall j | 0 <= j < |xs[k].reply.assignments|
      ensures xs[k].reply.assignments[j].profileId != lib.printUuid(p) || xs[k].reply.assignments[j].control != dto
    {
      assert !IsOf(lib, xs[k].reply.assignments[j], p, dto);
    }
  }

  // ------------------------------------------------------------------------
  // Profiles
  // ------------------------------------------------------------------------

  /** Line `k` was answered with a list of profiles, alone or in a snapshot. */
  ghost predicate ReadsProfiles(lib: Library, json: Json, lines: seq<string>, xs: seq<Exchange>, k: nat, id: string) {
    || (Asked(lib, json, lines, xs, k, id, ListProfilesMessage) && xs[k].reply.ProfilesMessage?)
    || (Asked(lib, json, lines, xs, k, id, GetSnapshotMessage) && xs[k].reply.SnapshotMessage?)
  }

  /** The profile has exactly one entry. */
  lemma {:induction false} OneProfileEntry(lib: Library, json: Json, lines: seq<string>, xs: seq<Exchange>, k: nat,
                                           id: string, p: ProfileId)
    returns (n: nat)
    requires lib.Lawful() && ReadsProfiles(lib, json, lines, xs, k, id) && p in xs[k].at.names
    ensures n < |xs[k].reply.profiles| && Shows(lib, xs[k].at, p, xs[k].reply.profiles[n])
    ensures forall j | 0 <= j < |xs[k].reply.profiles| ::
      xs[k].reply.profiles[j].id == lib.printUuid(p) <==> j == n
  {
    var ids, bs;
    if xs[k].reply.ProfilesMessage? {
      ids := ListLine(lib, json, lines, xs, k, id);
    } else {
      ids, bs := SnapshotLine(lib, json, lines, xs, k, id);
    }
    n := OneShown(lib, xs[k].at, ids, xs[k].reply.profiles, p);
  }

  lemma {:induction false} OneShown(lib: Library, s: Store, ids: seq<ProfileId>, dtos: seq<ProfileDto>, p: ProfileId)
    returns (n: nat)
    requires lib.Lawful() && ShowsProfiles(lib, s, ids, dtos) && p in s.names
    ensures n < |dtos| && Shows(lib, s, p, dtos[n])
    ensures forall j | 0 <= j < |dtos| :: dtos[j].id == lib.printUuid(p) <==> j == n
  {
    assert p in ids;
    n :| 0 <= n < |ids| && ids[n] == p;
    assert Shows(lib, s, ids[n], dtos[n]);
    forall j | 0 <= j < |dtos|
      ensures dtos[j].id == lib.printUuid(p) <==> j == n
    {
      assert Shows(lib, s, ids[j], dtos[j]);
      if dtos[j].id == lib.printUuid(p) {
        PrintInjective(lib, ids[j], p);
      }
    }
  }

  /** A profile that was created has exactly one entry in every list read after it, with
    the name that was sent, and inactive, until it is renamed or activated. */
  lemma {:induction false} CreatedLineIsShown(lib: Library, json: Json, lines: seq<string>, xs: seq<Exchange>, i: nat,
                                              createId: string, name: string, k: nat, readId: string,
                                              later: seq<Operation>)
    returns (p: ProfileId, n: nat)
    requires lib.Lawful() && i < k
    requires Asked(lib, json, lines, xs, i, createId, CreateProfileMessage(name)) && xs[i].reply.ProfileMessage?
    requires Initialized(lib, xs[0].start)
    requires ReadsProfiles(lib, json, lines, xs, k, readId) && xs[k].at == ApplyAll(lib, xs[i].after, later)
    requires forall op | op in later :: (op.WriteName? || op.Activate?) ==>
      lib.printUuid(op.id) != xs[i].reply.profile.id
    ensures xs[i].reply.profile == ProfileDto(lib.printUuid(p), name, false)
    ensures n < |xs[k].reply.profiles| && xs[k].reply.profiles[n] == xs[i].reply.profile
    ensures forall j | 0 <= j < |xs[k].reply.profiles| ::
      xs[k].reply.profiles[j].id == xs[i].reply.profile.id <==> j == n
  {
    CreateLine(lib, json, lines, xs, i, createId, name);
    p := xs[i].result.value.profile.id;
    AskedInitialized(lib, json, lines, xs, i, createId, CreateProfileMessage(name), CreateProfile(name));
    NameKept(lib, xs[i].after, later, p);
    InactiveKept(lib, xs[i].after, later, p);
    n := OneProfileEntry(lib, json, lines, xs, k, readId, p);
  }

  /** A profile that was renamed has exactly one entry, with the name that was sent, until
    it is renamed again. */
  lemma {:induction false} RenamedLineIsShown(lib: Library, json: Json, lines: seq<string>, xs: seq<Exchange>, i: nat,
                                              renameId: string, text: string, name: string, p: ProfileId, k: nat,
                                              readId: string, later: seq<Operation>)
    returns (n: nat)
    requires lib.Lawful() && i < k && lib.parseUuid(text) == Some(p)
    requires Asked(lib, json, lines, xs, i, renameId, RenameProfileMessage(text, name)) && xs[i].reply.ProfileMessage?
    requires ReadsProfiles(lib, json, lines, xs, k, readId) && xs[k].at == ApplyAll(lib, xs[i].after, later)
    requires forall op | op in later :: !Renames(op, p)
    ensures n < |xs[k].reply.profiles| && xs[k].reply.profiles[n].name == name
    ensures forall j | 0 <= j < |xs[k].reply.profiles| ::
      xs[k].reply.profiles[j].id == lib.printUuid(p) <==> j == n
  {
    RenameLine(lib, json, lines, xs, i, renameId, text, name, p);
    NameKept(lib, xs[i].after, later, p);
    n := OneProfileEntry(lib, json, lines, xs, k, readId, p);
  }

  /** A profile that was activated is the one active entry, until another is activated. */
  lemma {:induction false} ActivatedLineIsShown(lib: Library, json: Json, lines: seq<string>, xs: seq<Exchange>,
                                                i: nat, activateId: string, text: string, p: ProfileId, k: nat,
                                                readId: string, later: seq<Operation>)
    returns (n: nat)
    requires lib.Lawful() && i < k && lib.parseUuid(text) == Some(p)
    requires Asked(lib, json, lines, xs, i, activateId, SetActiveProfileMessage(text))
    requires xs[i].reply == AcknowledgedMessage(activateId)
    requires ReadsProfiles(lib, json, lines, xs, k, readId) && xs[k].at == ApplyAll(lib, xs[i].after, later)
    requires forall op | op in later :: !op.Activate?
    ensures n < |xs[k].reply.profiles| && xs[k].reply.profiles[n].id == lib.printUuid(p)
    ensures forall j | 0 <= j < |xs[k].reply.profiles| :: xs[k].reply.profiles[j].isActive <==> j == n
  {
    SetActiveLine(lib, json, lines, xs, i, activateId, text, p);
    ActiveKept(lib, xs[i].after, later);
    ProfileKept(lib, xs[i].after, later, p);
    n := OneActiveEntry(lib, json, lines, xs, k, readId, p);
  }

  lemma {:induction false} ProfileKept(lib: Library, s: Store, later: seq<Operation>, p: ProfileId)
    requires p in s.names
    ensures p in ApplyAll(lib, s, later).names
  {
    if later != [] {
      ProfileKept(lib, s, later[..|later| - 1], p);
    }
  }

  lemma {:induction false} OneActiveEntry(lib: Library, json: Json, lines: seq<string>, xs: seq<Exchange>, k: nat,
                                          id: string, p: ProfileId)
    returns (n: nat)
    requires lib.Lawful() && ReadsProfiles(lib, json, lines, xs, k, id)
    requires xs[k].at.active == Some(p) && p in xs[k].at.names
    ensures n < |xs[k].reply.profiles| && xs[k].reply.profiles[n].id == lib.printUuid(p)
    ensures forall j | 0 <= j < |xs[k].reply.profiles| :: xs[k].reply.profiles[j].isActive <==> j == n
  {
    var ids, bs;
    if xs[k].reply.ProfilesMessage? {
      ids := ListLine(lib, json, lines, xs, k, id);
    } else {
      ids, bs := SnapshotLine(lib, json, lines, xs, k, id);
    }
    n := OneShownActive(lib, xs[k].at, ids, xs[k].reply.profiles, p);
  }

  lemma {:induction false} OneShownActive(lib: Library, s: Store, ids: seq<ProfileId>, dtos: seq<ProfileDto>,
                                          p: ProfileId)
    returns (n: nat)
    requires ShowsProfiles(lib, s, ids, dtos) && s.active == Some(p) && p in s.names
    ensures n < |dtos| && dtos[n].id == lib.printUuid(p)
    ensures forall j | 0 <= j < |dtos| :: dtos[j].isActive <==> j == n
  {
    assert p in ids;
    n :| 0 <= n < |ids| && ids[n] == p;
    assert Shows(lib, s, ids[n], dtos[n]);
    forall j | 0 <= j < |dtos|
      ensures dtos[j].isActive <==> j == n
    {
      assert Shows(lib, s, ids[j], dtos[j]);
    }
  }
}
