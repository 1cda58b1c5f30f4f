/** From a message through the domain, the rows and back to a message
  (crates/core-ipc/src/lib.rs, crates/core-storage-sqlite/src/lib.rs). */
module RoundTrip {
  import opened Wrappers
  import opened Domain
  import opened App
  import opened Store
  import opened Refinement
  import opened Queries
  import opened Protocol
  import opened Session
  import opened Service
  import opened Connection

  /** The entries of a snapshot message for one control of one profile. */
  function EntriesOf(entries: seq<SnapshotAssignmentDto>, profileId: string, control: ControlDto): set<int> {
    set i | 0 <= i < |entries| && entries[i].profileId == profileId && entries[i].control == control
  }

  /** A snapshot message has exactly one entry for a bound control, with its actions in
    order, and none for any other. */
  lemma {:induction false} MessageEntries(lib: Library, assignments: seq<Assignment>,
      bindings: map<Binding, seq<Action>>, entries: seq<SnapshotAssignmentDto>, b: Binding)
    requires lib.Lawful() && ListsBindings(assignments, bindings) && |entries| == |assignments|
    requires forall i | 0 <= i < |entries| :: entries[i] == SnapshotAssignmentToDto(lib, assignments[i])
    ensures var found := EntriesOf(entries, lib.printUuid(b.profile), ControlToDto(b.control));
      && |found| == (if b in bindings then 1 else 0)
      && forall i | i in found ::
           && |entries[i].actions| == |bindings[b]|
           && forall j | 0 <= j < |bindings[b]| :: entries[i].actions[j] == ActionToDto(bindings[b][j])
  {
    OneEntryEach(assignments, bindings, b);
    var listed := set i | 0 <= i < |assignments| && Binding(assignments[i].profileId, assignments[i].control) == b;
    var found := EntriesOf(entries, lib.printUuid(b.profile), ControlToDto(b.control));
    forall i | 0 <= i < |entries|
      ensures i in found <==> i in listed
    {
      if i in found {
        PrintInjective(lib, assignments[i].profileId, b.profile);
        ControlDtoIff(entries[i].control, assignments[i].control);
        ControlDtoIff(entries[i].control, b.control);
      }
    }
    assert found == listed;
  }

  /** Nothing in `later` writes the control. */
  ghost predicate LeavesAlone(later: seq<Operation>, b: Binding) {
    forall i | 0 <= i < |later| :: !(later[i].Save? || later[i].Clear?) || later[i].binding != b
  }

  /** An assignment that was acknowledged is in every snapshot taken until the control
    is written again: exactly one entry, for the same control, with the one action
    that was sent, and the profile id as UUIDs are printed. Other profiles and
    controls may change in between. */
  lemma {:induction false} SavedIsListed(lib: Library, dto: AssignmentDto, saveId: string, save: Exchange,
                                         later: seq<Operation>, readId: string, read: Exchange)
    requires lib.Lawful() && AssignmentFromDto(lib, dto).Success?
    requires Handled(lib, Route(saveId, SaveAssignment(AssignmentFromDto(lib, dto).value)), save)
    requires save.reply == AcknowledgedMessage(saveId)
    requires Handled(lib, Route(readId, GetSnapshot), read) && read.reply.SnapshotMessage?
    requires var a := AssignmentFromDto(lib, dto).value;
      read.at == ApplyAll(lib, save.after, later) && LeavesAlone(later, Binding(a.profileId, a.control))
    ensures lib.parseUuid(dto.profileId).Some?
    ensures var found := EntriesOf(read.reply.assignments, lib.printUuid(lib.parseUuid(dto.profileId).value),
                                   dto.control);
      |found| == 1 && forall i | i in found :: read.reply.assignments[i].actions == [dto.action]
  {
    var a := AssignmentFromDto(lib, dto).value;
    var b := Binding(a.profileId, a.control);
    ControlDtoIff(dto.control, a.control);
    SaveTookEffect(lib, saveId, a, save);
    LastWriteWins(lib, save.at, b, a.actions, later);
    SnapshotMessageEntries(lib, readId, read, b);
    assert ActionToDto(a.actions[0]) == dto.action;
  }

  /** A control that was cleared is in no snapshot until it is written again. */
  lemma {:induction false} ClearedIsGone(lib: Library, profile: ProfileId, control: ControlId, clearId: string,
                                         clear: Exchange, later: seq<Operation>, readId: string, read: Exchange)
    requires lib.Lawful()
    requires Handled(lib, Route(clearId, ClearAssignment(profile, control)), clear)
    requires clear.reply == AcknowledgedMessage(clearId)
    requires Handled(lib, Route(readId, GetSnapshot), read) && read.reply.SnapshotMessage?
    requires read.at == ApplyAll(lib, clear.after, later) && LeavesAlone(later, Binding(profile, control))
    ensures EntriesOf(read.reply.assignments, lib.printUuid(profile), ControlToDto(control)) == {}
  {
    var b := Binding(profile, control);
    ClearTookEffect(lib, clearId, profile, control, clear);
    SaveNothingIsClear(lib, clear.at, b);
    LastWriteWins(lib, clear.at, b, [], later);
    SnapshotMessageEntries(lib, readId, read, b);
  }

  lemma {:induction false} SaveTookEffect(lib: Library, requestId: string, a: Assignment, x: Exchange)
    requires Handled(lib, Route(requestId, SaveAssignment(a)), x) && x.reply == AcknowledgedMessage(requestId)
    ensures var op := Save(Binding(a.profileId, a.control), a.actions);
      Enabled(lib, x.at, op) && x.after == Apply(lib, x.at, op)
  {
  }

  lemma {:induction false} ClearTookEffect(lib: Library, requestId: string, profile: ProfileId, control: ControlId,
                                           x: Exchange)
    requires Handled(lib, Route(requestId, ClearAssignment(profile, control)), x)
    requires x.reply == AcknowledgedMessage(requestId)
    ensures var op := Clear(Binding(profile, control));
      Enabled(lib, x.at, op) && x.after == Apply(lib, x.at, op)
  {
  }

  lemma {:induction false} SnapshotMessageEntries(lib: Library, requestId: string, x: Exchange, b: Binding)
    requires lib.Lawful() && Handled(lib, Route(requestId, GetSnapshot), x) && x.reply.SnapshotMessage?
    ensures var found := EntriesOf(x.reply.assignments, lib.printUuid(b.profile), ControlToDto(b.control));
      && |found| == (if b in x.at.bindings then 1 else 0)
      && forall i | i in found ::
           && |x.reply.assignments[i].actions| == |x.at.bindings[b]|
           && forall j | 0 <= j < |x.at.bindings[b]| ::
                x.reply.assignments[i].actions[j] == ActionToDto(x.at.bindings[b][j])
  {
    assert x.result.Success?;
    var assignments := x.result.value.snapshot.assignments;
    MessageEntries(lib, assignments, x.at.bindings, x.reply.assignments, b);
  }
}
