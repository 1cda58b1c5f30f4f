/** What the profile store is for, without tables: names and ages of profiles, which one is
  active, and a map from a control of a profile to its ordered actions. Every
  section of the repository that runs under the lock is one of these operations
  or changes nothing (crates/core-storage-sqlite/src/lib.rs). */
module Store {
  import opened Wrappers
  import opened Domain

  datatype Binding = Binding(profile: ProfileId, control: ControlId)

  datatype Store = Store(
    names: map<ProfileId, string>,
    created: map<ProfileId, int>,
    active: Option<ProfileId>,
    bindings: map<Binding, seq<Action>>)

  ghost predicate Invariant(lib: Library, s: Store) {
    && (forall id | id in s.names :: !lib.IsBlank(s.names[id]))
    && s.created.Keys == s.names.Keys
    && (s.active.Some? ==> s.active.value in s.names)
    && (forall b | b in s.bindings :: b.profile in s.names && s.bindings[b] != [] && lib.AllSafe(s.bindings[b]))
  }

  datatype Operation =
    | AddDefault(id: ProfileId, name: string, time: int)
    | AddProfile(id: ProfileId, name: string, time: int)
    | WriteName(id: ProfileId, name: string)
    | Activate(id: ProfileId)
    | Save(binding: Binding, actions: seq<Action>)
    | Clear(binding: Binding)

  function ProfileOf(op: Operation): ProfileId {
    match op
    case Save(b, _) => b.profile
    case Clear(b) => b.profile
    case _ => op.id
  }

  /** When the operation takes effect. */
  predicate Enabled(lib: Library, s: Store, op: Operation) {
    match op
    case AddDefault(id, name, _) => s.active.None? && id !in s.names && !lib.IsBlank(name)
    case AddProfile(id, name, _) => id !in s.names && !lib.IsBlank(name)
    case WriteName(id, name) => id in s.names && !lib.IsBlank(name)
    case Activate(id) => id in s.names && s.active.Some?
    case Save(b, actions) => b.profile in s.names && lib.AllSafe(actions)
    case Clear(b) => b.profile in s.names
  }

  function Bind(bindings: map<Binding, seq<Action>>, b: Binding, actions: seq<Action>): map<Binding, seq<Action>> {
    if actions == [] then bindings - {b} else bindings[b := actions]
  }

  function Apply(lib: Library, s: Store, op: Operation): Store {
    if !Enabled(lib, s, op) then s else
      match op
      case AddDefault(id, name, time) =>
        s.(names := s.names[id := name], created := s.created[id := time], active := Some(id))
      case AddProfile(id, name, time) => s.(names := s.names[id := name], created := s.created[id := time])
      case WriteName(id, name) => s.(names := s.names[id := name])
      case Activate(id) => s.(active := Some(id))
      case Save(b, actions) => s.(bindings := Bind(s.bindings, b, actions))
      case Clear(b) => s.(bindings := s.bindings - {b})
  }

  /** A run: the lock makes the sections of all connections one sequence. */
  function ApplyAll(lib: Library, s: Store, ops: seq<Operation>): Store {
    if ops == [] then s else Apply(lib, ApplyAll(lib, s, ops[..|ops| - 1]), ops[|ops| - 1])
  }

  /** `later` follows from `s` by sections of any connections. */
  ghost predicate Evolves(lib: Library, s: Store, later: Store) {
    exists ops :: ApplyAll(lib, s, ops) == later
  }

  lemma {:induction false} EvolvesReflexive(lib: Library, s: Store)
    ensures Evolves(lib, s, s)
  {
    assert ApplyAll(lib, s, []) == s;
  }

  lemma {:induction false} EvolvesStep(lib: Library, s: Store, op: Operation)
    ensures Evolves(lib, s, Apply(lib, s, op))
  {
    assert ApplyAll(lib, s, []) == s;
    assert ApplyAll(lib, s, [op]) == Apply(lib, s, op);
  }

  lemma {:induction false} EvolvesTransitive(lib: Library, s: Store, t: Store, u: Store)
    requires Evolves(lib, s, t) && Evolves(lib, t, u)
    ensures Evolves(lib, s, u)
  {
    var first :| ApplyAll(lib, s, first) == t;
    var second :| ApplyAll(lib, t, second) == u;
    ApplyAllAppend(lib, s, first, second);
  }

  lemma {:induction false} ApplyAllAppend(lib: Library, s: Store, first: seq<Operation>, second: seq<Operation>)
    ensures ApplyAll(lib, s, first + second) == ApplyAll(lib, ApplyAll(lib, s, first), second)
  {
    if second == [] {
      assert first + second == first;
    } else {
      ApplyAllAppend(lib, s, first, second[..|second| - 1]);
      assert (first + second)[..|first + second| - 1] == first + second[..|second| - 1];
    }
  }

  /** One operation, whether it takes effect or not. */
  lemma {:induction false} OperationKeeps(lib: Library, s: Store, op: Operation)
    requires Invariant(lib, s)
    ensures var later := Apply(lib, s, op);
      && Invariant(lib, later)
      && s.names.Keys <= later.names.Keys
      && (s.active.Some? ==> later.active.Some?)
  {
  }

  /** In every state of every run: the invariant holds, no profile is ever deleted,
    and once there is an active profile there is exactly one. */
  lemma {:induction false} RunKeeps(lib: Library, s: Store, ops: seq<Operation>)
    requires Invariant(lib, s)
    ensures var later := ApplyAll(lib, s, ops);
      && Invariant(lib, later)
      && s.names.Keys <= later.names.Keys
      && (s.active.Some? ==> later.active.Some?)
  {
    if ops != [] {
      RunKeeps(lib, s, ops[..|ops| - 1]);
      OperationKeeps(lib, ApplyAll(lib, s, ops[..|ops| - 1]), ops[|ops| - 1]);
    }
  }

  lemma {:induction false} EvolutionKeeps(lib: Library, s: Store, later: Store)
    requires Invariant(lib, s) && Evolves(lib, s, later)
    ensures Invariant(lib, later)
    ensures s.names.Keys <= later.names.Keys
    ensures s.active.Some? ==> later.active.Some?
  {
    var ops :| ApplyAll(lib, s, ops) == later;
    RunKeeps(lib, s, ops);
  }

  /** A rename reads the profile in one section and writes the name in another.
    Whatever other connections do in between, the write takes effect, and it
    changes nothing but that name: of all updates made in between, only another
    rename of the same profile is overwritten. */
  lemma {:induction false} RenameLosesNothing(lib: Library, s: Store, between: seq<Operation>, id: ProfileId,
                                              name: string)
    requires Invariant(lib, s) && id in s.names && !lib.IsBlank(name)
    ensures var mid := ApplyAll(lib, s, between);
      && Enabled(lib, mid, WriteName(id, name))
      && ApplyAll(lib, s, between + [WriteName(id, name)]) == mid.(names := mid.names[id := name])
  {
    RunKeeps(lib, s, between);
    ApplyAllAppend(lib, s, between, [WriteName(id, name)]);
    var mid := ApplyAll(lib, s, between);
    assert ApplyAll(lib, mid, []) == mid;
    assert ApplyAll(lib, mid, [WriteName(id, name)]) == Apply(lib, mid, WriteName(id, name));
  }

  /** Saving no actions is clearing. */
  lemma {:induction false} SaveNothingIsClear(lib: Library, s: Store, b: Binding)
    ensures Apply(lib, s, Save(b, [])) == Apply(lib, s, Clear(b))
  {
  }

  /** Only the last save or clear of a control counts: over any run, what a control
    is bound to afterwards is what the last operation that took effect on it left. */
  lemma {:induction false} LastWriteWins(lib: Library, s: Store, b: Binding, actions: seq<Action>,
                                         later: seq<Operation>)
    requires Enabled(lib, s, Save(b, actions))
    requires forall i | 0 <= i < |later| :: !(later[i].Save? || later[i].Clear?) || later[i].binding != b
    ensures var t := ApplyAll(lib, Apply(lib, s, Save(b, actions)), later);
      && (b in t.bindings <==> actions != [])
      && (actions != [] ==> t.bindings[b] == actions)
  {
    if later != [] {
      LastWriteWins(lib, s, b, actions, later[..|later| - 1]);
    }
  }
}
